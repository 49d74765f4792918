// The payer's checks on the locked TAO, and the calls that lock, claim and refund it.

module TaoEvmSettlementProvider {

  import opened Prelude
  import opened JsText
  import opened TaoHtlc
  import opened TimelockPolicy

  // The trimmed text of an address field: one address has several spellings.
  datatype AddressText = NotAnAddress(text: nat) | AddressText(address: Address, spelling: nat)

  function Normalize(t: AddressText): Option<Address> {
    match t
    case NotAnAddress(_) => None
    case AddressText(a, _) => Some(a)
  }

  datatype Field<+T> = Missing | Malformed | Present(value: T)

  datatype Terms = Terms(
    amount: string, recipient: Option<AddressText>, refund: Option<AddressText>, refundAfter: Option<int>, btcSats: nat)

  datatype InvoiceBody = InvoiceBody(hash: Field<Hash>, expiresAt: Option<int>)

  // refundAfter is None when the field does not read as an integer.
  datatype EscrowBody = EscrowBody(
    settlementId: Field<SwapId>, hash: Field<Hash>, amount: string, recipient: AddressText, refund: AddressText,
    refundAfter: Option<int>, htlc: AddressText)

  datatype Config = Config(htlc: Address, minRefundSafetySec: nat)

  // The metadata a successful on-chain read returns.
  datatype OnChain = OnChain(id: SwapId, swap: Swap)

  function VerifyPrePay(c: Chain, id: SwapId, hash: Hash, now: Option<int>): Result<OnChain> {
    var s := Swaps(c, id);
    if s.sender == 0 then Err("swap not found on chain")
    else if s.hashlock != hash then Err("swap hashlock mismatch")
    else if s.claimed || s.refunded then Err("swap not active")
    else if now.Some? && now.value <= 0 then Err("nowUnix must be a unix seconds integer")
    else if now.Some? && now.value >= s.refundAfter then Err("swap refund_after already reached")
    else Ok(OnChain(id, s))
  }

  function PaymentHash(inv: InvoiceBody, esc: EscrowBody): Field<Hash> {
    if inv.hash.Missing? then esc.hash else inv.hash
  }

  // Checks made before the chain is read.
  function VerifyBodies(terms: Terms, inv: InvoiceBody, esc: EscrowBody): Result<(SwapId, Hash)> {
    var hash := PaymentHash(inv, esc);
    if esc.settlementId.Missing? then Err("escrowBody.settlement_id is required")
    else if esc.settlementId.Malformed? then Err("escrowBody.settlement_id must be a 0x-prefixed 32-byte hex string")
    else if !hash.Present? then Err("payment_hash_hex is required (32-byte hex without 0x)")
    else if esc.hash != hash then Err("payment_hash mismatch (invoice vs lock message)")
    else if terms.recipient.Some? && terms.recipient.value != esc.recipient then Err("lock recipient mismatch vs terms")
    else if terms.refund.Some? && terms.refund.value != esc.refund then Err("lock refund mismatch vs terms")
    else if terms.amount != "" && terms.amount != esc.amount then Err("lock amount mismatch vs terms")
    else if terms.refundAfter.Some? && esc.refundAfter.Some? && esc.refundAfter.value < terms.refundAfter.value
      then Err("lock refund_after_unix earlier than terms")
    else Ok((esc.settlementId.value, hash.value))
  }

  // Checks of the on-chain amounts and times against the lock message and the terms.
  function VerifyAmounts(cfg: Config, terms: Terms, inv: InvoiceBody, esc: EscrowBody, s: Swap, now: Option<int>): Result<()> {
    if !IsNumeral(esc.amount) then Err("escrowBody.amount_atomic is required")
    else if Decimal(s.amount) != esc.amount then Err("amount_atomic mismatch vs on-chain")
    else if terms.amount != "" && terms.amount != Decimal(s.amount) then Err("amount_atomic mismatch vs terms")
    else if esc.refundAfter.None? || esc.refundAfter.value <= 0 then Err("escrowBody.refund_after_unix is required")
    else if s.refundAfter == 0 then Err("on-chain refund_after_unix is missing")
    else if s.refundAfter != esc.refundAfter.value then Err("refund_after_unix mismatch vs on-chain")
    else if terms.refundAfter.Some? && terms.refundAfter.value <= 0 then Err("terms.sol_refund_after_unix is invalid")
    else if terms.refundAfter.Some? && terms.refundAfter.value != s.refundAfter then Err("refund_after_unix mismatch vs terms")
    else
      match Evaluate(Some(s.refundAfter), inv.expiresAt, now, cfg.minRefundSafetySec, 0, true)
      case TimelockTooShort => Err("refund_after_unix too soon for safe pay")
      case InvoiceExpiryStrict => Err("refund_after_unix must be > invoice_expiry_unix + min")
      case _ => Ok(())
  }

  function VerifyAddresses(cfg: Config, terms: Terms, esc: EscrowBody, s: Swap): Result<()> {
    if Normalize(esc.htlc).None? then Err("escrowBody.htlc_address must be an EVM address")
    else if Normalize(esc.htlc).value != cfg.htlc then Err("htlc_address mismatch vs configured TAO_EVM_HTLC_ADDRESS")
    else if Normalize(esc.recipient).None? then Err("escrowBody.recipient must be an EVM address")
    else if terms.recipient.Some? && Normalize(terms.recipient.value).None? then Err("terms.sol_recipient must be an EVM address")
    else if Normalize(esc.refund).None? then Err("escrowBody.refund must be an EVM address")
    else if terms.refund.Some? && Normalize(terms.refund.value).None? then Err("terms.sol_refund must be an EVM address")
    else if s.receiver != Normalize(esc.recipient).value then Err("recipient mismatch vs on-chain receiver")
    else if terms.recipient.Some? && s.receiver != Normalize(terms.recipient.value).value then Err("recipient mismatch vs terms")
    else if s.sender != Normalize(esc.refund).value then Err("refund mismatch vs on-chain sender")
    else if terms.refund.Some? && s.sender != Normalize(terms.refund.value).value then Err("refund mismatch vs terms")
    else Ok(())
  }

  function VerifySwapPrePayOnchain(cfg: Config, c: Chain, terms: Terms, inv: InvoiceBody, esc: EscrowBody, now: Option<int>)
    : Result<OnChain>
  {
    match VerifyBodies(terms, inv, esc)
    case Err(e) => Err(e)
    case Ok((id, hash)) =>
      match VerifyPrePay(c, id, hash, now)
      case Err(e) => Err(e)
      case Ok(md) =>
        match VerifyAmounts(cfg, terms, inv, esc, md.swap, now)
        case Err(e) => Err(e)
        case Ok(_) =>
          match VerifyAddresses(cfg, terms, esc, md.swap)
          case Err(e) => Err(e)
          case Ok(_) => Ok(md)
  }

  // ---------------------------------------------------------------- what the checks mean

  // The terms the swap envelope schema lets through: every settlement field is there.
  predicate Complete(terms: Terms) {
    IsNumeral(terms.amount) && terms.recipient.Some? && terms.refund.Some?
    && terms.refundAfter.Some? && terms.refundAfter.value > 0
  }

  // The locked coins are the ones the terms name, still open, and safe to pay for at time now.
  ghost predicate LockedAsAgreed(cfg: Config, c: Chain, id: SwapId, terms: Terms, hash: Hash, now: int,
                                 expiresAt: Option<int>)
    requires Complete(terms)
  {
    && id in c.swaps
    && id.hashlock == hash
    && Decimal(id.amount) == terms.amount
    && Some(id.receiver) == Normalize(terms.recipient.value)
    && Some(id.sender) == Normalize(terms.refund.value)
    && id.refundAfter == terms.refundAfter.value
    && now < id.refundAfter && now + cfg.minRefundSafetySec <= id.refundAfter
    && (expiresAt.Some? && expiresAt.value > 0 ==> expiresAt.value + cfg.minRefundSafetySec < id.refundAfter)
  }

  // The lock message repeats the terms, naming the same contract and the swap's id and hash.
  predicate MessageMatches(cfg: Config, terms: Terms, inv: InvoiceBody, esc: EscrowBody, id: SwapId, hash: Hash)
    requires Complete(terms)
  {
    && esc.settlementId == Present(id)
    && (inv.hash == Present(hash) || inv.hash.Missing?) && esc.hash == Present(hash)
    && esc.recipient == terms.recipient.value && esc.refund == terms.refund.value
    && esc.amount == terms.amount && esc.refundAfter == terms.refundAfter
    && Normalize(esc.htlc) == Some(cfg.htlc)
  }

  // On any reachable contract state, the long chain of checks succeeds exactly when the message is
  // faithful to the terms and the chain holds what the terms promise.
  lemma PrePayExact(cfg: Config, c: Chain, terms: Terms, inv: InvoiceBody, esc: EscrowBody, now: int)
    requires Sound(c) && Complete(terms) && now > 0
    ensures VerifySwapPrePayOnchain(cfg, c, terms, inv, esc, Some(now)).Ok?
       <==> (&& esc.settlementId.Present? && esc.hash.Present?
             && MessageMatches(cfg, terms, inv, esc, esc.settlementId.value, esc.hash.value)
             && LockedAsAgreed(cfg, c, esc.settlementId.value, terms, esc.hash.value, now, inv.expiresAt))
    ensures var r := VerifySwapPrePayOnchain(cfg, c, terms, inv, esc, Some(now));
      r.Ok? ==> esc.settlementId == Present(r.value.id)
  {
    BodiesExact(terms, inv, esc);
    if VerifyBodies(terms, inv, esc).Ok? {
      var id, hash := esc.settlementId.value, esc.hash.value;
      OpenSwapVerifies(c, id, hash, now);
      if id in c.swaps {
        AmountsExact(cfg, terms, inv, esc, c.swaps[id], now);
        AddressesExact(cfg, terms, esc, c.swaps[id]);
      }
    }
  }

  lemma OpenSwapVerifies(c: Chain, id: SwapId, hash: Hash, now: int)
    requires Sound(c)
    ensures VerifyPrePay(c, id, hash, Some(now)).Ok?
       <==> id in c.swaps && id.hashlock == hash && 0 < now < id.refundAfter
    ensures var r := VerifyPrePay(c, id, hash, Some(now)); r.Ok? ==> r.value == OnChain(id, c.swaps[id])
  {
  }

  lemma AmountsExact(cfg: Config, terms: Terms, inv: InvoiceBody, esc: EscrowBody, s: Swap, now: int)
    requires Complete(terms) && now > 0
    ensures VerifyAmounts(cfg, terms, inv, esc, s, Some(now)).Ok?
       <==> (&& esc.amount == terms.amount == Decimal(s.amount)
             && esc.refundAfter == terms.refundAfter && s.refundAfter == terms.refundAfter.value
             && now + cfg.minRefundSafetySec <= s.refundAfter
             && (inv.expiresAt.Some? && inv.expiresAt.value > 0 ==>
                   inv.expiresAt.value + cfg.minRefundSafetySec < s.refundAfter))
  {
  }

  lemma BodiesExact(terms: Terms, inv: InvoiceBody, esc: EscrowBody)
    requires Complete(terms)
    ensures VerifyBodies(terms, inv, esc).Ok?
       <==> (&& esc.settlementId.Present? && esc.hash.Present? && (inv.hash == esc.hash || inv.hash.Missing?)
             && esc.recipient == terms.recipient.value && esc.refund == terms.refund.value
             && esc.amount == terms.amount
             && (esc.refundAfter.Some? ==> esc.refundAfter.value >= terms.refundAfter.value))
    ensures VerifyBodies(terms, inv, esc).Ok? ==>
              VerifyBodies(terms, inv, esc).value == (esc.settlementId.value, esc.hash.value)
  {
  }

  lemma AddressesExact(cfg: Config, terms: Terms, esc: EscrowBody, s: Swap)
    requires Complete(terms) && esc.recipient == terms.recipient.value && esc.refund == terms.refund.value
    ensures VerifyAddresses(cfg, terms, esc, s).Ok?
       <==> (&& Normalize(esc.htlc) == Some(cfg.htlc)
             && Some(s.receiver) == Normalize(terms.recipient.value)
             && Some(s.sender) == Normalize(terms.refund.value))
  {
  }

  // The contract deletes closed swaps, so the payer never sees "swap not active": a claimed or
  // refunded swap reads as not found.
  lemma ClosedReadsAsMissing(c: Chain, id: SwapId, hash: Hash, now: Option<int>)
    requires Sound(c)
    ensures VerifyPrePay(c, id, hash, now) != Err("swap not active")
    ensures id !in c.swaps ==> VerifyPrePay(c, id, hash, now) == Err("swap not found on chain")
  {
  }

  // ---------------------------------------------------------------- the provider

  datatype LockInput = LockInput(recipient: AddressText, refundAddress: AddressText, hash: Option<Hash>,
                                 amount: Option<nat>, refundAfter: Option<int>, salt: Option<nat>)

  datatype Metadata = Metadata(sender: Option<Address>, preimage: Option<Bytes>, closed: bool)

  function MetadataOf(metadata: map<SwapId, Metadata>, id: SwapId): Metadata {
    if id in metadata then metadata[id] else Metadata(None, None, false)
  }

  // The checks of lock() before anything is sent, and the id it computes.
  function LockRequest(cfg: Config, signer: Address, input: LockInput, now: nat, randomSalt: nat): Result<SwapId> {
    match (Normalize(input.recipient), Normalize(input.refundAddress))
    case (None, _) => Err("recipient must be an EVM address")
    case (Some(receiver), refund) =>
      if receiver == 0 then Err("recipient must not be zero address")
      else if refund.None? then Err("refundAddress must be an EVM address")
      else if refund.value == 0 then Err("refundAddress must not be zero address")
      else if refund.value != signer then Err("refundAddress must match signer address")
      else if input.hash.None? then Err("paymentHashHex must be 32-byte hex without 0x prefix")
      else if input.amount.None? then Err("amountAtomic must be a positive wei integer string")
      else if input.amount.value == 0 then Err("amountAtomic must be > 0")
      else if input.refundAfter.None? || input.refundAfter.value <= 0 then Err("refundAfterUnix must be a unix seconds integer")
      else if input.refundAfter.value < now + cfg.minRefundSafetySec then Err("refundAfterUnix too soon")
      else
        Ok(SwapId(signer, receiver, input.amount.value, input.refundAfter.value, input.hash.value,
                  if input.salt.Some? then input.salt.value else randomSalt))
  }

  // What lock() asks for, by what it is asked: the signer's own lock to another address, of a positive
  // amount, refundable late enough, under the given salt or a fresh one.
  lemma LockRequestExactly(cfg: Config, signer: Address, input: LockInput, now: nat, randomSalt: nat)
    requires signer != 0
    ensures var q := LockRequest(cfg, signer, input, now, randomSalt);
      && (q.Ok? <==>
            && input.recipient.AddressText? && input.recipient.address != 0
            && input.refundAddress.AddressText? && input.refundAddress.address == signer
            && input.hash.Some? && input.amount.Some? && input.amount.value > 0
            && input.refundAfter.Some? && input.refundAfter.value > 0 && now + cfg.minRefundSafetySec <= input.refundAfter.value)
      && (q.Ok? ==>
            && q.value.sender == signer && q.value.receiver == input.recipient.address
            && q.value.amount == input.amount.value && q.value.refundAfter == input.refundAfter.value
            && q.value.hashlock == input.hash.value
            && q.value.salt == match input.salt { case Some(salt) => salt case None => randomSalt })
  {
  }

  function LockOn(c: Chain, now: nat, id: SwapId): Result<(Chain, SwapId)> {
    TaoHtlc.Lock(c, now, id.sender, id.receiver, id.amount, id.refundAfter, id.hashlock, id.salt)
  }

  class Provider {
    const cfg: Config
    const signer: Address
    const htlc: Contract
    var metadata: map<SwapId, Metadata>

    constructor (cfg: Config, signer: Address, htlc: Contract)
      requires signer != 0
      ensures this.cfg == cfg && this.signer == signer && this.htlc == htlc && metadata == map[]
    {
      this.cfg, this.signer, this.htlc, metadata := cfg, signer, htlc, map[];
    }

    // Up to the broadcast a refusal changes nothing. From then on the metadata names the swap, whether
    // or not the transaction goes through when it is mined; if it does, the payer's own check passes
    // at any time before the refund.
    method Lock(input: LockInput, now: nat, randomSalt: nat, broadcast: bool, minedAt: nat) returns (r: Result<SwapId>)
      requires signer != 0 && Sound(htlc.State())
      modifies this, htlc
      ensures Sound(htlc.State()) && Supply(htlc.State()) == old(Supply(htlc.State()))
      ensures var q := LockRequest(cfg, signer, input, now, randomSalt);
        if q.Err? || !broadcast then
          r.Err? && htlc.State() == old(htlc.State()) && metadata == old(metadata)
        else
          var id := q.value; var locked := LockOn(old(htlc.State()), minedAt, id);
          && (r.Ok? <==> locked.Ok?)
          && (r.Ok? ==> r.value == id && htlc.State() == locked.value.0)
          && (r.Err? ==> htlc.State() == old(htlc.State()))
          && metadata == old(metadata)[id := MetadataOf(old(metadata), id).(sender := Some(signer))]
      ensures r.Ok? ==>
        && Normalize(input.recipient) == Some(r.value.receiver)
        && Normalize(input.refundAddress) == Some(signer) && r.value.sender == signer
        && input.hash == Some(r.value.hashlock) && input.amount == Some(r.value.amount)
        && input.refundAfter == Some(r.value.refundAfter)
        && now + cfg.minRefundSafetySec <= r.value.refundAfter
        && r.value !in old(htlc.State().swaps) && htlc.State().swaps.Keys == old(htlc.State().swaps.Keys) + {r.value}
        && forall t | 0 < t < r.value.refundAfter :: VerifyPrePay(htlc.State(), r.value, r.value.hashlock, Some(t)).Ok?
    {
      var q := LockRequest(cfg, signer, input, now, randomSalt);
      if q.Err? { return Err(q.error); }
      if !broadcast { return Err("transaction refused"); }
      var id := q.value;
      LockKeeps(htlc.State(), minedAt, signer, id.receiver, id.amount, id.refundAfter, id.hashlock, id.salt);
      metadata := metadata[id := MetadataOf(metadata, id).(sender := Some(signer))];
      r := htlc.DoLock(minedAt, signer, id.receiver, id.amount, id.refundAfter, id.hashlock, id.salt);
      if r.Ok? {
        forall t | 0 < t < id.refundAfter ensures VerifyPrePay(htlc.State(), id, id.hashlock, Some(t)).Ok? {
          OpenSwapVerifies(htlc.State(), id, id.hashlock, t);
        }
      }
    }

    method Claim(sha: Sha, id: SwapId, preimage: Bytes, accepts: bool) returns (r: Result<()>)
      requires Sound(htlc.State())
      modifies this, htlc
      ensures Sound(htlc.State()) && Supply(htlc.State()) == old(Supply(htlc.State()))
      ensures r.Ok? <==> old(id in htlc.State().swaps) && |preimage| == 32 && sha(preimage) == id.hashlock && accepts
      ensures r.Ok? ==>
        && htlc.State().swaps == old(htlc.State().swaps) - {id}
        && htlc.State().balances == Credit(old(htlc.State()), id.receiver, id.amount)
        && metadata.Keys == old(metadata.Keys) + {id} && metadata[id].preimage == Some(preimage)
        && forall k | k in old(metadata) && k != id :: metadata[k] == old(metadata)[k]
      ensures r.Err? ==> htlc.State() == old(htlc.State()) && metadata == old(metadata)
    {
      ClaimExact(htlc.State(), sha, id, preimage, accepts);
      r := htlc.DoClaim(sha, id, preimage, accepts);
      if r.Err? { return; }
      var prev := MetadataOf(metadata, id);
      metadata := metadata[id := prev.(preimage := Some(preimage), closed := true)];
    }

    method Refund(now: nat, id: SwapId, accepts: bool) returns (r: Result<()>)
      requires Sound(htlc.State())
      modifies this, htlc
      ensures Sound(htlc.State()) && Supply(htlc.State()) == old(Supply(htlc.State()))
      ensures r.Ok? <==> old(id in htlc.State().swaps) && now >= id.refundAfter && accepts
      ensures r.Ok? ==>
        && htlc.State().swaps == old(htlc.State().swaps) - {id}
        && htlc.State().balances == Credit(old(htlc.State()), id.sender, id.amount)
        && metadata.Keys == old(metadata.Keys) + {id} && metadata[id].closed
        && forall k | k in old(metadata) && k != id :: metadata[k] == old(metadata)[k]
      ensures r.Err? ==> htlc.State() == old(htlc.State()) && metadata == old(metadata)
    {
      RefundExact(htlc.State(), now, id, accepts);
      r := htlc.DoRefund(now, id, accepts);
      if r.Err? { return; }
      var prev := MetadataOf(metadata, id);
      metadata := metadata[id := prev.(closed := true)];
    }
  }
}
