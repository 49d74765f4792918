// Runs of the TAO settlement: an honest payer using the verified pay tool, anyone else doing anything.

module SwapRuns {

  import opened Prelude
  import opened JsText
  import opened Totals
  import opened TaoHtlc
  import opened TimelockPolicy
  import opened TaoEvmSettlementProvider
  import opened LockMessages

  type Party = nat

  // What the Lightning node reads from an invoice string.
  datatype Bolt11 = Bolt11(hash: Hash, msat: nat, payee: Party)

  datatype Entry = Locked(id: SwapId) | Claimed(id: SwapId) | Refunded(id: SwapId)

  // A swap that passed the pre-pay checks. seen: how often its id had been claimed before.
  datatype Deal = Deal(trade: Trade, terms: Terms, id: SwapId, hash: Hash, bolt: Bolt11, at: nat, seen: nat)

  datatype Payment = Payment(deal: Deal, preimage: Bytes, at: nat)

  // pending: the pay calls that have passed their checks and not ended. messages: the lock messages in
  // the payer's message log. stored: the settlement ids in the receipt store.
  datatype World = World(
    chain: Chain, now: nat, log: seq<Entry>,
    btc: map<Party, nat>, paid: map<Hash, nat>,
    pending: seq<Deal>, payments: seq<Payment>,
    messages: seq<LockMsg>, stored: map<Trade, Field<SwapId>>)

  // maxDelay bounds the time between the checks and the payment. secrets are the invoices of an
  // honest payee: their preimages become known only by paying them, at the stated amount.
  datatype Setup = Setup(
    cfg: Config, sha: Sha, payer: Party, executorMinSec: nat, executorMarginSec: nat, maxDelay: nat,
    secrets: map<Hash, nat>, chain: Chain, btc: map<Party, nat>, now: nat)

  datatype Event =
    | Tick(seconds: nat)
    | LockCall(caller: Address, receiver: Address, value: nat, refundAfter: nat, hashlock: Hash, salt: nat)
    | ClaimCall(target: SwapId, preimage: Bytes, accepts: bool)
    | RefundCall(target: SwapId, accepts: bool)
    | PayInvoice(payer: Party, invoice: Bolt11, revealed: Bytes)
    | VerifyDeal(trade: Trade, terms: Terms, inv: InvoiceBody, esc: EscrowBody, bolt: Bolt11, nowGiven: Option<int>)
    | PayDeal(which: nat, revealed: Bytes, routable: bool)
    | GiveUp(which: nat)
    | ClaimTool(trade: Trade, preimage: Bytes, accepts: bool)
    | RefundTool(trade: Trade, hash: Hash, accepts: bool)
    | PostLock(message: LockMsg)
    | Forget(count: nat)
    | StoreId(trade: Trade, id: Field<SwapId>)

  function Init(s: Setup): World {
    World(s.chain, s.now, [], s.btc, map[], [], [], [], map[])
  }

  function Count(w: World, e: Entry): nat {
    multiset(w.log)[e]
  }

  // The pre-pay gate of the pay tool: the provider's checks, then the executor's own timelock margin.
  function Gate(s: Setup, c: Chain, terms: Terms, inv: InvoiceBody, esc: EscrowBody, now: int): bool {
    && VerifySwapPrePayOnchain(s.cfg, c, terms, inv, esc, Some(now)).Ok?
    && Evaluate(esc.refundAfter, inv.expiresAt, Some(now), s.executorMinSec, s.executorMarginSec, false) == Safe
  }

  // A Lightning payment settles at once, reveals the preimage, and happens once per hash.
  predicate Payable(s: Setup, w: World, payer: Party, b: Bolt11, revealed: Bytes) {
    && |revealed| == 32 && s.sha(revealed) == b.hash
    && b.hash !in w.paid && At(w.btc, payer) >= b.msat
    && (b.hash in s.secrets ==> b.msat == s.secrets[b.hash])
  }

  function Transfer(btc: map<Party, nat>, payer: Party, b: Bolt11): map<Party, nat>
    requires At(btc, payer) >= b.msat
  {
    var debited := btc[payer := (At(btc, payer) - b.msat) as nat];
    debited[b.payee := At(debited, b.payee) + b.msat]
  }

  function Pay(w: World, payer: Party, b: Bolt11): World
    requires At(w.btc, payer) >= b.msat
  {
    w.(btc := Transfer(w.btc, payer, b), paid := w.paid[b.hash := b.msat])
  }

  // A caller may move the clock of the checks forward, never back.
  function Checked(s: Setup, w: World, trade: Trade, terms: Terms, inv: InvoiceBody, esc: EscrowBody, bolt: Bolt11, nowGiven: Option<int>)
    : Option<Deal>
  {
    var now := if nowGiven.Some? && nowGiven.value > w.now then nowGiven.value else w.now;
    if w.now == 0 || !Complete(terms) || (nowGiven.Some? && nowGiven.value < 1) then None
    else if !Gate(s, w.chain, terms, inv, esc, now) then None
    else if !esc.settlementId.Present? || !esc.hash.Present? then None
    else
      var id := esc.settlementId.value;
      Some(Deal(trade, terms, id, esc.hash.value, bolt, w.now, Count(w, Claimed(id))))
  }

  function Without(pending: seq<Deal>, which: nat): seq<Deal>
    requires which < |pending|
  {
    pending[..which] + pending[which + 1..]
  }

  // A claim needs the preimage: nobody has that of an unpaid secret.
  function ClaimBy(s: Setup, w: World, id: SwapId, preimage: Bytes, accepts: bool): World {
    if s.sha(preimage) in s.secrets && s.sha(preimage) !in w.paid then w
    else
      match Claim(w.chain, s.sha, id, preimage, accepts)
      case Err(_) => w
      case Ok(c) => w.(chain := c, log := w.log + [Claimed(id)])
  }

  function RefundBy(w: World, id: SwapId, accepts: bool): World {
    match Refund(w.chain, w.now, id, accepts)
    case Err(_) => w
    case Ok(c) => w.(chain := c, log := w.log + [Refunded(id)])
  }

  function StoredId(w: World, trade: Trade): Field<SwapId> {
    if trade in w.stored then w.stored[trade] else Missing
  }

  // The claim and refund tools keep the id in the receipt store once they went through.
  function Recorded(w: World, w': World, trade: Trade, id: SwapId): World {
    if w'.log == w.log then w' else w'.(stored := w'.stored[trade := Present(id)])
  }

  // The route and liquidity check before a payment is the parameter routable.
  function Step(s: Setup, w: World, e: Event): World {
    match e
    case Tick(n) => w.(now := w.now + n)
    case LockCall(caller, receiver, value, refundAfter, hashlock, salt) =>
      if caller == 0 then w
      else (
        match Lock(w.chain, w.now, caller, receiver, value, refundAfter, hashlock, salt)
        case Err(_) => w
        case Ok((c, id)) => w.(chain := c, log := w.log + [Locked(id)]))
    case ClaimCall(id, preimage, accepts) => ClaimBy(s, w, id, preimage, accepts)
    case RefundCall(id, accepts) => RefundBy(w, id, accepts)
    case PayInvoice(payer, b, revealed) =>
      if Payable(s, w, payer, b, revealed) then Pay(w, payer, b) else w
    case VerifyDeal(trade, terms, inv, esc, bolt, nowGiven) => (
      match Checked(s, w, trade, terms, inv, esc, bolt, nowGiven)
      case None => w
      case Some(d) => w.(pending := w.pending + [d]))
    case PayDeal(which, revealed, routable) =>
      if which >= |w.pending| then w
      else
        var d, rest := w.pending[which], Without(w.pending, which);
        if routable && w.now <= d.at + s.maxDelay && Payable(s, w, s.payer, d.bolt, revealed)
        then PaidWorld(s, w, d, revealed).(pending := rest)
        else w.(pending := rest)
    case GiveUp(which) => if which < |w.pending| then w.(pending := Without(w.pending, which)) else w
    case ClaimTool(trade, preimage, accepts) => (
      match Target(w.messages, StoredId(w, trade), trade, s.sha(preimage))
      case Err(_) => w
      case Ok(id) => Recorded(w, ClaimBy(s, w, id, preimage, accepts), trade, id))
    case RefundTool(trade, hash, accepts) => (
      match Target(w.messages, StoredId(w, trade), trade, hash)
      case Err(_) => w
      case Ok(id) => Recorded(w, RefundBy(w, id, accepts), trade, id))
    case PostLock(m) => w.(messages := w.messages + [m])
    case Forget(n) => w.(messages := if n < |w.messages| then w.messages[n..] else [])
    case StoreId(trade, id) => w.(stored := w.stored[trade := id])
  }

  function Run(s: Setup, es: seq<Event>): World {
    if es == [] then Init(s) else Step(s, Run(s, es[..|es| - 1]), es[|es| - 1])
  }

  // The run starts on an empty contract.
  ghost predicate Start(s: Setup) {
    Sound(s.chain) && s.chain.swaps == map[]
  }

  // ---------------------------------------------------------------- money in and out of one account

  function Received(log: seq<Entry>, a: Address): nat {
    if log == [] then 0
    else
      var e := log[|log| - 1];
      Received(log[..|log| - 1], a) +
        (if e.Claimed? && e.id.receiver == a then e.id.amount
         else if e.Refunded? && e.id.sender == a then e.id.amount
         else 0)
  }

  function Spent(log: seq<Entry>, a: Address): nat {
    if log == [] then 0
    else
      var e := log[|log| - 1];
      Spent(log[..|log| - 1], a) + (if e.Locked? && e.id.sender == a then e.id.amount else 0)
  }

  // ---------------------------------------------------------------- the invariant

  function Open(w: World, id: SwapId): nat {
    if id in w.chain.swaps then 1 else 0
  }

  // Every lock of an id ends in one claim or one refund or is still open; an id is refunded at most
  // once, and only from its refund time on.
  ghost predicate LocksAccounted(w: World) {
    forall id: SwapId ::
      && Count(w, Locked(id)) == Count(w, Claimed(id)) + Count(w, Refunded(id)) + Open(w, id)
      && Count(w, Refunded(id)) <= 1
      && (Count(w, Refunded(id)) > 0 ==> w.now >= id.refundAfter && Open(w, id) == 0)
  }

  ghost predicate Balanced(s: Setup, w: World) {
    && Sound(w.chain)
    && Supply(w.chain) == Supply(s.chain)
    && Total(w.btc) == Total(s.btc)
    && forall a: Address :: At(w.chain.balances, a) + Spent(w.log, a) == At(s.chain.balances, a) + Received(w.log, a)
  }

  // The deal's coins are still there for the payee of the hash, or have reached the receiver since the
  // checks, unless the refund time has come.
  ghost predicate Protected(w: World, d: Deal) {
    && Count(w, Claimed(d.id)) >= d.seen
    && (Count(w, Claimed(d.id)) > d.seen || d.id in w.chain.swaps || w.now >= d.id.refundAfter)
  }

  ghost predicate Agreed(s: Setup, d: Deal) {
    && Complete(d.terms)
    && Decimal(d.id.amount) == d.terms.amount
    && Some(d.id.receiver) == Normalize(d.terms.recipient.value)
    && Some(d.id.sender) == Normalize(d.terms.refund.value)
    && d.id.refundAfter == d.terms.refundAfter.value
    && d.id.hashlock == d.hash
    && d.at + s.cfg.minRefundSafetySec <= d.id.refundAfter
    && d.at + s.executorMinSec <= d.id.refundAfter
  }

  predicate Settled(w: World, b: Bolt11) {
    b.hash in w.paid && w.paid[b.hash] == b.msat
  }

  ghost predicate PaymentKept(s: Setup, w: World, p: Payment) {
    && Agreed(s, p.deal) && Protected(w, p.deal) && Settled(w, p.deal.bolt)
    && p.at <= p.deal.at + s.maxDelay
    && |p.preimage| == 32 && s.sha(p.preimage) == p.deal.bolt.hash
  }

  ghost predicate PendingKept(s: Setup, w: World, d: Deal) {
    Agreed(s, d) && Protected(w, d) && d.at <= w.now
  }

  ghost predicate DealsKept(s: Setup, w: World) {
    && (forall i | 0 <= i < |w.pending| :: PendingKept(s, w, w.pending[i]))
    && (forall i | 0 <= i < |w.payments| :: PaymentKept(s, w, w.payments[i]))
    && (forall i, j | 0 <= i < j < |w.payments| :: w.payments[i].deal.bolt.hash != w.payments[j].deal.bolt.hash)
  }

  // Coins locked to an honest payee's hash are claimed only after that payee got its amount.
  ghost predicate SecretsKept(s: Setup, w: World) {
    && (forall h | h in w.paid && h in s.secrets :: w.paid[h] == s.secrets[h])
    && (forall id: SwapId | Count(w, Claimed(id)) > 0 && id.hashlock in s.secrets :: id.hashlock in w.paid)
  }

  ghost predicate Inv(s: Setup, w: World) {
    LocksAccounted(w) && Balanced(s, w) && DealsKept(s, w) && SecretsKept(s, w)
  }

  // ---------------------------------------------------------------- each step keeps it

  function Flow(e: Entry, a: Address): (int, int) {
    (if (e.Claimed? && e.id.receiver == a) || (e.Refunded? && e.id.sender == a) then e.id.amount else 0,
     if e.Locked? && e.id.sender == a then e.id.amount else 0)
  }

  lemma CountAppend(log: seq<Entry>, e: Entry, x: Entry)
    ensures multiset(log + [e])[x] == multiset(log)[x] + (if x == e then 1 else 0)
  {
  }

  lemma FlowAppend(log: seq<Entry>, e: Entry, a: Address)
    ensures Received(log + [e], a) == Received(log, a) + Flow(e, a).0
    ensures Spent(log + [e], a) == Spent(log, a) + Flow(e, a).1
  {
    assert (log + [e])[..|log + [e]| - 1] == log;
  }

  // What a successful contract call does: it opens or closes one swap and writes one entry.
  ghost predicate ChainMove(w: World, c: Chain, e: Entry) {
    && Sound(c) && Supply(c) == Supply(w.chain)
    && match e
       case Locked(id) =>
         id !in w.chain.swaps && c.swaps.Keys == w.chain.swaps.Keys + {id} && w.now < id.refundAfter
         && At(w.chain.balances, id.sender) >= id.amount
         && c.balances == w.chain.balances[id.sender := (At(w.chain.balances, id.sender) - id.amount) as nat]
       case Claimed(id) =>
         id in w.chain.swaps && c.swaps.Keys == w.chain.swaps.Keys - {id}
         && c.balances == Credit(w.chain, id.receiver, id.amount)
       case Refunded(id) =>
         id in w.chain.swaps && c.swaps.Keys == w.chain.swaps.Keys - {id} && w.now >= id.refundAfter
         && c.balances == Credit(w.chain, id.sender, id.amount)
  }

  function Moved(w: World, c: Chain, e: Entry): World {
    w.(chain := c, log := w.log + [e])
  }

  lemma MovedLocks(w: World, c: Chain, e: Entry)
    requires LocksAccounted(w) && ChainMove(w, c, e)
    ensures LocksAccounted(Moved(w, c, e))
  {
    var w' := Moved(w, c, e);
    forall id: SwapId
      ensures && Count(w', Locked(id)) == Count(w', Claimed(id)) + Count(w', Refunded(id)) + Open(w', id)
              && Count(w', Refunded(id)) <= 1
              && (Count(w', Refunded(id)) > 0 ==> w'.now >= id.refundAfter && Open(w', id) == 0)
    {
      CountAppend(w.log, e, Locked(id));
      CountAppend(w.log, e, Claimed(id));
      CountAppend(w.log, e, Refunded(id));
      assert Count(w, Locked(id)) == Count(w, Claimed(id)) + Count(w, Refunded(id)) + Open(w, id);
    }
  }

  lemma MovedAccount(w: World, c: Chain, e: Entry, a: Address)
    requires ChainMove(w, c, e)
    ensures At(c.balances, a) + Flow(e, a).1 == At(w.chain.balances, a) + Flow(e, a).0
  {
  }

  lemma MovedBalances(s: Setup, w: World, c: Chain, e: Entry)
    requires Balanced(s, w) && ChainMove(w, c, e)
    ensures Balanced(s, Moved(w, c, e))
  {
    forall a: Address
      ensures At(c.balances, a) + Spent(w.log + [e], a) == At(s.chain.balances, a) + Received(w.log + [e], a)
    {
      MovedAccount(w, c, e, a);
      FlowAppend(w.log, e, a);
      assert At(w.chain.balances, a) + Spent(w.log, a) == At(s.chain.balances, a) + Received(w.log, a);
    }
  }

  lemma MovedDeal(w: World, c: Chain, e: Entry, d: Deal)
    requires ChainMove(w, c, e) && Protected(w, d)
    ensures Protected(Moved(w, c, e), d)
  {
    CountAppend(w.log, e, Claimed(d.id));
    if d.id in w.chain.swaps && d.id !in c.swaps && e.Claimed? {
      assert e == Claimed(d.id);
    }
  }

  lemma MovedKeeps(s: Setup, w: World, c: Chain, e: Entry)
    requires Inv(s, w) && ChainMove(w, c, e)
    requires e.Claimed? && e.id.hashlock in s.secrets ==> e.id.hashlock in w.paid
    ensures Inv(s, Moved(w, c, e))
  {
    var w' := Moved(w, c, e);
    MovedLocks(w, c, e);
    MovedBalances(s, w, c, e);
    forall i | 0 <= i < |w.pending| ensures PendingKept(s, w', w.pending[i]) {
      assert PendingKept(s, w, w.pending[i]);
      MovedDeal(w, c, e, w.pending[i]);
    }
    forall i | 0 <= i < |w.payments| ensures PaymentKept(s, w', w.payments[i]) {
      assert PaymentKept(s, w, w.payments[i]);
      MovedDeal(w, c, e, w.payments[i].deal);
    }
    forall id: SwapId | Count(w', Claimed(id)) > 0 && id.hashlock in s.secrets ensures id.hashlock in w.paid {
      CountAppend(w.log, e, Claimed(id));
    }
  }

  lemma LockStep(s: Setup, w: World, e: Event)
    requires Inv(s, w) && e.LockCall?
    ensures Inv(s, Step(s, w, e))
  {
    var r := Lock(w.chain, w.now, e.caller, e.receiver, e.value, e.refundAfter, e.hashlock, e.salt);
    if e.caller != 0 && r.Ok? {
      LockMoves(w, e);
      MovedKeeps(s, w, r.value.0, Locked(r.value.1));
    }
  }

  lemma LockMoves(w: World, e: Event)
    requires Sound(w.chain) && e.LockCall? && e.caller != 0
    ensures var r := Lock(w.chain, w.now, e.caller, e.receiver, e.value, e.refundAfter, e.hashlock, e.salt);
      r.Ok? ==> ChainMove(w, r.value.0, Locked(r.value.1))
  {
    LockKeeps(w.chain, w.now, e.caller, e.receiver, e.value, e.refundAfter, e.hashlock, e.salt);
  }

  lemma ClaimByKeeps(s: Setup, w: World, id: SwapId, preimage: Bytes, accepts: bool)
    requires Inv(s, w)
    ensures Inv(s, ClaimBy(s, w, id, preimage, accepts))
  {
    var r := Claim(w.chain, s.sha, id, preimage, accepts);
    if r.Ok? && (s.sha(preimage) in s.secrets ==> s.sha(preimage) in w.paid) {
      ClaimExact(w.chain, s.sha, id, preimage, accepts);
      MovedKeeps(s, w, r.value, Claimed(id));
    }
  }

  lemma RefundByKeeps(s: Setup, w: World, id: SwapId, accepts: bool)
    requires Inv(s, w)
    ensures Inv(s, RefundBy(w, id, accepts))
  {
    var r := Refund(w.chain, w.now, id, accepts);
    if r.Ok? {
      RefundExact(w.chain, w.now, id, accepts);
      MovedKeeps(s, w, r.value, Refunded(id));
    }
  }

  lemma TransferKeeps(btc: map<Party, nat>, payer: Party, b: Bolt11)
    requires At(btc, payer) >= b.msat
    ensures Total(Transfer(btc, payer, b)) == Total(btc)
  {
    var debited := btc[payer := (At(btc, payer) - b.msat) as nat];
    TotalUpdate(btc, payer, At(btc, payer) - b.msat);
    TotalUpdate(debited, b.payee, At(debited, b.payee) + b.msat);
  }

  lemma PayKeeps(s: Setup, w: World, payer: Party, b: Bolt11, revealed: Bytes)
    requires Inv(s, w) && Payable(s, w, payer, b, revealed)
    ensures Inv(s, Pay(w, payer, b))
  {
    var w' := Pay(w, payer, b);
    TransferKeeps(w.btc, payer, b);
    assert forall x :: Count(w', x) == Count(w, x);
    assert forall d :: Protected(w', d) <==> Protected(w, d);
  }

  // Time may pass, messages come and go, and the pay calls be any that still stand.
  lemma QuietKeeps(s: Setup, w: World, w': World)
    requires Inv(s, w) && w'.now >= w.now
    requires w'.chain == w.chain && w'.log == w.log && w'.btc == w.btc && w'.paid == w.paid && w'.payments == w.payments
    requires forall i | 0 <= i < |w'.pending| :: PendingKept(s, w, w'.pending[i])
    ensures Inv(s, w')
  {
    assert forall x :: Count(w', x) == Count(w, x);
    assert forall d :: Protected(w, d) ==> Protected(w', d);
    forall i | 0 <= i < |w'.payments| ensures PaymentKept(s, w', w'.payments[i]) {
      assert PaymentKept(s, w, w.payments[i]);
    }
  }

  lemma WithoutKeeps(s: Setup, w: World, which: nat)
    requires Inv(s, w) && which < |w.pending|
    ensures Inv(s, w.(pending := Without(w.pending, which)))
  {
    var rest := Without(w.pending, which);
    forall i | 0 <= i < |rest| ensures PendingKept(s, w, rest[i]) {
      assert rest[i] == w.pending[if i < which then i else i + 1];
    }
    QuietKeeps(s, w, w.(pending := rest));
  }

  lemma RecordKeeps(s: Setup, w: World, p: Payment)
    requires Inv(s, w) && PaymentKept(s, w, p)
    requires forall i | 0 <= i < |w.payments| :: w.payments[i].deal.bolt.hash != p.deal.bolt.hash
    ensures Inv(s, w.(payments := w.payments + [p]))
  {
    var w' := w.(payments := w.payments + [p]);
    assert forall x :: Count(w', x) == Count(w, x);
    assert forall x :: Protected(w', x) <==> Protected(w, x);
    forall i | 0 <= i < |w'.payments| ensures PaymentKept(s, w', w'.payments[i]) {
      assert i < |w.payments| ==> PaymentKept(s, w, w.payments[i]);
    }
    forall i | 0 <= i < |w.pending| ensures PendingKept(s, w', w.pending[i]) {
      assert PendingKept(s, w, w.pending[i]);
    }
  }

  // The payment made, and nothing else changed.
  function PaidWorld(s: Setup, w: World, d: Deal, revealed: Bytes): World
    requires At(w.btc, s.payer) >= d.bolt.msat
  {
    Pay(w, s.payer, d.bolt).(payments := w.payments + [Payment(d, revealed, w.now)])
  }

  lemma PaidWorldKeeps(s: Setup, w: World, d: Deal, revealed: Bytes)
    requires Inv(s, w) && PendingKept(s, w, d) && w.now <= d.at + s.maxDelay && Payable(s, w, s.payer, d.bolt, revealed)
    ensures Inv(s, PaidWorld(s, w, d, revealed))
  {
    var paid := Pay(w, s.payer, d.bolt);
    PayKeeps(s, w, s.payer, d.bolt, revealed);
    NewHash(s, w, d.bolt.hash);
    assert Count(paid, Claimed(d.id)) == Count(w, Claimed(d.id));
    RecordKeeps(s, paid, Payment(d, revealed, w.now));
  }

  lemma NewHash(s: Setup, w: World, hash: Hash)
    requires DealsKept(s, w) && hash !in w.paid
    ensures forall i | 0 <= i < |w.payments| :: w.payments[i].deal.bolt.hash != hash
  {
    forall i | 0 <= i < |w.payments| ensures w.payments[i].deal.bolt.hash != hash {
      assert PaymentKept(s, w, w.payments[i]);
    }
  }

  lemma PayDealKeeps(s: Setup, w: World, which: nat, revealed: Bytes, routable: bool)
    requires Inv(s, w)
    ensures Inv(s, Step(s, w, PayDeal(which, revealed, routable)))
  {
    if which < |w.pending| {
      var d := w.pending[which];
      if routable && w.now <= d.at + s.maxDelay && Payable(s, w, s.payer, d.bolt, revealed) {
        PaidWorldKeeps(s, w, d, revealed);
        WithoutKeeps(s, PaidWorld(s, w, d, revealed), which);
      } else {
        WithoutKeeps(s, w, which);
      }
    }
  }

  // A swap is locked as agreed, the messages say so, and at this time there is enough time left for both
  // the provider and the executor.
  ghost predicate FaithfulAt(s: Setup, c: Chain, id: SwapId, terms: Terms, inv: InvoiceBody, esc: EscrowBody, now: int) {
    && Complete(terms) && now > 0
    && MessageMatches(s.cfg, terms, inv, esc, id, id.hashlock)
    && LockedAsAgreed(s.cfg, c, id, terms, id.hashlock, now, inv.expiresAt)
    && now + s.executorMinSec <= id.refundAfter
    && (inv.expiresAt.Some? && inv.expiresAt.value > 0 ==> inv.expiresAt.value + s.executorMarginSec <= id.refundAfter)
  }

  // The pay tool's checks pass exactly on a faithful swap, at the clock's time or a later one it is
  // given, and then the deal is about that swap.
  lemma DealExactly(s: Setup, w: World, trade: Trade, terms: Terms, inv: InvoiceBody, esc: EscrowBody, bolt: Bolt11, nowGiven: Option<int>)
    requires Sound(w.chain) && Complete(terms)
    ensures var d := Checked(s, w, trade, terms, inv, esc, bolt, nowGiven);
      var now := if nowGiven.Some? && nowGiven.value > w.now then nowGiven.value else w.now;
      && (d.Some? <==> w.now > 0 && (nowGiven.Some? ==> nowGiven.value > 0) && esc.settlementId.Present?
                       && FaithfulAt(s, w.chain, esc.settlementId.value, terms, inv, esc, now))
      && (d.Some? ==> var id := esc.settlementId.value;
            d.value == Deal(trade, terms, id, id.hashlock, bolt, w.now, Count(w, Claimed(id))))
  {
    var now := if nowGiven.Some? && nowGiven.value > w.now then nowGiven.value else w.now;
    if now > 0 {
      PrePayExact(s.cfg, w.chain, terms, inv, esc, now);
      VerdictExactly(esc.refundAfter, inv.expiresAt, Some(now), s.executorMinSec, s.executorMarginSec, false);
    }
  }

  lemma CheckedAgreed(s: Setup, w: World, trade: Trade, terms: Terms, inv: InvoiceBody, esc: EscrowBody, bolt: Bolt11, nowGiven: Option<int>)
    requires Sound(w.chain)
    ensures var d := Checked(s, w, trade, terms, inv, esc, bolt, nowGiven);
      d.Some? ==> Agreed(s, d.value) && d.value.id in w.chain.swaps
                  && d.value.seen == Count(w, Claimed(d.value.id)) && d.value.at == w.now
  {
    if Complete(terms) { DealExactly(s, w, trade, terms, inv, esc, bolt, nowGiven); }
  }

  lemma VerifyKeeps(s: Setup, w: World, e: Event)
    requires Inv(s, w) && e.VerifyDeal?
    ensures Inv(s, Step(s, w, e))
  {
    CheckedAgreed(s, w, e.trade, e.terms, e.inv, e.esc, e.bolt, e.nowGiven);
    var d := Checked(s, w, e.trade, e.terms, e.inv, e.esc, e.bolt, e.nowGiven);
    if d.Some? {
      var all := w.pending + [d.value];
      forall i | 0 <= i < |all| ensures PendingKept(s, w, all[i]) {
        assert i < |w.pending| ==> PendingKept(s, w, w.pending[i]);
      }
      QuietKeeps(s, w, w.(pending := all));
    }
  }

  lemma RecordedKeeps(s: Setup, w: World, w': World, trade: Trade, id: SwapId)
    requires Inv(s, w')
    ensures Inv(s, Recorded(w, w', trade, id))
  {
    QuietKeeps(s, w', Recorded(w, w', trade, id));
  }

  lemma ClaimToolKeeps(s: Setup, w: World, trade: Trade, preimage: Bytes, accepts: bool)
    requires Inv(s, w)
    ensures Inv(s, Step(s, w, ClaimTool(trade, preimage, accepts)))
  {
    var target := Target(w.messages, StoredId(w, trade), trade, s.sha(preimage));
    if target.Ok? {
      ClaimByKeeps(s, w, target.value, preimage, accepts);
      RecordedKeeps(s, w, ClaimBy(s, w, target.value, preimage, accepts), trade, target.value);
    }
  }

  lemma RefundToolKeeps(s: Setup, w: World, trade: Trade, hash: Hash, accepts: bool)
    requires Inv(s, w)
    ensures Inv(s, Step(s, w, RefundTool(trade, hash, accepts)))
  {
    var target := Target(w.messages, StoredId(w, trade), trade, hash);
    if target.Ok? {
      RefundByKeeps(s, w, target.value, accepts);
      RecordedKeeps(s, w, RefundBy(w, target.value, accepts), trade, target.value);
    }
  }

  lemma StepKeeps(s: Setup, w: World, e: Event)
    requires Inv(s, w)
    ensures Inv(s, Step(s, w, e))
  {
    match e
    case Tick(_) => QuietKeeps(s, w, Step(s, w, e));
    case LockCall(_, _, _, _, _, _) => LockStep(s, w, e);
    case ClaimCall(id, preimage, accepts) => ClaimByKeeps(s, w, id, preimage, accepts);
    case RefundCall(id, accepts) => RefundByKeeps(s, w, id, accepts);
    case PayInvoice(payer, b, revealed) =>
      if Payable(s, w, payer, b, revealed) { PayKeeps(s, w, payer, b, revealed); }
    case VerifyDeal(_, _, _, _, _, _) => VerifyKeeps(s, w, e);
    case PayDeal(which, revealed, routable) => PayDealKeeps(s, w, which, revealed, routable);
    case GiveUp(which) => if which < |w.pending| { WithoutKeeps(s, w, which); }
    case ClaimTool(trade, preimage, accepts) => ClaimToolKeeps(s, w, trade, preimage, accepts);
    case RefundTool(trade, hash, accepts) => RefundToolKeeps(s, w, trade, hash, accepts);
    case PostLock(_) => QuietKeeps(s, w, Step(s, w, e));
    case Forget(_) => QuietKeeps(s, w, Step(s, w, e));
    case StoreId(_, _) => QuietKeeps(s, w, Step(s, w, e));
  }

  // The invariant holds after every run, whoever did what in whatever order.
  lemma {:induction false} RunKeeps(s: Setup, es: seq<Event>)
    requires Start(s)
    ensures Inv(s, Run(s, es))
  {
    if es != [] {
      RunKeeps(s, es[..|es| - 1]);
      StepKeeps(s, Run(s, es[..|es| - 1]), es[|es| - 1]);
    }
  }

  // ---------------------------------------------------------------- when money moves

  // An invoice is paid: its amount goes from payer to payee, once for its hash, and nothing else moves.
  ghost predicate MoneyMoved(w: World, w': World, payer: Party, b: Bolt11) {
    && b.hash !in w.paid && w'.paid == w.paid[b.hash := b.msat]
    && (forall p: Party :: At(w'.btc, p) + (if p == payer then b.msat else 0) == At(w.btc, p) + (if p == b.payee then b.msat else 0))
    && w'.chain == w.chain && w'.log == w.log && w'.now == w.now
  }

  // A preimage of the hash, the money to pay, and no payment before.
  predicate CanSettle(s: Setup, w: World, payer: Party, b: Bolt11, revealed: Bytes) {
    && |revealed| == 32 && s.sha(revealed) == b.hash && b.hash !in w.paid
    && (if payer in w.btc then w.btc[payer] >= b.msat else b.msat == 0)
    && (b.hash in s.secrets ==> s.secrets[b.hash] == b.msat)
  }

  // A pay call pays exactly when it is open, there is a route, it is in time, and the invoice can be
  // settled; in any case it ends and the other calls stay open.
  lemma PayDealExactly(s: Setup, w: World, which: nat, revealed: Bytes, routable: bool)
    ensures var w' := Step(s, w, PayDeal(which, revealed, routable));
      if which >= |w.pending| then w' == w
      else
        var d := w.pending[which];
        && multiset(w'.pending) == multiset(w.pending) - multiset{d} && |w'.pending| == |w.pending| - 1
        && (if routable && w.now <= d.at + s.maxDelay && CanSettle(s, w, s.payer, d.bolt, revealed)
            then MoneyMoved(w, w', s.payer, d.bolt) && w'.payments == w.payments + [Payment(d, revealed, w.now)]
            else w'.btc == w.btc && w'.paid == w.paid && w'.payments == w.payments)
  {
    if which < |w.pending| {
      var d := w.pending[which];
      TakenOut(w.pending, which);
      SettleExactly(s, w, s.payer, d.bolt, revealed);
    }
  }

  lemma SettleExactly(s: Setup, w: World, payer: Party, b: Bolt11, revealed: Bytes)
    ensures Payable(s, w, payer, b, revealed) <==> CanSettle(s, w, payer, b, revealed)
    ensures Payable(s, w, payer, b, revealed) ==> MoneyMoved(w, Pay(w, payer, b), payer, b)
  {
  }

  lemma TakenOut(pending: seq<Deal>, which: nat)
    requires which < |pending|
    ensures multiset(Without(pending, which)) == multiset(pending) - multiset{pending[which]}
  {
    assert pending == pending[..which] + [pending[which]] + pending[which + 1..];
  }

  // Anyone else's payment settles under the same condition.
  lemma PayInvoiceExactly(s: Setup, w: World, payer: Party, b: Bolt11, revealed: Bytes)
    ensures var w' := Step(s, w, PayInvoice(payer, b, revealed));
      && w'.pending == w.pending && w'.payments == w.payments
      && (if CanSettle(s, w, payer, b, revealed) then MoneyMoved(w, w', payer, b) else w'.btc == w.btc && w'.paid == w.paid)
  {
    SettleExactly(s, w, payer, b, revealed);
  }

  // A pay call that gives up ends, and pays nothing.
  lemma GiveUpExactly(s: Setup, w: World, which: nat)
    requires which < |w.pending|
    ensures var w' := Step(s, w, GiveUp(which));
      multiset(w'.pending) == multiset(w.pending) - multiset{w.pending[which]} && w'.btc == w.btc && w'.paid == w.paid
  {
    TakenOut(w.pending, which);
  }

  // ---------------------------------------------------------------- what it gives the payer

  // At the moment the payer pays, the coins are locked as agreed and cannot be refunded for the
  // verification margin less the delay, or have already been paid out to the receiver.
  lemma PayMoment(s: Setup, es: seq<Event>, which: nat, revealed: Bytes, routable: bool)
    requires Start(s)
    ensures var w := Run(s, es); var w' := Step(s, w, PayDeal(which, revealed, routable));
      |w'.payments| > |w.payments| ==>
        var p := w'.payments[|w.payments|];
        && Agreed(s, p.deal)
        && w'.now + s.cfg.minRefundSafetySec <= p.deal.id.refundAfter + s.maxDelay
        && w'.now + s.executorMinSec <= p.deal.id.refundAfter + s.maxDelay
        && (s.maxDelay < s.cfg.minRefundSafetySec ==>
              w'.now < p.deal.id.refundAfter
              && (p.deal.id in w'.chain.swaps || Count(w', Claimed(p.deal.id)) > p.deal.seen))
  {
    RunKeeps(s, es);
  }

  // From then on, until the refund time, either the receiver has been paid since the checks, or a claim
  // with the revealed preimage succeeds and pays the agreed amount to the agreed receiver. The second
  // needs the invoice string to carry the hash stated beside it: the pay tool compares the two only
  // after the payment.
  lemma PaidPayerIsCovered(s: Setup, es: seq<Event>, i: nat)
    requires Start(s) && i < |Run(s, es).payments|
    requires Run(s, es).now < Run(s, es).payments[i].deal.id.refundAfter
    requires Count(Run(s, es), Claimed(Run(s, es).payments[i].deal.id)) == Run(s, es).payments[i].deal.seen
    ensures var w := Run(s, es); var p := w.payments[i]; var r := Claim(w.chain, s.sha, p.deal.id, p.preimage, true);
      && Agreed(s, p.deal)
      && (r.Ok? <==> p.deal.bolt.hash == p.deal.hash)
      && (r.Ok? ==> r.value.balances == Credit(w.chain, p.deal.id.receiver, p.deal.id.amount))
  {
    RunKeeps(s, es);
    var w := Run(s, es);
    ClaimExact(w.chain, s.sha, w.payments[i].deal.id, w.payments[i].preimage, true);
  }

  // What was paid is the amount the terms name exactly when the invoice string says so: the pay tool
  // uses the amount of the terms to look for liquidity and compares it with nothing.
  lemma PaidAmountExactly(s: Setup, es: seq<Event>, i: nat)
    requires Start(s) && i < |Run(s, es).payments|
    ensures var w := Run(s, es); var d := w.payments[i].deal;
      d.bolt.hash in w.paid && (w.paid[d.bolt.hash] == 1000 * d.terms.btcSats <==> d.bolt.msat == 1000 * d.terms.btcSats)
  {
    RunKeeps(s, es);
  }

  // Two payments are never covered by the same lock.
  lemma PaymentsUseDistinctSwaps(s: Setup, es: seq<Event>, i: nat, j: nat)
    requires Start(s) && i < j < |Run(s, es).payments|
    ensures var ps := Run(s, es).payments;
      ps[i].deal.bolt.hash == ps[i].deal.hash && ps[j].deal.bolt.hash == ps[j].deal.hash
      ==> ps[i].deal.id != ps[j].deal.id
  {
    RunKeeps(s, es);
  }

  // ---------------------------------------------------------------- and everyone else

  // No lock is both claimed and refunded, nothing is created or lost, and every account holds exactly
  // what it started with, less what it locked, plus what claims and refunds paid it.
  lemma RunConserves(s: Setup, es: seq<Event>, id: SwapId, a: Address)
    requires Start(s)
    ensures var w := Run(s, es);
      && Count(w, Locked(id)) == Count(w, Claimed(id)) + Count(w, Refunded(id)) + Open(w, id)
      && Count(w, Refunded(id)) <= 1
      && Supply(w.chain) == Supply(s.chain) && Total(w.btc) == Total(s.btc)
      && At(w.chain.balances, a) + Spent(w.log, a) == At(s.chain.balances, a) + Received(w.log, a)
  {
    RunKeeps(s, es);
  }

  // The lock's owner loses the coins only to someone who paid the invoice behind the hash in full, and
  // can take them back from the refund time on.
  lemma LockOwnerIsCovered(s: Setup, es: seq<Event>, id: SwapId)
    requires Start(s)
    ensures var w := Run(s, es);
      && (Count(w, Claimed(id)) > 0 && id.hashlock in s.secrets ==>
            id.hashlock in w.paid && w.paid[id.hashlock] == s.secrets[id.hashlock])
      && (id in w.chain.swaps && w.now >= id.refundAfter ==> Refund(w.chain, w.now, id, true).Ok?)
  {
    RunKeeps(s, es);
    RefundExact(Run(s, es).chain, Run(s, es).now, id, true);
  }

  // ---------------------------------------------------------------- two runs worth knowing

  lemma RunAppend(s: Setup, es: seq<Event>, e: Event)
    ensures Run(s, es + [e]) == Step(s, Run(s, es), e)
  {
    assert (es + [e])[..|es + [e]| - 1] == es;
  }

  function Stored(id: SwapId): Swap {
    Swap(id.sender, id.receiver, id.amount, id.refundAfter, id.hashlock, false, false)
  }

  function LockOf(id: SwapId): Event {
    LockCall(id.sender, id.receiver, id.amount, id.refundAfter, id.hashlock, id.salt)
  }

  // The world after a lock that goes through.
  function AfterLock(w: World, id: SwapId): World
    requires At(w.chain.balances, id.sender) >= id.amount
  {
    var c := w.chain;
    w.(chain := Chain(c.swaps[id := Stored(id)],
                      c.balances[id.sender := (At(c.balances, id.sender) - id.amount) as nat],
                      c.held + id.amount),
       log := w.log + [Locked(id)])
  }

  lemma LockWorld(s: Setup, w: World, id: SwapId)
    requires id.sender != 0 && id.receiver != 0 && id.amount > 0 && id.refundAfter > w.now
    requires id !in w.chain.swaps && At(w.chain.balances, id.sender) >= id.amount
    ensures Step(s, w, LockOf(id)) == AfterLock(w, id)
  {
  }

  lemma ClaimWorld(s: Setup, w: World, id: SwapId, preimage: Bytes)
    requires id in w.chain.swaps && w.chain.swaps[id] == Stored(id) && id.sender != 0
    requires |preimage| == 32 && s.sha(preimage) == id.hashlock && s.sha(preimage) !in s.secrets
    requires w.chain.held >= id.amount
    ensures Step(s, w, ClaimCall(id, preimage, true))
         == w.(chain := Chain(w.chain.swaps - {id}, Credit(w.chain, id.receiver, id.amount), w.chain.held - id.amount),
               log := w.log + [Claimed(id)])
  {
  }

  lemma RefundWorld(s: Setup, w: World, id: SwapId)
    requires id in w.chain.swaps && w.chain.swaps[id] == Stored(id) && id.sender != 0
    requires w.chain.held >= id.amount && w.now >= id.refundAfter
    ensures Step(s, w, RefundCall(id, true)).log == w.log + [Refunded(id)]
  {
  }

  // An id can be claimed once and, locked again before its refund time, refunded once: the exclusion of
  // the two outcomes is per lock, not per id.
  lemma ClaimedThenRefundedId(s: Setup, id: SwapId, preimage: Bytes)
    requires Start(s) && id.sender != 0 && id.receiver != 0 && id.amount > 0 && id.refundAfter > s.now
    requires At(s.chain.balances, id.sender) >= 2 * id.amount
    requires |preimage| == 32 && s.sha(preimage) == id.hashlock && id.hashlock !in s.secrets
    ensures exists es :: Count(Run(s, es), Claimed(id)) == 1 && Count(Run(s, es), Refunded(id)) == 1
  {
    var e1 := [] + [LockOf(id)];
    var e2 := e1 + [ClaimCall(id, preimage, true)];
    var e3 := e2 + [LockOf(id)];
    var e4 := e3 + [Tick(id.refundAfter)];
    var e5 := e4 + [RefundCall(id, true)];
    RunAppend(s, [], LockOf(id));
    LockWorld(s, Run(s, []), id);
    RunAppend(s, e1, ClaimCall(id, preimage, true));
    ClaimWorld(s, Run(s, e1), id, preimage);
    RunAppend(s, e2, LockOf(id));
    LockWorld(s, Run(s, e2), id);
    RunAppend(s, e3, Tick(id.refundAfter));
    RunAppend(s, e4, RefundCall(id, true));
    RefundWorld(s, Run(s, e4), id);
    OncePerOutcome(Run(s, e5), id);
  }

  lemma OncePerOutcome(w: World, id: SwapId)
    requires w.log == [] + [Locked(id)] + [Claimed(id)] + [Locked(id)] + [Refunded(id)]
    ensures Count(w, Claimed(id)) == 1 && Count(w, Refunded(id)) == 1
  {
  }

  ghost predicate UnopenedAt(s: Setup, w: World, i: nat) {
    && i < |w.payments| && w.now < w.payments[i].deal.id.refundAfter
    && w.payments[i].deal.id in w.chain.swaps
    && Claim(w.chain, s.sha, w.payments[i].deal.id, w.payments[i].preimage, true).Err?
  }

  ghost predicate MispaidAt(w: World, i: nat) {
    && i < |w.payments| && w.payments[i].deal.bolt.hash in w.paid
    && w.paid[w.payments[i].deal.bolt.hash] != 1000 * w.payments[i].deal.terms.btcSats
  }

  ghost predicate Faithful(s: Setup, w: World, id: SwapId, terms: Terms, inv: InvoiceBody, esc: EscrowBody) {
    FaithfulAt(s, w.chain, id, terms, inv, esc, w.now)
  }

  // After any run and for any such swap, every payable invoice string passes the checks on messages and
  // chain, so that it is paid as soon as there is a route. The preimage fails to open the lock exactly
  // when the string is for another hash, and the amount paid is wrong exactly when the string names
  // another amount.
  lemma UncomparedInvoice(s: Setup, es: seq<Event>, trade: Trade, id: SwapId, terms: Terms, inv: InvoiceBody, esc: EscrowBody,
                          bolt: Bolt11, revealed: Bytes)
    requires Start(s) && Faithful(s, Run(s, es), id, terms, inv, esc) && Payable(s, Run(s, es), s.payer, bolt, revealed)
    ensures var n := |Run(s, es).payments|;
      var w := Run(s, es + [VerifyDeal(trade, terms, inv, esc, bolt, None)] + [PayDeal(|Run(s, es).pending|, revealed, true)]);
      && |w.payments| == n + 1 && w.payments[n].deal.bolt == bolt
      && (UnopenedAt(s, w, n) <==> bolt.hash != id.hashlock)
      && (MispaidAt(w, n) <==> bolt.msat != 1000 * terms.btcSats)
  {
    var verify, pay := VerifyDeal(trade, terms, inv, esc, bolt, None), PayDeal(|Run(s, es).pending|, revealed, true);
    RunKeeps(s, es);
    UncomparedPayment(s, Run(s, es), trade, id, terms, inv, esc, bolt, revealed);
    RunAppend(s, es, verify);
    RunAppend(s, es + [verify], pay);
    PaidVerdict(s, Run(s, es + [verify] + [pay]), |Run(s, es).payments|);
  }

  lemma UncomparedPayment(s: Setup, w: World, trade: Trade, id: SwapId, terms: Terms, inv: InvoiceBody, esc: EscrowBody,
                          bolt: Bolt11, revealed: Bytes)
    requires Sound(w.chain) && Faithful(s, w, id, terms, inv, esc) && Payable(s, w, s.payer, bolt, revealed)
    ensures Step(s, Step(s, w, VerifyDeal(trade, terms, inv, esc, bolt, None)), PayDeal(|w.pending|, revealed, true))
         == PaidWorld(s, w, Deal(trade, terms, id, id.hashlock, bolt, w.now, Count(w, Claimed(id))), revealed)
    ensures id in w.chain.swaps && w.now < id.refundAfter
  {
    var d := Deal(trade, terms, id, id.hashlock, bolt, w.now, Count(w, Claimed(id)));
    FaithfulIsChecked(s, w, trade, id, terms, inv, esc, bolt);
    var all := w.pending + [d];
    assert Without(all, |w.pending|) == w.pending;
  }

  lemma PaidVerdict(s: Setup, w: World, n: nat)
    requires n < |w.payments| && Sound(w.chain)
    requires var p := w.payments[n];
      p.deal.id in w.chain.swaps && w.now < p.deal.id.refundAfter && Settled(w, p.deal.bolt)
      && |p.preimage| == 32 && s.sha(p.preimage) == p.deal.bolt.hash
    ensures var d := w.payments[n].deal;
      && (UnopenedAt(s, w, n) <==> d.bolt.hash != d.id.hashlock)
      && (MispaidAt(w, n) <==> d.bolt.msat != 1000 * d.terms.btcSats)
  {
    ClaimExact(w.chain, s.sha, w.payments[n].deal.id, w.payments[n].preimage, true);
  }

  lemma FaithfulIsChecked(s: Setup, w: World, trade: Trade, id: SwapId, terms: Terms, inv: InvoiceBody, esc: EscrowBody, bolt: Bolt11)
    requires Sound(w.chain) && Faithful(s, w, id, terms, inv, esc)
    ensures Checked(s, w, trade, terms, inv, esc, bolt, None)
         == Some(Deal(trade, terms, id, id.hashlock, bolt, w.now, Count(w, Claimed(id))))
  {
    DealExactly(s, w, trade, terms, inv, esc, bolt, None);
  }
}
