// Which swap the claim and refund tools act on: the lock messages of a trade in the message log.

module LockMessages {

  import opened Prelude
  import opened TaoHtlc
  import opened TaoEvmSettlementProvider

  // A trade id on its swap channel.
  type Trade = nat

  // A message of the log that says a swap is locked. Anyone can post one, and the tools check neither
  // sender nor signature. foreign: it names a contract that is not the configured one.
  datatype LockMsg = LockMsg(trade: Trade, hash: Field<Hash>, foreign: bool, id: Field<SwapId>)

  // The latest lock message of a trade.
  function Latest(log: seq<LockMsg>, trade: Trade): Option<LockMsg> {
    if log == [] then None
    else if log[|log| - 1].trade == trade then Some(log[|log| - 1])
    else Latest(log[..|log| - 1], trade)
  }

  method FindLatest(log: seq<LockMsg>, trade: Trade) returns (found: Option<LockMsg>)
    ensures found == Latest(log, trade)
  {
    var i := |log| - 1;
    assert log[..|log|] == log;
    while i >= 0
      invariant -1 <= i < |log|
      invariant Latest(log, trade) == Latest(log[..i + 1], trade)
    {
      assert log[..i + 1][..i] == log[..i];
      if log[i].trade == trade { return Some(log[i]); }
      i := i - 1;
    }
    found := None;
  }

  // The swap id a tool called with this payment hash settles on. The receipt store's own id counts only
  // where the message has none.
  function Target(log: seq<LockMsg>, stored: Field<SwapId>, trade: Trade, hash: Hash): Result<SwapId> {
    var latest := Latest(log, trade);
    if latest.Some? && !latest.value.hash.Missing? && latest.value.hash != Present(hash) then Err("escrow payment_hash mismatch")
    else if latest.Some? && latest.value.foreign then Err("escrow.htlc_address mismatch")
    else
      var id := if latest.Some? && !latest.value.id.Missing? then latest.value.id else stored;
      match id
      case Missing => Err("missing settlement id")
      case Malformed => Err("settlementId must be 32-byte hex")
      case Present(id) => Ok(id)
  }

  method FindTarget(log: seq<LockMsg>, stored: Field<SwapId>, trade: Trade, hash: Hash) returns (r: Result<SwapId>)
    ensures r == Target(log, stored, trade, hash)
  {
    var latest := FindLatest(log, trade);
    var id := Missing;
    if latest.Some? {
      var m := latest.value;
      if !m.hash.Missing? && m.hash != Present(hash) { return Err("escrow payment_hash mismatch"); }
      if m.foreign { return Err("escrow.htlc_address mismatch"); }
      id := m.id;
    }
    if id.Missing? { id := stored; }
    match id
    case Missing => return Err("missing settlement id");
    case Malformed => return Err("settlementId must be 32-byte hex");
    case Present(found) => return Ok(found);
  }

  // ---------------------------------------------------------------- what it takes to be the target

  predicate IsLatest(log: seq<LockMsg>, trade: Trade, i: int) {
    0 <= i < |log| && log[i].trade == trade && forall k | i < k < |log| :: log[k].trade != trade
  }

  // The message goes with the hash and names the swap, or leaves that to the store.
  predicate Fits(m: LockMsg, stored: Field<SwapId>, hash: Hash, id: SwapId) {
    && (m.hash.Missing? || m.hash == Present(hash)) && !m.foreign
    && (m.id == Present(id) || (m.id.Missing? && stored == Present(id)))
  }

  // The latest lock message of the trade fits the swap; where the log has none, the store names it.
  ghost predicate Announced(log: seq<LockMsg>, stored: Field<SwapId>, trade: Trade, hash: Hash, id: SwapId) {
    if exists i :: IsLatest(log, trade, i) then exists i :: IsLatest(log, trade, i) && Fits(log[i], stored, hash, id)
    else stored == Present(id)
  }

  lemma {:induction false} LatestExact(log: seq<LockMsg>, trade: Trade)
    ensures Latest(log, trade).Some? <==> exists i :: IsLatest(log, trade, i)
    ensures forall i | IsLatest(log, trade, i) :: Latest(log, trade) == Some(log[i])
  {
    if log != [] {
      var n := |log| - 1;
      LatestExact(log[..n], trade);
      if log[n].trade == trade {
        assert IsLatest(log, trade, n);
      } else {
        forall i ensures IsLatest(log, trade, i) <==> IsLatest(log[..n], trade, i) { }
      }
    }
  }

  // The tools act on a swap exactly when it is the one announced.
  lemma TargetExact(log: seq<LockMsg>, stored: Field<SwapId>, trade: Trade, hash: Hash, id: SwapId)
    ensures Target(log, stored, trade, hash) == Ok(id) <==> Announced(log, stored, trade, hash, id)
  {
    LatestExact(log, trade);
    if i :| IsLatest(log, trade, i) { assert Latest(log, trade) == Some(log[i]); }
  }

  // One more message: of another trade it changes nothing, of this one it decides alone.
  lemma PostDecides(log: seq<LockMsg>, m: LockMsg, stored: Field<SwapId>, trade: Trade, hash: Hash, id: SwapId)
    ensures Announced(log + [m], stored, trade, hash, id) <==>
      if m.trade == trade then Fits(m, stored, hash, id) else Announced(log, stored, trade, hash, id)
  {
    TargetExact(log + [m], stored, trade, hash, id);
    TargetExact(log, stored, trade, hash, id);
    assert (log + [m])[..|log|] == log;
  }

  // The bounded log forgets its oldest messages; that matters only once it has forgotten them all.
  lemma {:induction false} LatestKept(log: seq<LockMsg>, n: nat, trade: Trade)
    requires n <= |log|
    ensures Latest(log[n..], trade).Some? ==> Latest(log[n..], trade) == Latest(log, trade)
  {
    if n < |log| {
      var last := |log| - 1;
      assert log[n..][..|log[n..]| - 1] == log[..last][n..];
      if log[last].trade != trade { LatestKept(log[..last], n, trade); }
    }
  }
}
