// The hash time-locked contract that holds the TAO side of a swap.

module TaoHtlc {

  import opened Prelude
  import opened Totals

  // The zero address is 0.
  type Address = nat
  type Hash = nat
  type Bytes = seq<nat>
  type Sha = Bytes -> Hash

  // keccak256(abi.encode(...)) taken as collision-free: an id is the tuple it hashes.
  datatype SwapId = SwapId(
    sender: Address, receiver: Address, amount: nat, refundAfter: nat, hashlock: Hash, salt: nat)

  datatype Swap = Swap(
    sender: Address, receiver: Address, amount: nat, refundAfter: nat, hashlock: Hash,
    claimed: bool, refunded: bool)

  // swaps: the contract's mapping; held: the contract's own balance.
  datatype Chain = Chain(swaps: map<SwapId, Swap>, balances: map<Address, nat>, held: nat)

  const NO_SWAP := Swap(0, 0, 0, 0, 0, false, false)

  // Reading a Solidity mapping: absent entries are all zero.
  function Swaps(c: Chain, id: SwapId): Swap {
    if id in c.swaps then c.swaps[id] else NO_SWAP
  }

  function Credit(c: Chain, a: Address, amount: nat): map<Address, nat> {
    c.balances[a := At(c.balances, a) + amount]
  }

  function Lock(c: Chain, now: nat, caller: Address, receiver: Address, value: nat, refundAfter: nat,
                hashlock: Hash, salt: nat): Result<(Chain, SwapId)>
  {
    var id := SwapId(caller, receiver, value, refundAfter, hashlock, salt);
    if value == 0 then Err("amount=0")
    else if receiver == 0 then Err("receiver=0")
    else if refundAfter <= now then Err("refundAfter <= now")
    else if Swaps(c, id).sender != 0 then Err("swap exists")
    else if At(c.balances, caller) < value then Err("insufficient funds")
    else
      Ok((Chain(c.swaps[id := Swap(caller, receiver, value, refundAfter, hashlock, false, false)],
                c.balances[caller := At(c.balances, caller) - value],
                c.held + value), id))
  }

  // accepts: whether the receiving account takes the transfer.
  function Claim(c: Chain, sha: Sha, id: SwapId, preimage: Bytes, accepts: bool): Result<Chain> {
    var s := Swaps(c, id);
    if s.sender == 0 then Err("swap not found")
    else if s.claimed || s.refunded then Err("swap closed")
    else if |preimage| != 32 then Err("bad preimage length")
    else if sha(preimage) != s.hashlock then Err("bad preimage")
    else if !accepts || c.held < s.amount then Err("transfer failed")
    else Ok(Chain(c.swaps - {id}, Credit(c, s.receiver, s.amount), c.held - s.amount))
  }

  function Refund(c: Chain, now: nat, id: SwapId, accepts: bool): Result<Chain> {
    var s := Swaps(c, id);
    if s.sender == 0 then Err("swap not found")
    else if s.claimed || s.refunded then Err("swap closed")
    else if now < s.refundAfter then Err("too early")
    else if !accepts || c.held < s.amount then Err("transfer failed")
    else Ok(Chain(c.swaps - {id}, Credit(c, s.sender, s.amount), c.held - s.amount))
  }

  // ---------------------------------------------------------------- what every call keeps

  function Amounts(swaps: map<SwapId, Swap>): map<SwapId, nat> {
    map id | id in swaps :: swaps[id].amount
  }

  // Every stored record spells out its own id, is open, and is fully backed by the contract's balance.
  ghost predicate Sound(c: Chain) {
    && (forall id | id in c.swaps ::
          && id.sender != 0 && id.receiver != 0 && id.amount > 0
          && c.swaps[id] == Swap(id.sender, id.receiver, id.amount, id.refundAfter, id.hashlock, false, false))
    && c.held == Total(Amounts(c.swaps))
  }

  ghost function Supply(c: Chain): nat {
    Total(c.balances) + c.held
  }

  lemma AmountIsHeld(c: Chain, id: SwapId)
    requires Sound(c) && id in c.swaps
    ensures c.held == id.amount + Total(Amounts(c.swaps - {id}))
  {
    TotalWithout(Amounts(c.swaps), id);
    assert Amounts(c.swaps) - {id} == Amounts(c.swaps - {id});
  }

  lemma LockKeeps(c: Chain, now: nat, caller: Address, receiver: Address, value: nat, refundAfter: nat,
                  hashlock: Hash, salt: nat)
    requires Sound(c) && caller != 0
    ensures var r := Lock(c, now, caller, receiver, value, refundAfter, hashlock, salt);
      r.Ok? ==>
        && Sound(r.value.0) && Supply(r.value.0) == Supply(c)
        && r.value.1 !in c.swaps && r.value.0.swaps.Keys == c.swaps.Keys + {r.value.1}
  {
    var r := Lock(c, now, caller, receiver, value, refundAfter, hashlock, salt);
    if r.Ok? {
      var (c', id) := r.value;
      assert id !in c.swaps;
      assert Amounts(c'.swaps) == Amounts(c.swaps)[id := value];
      TotalUpdate(Amounts(c.swaps), id, value);
      TotalUpdate(c.balances, caller, At(c.balances, caller) - value);
    }
  }

  // A lock succeeds exactly with a positive amount the caller has, another receiver than the zero address,
  // a refund time ahead and an id that is free; it takes the amount from the caller and opens that swap.
  lemma LockExact(c: Chain, now: nat, caller: Address, receiver: Address, value: nat, refundAfter: nat, hashlock: Hash, salt: nat)
    requires Sound(c) && caller != 0
    ensures var r := Lock(c, now, caller, receiver, value, refundAfter, hashlock, salt);
      var id := SwapId(caller, receiver, value, refundAfter, hashlock, salt);
      && (r.Ok? <==> value > 0 && receiver != 0 && now < refundAfter && id !in c.swaps && value <= At(c.balances, caller))
      && (r.Ok? ==> var c' := r.value.0;
            && r.value.1 == id && c'.held == c.held + value
            && At(c'.balances, caller) + value == At(c.balances, caller)
            && (forall a | a != caller :: At(c'.balances, a) == At(c.balances, a))
            && c'.swaps == c.swaps[id := Swap(caller, receiver, value, refundAfter, hashlock, false, false)])
  {
  }

  lemma PayOutKeeps(c: Chain, id: SwapId, to: Address)
    requires Sound(c) && id in c.swaps
    ensures c.held >= id.amount
    ensures var c' := Chain(c.swaps - {id}, Credit(c, to, id.amount), c.held - id.amount);
      Sound(c') && Supply(c') == Supply(c)
  {
    AmountIsHeld(c, id);
    TotalUpdate(c.balances, to, At(c.balances, to) + id.amount);
  }

  // A claim succeeds on every open swap with the right preimage, and on nothing else; it closes the
  // swap and pays its receiver.
  lemma ClaimExact(c: Chain, sha: Sha, id: SwapId, preimage: Bytes, accepts: bool)
    requires Sound(c)
    ensures var r := Claim(c, sha, id, preimage, accepts);
      && (r.Ok? <==> id in c.swaps && |preimage| == 32 && sha(preimage) == id.hashlock && accepts)
      && (r.Ok? ==>
            && Sound(r.value) && Supply(r.value) == Supply(c)
            && r.value.swaps == c.swaps - {id}
            && r.value.balances == Credit(c, id.receiver, id.amount))
  {
    if id in c.swaps { PayOutKeeps(c, id, id.receiver); }
  }

  lemma RefundExact(c: Chain, now: nat, id: SwapId, accepts: bool)
    requires Sound(c)
    ensures var r := Refund(c, now, id, accepts);
      && (r.Ok? <==> id in c.swaps && now >= id.refundAfter && accepts)
      && (r.Ok? ==>
            && Sound(r.value) && Supply(r.value) == Supply(c)
            && r.value.swaps == c.swaps - {id}
            && r.value.balances == Credit(c, id.sender, id.amount))
  {
    if id in c.swaps { PayOutKeeps(c, id, id.sender); }
  }

  // The record is deleted and the coins are moved before the paid account runs, so a call it makes from
  // there meets the state after the claim or refund: closing the same swap once more fails.
  lemma NestedCallFails(c: Chain, sha: Sha, id: SwapId, preimage: Bytes, now: nat, again: Bytes, accepts: bool)
    requires Sound(c)
    ensures var r := Claim(c, sha, id, preimage, true);
      r.Ok? ==> Claim(r.value, sha, id, again, accepts).Err? && Refund(r.value, now, id, accepts).Err?
    ensures var r := Refund(c, now, id, true);
      r.Ok? ==> Claim(r.value, sha, id, again, accepts).Err? && Refund(r.value, now, id, accepts).Err?
  {
    ClaimExact(c, sha, id, preimage, true);
    RefundExact(c, now, id, true);
  }

  // Closing a swap deletes its record, so a claimed id can be locked again, but only before its own
  // refund time; a refunded id never can.
  lemma RelockExact(c: Chain, sha: Sha, id: SwapId, preimage: Bytes, now: nat)
    requires Sound(c) && Claim(c, sha, id, preimage, true).Ok?
    ensures var c' := Claim(c, sha, id, preimage, true).value;
      Lock(c', now, id.sender, id.receiver, id.amount, id.refundAfter, id.hashlock, id.salt).Ok?
      <==> now < id.refundAfter && At(c'.balances, id.sender) >= id.amount
  {
    ClaimExact(c, sha, id, preimage, true);
  }

  lemma RefundedNeverRelocked(c: Chain, now: nat, id: SwapId, later: Chain, laterNow: nat)
    requires Sound(c) && Refund(c, now, id, true).Ok? && now <= laterNow
    ensures !Lock(later, laterNow, id.sender, id.receiver, id.amount, id.refundAfter, id.hashlock, id.salt).Ok?
  {
    RefundExact(c, now, id, true);
  }

  // ---------------------------------------------------------------- the deployed contract

  class Contract {
    var swaps: map<SwapId, Swap>
    var balances: map<Address, nat>
    var held: nat

    ghost function State(): Chain
      reads this
    {
      Chain(swaps, balances, held)
    }

    constructor (balances: map<Address, nat>)
      ensures State() == Chain(map[], balances, 0) && Sound(State())
    {
      this.balances := balances;
      swaps, held := map[], 0;
      new;
      assert Amounts(swaps) == map[];
    }

    method DoLock(now: nat, caller: Address, receiver: Address, value: nat, refundAfter: nat, hashlock: Hash, salt: nat)
      returns (r: Result<SwapId>)
      requires caller != 0 && Sound(State())
      modifies this
      ensures Sound(State()) && Supply(State()) == old(Supply(State()))
      ensures var want := Lock(old(State()), now, caller, receiver, value, refundAfter, hashlock, salt);
        match want
        case Ok((c, id)) => r == Ok(id) && State() == c
        case Err(e) => r == Err(e) && State() == old(State())
    {
      LockKeeps(State(), now, caller, receiver, value, refundAfter, hashlock, salt);
      var id := SwapId(caller, receiver, value, refundAfter, hashlock, salt);
      if value == 0 { return Err("amount=0"); }
      if receiver == 0 { return Err("receiver=0"); }
      if refundAfter <= now { return Err("refundAfter <= now"); }
      if id in swaps && swaps[id].sender != 0 { return Err("swap exists"); }
      if At(balances, caller) < value { return Err("insufficient funds"); }
      balances := balances[caller := At(balances, caller) - value];
      held := held + value;
      swaps := swaps[id := Swap(caller, receiver, value, refundAfter, hashlock, false, false)];
      return Ok(id);
    }

    method DoClaim(sha: Sha, id: SwapId, preimage: Bytes, accepts: bool) returns (r: Result<()>)
      requires Sound(State())
      modifies this
      ensures Sound(State()) && Supply(State()) == old(Supply(State()))
      ensures match Claim(old(State()), sha, id, preimage, accepts)
        case Ok(c) => r == Ok(()) && State() == c
        case Err(e) => r == Err(e) && State() == old(State())
    {
      ClaimExact(State(), sha, id, preimage, accepts);
      var s := if id in swaps then swaps[id] else NO_SWAP;
      if s.sender == 0 { return Err("swap not found"); }
      if s.claimed || s.refunded { return Err("swap closed"); }
      if |preimage| != 32 { return Err("bad preimage length"); }
      if sha(preimage) != s.hashlock { return Err("bad preimage"); }
      if !accepts || held < s.amount { return Err("transfer failed"); }
      swaps := swaps - {id};
      balances := balances[s.receiver := At(balances, s.receiver) + s.amount];
      held := held - s.amount;
      return Ok(());
    }

    method DoRefund(now: nat, id: SwapId, accepts: bool) returns (r: Result<()>)
      requires Sound(State())
      modifies this
      ensures Sound(State()) && Supply(State()) == old(Supply(State()))
      ensures match Refund(old(State()), now, id, accepts)
        case Ok(c) => r == Ok(()) && State() == c
        case Err(e) => r == Err(e) && State() == old(State())
    {
      RefundExact(State(), now, id, accepts);
      var s := if id in swaps then swaps[id] else NO_SWAP;
      if s.sender == 0 { return Err("swap not found"); }
      if s.claimed || s.refunded { return Err("swap closed"); }
      if now < s.refundAfter { return Err("too early"); }
      if !accepts || held < s.amount { return Err("transfer failed"); }
      swaps := swaps - {id};
      balances := balances[s.sender := At(balances, s.sender) + s.amount];
      held := held - s.amount;
      return Ok(());
    }
  }
}
