// What the claim and refund tools do for the payer and for the owner of a lock, in any run.

module SwapTools {

  import opened Prelude
  import opened Totals
  import opened TaoHtlc
  import opened TaoEvmSettlementProvider
  import opened LockMessages
  import opened SwapRuns

  ghost predicate AnnouncedIn(w: World, trade: Trade, hash: Hash, id: SwapId) {
    Announced(w.messages, StoredId(w, trade), trade, hash, id)
  }

  // Payment i of the run, its swap not refundable yet and not claimed since the checks.
  ghost predicate Unclaimed(w: World, i: nat) {
    && i < |w.payments| && w.now < w.payments[i].deal.id.refundAfter
    && Count(w, Claimed(w.payments[i].deal.id)) == w.payments[i].deal.seen
  }

  // ---------------------------------------------------------------- the payer

  // A payer who uses the claim tool in time gets the coins exactly when the invoice was for the agreed
  // hash and the lock messages announce the paid swap; otherwise the swap stays where it is.
  lemma PaidPayerClaims(s: Setup, es: seq<Event>, i: nat)
    requires Start(s) && Unclaimed(Run(s, es), i)
    ensures var w := Run(s, es); var p := w.payments[i]; var d := p.deal;
      var w' := Step(s, w, ClaimTool(d.trade, p.preimage, true));
      && d.id in w.chain.swaps
      && (if d.bolt.hash == d.hash && AnnouncedIn(w, d.trade, d.hash, d.id)
          then w'.chain.swaps == w.chain.swaps - {d.id} && w'.chain.balances == Credit(w.chain, d.id.receiver, d.id.amount)
               && StoredId(w', d.trade) == Present(d.id)
          else d.id in w'.chain.swaps)
  {
    PaidDeal(s, es, i);
    var w := Run(s, es);
    var p := w.payments[i];
    TargetExact(w.messages, StoredId(w, p.deal.trade), p.deal.trade, p.deal.hash, p.deal.id);
    ClaimToolExact(s, w, p.deal.trade, p.preimage, p.deal.id);
  }

  lemma ClaimToolExact(s: Setup, w: World, trade: Trade, preimage: Bytes, id: SwapId)
    requires Sound(w.chain) && id in w.chain.swaps && |preimage| == 32 && s.sha(preimage) in w.paid
    ensures var w' := Step(s, w, ClaimTool(trade, preimage, true));
      if s.sha(preimage) == id.hashlock && Target(w.messages, StoredId(w, trade), trade, s.sha(preimage)) == Ok(id)
      then w'.chain.swaps == w.chain.swaps - {id} && w'.chain.balances == Credit(w.chain, id.receiver, id.amount)
           && StoredId(w', trade) == Present(id)
      else id in w'.chain.swaps
  {
    var target := Target(w.messages, StoredId(w, trade), trade, s.sha(preimage));
    if target.Ok? { ClaimExact(w.chain, s.sha, target.value, preimage, true); }
  }

  // The lock message names the swap itself and nothing that contradicts it.
  predicate NamesSwap(m: LockMsg, hash: Hash, id: SwapId) {
    (m.hash.Missing? || m.hash == Present(hash)) && !m.foreign && m.id == Present(id)
  }

  predicate Named(w: World, trade: Trade, hash: Hash, id: SwapId) {
    var m := Latest(w.messages, trade);
    m.Some? && NamesSwap(m.value, hash, id)
  }

  lemma NamedIsAnnounced(w: World, trade: Trade, hash: Hash, id: SwapId)
    requires Named(w, trade, hash, id)
    ensures AnnouncedIn(w, trade, hash, id)
  {
    TargetExact(w.messages, StoredId(w, trade), trade, hash, id);
  }

  // What takes the announcement away: another lock message of the trade that does not name the swap,
  // or so much traffic that the log forgets every lock message of the trade.
  predicate Disturbs(w: World, e: Event, trade: Trade, hash: Hash, id: SwapId) {
    || (e.PostLock? && e.message.trade == trade && !NamesSwap(e.message, hash, id))
    || (e.Forget? && Latest(w.messages[if e.count < |w.messages| then e.count else |w.messages|..], trade).None?)
  }

  lemma NamedExactly(s: Setup, w: World, e: Event, trade: Trade, hash: Hash, id: SwapId)
    requires Named(w, trade, hash, id)
    ensures Named(Step(s, w, e), trade, hash, id) <==> !Disturbs(w, e, trade, hash, id)
  {
    match e
    case PostLock(m) => assert (w.messages + [m])[..|w.messages|] == w.messages;
    case Forget(n) => LatestKept(w.messages, if n < |w.messages| then n else |w.messages|, trade);
    case _ => assert Step(s, w, e).messages == w.messages;
  }

  // The run goes on from a world.
  function Resume(s: Setup, w: World, more: seq<Event>): World
    decreases |more|
  {
    if more == [] then w else Resume(s, Step(s, w, more[0]), more[1..])
  }

  lemma {:induction false} RunResumes(s: Setup, es: seq<Event>, more: seq<Event>)
    ensures Run(s, es + more) == Resume(s, Run(s, es), more)
    decreases |more|
  {
    if more == [] {
      assert es + more == es;
    } else {
      RunAppend(s, es, more[0]);
      RunResumes(s, es + [more[0]], more[1..]);
      assert es + more == es + [more[0]] + more[1..];
    }
  }

  predicate Undisturbed(s: Setup, w: World, more: seq<Event>, trade: Trade, hash: Hash, id: SwapId)
    decreases |more|
  {
    more == [] || (!Disturbs(w, more[0], trade, hash, id) && Undisturbed(s, Step(s, w, more[0]), more[1..], trade, hash, id))
  }

  lemma {:induction false} NamedThroughout(s: Setup, w: World, more: seq<Event>, trade: Trade, hash: Hash, id: SwapId)
    requires Named(w, trade, hash, id) && Undisturbed(s, w, more, trade, hash, id)
    ensures Named(Resume(s, w, more), trade, hash, id)
    decreases |more|
  {
    if more != [] {
      NamedExactly(s, w, more[0], trade, hash, id);
      NamedThroughout(s, Step(s, w, more[0]), more[1..], trade, hash, id);
    }
  }

  // So a payer of the agreed invoice is paid whenever the claim tool is used before the refund time, in
  // every run whatever anyone else does, once the swap is named in the log and nobody posts another
  // lock message for the trade.
  lemma UndisturbedPayerIsPaid(s: Setup, es: seq<Event>, more: seq<Event>, i: nat)
    requires Start(s) && Unclaimed(Run(s, es + more), i)
    requires var d := Run(s, es + more).payments[i].deal;
      d.bolt.hash == d.hash && Named(Run(s, es), d.trade, d.hash, d.id) && Undisturbed(s, Run(s, es), more, d.trade, d.hash, d.id)
    ensures var w := Run(s, es + more); var p := w.payments[i]; var d := p.deal;
      var w' := Step(s, w, ClaimTool(d.trade, p.preimage, true));
      && Agreed(s, d)
      && w'.chain.swaps == w.chain.swaps - {d.id} && w'.chain.balances == Credit(w.chain, d.id.receiver, d.id.amount)
  {
    var w := Run(s, es + more);
    var d := w.payments[i].deal;
    RunResumes(s, es, more);
    NamedThroughout(s, Run(s, es), more, d.trade, d.hash, d.id);
    NamedIsAnnounced(w, d.trade, d.hash, d.id);
    PaidPayerClaims(s, es + more, i);
    PaidDeal(s, es + more, i);
  }

  lemma PaidDeal(s: Setup, es: seq<Event>, i: nat)
    requires Start(s) && i < |Run(s, es).payments|
    ensures PaymentKept(s, Run(s, es), Run(s, es).payments[i]) && Sound(Run(s, es).chain)
  {
    RunKeeps(s, es);
  }

  // What the lock's owner does to a payer who has paid: one lock message for another hash, and the
  // refund as soon as it is due.
  function Late(m: LockMsg, p: Payment): seq<Event> {
    [PostLock(m), ClaimTool(p.deal.trade, p.preimage, true), Tick(p.deal.id.refundAfter), RefundCall(p.deal.id, true)]
  }

  // The tool refuses the claim in between, and the payer has paid for nothing.
  lemma LateMessageCostsPayer(s: Setup, es: seq<Event>, i: nat, m: LockMsg)
    requires Start(s) && Unclaimed(Run(s, es), i)
    requires m.trade == Run(s, es).payments[i].deal.trade
    requires !m.hash.Missing? && m.hash != Present(Run(s, es).payments[i].deal.bolt.hash)
    ensures var w := Run(s, es); var p := w.payments[i]; var w' := Run(s, es + Late(m, p));
      w'.log == w.log + [Refunded(p.deal.id)] && w'.paid == w.paid && Settled(w', p.deal.bolt)
  {
    var w := Run(s, es);
    PaidDeal(s, es, i);
    LateWorld(s, w, w.payments[i], m);
    RunResumes(s, es, Late(m, w.payments[i]));
  }

  lemma LateWorld(s: Setup, w: World, p: Payment, m: LockMsg)
    requires Sound(w.chain) && p.deal.id in w.chain.swaps && m.trade == p.deal.trade
    requires !m.hash.Missing? && m.hash != Present(s.sha(p.preimage))
    ensures var w' := Resume(s, w, Late(m, p)); w'.log == w.log + [Refunded(p.deal.id)] && w'.paid == w.paid
  {
    var d := p.deal;
    var w1 := Step(s, w, PostLock(m));
    assert Latest(w1.messages, d.trade) == Some(m);
    var w2 := Step(s, w1, ClaimTool(d.trade, p.preimage, true));
    assert w2 == w1;
    var w3 := Step(s, w2, Tick(d.id.refundAfter));
    RefundExact(w.chain, w3.now, d.id, true);
    var w4 := Step(s, w3, RefundCall(d.id, true));
    Four(s, w, PostLock(m), ClaimTool(d.trade, p.preimage, true), Tick(d.id.refundAfter), RefundCall(d.id, true));
    assert Resume(s, w, Late(m, p)) == w4;
  }

  lemma Four(s: Setup, w: World, a: Event, b: Event, c: Event, d: Event)
    ensures Resume(s, w, [a, b, c, d]) == Step(s, Step(s, Step(s, Step(s, w, a), b), c), d)
  {
    assert [a, b, c, d][1..] == [b, c, d] && [b, c, d][1..] == [c, d] && [c, d][1..] == [d] && [d][1..] == [];
    assert Resume(s, Step(s, Step(s, w, a), b), [c, d]) == Resume(s, Step(s, Step(s, Step(s, w, a), b), c), [d]);
  }

  // ---------------------------------------------------------------- the owner of a lock

  // From the refund time on the refund tool returns an open lock exactly when the lock messages announce
  // it under the payment hash the tool is given.
  lemma RefundToolExactly(s: Setup, es: seq<Event>, trade: Trade, hash: Hash, id: SwapId)
    requires Start(s) && id in Run(s, es).chain.swaps && Run(s, es).now >= id.refundAfter
    ensures var w := Run(s, es); var w' := Step(s, w, RefundTool(trade, hash, true));
      if AnnouncedIn(w, trade, hash, id)
      then w'.chain.swaps == w.chain.swaps - {id} && w'.chain.balances == Credit(w.chain, id.sender, id.amount)
           && StoredId(w', trade) == Present(id)
      else id in w'.chain.swaps
  {
    RunKeeps(s, es);
    RefundToolExact(s, Run(s, es), trade, hash, id);
  }

  lemma RefundToolExact(s: Setup, w: World, trade: Trade, hash: Hash, id: SwapId)
    requires Sound(w.chain) && id in w.chain.swaps && w.now >= id.refundAfter
    ensures var w' := Step(s, w, RefundTool(trade, hash, true));
      if AnnouncedIn(w, trade, hash, id)
      then w'.chain.swaps == w.chain.swaps - {id} && w'.chain.balances == Credit(w.chain, id.sender, id.amount)
           && StoredId(w', trade) == Present(id)
      else id in w'.chain.swaps
  {
    var target := Target(w.messages, StoredId(w, trade), trade, hash);
    TargetExact(w.messages, StoredId(w, trade), trade, hash, id);
    if target.Ok? { RefundExact(w.chain, w.now, target.value, true); }
  }
}
