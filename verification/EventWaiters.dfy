// What becomes of every wait on the event queue and on the message log.

module EventWaiters {

  import opened Prelude
  import opened EventLog

  // asked: the waits that were told to wait, by their ids, with their filters; gaveUp: those whose timer
  // fired in time. The same for waits on the log, with the number they wait to be passed.
  datatype History = History(
    trace: Trace, asked: map<nat, Event -> Verdict>, gaveUp: set<nat>, logAsked: map<nat, nat>, logGaveUp: set<nat>)

  ghost predicate Served(t: Trace, id: nat) {
    exists n :: n in t.delivered && t.delivered[n] == id
  }

  // Told to wait, and neither served nor given up so far.
  ghost predicate Open(h: History, id: nat) {
    id in h.asked && !Served(h.trace, id) && id !in h.gaveUp
  }

  ghost predicate LogOpen(h: History, id: nat) {
    id in h.logAsked && h.trace.state.lastSeq <= h.logAsked[id] && id !in h.logGaveUp
  }

  ghost function Beginning(): History {
    History(Start(), map[], {}, map[], {})
  }

  ghost function Follow(lim: Limits, h: History, step: Step): History {
    var s, h' := h.trace.state, h.(trace := Advance(lim, h.trace, step));
    match step
    case WaitFor(filter, mayWait) =>
      if mayWait && (forall i | 0 <= i < |s.queue| :: !filter(s.queue[i]).Match?) then h'.(asked := h.asked[s.nextId := filter]) else h'
    case WaitTimeout(id) => if Open(h, id) then h'.(gaveUp := h.gaveUp + {id}) else h'
    case LogWait(since) => if s.lastSeq <= since then h'.(logAsked := h.logAsked[s.nextId := since]) else h'
    case LogTimeout(id) => if LogOpen(h, id) then h'.(logGaveUp := h.logGaveUp + {id}) else h'
    case _ => h'
  }

  ghost function Followed(lim: Limits, steps: seq<Step>): History {
    if steps == [] then Beginning() else Follow(lim, Followed(lim, steps[..|steps| - 1]), steps[|steps| - 1])
  }

  // ---------------------------------------------------------------- the invariant

  ghost predicate Registered(ws: seq<Waiter>, id: nat) {
    exists j :: 0 <= j < |ws| && ws[j].id == id
  }

  // The pending waiters are the open waits with their filters, oldest first.
  ghost predicate PendingExact(h: History) {
    var ws := h.trace.state.waiters;
    && (forall j | 0 <= j < |ws| :: Open(h, ws[j].id) && ws[j].filter == h.asked[ws[j].id])
    && (forall id | Open(h, id) :: Registered(ws, id))
    && (forall i, j | 0 <= i < j < |ws| :: ws[i].id < ws[j].id)
  }

  // Who was served was served an event its filter takes, and had not given up.
  ghost predicate ServedWell(h: History) {
    && (forall n | n in h.trace.delivered && h.trace.delivered[n] in h.asked ::
          n < |h.trace.arrived| && h.asked[h.trace.delivered[n]](h.trace.arrived[n]).Match?)
    && (forall id | id in h.gaveUp :: id in h.asked && !Served(h.trace, id))
    && (forall id | id in h.asked || id in h.logAsked || id in h.logGaveUp :: id < h.trace.state.nextId)
  }

  ghost predicate LogPendingExact(h: History) {
    forall w :: w in h.trace.state.logWaiters <==> LogOpen(h, w.id) && w.sinceSeq == h.logAsked[w.id]
  }

  ghost predicate LogIdsDistinct(ws: seq<LogWaiter>) {
    forall i, j | 0 <= i < j < |ws| :: ws[i].id != ws[j].id
  }

  ghost predicate HistoryInv(lim: Limits, h: History) {
    Inv(lim, h.trace) && Waits(h)
  }

  ghost predicate Waits(h: History) {
    PendingExact(h) && ServedWell(h) && LogPendingExact(h) && LogIdsDistinct(h.trace.state.logWaiters)
  }

  // ---------------------------------------------------------------- every step keeps it

  lemma StillWaitingExact(ws: seq<LogWaiter>, n: nat)
    requires LogIdsDistinct(ws)
    ensures LogIdsDistinct(StillWaiting(ws, n))
    ensures forall w :: w in StillWaiting(ws, n) <==> w in ws && n <= w.sinceSeq
  {
    if ws != [] {
      StillWaitingExact(ws[1..], n);
      assert ws == [ws[0]] + ws[1..];
      var rest := StillWaiting(ws[1..], n);
      forall j | 0 <= j < |rest| ensures rest[j].id != ws[0].id {
        assert rest[j] in ws[1..];
      }
      assert forall w :: w in [ws[0]] + rest <==> w == ws[0] || w in rest;
    }
  }

  lemma WithoutLogWaiterExact(ws: seq<LogWaiter>, id: nat)
    requires LogIdsDistinct(ws)
    ensures LogIdsDistinct(WithoutLogWaiter(ws, id))
    ensures forall w :: w in WithoutLogWaiter(ws, id) <==> w in ws && w.id != id
  {
    if ws != [] {
      WithoutLogWaiterExact(ws[1..], id);
      assert ws == [ws[0]] + ws[1..];
      var rest := WithoutLogWaiter(ws[1..], id);
      forall j | 0 <= j < |rest| ensures rest[j].id != ws[0].id {
        assert rest[j] in ws[1..];
      }
      assert forall w :: w in [ws[0]] + rest <==> w == ws[0] || w in rest;
    }
  }

  lemma WithoutWaiterExact(ws: seq<Waiter>, id: nat)
    requires forall i, j | 0 <= i < j < |ws| :: ws[i].id < ws[j].id
    ensures var r := WithoutWaiter(ws, id);
      && (forall k :: Registered(r, k) <==> Registered(ws, k) && k != id)
      && (forall j | 0 <= j < |r| :: r[j] in ws)
      && (forall i, j | 0 <= i < j < |r| :: r[i].id < r[j].id)
  {
    var i := WithoutWaiterFinds(ws, id);
    if i < |ws| { RemovedOne(ws, i); }
  }

  lemma WithoutWaiterFinds(ws: seq<Waiter>, id: nat) returns (i: nat)
    ensures i <= |ws| && forall j | 0 <= j < i :: ws[j].id != id
    ensures if i < |ws| then ws[i].id == id && WithoutWaiter(ws, id) == RemoveAt(ws, i) else WithoutWaiter(ws, id) == ws
  {
    i := 0;
    if ws != [] && ws[0].id != id {
      var k := WithoutWaiterFinds(ws[1..], id);
      i := k + 1;
      assert forall j | 0 < j < i :: ws[j] == ws[1..][j - 1];
    }
  }

  lemma RemovedOne(ws: seq<Waiter>, i: nat)
    requires i < |ws| && forall i, j | 0 <= i < j < |ws| :: ws[i].id < ws[j].id
    ensures var r := RemoveAt(ws, i);
      && (forall k :: Registered(r, k) <==> Registered(ws, k) && k != ws[i].id)
      && (forall j | 0 <= j < |r| :: r[j] in ws)
      && (forall i, j | 0 <= i < j < |r| :: r[i].id < r[j].id)
  {
    var r := RemoveAt(ws, i);
    forall j | 0 <= j < |r| ensures r[j] == ws[if j < i then j else j + 1] { }
    forall k | Registered(ws, k) && k != ws[i].id ensures Registered(r, k) {
      var j :| 0 <= j < |ws| && ws[j].id == k;
      assert r[if j < i then j else j - 1].id == k;
    }
  }

  // The event goes into the log; waits on the queue are not concerned.
  lemma AppendFollows(lim: Limits, h: History, e: Event)
    requires Waits(h)
    ensures Waits(h.(trace := h.trace.(state := AppendLog(lim, h.trace.state, e), logged := h.trace.logged + [e])))
  {
    StillWaitingExact(h.trace.state.logWaiters, h.trace.state.lastSeq + 1);
    var h' := h.(trace := h.trace.(state := AppendLog(lim, h.trace.state, e), logged := h.trace.logged + [e]));
    assert forall id :: Served(h'.trace, id) <==> Served(h.trace, id);
    assert forall id :: Open(h', id) <==> Open(h, id);
  }

  // A wait served: one delivery more.
  lemma ServedMore(t: Trace, t': Trace, n: nat, taker: nat)
    requires n !in t.delivered && t'.delivered == t.delivered[n := taker]
    ensures forall id :: Served(t', id) <==> Served(t, id) || id == taker
  {
    forall id ensures Served(t', id) <==> Served(t, id) || id == taker {
      if Served(t, id) {
        var m :| m in t.delivered && t.delivered[m] == id;
        assert t'.delivered[m] == id;
      }
      assert t'.delivered[n] == taker;
    }
  }

  // What an arrival does not touch, when nobody takes it or somebody does.
  lemma ArriveFollows(lim: Limits, h: History, e: Event)
    requires Waits(h) && |h.trace.arrived| !in h.trace.delivered
    ensures Waits(h.(trace := Arrive(lim, h.trace, e)))
  {
    var t, t', i := h.trace, Arrive(lim, h.trace, e), FirstTaker(h.trace.state.waiters, e);
    if i < |t.state.waiters| {
      HandedOver(lim, h, e, i);
    } else {
      assert forall id :: Served(t', id) <==> Served(t, id);
      assert forall id :: Open(h.(trace := t'), id) <==> Open(h, id);
    }
  }

  // One open wait less, and its waiter gone.
  lemma WaiterGone(h: History, h': History, id: nat)
    requires PendingExact(h) && h'.asked == h.asked
    requires forall k :: Open(h', k) <==> Open(h, k) && k != id
    requires var ws, ws' := h.trace.state.waiters, h'.trace.state.waiters;
      && (forall k :: Registered(ws', k) <==> Registered(ws, k) && k != id)
      && (forall j | 0 <= j < |ws'| :: ws'[j] in ws)
      && (forall i, j | 0 <= i < j < |ws'| :: ws'[i].id < ws'[j].id)
    ensures PendingExact(h')
  {
    var ws, ws' := h.trace.state.waiters, h'.trace.state.waiters;
    forall j | 0 <= j < |ws'| ensures Open(h', ws'[j].id) && ws'[j].filter == h'.asked[ws'[j].id] {
      var w := ws'[j];
      assert w in ws;
      var k :| 0 <= k < |ws| && ws[k] == w;
      assert Registered(ws', w.id);
    }
  }

  lemma HandedOver(lim: Limits, h: History, e: Event, i: nat)
    requires Waits(h) && |h.trace.arrived| !in h.trace.delivered
    requires i == FirstTaker(h.trace.state.waiters, e) < |h.trace.state.waiters|
    ensures Waits(h.(trace := Arrive(lim, h.trace, e)))
  {
    var t, t' := h.trace, Arrive(lim, h.trace, e);
    var ws, h', n := t.state.waiters, h.(trace := t'), |t.arrived|;
    ServedMore(t, t', n, ws[i].id);
    RemovedOne(ws, i);
    assert t'.state.waiters == RemoveAt(ws, i);
    WaiterGone(h, h', ws[i].id);
    assert ServedWell(h') by {
      assert Open(h, ws[i].id) && ws[i].filter == h.asked[ws[i].id];
    }
    assert forall k :: LogOpen(h', k) <==> LogOpen(h, k);
  }

  lemma WaitFollows(lim: Limits, h: History, filter: Event -> Verdict, mayWait: bool)
    requires HistoryInv(lim, h)
    ensures Waits(Follow(lim, h, WaitFor(filter, mayWait)))
  {
    var t, h', i := h.trace, Follow(lim, h, WaitFor(filter, mayWait)), FirstQueued(h.trace.state.queue, filter);
    if i < |t.state.queue| {
      assert t.waiting[i] in t.waiting;
      Drained(h, h', t.waiting[i]);
    } else {
      assert forall id :: Served(h'.trace, id) <==> Served(t, id);
      if mayWait {
        NewIdUnserved(lim, h);
        Enlisted(h, h', filter);
      } else {
        assert forall id :: Open(h', id) <==> Open(h, id);
      }
    }
  }

  // The wait ends at once with an event of the queue.
  lemma Drained(h: History, h': History, n: nat)
    requires Waits(h) && n !in h.trace.delivered
    requires h'.asked == h.asked && h'.gaveUp == h.gaveUp && h'.logAsked == h.logAsked && h'.logGaveUp == h.logGaveUp
    requires h'.trace.delivered == h.trace.delivered[n := h.trace.state.nextId] && h'.trace.arrived == h.trace.arrived
    requires h'.trace.state == h.trace.state.(queue := h'.trace.state.queue, nextId := h.trace.state.nextId + 1)
    ensures Waits(h')
  {
    ServedMore(h.trace, h'.trace, n, h.trace.state.nextId);
    assert forall id :: Open(h', id) <==> Open(h, id);
  }

  // The wait is enlisted.
  lemma Enlisted(h: History, h': History, filter: Event -> Verdict)
    requires Waits(h) && !Served(h.trace, h.trace.state.nextId)
    requires h' == h.(asked := h.asked[h.trace.state.nextId := filter], trace := h'.trace)
    requires h'.trace == h.trace.(state := h'.trace.state)
    requires var s := h.trace.state; h'.trace.state == s.(waiters := s.waiters + [Waiter(s.nextId, filter)], nextId := s.nextId + 1)
    requires forall n | n in h.trace.delivered :: h.trace.delivered[n] < h.trace.state.nextId
    ensures Waits(h')
  {
    var ws, ws', n := h.trace.state.waiters, h'.trace.state.waiters, h.trace.state.nextId;
    assert forall id :: Served(h'.trace, id) <==> Served(h.trace, id);
    assert n !in h.asked;
    assert forall id :: Open(h', id) <==> Open(h, id) || id == n;
    assert ws'[|ws|].id == n;
    forall id | Open(h', id) ensures Registered(ws', id) {
      if id != n {
        var j :| 0 <= j < |ws| && ws[j].id == id;
        assert ws'[j].id == id;
      }
    }
    forall j | 0 <= j < |ws| ensures ws[j].id < n { assert Open(h, ws[j].id); }
  }

  lemma NewIdUnserved(lim: Limits, h: History)
    requires HistoryInv(lim, h)
    ensures !Served(h.trace, h.trace.state.nextId)
  {
  }

  lemma TimeoutFollows(lim: Limits, h: History, id: nat)
    requires Waits(h)
    ensures Waits(Follow(lim, h, WaitTimeout(id)))
  {
    var h' := Follow(lim, h, WaitTimeout(id));
    WithoutWaiterExact(h.trace.state.waiters, id);
    OthersSame(h, h', id);
    assert forall k :: Open(h', k) <==> Open(h, k) && k != id;
    WaiterGone(h, h', id);
  }

  lemma OthersSame(h: History, h': History, id: nat)
    requires ServedWell(h) && LogPendingExact(h) && LogIdsDistinct(h.trace.state.logWaiters)
    requires h'.trace == h.trace.(state := h'.trace.state) && h'.trace.state == h.trace.state.(waiters := h'.trace.state.waiters)
    requires h'.asked == h.asked && h'.logAsked == h.logAsked && h'.logGaveUp == h.logGaveUp
    requires h'.gaveUp == h.gaveUp || (Open(h, id) && h'.gaveUp == h.gaveUp + {id})
    ensures forall k :: Served(h'.trace, k) <==> Served(h.trace, k)
    ensures ServedWell(h') && LogPendingExact(h') && LogIdsDistinct(h'.trace.state.logWaiters)
  {
    assert forall k :: LogOpen(h', k) <==> LogOpen(h, k);
    assert forall k :: Served(h'.trace, k) <==> Served(h.trace, k);
  }

  lemma LogWaitFollows(lim: Limits, h: History, since: nat)
    requires Waits(h)
    ensures Waits(Follow(lim, h, LogWait(since)))
  {
    var t, h' := h.trace, Follow(lim, h, LogWait(since));
    assert forall k :: Served(h'.trace, k) <==> Served(t, k);
    assert forall k :: Open(h', k) <==> Open(h, k);
    if t.state.lastSeq <= since { LogEnlisted(h, h', since); }
  }

  lemma LogEnlisted(h: History, h': History, since: nat)
    requires LogPendingExact(h) && LogIdsDistinct(h.trace.state.logWaiters) && h.trace.state.lastSeq <= since
    requires forall id | id in h.logAsked || id in h.logGaveUp :: id < h.trace.state.nextId
    requires h'.logAsked == h.logAsked[h.trace.state.nextId := since] && h'.logGaveUp == h.logGaveUp
    requires h'.trace.state.lastSeq == h.trace.state.lastSeq
    requires h'.trace.state.logWaiters == h.trace.state.logWaiters + [LogWaiter(h.trace.state.nextId, since)]
    ensures LogPendingExact(h') && LogIdsDistinct(h'.trace.state.logWaiters)
  {
    var ws, ws', added := h.trace.state.logWaiters, h'.trace.state.logWaiters, LogWaiter(h.trace.state.nextId, since);
    assert forall x :: x in ws' <==> x in ws || x == added;
    forall j | 0 <= j < |ws| ensures ws[j].id < added.id { assert ws[j] in ws; }
    forall w ensures w in ws' <==> LogOpen(h', w.id) && w.sinceSeq == h'.logAsked[w.id] {
      if w.id != added.id { assert LogOpen(h', w.id) <==> LogOpen(h, w.id); }
    }
  }

  lemma LogTimeoutFollows(lim: Limits, h: History, id: nat)
    requires Waits(h)
    ensures Waits(Follow(lim, h, LogTimeout(id)))
  {
    var t, h' := h.trace, Follow(lim, h, LogTimeout(id));
    WithoutLogWaiterExact(t.state.logWaiters, id);
    assert forall k :: Served(h'.trace, k) <==> Served(t, k);
    assert forall k :: Open(h', k) <==> Open(h, k);
    assert forall k :: LogOpen(h', k) <==> LogOpen(h, k) && k != id;
  }

  lemma StepWaits(lim: Limits, h: History, step: Step)
    requires HistoryInv(lim, h)
    ensures Waits(Follow(lim, h, step))
  {
    match step
    case Inbound(e) =>
      AppendFollows(lim, h, e);
      ArriveFollows(lim, h.(trace := h.trace.(state := AppendLog(lim, h.trace.state, e), logged := h.trace.logged + [e])), e);
    case Outbound(e) => AppendFollows(lim, h, e);
    case WaitFor(filter, mayWait) => WaitFollows(lim, h, filter, mayWait);
    case WaitTimeout(id) => TimeoutFollows(lim, h, id);
    case LogWait(since) => LogWaitFollows(lim, h, since);
    case LogTimeout(id) => LogTimeoutFollows(lim, h, id);
  }

  lemma BeginningWaits()
    ensures Waits(Beginning())
  {
  }

  lemma {:induction false} FollowedTrace(lim: Limits, steps: seq<Step>)
    ensures Followed(lim, steps).trace == Run(lim, steps)
  {
    if steps != [] { FollowedTrace(lim, steps[..|steps| - 1]); }
  }

  lemma {:induction false} RunWaits(lim: Limits, steps: seq<Step>)
    ensures Waits(Followed(lim, steps))
  {
    if steps == [] {
      BeginningWaits();
    } else {
      var before := steps[..|steps| - 1];
      RunWaits(lim, before);
      RunKeeps(lim, before);
      FollowedTrace(lim, before);
      StepWaits(lim, Followed(lim, before), steps[|steps| - 1]);
    }
  }

  // ---------------------------------------------------------------- what it means

  // Over every run, exactly one of these holds of a wait that was told to wait: its waiter is pending
  // with its filter; it got exactly one event, one that its filter takes; its timer fired first.
  lemma EveryWaitIsExact(lim: Limits, steps: seq<Step>, id: nat)
    requires id in Followed(lim, steps).asked
    ensures var h := Followed(lim, steps); var ws := h.trace.state.waiters;
      var pending, gaveUp := Waiter(id, h.asked[id]) in ws, id in h.gaveUp;
      && (pending || Served(h.trace, id) || gaveUp)
      && !(pending && Served(h.trace, id)) && !(pending && gaveUp) && !(Served(h.trace, id) && gaveUp)
      && (pending <==> Registered(ws, id))
      && (forall m, n | m in h.trace.delivered && n in h.trace.delivered && h.trace.delivered[m] == id && h.trace.delivered[n] == id :: m == n)
      && (forall n | n in h.trace.delivered && h.trace.delivered[n] == id ::
            n < |h.trace.arrived| && h.asked[id](h.trace.arrived[n]).Match?)
  {
    RunWaits(lim, steps);
    RunKeeps(lim, steps);
    FollowedTrace(lim, steps);
    var h := Followed(lim, steps);
    var ws := h.trace.state.waiters;
    if Registered(ws, id) {
      var j :| 0 <= j < |ws| && ws[j].id == id;
      assert ws[j] == Waiter(id, h.asked[id]);
    }
    if Waiter(id, h.asked[id]) in ws {
      var j :| 0 <= j < |ws| && ws[j] == Waiter(id, h.asked[id]);
      assert Open(h, id) && Registered(ws, id);
    }
  }

  // An event that arrives goes to the oldest open wait whose filter takes it, and to nobody where there
  // is none.
  lemma OldestIsServed(lim: Limits, steps: seq<Step>, e: Event)
    ensures var h, h' := Followed(lim, steps), Followed(lim, steps + [Inbound(e)]); var n := |h.trace.arrived|;
      && h'.trace.arrived == h.trace.arrived + [e]
      && (n in h'.trace.delivered <==> exists id :: Open(h, id) && h.asked[id](e).Match?)
      && (n in h'.trace.delivered ==> var taker := h'.trace.delivered[n];
            Open(h, taker) && h.asked[taker](e).Match? && forall id | Open(h, id) && h.asked[id](e).Match? :: taker <= id)
  {
    assert (steps + [Inbound(e)])[..|steps|] == steps;
    RunWaits(lim, steps);
    ArrivalIsNew(lim, steps);
    OldestTaker(Followed(lim, steps), e);
  }

  lemma ArrivalIsNew(lim: Limits, steps: seq<Step>)
    ensures var t := Followed(lim, steps).trace; |t.arrived| !in t.delivered
  {
    RunKeeps(lim, steps);
    FollowedTrace(lim, steps);
  }

  lemma OldestTaker(h: History, e: Event)
    requires PendingExact(h)
    ensures var ws, i := h.trace.state.waiters, FirstTaker(h.trace.state.waiters, e);
      && (i < |ws| <==> exists id :: Open(h, id) && h.asked[id](e).Match?)
      && (i < |ws| ==> Open(h, ws[i].id) && h.asked[ws[i].id](e).Match? && forall id | Open(h, id) && h.asked[id](e).Match? :: ws[i].id <= id)
  {
    var ws, i := h.trace.state.waiters, FirstTaker(h.trace.state.waiters, e);
    forall id | Open(h, id) && h.asked[id](e).Match? ensures i < |ws| && ws[i].id <= id {
      assert Registered(ws, id);
      var j :| 0 <= j < |ws| && ws[j].id == id;
      assert i <= j;
    }
  }

  // A timer ends its own wait and no other; a new wait is open and none of the others changes.
  lemma TimeoutExactly(lim: Limits, steps: seq<Step>, id: nat, k: nat)
    ensures var h, h' := Followed(lim, steps), Followed(lim, steps + [WaitTimeout(id)]);
      && (Open(h', k) <==> Open(h, k) && k != id)
      && (Registered(h'.trace.state.waiters, k) <==> Registered(h.trace.state.waiters, k) && k != id)
  {
    assert (steps + [WaitTimeout(id)])[..|steps|] == steps;
    RunWaits(lim, steps);
    var h := Followed(lim, steps);
    WithoutWaiterExact(h.trace.state.waiters, id);
    assert Served(Follow(lim, h, WaitTimeout(id)).trace, k) <==> Served(h.trace, k);
  }

  // Over every run the pending log waits are those told to wait whose number the log has not passed and
  // whose timer has not fired before that.
  lemma EveryLogWaitIsExact(lim: Limits, steps: seq<Step>, id: nat)
    requires id in Followed(lim, steps).logAsked
    ensures var h := Followed(lim, steps);
      LogWaiter(id, h.logAsked[id]) in h.trace.state.logWaiters <==>
      |Run(lim, steps).logged| <= h.logAsked[id] && id !in h.logGaveUp
    ensures forall w | w in Followed(lim, steps).trace.state.logWaiters && w.id == id :: w.sinceSeq == Followed(lim, steps).logAsked[id]
  {
    RunWaits(lim, steps);
    RunKeeps(lim, steps);
    FollowedTrace(lim, steps);
  }

  lemma LogTimeoutExactly(lim: Limits, steps: seq<Step>, id: nat, w: LogWaiter)
    ensures w in Followed(lim, steps + [LogTimeout(id)]).trace.state.logWaiters <==>
            w in Followed(lim, steps).trace.state.logWaiters && w.id != id
  {
    assert (steps + [LogTimeout(id)])[..|steps|] == steps;
    RunWaits(lim, steps);
    WithoutLogWaiterExact(Followed(lim, steps).trace.state.logWaiters, id);
  }

  // ---------------------------------------------------------------- the queue

  lemma {:induction false} AscendingApart(waiting: seq<nat>, n: nat)
    requires waiting != [] && (forall i | 0 <= i < |waiting| :: waiting[i] < n)
    requires forall i, j | 0 <= i < j < |waiting| :: waiting[i] < waiting[j]
    ensures waiting[0] + |waiting| <= n
  {
    if |waiting| > 1 { AscendingApart(waiting[..|waiting| - 1], waiting[|waiting| - 1]); }
  }

  // An event is lost only to a full queue: so many others came after it.
  lemma {:induction false} LostOnlyWhenFull(lim: Limits, steps: seq<Step>)
    ensures forall k | k in Run(lim, steps).dropped :: k + lim.maxQueue < |Run(lim, steps).arrived|
  {
    if steps != [] {
      var before, step := steps[..|steps| - 1], steps[|steps| - 1];
      LostOnlyWhenFull(lim, before);
      RunKeeps(lim, before);
      var t := Run(lim, before);
      if step.Inbound? && FirstTaker(t.state.waiters, step.evt) == |t.state.waiters| {
        AscendingApart(t.waiting + [|t.arrived|], |t.arrived| + 1);
      }
    }
  }

  // The queue after one more event: as before where an open wait takes it, and otherwise with the event
  // at its end, without its oldest one where it was full.
  lemma QueueAfterArrival(lim: Limits, steps: seq<Step>, e: Event)
    ensures var h := Followed(lim, steps);
      var q, q' := h.trace.state.queue, Run(lim, steps + [Inbound(e)]).state.queue;
      && |q| <= lim.maxQueue
      && ((exists id :: Open(h, id) && h.asked[id](e).Match?) ==> q' == q)
      && ((forall id | Open(h, id) :: !h.asked[id](e).Match?) ==>
            q' == if |q| < lim.maxQueue then q + [e] else (q + [e])[1..])
  {
    assert (steps + [Inbound(e)])[..|steps|] == steps;
    RunKeeps(lim, steps);
    RunWaits(lim, steps);
    FollowedTrace(lim, steps);
    OldestTaker(Followed(lim, steps), e);
  }

  // A wait takes the oldest queued event its filter takes, and leaves the queue alone where there is none.
  lemma QueueAfterWait(lim: Limits, steps: seq<Step>, filter: Event -> Verdict, mayWait: bool, i: nat)
    requires var q := Run(lim, steps).state.queue;
      i <= |q| && (i < |q| ==> filter(q[i]).Match?) && forall j | 0 <= j < i :: !filter(q[j]).Match?
    ensures var t, t' := Run(lim, steps), Run(lim, steps + [WaitFor(filter, mayWait)]); var q := t.state.queue;
      && |t.waiting| == |q|
      && (i < |q| ==>
            && t'.state.queue == q[..i] + q[i + 1..] && t'.state.waiters == t.state.waiters
            && t.waiting[i] < |t.arrived| && t.arrived[t.waiting[i]] == q[i]
            && t'.delivered == t.delivered[t.waiting[i] := t.state.nextId])
      && (i == |q| ==>
            && t'.state.queue == q && t'.delivered == t.delivered
            && t'.state.waiters == if mayWait then t.state.waiters + [Waiter(t.state.nextId, filter)] else t.state.waiters)
  {
    assert (steps + [WaitFor(filter, mayWait)])[..|steps|] == steps;
    RunKeeps(lim, steps);
    assert FirstQueued(Run(lim, steps).state.queue, filter) == i;
  }
}
