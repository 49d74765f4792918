// The in-process message log and the consume-once queue of inbound sidechannel events.

module EventLog {

  import opened Prelude

  datatype Event = Event(channel: string, message: string)

  datatype Logged = Logged(seqNo: nat, evt: Event)

  // A filter may throw; the loops treat that as no match.
  datatype Verdict = Match | NoMatch | Throws

  datatype Waiter = Waiter(id: nat, filter: Event -> Verdict)

  datatype LogWaiter = LogWaiter(id: nat, sinceSeq: nat)

  datatype Limits = Limits(maxLog: nat, maxQueue: nat)

  datatype State = State(
    log: seq<Logged>, lastSeq: nat, queue: seq<Event>,
    waiters: seq<Waiter>, logWaiters: seq<LogWaiter>, nextId: nat)

  datatype Step =
    | Inbound(evt: Event)
    | Outbound(evt: Event)
    | WaitFor(filter: Event -> Verdict, mayWait: bool)
    | WaitTimeout(id: nat)
    | LogWait(sinceSeq: nat)
    | LogTimeout(id: nat)

  function Trim<T>(s: seq<T>, max: nat): seq<T> {
    if |s| > max then s[|s| - max..] else s
  }

  function RemoveAt<T>(s: seq<T>, i: nat): seq<T>
    requires i < |s|
  {
    s[..i] + s[i + 1..]
  }

  function StillWaiting(ws: seq<LogWaiter>, n: nat): seq<LogWaiter> {
    if ws == [] then []
    else if n > ws[0].sinceSeq then StillWaiting(ws[1..], n)
    else [ws[0]] + StillWaiting(ws[1..], n)
  }

  // The position of the first waiter that takes the event, or the number of waiters.
  function FirstTaker(ws: seq<Waiter>, e: Event): (i: nat)
    ensures i <= |ws|
    ensures i < |ws| ==> ws[i].filter(e).Match?
    ensures forall j | 0 <= j < i :: !ws[j].filter(e).Match?
  {
    if ws == [] || ws[0].filter(e).Match? then 0 else 1 + FirstTaker(ws[1..], e)
  }

  // The position of the oldest queued event the filter takes, or the length of the queue.
  function FirstQueued(queue: seq<Event>, filter: Event -> Verdict): (i: nat)
    ensures i <= |queue|
    ensures i < |queue| ==> filter(queue[i]).Match?
    ensures forall j | 0 <= j < i :: !filter(queue[j]).Match?
  {
    if queue == [] || filter(queue[0]).Match? then 0 else 1 + FirstQueued(queue[1..], filter)
  }

  function WithoutWaiter(ws: seq<Waiter>, id: nat): seq<Waiter> {
    if ws == [] then []
    else if ws[0].id == id then ws[1..]
    else [ws[0]] + WithoutWaiter(ws[1..], id)
  }

  function WithoutLogWaiter(ws: seq<LogWaiter>, id: nat): seq<LogWaiter> {
    if ws == [] then []
    else if ws[0].id == id then ws[1..]
    else [ws[0]] + WithoutLogWaiter(ws[1..], id)
  }

  function AppendLog(lim: Limits, s: State, e: Event): State {
    var n := s.lastSeq + 1;
    s.(log := Trim(s.log + [Logged(n, e)], lim.maxLog), lastSeq := n, logWaiters := StillWaiting(s.logWaiters, n))
  }

  function Receive(lim: Limits, s: State, e: Event): State {
    var i := FirstTaker(s.waiters, e);
    if i < |s.waiters| then s.(waiters := RemoveAt(s.waiters, i))
    else s.(queue := Trim(s.queue + [e], lim.maxQueue))
  }

  function Drain(s: State, filter: Event -> Verdict, mayWait: bool): State {
    var i := FirstQueued(s.queue, filter);
    if i < |s.queue| then s.(queue := RemoveAt(s.queue, i), nextId := s.nextId + 1)
    else if mayWait then s.(waiters := s.waiters + [Waiter(s.nextId, filter)], nextId := s.nextId + 1)
    else s
  }

  function Next(lim: Limits, s: State, step: Step): State {
    match step
    case Inbound(e) => Receive(lim, AppendLog(lim, s, e), e)
    case Outbound(e) => AppendLog(lim, s, e)
    case WaitFor(filter, mayWait) => Drain(s, filter, mayWait)
    case WaitTimeout(id) => s.(waiters := WithoutWaiter(s.waiters, id))
    case LogWait(since) =>
      if s.lastSeq > since then s
      else s.(logWaiters := s.logWaiters + [LogWaiter(s.nextId, since)], nextId := s.nextId + 1)
    case LogTimeout(id) => s.(logWaiters := WithoutLogWaiter(s.logWaiters, id))
  }

  // ---------------------------------------------------------------- the history behind a state

  // logged: everything ever appended; arrived: everything received; waiting: the arrival numbers of
  // the queued events; delivered: arrival number to waiter; dropped: lost to overflow.
  datatype Trace = Trace(
    state: State, logged: seq<Event>, arrived: seq<Event>,
    waiting: seq<nat>, delivered: map<nat, nat>, dropped: set<nat>)

  ghost function Start(): Trace {
    Trace(State([], 0, [], [], [], 0), [], [], [], map[], {})
  }

  // An inbound event, once it is in the log.
  ghost function Arrive(lim: Limits, t: Trace, e: Event): Trace {
    var n := |t.arrived|;
    var i := FirstTaker(t.state.waiters, e);
    var t' := t.(state := Receive(lim, t.state, e), arrived := t.arrived + [e]);
    if i < |t.state.waiters| then t'.(delivered := t.delivered[n := t.state.waiters[i].id])
    else
      var all := t.waiting + [n];
      // The queue was within its bound, so at most its oldest event is lost.
      if |all| > lim.maxQueue then t'.(waiting := all[1..], dropped := t.dropped + {all[0]})
      else t'.(waiting := all)
  }

  ghost function Advance(lim: Limits, t: Trace, step: Step): Trace {
    match step
    case Inbound(e) => Arrive(lim, t.(state := AppendLog(lim, t.state, e), logged := t.logged + [e]), e)
    case Outbound(e) => t.(state := Next(lim, t.state, step), logged := t.logged + [e])
    case WaitFor(filter, _) =>
      var i := FirstQueued(t.state.queue, filter);
      if i < |t.state.queue| && i < |t.waiting| then
        t.(state := Next(lim, t.state, step), waiting := RemoveAt(t.waiting, i),
           delivered := t.delivered[t.waiting[i] := t.state.nextId])
      else t.(state := Next(lim, t.state, step))
    case _ => t.(state := Next(lim, t.state, step))
  }

  ghost function Run(lim: Limits, steps: seq<Step>): Trace {
    if steps == [] then Start() else Advance(lim, Run(lim, steps[..|steps| - 1]), steps[|steps| - 1])
  }

  // The log is the last events appended, numbered without gaps up to the current sequence number.
  ghost predicate LogKept(max: nat, log: seq<Logged>, logged: seq<Event>) {
    && |log| == (if |logged| > max then max else |logged|)
    && forall i | 0 <= i < |log| :: log[i] == Logged(|logged| - |log| + i + 1, logged[|logged| - |log| + i])
  }

  ghost predicate LogWaitersKept(ws: seq<LogWaiter>, lastSeq: nat) {
    forall w | w in ws :: w.sinceSeq >= lastSeq
  }

  // Queue order is arrival order.
  ghost predicate Ordered(waiting: seq<nat>, queue: seq<Event>, arrived: seq<Event>) {
    && |waiting| == |queue|
    && (forall i | 0 <= i < |waiting| :: waiting[i] < |arrived| && queue[i] == arrived[waiting[i]])
    && (forall i, j | 0 <= i < j < |waiting| :: waiting[i] < waiting[j])
  }

  // Every arrival is queued, delivered or dropped, and never two of them.
  ghost predicate OneFate(n: nat, waiting: seq<nat>, delivered: map<nat, nat>, dropped: set<nat>) {
    && (forall k: nat | k < n :: k in waiting || k in delivered || k in dropped)
    && (forall k | k in waiting :: k < n && k !in delivered && k !in dropped)
    && (forall k | k in delivered :: k < n && k !in dropped)
    && (forall k | k in dropped :: k < n)
  }

  // No event waits in the queue while some pending waiter would take it.
  ghost predicate NoneMissed(queue: seq<Event>, ws: seq<Waiter>) {
    forall i, j | 0 <= i < |queue| && 0 <= j < |ws| :: !ws[j].filter(queue[i]).Match?
  }

  // A waiter gets at most one event, and is no longer pending then.
  ghost predicate OnceEach(delivered: map<nat, nat>, ws: seq<Waiter>, nextId: nat) {
    && (forall i, j | 0 <= i < j < |ws| :: ws[i].id != ws[j].id)
    && (forall j | 0 <= j < |ws| :: ws[j].id < nextId)
    && (forall j, n | 0 <= j < |ws| && n in delivered :: delivered[n] != ws[j].id)
    && (forall n | n in delivered :: delivered[n] < nextId)
    && (forall m, n | m in delivered && n in delivered && m != n :: delivered[m] != delivered[n])
  }

  ghost predicate Inv(lim: Limits, t: Trace) {
    && t.state.lastSeq == |t.logged|
    && LogKept(lim.maxLog, t.state.log, t.logged)
    && LogWaitersKept(t.state.logWaiters, t.state.lastSeq)
    && |t.state.queue| <= lim.maxQueue
    && Ordered(t.waiting, t.state.queue, t.arrived)
    && OneFate(|t.arrived|, t.waiting, t.delivered, t.dropped)
    && NoneMissed(t.state.queue, t.state.waiters)
    && OnceEach(t.delivered, t.state.waiters, t.state.nextId)
  }

  // ---------------------------------------------------------------- every step keeps it

  lemma StillWaitingKept(ws: seq<LogWaiter>, n: nat)
    ensures forall w :: w in StillWaiting(ws, n) <==> w in ws && w.sinceSeq >= n
  {
    if ws != [] {
      StillWaitingKept(ws[1..], n);
      assert ws == [ws[0]] + ws[1..];
      var rest := StillWaiting(ws[1..], n);
      assert forall w :: w in [ws[0]] + rest <==> w == ws[0] || w in rest;
    }
  }

  lemma AppendKeepsLog(max: nat, log: seq<Logged>, logged: seq<Event>, e: Event)
    requires LogKept(max, log, logged)
    ensures LogKept(max, Trim(log + [Logged(|logged| + 1, e)], max), logged + [e])
  {
  }

  lemma EnqueueKeepsOrder(waiting: seq<nat>, queue: seq<Event>, arrived: seq<Event>, e: Event)
    requires Ordered(waiting, queue, arrived)
    ensures Ordered(waiting + [|arrived|], queue + [e], arrived + [e])
  {
  }

  lemma DropOldest(n: nat, waiting: seq<nat>, delivered: map<nat, nat>, dropped: set<nat>)
    requires waiting != [] && OneFate(n, waiting, delivered, dropped)
    requires forall i, j | 0 <= i < j < |waiting| :: waiting[i] < waiting[j]
    ensures OneFate(n, waiting[1..], delivered, dropped + {waiting[0]})
  {
    assert waiting == [waiting[0]] + waiting[1..];
  }

  lemma TakeOut(n: nat, waiting: seq<nat>, i: nat, taker: nat, delivered: map<nat, nat>, dropped: set<nat>)
    requires i < |waiting| && OneFate(n, waiting, delivered, dropped)
    requires forall i, j | 0 <= i < j < |waiting| :: waiting[i] < waiting[j]
    ensures OneFate(n, RemoveAt(waiting, i), delivered[waiting[i] := taker], dropped)
  {
    var rest := RemoveAt(waiting, i);
    assert waiting == waiting[..i] + [waiting[i]] + waiting[i + 1..];
    assert waiting[i] in waiting;
    forall k | k in rest ensures k in waiting && k != waiting[i] {
      var j :| 0 <= j < |rest| && rest[j] == k;
      assert rest[j] == waiting[if j < i then j else j + 1];
    }
    forall k | k in waiting && k != waiting[i] ensures k in rest { }
  }

  lemma RemoveKeepsOrder(waiting: seq<nat>, queue: seq<Event>, arrived: seq<Event>, i: nat)
    requires Ordered(waiting, queue, arrived) && i < |queue|
    ensures Ordered(RemoveAt(waiting, i), RemoveAt(queue, i), arrived)
  {
  }

  lemma RemoveWaiter(queue: seq<Event>, delivered: map<nat, nat>, ws: seq<Waiter>, nextId: nat, i: nat)
    requires i < |ws| && NoneMissed(queue, ws) && OnceEach(delivered, ws, nextId)
    ensures NoneMissed(queue, RemoveAt(ws, i)) && OnceEach(delivered, RemoveAt(ws, i), nextId)
    ensures forall j | 0 <= j < |RemoveAt(ws, i)| :: RemoveAt(ws, i)[j].id != ws[i].id
    ensures forall n | n in delivered :: delivered[n] != ws[i].id
  {
  }

  // Removing a pending waiter by its identity removes one entry, or none when it is no longer there.
  lemma WithoutWaiterRemoves(ws: seq<Waiter>, id: nat) returns (i: nat)
    ensures WithoutWaiter(ws, id) == if i < |ws| then RemoveAt(ws, i) else ws
  {
    if ws == [] || ws[0].id == id {
      i := 0;
    } else {
      var k := WithoutWaiterRemoves(ws[1..], id);
      i := k + 1;
    }
  }

  lemma WithoutLogWaiterKept(ws: seq<LogWaiter>, id: nat)
    ensures forall w | w in WithoutLogWaiter(ws, id) :: w in ws
  {
  }

  lemma AppendKeeps(lim: Limits, t: Trace, e: Event)
    requires Inv(lim, t)
    ensures Inv(lim, t.(state := AppendLog(lim, t.state, e), logged := t.logged + [e]))
  {
    StillWaitingKept(t.state.logWaiters, t.state.lastSeq + 1);
    AppendKeepsLog(lim.maxLog, t.state.log, t.logged, e);
  }

  lemma NewIsUnseen(n: nat, waiting: seq<nat>, delivered: map<nat, nat>, dropped: set<nat>, taker: nat)
    requires OneFate(n, waiting, delivered, dropped)
    ensures n !in delivered
    ensures OneFate(n + 1, waiting + [n], delivered, dropped)
    ensures OneFate(n + 1, waiting, delivered[n := taker], dropped)
  {
  }

  // Queueing an event nobody takes; the bound then drops at most the oldest one.
  lemma EnqueueKeeps(max: nat, waiting: seq<nat>, queue: seq<Event>, arrived: seq<Event>, ws: seq<Waiter>, e: Event)
    requires Ordered(waiting, queue, arrived) && NoneMissed(queue, ws) && |queue| <= max
    requires forall j | 0 <= j < |ws| :: !ws[j].filter(e).Match?
    ensures var q, all := Trim(queue + [e], max), waiting + [|arrived|];
      && |q| <= max && NoneMissed(q, ws)
      && Ordered(if |all| > max then all[1..] else all, q, arrived + [e])
  {
    EnqueueKeepsOrder(waiting, queue, arrived, e);
    OneMoreUnmatched(queue, ws, e);
    var all, longer := waiting + [|arrived|], queue + [e];
    if |longer| > max {
      assert Trim(longer, max) == longer[1..];
      TailKept(all, longer, arrived + [e], ws);
    }
  }

  lemma OneMoreUnmatched(queue: seq<Event>, ws: seq<Waiter>, e: Event)
    requires NoneMissed(queue, ws) && forall j | 0 <= j < |ws| :: !ws[j].filter(e).Match?
    ensures NoneMissed(queue + [e], ws)
  {
  }

  lemma TailKept(waiting: seq<nat>, queue: seq<Event>, arrived: seq<Event>, ws: seq<Waiter>)
    requires Ordered(waiting, queue, arrived) && NoneMissed(queue, ws) && queue != []
    ensures Ordered(waiting[1..], queue[1..], arrived) && NoneMissed(queue[1..], ws)
  {
  }

  lemma HandOverKeeps(lim: Limits, t: Trace, e: Event)
    requires Inv(lim, t) && FirstTaker(t.state.waiters, e) < |t.state.waiters|
    ensures Inv(lim, Arrive(lim, t, e))
  {
    var s, n, i := t.state, |t.arrived|, FirstTaker(t.state.waiters, e);
    NewIsUnseen(n, t.waiting, t.delivered, t.dropped, s.waiters[i].id);
    RemoveWaiter(s.queue, t.delivered, s.waiters, s.nextId, i);
    ArrivalKeepsOrder(t.waiting, s.queue, t.arrived, e);
    DeliverKeeps(t.delivered, n, s.waiters[i].id, RemoveAt(s.waiters, i), s.nextId);
  }

  lemma ArrivalKeepsOrder(waiting: seq<nat>, queue: seq<Event>, arrived: seq<Event>, e: Event)
    requires Ordered(waiting, queue, arrived)
    ensures Ordered(waiting, queue, arrived + [e])
  {
  }

  lemma DeliverKeeps(delivered: map<nat, nat>, n: nat, taker: nat, ws: seq<Waiter>, nextId: nat)
    requires OnceEach(delivered, ws, nextId) && n !in delivered && taker < nextId
    requires forall j | 0 <= j < |ws| :: ws[j].id != taker
    requires forall m | m in delivered :: delivered[m] != taker
    ensures OnceEach(delivered[n := taker], ws, nextId)
  {
  }

  lemma QueueUpFate(max: nat, n: nat, waiting: seq<nat>, delivered: map<nat, nat>, dropped: set<nat>)
    requires OneFate(n, waiting, delivered, dropped)
    requires forall i, j | 0 <= i < j < |waiting| :: waiting[i] < waiting[j]
    ensures var all := waiting + [n];
      if |all| > max then OneFate(n + 1, all[1..], delivered, dropped + {all[0]}) else OneFate(n + 1, all, delivered, dropped)
  {
    NewIsUnseen(n, waiting, delivered, dropped, 0);
    if |waiting| + 1 > max {
      forall i | 0 <= i < |waiting| ensures waiting[i] < n {
        assert waiting[i] in waiting;
      }
      DropOldest(n + 1, waiting + [n], delivered, dropped);
    }
  }

  lemma QueueUpKeeps(lim: Limits, t: Trace, e: Event)
    requires Inv(lim, t) && FirstTaker(t.state.waiters, e) == |t.state.waiters|
    ensures Inv(lim, Arrive(lim, t, e))
  {
    QueueUpFate(lim.maxQueue, |t.arrived|, t.waiting, t.delivered, t.dropped);
    EnqueueKeeps(lim.maxQueue, t.waiting, t.state.queue, t.arrived, t.state.waiters, e);
  }

  lemma ReceiveKeeps(lim: Limits, t: Trace, e: Event)
    requires Inv(lim, t)
    ensures Inv(lim, Arrive(lim, t, e))
  {
    if FirstTaker(t.state.waiters, e) < |t.state.waiters| {
      HandOverKeeps(lim, t, e);
    } else {
      QueueUpKeeps(lim, t, e);
    }
  }

  lemma DrainKeeps(lim: Limits, t: Trace, filter: Event -> Verdict, mayWait: bool)
    requires Inv(lim, t)
    ensures Inv(lim, Advance(lim, t, WaitFor(filter, mayWait)))
  {
    var s, i := t.state, FirstQueued(t.state.queue, filter);
    if i < |s.queue| {
      TakeOut(|t.arrived|, t.waiting, i, s.nextId, t.delivered, t.dropped);
      RemoveKeepsOrder(t.waiting, s.queue, t.arrived, i);
    }
  }

  lemma StepKeeps(lim: Limits, t: Trace, step: Step)
    requires Inv(lim, t)
    ensures Inv(lim, Advance(lim, t, step))
  {
    match step
    case Inbound(e) =>
      AppendKeeps(lim, t, e);
      ReceiveKeeps(lim, t.(state := AppendLog(lim, t.state, e), logged := t.logged + [e]), e);
    case Outbound(e) => AppendKeeps(lim, t, e);
    case WaitFor(filter, mayWait) => DrainKeeps(lim, t, filter, mayWait);
    case WaitTimeout(id) =>
      var i := WithoutWaiterRemoves(t.state.waiters, id);
      if i < |t.state.waiters| { RemoveWaiter(t.state.queue, t.delivered, t.state.waiters, t.state.nextId, i); }
    case LogWait(_) =>
    case LogTimeout(id) => WithoutLogWaiterKept(t.state.logWaiters, id);
  }

  // In every reachable state: the log is the last maxLog events, numbered without gaps; every arrival
  // has exactly one fate and the queue keeps arrival order; no queued event matches a pending waiter;
  // no waiter gets two events; no pending log waiter is behind the log.
  lemma {:induction false} RunKeeps(lim: Limits, steps: seq<Step>)
    ensures Inv(lim, Run(lim, steps))
  {
    if steps != [] {
      RunKeeps(lim, steps[..|steps| - 1]);
      StepKeeps(lim, Run(lim, steps[..|steps| - 1]), steps[|steps| - 1]);
    }
  }

  // ---------------------------------------------------------------- reading the log

  function Selected(log: seq<Logged>, since: nat, limit: nat, inChannel: Event -> bool): seq<Logged> {
    if log == [] || limit == 0 then []
    else if log[0].seqNo <= since || !inChannel(log[0].evt) then Selected(log[1..], since, limit, inChannel)
    else [log[0]] + Selected(log[1..], since, limit - 1, inChannel)
  }

  // The events received after number `since` on the reader's channels, whether or not the log still
  // has them.
  function Fresh(logged: seq<Event>, since: nat, inChannel: Event -> bool): seq<Logged>
    decreases |logged| - since
  {
    if since >= |logged| then []
    else if inChannel(logged[since]) then [Logged(since + 1, logged[since])] + Fresh(logged, since + 1, inChannel)
    else Fresh(logged, since + 1, inChannel)
  }

  function First<T>(s: seq<T>, n: nat): seq<T> {
    if n <= |s| then s[..n] else s
  }

  lemma {:induction false} FreshExact(logged: seq<Event>, since: nat, inChannel: Event -> bool, e: Logged)
    ensures e in Fresh(logged, since, inChannel) <==>
      since < e.seqNo <= |logged| && e.evt == logged[e.seqNo - 1] && inChannel(e.evt)
    decreases |logged| - since
  {
    if since < |logged| { FreshExact(logged, since + 1, inChannel, e); }
  }

  lemma {:induction false} FreshOrdered(logged: seq<Event>, since: nat, inChannel: Event -> bool, i: nat, j: nat)
    requires i < j < |Fresh(logged, since, inChannel)|
    ensures var s := Fresh(logged, since, inChannel); s[i].seqNo < s[j].seqNo
    decreases |logged| - since
  {
    var rest := Fresh(logged, since + 1, inChannel);
    if !inChannel(logged[since]) {
      FreshOrdered(logged, since + 1, inChannel, i, j);
    } else if i > 0 {
      FreshOrdered(logged, since + 1, inChannel, i - 1, j - 1);
    } else {
      assert rest[j - 1] in rest;
      FreshExact(logged, since + 1, inChannel, rest[j - 1]);
    }
  }

  lemma {:induction false} SelectedFresh(log: seq<Logged>, logged: seq<Event>, since: nat, limit: nat, inChannel: Event -> bool)
    requires |log| <= |logged|
    requires forall i | 0 <= i < |log| :: log[i] == Logged(|logged| - |log| + i + 1, logged[|logged| - |log| + i])
    ensures var base := |logged| - |log|;
      Selected(log, since, limit, inChannel) == First(Fresh(logged, if since <= base then base else since, inChannel), limit)
  {
    if log != [] && limit > 0 {
      var taken := log[0].seqNo > since && inChannel(log[0].evt);
      SelectedFresh(log[1..], logged, since, if taken then limit - 1 else limit, inChannel);
    }
  }

  lemma KeptLogSuffices(max: nat, log: seq<Logged>, logged: seq<Event>, since: nat, limit: nat, inChannel: Event -> bool)
    requires LogKept(max, log, logged) && since <= |logged| <= since + max
    ensures Selected(log, since, limit, inChannel) == First(Fresh(logged, since, inChannel), limit)
  {
    SelectedFresh(log, logged, since, limit, inChannel);
    assert since >= |logged| - |log|;
  }

  // A reader of any channels misses nothing as long as no more than maxLog events came in since what it
  // has seen: up to its limit it gets the events received after that on its channels, in order.
  lemma ReaderMissesNothing(lim: Limits, steps: seq<Step>, since: nat, limit: nat, inChannel: Event -> bool)
    requires since <= |Run(lim, steps).logged| <= since + lim.maxLog
    ensures var t := Run(lim, steps);
      Selected(t.state.log, since, limit, inChannel) == First(Fresh(t.logged, since, inChannel), limit)
  {
    RunKeeps(lim, steps);
    KeptLogSuffices(lim.maxLog, Run(lim, steps).state.log, Run(lim, steps).logged, since, limit, inChannel);
  }

  lemma KeptLogFromOldest(max: nat, log: seq<Logged>, logged: seq<Event>, since: nat, limit: nat, inChannel: Event -> bool)
    requires LogKept(max, log, logged) && since + max < |logged|
    ensures Selected(log, since, limit, inChannel) == First(Fresh(logged, |logged| - max, inChannel), limit)
  {
    SelectedFresh(log, logged, since, limit, inChannel);
  }

  // A reader that has fallen further behind gets what the log still has, from its oldest event on.
  lemma LateReader(lim: Limits, steps: seq<Step>, since: nat, limit: nat, inChannel: Event -> bool)
    requires since + lim.maxLog < |Run(lim, steps).logged|
    ensures var t := Run(lim, steps);
      Selected(t.state.log, since, limit, inChannel) == First(Fresh(t.logged, |t.logged| - lim.maxLog, inChannel), limit)
  {
    var t := Run(lim, steps);
    assert LogKept(lim.maxLog, t.state.log, t.logged) by { RunKeeps(lim, steps); }
    KeptLogFromOldest(lim.maxLog, t.state.log, t.logged, since, limit, inChannel);
  }

  // ---------------------------------------------------------------- the executor's fields

  datatype Waited = Got(evt: Event) | Nothing | Pending(id: nat)

  class Bus {
    const lim: Limits
    var scLog: seq<Logged>
    var scSeq: nat
    var scQueue: seq<Event>
    var scWaiters: seq<Waiter>
    var scLogWaiters: seq<LogWaiter>
    var nextId: nat

    ghost function Snapshot(): State
      reads this
    {
      State(scLog, scSeq, scQueue, scWaiters, scLogWaiters, nextId)
    }

    constructor (lim: Limits)
      ensures this.lim == lim && Snapshot() == Start().state
    {
      this.lim := lim;
      scLog, scSeq, scQueue, scWaiters, scLogWaiters, nextId := [], 0, [], [], [], 0;
    }

    method ScLogAppend(evt: Event)
      modifies this
      ensures Snapshot() == AppendLog(lim, old(Snapshot()), evt)
    {
      scSeq := scSeq + 1;
      ghost var all := scLog + [Logged(scSeq, evt)];
      scLog := scLog + [Logged(scSeq, evt)];
      if |scLog| > lim.maxLog {
        scLog := scLog[|scLog| - lim.maxLog..];
      }
      assert scLog == Trim(all, lim.maxLog);
      scLogWaiters := WakeLogWaiters(scLogWaiters, scSeq);
    }

    static method WakeLogWaiters(ws: seq<LogWaiter>, n: nat) returns (kept: seq<LogWaiter>)
      ensures kept == StillWaiting(ws, n)
    {
      kept := [];
      var i := 0;
      while i < |ws|
        invariant 0 <= i <= |ws|
        invariant kept + StillWaiting(ws[i..], n) == StillWaiting(ws, n)
      {
        if n <= ws[i].sinceSeq {
          kept := kept + [ws[i]];
        }
        i := i + 1;
      }
    }

    method OnScEvent(evt: Event) returns (taker: Option<nat>)
      modifies this
      ensures Snapshot() == Next(lim, old(Snapshot()), Inbound(evt))
      ensures var i := FirstTaker(old(scWaiters), evt);
        taker == if i < |old(scWaiters)| then Some(old(scWaiters)[i].id) else None
    {
      ScLogAppend(evt);
      var i := 0;
      while i < |scWaiters|
        invariant 0 <= i <= |scWaiters|
        invariant FirstTaker(scWaiters, evt) == i + FirstTaker(scWaiters[i..], evt)
      {
        if scWaiters[i].filter(evt).Match? {
          taker := Some(scWaiters[i].id);
          scWaiters := scWaiters[..i] + scWaiters[i + 1..];
          return;
        }
        i := i + 1;
      }
      scQueue := scQueue + [evt];
      if |scQueue| > lim.maxQueue {
        scQueue := scQueue[|scQueue| - lim.maxQueue..];
      }
      taker := None;
    }

    method ScWaitFor(filter: Event -> Verdict, mayWait: bool) returns (r: Waited)
      modifies this
      ensures Snapshot() == Next(lim, old(Snapshot()), WaitFor(filter, mayWait))
      ensures var i := FirstQueued(old(scQueue), filter);
        r == if i < |old(scQueue)| then Got(old(scQueue)[i]) else if mayWait then Pending(old(nextId)) else Nothing
    {
      var queue, i := scQueue, 0;
      while i < |queue|
        invariant 0 <= i <= |queue|
        invariant FirstQueued(queue, filter) == i + FirstQueued(queue[i..], filter)
      {
        if filter(queue[i]).Match? {
          r := Got(queue[i]);
          scQueue := queue[..i] + queue[i + 1..];
          nextId := nextId + 1;
          return;
        }
        i := i + 1;
      }
      if !mayWait { return Nothing; }
      scWaiters := scWaiters + [Waiter(nextId, filter)];
      r := Pending(nextId);
      nextId := nextId + 1;
    }

    // The timer of a pending wait fires.
    method OnWaitTimeout(id: nat)
      modifies this
      ensures Snapshot() == Next(lim, old(Snapshot()), WaitTimeout(id))
    {
      scWaiters := WithoutWaiter(scWaiters, id);
    }

    method OnLogWaitTimeout(id: nat)
      modifies this
      ensures Snapshot() == Next(lim, old(Snapshot()), LogTimeout(id))
    {
      scLogWaiters := WithoutLogWaiter(scLogWaiters, id);
    }

    method ScLogRead(sinceSeq: int, limit: int, inChannel: Event -> bool) returns (events: seq<Logged>)
      ensures events == Selected(scLog, if sinceSeq < 0 then 0 else sinceSeq,
                                 if limit < 1 then 1 else if limit > 5000 then 5000 else limit, inChannel)
    {
      var since := if sinceSeq < 0 then 0 else sinceSeq;
      var most := if limit < 1 then 1 else if limit > 5000 then 5000 else limit;
      events := Select(scLog, since, most, inChannel);
    }

    static method Select(log: seq<Logged>, since: nat, most: nat, inChannel: Event -> bool) returns (events: seq<Logged>)
      requires most > 0
      ensures events == Selected(log, since, most, inChannel)
    {
      events := [];
      var i := 0;
      while i < |log|
        invariant 0 <= i <= |log| && |events| < most
        invariant events + Selected(log[i..], since, most - |events|, inChannel) == Selected(log, since, most, inChannel)
      {
        if log[i].seqNo > since && inChannel(log[i].evt) {
          events := events + [log[i]];
          if |events| >= most { break; }
        }
        i := i + 1;
      }
    }

    method ScLogWait(sinceSeq: int) returns (r: Option<nat>)
      modifies this
      ensures Snapshot() == Next(lim, old(Snapshot()), LogWait(if sinceSeq < 0 then 0 else sinceSeq))
      ensures r.None? <==> old(scSeq) > (if sinceSeq < 0 then 0 else sinceSeq)
      ensures r.Some? ==> r.value == old(nextId)
    {
      var since := if sinceSeq < 0 then 0 else sinceSeq;
      if scSeq > since { return None; }
      scLogWaiters := scLogWaiters + [LogWaiter(nextId, since)];
      r := Some(nextId);
      nextId := nextId + 1;
    }
  }
}
