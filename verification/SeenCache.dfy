// The bounded memory of message ids already seen.

module SeenCache {

  datatype Entry = Entry(id: string, ts: int)

  datatype Config = Config(maxSeen: nat, ttlMs: int)

  datatype Call = Call(id: string, now: int)

  predicate Has(cache: seq<Entry>, id: string) {
    exists i | 0 <= i < |cache| :: cache[i].id == id
  }

  // Entries are kept in insertion order; the purge stops at the first one that is still fresh.
  function Purge(cache: seq<Entry>, cutoff: int): seq<Entry> {
    if cache != [] && cache[0].ts < cutoff then Purge(cache[1..], cutoff) else cache
  }

  function Insert(cfg: Config, cache: seq<Entry>, e: Entry): seq<Entry> {
    var more := cache + [e];
    Purge(if |more| > cfg.maxSeen then more[1..] else more, e.ts - cfg.ttlMs)
  }

  // The cache after the call, and whether the id was seen before; an empty id is never remembered.
  function Remember(cfg: Config, cache: seq<Entry>, c: Call): (seq<Entry>, bool) {
    if c.id == "" then (cache, false)
    else if Has(cache, c.id) then (cache, true)
    else (Insert(cfg, cache, Entry(c.id, c.now)), false)
  }

  class Seen {
    const cfg: Config
    var cache: seq<Entry>

    constructor (cfg: Config)
      ensures this.cfg == cfg && cache == []
    {
      this.cfg := cfg;
      cache := [];
    }

    method PurgeSeen(now: int)
      modifies this
      ensures cache == Purge(old(cache), now - cfg.ttlMs)
    {
      var cutoff := now - cfg.ttlMs;
      var i := 0;
      while i < |cache|
        invariant 0 <= i <= |cache| && cache == old(cache)
        invariant Purge(cache[i..], cutoff) == Purge(cache, cutoff)
      {
        if cache[i].ts >= cutoff { break; }
        assert cache[i..][1..] == cache[i + 1..];
        i := i + 1;
      }
      cache := cache[i..];
    }

    method RememberSeen(id: string, now: int) returns (dup: bool)
      modifies this
      ensures (cache, dup) == Remember(cfg, old(cache), Call(id, now))
    {
      if id == "" { return false; }
      if Has(cache, id) { return true; }
      cache := cache + [Entry(id, now)];
      if |cache| > cfg.maxSeen {
        cache := cache[1..];
      }
      PurgeSeen(now);
      dup := false;
    }
  }

  // ---------------------------------------------------------------- runs

  // history: every id accepted as new, in order; the cache is what is left of it from position first.
  datatype Trace = Trace(cache: seq<Entry>, history: seq<Entry>)

  function Next(cfg: Config, t: Trace, c: Call): Trace {
    var (cache, dup) := Remember(cfg, t.cache, c);
    Trace(cache, if dup || c.id == "" then t.history else t.history + [Entry(c.id, c.now)])
  }

  function Run(cfg: Config, calls: seq<Call>): Trace {
    if calls == [] then Trace([], []) else Next(cfg, Run(cfg, calls[..|calls| - 1]), calls[|calls| - 1])
  }

  predicate Ordered(calls: seq<Call>) {
    forall i, j | 0 <= i < j < |calls| :: calls[i].now <= calls[j].now
  }

  predicate Sorted(s: seq<Entry>) {
    forall i, j | 0 <= i < j < |s| :: s[i].ts <= s[j].ts
  }

  predicate Distinct(s: seq<Entry>) {
    forall i, j | 0 <= i < j < |s| :: s[i].id != s[j].id
  }

  // Entry i was pushed out by maxSeen further ids, all different from it and from each other.
  predicate Crowded(cfg: Config, history: seq<Entry>, i: nat) {
    i + cfg.maxSeen < |history| && Distinct(history[i..i + cfg.maxSeen + 1])
  }

  // The entries before first are gone for one of two reasons.
  ghost predicate Explained(cfg: Config, history: seq<Entry>, first: nat) {
    forall i: nat | i < first && i < |history| :: history[|history| - 1].ts - history[i].ts > cfg.ttlMs || Crowded(cfg, history, i)
  }

  ghost predicate KeptFrom(cfg: Config, t: Trace, first: nat) {
    first <= |t.history| && t.cache == t.history[first..] && Explained(cfg, t.history, first)
  }

  ghost predicate Inv(cfg: Config, t: Trace) {
    Sorted(t.history) && Distinct(t.cache) && |t.cache| <= cfg.maxSeen && exists first: nat :: KeptFrom(cfg, t, first)
  }

  lemma {:induction false} PurgeDrops(s: seq<Entry>, cutoff: int) returns (k: nat)
    ensures k <= |s| && Purge(s, cutoff) == s[k..] && (forall i | 0 <= i < k :: s[i].ts < cutoff) && (k < |s| ==> s[k].ts >= cutoff)
  {
    k := 0;
    if s != [] && s[0].ts < cutoff {
      var n := PurgeDrops(s[1..], cutoff);
      k := n + 1;
      assert s[1..][n..] == s[k..];
      assert forall i | 0 < i < |s| :: s[i] == s[1..][i - 1];
    }
  }

  function Fresh(s: seq<Entry>, cutoff: int): seq<Entry> {
    if s == [] then [] else (if s[0].ts < cutoff then [] else [s[0]]) + Fresh(s[1..], cutoff)
  }

  // Stopping early loses nothing: exactly the expired entries go.
  lemma {:induction false} PurgeExact(s: seq<Entry>, cutoff: int)
    requires Sorted(s)
    ensures Purge(s, cutoff) == Fresh(s, cutoff)
  {
    if s != [] {
      if s[0].ts < cutoff {
        PurgeExact(s[1..], cutoff);
      } else {
        AllFresh(s, cutoff);
      }
    }
  }

  lemma {:induction false} AllFresh(s: seq<Entry>, cutoff: int)
    requires forall i | 0 <= i < |s| :: s[i].ts >= cutoff
    ensures Fresh(s, cutoff) == s
  {
    if s != [] { AllFresh(s[1..], cutoff); }
  }

  lemma ExplainedSnoc(cfg: Config, history: seq<Entry>, e: Entry, first: nat)
    requires first <= |history| && Explained(cfg, history, first) && Sorted(history + [e])
    ensures Explained(cfg, history + [e], first)
  {
    var all := history + [e];
    forall i: nat | i < first ensures e.ts - all[i].ts > cfg.ttlMs || Crowded(cfg, all, i) {
      assert all[i] == history[i] && all[|history| - 1] == history[|history| - 1] && all[|history|] == e;
      if Crowded(cfg, history, i) {
        assert all[i..i + cfg.maxSeen + 1] == history[i..i + cfg.maxSeen + 1];
      }
    }
  }

  // Making room: the oldest entry goes when the cache would hold more than maxSeen.
  lemma MakeRoom(cfg: Config, history: seq<Entry>, first: nat) returns (k: nat)
    requires first < |history| && |history| - first <= cfg.maxSeen + 1
    requires Distinct(history[first..]) && Explained(cfg, history, first)
    ensures first <= k <= |history| && Explained(cfg, history, k)
    ensures history[k..] == (if |history| - first > cfg.maxSeen then history[first..][1..] else history[first..])
  {
    k := first;
    if |history| - first > cfg.maxSeen {
      k := first + 1;
      assert history[first..first + cfg.maxSeen + 1] == history[first..];
    }
  }

  // The purge takes the entries that have expired since.
  lemma PurgeKeeps(cfg: Config, h: seq<Entry>, k: nat) returns (first: nat)
    requires k <= |h| && h != [] && Explained(cfg, h, k)
    ensures k <= first <= |h| && Explained(cfg, h, first)
    ensures Purge(h[k..], h[|h| - 1].ts - cfg.ttlMs) == h[first..]
  {
    var n := PurgeDrops(h[k..], h[|h| - 1].ts - cfg.ttlMs);
    assert h[k..][n..] == h[k + n..];
    forall i: nat | k <= i < k + n ensures h[|h| - 1].ts - h[i].ts > cfg.ttlMs {
      assert h[i] == h[k..][i - k];
    }
    first := k + n;
  }

  lemma AcceptKeeps(cfg: Config, t: Trace, e: Entry, first: nat)
    requires Sorted(t.history + [e]) && Distinct(t.cache + [e]) && |t.cache| <= cfg.maxSeen && KeptFrom(cfg, t, first)
    ensures Inv(cfg, Trace(Insert(cfg, t.cache, e), t.history + [e]))
  {
    var h := t.history + [e];
    ExplainedSnoc(cfg, t.history, e, first);
    assert h[first..] == t.cache + [e];
    var k := MakeRoom(cfg, h, first);
    var first' := PurgeKeeps(cfg, h, k);
    var cache' := Insert(cfg, t.cache, e);
    assert cache' == h[first'..];
    assert KeptFrom(cfg, Trace(cache', h), first');
  }

  lemma {:induction false} RunKeeps(cfg: Config, calls: seq<Call>)
    requires Ordered(calls)
    ensures Inv(cfg, Run(cfg, calls))
    ensures forall i | 0 <= i < |Run(cfg, calls).history| :: calls != [] && Run(cfg, calls).history[i].ts <= calls[|calls| - 1].now
  {
    if calls == [] {
      assert KeptFrom(cfg, Trace([], []), 0);
    } else {
      var n := |calls| - 1;
      RunKeeps(cfg, calls[..n]);
      var t, c := Run(cfg, calls[..n]), calls[n];
      var first: nat :| KeptFrom(cfg, t, first);
      if c.id != "" && !Has(t.cache, c.id) {
        AcceptKeeps(cfg, t, Entry(c.id, c.now), first);
      }
    }
  }

  predicate Apart(cfg: Config, h: seq<Entry>, i: nat, j: nat)
    requires i < j < |h|
  {
    h[j].ts - h[i].ts > cfg.ttlMs || (i + cfg.maxSeen < j && Distinct(h[i..i + cfg.maxSeen + 1]))
  }

  lemma NewApart(cfg: Config, t: Trace, first: nat, e: Entry, i: nat)
    requires KeptFrom(cfg, t, first) && !Has(t.cache, e.id) && Sorted(t.history + [e])
    requires i < |t.history| && t.history[i].id == e.id
    ensures Apart(cfg, t.history + [e], i, |t.history|)
  {
    var h := t.history + [e];
    assert forall k | first <= k < |t.history| :: t.history[k] == t.cache[k - first] && t.history[k].id != e.id;
    assert h[|t.history| - 1] == t.history[|t.history| - 1] && h[i] == t.history[i];
    if Crowded(cfg, t.history, i) {
      assert h[i..i + cfg.maxSeen + 1] == t.history[i..i + cfg.maxSeen + 1];
    }
  }

  lemma ApartKept(cfg: Config, h: seq<Entry>, e: Entry, i: nat, j: nat)
    requires i < j < |h| && Apart(cfg, h, i, j)
    ensures Apart(cfg, h + [e], i, j)
  {
    if i + cfg.maxSeen < j {
      assert (h + [e])[i..i + cfg.maxSeen + 1] == h[i..i + cfg.maxSeen + 1];
    }
  }

  // An id is accepted as new a second time only when more than the time to live has passed since, or
  // when maxSeen other ids, all different, have been accepted in between.
  lemma {:induction false} AcceptedAgain(cfg: Config, calls: seq<Call>, i: nat, j: nat)
    requires Ordered(calls) && i < j < |Run(cfg, calls).history|
    requires Run(cfg, calls).history[i].id == Run(cfg, calls).history[j].id
    ensures Apart(cfg, Run(cfg, calls).history, i, j)
  {
    var n := |calls| - 1;
    var t, c := Run(cfg, calls[..n]), calls[n];
    RunKeeps(cfg, calls);
    if Run(cfg, calls).history == t.history {
      AcceptedAgain(cfg, calls[..n], i, j);
    } else if j < |t.history| {
      AcceptedAgain(cfg, calls[..n], i, j);
      ApartKept(cfg, t.history, Entry(c.id, c.now), i, j);
    } else {
      RunKeeps(cfg, calls[..n]);
      var first: nat :| KeptFrom(cfg, t, first);
      NewApart(cfg, t, first, Entry(c.id, c.now), i);
    }
  }

  // Over whole runs with a clock that does not go back the cache never holds more than maxSeen ids,
  // no id twice, in the order of their times.
  lemma RunBounded(cfg: Config, calls: seq<Call>)
    requires Ordered(calls)
    ensures var cache := Run(cfg, calls).cache; |cache| <= cfg.maxSeen && Distinct(cache) && Sorted(cache)
  {
    RunKeeps(cfg, calls);
    var first: nat :| KeptFrom(cfg, Run(cfg, calls), first);
  }

  // ---------------------------------------------------------------- what is remembered

  // Accepted among the last maxSeen ids, and not expired when the last of them came.
  predicate StillKnown(cfg: Config, history: seq<Entry>, i: nat) {
    i < |history| && |history| - i <= cfg.maxSeen && history[|history| - 1].ts - history[i].ts <= cfg.ttlMs
  }

  ghost predicate KeptExactly(cfg: Config, t: Trace, first: nat) {
    && first <= |t.history| && t.cache == t.history[first..]
    && forall i: nat | i < |t.history| :: i >= first <==> StillKnown(cfg, t.history, i)
  }

  lemma InsertExactly(cfg: Config, t: Trace, e: Entry, first: nat) returns (first': nat)
    requires KeptExactly(cfg, t, first) && Sorted(t.history + [e])
    ensures KeptExactly(cfg, Trace(Insert(cfg, t.cache, e), t.history + [e]), first')
  {
    var h, more := t.history + [e], t.cache + [e];
    var k := if |more| > cfg.maxSeen then first + 1 else first;
    assert more == h[first..];
    assert h[k..] == if |more| > cfg.maxSeen then more[1..] else more;
    first' := PurgeBoundary(h, k, e.ts - cfg.ttlMs);
    if first < |t.history| { assert StillKnown(cfg, t.history, first); }
    forall i: nat | i < |h| ensures i >= first' <==> StillKnown(cfg, h, i) {
      if i < first {
        ForgottenStays(cfg, t.history, e, i);
      } else {
        NewBoundary(cfg, h, k, first', i);
      }
    }
  }

  lemma PurgeBoundary(h: seq<Entry>, k: nat, cutoff: int) returns (first: nat)
    requires k <= |h| && Sorted(h)
    ensures k <= first <= |h| && Purge(h[k..], cutoff) == h[first..]
    ensures forall i | k <= i < |h| :: i >= first <==> h[i].ts >= cutoff
  {
    var n := PurgeDrops(h[k..], cutoff);
    first := k + n;
    assert h[k..][n..] == h[first..];
    assert forall i | k <= i < |h| :: h[k..][i - k] == h[i];
  }

  lemma ForgottenStays(cfg: Config, history: seq<Entry>, e: Entry, i: nat)
    requires i < |history| && !StillKnown(cfg, history, i) && Sorted(history + [e])
    ensures !StillKnown(cfg, history + [e], i)
  {
    var h := history + [e];
    assert h[i] == history[i] && h[|history| - 1] == history[|history| - 1] && h[|history|] == e;
  }

  lemma NewBoundary(cfg: Config, h: seq<Entry>, k: nat, first: nat, i: nat)
    requires i < |h| && k <= first && (i < k ==> |h| - i > cfg.maxSeen) && |h| - k <= cfg.maxSeen
    requires forall j | k <= j < |h| :: j >= first <==> h[j].ts >= h[|h| - 1].ts - cfg.ttlMs
    ensures i >= first <==> StillKnown(cfg, h, i)
  {
  }

  // Over every run with a clock that does not go back the cache holds exactly the ids accepted among the
  // last maxSeen and not older than the time to live when the last one was accepted.
  lemma {:induction false} RunExactly(cfg: Config, calls: seq<Call>) returns (first: nat)
    requires Ordered(calls)
    ensures KeptExactly(cfg, Run(cfg, calls), first)
  {
    first := 0;
    if calls != [] {
      var n := |calls| - 1;
      first := RunExactly(cfg, calls[..n]);
      var t, c := Run(cfg, calls[..n]), calls[n];
      RunKeeps(cfg, calls);
      if c.id != "" && !Has(t.cache, c.id) {
        var k: nat :| KeptFrom(cfg, Run(cfg, calls), k);
        first := InsertExactly(cfg, t, Entry(c.id, c.now), first);
      }
    }
  }

  // So a call is told that an id was seen exactly when one of those has it; every other id is new, and an
  // empty one always.
  lemma DuplicateExactly(cfg: Config, calls: seq<Call>, c: Call)
    requires Ordered(calls)
    ensures var t := Run(cfg, calls);
      Remember(cfg, t.cache, c).1 <==> c.id != "" && exists i: nat :: StillKnown(cfg, t.history, i) && t.history[i].id == c.id
  {
    var t := Run(cfg, calls);
    var first := RunExactly(cfg, calls);
    if Has(t.cache, c.id) {
      var k :| 0 <= k < |t.cache| && t.cache[k].id == c.id;
      assert StillKnown(cfg, t.history, first + k) && t.history[first + k].id == c.id;
    }
    if i: nat :| StillKnown(cfg, t.history, i) && t.history[i].id == c.id {
      assert t.cache[i - first].id == c.id;
    }
  }
}
