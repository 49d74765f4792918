// Periodic reposting of offers and RFQs: line indices that stay distinct, pruning of the lines that
// were traded, and an expiry that is fixed when the job starts and never extended, whatever the
// passes in between do.

module Autopost {

  import opened Prelude

  // An entry of offers[]: its line index, where Number() makes a non-negative integer of it; its trade
  // key, empty when it has none; and the rest of it.
  datatype Entry = NotObject | Offer(line: Option<nat>, key: string, rest: string)

  // ---------------------------------------------------------------- line indices

  // The least number from n on that is not taken.
  function NextFree(seen: set<nat>, n: nat): (r: nat)
    ensures r >= n && r !in seen && forall k: nat | n <= k < r :: k in seen
    decreases |set k | k in seen && k >= n|
  {
    if n !in seen then n
    else
      Fewer(seen, n);
      NextFree(seen, n + 1)
  }

  lemma Fewer(seen: set<nat>, n: nat)
    requires n in seen
    ensures |set k | k in seen && k >= n + 1| < |set k | k in seen && k >= n|
  {
    var a, b := (set k | k in seen && k >= n), (set k | k in seen && k >= n + 1);
    assert b == a - {n};
  }

  // The index entry o at position i gets.
  function LineFor(o: Entry, i: nat, seen: set<nat>): nat
    requires o.Offer?
  {
    var wanted := if o.line.Some? then o.line.value else i;
    if wanted in seen then NextFree(seen, i) else wanted
  }

  function NumberFrom(offers: seq<Entry>, i: nat, seen: set<nat>): seq<Entry>
    requires i <= |offers|
    decreases |offers| - i
  {
    if i == |offers| then []
    else if offers[i].NotObject? then [offers[i]] + NumberFrom(offers, i + 1, seen)
    else
      var n := LineFor(offers[i], i, seen);
      [offers[i].(line := Some(n))] + NumberFrom(offers, i + 1, seen + {n})
  }

  function Numbered(offers: seq<Entry>): seq<Entry> {
    NumberFrom(offers, 0, {})
  }

  method FindFree(seen: set<nat>, from: nat) returns (idx: nat)
    ensures idx == NextFree(seen, from)
  {
    idx := from;
    while idx in seen
      invariant idx >= from && NextFree(seen, from) == NextFree(seen, idx)
      decreases |set k | k in seen && k >= idx|
    {
      Fewer(seen, idx);
      idx := idx + 1;
    }
  }

  lemma {:induction false} SameLength(offers: seq<Entry>, i: nat, seen: set<nat>)
    requires i <= |offers|
    ensures |NumberFrom(offers, i, seen)| == |offers| - i
    decreases |offers| - i
  {
    if i < |offers| {
      SameLength(offers, i + 1, if offers[i].Offer? then seen + {LineFor(offers[i], i, seen)} else seen);
    }
  }

  lemma NumberStep(offers: seq<Entry>, i: nat, seen: set<nat>, all: seq<Entry>)
    requires i < |offers| == |all| && NumberFrom(offers, i, seen) == all[i..]
    ensures var o := offers[i];
      if o.NotObject? then all[i] == o && NumberFrom(offers, i + 1, seen) == all[i + 1..]
      else all[i] == o.(line := Some(LineFor(o, i, seen))) && NumberFrom(offers, i + 1, seen + {LineFor(o, i, seen)}) == all[i + 1..]
  {
    assert all[i..] == [all[i]] + all[i + 1..];
  }

  method NormalizeLines(offers: array<Entry>)
    modifies offers
    ensures offers[..] == Numbered(old(offers[..]))
  {
    ghost var was := offers[..];
    ghost var all := Numbered(was);
    SameLength(was, 0, {});
    var seen: set<nat> := {};
    var i := 0;
    while i < offers.Length
      invariant 0 <= i <= offers.Length == |all| && NumberFrom(was, i, seen) == all[i..]
      invariant forall k | 0 <= k < i :: offers[k] == all[k]
      invariant forall k | i <= k < offers.Length :: offers[k] == was[k]
    {
      NumberStep(was, i, seen, all);
      var o := offers[i];
      if o.Offer? {
        var idx := if o.line.Some? then o.line.value else i;
        if idx in seen { idx := FindFree(seen, i); }
        offers[i] := o.(line := Some(idx));
        seen := seen + {idx};
      }
      i := i + 1;
    }
  }

  // Every offer has an index and no two share one.
  predicate DistinctLines(offers: seq<Entry>) {
    && (forall i | 0 <= i < |offers| && offers[i].Offer? :: offers[i].line.Some?)
    && (forall i, j | 0 <= i < j < |offers| && offers[i].Offer? && offers[j].Offer? :: offers[i].line != offers[j].line)
  }

  lemma {:induction false} NumberedFrom(offers: seq<Entry>, i: nat, seen: set<nat>)
    requires i <= |offers|
    ensures var r := NumberFrom(offers, i, seen);
      DistinctLines(r) && forall k | 0 <= k < |r| && r[k].Offer? :: r[k].line.value !in seen
    decreases |offers| - i
  {
    if i < |offers| {
      if offers[i].NotObject? {
        NumberedFrom(offers, i + 1, seen);
      } else {
        NumberedFrom(offers, i + 1, seen + {LineFor(offers[i], i, seen)});
      }
    }
  }

  predicate SameButLine(a: Entry, b: Entry) {
    (a.Offer? <==> b.Offer?) && (a.Offer? ==> a.key == b.key && a.rest == b.rest)
  }

  lemma {:induction false} NumberedSame(offers: seq<Entry>, i: nat, seen: set<nat>, k: nat)
    requires i + k < |offers|
    ensures k < |NumberFrom(offers, i, seen)| && SameButLine(NumberFrom(offers, i, seen)[k], offers[i + k])
    decreases k
  {
    if k > 0 {
      NumberedSame(offers, i + 1, if offers[i].Offer? then seen + {LineFor(offers[i], i, seen)} else seen, k - 1);
    }
  }

  // After normalisation the line indices are pairwise distinct, and nothing else has changed.
  lemma NumberedDistinct(offers: seq<Entry>)
    ensures var r := Numbered(offers);
      |r| == |offers| && DistinctLines(r) && forall k | 0 <= k < |r| :: SameButLine(r[k], offers[k])
  {
    SameLength(offers, 0, {});
    NumberedFrom(offers, 0, {});
    forall k | 0 <= k < |offers| ensures SameButLine(Numbered(offers)[k], offers[k]) { NumberedSame(offers, 0, {}, k); }
  }

  lemma {:induction false} DistinctFrom(offers: seq<Entry>, i: nat, seen: set<nat>)
    requires i <= |offers| && DistinctLines(offers)
    requires forall k | i <= k < |offers| && offers[k].Offer? :: offers[k].line.value !in seen
    ensures NumberFrom(offers, i, seen) == offers[i..]
    decreases |offers| - i
  {
    if i < |offers| {
      DistinctFrom(offers, i + 1, if offers[i].Offer? then seen + {offers[i].line.value} else seen);
      assert offers[i..] == [offers[i]] + offers[i + 1..];
    }
  }

  // A list with distinct indices is left alone; so a second normalisation changes nothing.
  lemma DistinctUnchanged(offers: seq<Entry>)
    requires DistinctLines(offers)
    ensures Numbered(offers) == offers
  {
    DistinctFrom(offers, 0, {});
  }

  // The indices taken by the lines before.
  function Taken(offers: seq<Entry>): set<nat> {
    set k | 0 <= k < |offers| && offers[k].Offer? && offers[k].line.Some? :: offers[k].line.value
  }

  // The index a line asks for: its own, or else its place in the list.
  function Wanted(o: Entry, i: nat): nat
    requires o.Offer?
  {
    match o.line
    case Some(n) => n
    case None => i
  }

  // What line k gets, when these indices are taken.
  ghost predicate GivenIndex(o: Entry, was: Entry, k: nat, taken: set<nat>)
    requires was.Offer?
  {
    && o.Offer? && o.line.Some? && o.line.value !in taken
    && if Wanted(was, k) !in taken then o.line.value == Wanted(was, k)
       else o.line.value >= k && forall m: nat | k <= m < o.line.value :: m in taken
  }

  lemma {:induction false} NumberedAt(offers: seq<Entry>, i: nat, seen: set<nat>, k: nat)
    requires i <= k < |offers| && offers[k].Offer?
    ensures var r := NumberFrom(offers, i, seen);
      k - i < |r| && GivenIndex(r[k - i], offers[k], k, seen + Taken(r[..k - i]))
    decreases k - i
  {
    SameLength(offers, i, seen);
    var r := NumberFrom(offers, i, seen);
    if i == k {
      assert r[..0] == [];
    } else {
      var seen' := if offers[i].Offer? then seen + {LineFor(offers[i], i, seen)} else seen;
      NumberedAt(offers, i + 1, seen', k);
      var rest := NumberFrom(offers, i + 1, seen');
      assert r == [r[0]] + rest;
      assert r[..k - i] == [r[0]] + rest[..k - i - 1];
      TakenCons(r[0], rest[..k - i - 1]);
      assert r[k - i] == rest[k - i - 1];
      assert seen' + Taken(rest[..k - i - 1]) == seen + Taken(r[..k - i]);
    }
  }

  lemma TakenCons(o: Entry, rest: seq<Entry>)
    ensures Taken([o] + rest) == Taken(rest) + if o.Offer? && o.line.Some? then {o.line.value} else {}
  {
    var all := [o] + rest;
    assert forall k | 0 <= k < |rest| :: all[k + 1] == rest[k];
    forall n | n in Taken(rest) ensures n in Taken(all) {
      var k :| 0 <= k < |rest| && rest[k].Offer? && rest[k].line.Some? && rest[k].line.value == n;
      assert all[k + 1].line.value == n;
    }
    assert all[0] == o;
  }

  // Each line gets the index it asks for, unless a line before it has that; then the least one from its
  // place in the list on that none before it has.
  lemma NumberedExactly(offers: seq<Entry>, k: nat)
    requires k < |offers| && offers[k].Offer?
    ensures var r := Numbered(offers); k < |r| && GivenIndex(r[k], offers[k], k, Taken(r[..k]))
  {
    NumberedAt(offers, 0, {}, k);
    assert {} + Taken(Numbered(offers)[..k]) == Taken(Numbered(offers)[..k]);
  }

  // ---------------------------------------------------------------- pruning

  datatype Trade = Trade(state: string, maker: string, updatedAt: Option<int>, key: string)

  // A claimed trade of this maker since the job started.
  predicate Counts(t: Trade, signer: string, startMs: int) {
    && t.state == "claimed" && t.maker != "" && t.maker == signer
    && !(startMs != 0 && t.updatedAt.Some? && 0 < t.updatedAt.value < startMs) && t.key != ""
  }

  function At(m: map<string, nat>, k: string): nat {
    if k in m then m[k] else 0
  }

  function RemoveCounts(trades: seq<Trade>, signer: string, startMs: int): map<string, nat> {
    if trades == [] then map[]
    else
      var t, m := trades[|trades| - 1], RemoveCounts(trades[..|trades| - 1], signer, startMs);
      if Counts(t, signer, startMs) then m[t.key := At(m, t.key) + 1] else m
  }

  method CountClaims(trades: seq<Trade>, signer: string, startMs: int) returns (removeCounts: map<string, nat>)
    ensures removeCounts == RemoveCounts(trades, signer, startMs)
  {
    removeCounts := map[];
    var i := 0;
    while i < |trades|
      invariant 0 <= i <= |trades| && removeCounts == RemoveCounts(trades[..i], signer, startMs)
    {
      var t := trades[i];
      assert trades[..i + 1][..i] == trades[..i];
      if Counts(t, signer, startMs) {
        removeCounts := removeCounts[t.key := At(removeCounts, t.key) + 1];
      }
      i := i + 1;
    }
    assert trades[..i] == trades;
  }

  // Where this maker's claimed trades with a key are, not known to be older than the job.
  function Claims(trades: seq<Trade>, signer: string, startMs: int, key: string): set<nat> {
    set i: nat | i < |trades| && IsClaim(trades[i], signer, startMs, key)
  }

  predicate IsClaim(t: Trade, signer: string, startMs: int, key: string) {
    && t.key == key != "" && t.state == "claimed" && t.maker == signer != ""
    && (startMs == 0 || t.updatedAt == None || t.updatedAt.value <= 0 || startMs <= t.updatedAt.value)
  }

  lemma ClaimsNext(trades: seq<Trade>, signer: string, startMs: int, key: string)
    requires trades != []
    ensures var n := |trades| - 1; var before := Claims(trades[..n], signer, startMs, key);
      n !in before &&
      Claims(trades, signer, startMs, key) ==
        before + if IsClaim(trades[n], signer, startMs, key) then {n} else {}
  {
  }

  // The counter of a key is the number of its claimed trades.
  lemma {:induction false} CountsExact(trades: seq<Trade>, signer: string, startMs: int, key: string)
    ensures At(RemoveCounts(trades, signer, startMs), key) == |Claims(trades, signer, startMs, key)|
  {
    if trades == [] {
      assert Claims(trades, signer, startMs, key) == {};
    } else {
      CountsExact(trades[..|trades| - 1], signer, startMs, key);
      ClaimsNext(trades, signer, startMs, key);
    }
  }

  // The first lines of a key go, as many as are to be removed; an entry that is no object goes too.
  function Prune(offers: seq<Entry>, counts: map<string, nat>): seq<Entry> {
    if offers == [] then []
    else
      var o := offers[0];
      if o.NotObject? then Prune(offers[1..], counts)
      else if o.key != "" && At(counts, o.key) > 0 then Prune(offers[1..], counts[o.key := (At(counts, o.key) - 1) as nat])
      else [o] + Prune(offers[1..], counts)
  }

  method PruneOffers(offers: seq<Entry>, counts: map<string, nat>) returns (kept: seq<Entry>)
    ensures kept == Prune(offers, counts)
  {
    var removeCounts := counts;
    kept := [];
    ghost var all := Prune(offers, counts);
    var i := 0;
    while i < |offers|
      invariant 0 <= i <= |offers| && kept + Prune(offers[i..], removeCounts) == all
    {
      var o := offers[i];
      assert offers[i..][1..] == offers[i + 1..];
      i := i + 1;
      if o.NotObject? { continue; }
      if o.key == "" {
        kept := kept + [o];
        continue;
      }
      var n := At(removeCounts, o.key);
      if n > 0 {
        removeCounts := removeCounts[o.key := n - 1];
        continue;
      }
      kept := kept + [o];
    }
    assert kept + [] == kept;
  }

  function Lines(offers: seq<Entry>, key: string): nat {
    if offers == [] then 0 else (if offers[0].Offer? && offers[0].key == key then 1 else 0) + Lines(offers[1..], key)
  }

  function Min(a: nat, b: nat): nat { if a < b then a else b }

  // One pass drops exactly min(claimed, offered) lines of every trade key, and none without a key.
  lemma {:induction false} PruneExact(offers: seq<Entry>, counts: map<string, nat>, key: string)
    ensures Lines(Prune(offers, counts), key) == Lines(offers, key) - (if key == "" then 0 else Min(At(counts, key), Lines(offers, key)))
  {
    if offers != [] {
      var o := offers[0];
      var next := if o.Offer? && o.key != "" && At(counts, o.key) > 0 then counts[o.key := (At(counts, o.key) - 1) as nat] else counts;
      PruneExact(offers[1..], next, key);
      var rest := Prune(offers[1..], next);
      assert ([o] + rest)[1..] == rest;
    }
  }

  // The lines of one key.
  function OfKey(offers: seq<Entry>, key: string): seq<Entry> {
    if offers == [] then [] else (if offers[0].Offer? && offers[0].key == key then [offers[0]] else []) + OfKey(offers[1..], key)
  }

  // And they are the first ones of the key: the last lines are kept, unchanged.
  lemma {:induction false} PruneKeepsLast(offers: seq<Entry>, counts: map<string, nat>, key: string)
    ensures var all := OfKey(offers, key); var gone := if key == "" then 0 else Min(At(counts, key), |all|);
      OfKey(Prune(offers, counts), key) == all[gone..]
  {
    if offers != [] {
      var o := offers[0];
      var counted := o.Offer? && o.key != "" && At(counts, o.key) > 0;
      var next := if counted then counts[o.key := (At(counts, o.key) - 1) as nat] else counts;
      PruneKeepsLast(offers[1..], next, key);
      var rest := Prune(offers[1..], next);
      assert ([o] + rest)[1..] == rest;
      if o.Offer? && o.key == key { assert OfKey(offers, key)[1..] == OfKey(offers[1..], key); }
    }
  }

  // The kept lines, by their positions before.
  ghost predicate Subsequence(r: seq<Entry>, s: seq<Entry>, at: seq<nat>) {
    && |at| == |r| && (forall i | 0 <= i < |r| :: at[i] < |s| && r[i] == s[at[i]])
    && (forall i, j | 0 <= i < j < |at| :: at[i] < at[j])
  }

  function Shifted(at: seq<nat>): (r: seq<nat>)
    ensures |r| == |at| && forall i | 0 <= i < |at| :: r[i] == at[i] + 1
  {
    seq(|at|, i requires 0 <= i < |at| => at[i] + 1)
  }

  lemma SubsequenceLater(r: seq<Entry>, s: seq<Entry>, at: seq<nat>)
    requires s != [] && Subsequence(r, s[1..], at)
    ensures Subsequence(r, s, Shifted(at)) && Subsequence([s[0]] + r, s, [0] + Shifted(at))
  {
    assert forall i | 0 <= i < |s| - 1 :: s[1..][i] == s[i + 1];
  }

  // What is kept is kept as it was and in order.
  lemma PruneKeepsOrder(offers: seq<Entry>, counts: map<string, nat>) returns (at: seq<nat>)
    ensures Subsequence(Prune(offers, counts), offers, at)
  {
    at := [];
    if offers != [] {
      var o := offers[0];
      var counted := o.Offer? && o.key != "" && At(counts, o.key) > 0;
      var next := if counted then counts[o.key := (At(counts, o.key) - 1) as nat] else counts;
      var later := PruneKeepsOrder(offers[1..], next);
      SubsequenceLater(Prune(offers[1..], next), offers, later);
      at := if o.NotObject? || counted then Shifted(later) else [0] + Shifted(later);
    }
  }

  // So distinct line indices stay distinct, and with them every line keeps its index for good.
  lemma PruneKeepsLines(offers: seq<Entry>, counts: map<string, nat>)
    requires DistinctLines(offers)
    ensures DistinctLines(Prune(offers, counts)) && Numbered(Prune(offers, counts)) == Prune(offers, counts)
  {
    var at := PruneKeepsOrder(offers, counts);
    var r := Prune(offers, counts);
    forall i, j | 0 <= i < j < |r| && r[i].Offer? && r[j].Offer? ensures r[i].line != r[j].line {
      assert at[i] < at[j];
    }
    DistinctUnchanged(r);
  }

  function PruneTimes(offers: seq<Entry>, counts: map<string, nat>, passes: nat): seq<Entry> {
    if passes == 0 then offers else Prune(PruneTimes(offers, counts, passes - 1), counts)
  }

  // The claims are counted anew at every pass, so the same claims remove lines again: after r passes
  // min(r * claimed, offered) lines of the key are gone.
  lemma {:induction false} RepeatedPruning(offers: seq<Entry>, counts: map<string, nat>, passes: nat, key: string)
    requires key != ""
    ensures Lines(PruneTimes(offers, counts, passes), key) == Lines(offers, key) - Min(passes * At(counts, key), Lines(offers, key))
  {
    if passes > 0 {
      RepeatedPruning(offers, counts, passes - 1, key);
      PruneExact(PruneTimes(offers, counts, passes - 1), counts, key);
      assert passes * At(counts, key) == (passes - 1) * At(counts, key) + At(counts, key);
    }
  }

  // ---------------------------------------------------------------- the job

  datatype Tool = OfferPost | RfqPost

  datatype Call = Call(checkedAt: int, validUntil: int, withTtl: bool, offers: seq<Entry>)

  datatype Job = Job(tool: Tool, validUntil: int, startMs: int, argsHaveTtl: bool, offers: seq<Entry>, signer: string,
                     stopped: bool, calls: seq<Call>)

  const MIN_HORIZON := 10
  const MAX_HORIZON := 7 * 24 * 3600

  // The expiry is fixed when the job starts: the one asked for, or now plus the time to live.
  function Start(tool: Tool, now: int, interval: int, ttl: Option<int>, validUntil: Option<int>, startMs: int, argsHaveTtl: bool,
                 offers: seq<Entry>): Result<Job> {
    if !(1 <= interval <= 24 * 3600) then Err("interval_sec out of range")
    else if ttl.None? then Err("ttl_sec is required")
    else if !(10 <= ttl.value <= 7 * 24 * 3600) then Err("ttl_sec out of range")
    else if validUntil.Some? && validUntil.value < 1 then Err("valid_until_unix out of range")
    else
      var until := if validUntil.Some? then validUntil.value else now + ttl.value;
      if until <= now then Err("valid_until_unix must be in the future")
      else if until - now < MIN_HORIZON then Err("validity horizon too short")
      else if until - now > MAX_HORIZON then Err("validity horizon too long")
      else Ok(Job(tool, until, startMs, argsHaveTtl, offers, "", false, []))
  }

  // What a pass meets: the clock, the claimed trades (when they can be read), the state of an RFQ's own
  // trade, and how the tool answers.
  datatype Answer = Posted(signer: string) | Failed(noFunds: bool)
  datatype Pass = Pass(now: int, trades: Option<seq<Trade>>, rfqOver: bool, answer: Answer)

  function Pruned(j: Job, offers: seq<Entry>, p: Pass): seq<Entry> {
    if j.signer == "" || p.trades.None? || offers == [] then offers
    else
      var counts := RemoveCounts(p.trades.value, j.signer, j.startMs);
      if counts == map[] then offers else Prune(offers, counts)
  }

  function RunOnce(j: Job, p: Pass): Job {
    if p.now >= j.validUntil then j.(stopped := true)
    else
      var lines := if j.tool.OfferPost? then Numbered(j.offers) else j.offers;
      var offers := if j.tool.OfferPost? then Pruned(j, lines, p) else lines;
      if j.tool.OfferPost? && lines != [] && offers == [] then j.(offers := offers, stopped := true)
      else if j.tool.RfqPost? && p.rfqOver then j.(offers := offers, stopped := true)
      else
        var call := Call(p.now, j.validUntil, j.tool.RfqPost? && j.argsHaveTtl, offers);
        match p.answer
        case Posted(signer) =>
          j.(offers := offers, signer := if j.tool.OfferPost? && j.signer == "" then signer else j.signer, calls := j.calls + [call])
        case Failed(noFunds) => j.(offers := offers, stopped := j.stopped || noFunds, calls := j.calls + [call])
  }

  function RunAll(j: Job, passes: seq<Pass>): Job {
    if passes == [] then j else RunOnce(RunAll(j, passes[..|passes| - 1]), passes[|passes| - 1])
  }

  ghost predicate Dated(j: Job, until: int) {
    && j.validUntil == until
    && forall i | 0 <= i < |j.calls| :: j.calls[i].validUntil == until && j.calls[i].checkedAt < until &&
         (j.tool.OfferPost? ==> !j.calls[i].withTtl && DistinctLines(j.calls[i].offers))
  }

  lemma PrunedLines(j: Job, offers: seq<Entry>, p: Pass)
    requires DistinctLines(offers)
    ensures DistinctLines(Pruned(j, offers, p))
  {
    if j.signer != "" && p.trades.Some? && offers != [] {
      PruneKeepsLines(offers, RemoveCounts(p.trades.value, j.signer, j.startMs));
    }
  }

  lemma PassDated(j: Job, p: Pass, until: int)
    requires Dated(j, until)
    ensures Dated(RunOnce(j, p), until) && RunOnce(j, p).tool == j.tool
  {
    if j.tool.OfferPost? {
      NumberedDistinct(j.offers);
      PrunedLines(j, Numbered(j.offers), p);
    }
  }

  // Every call of a job carries the expiry fixed at its start, at most seven days ahead, and is made
  // only while the clock it checked is before it; an offer goes out without a time to live of its own
  // and with pairwise distinct line indices. This holds however often, late or queued the passes run.
  lemma {:induction false} ExpiryNeverExtended(tool: Tool, now: int, interval: int, ttl: Option<int>, validUntil: Option<int>, startMs: int,
                                               argsHaveTtl: bool, offers: seq<Entry>, passes: seq<Pass>)
    requires Start(tool, now, interval, ttl, validUntil, startMs, argsHaveTtl, offers).Ok?
    ensures var j := Start(tool, now, interval, ttl, validUntil, startMs, argsHaveTtl, offers).value;
      && now + MIN_HORIZON <= j.validUntil <= now + MAX_HORIZON
      && Dated(RunAll(j, passes), j.validUntil) && RunAll(j, passes).tool == tool
  {
    var j := Start(tool, now, interval, ttl, validUntil, startMs, argsHaveTtl, offers).value;
    if passes != [] {
      var n := |passes| - 1;
      ExpiryNeverExtended(tool, now, interval, ttl, validUntil, startMs, argsHaveTtl, offers, passes[..n]);
      PassDated(RunAll(j, passes[..n]), passes[n], j.validUntil);
    }
  }

  // A job starts exactly with an interval and a time to live in range and an expiry between ten seconds
  // and seven days from now; the expiry is the one asked for, or else now plus the time to live.
  lemma StartExactly(tool: Tool, now: int, interval: int, ttl: Option<int>, validUntil: Option<int>, startMs: int,
                     argsHaveTtl: bool, offers: seq<Entry>)
    ensures var r := Start(tool, now, interval, ttl, validUntil, startMs, argsHaveTtl, offers);
      var until := match validUntil { case Some(u) => u case None => (match ttl case Some(t) => now + t case None => now) };
      && (r.Ok? <==> 1 <= interval <= 86400 && ttl.Some? && 10 <= ttl.value <= 604800 &&
                     (validUntil.Some? ==> validUntil.value > 0) && now + 10 <= until <= now + 604800)
      && (r.Ok? ==> r.value == Job(tool, until, startMs, argsHaveTtl, offers, "", false, []))
  {
  }

  // How many lines of a key a pass takes out: as many as there are claims, once the maker is known and the
  // trades can be read.
  function Removed(j: Job, p: Pass, key: string): nat {
    if j.tool.RfqPost? || j.signer == "" || p.trades.None? then 0 else |Claims(p.trades.value, j.signer, j.startMs, key)|
  }

  // One pass over an offer job. After the expiry it only stops. Before, the lines get their indices and
  // lose what was claimed; where nothing is left of some lines the job stops without a call, and else
  // exactly these lines are posted. The first answer names the maker, and a lack of funds stops the job.
  lemma OfferPassExactly(j: Job, p: Pass, key: string)
    requires j.tool.OfferPost? && key != ""
    ensures var r := RunOnce(j, p);
      if p.now >= j.validUntil then r == j.(stopped := true)
      else
        && Lines(r.offers, key) == Lines(j.offers, key) - Min(Removed(j, p, key), Lines(j.offers, key))
        && DistinctLines(r.offers)
        && (if j.offers != [] && r.offers == [] then r.stopped && r.calls == j.calls && r.signer == j.signer
            else
              && r.calls == j.calls + [Call(p.now, j.validUntil, false, r.offers)]
              && r.stopped == (j.stopped || p.answer == Failed(true))
              && r.signer == if j.signer == "" && p.answer.Posted? then p.answer.signer else j.signer)
  {
    if p.now < j.validUntil {
      NumberedDistinct(j.offers);
      NumberedLines(j.offers, key);
      PrunedLines(j, Numbered(j.offers), p);
      PrunedExactly(j, Numbered(j.offers), p, key);
    }
  }

  // One pass over an RFQ job: it stops after the expiry or when its own trade is over, and else posts.
  lemma RfqPassExactly(j: Job, p: Pass)
    requires j.tool.RfqPost?
    ensures var r := RunOnce(j, p);
      && r.offers == j.offers && r.signer == j.signer && r.validUntil == j.validUntil
      && (if p.now >= j.validUntil || p.rfqOver then r.stopped && r.calls == j.calls
          else r.calls == j.calls + [Call(p.now, j.validUntil, j.argsHaveTtl, j.offers)] && r.stopped == (j.stopped || p.answer == Failed(true)))
  {
  }

  lemma PrunedExactly(j: Job, offers: seq<Entry>, p: Pass, key: string)
    requires j.tool.OfferPost? && key != ""
    ensures Lines(Pruned(j, offers, p), key) == Lines(offers, key) - Min(Removed(j, p, key), Lines(offers, key))
  {
    if j.signer != "" && p.trades.Some? {
      CountsExact(p.trades.value, j.signer, j.startMs, key);
      PruneExact(offers, RemoveCounts(p.trades.value, j.signer, j.startMs), key);
    }
  }

  // Numbering does not change how many lines a key has.
  lemma NumberedLines(offers: seq<Entry>, key: string)
    ensures Lines(Numbered(offers), key) == Lines(offers, key)
  {
    NumberedDistinct(offers);
    SameLines(Numbered(offers), offers, key);
  }

  lemma {:induction false} SameLines(a: seq<Entry>, b: seq<Entry>, key: string)
    requires |a| == |b| && forall k | 0 <= k < |a| :: SameButLine(a[k], b[k])
    ensures Lines(a, key) == Lines(b, key)
  {
    if a != [] { SameLines(a[1..], b[1..], key); }
  }

  // The job object of the scheduler.
  class Poster {
    const tool: Tool
    const validUntil: int
    const startMs: int
    const argsHaveTtl: bool
    var offers: array<Entry>
    var signer: string
    var stopped: bool
    var calls: seq<Call>

    ghost function Snapshot(): Job
      reads this, offers
    {
      Job(tool, validUntil, startMs, argsHaveTtl, offers[..], signer, stopped, calls)
    }

    constructor (j: Job)
      ensures Snapshot() == j && fresh(offers)
    {
      tool, validUntil, startMs, argsHaveTtl := j.tool, j.validUntil, j.startMs, j.argsHaveTtl;
      offers := new Entry[|j.offers|](i requires 0 <= i < |j.offers| => j.offers[i]);
      signer, stopped, calls := j.signer, j.stopped, j.calls;
    }

    method PruneFilled(trades: seq<Trade>)
      modifies this
      ensures offers[..] == (var counts := RemoveCounts(trades, signer, startMs);
                             if counts == map[] then old(offers[..]) else Prune(old(offers[..]), counts))
      ensures fresh(offers) || offers == old(offers)
      ensures signer == old(signer) && stopped == old(stopped) && calls == old(calls)
    {
      var removeCounts := CountClaims(trades, signer, startMs);
      if removeCounts != map[] {
        var kept := PruneOffers(offers[..], removeCounts);
        offers := new Entry[|kept|](i requires 0 <= i < |kept| => kept[i]);
      }
    }

    method Run(p: Pass)
      modifies this, offers
      ensures Snapshot() == RunOnce(old(Snapshot()), p)
      ensures fresh(offers) || offers == old(offers)
    {
      if p.now >= validUntil {
        stopped := true;
        return;
      }
      if tool.OfferPost? {
        NormalizeLines(offers);
        if signer != "" && p.trades.Some? && offers.Length > 0 {
          PruneFilled(p.trades.value);
          if offers.Length == 0 {
            stopped := true;
            return;
          }
        }
      }
      if tool.RfqPost? && p.rfqOver {
        stopped := true;
        return;
      }
      calls := calls + [Call(p.now, validUntil, tool.RfqPost? && argsHaveTtl, offers[..])];
      match p.answer
      case Posted(poster) => if tool.OfferPost? && signer == "" { signer := poster; }
      case Failed(noFunds) => if noFunds { stopped := true; }
    }
  }
}
