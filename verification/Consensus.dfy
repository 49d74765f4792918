// The consensus of several price sources: the median of the valid points, and those close enough to
// it to agree.

module Consensus {

  import opened Prelude

  // A price that is not a finite number is missing.
  datatype Point = Point(id: string, price: Option<real>)

  datatype Priced = Priced(id: string, price: real)

  datatype Judged = Judged(id: string, price: real, deviation: real)

  datatype Verdict = Verdict(ok: bool, median: Option<real>, agreeing: seq<Judged>, outliers: seq<Judged>, spread: Option<real>)

  // ---------------------------------------------------------------- the median

  function Insert(x: real, s: seq<real>): seq<real> {
    if s == [] || x <= s[0] then [x] + s else [s[0]] + Insert(x, s[1..])
  }

  // Array.prototype.sort with a numeric comparison.
  function Sort(s: seq<real>): seq<real> {
    if s == [] then [] else Insert(s[0], Sort(s[1..]))
  }

  predicate Ascending(s: seq<real>) {
    forall i, j | 0 <= i < j < |s| :: s[i] <= s[j]
  }

  lemma {:induction false} InsertAbove(x: real, s: seq<real>, b: real)
    requires b <= x && forall i | 0 <= i < |s| :: b <= s[i]
    ensures forall i | 0 <= i < |Insert(x, s)| :: b <= Insert(x, s)[i]
  {
    if s != [] && x > s[0] { InsertAbove(x, s[1..], b); }
  }

  lemma {:induction false} InsertAscending(x: real, s: seq<real>)
    requires Ascending(s)
    ensures Ascending(Insert(x, s))
  {
    if s != [] && x > s[0] {
      InsertAscending(x, s[1..]);
      InsertAbove(x, s[1..], s[0]);
    }
  }

  lemma {:induction false} InsertElements(x: real, s: seq<real>)
    ensures multiset(Insert(x, s)) == multiset{x} + multiset(s)
  {
    if s != [] && x > s[0] {
      InsertElements(x, s[1..]);
      assert s == [s[0]] + s[1..];
    }
  }

  lemma {:induction false} SortSound(s: seq<real>)
    ensures Ascending(Sort(s)) && multiset(Sort(s)) == multiset(s)
  {
    if s != [] {
      SortSound(s[1..]);
      InsertAscending(s[0], Sort(s[1..]));
      InsertElements(s[0], Sort(s[1..]));
      assert s == [s[0]] + s[1..];
    }
  }

  lemma SameSize(s: seq<real>)
    ensures |Sort(s)| == |s|
  {
    SortSound(s);
    assert |multiset(Sort(s))| == |multiset(s)|;
  }

  function Median(values: seq<real>): Option<real> {
    if values == [] then None
    else
      SameSize(values);
      var sorted := Sort(values);
      var mid := |sorted| / 2;
      if |sorted| % 2 == 1 then Some(sorted[mid]) else Some((sorted[mid - 1] + sorted[mid]) / 2.0)
  }

  function Inside(s: seq<real>, lo: real, hi: real): nat {
    if s == [] then 0 else (if lo <= s[0] <= hi then 1 else 0) + Inside(s[1..], lo, hi)
  }

  lemma {:induction false} InsideInsert(x: real, s: seq<real>, lo: real, hi: real)
    ensures Inside(Insert(x, s), lo, hi) == Inside([x] + s, lo, hi)
  {
    if s != [] && x > s[0] {
      InsideInsert(x, s[1..], lo, hi);
      assert ([x] + s)[1..] == s && ([x] + s[1..])[1..] == s[1..];
    }
  }

  lemma {:induction false} InsideSort(s: seq<real>, lo: real, hi: real)
    ensures Inside(Sort(s), lo, hi) == Inside(s, lo, hi)
  {
    if s != [] {
      InsideSort(s[1..], lo, hi);
      InsideInsert(s[0], Sort(s[1..]), lo, hi);
      assert ([s[0]] + Sort(s[1..]))[1..] == Sort(s[1..]);
    }
  }

  lemma {:induction false} InsideSplit(a: seq<real>, b: seq<real>, lo: real, hi: real)
    ensures Inside(a + b, lo, hi) == Inside(a, lo, hi) + Inside(b, lo, hi) && Inside(b, lo, hi) <= |b|
  {
    if a == [] {
      assert a + b == b;
      InsideAtMost(b, lo, hi);
    } else {
      assert (a + b)[1..] == a[1..] + b;
      InsideSplit(a[1..], b, lo, hi);
    }
  }

  lemma {:induction false} InsideAtMost(s: seq<real>, lo: real, hi: real)
    ensures Inside(s, lo, hi) <= |s|
  {
    if s != [] { InsideAtMost(s[1..], lo, hi); }
  }

  lemma {:induction false} NoneInside(s: seq<real>, lo: real, hi: real)
    requires forall i | 0 <= i < |s| :: s[i] < lo || s[i] > hi
    ensures Inside(s, lo, hi) == 0
  {
    if s != [] { NoneInside(s[1..], lo, hi); }
  }

  lemma BelowCount(s: seq<real>, k: nat, lo: real, hi: real)
    requires Ascending(s) && k < |s| && s[k] < lo
    ensures Inside(s, lo, hi) <= |s| - k - 1
  {
    NoneInside(s[..k + 1], lo, hi);
    InsideSplit(s[..k + 1], s[k + 1..], lo, hi);
    assert s == s[..k + 1] + s[k + 1..];
  }

  lemma AboveCount(s: seq<real>, k: nat, lo: real, hi: real)
    requires Ascending(s) && k < |s| && s[k] > hi
    ensures Inside(s, lo, hi) <= k
  {
    NoneInside(s[k..], lo, hi);
    InsideAtMost(s[..k], lo, hi);
    InsideSplit(s[..k], s[k..], lo, hi);
    assert s == s[..k] + s[k..];
  }

  // Where more than |s| - k - 1 and more than k elements are inside, element k is too.
  lemma InsideAt(s: seq<real>, k: nat, lo: real, hi: real)
    requires Ascending(s) && k < |s| && Inside(s, lo, hi) > |s| - k - 1 && Inside(s, lo, hi) > k
    ensures lo <= s[k] <= hi
  {
    if s[k] < lo { BelowCount(s, k, lo, hi); }
    if s[k] > hi { AboveCount(s, k, lo, hi); }
  }

  // When strictly more than half of the values lie in an interval, so does the median, whatever the
  // others are.
  lemma MedianRobust(values: seq<real>, lo: real, hi: real)
    requires 2 * Inside(values, lo, hi) > |values|
    ensures Median(values).Some? && lo <= Median(values).value <= hi
  {
    InsideAtMost(values, lo, hi);
    SameSize(values);
    SortSound(values);
    InsideSort(values, lo, hi);
    var s := Sort(values);
    var mid := |s| / 2;
    InsideAt(s, mid, lo, hi);
    if |s| % 2 == 0 { InsideAt(s, mid - 1, lo, hi); }
  }

  // Half is not enough: of two points one may lie inside and the median outside.
  lemma HalfIsNotEnough(x: real)
    ensures 2 * Inside([x, x + 2.0], x, x) == |[x, x + 2.0]| && Median([x, x + 2.0]) == Some(x + 1.0)
  {
    var s := [x, x + 2.0];
    assert s[1..] == [x + 2.0];
    assert Sort([x + 2.0]) == [x + 2.0] && Inside([x + 2.0], x, x) == 0;
    assert Sort(s) == s;
  }

  // ---------------------------------------------------------------- consensus

  function Abs(x: real): real { if x < 0.0 then -x else x }

  function DeviationBps(price: real, reference: real): Option<real> {
    if reference <= 0.0 then None else Some(Abs(price - reference) / reference * 10000.0)
  }

  function GoodPoints(points: seq<Point>): (r: seq<Priced>)
    ensures forall i | 0 <= i < |r| :: r[i].id != "" && r[i].price > 0.0
  {
    if points == [] then []
    else
      var p, rest := points[0], GoodPoints(points[1..]);
      if p.id != "" && p.price.Some? && p.price.value > 0.0 then [Priced(p.id, p.price.value)] + rest else rest
  }

  function Prices(points: seq<Priced>): (r: seq<real>)
    ensures |r| == |points| && forall i | 0 <= i < |r| :: r[i] == points[i].price
  {
    seq(|points|, i requires 0 <= i < |points| => points[i].price)
  }

  // The points the loop sends to one side; one whose deviation cannot be computed goes nowhere.
  function Side(points: seq<Priced>, med: real, most: real, agreeing: bool): seq<Judged> {
    if points == [] then []
    else
      var p, rest := points[0], Side(points[1..], med, most, agreeing);
      match DeviationBps(p.price, med)
      case None => rest
      case Some(d) => if (d <= most) == agreeing then [Judged(p.id, p.price, d)] + rest else rest
  }

  function Lowest(s: seq<Judged>): (r: real)
    requires s != []
    ensures (exists i | 0 <= i < |s| :: s[i].price == r) && forall i | 0 <= i < |s| :: r <= s[i].price
  {
    if |s| == 1 then s[0].price
    else
      assert forall i | 0 < i < |s| :: s[i] == s[1..][i - 1];
      var m := Lowest(s[1..]);
      if s[0].price <= m then s[0].price else m
  }

  function Highest(s: seq<Judged>): (r: real)
    requires s != []
    ensures (exists i | 0 <= i < |s| :: s[i].price == r) && forall i | 0 <= i < |s| :: s[i].price <= r
  {
    if |s| == 1 then s[0].price
    else
      assert forall i | 0 < i < |s| :: s[i] == s[1..][i - 1];
      var m := Highest(s[1..]);
      if s[0].price >= m then s[0].price else m
  }

  function Spread(agreeing: seq<Judged>): Option<real> {
    if agreeing == [] then None else DeviationBps(Highest(agreeing), Lowest(agreeing))
  }

  function Evaluate(points: seq<Point>, maxDeviation: real, minAgree: int): Verdict {
    var good := GoodPoints(points);
    match Median(Prices(good))
    case None => Verdict(false, None, [], [], None)
    case Some(med) =>
      var agreeing := Side(good, med, maxDeviation, true);
      Verdict(|agreeing| >= minAgree, Some(med), agreeing, Side(good, med, maxDeviation, false), Spread(agreeing))
  }

  lemma SideStep(points: seq<Priced>, i: nat, med: real, most: real, agreeing: bool)
    requires i < |points|
    ensures var d := DeviationBps(points[i].price, med); var rest := Side(points[i + 1..], med, most, agreeing);
      Side(points[i..], med, most, agreeing) ==
        if d.Some? && (d.value <= most) == agreeing then [Judged(points[i].id, points[i].price, d.value)] + rest else rest
  {
    assert points[i..][1..] == points[i + 1..];
  }

  // The loop over the points: each goes to one side.
  method Split(points: seq<Priced>, med: real, most: real) returns (agreeing: seq<Judged>, outliers: seq<Judged>)
    ensures agreeing == Side(points, med, most, true) && outliers == Side(points, med, most, false)
  {
    agreeing, outliers := [], [];
    var i := 0;
    while i < |points|
      invariant 0 <= i <= |points|
      invariant agreeing + Side(points[i..], med, most, true) == Side(points, med, most, true)
      invariant outliers + Side(points[i..], med, most, false) == Side(points, med, most, false)
    {
      SideStep(points, i, med, most, true);
      SideStep(points, i, med, most, false);
      var p := points[i];
      i := i + 1;
      var d := DeviationBps(p.price, med);
      if d.None? { continue; }
      if d.value <= most {
        agreeing := agreeing + [Judged(p.id, p.price, d.value)];
      } else {
        outliers := outliers + [Judged(p.id, p.price, d.value)];
      }
    }
  }

  method EvaluateConsensus(points: seq<Point>, maxDeviation: real, minAgree: int) returns (v: Verdict)
    ensures v == Evaluate(points, maxDeviation, minAgree)
  {
    var good := GoodPoints(points);
    var med := Median(Prices(good));
    if med.None? { return Verdict(false, None, [], [], None); }
    var agreeing, outliers := Split(good, med.value, maxDeviation);
    v := Verdict(|agreeing| >= minAgree, med, agreeing, outliers, Spread(agreeing));
  }

  lemma MedianPositive(values: seq<real>)
    requires values != [] && forall i | 0 <= i < |values| :: values[i] > 0.0
    ensures Median(values).Some? && Median(values).value > 0.0
  {
    SameSize(values);
    SortSound(values);
    var s := Sort(values);
    forall i | 0 <= i < |s| ensures s[i] > 0.0 {
      assert s[i] in multiset(s);
      assert s[i] in values;
    }
  }

  function Unjudged(s: seq<Judged>): seq<Priced> {
    seq(|s|, i requires 0 <= i < |s| => Priced(s[i].id, s[i].price))
  }

  lemma UnjudgedCons(j: Judged, rest: seq<Judged>)
    ensures Unjudged([j] + rest) == [Priced(j.id, j.price)] + Unjudged(rest)
  {
  }

  // Agreeing points and outliers are together exactly the valid points.
  lemma {:induction false} Partition(points: seq<Priced>, med: real, most: real)
    requires med > 0.0
    ensures multiset(Unjudged(Side(points, med, most, true))) + multiset(Unjudged(Side(points, med, most, false))) == multiset(points)
  {
    if points != [] {
      Partition(points[1..], med, most);
      var p, d := points[0], DeviationBps(points[0].price, med).value;
      var rest := Side(points[1..], med, most, d <= most);
      UnjudgedCons(Judged(p.id, p.price, d), rest);
      assert points == [p] + points[1..];
    }
  }

  // ---------------------------------------------------------------- how far agreeing prices are apart

  // Within d basis points of the median, as a product.
  predicate Close(price: real, med: real, d: real) {
    price > 0.0 && 10000.0 * Abs(price - med) <= d * med
  }

  lemma ScaleUp(a: real, b: real, c: real)
    requires a <= b && c >= 0.0
    ensures a * c <= b * c
  {
  }

  lemma Cancel(a: real, b: real, c: real)
    requires c > 0.0 && a * c <= b * c
    ensures a <= b
  {
  }

  lemma Quotient(x: real, y: real)
    requires y > 0.0
    ensures x / y * y == x
  {
  }

  lemma DeviationClose(price: real, med: real, d: real)
    requires price > 0.0 && med > 0.0 && Abs(price - med) / med * 10000.0 <= d
    ensures Close(price, med, d)
  {
    var q := Abs(price - med) / med;
    Quotient(Abs(price - med), med);
    ScaleUp(q * 10000.0, d, med);
    assert q * 10000.0 * med == 10000.0 * (q * med);
  }

  ghost predicate AllClose(s: seq<Judged>, med: real, d: real) {
    forall i | 0 <= i < |s| :: Close(s[i].price, med, d)
  }

  lemma {:induction false} SideClose(points: seq<Priced>, med: real, most: real)
    requires med > 0.0 && forall i | 0 <= i < |points| :: points[i].price > 0.0
    ensures AllClose(Side(points, med, most, true), med, most)
  {
    if points != [] {
      SideClose(points[1..], med, most);
      var p := points[0];
      if DeviationBps(p.price, med).value <= most { DeviationClose(p.price, med, most); }
    }
  }

  lemma SpreadProduct(low: real, high: real, med: real, d: real)
    requires med > 0.0 && 0.0 <= d < 10000.0 && Close(low, med, d) && Close(high, med, d)
    ensures (high - low) * (10000.0 - d) <= (2.0 * d) * low
  {
    var u, e, k := 10000.0 - d, d * med, d / 5000.0;
    calc {
      (high - low) * u;
    <= { ScaleUp(high - low, e / 5000.0, u); }
      e / 5000.0 * u;
    == { Regroup(d, med, u); }
      (med * u) * k;
    <= { assert med * u == 10000.0 * med - e; ScaleUp(med * u, 10000.0 * low, k); }
      (10000.0 * low) * k;
    == { Regroup(d, 10000.0, low); }
      (2.0 * d) * low;
    }
  }

  lemma Regroup(d: real, a: real, b: real)
    ensures d * a / 5000.0 * b == (a * b) * (d / 5000.0)
    ensures (a * b) * (d / 5000.0) == (a / 5000.0 * d) * b
  {
  }

  lemma DivideThrough(a: real, b: real, low: real, u: real)
    requires low > 0.0 && u > 0.0 && a * u <= b * low
    ensures a / low <= b / u
  {
    var x, y, c := a / low, b / u, low * u;
    Quotient(a, low);
    Quotient(b, u);
    assert (x * low) * u == x * c && (y * u) * low == y * c;
    Cancel(x, y, c);
  }

  lemma SpreadQuotient(low: real, high: real, med: real, d: real)
    requires med > 0.0 && 0.0 <= d < 10000.0 && Close(low, med, d) && Close(high, med, d) && low <= high
    ensures DeviationBps(high, low).Some? && DeviationBps(high, low).value <= 2.0 * d / (10000.0 - d) * 10000.0
  {
    SpreadProduct(low, high, med, d);
    DivideThrough(high - low, 2.0 * d, low, 10000.0 - d);
    ScaleUp((high - low) / low, 2.0 * d / (10000.0 - d), 10000.0);
  }

  lemma SpreadOf(s: seq<Judged>, med: real, d: real)
    requires med > 0.0 && 0.0 <= d < 10000.0 && s != [] && AllClose(s, med, d)
    ensures Spread(s).Some? && Spread(s).value <= 2.0 * d / (10000.0 - d) * 10000.0
  {
    SpreadQuotient(Lowest(s), Highest(s), med, d);
  }

  // Agreeing prices are close to each other: for a bound of d basis points their spread is at most
  // 2d / (10000 - d), in basis points.
  lemma SpreadBounded(points: seq<Point>, d: real, minAgree: int)
    requires 0.0 <= d < 10000.0
    ensures var v := Evaluate(points, d, minAgree);
      v.agreeing != [] ==> v.spread.Some? && v.spread.value <= 2.0 * d / (10000.0 - d) * 10000.0
  {
    var good := GoodPoints(points);
    if good != [] {
      MedianPositive(Prices(good));
      var med := Median(Prices(good)).value;
      SideClose(good, med, d);
      if Side(good, med, d, true) != [] { SpreadOf(Side(good, med, d, true), med, d); }
    }
  }

  // A strict majority of honest valid points decides the reported median.
  lemma HonestMajority(points: seq<Point>, maxDeviation: real, minAgree: int, lo: real, hi: real)
    requires 2 * Inside(Prices(GoodPoints(points)), lo, hi) > |GoodPoints(points)|
    ensures var v := Evaluate(points, maxDeviation, minAgree); v.median.Some? && lo <= v.median.value <= hi
  {
    MedianRobust(Prices(GoodPoints(points)), lo, hi);
  }

  // ---------------------------------------------------------------- the verdict, exactly

  lemma {:induction false} SortUnique(s: seq<real>, t: seq<real>)
    requires Ascending(s) && Ascending(t) && multiset(s) == multiset(t)
    ensures s == t
  {
    if s == [] {
      assert |multiset(t)| == 0;
    } else {
      FirstBelow(s, t);
      FirstBelow(t, s);
      Rest(s);
      Rest(t);
      SortUnique(s[1..], t[1..]);
    }
  }

  lemma FirstBelow(s: seq<real>, t: seq<real>)
    requires s != [] && Ascending(s) && multiset(s) == multiset(t)
    ensures t != [] && s[0] <= t[0]
  {
    assert |multiset(t)| == |multiset(s)|;
    assert t[0] in multiset(s);
    var i :| 0 <= i < |s| && s[i] == t[0];
  }

  lemma Rest(s: seq<real>)
    requires s != []
    ensures multiset(s[1..]) == multiset(s) - multiset{s[0]}
    ensures s == [s[0]] + s[1..]
  {
    assert s == [s[0]] + s[1..];
  }

  // However the values are put in ascending order, the median is the middle one, or the mean of the two
  // in the middle.
  lemma MedianExactly(values: seq<real>, s: seq<real>)
    requires Ascending(s) && multiset(s) == multiset(values)
    ensures s == [] ==> Median(values) == None
    ensures s != [] ==> Median(values) == Some(if |s| % 2 == 1 then s[|s| / 2] else (s[|s| / 2 - 1] + s[|s| / 2]) / 2.0)
  {
    SortSound(values);
    SortUnique(s, Sort(values));
    assert |values| == |multiset(values)| == |multiset(s)| == |s|;
  }

  // The points that count are those with an id and a positive price.
  lemma {:induction false} GoodExactly(points: seq<Point>, id: string, x: real)
    ensures multiset(GoodPoints(points))[Priced(id, x)] ==
      if id != "" && x > 0.0 then multiset(points)[Point(id, Some(x))] else 0
  {
    if points != [] {
      GoodExactly(points[1..], id, x);
      assert points == [points[0]] + points[1..];
    }
  }

  // d is the distance of the price from the reference, in basis points of the reference.
  predicate IsBps(d: real, price: real, reference: real) {
    d * reference == 10000.0 * Abs(price - reference)
  }

  lemma DeviationExactly(price: real, med: real, d: real)
    requires price > 0.0 && med > 0.0
    ensures DeviationBps(price, med).Some? && IsBps(DeviationBps(price, med).value, price, med)
    ensures DeviationBps(price, med).value <= d <==> Close(price, med, d)
  {
    var q := Abs(price - med) / med;
    Quotient(Abs(price - med), med);
    assert q * 10000.0 * med == 10000.0 * (q * med);
    if q * 10000.0 <= d { ScaleUp(q * 10000.0, d, med); } else { Cancel(d, q * 10000.0, med); }
    if Close(price, med, d) { Cancel(q * 10000.0, d, med); }
  }

  // A point agrees exactly when its price is within the bound of the median.
  lemma {:induction false} SideExactly(points: seq<Priced>, med: real, most: real, p: Priced)
    requires med > 0.0 && forall i | 0 <= i < |points| :: points[i].price > 0.0
    ensures multiset(Unjudged(Side(points, med, most, true)))[p] == if Close(p.price, med, most) then multiset(points)[p] else 0
  {
    if points != [] {
      SideExactly(points[1..], med, most, p);
      var q := points[0];
      DeviationExactly(q.price, med, most);
      var d, rest := DeviationBps(q.price, med).value, Side(points[1..], med, most, true);
      UnjudgedCons(Judged(q.id, q.price, d), rest);
      assert points == [q] + points[1..];
      assert multiset(points) == multiset{q} + multiset(points[1..]);
    }
  }

  // Both sides list the points with their deviation.
  lemma {:induction false} SideDeviations(points: seq<Priced>, med: real, most: real, agreeing: bool)
    requires med > 0.0 && forall i | 0 <= i < |points| :: points[i].price > 0.0
    ensures forall j | j in Side(points, med, most, agreeing) :: IsBps(j.deviation, j.price, med)
  {
    if points != [] {
      SideDeviations(points[1..], med, most, agreeing);
      DeviationExactly(points[0].price, med, most);
    }
  }

  function CloseCount(points: seq<Priced>, med: real, most: real): nat {
    if points == [] then 0 else (if Close(points[0].price, med, most) then 1 else 0) + CloseCount(points[1..], med, most)
  }

  lemma {:induction false} SideCount(points: seq<Priced>, med: real, most: real)
    requires med > 0.0 && forall i | 0 <= i < |points| :: points[i].price > 0.0
    ensures |Side(points, med, most, true)| == CloseCount(points, med, most)
  {
    if points != [] {
      DeviationExactly(points[0].price, med, most);
      SideCount(points[1..], med, most);
    }
  }

  // There is consensus exactly when at least minAgree of the points that count are close to their median;
  // the spread of the agreeing ones is that of their lowest and highest price.
  lemma ConsensusExactly(points: seq<Point>, most: real, minAgree: int)
    ensures var v := Evaluate(points, most, minAgree); var good := GoodPoints(points);
      && v.median == Median(Prices(good)) && (v.median.Some? <==> good != [])
      && (v.ok <==> good != [] && CloseCount(good, v.median.value, most) >= minAgree)
      && (v.spread.Some? <==> v.agreeing != [])
      && (v.agreeing != [] ==> Spans(v.agreeing, v.spread.value))
  {
    var good := GoodPoints(points);
    if good != [] {
      MedianPositive(Prices(good));
      var med := Median(Prices(good)).value;
      SideCount(good, med, most);
      var agreeing := Side(good, med, most, true);
      SidePositive(good, med, most);
      if agreeing != [] { SpreadExactly(agreeing); }
    }
  }

  lemma {:induction false} SidePositive(points: seq<Priced>, med: real, most: real)
    requires med > 0.0 && forall i | 0 <= i < |points| :: points[i].price > 0.0
    ensures forall i | 0 <= i < |Side(points, med, most, true)| :: Side(points, med, most, true)[i].price > 0.0
  {
    if points != [] { SidePositive(points[1..], med, most); }
  }

  ghost predicate Spans(s: seq<Judged>, bps: real) {
    exists i, j :: Ends(s, i, j) && IsBps(bps, s[j].price, s[i].price)
  }

  ghost predicate Ends(s: seq<Judged>, i: int, j: int) {
    0 <= i < |s| && 0 <= j < |s| && forall k | 0 <= k < |s| :: s[i].price <= s[k].price <= s[j].price
  }

  lemma SpreadExactly(s: seq<Judged>)
    requires s != [] && forall i | 0 <= i < |s| :: s[i].price > 0.0
    ensures Spread(s).Some? && Spans(s, Spread(s).value)
  {
    var i :| 0 <= i < |s| && s[i].price == Lowest(s);
    var j :| 0 <= j < |s| && s[j].price == Highest(s);
    BpsOf(s[j].price, s[i].price, Spread(s).value);
    assert Ends(s, i, j);
  }

  lemma BpsOf(price: real, reference: real, d: real)
    requires price > 0.0 && reference > 0.0 && DeviationBps(price, reference) == Some(d)
    ensures IsBps(d, price, reference)
  {
    DeviationExactly(price, reference, d);
  }
}
