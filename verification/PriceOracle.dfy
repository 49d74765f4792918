// The price oracle: one snapshot of several pairs, each gated by how many providers there are, answered
// and agree.

module PriceOracle {

  import opened Prelude
  import opened Consensus

  datatype Config = Config(providers: seq<string>, required: int, minOk: int, minAgree: int, maxDeviation: real)

  // What a provider's fetch came back with; fetching itself is input.
  datatype Fetched = Fetched(id: string, ok: bool, price: Option<real>)

  datatype Quotes = Quotes(pair: string, results: seq<Fetched>)

  datatype Error = NoError | Misconfigured | InsufficientSources | NoConsensus

  datatype Feed = Feed(ok: bool, error: Error, verdict: Verdict, okSources: nat)

  datatype Snapshot = Snapshot(ok: bool, feeds: map<string, Feed>)

  function OkPoints(results: seq<Fetched>): seq<Point> {
    if results == [] then []
    else if results[0].ok then [Point(results[0].id, results[0].price)] + OkPoints(results[1..])
    else OkPoints(results[1..])
  }

  function FeedOf(cfg: Config, results: seq<Fetched>): Feed {
    var points := OkPoints(results);
    var verdict := Evaluate(points, cfg.maxDeviation, cfg.minAgree);
    var error :=
      if |cfg.providers| < cfg.required then Misconfigured
      else if |points| < cfg.minOk then InsufficientSources
      else if !verdict.ok then NoConsensus
      else NoError;
    Feed(error.NoError?, error, verdict, |points|)
  }

  method CheckPair(cfg: Config, results: seq<Fetched>) returns (feed: Feed)
    ensures feed == FeedOf(cfg, results)
  {
    var okPoints := OkPoints(results);
    var consensus := EvaluateConsensus(okPoints, cfg.maxDeviation, cfg.minAgree);
    var feedOk, error := true, NoError;
    if |cfg.providers| < cfg.required {
      feedOk, error := false, Misconfigured;
    } else if |okPoints| < cfg.minOk {
      feedOk, error := false, InsufficientSources;
    } else if !consensus.ok {
      feedOk, error := false, NoConsensus;
    }
    feed := Feed(feedOk, error, consensus, |okPoints|);
  }

  function FeedsOf(cfg: Config, quotes: seq<Quotes>): (fs: seq<Feed>)
    ensures |fs| == |quotes| && forall i | 0 <= i < |quotes| :: fs[i] == FeedOf(cfg, quotes[i].results)
  {
    seq(|quotes|, i requires 0 <= i < |quotes| => FeedOf(cfg, quotes[i].results))
  }

  function Collect(quotes: seq<Quotes>, fs: seq<Feed>): Snapshot
    requires |fs| == |quotes|
  {
    if quotes == [] then Snapshot(true, map[])
    else
      var n := |quotes| - 1;
      var before := Collect(quotes[..n], fs[..n]);
      Snapshot(before.ok && fs[n].ok, before.feeds[quotes[n].pair := fs[n]])
  }

  lemma CollectStep(quotes: seq<Quotes>, fs: seq<Feed>, i: nat)
    requires i < |quotes| == |fs|
    ensures var before := Collect(quotes[..i], fs[..i]);
      Collect(quotes[..i + 1], fs[..i + 1]) == Snapshot(before.ok && fs[i].ok, before.feeds[quotes[i].pair := fs[i]])
  {
    assert quotes[..i + 1][..i] == quotes[..i] && fs[..i + 1][..i] == fs[..i];
  }

  method Tick(cfg: Config, quotes: seq<Quotes>) returns (s: Snapshot)
    ensures s == Collect(quotes, FeedsOf(cfg, quotes))
  {
    ghost var fs := FeedsOf(cfg, quotes);
    var feeds: map<string, Feed>, allOk := map[], true;
    var i := 0;
    while i < |quotes|
      invariant 0 <= i <= |quotes| && Snapshot(allOk, feeds) == Collect(quotes[..i], fs[..i])
    {
      var feed := CheckPair(cfg, quotes[i].results);
      CollectStep(quotes, fs, i);
      if !feed.ok { allOk := false; }
      feeds := feeds[quotes[i].pair := feed];
      i := i + 1;
    }
    assert quotes[..i] == quotes && fs[..i] == fs;
    s := Snapshot(allOk, feeds);
  }

  lemma {:induction false} CollectOk(quotes: seq<Quotes>, fs: seq<Feed>)
    requires |fs| == |quotes|
    ensures Collect(quotes, fs).ok <==> forall i | 0 <= i < |fs| :: fs[i].ok
  {
    if quotes != [] {
      CollectOk(quotes[..|quotes| - 1], fs[..|quotes| - 1]);
    }
  }

  lemma {:induction false} CollectLast(quotes: seq<Quotes>, fs: seq<Feed>, i: nat)
    requires i < |quotes| == |fs| && forall j | i < j < |quotes| :: quotes[j].pair != quotes[i].pair
    ensures var feeds := Collect(quotes, fs).feeds; quotes[i].pair in feeds && feeds[quotes[i].pair] == fs[i]
    decreases |quotes|
  {
    var n := |quotes| - 1;
    if i < n {
      CollectLast(quotes[..n], fs[..n], i);
      assert quotes[n].pair != quotes[i].pair;
    }
  }

  // A snapshot is good exactly when every pair passes, and reports each pair by its last entry.
  lemma SnapshotExact(cfg: Config, quotes: seq<Quotes>, i: nat)
    requires i < |quotes| && forall j | i < j < |quotes| :: quotes[j].pair != quotes[i].pair
    ensures var s := Collect(quotes, FeedsOf(cfg, quotes));
      && (s.ok <==> forall k | 0 <= k < |quotes| :: FeedOf(cfg, quotes[k].results).ok)
      && quotes[i].pair in s.feeds && s.feeds[quotes[i].pair] == FeedOf(cfg, quotes[i].results)
  {
    CollectOk(quotes, FeedsOf(cfg, quotes));
    CollectLast(quotes, FeedsOf(cfg, quotes), i);
  }

  // The three gates, and what passing them means for the price that is reported.
  lemma FeedGates(cfg: Config, results: seq<Fetched>)
    ensures var f := FeedOf(cfg, results); var good := GoodPoints(OkPoints(results));
      f.ok <==>
        |cfg.providers| >= cfg.required && |OkPoints(results)| >= cfg.minOk && good != [] &&
        |Side(good, Median(Prices(good)).value, cfg.maxDeviation, true)| >= cfg.minAgree
  {
  }

  // A good feed reports a median that at least minAgree valid sources lie close to, close to each
  // other as well; and one that a strict majority of honest sources cannot be moved out of.
  lemma GoodFeed(cfg: Config, results: seq<Fetched>, lo: real, hi: real)
    requires FeedOf(cfg, results).ok && 0.0 <= cfg.maxDeviation < 10000.0 && cfg.minAgree >= 1
    ensures var v := FeedOf(cfg, results).verdict; var good := GoodPoints(OkPoints(results));
      && v.median.Some? && v.median.value > 0.0 && |v.agreeing| >= cfg.minAgree
      && AllClose(v.agreeing, v.median.value, cfg.maxDeviation)
      && v.spread.Some? && v.spread.value <= 2.0 * cfg.maxDeviation / (10000.0 - cfg.maxDeviation) * 10000.0
      && (2 * Inside(Prices(good), lo, hi) > |good| ==> lo <= v.median.value <= hi)
  {
    var points := OkPoints(results);
    var good := GoodPoints(points);
    MedianPositive(Prices(good));
    SideClose(good, Median(Prices(good)).value, cfg.maxDeviation);
    SpreadBounded(points, cfg.maxDeviation, cfg.minAgree);
    if 2 * Inside(Prices(good), lo, hi) > |good| { HonestMajority(points, cfg.maxDeviation, cfg.minAgree, lo, hi); }
  }

  // The points a pair is judged by: what the providers that answered returned, as they returned it.
  lemma {:induction false} OkPointsExactly(results: seq<Fetched>, id: string, price: Option<real>)
    ensures multiset(OkPoints(results))[Point(id, price)] == multiset(results)[Fetched(id, true, price)]
  {
    if results != [] {
      OkPointsExactly(results[1..], id, price);
      assert results == [results[0]] + results[1..];
    }
  }

  // Which error a pair reports: the first gate that fails.
  lemma ErrorExactly(cfg: Config, results: seq<Fetched>)
    ensures var f := FeedOf(cfg, results); var points := OkPoints(results); var good := GoodPoints(points);
      var agreed := good != [] && CloseCount(good, Median(Prices(good)).value, cfg.maxDeviation) >= cfg.minAgree;
      && f.okSources == |points| && f.verdict == Evaluate(points, cfg.maxDeviation, cfg.minAgree)
      && (f.error == Misconfigured <==> |cfg.providers| < cfg.required)
      && (f.error == InsufficientSources <==> |cfg.providers| >= cfg.required && |points| < cfg.minOk)
      && (f.error == NoConsensus <==> |cfg.providers| >= cfg.required && |points| >= cfg.minOk && !agreed)
      && (f.ok <==> f.error == NoError)
  {
    ConsensusExactly(OkPoints(results), cfg.maxDeviation, cfg.minAgree);
  }
}
