// The token bucket of one connection, with strikes and temporary blocks.

module RateLimiter {

  // Times in milliseconds, sizes in bytes; tokens are real numbers.
  datatype Config = Config(bytesPerSecond: nat, burst: nat, maxStrikes: int, strikeWindow: nat, blockMs: nat)

  datatype State = State(tokens: real, lastRefill: int, strikes: nat, strikeResetAt: int, blockedUntil: int)

  datatype Frame = Frame(now: int, bytes: nat)

  function Fresh(cfg: Config, now: int): State {
    State(cfg.burst as real, now, 0, now + cfg.strikeWindow, 0)
  }

  function Refill(cfg: Config, ms: int): real {
    ms as real / 1000.0 * cfg.bytesPerSecond as real
  }

  function Min(a: real, b: real): real {
    if a < b then a else b
  }

  function Refilled(cfg: Config, s: State, now: int): State {
    if now - s.lastRefill > 0 then
      s.(tokens := Min(cfg.burst as real, s.tokens + Refill(cfg, now - s.lastRefill)), lastRefill := now)
    else s
  }

  function Windowed(cfg: Config, s: State, now: int): State {
    if now > s.strikeResetAt then s.(strikes := 0, strikeResetAt := now + cfg.strikeWindow) else s
  }

  function Step(cfg: Config, s: State, f: Frame): (State, bool) {
    if f.now < s.blockedUntil then (s, false)
    else
      var r := Refilled(cfg, Windowed(cfg, s, f.now), f.now);
      if f.bytes as real > r.tokens then
        (r.(strikes := r.strikes + 1,
            blockedUntil := if r.strikes + 1 >= cfg.maxStrikes then f.now + cfg.blockMs else r.blockedUntil), false)
      else (r.(tokens := r.tokens - f.bytes as real), true)
  }

  class Limiter {
    const cfg: Config
    var tokens: real
    var lastRefill: int
    var strikes: nat
    var strikeResetAt: int
    var blockedUntil: int

    ghost function Snapshot(): State
      reads this
    {
      State(tokens, lastRefill, strikes, strikeResetAt, blockedUntil)
    }

    constructor (cfg: Config, now: int)
      ensures this.cfg == cfg && Snapshot() == Fresh(cfg, now)
    {
      this.cfg := cfg;
      tokens, lastRefill, strikes, strikeResetAt, blockedUntil := cfg.burst as real, now, 0, now + cfg.strikeWindow, 0;
    }

    method CheckRate(now: int, bytes: nat) returns (ok: bool)
      modifies this
      ensures (Snapshot(), ok) == Step(cfg, old(Snapshot()), Frame(now, bytes))
    {
      if now < blockedUntil { return false; }
      if now > strikeResetAt {
        strikes := 0;
        strikeResetAt := now + cfg.strikeWindow;
      }
      var elapsedMs := now - lastRefill;
      if elapsedMs > 0 {
        var refill := elapsedMs as real / 1000.0 * cfg.bytesPerSecond as real;
        tokens := Min(cfg.burst as real, tokens + refill);
        lastRefill := now;
      }
      if bytes as real > tokens {
        strikes := strikes + 1;
        if strikes >= cfg.maxStrikes {
          blockedUntil := now + cfg.blockMs;
        }
        return false;
      }
      tokens := tokens - bytes as real;
      ok := true;
    }
  }

  // ---------------------------------------------------------------- runs

  function Run(cfg: Config, s: State, frames: seq<Frame>): State {
    if frames == [] then s else Step(cfg, Run(cfg, s, frames[..|frames| - 1]), frames[|frames| - 1]).0
  }

  function Accepted(cfg: Config, s: State, frames: seq<Frame>): nat {
    if frames == [] then 0
    else
      var n := |frames| - 1;
      Accepted(cfg, s, frames[..n]) + (if Step(cfg, Run(cfg, s, frames[..n]), frames[n]).1 then frames[n].bytes else 0)
  }

  predicate Ordered(frames: seq<Frame>) {
    forall i, j | 0 <= i < j < |frames| :: frames[i].now <= frames[j].now
  }

  predicate Within(cfg: Config, s: State) {
    0.0 <= s.tokens <= cfg.burst as real
  }

  // The tokens there would be after a refill at the given time.
  function Potential(cfg: Config, s: State, now: int): real {
    Refilled(cfg, s, now).tokens
  }

  lemma RefillAdds(cfg: Config, a: int, b: int)
    ensures Refill(cfg, a + b) == Refill(cfg, a) + Refill(cfg, b)
  {
    var x, y, r := a as real / 1000.0, b as real / 1000.0, cfg.bytesPerSecond as real;
    assert (a + b) as real / 1000.0 == x + y;
    assert (x + y) * r == x * r + y * r;
  }

  lemma RefillPositive(cfg: Config, ms: nat)
    ensures Refill(cfg, ms) >= 0.0
  {
  }

  // Waiting adds at most the refill of the time waited.
  lemma PotentialGrows(cfg: Config, s: State, t: int, t': int)
    requires Within(cfg, s) && s.lastRefill <= t <= t'
    ensures Potential(cfg, s, t') <= Potential(cfg, s, t) + Refill(cfg, t' - t)
  {
    RefillAdds(cfg, t - s.lastRefill, t' - t);
    RefillPositive(cfg, t' - t);
    RefillPositive(cfg, t - s.lastRefill);
  }

  // A step spends exactly what it accepts.
  lemma StepSpends(cfg: Config, s: State, f: Frame)
    requires Within(cfg, s) && s.lastRefill <= f.now
    ensures var (s', ok) := Step(cfg, s, f);
      && Within(cfg, s') && s'.lastRefill <= f.now
      && Potential(cfg, s', f.now) == Potential(cfg, s, f.now) - (if ok then f.bytes as real else 0.0)
  {
  }

  // From any state within bounds: what the frames of a window get accepted is covered by the tokens
  // at its start and the refill over its length.
  lemma {:induction false} AcceptedFrom(cfg: Config, s: State, frames: seq<Frame>, t0: int)
    requires Within(cfg, s) && s.lastRefill <= t0 && Ordered(frames) && (frames != [] ==> t0 <= frames[0].now)
    ensures var t := if frames == [] then t0 else frames[|frames| - 1].now; var s' := Run(cfg, s, frames);
      && t0 <= t && Within(cfg, s') && s'.lastRefill <= t
      && Potential(cfg, s', t) + Accepted(cfg, s, frames) as real <= Potential(cfg, s, t0) + Refill(cfg, t - t0)
  {
    if frames != [] {
      var n := |frames| - 1;
      AcceptedFrom(cfg, s, frames[..n], t0);
      var t, t' := if n == 0 then t0 else frames[n - 1].now, frames[n].now;
      var mid := Run(cfg, s, frames[..n]);
      PotentialGrows(cfg, mid, t, t');
      StepSpends(cfg, mid, frames[n]);
      RefillAdds(cfg, t - t0, t' - t);
    } else {
      assert Refill(cfg, 0) == 0.0;
    }
  }

  lemma {:induction false} RunSplit(cfg: Config, s: State, a: seq<Frame>, b: seq<Frame>)
    ensures Run(cfg, s, a + b) == Run(cfg, Run(cfg, s, a), b)
    ensures Accepted(cfg, s, a + b) == Accepted(cfg, s, a) + Accepted(cfg, Run(cfg, s, a), b)
  {
    if b == [] {
      assert a + b == a;
    } else {
      var n := |b| - 1;
      assert (a + b)[..|a + b| - 1] == a + b[..n];
      RunSplit(cfg, s, a, b[..n]);
    }
  }

  // The tokens stay between zero and the burst.
  lemma RunWithin(cfg: Config, start: int, frames: seq<Frame>)
    requires Ordered(frames) && (frames != [] ==> start <= frames[0].now)
    ensures var s := Run(cfg, Fresh(cfg, start), frames);
      Within(cfg, s) && s.lastRefill <= (if frames == [] then start else frames[|frames| - 1].now)
  {
    AcceptedFrom(cfg, Fresh(cfg, start), frames, start);
  }

  lemma WindowFrom(cfg: Config, s: State, window: seq<Frame>, t0: int, t1: int)
    requires Within(cfg, s) && s.lastRefill <= t0 <= t1 && Ordered(window)
    requires forall i | 0 <= i < |window| :: t0 <= window[i].now <= t1
    ensures Accepted(cfg, s, window) as real <= cfg.burst as real + Refill(cfg, t1 - t0)
  {
    AcceptedFrom(cfg, s, window, t0);
    var t := if window == [] then t0 else window[|window| - 1].now;
    RefillAdds(cfg, t - t0, t1 - t);
    RefillPositive(cfg, t1 - t);
  }

  // Over every run with a clock that does not go back, the bytes accepted between t0 and t1 are at
  // most the burst plus the rate over that time.
  lemma WindowBound(cfg: Config, start: int, before: seq<Frame>, window: seq<Frame>, t0: int, t1: int)
    requires Ordered(before + window) && (before != [] ==> start <= before[0].now)
    requires start <= t0 <= t1 && (before != [] ==> before[|before| - 1].now <= t0)
    requires forall i | 0 <= i < |window| :: t0 <= window[i].now <= t1
    ensures var s := Fresh(cfg, start);
      Accepted(cfg, s, before + window) as real - Accepted(cfg, s, before) as real <= cfg.burst as real + Refill(cfg, t1 - t0)
  {
    OrderedParts(before, window);
    RunWithin(cfg, start, before);
    RunSplit(cfg, Fresh(cfg, start), before, window);
    WindowFrom(cfg, Run(cfg, Fresh(cfg, start), before), window, t0, t1);
  }

  lemma OrderedParts(a: seq<Frame>, b: seq<Frame>)
    requires Ordered(a + b)
    ensures Ordered(a) && Ordered(b)
  {
    var all := a + b;
    assert forall i | 0 <= i < |a| :: all[i] == a[i];
    assert forall i | 0 <= i < |b| :: all[|a| + i] == b[i];
  }

  // ---------------------------------------------------------------- blocks

  // While blocked nothing is accepted and nothing changes.
  lemma {:induction false} NothingWhileBlocked(cfg: Config, s: State, frames: seq<Frame>)
    requires forall f | f in frames :: f.now < s.blockedUntil
    ensures Run(cfg, s, frames) == s && Accepted(cfg, s, frames) == 0
  {
    if frames != [] {
      NothingWhileBlocked(cfg, s, frames[..|frames| - 1]);
    }
  }

  // The refusals for lack of tokens that the strike counter stands for.
  ghost function Strikes(cfg: Config, s: State, strikes: seq<int>, f: Frame): seq<int> {
    if f.now < s.blockedUntil then strikes
    else
      var kept := if f.now > s.strikeResetAt then [] else strikes;
      if Step(cfg, s, f).1 then kept else kept + [f.now]
  }

  ghost function StrikesOf(cfg: Config, s: State, frames: seq<Frame>): seq<int> {
    if frames == [] then []
    else
      var n := |frames| - 1;
      Strikes(cfg, Run(cfg, s, frames[..n]), StrikesOf(cfg, s, frames[..n]), frames[n])
  }

  ghost predicate StrikesKept(cfg: Config, s: State, strikes: seq<int>) {
    && |strikes| == s.strikes
    && forall t | t in strikes :: s.strikeResetAt - cfg.strikeWindow <= t <= s.strikeResetAt
  }

  lemma {:induction false} RunStrikes(cfg: Config, start: int, frames: seq<Frame>)
    requires Ordered(frames) && (frames != [] ==> start <= frames[0].now)
    ensures var s := Run(cfg, Fresh(cfg, start), frames);
      && StrikesKept(cfg, s, StrikesOf(cfg, Fresh(cfg, start), frames))
      && (frames != [] ==> s.strikeResetAt - cfg.strikeWindow <= frames[|frames| - 1].now)
  {
    if frames != [] {
      RunStrikes(cfg, start, frames[..|frames| - 1]);
    }
  }

  // Every block follows at least maxStrikes refusals for lack of tokens inside one strike window, the
  // last of them at the moment of the block, and lasts blockMs.
  lemma BlockNeedsStrikes(cfg: Config, start: int, frames: seq<Frame>, f: Frame)
    requires Ordered(frames + [f]) && start <= (frames + [f])[0].now
    requires var s := Run(cfg, Fresh(cfg, start), frames); Step(cfg, s, f).0.blockedUntil != s.blockedUntil
    ensures var s := Run(cfg, Fresh(cfg, start), frames);
      var strikes := Strikes(cfg, s, StrikesOf(cfg, Fresh(cfg, start), frames), f);
      && Step(cfg, s, f).0.blockedUntil == f.now + cfg.blockMs
      && |strikes| >= cfg.maxStrikes && strikes != [] && strikes[|strikes| - 1] == f.now
      && forall t, t' | t in strikes && t' in strikes :: t - t' <= cfg.strikeWindow
  {
    OrderedParts(frames, [f]);
    if frames != [] { assert (frames + [f])[0] == frames[0]; }
    RunStrikes(cfg, start, frames);
    var s := Run(cfg, Fresh(cfg, start), frames);
    var strikes := Strikes(cfg, s, StrikesOf(cfg, Fresh(cfg, start), frames), f);
    assert frames != [] ==> frames[|frames| - 1].now <= f.now by {
      if frames != [] { assert (frames + [f])[|frames| - 1] == frames[|frames| - 1] && (frames + [f])[|frames|] == f; }
    }
    assert forall t | t in strikes :: Windowed(cfg, s, f.now).strikeResetAt - cfg.strikeWindow <= t <= Windowed(cfg, s, f.now).strikeResetAt;
  }

  // Outside a block every refusal counts, and it blocks exactly when the refusals of the strike window,
  // this one included, reach maxStrikes; an accepted frame blocks nothing.
  lemma BlocksExactly(cfg: Config, start: int, frames: seq<Frame>, f: Frame)
    requires Ordered(frames + [f]) && start <= (frames + [f])[0].now
    requires Run(cfg, Fresh(cfg, start), frames).blockedUntil <= f.now
    ensures var s := Run(cfg, Fresh(cfg, start), frames); var (s', ok) := Step(cfg, s, f);
      var strikes := Strikes(cfg, s, StrikesOf(cfg, Fresh(cfg, start), frames), f);
      s'.blockedUntil == if !ok && |strikes| >= cfg.maxStrikes then f.now + cfg.blockMs else s.blockedUntil
  {
    OrderedParts(frames, [f]);
    if frames != [] { assert (frames + [f])[0] == frames[0]; }
    RunStrikes(cfg, start, frames);
  }

  // ---------------------------------------------------------------- who gets through

  // Outside a block a frame is accepted exactly when it is no larger than the burst and than the tokens
  // left after the last call and those since then at the configured rate; what it takes is gone.
  lemma AcceptedExactly(cfg: Config, s: State, f: Frame)
    requires Within(cfg, s) && s.lastRefill <= f.now && s.blockedUntil <= f.now
    ensures var (s', ok) := Step(cfg, s, f); var size, burst := f.bytes as real, cfg.burst as real;
      var filled := s.tokens + (f.now - s.lastRefill) as real * cfg.bytesPerSecond as real / 1000.0;
      && (ok <==> size <= burst && size <= filled)
      && s'.tokens + (if ok then size else 0.0) == (if filled <= burst then filled else burst)
      && s'.lastRefill == f.now
  {
    var ms, r := (f.now - s.lastRefill) as real, cfg.bytesPerSecond as real;
    assert ms / 1000.0 * r == ms * r / 1000.0;
  }

  // A new connection takes a whole burst at once.
  lemma FreshAccepts(cfg: Config, start: int, f: Frame)
    requires start <= f.now && 0 <= f.now && f.bytes <= cfg.burst
    ensures Step(cfg, Fresh(cfg, start), f).1
  {
    AcceptedExactly(cfg, Fresh(cfg, start), f);
    RefillPositive(cfg, f.now - start);
  }

  // After burst / rate seconds without frames, and outside a block, the bucket is full again in every
  // run: any frame of at most the burst is accepted.
  lemma RefillsFully(cfg: Config, start: int, frames: seq<Frame>, f: Frame)
    requires Ordered(frames) && (frames != [] ==> start <= frames[0].now)
    requires var s := Run(cfg, Fresh(cfg, start), frames); s.blockedUntil <= f.now
    requires var last := if frames == [] then start else frames[|frames| - 1].now;
      LongEnough(cfg, f.now - last)
    requires f.bytes <= cfg.burst
    ensures Step(cfg, Run(cfg, Fresh(cfg, start), frames), f).1
  {
    RunWithin(cfg, start, frames);
    var last := if frames == [] then start else frames[|frames| - 1].now;
    FullAccepts(cfg, Run(cfg, Fresh(cfg, start), frames), f, f.now - last);
  }

  predicate LongEnough(cfg: Config, idle: int) {
    idle >= 0 && idle * cfg.bytesPerSecond >= 1000 * cfg.burst
  }

  lemma FullAccepts(cfg: Config, s: State, f: Frame, idle: nat)
    requires Within(cfg, s) && s.blockedUntil <= f.now && s.lastRefill + idle <= f.now && LongEnough(cfg, idle) && f.bytes <= cfg.burst
    ensures Step(cfg, s, f).1
  {
    EnoughTime(idle, f.now - s.lastRefill, cfg.bytesPerSecond, cfg.burst);
    AcceptedExactly(cfg, s, f);
  }

  lemma EnoughTime(idle: nat, elapsed: nat, rate: nat, burst: nat)
    requires idle <= elapsed && idle * rate >= 1000 * burst
    ensures elapsed as real * rate as real / 1000.0 >= burst as real
  {
    assert elapsed * rate >= idle * rate;
    assert elapsed as real * rate as real == (elapsed * rate) as real;
  }
}
