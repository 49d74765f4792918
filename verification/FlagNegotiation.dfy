// Retrying a command-line client until it accepts the flags it is given, by what its complaints say
// about them.

module FlagNegotiation {

  datatype Flag = FeeLimitSat | FeeLimit | OutgoingId | OutgoingIds | AllowSelf | LastHop | NumRoutes | Dest | Amt

  // A failure that complains of an unknown flag mentions some flags by name. A run that is not such a
  // failure has been accepted, whether or not it then succeeds.
  datatype Outcome = Done | Failed | UnknownFlag(mentions: set<Flag>)

  datatype Attempt = Attempt(args: seq<Flag>, outcome: Outcome)

  // The client, which may answer differently at every attempt.
  type Cli = (nat, seq<Flag>) -> Outcome

  // The optional flags the caller asks for.
  datatype Wants = Wants(feeLimit: bool, outgoing: bool, allowSelf: bool, lastHop: bool, numRoutes: bool)

  // A flag with two spellings: the newer one, the older one, or not given.
  datatype Spelling = Newer | Older | Dropped

  function If(b: bool, f: Flag): seq<Flag> {
    if b then [f] else []
  }

  function Bit(b: bool): nat { if b then 1 else 0 }

  function Left(s: Spelling): nat { if s.Newer? then 2 else if s.Older? then 1 else 0 }

  function FeeFlag(s: Spelling): Flag { if s.Newer? then FeeLimitSat else FeeLimit }

  function OutgoingFlag(s: Spelling): Flag { if s.Newer? then OutgoingId else OutgoingIds }

  // ---------------------------------------------------------------- what any retry loop does

  // All attempts but the last complained of a flag, and the last did not.
  ghost predicate Settles(runs: seq<Attempt>) {
    && runs != [] && !runs[|runs| - 1].outcome.UnknownFlag?
    && forall k | 0 <= k < |runs| - 1 :: runs[k].outcome.UnknownFlag?
  }

  // The client takes a command without optional flags.
  ghost predicate AcceptsBare(cli: Cli) {
    forall i :: !cli(i, []).UnknownFlag?
  }

  // A flag whose name contains another's mentions that one too.
  function Mentioned(f: Flag): set<Flag> {
    if f == FeeLimitSat then {FeeLimitSat, FeeLimit} else if f == OutgoingIds then {OutgoingIds, OutgoingId} else {f}
  }

  // A complaint names these flags, all of them given and unknown, and mentions no others.
  ghost predicate Names(mentions: set<Flag>, named: set<Flag>, args: seq<Flag>, supported: set<Flag>) {
    && named != {}
    && (forall f | f in named :: f in args && f !in supported)
    && (forall m :: m in mentions <==> exists f :: f in named && m in Mentioned(f))
  }

  // The client complains exactly when it is given a flag it does not support.
  ghost predicate Supports(cli: Cli, supported: set<Flag>) {
    forall i, args :: cli(i, args).UnknownFlag? <==> exists f :: f in args && f !in supported
  }

  // And its complaints name some of the flags it does not know, and no others.
  ghost predicate Precise(cli: Cli, supported: set<Flag>) {
    forall i, args :: cli(i, args).UnknownFlag? ==> NamesUnknown(cli(i, args).mentions, args, supported)
  }

  // A mentioned flag is named itself or contained in one that is.
  predicate Behind(m: Flag, named: set<Flag>) {
    m in named || (m.FeeLimit? && FeeLimitSat in named) || (m.OutgoingId? && OutgoingIds in named)
  }

  ghost predicate NamesUnknown(mentions: set<Flag>, args: seq<Flag>, supported: set<Flag>) {
    exists named :: Names(mentions, named, args, supported)
  }

  lemma NamedFacts(mentions: set<Flag>, named: set<Flag>, args: seq<Flag>, supported: set<Flag>) returns (g: Flag)
    requires Names(mentions, named, args, supported)
    ensures forall m | m in mentions :: Behind(m, named)
    ensures forall f | f in named :: f in args && f !in supported
    ensures g in named && g in mentions
  {
    g :| g in named;
    assert g in Mentioned(g);
  }

  // The attempts a retry loop makes from configuration c on: args builds the command, next gives
  // something up after a complaint.
  function Attempts<C>(cli: Cli, args: C -> seq<Flag>, next: (C, set<Flag>) -> C, c: C, i: nat, limit: nat): seq<Attempt>
    decreases limit - i
  {
    if i >= limit then []
    else
      var out := cli(i, args(c));
      if out.UnknownFlag? then [Attempt(args(c), out)] + Attempts(cli, args, next, next(c, out.mentions), i + 1, limit)
      else [Attempt(args(c), out)]
  }

  // One turn of the loop.
  lemma Turn<C>(cli: Cli, args: C -> seq<Flag>, next: (C, set<Flag>) -> C, c: C, i: nat, limit: nat, runs: seq<Attempt>, all: seq<Attempt>)
    requires i < limit && runs + Attempts(cli, args, next, c, i, limit) == all
    ensures var out := cli(i, args(c));
      if out.UnknownFlag? then
        (runs + [Attempt(args(c), out)]) + Attempts(cli, args, next, next(c, out.mentions), i + 1, limit) == all
      else runs + [Attempt(args(c), out)] == all
  {
    var out := cli(i, args(c));
    if out.UnknownFlag? { MoveOver(runs, Attempt(args(c), out), Attempts(cli, args, next, next(c, out.mentions), i + 1, limit)); }
  }

  lemma MoveOver(runs: seq<Attempt>, a: Attempt, rest: seq<Attempt>)
    ensures (runs + [a]) + rest == runs + ([a] + rest)
  {
  }

  // A complaint always makes the configuration smaller, and the smallest one asks for nothing.
  ghost predicate Descends<C(!new)>(args: C -> seq<Flag>, next: (C, set<Flag>) -> C, rank: C -> nat) {
    && (forall c :: rank(c) == 0 ==> args(c) == [])
    && (forall c, m :: rank(c) > 0 ==> rank(next(c, m)) < rank(c))
  }

  lemma {:induction false} SettlesFrom<C(!new)>(cli: Cli, args: C -> seq<Flag>, next: (C, set<Flag>) -> C, rank: C -> nat, c: C, i: nat, limit: nat)
    requires AcceptsBare(cli) && Descends(args, next, rank) && i + rank(c) < limit
    ensures var runs := Attempts(cli, args, next, c, i, limit); Settles(runs) && |runs| <= rank(c) + 1
    decreases rank(c)
  {
    var out := cli(i, args(c));
    if out.UnknownFlag? {
      var c' := next(c, out.mentions);
      SettlesFrom(cli, args, next, rank, c', i + 1, limit);
    }
  }

  // keep: nothing useful has been given up. A complaint keeps that exactly when it blames rightly, what
  // is given up never comes back, and the best command needs it.
  ghost predicate Keeps<C(!new)>(args: C -> seq<Flag>, next: (C, set<Flag>) -> C, keep: C -> bool, blames: (C, set<Flag>) -> bool,
                                 supported: set<Flag>, best: seq<Flag>)
  {
    && (forall c, m :: keep(next(c, m)) <==> keep(c) && blames(c, m))
    && (forall c :: keep(c) && (forall f | f in args(c) :: f in supported) ==> args(c) == best)
    && (forall c :: args(c) == best ==> keep(c))
  }

  // Every complaint on the way blames rightly.
  ghost predicate BlamesRightly<C>(cli: Cli, args: C -> seq<Flag>, next: (C, set<Flag>) -> C, blames: (C, set<Flag>) -> bool,
                                   c: C, i: nat, limit: nat)
    decreases limit - i
  {
    var out := cli(i, args(c));
    i < limit && out.UnknownFlag? ==>
      blames(c, out.mentions) && BlamesRightly(cli, args, next, blames, next(c, out.mentions), i + 1, limit)
  }

  ghost predicate SettlesOn(runs: seq<Attempt>, args: seq<Flag>) {
    Settles(runs) && runs[|runs| - 1].args == args
  }

  lemma {:induction false} BestFrom<C(!new)>(cli: Cli, args: C -> seq<Flag>, next: (C, set<Flag>) -> C, rank: C -> nat, keep: C -> bool,
                                       blames: (C, set<Flag>) -> bool, supported: set<Flag>, best: seq<Flag>, c: C, i: nat, limit: nat)
    requires Supports(cli, supported) && Descends(args, next, rank) && Keeps(args, next, keep, blames, supported, best)
    requires i + rank(c) < limit
    ensures SettlesOn(Attempts(cli, args, next, c, i, limit), best) <==>
            keep(c) && BlamesRightly(cli, args, next, blames, c, i, limit)
    decreases rank(c)
  {
    var out := cli(i, args(c));
    if out.UnknownFlag? {
      var c' := next(c, out.mentions);
      BestFrom(cli, args, next, rank, keep, blames, supported, best, c', i + 1, limit);
      LastLater(Attempt(args(c), out), Attempts(cli, args, next, c', i + 1, limit));
    } else {
      assert forall f | f in args(c) :: f in supported;
    }
  }

  lemma LastLater(a: Attempt, rest: seq<Attempt>)
    requires a.outcome.UnknownFlag? && rest != []
    ensures Settles([a] + rest) <==> Settles(rest)
    ensures ([a] + rest)[|[a] + rest| - 1] == rest[|rest| - 1]
  {
    var all := [a] + rest;
    assert forall k | 0 <= k < |rest| :: all[k + 1] == rest[k];
    if Settles(all) {
      forall k | 0 <= k < |rest| - 1 ensures rest[k].outcome.UnknownFlag? { assert all[k + 1] == rest[k]; }
    }
  }

  lemma {:induction false} PreciseBlames<C(!new)>(cli: Cli, args: C -> seq<Flag>, next: (C, set<Flag>) -> C,
                                            blames: (C, set<Flag>) -> bool, supported: set<Flag>, c: C, i: nat, limit: nat)
    requires Precise(cli, supported)
    requires forall c, m :: NamesUnknown(m, args(c), supported) ==> blames(c, m)
    ensures BlamesRightly(cli, args, next, blames, c, i, limit)
    decreases limit - i
  {
    var out := cli(i, args(c));
    if i < limit && out.UnknownFlag? {
      PreciseBlames(cli, args, next, blames, supported, next(c, out.mentions), i + 1, limit);
    }
  }

  // ---------------------------------------------------------------- paying

  const PAY_ATTEMPTS := 8

  datatype PayCfg = PayCfg(fee: Spelling, outgoing: Spelling, allowSelf: bool, lastHop: bool)

  const PAY_START := PayCfg(Newer, Newer, true, true)

  function PayArgs(w: Wants, c: PayCfg): seq<Flag> {
    If(w.allowSelf && c.allowSelf, AllowSelf) + If(w.feeLimit && !c.fee.Dropped?, FeeFlag(c.fee)) +
    If(w.outgoing && !c.outgoing.Dropped?, OutgoingFlag(c.outgoing)) + If(w.lastHop && c.lastHop, LastHop)
  }

  // The fee flag is given up whether or not it was asked for; the others only when they were given.
  function PayRetry(w: Wants, c: PayCfg, mentions: set<Flag>): PayCfg {
    if c.fee.Newer? && FeeLimitSat in mentions then c.(fee := Older)
    else if c.fee.Older? && FeeLimit in mentions then c.(fee := Dropped)
    else if w.outgoing && c.outgoing.Newer? && OutgoingId in mentions then c.(outgoing := Older)
    else if w.outgoing && c.outgoing.Older? && OutgoingIds in mentions then c.(outgoing := Dropped)
    else if w.allowSelf && c.allowSelf && AllowSelf in mentions then c.(allowSelf := false)
    else if w.lastHop && c.lastHop && LastHop in mentions then c.(lastHop := false)
    else PayCfg(Dropped, Dropped, false, false)
  }

  function PayArgsFor(w: Wants): PayCfg -> seq<Flag> {
    c => PayArgs(w, c)
  }

  function PayRetryFor(w: Wants): (PayCfg, set<Flag>) -> PayCfg {
    (c, mentions) => PayRetry(w, c, mentions)
  }

  function PayRuns(cli: Cli, w: Wants): seq<Attempt> {
    Attempts(cli, PayArgsFor(w), PayRetryFor(w), PAY_START, 0, PAY_ATTEMPTS)
  }

  method LnPay(cli: Cli, w: Wants) returns (runs: seq<Attempt>)
    ensures runs == PayRuns(cli, w)
  {
    var payCfg := PAY_START;
    runs := [];
    ghost var all := PayRuns(cli, w);
    var i := 0;
    while i < PAY_ATTEMPTS
      invariant 0 <= i <= PAY_ATTEMPTS && runs + Attempts(cli, PayArgsFor(w), PayRetryFor(w), payCfg, i, PAY_ATTEMPTS) == all
    {
      Turn(cli, PayArgsFor(w), PayRetryFor(w), payCfg, i, PAY_ATTEMPTS, runs, all);
      var args := PayArgs(w, payCfg);
      var out := cli(i, args);
      runs := runs + [Attempt(args, out)];
      if !out.UnknownFlag? { return; }
      payCfg := PayRetry(w, payCfg, out.mentions);
      i := i + 1;
    }
    assert runs + [] == runs;
  }

  // What is left to give up.
  function PayRank(c: PayCfg): nat {
    Left(c.fee) + Left(c.outgoing) + Bit(c.allowSelf) + Bit(c.lastHop)
  }

  lemma PayDescends(w: Wants)
    ensures Descends(PayArgsFor(w), PayRetryFor(w), PayRank)
  {
    forall c: PayCfg, m | PayRank(c) > 0 ensures PayRank(PayRetryFor(w)(c, m)) < PayRank(c) {
    }
    forall c: PayCfg | PayRank(c) == 0 ensures PayArgsFor(w)(c) == [] {
    }
  }

  // Whatever flags its complaints mention, at most seven of the eight attempts are needed to reach a
  // command the client accepts; that one is run once, is the last, and every earlier one was refused
  // for a flag: a payment that was accepted is never tried again.
  lemma PaySettles(cli: Cli, w: Wants)
    requires AcceptsBare(cli)
    ensures Settles(PayRuns(cli, w)) && |PayRuns(cli, w)| <= 7
  {
    PayDescends(w);
    SettlesFrom(cli, PayArgsFor(w), PayRetryFor(w), PayRank, PAY_START, 0, PAY_ATTEMPTS);
  }

  // The best spelling the client knows.
  function BestFee(supported: set<Flag>): Spelling {
    if FeeLimitSat in supported then Newer else if FeeLimit in supported then Older else Dropped
  }

  function BestOutgoing(supported: set<Flag>): Spelling {
    if OutgoingId in supported then Newer else if OutgoingIds in supported then Older else Dropped
  }

  predicate Asked(w: Wants, f: Flag) {
    match f
    case FeeLimitSat => w.feeLimit
    case FeeLimit => w.feeLimit
    case OutgoingId => w.outgoing
    case OutgoingIds => w.outgoing
    case AllowSelf => w.allowSelf
    case LastHop => w.lastHop
    case NumRoutes => w.numRoutes
    case Dest => true
    case Amt => true
  }

  // The flags that are both supported and asked for.
  function Useful(w: Wants, supported: set<Flag>): set<Flag> {
    set f | f in supported && Asked(w, f)
  }

  // Nothing useful has been given up so far.
  predicate PayAbove(c: PayCfg, useful: set<Flag>) {
    && Left(c.fee) >= Left(BestFee(useful)) && Left(c.outgoing) >= Left(BestOutgoing(useful))
    && (AllowSelf in useful ==> c.allowSelf) && (LastHop in useful ==> c.lastHop)
  }

  function PayBest(supported: set<Flag>): PayCfg {
    PayCfg(BestFee(supported), BestOutgoing(supported), AllowSelf in supported, LastHop in supported)
  }

  // The flag of the branch a complaint takes is of no use; where it takes none, no flag is.
  predicate PayBlames(w: Wants, c: PayCfg, mentions: set<Flag>, useful: set<Flag>) {
    if c.fee.Newer? && FeeLimitSat in mentions then FeeLimitSat !in useful
    else if c.fee.Older? && FeeLimit in mentions then FeeLimit !in useful
    else if w.outgoing && c.outgoing.Newer? && OutgoingId in mentions then OutgoingId !in useful
    else if w.outgoing && c.outgoing.Older? && OutgoingIds in mentions then OutgoingIds !in useful
    else if w.allowSelf && c.allowSelf && AllowSelf in mentions then AllowSelf !in useful
    else if w.lastHop && c.lastHop && LastHop in mentions then LastHop !in useful
    else forall f | f in useful :: f.NumRoutes? || f.Dest? || f.Amt?
  }

  // One retry gives up nothing useful exactly when its complaint blames rightly.
  lemma PayRetryExact(w: Wants, c: PayCfg, mentions: set<Flag>, useful: set<Flag>)
    ensures PayAbove(PayRetry(w, c, mentions), useful) <==> PayAbove(c, useful) && PayBlames(w, c, mentions, useful)
  {
  }

  predicate PayHas(w: Wants, c: PayCfg, f: Flag) {
    (w.allowSelf && c.allowSelf && f == AllowSelf) || (w.feeLimit && !c.fee.Dropped? && f == FeeFlag(c.fee)) ||
    (w.outgoing && !c.outgoing.Dropped? && f == OutgoingFlag(c.outgoing)) || (w.lastHop && c.lastHop && f == LastHop)
  }

  lemma PayAllSupported(w: Wants, c: PayCfg, supported: set<Flag>)
    requires PayAbove(c, Useful(w, supported)) && forall f | f in PayArgs(w, c) :: f in supported
    ensures PayArgs(w, c) == PayArgs(w, PayBest(supported))
  {
    PayArgsExact(w, c, AllowSelf);
    PayArgsExact(w, c, FeeFlag(c.fee));
    PayArgsExact(w, c, OutgoingFlag(c.outgoing));
    PayArgsExact(w, c, LastHop);
  }

  lemma PayArgsExact(w: Wants, c: PayCfg, f: Flag)
    ensures f in PayArgs(w, c) <==> PayHas(w, c, f)
  {
  }

  lemma PaySame(w: Wants, c: PayCfg, b: PayCfg, f: Flag)
    requires PayArgs(w, c) == PayArgs(w, b)
    ensures PayHas(w, c, f) == PayHas(w, b, f)
  {
    PayArgsExact(w, c, f);
    PayArgsExact(w, b, f);
  }

  lemma PayBestAbove(w: Wants, c: PayCfg, supported: set<Flag>)
    requires PayArgs(w, c) == PayArgs(w, PayBest(supported))
    ensures PayAbove(c, Useful(w, supported))
  {
    PaySame(w, c, PayBest(supported), FeeLimitSat);
    PaySame(w, c, PayBest(supported), FeeLimit);
    PaySame(w, c, PayBest(supported), OutgoingId);
    PaySame(w, c, PayBest(supported), OutgoingIds);
    PaySame(w, c, PayBest(supported), AllowSelf);
    PaySame(w, c, PayBest(supported), LastHop);
  }

  function PayAboveFor(useful: set<Flag>): PayCfg -> bool {
    c => PayAbove(c, useful)
  }

  function PayBlamesFor(w: Wants, useful: set<Flag>): (PayCfg, set<Flag>) -> bool {
    (c, mentions) => PayBlames(w, c, mentions, useful)
  }

  lemma PayKeeps(w: Wants, supported: set<Flag>)
    ensures var useful := Useful(w, supported);
      Keeps(PayArgsFor(w), PayRetryFor(w), PayAboveFor(useful), PayBlamesFor(w, useful), supported, PayArgs(w, PayBest(supported)))
  {
    var useful := Useful(w, supported);
    forall c, m ensures PayAboveFor(useful)(PayRetryFor(w)(c, m)) <==> PayAboveFor(useful)(c) && PayBlamesFor(w, useful)(c, m) {
      PayRetryExact(w, c, m, useful);
    }
    forall c: PayCfg | PayAboveFor(useful)(c) && forall f | f in PayArgsFor(w)(c) :: f in supported
      ensures PayArgsFor(w)(c) == PayArgs(w, PayBest(supported))
    {
      PayAllSupported(w, c, supported);
    }
    forall c: PayCfg | PayArgsFor(w)(c) == PayArgs(w, PayBest(supported)) ensures PayAboveFor(useful)(c) {
      PayBestAbove(w, c, supported);
    }
  }

  ghost predicate PayRightlyBlamed(cli: Cli, w: Wants, supported: set<Flag>) {
    BlamesRightly(cli, PayArgsFor(w), PayRetryFor(w), PayBlamesFor(w, Useful(w, supported)), PAY_START, 0, PAY_ATTEMPTS)
  }

  // Against a client that supports any subset of the optional flags, the accepted command keeps every
  // requested flag the client supports, in its newest known spelling, exactly when each complaint on
  // the way takes a branch whose flag is of no use.
  lemma PayBestExactly(cli: Cli, w: Wants, supported: set<Flag>)
    requires Supports(cli, supported)
    ensures SettlesOn(PayRuns(cli, w), PayArgs(w, PayBest(supported))) <==> PayRightlyBlamed(cli, w, supported)
  {
    PayDescends(w);
    PayKeeps(w, supported);
    var useful := Useful(w, supported);
    assert PayRank(PAY_START) == 6 && PayAbove(PAY_START, useful);
    BestFrom(cli, PayArgsFor(w), PayRetryFor(w), PayRank, PayAboveFor(useful), PayBlamesFor(w, useful), supported,
             PayArgs(w, PayBest(supported)), PAY_START, 0, PAY_ATTEMPTS);
  }

  lemma PayNamedIsBlamed(w: Wants, c: PayCfg, mentions: set<Flag>, supported: set<Flag>)
    requires NamesUnknown(mentions, PayArgs(w, c), supported)
    ensures PayBlames(w, c, mentions, Useful(w, supported))
  {
    var named :| Names(mentions, named, PayArgs(w, c), supported);
    var g := NamedFacts(mentions, named, PayArgs(w, c), supported);
    forall f | f in named ensures PayHas(w, c, f) && f !in supported { PayArgsExact(w, c, f); }
    PayBranchIsBlamed(w, c, mentions, named, g, Useful(w, supported));
  }

  lemma PayBranchIsBlamed(w: Wants, c: PayCfg, mentions: set<Flag>, named: set<Flag>, g: Flag, useful: set<Flag>)
    requires forall m | m in mentions :: Behind(m, named)
    requires forall f | f in named :: PayHas(w, c, f) && f !in useful
    requires g in named && g in mentions
    ensures PayBlames(w, c, mentions, useful)
  {
  }

  // So it does where complaints name some of the flags the client does not know, and only those.
  lemma PayKeepsBest(cli: Cli, w: Wants, supported: set<Flag>)
    requires Supports(cli, supported) && Precise(cli, supported)
    ensures SettlesOn(PayRuns(cli, w), PayArgs(w, PayBest(supported)))
  {
    var useful := Useful(w, supported);
    forall c, m | NamesUnknown(m, PayArgsFor(w)(c), supported) ensures PayBlamesFor(w, useful)(c, m) {
      PayNamedIsBlamed(w, c, m, supported);
    }
    PreciseBlames(cli, PayArgsFor(w), PayRetryFor(w), PayBlamesFor(w, useful), supported, PAY_START, 0, PAY_ATTEMPTS);
    PayBestExactly(cli, w, supported);
  }

  // Where a complaint also lists the flags the client does know, as usage text does, a supported flag
  // can be lost: a client that lacks only the self-payment flag ends up paying without the fee limit.
  lemma UsageTextLosesFeeLimit(cli: Cli, w: Wants, usage: set<Flag>)
    requires w.allowSelf && w.feeLimit && {FeeLimitSat, FeeLimit, AllowSelf} <= usage && OutgoingId !in usage && OutgoingIds !in usage
    requires forall i, args :: cli(i, args) == if AllowSelf in args then UnknownFlag(usage) else Done
    ensures EndsWithoutLimit(PayRuns(cli, w))
  {
    UsageFrom(cli, w, usage, PAY_START, 0);
  }

  predicate EndsWithoutLimit(runs: seq<Attempt>) {
    runs != [] && var last := runs[|runs| - 1]; last.outcome.Done? && FeeLimitSat !in last.args && FeeLimit !in last.args
  }

  lemma {:induction false} UsageFrom(cli: Cli, w: Wants, usage: set<Flag>, c: PayCfg, i: nat)
    requires w.allowSelf && {FeeLimitSat, FeeLimit, AllowSelf} <= usage && OutgoingId !in usage && OutgoingIds !in usage
    requires forall i, args :: cli(i, args) == if AllowSelf in args then UnknownFlag(usage) else Done
    requires c.outgoing.Newer? && (c.fee.Dropped? || c.allowSelf) && i + Left(c.fee) + Bit(c.allowSelf) < PAY_ATTEMPTS
    ensures EndsWithoutLimit(Attempts(cli, PayArgsFor(w), PayRetryFor(w), c, i, PAY_ATTEMPTS))
    decreases Left(c.fee) + Bit(c.allowSelf)
  {
    if c.allowSelf {
      UsageTurn(cli, w, usage, c, i);
      UsageFrom(cli, w, usage, AfterUsage(c), i + 1);
      LastLater(Attempt(PayArgs(w, c), UnknownFlag(usage)),
                Attempts(cli, PayArgsFor(w), PayRetryFor(w), AfterUsage(c), i + 1, PAY_ATTEMPTS));
    } else {
      PayArgsExact(w, c, AllowSelf);
      PayArgsExact(w, c, FeeLimitSat);
      PayArgsExact(w, c, FeeLimit);
    }
  }

  // The configuration after one more complaint.
  function AfterUsage(c: PayCfg): PayCfg {
    if c.fee.Newer? then c.(fee := Older) else if c.fee.Older? then c.(fee := Dropped) else c.(allowSelf := false)
  }

  lemma UsageTurn(cli: Cli, w: Wants, usage: set<Flag>, c: PayCfg, i: nat)
    requires w.allowSelf && c.allowSelf && c.outgoing.Newer? && i < PAY_ATTEMPTS
    requires {FeeLimitSat, FeeLimit, AllowSelf} <= usage && OutgoingId !in usage && OutgoingIds !in usage
    requires forall i, args :: cli(i, args) == if AllowSelf in args then UnknownFlag(usage) else Done
    ensures Attempts(cli, PayArgsFor(w), PayRetryFor(w), c, i, PAY_ATTEMPTS) ==
      [Attempt(PayArgs(w, c), UnknownFlag(usage))] +
      Attempts(cli, PayArgsFor(w), PayRetryFor(w), AfterUsage(c), i + 1, PAY_ATTEMPTS)
  {
    assert PayRetryFor(w)(c, usage) == AfterUsage(c);
  }

  // ---------------------------------------------------------------- querying routes

  const ROUTE_ATTEMPTS := 10

  datatype RouteCfg = RouteCfg(useFlags: bool, numRoutes: bool, outgoing: Spelling, lastHop: bool)

  const ROUTE_START := RouteCfg(true, true, Newer, true)

  // Destination and amount are flags or, failing that, plain arguments.
  function RouteArgs(w: Wants, c: RouteCfg): seq<Flag> {
    (if c.useFlags then [Dest, Amt] else []) + If(w.numRoutes && c.numRoutes, NumRoutes) +
    If(w.outgoing && !c.outgoing.Dropped?, OutgoingFlag(c.outgoing)) + If(w.lastHop && c.lastHop, LastHop)
  }

  function RouteRetry(w: Wants, c: RouteCfg, mentions: set<Flag>): RouteCfg {
    if c.useFlags && (Dest in mentions || Amt in mentions) then c.(useFlags := false)
    else if w.numRoutes && c.numRoutes && NumRoutes in mentions then c.(numRoutes := false)
    else if w.outgoing && c.outgoing.Newer? && OutgoingId in mentions then c.(outgoing := Older)
    else if w.outgoing && c.outgoing.Older? && OutgoingIds in mentions then c.(outgoing := Dropped)
    else if w.lastHop && c.lastHop && LastHop in mentions then c.(lastHop := false)
    else RouteCfg(false, false, Dropped, false)
  }

  function RouteArgsFor(w: Wants): RouteCfg -> seq<Flag> {
    c => RouteArgs(w, c)
  }

  function RouteRetryFor(w: Wants): (RouteCfg, set<Flag>) -> RouteCfg {
    (c, mentions) => RouteRetry(w, c, mentions)
  }

  function RouteRuns(cli: Cli, w: Wants): seq<Attempt> {
    Attempts(cli, RouteArgsFor(w), RouteRetryFor(w), ROUTE_START, 0, ROUTE_ATTEMPTS)
  }

  method LnQueryRoutes(cli: Cli, w: Wants) returns (runs: seq<Attempt>)
    ensures runs == RouteRuns(cli, w)
  {
    var cfg := ROUTE_START;
    runs := [];
    ghost var all := RouteRuns(cli, w);
    var i := 0;
    while i < ROUTE_ATTEMPTS
      invariant 0 <= i <= ROUTE_ATTEMPTS && runs + Attempts(cli, RouteArgsFor(w), RouteRetryFor(w), cfg, i, ROUTE_ATTEMPTS) == all
    {
      Turn(cli, RouteArgsFor(w), RouteRetryFor(w), cfg, i, ROUTE_ATTEMPTS, runs, all);
      var args := RouteArgs(w, cfg);
      var out := cli(i, args);
      runs := runs + [Attempt(args, out)];
      if !out.UnknownFlag? { return; }
      cfg := RouteRetry(w, cfg, out.mentions);
      i := i + 1;
    }
    assert runs + [] == runs;
  }

  function RouteRank(c: RouteCfg): nat {
    Bit(c.useFlags) + Bit(c.numRoutes) + Left(c.outgoing) + Bit(c.lastHop)
  }

  lemma RouteGivesUp(w: Wants, c: RouteCfg, mentions: set<Flag>)
    requires RouteRank(c) > 0
    ensures RouteRank(RouteRetry(w, c, mentions)) < RouteRank(c)
  {
  }

  lemma RouteBare(w: Wants, c: RouteCfg)
    requires RouteRank(c) == 0
    ensures RouteArgs(w, c) == []
  {
  }

  lemma RouteDescends(w: Wants)
    ensures Descends(RouteArgsFor(w), RouteRetryFor(w), RouteRank)
  {
    forall c: RouteCfg, m | RouteRank(c) > 0 ensures RouteRank(RouteRetryFor(w)(c, m)) < RouteRank(c) {
      RouteGivesUp(w, c, m);
    }
    forall c: RouteCfg | RouteRank(c) == 0 ensures RouteArgsFor(w)(c) == [] {
      RouteBare(w, c);
    }
  }

  // Six of the ten attempts are enough.
  lemma RoutesSettle(cli: Cli, w: Wants)
    requires AcceptsBare(cli)
    ensures Settles(RouteRuns(cli, w)) && |RouteRuns(cli, w)| <= 6
  {
    RouteDescends(w);
    SettlesFrom(cli, RouteArgsFor(w), RouteRetryFor(w), RouteRank, ROUTE_START, 0, ROUTE_ATTEMPTS);
  }

  predicate RouteAbove(c: RouteCfg, useful: set<Flag>) {
    && (Dest in useful && Amt in useful ==> c.useFlags) && (NumRoutes in useful ==> c.numRoutes)
    && Left(c.outgoing) >= Left(BestOutgoing(useful)) && (LastHop in useful ==> c.lastHop)
  }

  function RouteBest(supported: set<Flag>): RouteCfg {
    RouteCfg(Dest in supported && Amt in supported, NumRoutes in supported, BestOutgoing(supported), LastHop in supported)
  }

  // Destination and amount are of use together only.
  predicate RouteBlames(w: Wants, c: RouteCfg, mentions: set<Flag>, useful: set<Flag>) {
    if c.useFlags && (Dest in mentions || Amt in mentions) then Dest !in useful || Amt !in useful
    else if w.numRoutes && c.numRoutes && NumRoutes in mentions then NumRoutes !in useful
    else if w.outgoing && c.outgoing.Newer? && OutgoingId in mentions then OutgoingId !in useful
    else if w.outgoing && c.outgoing.Older? && OutgoingIds in mentions then OutgoingIds !in useful
    else if w.lastHop && c.lastHop && LastHop in mentions then LastHop !in useful
    else (Dest !in useful || Amt !in useful) && {NumRoutes, OutgoingId, OutgoingIds, LastHop} !! useful
  }

  lemma RouteRetryExact(w: Wants, c: RouteCfg, mentions: set<Flag>, useful: set<Flag>)
    ensures RouteAbove(RouteRetry(w, c, mentions), useful) <==> RouteAbove(c, useful) && RouteBlames(w, c, mentions, useful)
  {
  }

  predicate RouteHas(w: Wants, c: RouteCfg, f: Flag) {
    (c.useFlags && (f == Dest || f == Amt)) || (w.numRoutes && c.numRoutes && f == NumRoutes) ||
    (w.outgoing && !c.outgoing.Dropped? && f == OutgoingFlag(c.outgoing)) || (w.lastHop && c.lastHop && f == LastHop)
  }

  lemma RouteArgsExact(w: Wants, c: RouteCfg, f: Flag)
    ensures f in RouteArgs(w, c) <==> RouteHas(w, c, f)
  {
  }

  lemma RouteAllSupported(w: Wants, c: RouteCfg, supported: set<Flag>)
    requires RouteAbove(c, Useful(w, supported)) && forall f | f in RouteArgs(w, c) :: f in supported
    ensures RouteArgs(w, c) == RouteArgs(w, RouteBest(supported))
  {
    RouteArgsExact(w, c, Dest);
    RouteArgsExact(w, c, Amt);
    RouteArgsExact(w, c, NumRoutes);
    RouteArgsExact(w, c, OutgoingFlag(c.outgoing));
    RouteArgsExact(w, c, LastHop);
  }

  lemma RouteSame(w: Wants, c: RouteCfg, b: RouteCfg, f: Flag)
    requires RouteArgs(w, c) == RouteArgs(w, b)
    ensures RouteHas(w, c, f) == RouteHas(w, b, f)
  {
    RouteArgsExact(w, c, f);
    RouteArgsExact(w, b, f);
  }

  lemma RouteBestAbove(w: Wants, c: RouteCfg, supported: set<Flag>)
    requires RouteArgs(w, c) == RouteArgs(w, RouteBest(supported))
    ensures RouteAbove(c, Useful(w, supported))
  {
    RouteSame(w, c, RouteBest(supported), Dest);
    RouteSame(w, c, RouteBest(supported), NumRoutes);
    RouteSame(w, c, RouteBest(supported), OutgoingId);
    RouteSame(w, c, RouteBest(supported), OutgoingIds);
    RouteSame(w, c, RouteBest(supported), LastHop);
  }

  function RouteAboveFor(useful: set<Flag>): RouteCfg -> bool {
    c => RouteAbove(c, useful)
  }

  function RouteBlamesFor(w: Wants, useful: set<Flag>): (RouteCfg, set<Flag>) -> bool {
    (c, mentions) => RouteBlames(w, c, mentions, useful)
  }

  lemma RouteKeeps(w: Wants, supported: set<Flag>)
    ensures var useful := Useful(w, supported);
      Keeps(RouteArgsFor(w), RouteRetryFor(w), RouteAboveFor(useful), RouteBlamesFor(w, useful), supported, RouteArgs(w, RouteBest(supported)))
  {
    var useful := Useful(w, supported);
    forall c, m ensures RouteAboveFor(useful)(RouteRetryFor(w)(c, m)) <==> RouteAboveFor(useful)(c) && RouteBlamesFor(w, useful)(c, m) {
      RouteRetryExact(w, c, m, useful);
    }
    forall c: RouteCfg | RouteAboveFor(useful)(c) && forall f | f in RouteArgsFor(w)(c) :: f in supported
      ensures RouteArgsFor(w)(c) == RouteArgs(w, RouteBest(supported))
    {
      RouteAllSupported(w, c, supported);
    }
    forall c: RouteCfg | RouteArgsFor(w)(c) == RouteArgs(w, RouteBest(supported)) ensures RouteAboveFor(useful)(c) {
      RouteBestAbove(w, c, supported);
    }
  }

  ghost predicate RouteRightlyBlamed(cli: Cli, w: Wants, supported: set<Flag>) {
    BlamesRightly(cli, RouteArgsFor(w), RouteRetryFor(w), RouteBlamesFor(w, Useful(w, supported)), ROUTE_START, 0, ROUTE_ATTEMPTS)
  }

  // The same for route queries.
  lemma RoutesBestExactly(cli: Cli, w: Wants, supported: set<Flag>)
    requires Supports(cli, supported)
    ensures SettlesOn(RouteRuns(cli, w), RouteArgs(w, RouteBest(supported))) <==> RouteRightlyBlamed(cli, w, supported)
  {
    RouteDescends(w);
    RouteKeeps(w, supported);
    var useful := Useful(w, supported);
    assert RouteRank(ROUTE_START) == 5 && RouteAbove(ROUTE_START, useful);
    BestFrom(cli, RouteArgsFor(w), RouteRetryFor(w), RouteRank, RouteAboveFor(useful), RouteBlamesFor(w, useful), supported,
             RouteArgs(w, RouteBest(supported)), ROUTE_START, 0, ROUTE_ATTEMPTS);
  }

  lemma RouteNamedIsBlamed(w: Wants, c: RouteCfg, mentions: set<Flag>, supported: set<Flag>)
    requires NamesUnknown(mentions, RouteArgs(w, c), supported)
    ensures RouteBlames(w, c, mentions, Useful(w, supported))
  {
    var named :| Names(mentions, named, RouteArgs(w, c), supported);
    var g := NamedFacts(mentions, named, RouteArgs(w, c), supported);
    forall f | f in named ensures RouteHas(w, c, f) && f !in supported { RouteArgsExact(w, c, f); }
    RouteBranchIsBlamed(w, c, mentions, named, g, Useful(w, supported));
  }

  lemma RouteBranchIsBlamed(w: Wants, c: RouteCfg, mentions: set<Flag>, named: set<Flag>, g: Flag, useful: set<Flag>)
    requires forall m | m in mentions :: Behind(m, named)
    requires forall f | f in named :: RouteHas(w, c, f) && f !in useful
    requires g in named && g in mentions
    ensures RouteBlames(w, c, mentions, useful)
  {
  }

  lemma RoutesKeepBest(cli: Cli, w: Wants, supported: set<Flag>)
    requires Supports(cli, supported) && Precise(cli, supported)
    ensures SettlesOn(RouteRuns(cli, w), RouteArgs(w, RouteBest(supported)))
  {
    var useful := Useful(w, supported);
    forall c, m | NamesUnknown(m, RouteArgsFor(w)(c), supported) ensures RouteBlamesFor(w, useful)(c, m) {
      RouteNamedIsBlamed(w, c, m, supported);
    }
    PreciseBlames(cli, RouteArgsFor(w), RouteRetryFor(w), RouteBlamesFor(w, useful), supported, ROUTE_START, 0, ROUTE_ATTEMPTS);
    RoutesBestExactly(cli, w, supported);
  }

  // ---------------------------------------------------------------- what the best command is

  // Supported, and no newer spelling of it is.
  predicate Newest(f: Flag, supported: set<Flag>) {
    && f in supported
    && (f.FeeLimit? ==> FeeLimitSat !in supported)
    && (f.OutgoingIds? ==> OutgoingId !in supported)
  }

  // The best payment gives every flag that is asked for in its newest supported spelling, and no other.
  lemma PayBestIs(w: Wants, supported: set<Flag>, f: Flag)
    ensures f in PayArgs(w, PayBest(supported)) <==>
      Asked(w, f) && Newest(f, supported) && !(f.NumRoutes? || f.Dest? || f.Amt?)
  {
    PayArgsExact(w, PayBest(supported), f);
  }

  // So does the best route query, which names destination and amount when both flags are supported.
  lemma RoutesBestIs(w: Wants, supported: set<Flag>, f: Flag)
    ensures f in RouteArgs(w, RouteBest(supported)) <==>
      if f.Dest? || f.Amt? then Dest in supported && Amt in supported
      else Asked(w, f) && Newest(f, supported) && !(f.FeeLimitSat? || f.FeeLimit? || f.AllowSelf?)
  {
    RouteArgsExact(w, RouteBest(supported), f);
  }

  // The first command gives all that is asked for, in the newest spelling.
  lemma FirstTriesAll(w: Wants, f: Flag)
    ensures f in PayArgs(w, PAY_START) <==> Asked(w, f) && f in {FeeLimitSat, OutgoingId, AllowSelf, LastHop}
    ensures f in RouteArgs(w, ROUTE_START) <==> Asked(w, f) && f in {Dest, Amt, NumRoutes, OutgoingId, LastHop}
  {
    PayArgsExact(w, PAY_START, f);
    RouteArgsExact(w, ROUTE_START, f);
  }

  // A client that never stops complaining is tried eight times with a payment and ten with a query.
  lemma GivesUpExactly(cli: Cli, w: Wants)
    requires forall i, args :: cli(i, args).UnknownFlag?
    ensures |PayRuns(cli, w)| == 8 && |RouteRuns(cli, w)| == 10
  {
    AllTried(cli, PayArgsFor(w), PayRetryFor(w), PAY_START, 0, PAY_ATTEMPTS);
    AllTried(cli, RouteArgsFor(w), RouteRetryFor(w), ROUTE_START, 0, ROUTE_ATTEMPTS);
  }

  lemma {:induction false} AllTried<C>(cli: Cli, args: C -> seq<Flag>, next: (C, set<Flag>) -> C, c: C, i: nat, limit: nat)
    requires i <= limit && forall i, args :: cli(i, args).UnknownFlag?
    ensures |Attempts(cli, args, next, c, i, limit)| == limit - i
    decreases limit - i
  {
    if i < limit { AllTried(cli, args, next, next(c, cli(i, args(c)).mentions), i + 1, limit); }
  }
}
