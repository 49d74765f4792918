// Listing locks in the receipts store: one accepted quote per trade, one invited trade per offer line.

module ListingLocks {

  import opened Prelude

  datatype Key = Rfq(rfqId: string) | RfqTrade(ofTrade: string) | OfferLine(offerId: string, line: nat)

  datatype LockState = InFlight | Filled | Unknown

  // An empty trade or quote stands for a missing one.
  datatype Row = Row(key: Key, trade: string, state: LockState, quote: string)

  const LIST_LIMIT := 2000

  // ---------------------------------------------------------------- the lock table, newest row first

  function Find(rows: seq<Row>, key: Key): (r: Option<Row>)
    ensures r.Some? ==> r.value.key == key && r.value in rows
  {
    if rows == [] then None else if rows[0].key == key then Some(rows[0]) else Find(rows[1..], key)
  }

  function Without(rows: seq<Row>, key: Key): seq<Row> {
    if rows == [] then []
    else if rows[0].key == key then Without(rows[1..], key)
    else [rows[0]] + Without(rows[1..], key)
  }

  function Upsert(rows: seq<Row>, row: Row): seq<Row> {
    [row] + Without(rows, row.key)
  }

  function AllOfTrade(rows: seq<Row>, trade: string): seq<Row> {
    if rows == [] then []
    else if rows[0].trade == trade then [rows[0]] + AllOfTrade(rows[1..], trade)
    else AllOfTrade(rows[1..], trade)
  }

  function ListByTrade(rows: seq<Row>, trade: string): seq<Row> {
    var all := AllOfTrade(rows, trade);
    if |all| > LIST_LIMIT then all[..LIST_LIMIT] else all
  }

  function DeleteByTrade(rows: seq<Row>, trade: string): seq<Row> {
    if rows == [] then []
    else if rows[0].trade == trade then DeleteByTrade(rows[1..], trade)
    else [rows[0]] + DeleteByTrade(rows[1..], trade)
  }

  function FillAll(rows: seq<Row>, listed: seq<Row>): seq<Row>
    decreases |listed|
  {
    if listed == [] then rows else FillAll(Upsert(rows, listed[0].(state := Filled)), listed[1..])
  }

  function MarkFilled(rows: seq<Row>, trade: string): seq<Row> {
    if trade == "" then rows else FillAll(rows, ListByTrade(rows, trade))
  }

  function Release(rows: seq<Row>, trade: string): seq<Row> {
    if trade == "" then rows else DeleteByTrade(rows, trade)
  }

  // ---------------------------------------------------------------- the checks before a lock is taken

  // The lock found, when it is the caller's own; an error when the listing is taken.
  function Available(rows: seq<Row>, key: Key, trade: string): Result<Option<Row>> {
    match Find(rows, key)
    case None => Ok(None)
    case Some(row) =>
      match row.state
      case Filled => Err("listing_filled")
      case InFlight => if trade != "" && row.trade == trade then Ok(Some(row)) else Err("listing_in_progress")
      case Unknown => Err("listing_lock_invalid_state")
  }

  // Rows written by older versions: the first relevant one decides.
  function LegacyCheck(listed: seq<Row>, quote: string): Result<bool> {
    if listed == [] then Ok(true)
    else
      var row := listed[0];
      if row.key.OfferLine? || row.state.Unknown? then LegacyCheck(listed[1..], quote)
      else if row.state.Filled? then Err("listing_filled")
      else if row.quote == "" || row.quote != quote then Err("listing_in_progress")
      else Ok(true)
  }

  // Ok(true): a new lock is to be written. Ok(false): a replay of the quote already accepted.
  function AcceptCheck(rows: seq<Row>, trade: string, quote: string): Result<bool> {
    match Available(rows, RfqTrade(trade), trade)
    case Err(e) => Err(e)
    case Ok(Some(row)) => if row.quote == "" || row.quote != quote then Err("listing_in_progress") else Ok(false)
    case Ok(None) => LegacyCheck(ListByTrade(rows, trade), quote)
  }

  function InviteCheck(rows: seq<Row>, key: Key, trade: string): Result<bool> {
    match Available(rows, key, trade)
    case Err(e) => Err(e)
    case Ok(own) => Ok(own.None?)
  }

  // ---------------------------------------------------------------- tool calls and terminal events

  // The tool call in progress, if any: QUOTE_ACCEPT locks RfqTrade, SWAP_INVITE locks an offer line.
  datatype Call = Idle | InCall(key: Key, trade: string, quote: string, created: bool, posted: bool)

  // What a reader of the network sees, with the releases in between.
  datatype Sent = Posted(slot: Key, trade: string, quote: string) | Released(trade: string)

  datatype Desk = Desk(rows: seq<Row>, call: Call, sent: seq<Sent>)

  datatype Step =
    | BeginAccept(trade: string, quote: string, refused: bool)
    | BeginInvite(offerId: string, line: nat, trade: string, quote: string, refused: bool)
    | Post
    | Finish
    | Fail(sentAnyway: bool)
    | Claimed(trade: string)
    | Terminated(trade: string)

  function InFlightRow(c: Call): Row
    requires c.InCall?
  {
    Row(c.key, c.trade, InFlight, c.quote)
  }

  function PostOf(c: Call): Sent
    requires c.InCall?
  {
    Posted(c.key, c.trade, c.quote)
  }

  function Begin(d: Desk, key: Key, trade: string, quote: string, check: Result<bool>): Desk {
    match check
    case Err(_) => d
    case Ok(created) =>
      var c := InCall(key, trade, quote, created, false);
      d.(rows := if created then Upsert(d.rows, InFlightRow(c)) else d.rows, call := c)
  }

  // A failed quote_accept removes the lock it created; a failed invite does unless it was posted.
  predicate Unlocks(c: Call) {
    c.InCall? && c.created && (c.key.RfqTrade? || !c.posted)
  }

  function Undo(d: Desk): Desk
    requires d.call.InCall?
  {
    d.(rows := if Unlocks(d.call) then Without(d.rows, d.call.key) else d.rows, call := Idle)
  }

  function Next(d: Desk, step: Step): Desk {
    match step
    case BeginAccept(trade, quote, refused) =>
      if !d.call.Idle? || refused then d
      else Begin(d, RfqTrade(trade), trade, quote, AcceptCheck(d.rows, trade, quote))
    case BeginInvite(offerId, line, trade, quote, refused) =>
      if !d.call.Idle? || refused then d
      else Begin(d, OfferLine(offerId, line), trade, quote, InviteCheck(d.rows, OfferLine(offerId, line), trade))
    case Post =>
      if d.call.Idle? || d.call.posted then d
      else d.(call := d.call.(posted := true), sent := d.sent + [PostOf(d.call)])
    case Finish =>
      if d.call.Idle? || !d.call.posted then d
      else d.(rows := Upsert(d.rows, InFlightRow(d.call)), call := Idle)
    case Fail(sentAnyway) =>
      // The network may have delivered a message whose send failed.
      if d.call.Idle? then d
      else if sentAnyway && !d.call.posted then Undo(d.(sent := d.sent + [PostOf(d.call)]))
      else Undo(d)
    case Claimed(trade) => d.(rows := MarkFilled(d.rows, trade))
    case Terminated(trade) =>
      if trade == "" then d else d.(rows := Release(d.rows, trade), sent := d.sent + [Released(trade)])
  }

  function Run(d: Desk, steps: seq<Step>): Desk {
    if steps == [] then d else Next(Run(d, steps[..|steps| - 1]), steps[|steps| - 1])
  }

  // ---------------------------------------------------------------- exclusivity

  // Posts on one slot must name one trade, and QUOTE_ACCEPTs one quote.
  predicate Agree(p: Sent, q: Sent)
    requires p.Posted? && q.Posted?
  {
    p.trade == q.trade && (p.slot.RfqTrade? ==> p.quote == q.quote)
  }

  // What a statement is about: the QUOTE_ACCEPTs of trades, or the SWAP_INVITEs of offer lines.
  datatype Scope = Quotes | Lines

  predicate InScope(scope: Scope, key: Key) {
    if scope.Quotes? then key.RfqTrade? else key.OfferLine?
  }

  // Two posts on one slot agree unless the trade of the first was released in between.
  ghost predicate Exclusive(sent: seq<Sent>, scope: Scope) {
    forall i, j | 0 <= i < j < |sent| ::
      sent[i].Posted? && sent[j].Posted? && sent[i].slot == sent[j].slot && Released(sent[i].trade) !in sent[i..j] &&
      InScope(scope, sent[i].slot)
      ==> Agree(sent[i], sent[j])
  }

  // Posted, and its trade not released since.
  ghost predicate Live(sent: seq<Sent>, p: Sent)
    requires p.Posted?
  {
    exists i | 0 <= i < |sent| :: sent[i] == p && Released(p.trade) !in sent[i..]
  }

  predicate Held(rows: seq<Row>, p: Sent)
    requires p.Posted?
  {
    var row := Find(rows, p.slot);
    row.Some? && row.value.trade == p.trade && (p.slot.RfqTrade? ==> row.value.quote == p.quote)
  }

  ghost predicate Unique(rows: seq<Row>) {
    forall i, j | 0 <= i < j < |rows| :: rows[i].key != rows[j].key
  }

  predicate PostedByCall(c: Call, p: Sent) {
    c.InCall? && c.posted && PostOf(c) == p
  }

  ghost predicate Backed(d: Desk, p: Sent)
    requires p.Posted?
  {
    && (Live(d.sent, p) ==> Held(d.rows, p) || PostedByCall(d.call, p))
    && (Live(d.sent, p) && d.call.InCall? && d.call.key == p.slot ==> Agree(p, PostOf(d.call)))
    && (Live(d.sent, p) && d.call.InCall? && d.call.key == p.slot ==> !d.call.created || d.call.posted)
  }

  // A call works on a slot that is its own, or that a release freed meanwhile.
  predicate CallSound(d: Desk) {
    d.call.InCall? ==>
      && !d.call.key.Rfq?
      && (d.call.key.RfqTrade? ==> d.call.trade == d.call.key.ofTrade)
      && (Find(d.rows, d.call.key) == None || Held(d.rows, PostOf(d.call)))
  }

  ghost predicate Inv(d: Desk, scope: Scope) {
    && Unique(d.rows)
    && CallSound(d)
    && Exclusive(d.sent, scope)
    && forall p: Sent | p.Posted? && InScope(scope, p.slot) :: Backed(d, p)
  }

  // The call fails although its message is out there and not released since, and its lock is
  // missing or is about to be removed.
  ghost predicate LosesLock(d: Desk, step: Step, scope: Scope) {
    && step.Fail? && d.call.InCall? && InScope(scope, d.call.key)
    && (if d.call.posted then Live(d.sent, PostOf(d.call)) else step.sentAnyway)
    && (Unlocks(d.call) || !Held(d.rows, PostOf(d.call)))
  }

  ghost predicate Lossless(d: Desk, steps: seq<Step>, scope: Scope) {
    forall i | 0 <= i < |steps| :: !LosesLock(Run(d, steps[..i]), steps[i], scope)
  }

  // ---------------------------------------------------------------- the table

  lemma FindWithout(rows: seq<Row>, key: Key, k: Key)
    ensures Find(Without(rows, key), k) == if k == key then None else Find(rows, k)
  {
  }

  lemma FindUpsert(rows: seq<Row>, row: Row, k: Key)
    ensures Find(Upsert(rows, row), k) == if k == row.key then Some(row) else Find(rows, k)
  {
    FindWithout(rows, row.key, k);
    assert Upsert(rows, row)[1..] == Without(rows, row.key);
  }

  lemma WithoutKeys(rows: seq<Row>, key: Key)
    requires Unique(rows)
    ensures Unique(Without(rows, key))
    ensures forall r :: r in Without(rows, key) <==> r in rows && r.key != key
  {
    if rows != [] {
      assert rows == [rows[0]] + rows[1..];
      WithoutKeys(rows[1..], key);
      var rest := Without(rows[1..], key);
      forall i | 0 <= i < |rest| ensures rest[i].key != rows[0].key {
        assert rest[i] in rows[1..];
      }
    }
  }

  lemma UpsertUnique(rows: seq<Row>, row: Row)
    requires Unique(rows)
    ensures Unique(Upsert(rows, row))
    ensures forall r | r in rows && r.key != row.key :: r in Upsert(rows, row)
  {
    WithoutKeys(rows, row.key);
    var rest := Without(rows, row.key);
    forall i | 0 <= i < |rest| ensures rest[i].key != row.key {
      assert rest[i] in rest;
    }
  }

  lemma DeletedUnique(rows: seq<Row>, trade: string)
    requires Unique(rows)
    ensures Unique(DeleteByTrade(rows, trade))
    ensures forall r | r in DeleteByTrade(rows, trade) :: r in rows
  {
    if rows != [] {
      assert rows == [rows[0]] + rows[1..];
      DeletedUnique(rows[1..], trade);
      var rest := DeleteByTrade(rows[1..], trade);
      forall i | 0 <= i < |rest| ensures rest[i].key != rows[0].key {
        assert rest[i] in rows[1..];
      }
    }
  }

  lemma SlotReleased(rows: seq<Row>, trade: string, k: Key)
    requires Unique(rows)
    ensures Find(DeleteByTrade(rows, trade), k) ==
      if Find(rows, k).Some? && Find(rows, k).value.trade == trade then None else Find(rows, k)
  {
    DeletedUnique(rows, trade);
    if rows != [] { SlotReleased(rows[1..], trade, k); }
  }

  lemma AllOfTradeSound(rows: seq<Row>, trade: string)
    requires Unique(rows)
    ensures Unique(AllOfTrade(rows, trade))
    ensures forall r | r in AllOfTrade(rows, trade) :: r in rows && r.trade == trade
  {
    if rows != [] {
      assert rows == [rows[0]] + rows[1..];
      AllOfTradeSound(rows[1..], trade);
      var rest := AllOfTrade(rows[1..], trade);
      forall i | 0 <= i < |rest| ensures rest[i].key != rows[0].key {
        assert rest[i] in rows[1..];
      }
    }
  }

  lemma FindMember(rows: seq<Row>, r: Row)
    requires Unique(rows) && r in rows
    ensures Find(rows, r.key) == Some(r)
  {
    if rows[0] != r {
      assert r in rows[1..];
      var i :| 0 < i < |rows| && rows[i] == r;
      FindMember(rows[1..], r);
    }
  }

  // Filling changes the state of the listed rows and nothing else a lookup can see.
  predicate SameButState(a: Option<Row>, b: Option<Row>) {
    match a
    case None => b.None?
    case Some(r) => b.Some? && b.value.(state := r.state) == r && (r.state.Filled? ==> b.value.state.Filled?)
  }

  // The rows still to be filled are untouched by filling the first one.
  lemma FillOne(rows: seq<Row>, listed: seq<Row>)
    requires Unique(rows) && Unique(listed) && listed != [] && forall r | r in listed :: r in rows
    ensures var rest := Upsert(rows, listed[0].(state := Filled));
      Unique(rest) && Unique(listed[1..]) && forall r | r in listed[1..] :: r in rest
  {
    UpsertUnique(rows, listed[0].(state := Filled));
    forall r | r in listed[1..] ensures r in Upsert(rows, listed[0].(state := Filled)) {
      var i :| 0 < i < |listed| && listed[i] == r;
      assert listed[0].key != listed[i].key;
    }
  }

  lemma {:induction false} FillAllKeeps(rows: seq<Row>, listed: seq<Row>, k: Key)
    requires Unique(rows) && Unique(listed) && forall r | r in listed :: r in rows
    ensures Unique(FillAll(rows, listed)) && SameButState(Find(rows, k), Find(FillAll(rows, listed), k))
    decreases |listed|
  {
    if listed != [] {
      var row := listed[0].(state := Filled);
      FillOne(rows, listed);
      FindUpsert(rows, row, k);
      FindMember(rows, listed[0]);
      FillAllKeeps(Upsert(rows, row), listed[1..], k);
    }
  }

  lemma {:induction false} FillAllFills(rows: seq<Row>, listed: seq<Row>, i: nat)
    requires Unique(rows) && Unique(listed) && (forall r | r in listed :: r in rows) && i < |listed|
    ensures Find(FillAll(rows, listed), listed[i].key) == Some(listed[i].(state := Filled))
    decreases |listed|
  {
    var row := listed[0].(state := Filled);
    FillOne(rows, listed);
    if i == 0 {
      FindUpsert(rows, row, row.key);
      FillAllKeeps(Upsert(rows, row), listed[1..], row.key);
    } else {
      FillAllFills(Upsert(rows, row), listed[1..], i - 1);
    }
  }

  lemma FilledKeeps(rows: seq<Row>, trade: string, k: Key)
    requires Unique(rows)
    ensures Unique(MarkFilled(rows, trade)) && SameButState(Find(rows, k), Find(MarkFilled(rows, trade), k))
  {
    AllOfTradeSound(rows, trade);
    if trade != "" {
      var all, listed := AllOfTrade(rows, trade), ListByTrade(rows, trade);
      assert forall r | r in listed :: r in all;
      FillAllKeeps(rows, listed, k);
    }
  }

  // ---------------------------------------------------------------- what is live

  lemma LiveSnoc(sent: seq<Sent>, e: Sent, p: Sent)
    requires p.Posted?
    ensures Live(sent + [e], p) <==> e == p || (Live(sent, p) && e != Released(p.trade))
  {
    var all := sent + [e];
    if e == p {
      assert all[|sent|] == p && Released(p.trade) !in all[|sent|..];
    }
    if Live(sent, p) && e != Released(p.trade) {
      var i :| 0 <= i < |sent| && sent[i] == p && Released(p.trade) !in sent[i..];
      assert all[i..] == sent[i..] + [e];
      assert all[i] == p;
    }
    if Live(all, p) && e != p {
      var i :| 0 <= i < |all| && all[i] == p && Released(p.trade) !in all[i..];
      assert all[i..] == sent[i..] + [e];
      assert sent[i] == p;
      assert all[|sent|] in all[i..];
    }
  }

  lemma ExclusiveSnoc(sent: seq<Sent>, e: Sent, scope: Scope)
    requires Exclusive(sent, scope)
    requires e.Posted? && InScope(scope, e.slot) ==> forall p: Sent | p.Posted? && p.slot == e.slot && Live(sent, p) :: Agree(p, e)
    ensures Exclusive(sent + [e], scope)
  {
    var all := sent + [e];
    forall i, j | 0 <= i < j < |all| && all[i].Posted? && all[j].Posted? && all[i].slot == all[j].slot &&
        Released(all[i].trade) !in all[i..j] && InScope(scope, all[i].slot)
      ensures Agree(all[i], all[j])
    {
      if j < |sent| {
        assert all[i..j] == sent[i..j] && sent[i] == all[i] && sent[j] == all[j];
      } else {
        assert all[i..j] == sent[i..];
        assert sent[i] == all[i];
        assert Live(sent, all[i]);
      }
    }
  }

  // ---------------------------------------------------------------- every step keeps the invariant

  // A lock check passes only where every live post on the slot agrees with the new call.
  lemma BeginKeeps(d: Desk, key: Key, trade: string, quote: string, check: Result<bool>, scope: Scope)
    requires Inv(d, scope) && d.call.Idle?
    requires key.RfqTrade? ==> key.ofTrade == trade && check == AcceptCheck(d.rows, trade, quote)
    requires !key.RfqTrade? ==> key.OfferLine? && check == InviteCheck(d.rows, key, trade)
    ensures Inv(Begin(d, key, trade, quote, check), scope)
  {
    if check.Ok? {
      var d' := Begin(d, key, trade, quote, check);
      if check.value { UpsertUnique(d.rows, InFlightRow(d'.call)); }
      forall p: Sent | p.Posted? && InScope(scope, p.slot) ensures Backed(d', p) {
        assert Backed(d, p);
        FindUpsert(d.rows, InFlightRow(d'.call), p.slot);
      }
      FindUpsert(d.rows, InFlightRow(d'.call), key);
    }
  }

  lemma PostKeeps(d: Desk, scope: Scope)
    requires Inv(d, scope) && d.call.InCall? && !d.call.posted
    ensures Inv(Next(d, Post), scope)
  {
    var e := PostOf(d.call);
    forall p: Sent | p.Posted? && p.slot == e.slot && InScope(scope, e.slot) && Live(d.sent, p) ensures Agree(p, e) {
      assert Backed(d, p);
    }
    ExclusiveSnoc(d.sent, e, scope);
    forall p: Sent | p.Posted? && InScope(scope, p.slot) ensures Backed(Next(d, Post), p) {
      assert Backed(d, p);
      LiveSnoc(d.sent, e, p);
    }
  }

  lemma FinishKeeps(d: Desk, scope: Scope)
    requires Inv(d, scope) && d.call.InCall? && d.call.posted
    ensures Inv(Next(d, Finish), scope)
  {
    var d', row := Next(d, Finish), InFlightRow(d.call);
    UpsertUnique(d.rows, row);
    assert d'.sent == d.sent && d'.call.Idle?;
    forall p: Sent | p.Posted? && InScope(scope, p.slot) ensures Backed(d', p) {
      assert Backed(d, p);
      FindUpsert(d.rows, row, p.slot);
      if Live(d.sent, p) && p.slot == d.call.key { assert Agree(p, PostOf(d.call)); }
    }
  }

  lemma UndoKeeps(d: Desk, scope: Scope)
    requires Inv(d, scope) && d.call.InCall? && !LosesLock(d, Fail(false), scope)
    ensures Inv(Undo(d), scope)
  {
    WithoutKeys(d.rows, d.call.key);
    forall p: Sent | p.Posted? && InScope(scope, p.slot) ensures Backed(Undo(d), p) {
      assert Backed(d, p);
      FindWithout(d.rows, d.call.key, p.slot);
    }
  }

  // A message that went out although its send failed: as if posted, with the lock still there.
  lemma SentAnywayKeeps(d: Desk, scope: Scope)
    requires Inv(d, scope) && d.call.InCall? && !d.call.posted && !LosesLock(d, Fail(true), scope)
    ensures Inv(Next(d, Fail(true)), scope)
  {
    var e := PostOf(d.call);
    var posted := Next(d, Post);
    PostKeeps(d, scope);
    WithoutKeys(d.rows, d.call.key);
    forall p: Sent | p.Posted? && InScope(scope, p.slot) ensures Backed(Next(d, Fail(true)), p) {
      assert Backed(d, p) && Backed(posted, p);
      FindWithout(d.rows, d.call.key, p.slot);
    }
  }

  lemma ClaimKeeps(d: Desk, trade: string, scope: Scope)
    requires Inv(d, scope)
    ensures Inv(Next(d, Claimed(trade)), scope)
  {
    forall k ensures SameButState(Find(d.rows, k), Find(MarkFilled(d.rows, trade), k)) {
      FilledKeeps(d.rows, trade, k);
    }
    FilledKeeps(d.rows, trade, Rfq(""));
    forall p: Sent | p.Posted? && InScope(scope, p.slot) ensures Backed(Next(d, Claimed(trade)), p) {
      assert Backed(d, p);
    }
  }

  lemma ReleaseKeeps(d: Desk, trade: string, scope: Scope)
    requires Inv(d, scope) && trade != ""
    ensures Inv(Next(d, Terminated(trade)), scope)
  {
    DeletedUnique(d.rows, trade);
    ExclusiveSnoc(d.sent, Released(trade), scope);
    forall p: Sent | p.Posted? && InScope(scope, p.slot) ensures Backed(Next(d, Terminated(trade)), p) {
      assert Backed(d, p);
      LiveSnoc(d.sent, Released(trade), p);
      SlotReleased(d.rows, trade, p.slot);
    }
    if d.call.InCall? { SlotReleased(d.rows, trade, d.call.key); }
  }

  lemma StepKeeps(d: Desk, step: Step, scope: Scope)
    requires Inv(d, scope) && !LosesLock(d, step, scope)
    ensures Inv(Next(d, step), scope)
  {
    match step
    case BeginAccept(trade, quote, refused) =>
      if d.call.Idle? && !refused {
        BeginKeeps(d, RfqTrade(trade), trade, quote, AcceptCheck(d.rows, trade, quote), scope);
      }
    case BeginInvite(offerId, line, trade, quote, refused) =>
      if d.call.Idle? && !refused {
        BeginKeeps(d, OfferLine(offerId, line), trade, quote, InviteCheck(d.rows, OfferLine(offerId, line), trade), scope);
      }
    case Post => if d.call.InCall? && !d.call.posted { PostKeeps(d, scope); }
    case Finish => if d.call.InCall? && d.call.posted { FinishKeeps(d, scope); }
    case Fail(sentAnyway) =>
      if d.call.InCall? {
        if sentAnyway && !d.call.posted { SentAnywayKeeps(d, scope); } else { UndoKeeps(d, scope); }
      }
    case Claimed(trade) => ClaimKeeps(d, trade, scope);
    case Terminated(trade) => if trade != "" { ReleaseKeeps(d, trade, scope); }
  }

  // A step that loses a lock leaves its message live on a free slot.
  lemma LossFreesSlot(d: Desk, step: Step, scope: Scope)
    requires Inv(d, scope) && LosesLock(d, step, scope)
    ensures var d' := Next(d, step); var p := PostOf(d.call);
      && d'.call.Idle? && Live(d'.sent, p) && Find(d'.rows, p.slot) == None
      && d'.rows == (if Unlocks(d.call) then Without(d.rows, p.slot) else d.rows)
  {
    FindWithout(d.rows, d.call.key, d.call.key);
    LiveSnoc(d.sent, PostOf(d.call), PostOf(d.call));
  }

  // The invariant breaks at such a step and at no other.
  lemma KeepsExactly(d: Desk, step: Step, scope: Scope)
    requires Inv(d, scope)
    ensures Inv(Next(d, step), scope) <==> !LosesLock(d, step, scope)
  {
    if LosesLock(d, step, scope) {
      LossFreesSlot(d, step, scope);
      assert !Backed(Next(d, step), PostOf(d.call));
    } else {
      StepKeeps(d, step, scope);
    }
  }

  lemma {:induction false} RunKeeps(rows: seq<Row>, steps: seq<Step>, scope: Scope)
    requires Unique(rows) && Lossless(Desk(rows, Idle, []), steps, scope)
    ensures Inv(Run(Desk(rows, Idle, []), steps), scope)
  {
    var d := Desk(rows, Idle, []);
    if steps != [] {
      var n := |steps| - 1;
      forall i | 0 <= i < n ensures !LosesLock(Run(d, steps[..n][..i]), steps[..n][i], scope) {
        assert steps[..n][..i] == steps[..i];
      }
      RunKeeps(rows, steps[..n], scope);
      assert !LosesLock(Run(d, steps[..n]), steps[n], scope);
      StepKeeps(Run(d, steps[..n]), steps[n], scope);
    }
  }

  // From any lock table, in any run of tool calls one at a time, with claims, refunds and cancels
  // arriving even in the middle of a call: between two releases of a trade every QUOTE_ACCEPT posted
  // for it names one quote, as long as no failing call loses the lock of its own delivered message.
  lemma OneQuotePerTrade(rows: seq<Row>, steps: seq<Step>)
    requires Unique(rows) && Lossless(Desk(rows, Idle, []), steps, Quotes)
    ensures Exclusive(Run(Desk(rows, Idle, []), steps).sent, Quotes)
  {
    RunKeeps(rows, steps, Quotes);
  }

  // And every SWAP_INVITE posted for one offer line names one trade.
  lemma OneTradePerOfferLine(rows: seq<Row>, steps: seq<Step>)
    requires Unique(rows) && Lossless(Desk(rows, Idle, []), steps, Lines)
    ensures Exclusive(Run(Desk(rows, Idle, []), steps).sent, Lines)
  {
    RunKeeps(rows, steps, Lines);
  }

  // Once a lock is lost any other trade is invited to the line, at once.
  lemma LostLineAdmitsOthers(d: Desk, step: Step, other: string, quote: string)
    requires Inv(d, Lines) && LosesLock(d, step, Lines) && other != d.call.trade
    ensures var again := Next(Next(Next(d, step), BeginInvite(d.call.key.offerId, d.call.key.line, other, quote, false)), Post);
      !Exclusive(again.sent, Lines)
  {
    LossFreesSlot(d, step, Lines);
    ClashBreaks(Next(d, step).sent, PostOf(d.call), Posted(d.call.key, other, quote), Lines);
  }

  // And another quote of the trade is accepted, unless a row of an older version still stands for the
  // first one.
  lemma LostTradeAdmitsOthers(d: Desk, step: Step, other: string)
    requires Inv(d, Quotes) && LosesLock(d, step, Quotes) && other != d.call.quote
    ensures var d' := Next(d, step); var again := Next(Next(d', BeginAccept(d.call.trade, other, false)), Post);
      !Exclusive(again.sent, Quotes) <==> OldRowsAllow(d'.rows, d.call.trade, other, 2000)
  {
    LossFreesSlot(d, step, Quotes);
    var d' := Next(d, step);
    FindExactly(d'.rows, d.call.key);
    AcceptExactly(d'.rows, d.call.trade, other);
    if OldRowsAllow(d'.rows, d.call.trade, other, 2000) {
      ClashBreaks(d'.sent, PostOf(d.call), Posted(d.call.key, d.call.trade, other), Quotes);
    } else if !d.call.posted {
      PostKeeps(d, Quotes);
    }
  }

  lemma ClashBreaks(sent: seq<Sent>, p: Sent, q: Sent, scope: Scope)
    requires p.Posted? && q.Posted? && p.slot == q.slot && Live(sent, p) && !Agree(p, q)
    requires InScope(scope, p.slot)
    ensures !Exclusive(sent + [q], scope)
  {
    var i :| 0 <= i < |sent| && sent[i] == p && Released(p.trade) !in sent[i..];
    var all := sent + [q];
    assert all[i] == p && all[|sent|] == q && all[i..|sent|] == sent[i..];
  }

  lemma ClashAfter(sent: seq<Sent>, p: Sent, q: Sent, scope: Scope)
    requires p.Posted? && q.Posted? && p.slot == q.slot && !Agree(p, q) && InScope(scope, p.slot)
    ensures !Exclusive(sent + [p] + [q], scope)
  {
    LiveSnoc(sent, p, p);
    ClashBreaks(sent + [p], p, q, scope);
  }

  // ---------------------------------------------------------------- who gets a lock

  // The newest row of a slot.
  ghost predicate FirstOf(rows: seq<Row>, key: Key, i: int) {
    0 <= i < |rows| && rows[i].key == key && forall j | 0 <= j < i :: rows[j].key != key
  }

  ghost predicate Free(rows: seq<Row>, key: Key) {
    forall i | 0 <= i < |rows| :: rows[i].key != key
  }

  // The slot is held in flight by this trade.
  ghost predicate OwnLock(rows: seq<Row>, key: Key, trade: string, i: int) {
    FirstOf(rows, key, i) && rows[i].state.InFlight? && rows[i].trade == trade && trade != ""
  }

  lemma {:induction false} FindExactly(rows: seq<Row>, key: Key)
    ensures Find(rows, key).None? <==> Free(rows, key)
    ensures forall i | FirstOf(rows, key, i) :: Find(rows, key) == Some(rows[i])
    ensures Find(rows, key).Some? ==> exists i :: FirstOf(rows, key, i)
  {
    if rows != [] {
      FindExactly(rows[1..], key);
      if rows[0].key == key {
        assert FirstOf(rows, key, 0);
      } else {
        forall i ensures FirstOf(rows, key, i) <==> FirstOf(rows[1..], key, i - 1) { }
        if i :| FirstOf(rows[1..], key, i) { assert FirstOf(rows, key, i + 1); }
        assert Free(rows, key) <==> Free(rows[1..], key);
      }
    }
  }

  function TradeCount(rows: seq<Row>, trade: string): nat {
    if rows == [] then 0 else (if rows[0].trade == trade then 1 else 0) + TradeCount(rows[1..], trade)
  }

  // One of the first n rows of the trade, and one that says it is taken.
  ghost predicate Taking(rows: seq<Row>, trade: string, n: int, i: int) {
    && 0 <= i < |rows| && rows[i].trade == trade && TradeCount(rows[..i], trade) < n
    && !rows[i].key.OfferLine? && !rows[i].state.Unknown?
  }

  // The first such row, if there is one, is in flight for this very quote.
  ghost predicate OldRowsAllow(rows: seq<Row>, trade: string, quote: string, n: int) {
    forall i | Taking(rows, trade, n, i) && (forall j | 0 <= j < i :: !Taking(rows, trade, n, j)) ::
      rows[i].state.InFlight? && rows[i].quote == quote && quote != ""
  }

  function FirstRows(rows: seq<Row>, n: int): seq<Row> {
    if n <= 0 then [] else if n < |rows| then rows[..n] else rows
  }

  lemma {:induction false} LegacyExactly(rows: seq<Row>, trade: string, quote: string, n: int)
    ensures LegacyCheck(FirstRows(AllOfTrade(rows, trade), n), quote).Ok? <==> OldRowsAllow(rows, trade, quote, n)
    ensures LegacyCheck(FirstRows(AllOfTrade(rows, trade), n), quote).Ok? ==>
            LegacyCheck(FirstRows(AllOfTrade(rows, trade), n), quote) == Ok(true)
  {
    if rows != [] {
      var m := if rows[0].trade == trade then n - 1 else n;
      var rest, all := FirstRows(AllOfTrade(rows[1..], trade), m), FirstRows(AllOfTrade(rows, trade), n);
      LegacyExactly(rows[1..], trade, quote, m);
      forall i | 0 < i < |rows| ensures Taking(rows, trade, n, i) <==> Taking(rows[1..], trade, m, i - 1) {
        assert rows[..i][1..] == rows[1..][..i - 1];
      }
      if rows[0].trade == trade && n > 0 { assert all[0] == rows[0] && all[1..] == rest; }
      if Taking(rows, trade, n, 0) {
        assert forall i | Taking(rows, trade, n, i) && (forall j | 0 <= j < i :: !Taking(rows, trade, n, j)) :: i == 0;
      } else {
        OldRowsShift(rows, trade, quote, n, m);
      }
    }
  }

  lemma OldRowsShift(rows: seq<Row>, trade: string, quote: string, n: int, m: int)
    requires rows != [] && !Taking(rows, trade, n, 0)
    requires forall i | 0 < i < |rows| :: Taking(rows, trade, n, i) <==> Taking(rows[1..], trade, m, i - 1)
    ensures OldRowsAllow(rows, trade, quote, n) <==> OldRowsAllow(rows[1..], trade, quote, m)
  {
    forall i | 0 <= i < |rows[1..]| ensures Taking(rows[1..], trade, m, i) <==> Taking(rows, trade, n, i + 1) { }
    if OldRowsAllow(rows, trade, quote, n) {
      forall i | Taking(rows[1..], trade, m, i) && (forall j | 0 <= j < i :: !Taking(rows[1..], trade, m, j))
        ensures rows[1..][i].state.InFlight? && rows[1..][i].quote == quote && quote != ""
      {
        assert Taking(rows, trade, n, i + 1);
        forall j | 0 <= j < i + 1 ensures !Taking(rows, trade, n, j) { }
      }
    }
    if OldRowsAllow(rows[1..], trade, quote, m) {
      forall i | Taking(rows, trade, n, i) && (forall j | 0 <= j < i :: !Taking(rows, trade, n, j))
        ensures rows[i].state.InFlight? && rows[i].quote == quote && quote != ""
      {
        assert Taking(rows[1..], trade, m, i - 1);
        forall j | 0 <= j < i - 1 ensures !Taking(rows[1..], trade, m, j) { }
      }
    }
  }

  lemma AvailableExactly(rows: seq<Row>, key: Key, trade: string)
    ensures Available(rows, key, trade) == Ok(None) <==> Free(rows, key)
    ensures forall i | OwnLock(rows, key, trade, i) :: Available(rows, key, trade) == Ok(Some(rows[i]))
    ensures var a := Available(rows, key, trade);
      a.Ok? && a.value.Some? ==> exists i :: OwnLock(rows, key, trade, i) && rows[i] == a.value.value
  {
    FindExactly(rows, key);
    if i :| FirstOf(rows, key, i) {
      assert Find(rows, key) == Some(rows[i]);
      assert OwnLock(rows, key, trade, i) <==> rows[i].state.InFlight? && rows[i].trade == trade && trade != "";
    }
  }

  // A quote_accept that is not refused earlier goes through exactly as a replay, when the trade's slot is
  // held in flight by the trade with this quote, or with a new lock, when the slot is free and the first
  // row of an older version among 2000, if any, is in flight for this quote.
  lemma AcceptExactly(rows: seq<Row>, trade: string, quote: string)
    ensures var r := AcceptCheck(rows, trade, quote);
      && (r == Ok(false) <==> quote != "" && exists i :: OwnLock(rows, RfqTrade(trade), trade, i) && rows[i].quote == quote)
      && (r == Ok(true) <==> Free(rows, RfqTrade(trade)) && OldRowsAllow(rows, trade, quote, 2000))
  {
    AvailableExactly(rows, RfqTrade(trade), trade);
    LegacyExactly(rows, trade, quote, 2000);
    assert ListByTrade(rows, trade) == FirstRows(AllOfTrade(rows, trade), 2000);
  }

  // An invite goes through exactly when the offer line is held in flight by its trade, or is free.
  lemma InviteExactly(rows: seq<Row>, key: Key, trade: string)
    ensures var r := InviteCheck(rows, key, trade);
      && (r == Ok(false) <==> exists i :: OwnLock(rows, key, trade, i))
      && (r == Ok(true) <==> Free(rows, key))
  {
    AvailableExactly(rows, key, trade);
  }

  // The desk after the two steps of a call that goes through: its message is out, its slot is in flight
  // for it if it was free, and every other slot is as before.
  ghost predicate WentOut(d: Desk, d': Desk, key: Key, trade: string, quote: string) {
    && d'.sent == d.sent + [Posted(key, trade, quote)]
    && (Free(d.rows, key) ==> Find(d'.rows, key) == Some(Row(key, trade, InFlight, quote)))
    && (!Free(d.rows, key) ==> d'.rows == d.rows)
    && (forall k | k != key :: Find(d'.rows, k) == Find(d.rows, k))
  }

  lemma AcceptPosts(d: Desk, trade: string, quote: string, refused: bool)
    requires d.call.Idle?
    ensures var d' := Next(Next(d, BeginAccept(trade, quote, refused)), Post);
      if !refused && ((quote != "" && exists i :: OwnLock(d.rows, RfqTrade(trade), trade, i) && d.rows[i].quote == quote) ||
                      (Free(d.rows, RfqTrade(trade)) && OldRowsAllow(d.rows, trade, quote, 2000)))
      then WentOut(d, d', RfqTrade(trade), trade, quote) else d' == d
  {
    AcceptExactly(d.rows, trade, quote);
    BeginWentOut(d, RfqTrade(trade), trade, quote, AcceptCheck(d.rows, trade, quote));
  }

  lemma InvitePosts(d: Desk, offerId: string, line: nat, trade: string, quote: string, refused: bool)
    requires d.call.Idle?
    ensures var d' := Next(Next(d, BeginInvite(offerId, line, trade, quote, refused)), Post); var key := OfferLine(offerId, line);
      if !refused && (Free(d.rows, key) || exists i :: OwnLock(d.rows, key, trade, i))
      then WentOut(d, d', key, trade, quote) else d' == d
  {
    InviteExactly(d.rows, OfferLine(offerId, line), trade);
    BeginWentOut(d, OfferLine(offerId, line), trade, quote, InviteCheck(d.rows, OfferLine(offerId, line), trade));
  }

  lemma BeginWentOut(d: Desk, key: Key, trade: string, quote: string, check: Result<bool>)
    requires d.call.Idle? && (check.Ok? ==> (check.value <==> Free(d.rows, key)))
    ensures var d' := Next(Begin(d, key, trade, quote, check), Post);
      if check.Ok? then WentOut(d, d', key, trade, quote) else d' == d
  {
    var row := Row(key, trade, InFlight, quote);
    forall k ensures Find(Upsert(d.rows, row), k) == if k == key then Some(row) else Find(d.rows, k) { FindUpsert(d.rows, row, k); }
  }

  // How a call ends: finished, its slot is in flight for it; failed, its slot is freed where the call had
  // locked it, unless it is a posted invite's. No other slot changes.
  lemma CallEndsExactly(d: Desk, key: Key, sentAnyway: bool)
    requires d.call.InCall?
    ensures var f := Next(d, Finish);
      if !d.call.posted then f == d
      else f.call.Idle? && f.sent == d.sent
           && Find(f.rows, key) == if key == d.call.key then Some(Row(key, d.call.trade, InFlight, d.call.quote)) else Find(d.rows, key)
    ensures var f := Next(d, Fail(sentAnyway));
      && f.call.Idle?
      && f.sent == d.sent + (if sentAnyway && !d.call.posted then [Posted(d.call.key, d.call.trade, d.call.quote)] else [])
      && Find(f.rows, key) ==
           if key == d.call.key && d.call.created && (key.RfqTrade? || !d.call.posted) then None else Find(d.rows, key)
  {
    FindUpsert(d.rows, Row(d.call.key, d.call.trade, InFlight, d.call.quote), key);
    FindWithout(d.rows, d.call.key, key);
  }

  // A release frees the slots of its trade and no other.
  lemma ReleaseExactly(d: Desk, trade: string, key: Key)
    requires Unique(d.rows) && trade != ""
    ensures var r := Next(d, Terminated(trade)); var row := Find(d.rows, key);
      && r.sent == d.sent + [Released(trade)] && r.call == d.call
      && Find(r.rows, key) == if row.Some? && row.value.trade == trade then None else row
  {
    SlotReleased(d.rows, trade, key);
  }

  // A claim changes no lock of another trade, and of its own nothing but the state.
  lemma ClaimKeepsOthers(d: Desk, trade: string, key: Key)
    requires Unique(d.rows)
    ensures var c := Next(d, Claimed(trade)); var row := Find(d.rows, key);
      && c.sent == d.sent && c.call == d.call
      && SameButState(row, Find(c.rows, key))
      && (row.Some? && row.value.trade != trade ==> Find(c.rows, key) == row)
  {
    FilledKeeps(d.rows, trade, key);
    if trade != "" {
      AllOfTradeSound(d.rows, trade);
      var all, listed := AllOfTrade(d.rows, trade), ListByTrade(d.rows, trade);
      assert forall r | r in listed :: r in all;
      if Find(d.rows, key).Some? && Find(d.rows, key).value.trade != trade { FillElsewhere(d.rows, listed, key); }
    }
  }

  lemma {:induction false} FillElsewhere(rows: seq<Row>, listed: seq<Row>, key: Key)
    requires Unique(rows) && Unique(listed) && (forall r | r in listed :: r in rows)
    requires Find(rows, key).Some? && forall r | r in listed :: r.trade != Find(rows, key).value.trade
    ensures Find(FillAll(rows, listed), key) == Find(rows, key)
    decreases |listed|
  {
    if listed != [] {
      FillOne(rows, listed);
      FindMember(rows, listed[0]);
      FindUpsert(rows, listed[0].(state := Filled), key);
      FillElsewhere(Upsert(rows, listed[0].(state := Filled)), listed[1..], key);
    }
  }

  // ---------------------------------------------------------------- filled locks

  predicate IsFilled(rows: seq<Row>, key: Key, trade: string) {
    var row := Find(rows, key);
    row.Some? && row.value.state.Filled? && row.value.trade == trade
  }

  // What can take a filled lock away: the release of its trade, or the end of a call on that slot which
  // had passed its check before the lock was filled.
  predicate Unfills(d: Desk, step: Step, key: Key, trade: string) {
    || (step == Terminated(trade) && trade != "")
    || (step.Finish? && d.call.InCall? && d.call.posted && d.call.key == key)
    || (step.Fail? && Unlocks(d.call) && d.call.key == key)
  }

  // Only such a call still posts.
  predicate PostsOn(d: Desk, step: Step, key: Key) {
    d.call.InCall? && !d.call.posted && d.call.key == key && (step.Post? || (step.Fail? && step.sentAnyway))
  }

  lemma FilledStep(d: Desk, step: Step, key: Key, trade: string)
    requires Unique(d.rows) && IsFilled(d.rows, key, trade)
    ensures var d' := Next(d, step);
      && (IsFilled(d'.rows, key, trade) <==> !Unfills(d, step, key, trade))
      && (d'.call.InCall? && d'.call.key == key ==> d.call.InCall? && d.call.key == key)
  {
    match step
    case BeginAccept(t, quote, _) => BeginElsewhere(d, RfqTrade(t), t, quote, AcceptCheck(d.rows, t, quote), key);
    case BeginInvite(o, n, t, quote, _) =>
      BeginElsewhere(d, OfferLine(o, n), t, quote, InviteCheck(d.rows, OfferLine(o, n), t), key);
    case Post =>
    case Finish => if d.call.InCall? && d.call.posted { FindUpsert(d.rows, InFlightRow(d.call), key); }
    case Fail(_) => if d.call.InCall? { FindWithout(d.rows, d.call.key, key); }
    case Claimed(t) => FilledKeeps(d.rows, t, key);
    case Terminated(t) => SlotReleased(d.rows, t, key);
  }

  lemma UniqueStep(d: Desk, step: Step)
    requires Unique(d.rows)
    ensures Unique(Next(d, step).rows)
  {
    match step
    case BeginAccept(t, quote, _) => UpsertUnique(d.rows, Row(RfqTrade(t), t, InFlight, quote));
    case BeginInvite(o, n, t, quote, _) => UpsertUnique(d.rows, Row(OfferLine(o, n), t, InFlight, quote));
    case Post =>
    case Finish => if d.call.InCall? { UpsertUnique(d.rows, InFlightRow(d.call)); }
    case Fail(_) => if d.call.InCall? { WithoutKeys(d.rows, d.call.key); }
    case Claimed(t) => FilledKeeps(d.rows, t, Rfq(""));
    case Terminated(t) => DeletedUnique(d.rows, t);
  }

  lemma SentStep(d: Desk, step: Step, key: Key)
    ensures var sent := Next(d, step).sent;
      && (sent == d.sent || (|sent| == |d.sent| + 1 && sent[..|d.sent|] == d.sent))
      && ((sent != d.sent && sent[|d.sent|].Posted? && sent[|d.sent|].slot == key) <==> PostsOn(d, step, key))
  {
    match step
    case Fail(_) =>
    case _ =>
  }

  lemma BeginElsewhere(d: Desk, own: Key, trade: string, quote: string, check: Result<bool>, key: Key)
    requires check.Ok? ==> own != key
    ensures var d' := Begin(d, own, trade, quote, check);
      && Find(d'.rows, key) == Find(d.rows, key)
      && (d'.call.InCall? && d'.call.key == key ==> d.call.InCall? && d.call.key == key)
  {
    var row := InFlightRow(InCall(own, trade, quote, true, false));
    FindUpsert(d.rows, row, key);
  }

  lemma {:induction false} FilledUntilReleased(d: Desk, steps: seq<Step>, key: Key, trade: string)
    requires Unique(d.rows) && IsFilled(d.rows, key, trade) && !(d.call.InCall? && d.call.key == key)
    requires Terminated(trade) !in steps
    ensures var d' := Run(d, steps);
      && Unique(d'.rows) && IsFilled(d'.rows, key, trade) && !(d'.call.InCall? && d'.call.key == key)
      && |d.sent| <= |d'.sent| && d'.sent[..|d.sent|] == d.sent
      && forall i | |d.sent| <= i < |d'.sent| :: !(d'.sent[i].Posted? && d'.sent[i].slot == key)
  {
    if steps != [] {
      var n := |steps| - 1;
      assert steps == steps[..n] + [steps[n]];
      FilledUntilReleased(d, steps[..n], key, trade);
      UniqueStep(Run(d, steps[..n]), steps[n]);
      FilledStep(Run(d, steps[..n]), steps[n], key, trade);
      SentStep(Run(d, steps[..n]), steps[n], key);
    }
  }

  // A claim fills every lock of the trade, as far as the listing limit goes.
  lemma ClaimFills(d: Desk, trade: string, row: Row)
    requires Unique(d.rows) && trade != "" && row in ListByTrade(d.rows, trade)
    ensures IsFilled(Next(d, Claimed(trade)).rows, row.key, trade)
  {
    AllOfTradeSound(d.rows, trade);
    var all, listed := AllOfTrade(d.rows, trade), ListByTrade(d.rows, trade);
    assert forall r | r in listed :: r in all;
    var i :| 0 <= i < |listed| && listed[i] == row;
    FillAllFills(d.rows, listed, i);
  }

  // ---------------------------------------------------------------- where the hypotheses are needed

  // A send that reaches the network although the call fails leaves the slot open: a second quote of
  // the same trade is then accepted.
  lemma LostReplyAdmitsSecondQuote(d: Desk, trade: string, first: string, second: string)
    requires d.call.Idle? && first != second
    requires Free(d.rows, RfqTrade(trade)) && OldRowsAllow(d.rows, trade, first, 2000) && OldRowsAllow(d.rows, trade, second, 2000)
    ensures
      var begun := Next(d, BeginAccept(trade, first, false));
      var failed := Next(begun, Fail(true));
      var again := Next(Next(failed, BeginAccept(trade, second, false)), Post);
      && again.sent == d.sent + [Posted(RfqTrade(trade), trade, first), Posted(RfqTrade(trade), trade, second)]
      && !Exclusive(again.sent, Quotes)
  {
    var slot := RfqTrade(trade);
    FindExactly(d.rows, slot);
    WithoutNone(d.rows, slot);
    AcceptExactly(d.rows, trade, first);
    AcceptExactly(d.rows, trade, second);
    var begun := Next(d, BeginAccept(trade, first, false));
    assert Without(begun.rows, slot) == Without(d.rows, slot) by { WithoutTwice(d.rows, slot); }
    var failed := Next(begun, Fail(true));
    var again := Next(Next(failed, BeginAccept(trade, second, false)), Post);
    var p, q := Posted(slot, trade, first), Posted(slot, trade, second);
    ClashAfter(d.sent, p, q, Quotes);
    assert again.sent == d.sent + [p, q] == d.sent + [p] + [q];
  }

  lemma WithoutTwice(rows: seq<Row>, key: Key)
    ensures Without(Without(rows, key), key) == Without(rows, key)
  {
  }

  // A release between an invite's lock and its post, then a failure after the post: the offer line is
  // left unlocked with a live invite on it, and another trade is invited to it.
  lemma InterruptedInviteLosesLock(d: Desk, offerId: string, line: nat, first: string, second: string, quote: string)
    requires d.call.Idle? && first != second && first != "" && Find(d.rows, OfferLine(offerId, line)) == None
    ensures
      var begun := Next(d, BeginInvite(offerId, line, first, quote, false));
      var left := Next(Next(Next(begun, Terminated(first)), Post), Fail(false));
      var again := Next(Next(left, BeginInvite(offerId, line, second, quote, false)), Post);
      && again.sent == d.sent + [Released(first), Posted(OfferLine(offerId, line), first, quote),
                                 Posted(OfferLine(offerId, line), second, quote)]
      && !Exclusive(again.sent, Lines)
  {
    var slot := OfferLine(offerId, line);
    var begun := Next(d, BeginInvite(offerId, line, first, quote, false));
    WithoutNone(d.rows, slot);
    assert begun.rows[1..] == d.rows;
    DeleteKeepsNone(d.rows, first, slot);
    var left := Next(Next(Next(begun, Terminated(first)), Post), Fail(false));
    assert left.call.Idle? && Find(left.rows, slot) == None;
    var p, q, sent := Posted(slot, first, quote), Posted(slot, second, quote), d.sent + [Released(first)];
    assert left.sent == sent + [p];
    InviteOnFree(left, offerId, line, second, quote);
    ClashAfter(sent, p, q, Lines);
    assert sent + [p] + [q] == d.sent + [Released(first), p, q];
  }

  lemma InviteOnFree(d: Desk, offerId: string, line: nat, trade: string, quote: string)
    requires d.call.Idle? && Find(d.rows, OfferLine(offerId, line)) == None
    ensures Next(Next(d, BeginInvite(offerId, line, trade, quote, false)), Post).sent
         == d.sent + [Posted(OfferLine(offerId, line), trade, quote)]
  {
  }

  lemma WithoutNone(rows: seq<Row>, key: Key)
    requires Find(rows, key) == None
    ensures Without(rows, key) == rows
  {
  }

  lemma DeleteKeepsNone(rows: seq<Row>, trade: string, key: Key)
    requires Find(rows, key) == None
    ensures Find(DeleteByTrade(rows, trade), key) == None
  {
  }

  // A claim seen while the trade's own call is finishing is overwritten: the lock is in flight again.
  lemma FinishOverwritesFilled(d: Desk, trade: string)
    requires d.call.InCall? && d.call.posted && d.call.trade == trade
    ensures var row := Find(Next(Next(d, Claimed(trade)), Finish).rows, d.call.key);
      row.Some? && row.value.state.InFlight?
  {
    FindUpsert(MarkFilled(d.rows, trade), InFlightRow(d.call), d.call.key);
  }

  // ---------------------------------------------------------------- the tool calls over the store

  class Tools {
    var locks: seq<Row>
    var call: Call
    var sent: seq<Sent>

    ghost function Snapshot(): Desk
      reads this
    {
      Desk(locks, call, sent)
    }

    constructor (rows: seq<Row>)
      ensures Snapshot() == Desk(rows, Idle, [])
    {
      locks, call, sent := rows, Idle, [];
    }

    // quote_accept up to its lock; refused says whether an earlier check already turned it down.
    method QuoteAcceptLock(trade: string, quote: string, refused: bool) returns (r: Result<bool>)
      requires call.Idle?
      modifies this
      ensures Snapshot() == Next(old(Snapshot()), BeginAccept(trade, quote, refused))
      ensures r == if refused then Err("listing in-flight or terminal") else AcceptCheck(old(locks), trade, quote)
    {
      if refused { return Err("listing in-flight or terminal"); }
      var key := RfqTrade(trade);
      var own := Available(locks, key, trade);
      if own.Err? { return Err(own.error); }
      var created := own.value.None?;
      if !created {
        var row := own.value.value;
        if row.quote == "" || row.quote != quote { return Err("listing_in_progress"); }
      } else {
        var rows := ListByTrade(locks, trade);
        var i := 0;
        while i < |rows|
          invariant 0 <= i <= |rows|
          invariant LegacyCheck(rows, quote) == LegacyCheck(rows[i..], quote)
        {
          var row := rows[i];
          if !row.key.OfferLine? && !row.state.Unknown? {
            if row.state.Filled? { return Err("listing_filled"); }
            if row.quote == "" || row.quote != quote { return Err("listing_in_progress"); }
            break;
          }
          i := i + 1;
        }
        locks := Upsert(locks, Row(key, trade, InFlight, quote));
      }
      call := InCall(key, trade, quote, created, false);
      r := Ok(created);
    }

    method SwapInviteLock(offerId: string, line: nat, trade: string, quote: string, refused: bool) returns (r: Result<bool>)
      requires call.Idle?
      modifies this
      ensures Snapshot() == Next(old(Snapshot()), BeginInvite(offerId, line, trade, quote, refused))
      ensures r == if refused then Err("listing in-flight or terminal")
                   else InviteCheck(old(locks), OfferLine(offerId, line), trade)
    {
      if refused { return Err("listing in-flight or terminal"); }
      var key := OfferLine(offerId, line);
      var own := Available(locks, key, trade);
      if own.Err? { return Err(own.error); }
      if own.value.None? {
        locks := Upsert(locks, Row(key, trade, InFlight, quote));
      }
      call := InCall(key, trade, quote, own.value.None?, false);
      r := Ok(own.value.None?);
    }

    method SendEnvelope()
      requires call.InCall? && !call.posted
      modifies this
      ensures Snapshot() == Next(old(Snapshot()), Post)
    {
      sent := sent + [Posted(call.key, call.trade, call.quote)];
      call := call.(posted := true);
    }

    method FinishCall()
      requires call.InCall? && call.posted
      modifies this
      ensures Snapshot() == Next(old(Snapshot()), Finish)
    {
      locks := Upsert(locks, Row(call.key, call.trade, InFlight, call.quote));
      call := Idle;
    }

    // The catch branches: a lock this call created goes, unless it is an invite's and the invite was posted.
    method CatchError()
      requires call.InCall?
      modifies this
      ensures Snapshot() == Next(old(Snapshot()), Fail(false))
    {
      if call.created && (call.key.RfqTrade? || !call.posted) {
        locks := Without(locks, call.key);
      }
      call := Idle;
    }

    method MarkListingLocksFilledByTrade(trade: string)
      modifies this
      ensures Snapshot() == Next(old(Snapshot()), Claimed(trade))
    {
      if trade == "" { return; }
      var rows := ListByTrade(locks, trade);
      ghost var all := FillAll(locks, rows);
      var i := 0;
      while i < |rows|
        invariant 0 <= i <= |rows|
        invariant FillAll(locks, rows[i..]) == all
        invariant call == old(call) && sent == old(sent)
      {
        assert rows[i..][1..] == rows[i + 1..];
        locks := Upsert(locks, rows[i].(state := Filled));
        i := i + 1;
      }
    }

    method ReleaseListingLocksByTrade(trade: string)
      modifies this
      ensures Snapshot() == Next(old(Snapshot()), Terminated(trade))
    {
      if trade == "" { return; }
      locks := DeleteByTrade(locks, trade);
      sent := sent + [Released(trade)];
    }
  }
}
