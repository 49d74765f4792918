// Repair of the offer_post arguments a language model wrote: times and amounts turned into the form
// the tool takes, misspelt names of offer fields corrected, and offer fields given at the top level
// moved into the first offer. Every repair leaves values that need none alone, and repairing twice
// changes nothing more.

module ToolRepair {

  import opened Prelude
  import opened JsText
  import opened AtomicAmount

  // Property names the repair knows, and any other.
  datatype Key =
    | TtlSec | ValidUntilUnix | Channel | Channels | Offers
    | Pair | Have | Want | BtcSats | UsdtAmount | TaoAmountAtomic | SettlementKind
    | MaxPlatformFeeBps | MaxTradeFeeBps | MaxTotalFeeBps
    | MinSolRefundWindowSec | MaxSolRefundWindowSec | SettlementRefundAfterSec
    | MaxTradeFeeB | MaxTradeFeeBp | MaxPlatformFeeB | MaxPlatformFeeBp | MaxTotalFeeB | MaxTotalFeeBp
    | MinSolRefundSec | MaxSolRefundSec | MinSolRefundWindow | MaxSolRefundWindow | RefundAfterSec
    | SolRefundWindowSec
    | Other(name: string)

  // A JSON value. Int is a non-negative integer that prints without an exponent; any other number is
  // a Real, with what toFixed makes of it at the two precisions in use.
  datatype Json =
    | Null
    | Bool(b: bool)
    | Int(n: nat)
    | Real(fixed0: string, fixed6: string)
    | Str(s: string)
    | Arr(items: seq<Json>)
    | Obj(fields: map<Key, Json>)

  type Fields = map<Key, Json>

  const MAX_SAFE_INTEGER := 9007199254740991

  // ---------------------------------------------------------------- amounts

  function FromText(s: string, decimals: nat): Json {
    match Atomic(s, decimals)
    case Some(t) => Str(t)
    case None => Str(s)
  }

  function ToAtomic(v: Json, decimals: nat): Json {
    match v
    case Int(n) => Str(Decimal(n))
    case Real(fixed0, fixed6) => FromText(if decimals == 0 then fixed0 else fixed6, decimals)
    case Str(s) => FromText(s, decimals)
    case _ => v
  }

  lemma FromTextTwice(s: string, decimals: nat)
    ensures ToAtomic(FromText(s, decimals), decimals) == FromText(s, decimals)
  {
    AtomicIsNumeral(s, decimals);
    if Atomic(s, decimals).Some? { NumeralFixed(Atomic(s, decimals).value, decimals); }
  }

  // Converting twice changes nothing more.
  lemma AtomicTwice(v: Json, decimals: nat)
    ensures ToAtomic(ToAtomic(v, decimals), decimals) == ToAtomic(v, decimals)
  {
    match v
    case Int(n) =>
      DecimalRoundTrip(n);
      NumeralFixed(Decimal(n), decimals);
    case Real(fixed0, fixed6) => FromTextTwice(if decimals == 0 then fixed0 else fixed6, decimals);
    case Str(s) => FromTextTwice(s, decimals);
    case _ =>
  }

  // ---------------------------------------------------------------- safe integers

  function CoerceSafeInt(v: Json): Json {
    if v.Str? && IsNumeral(Trim(v.s)) && DecimalValue(Trim(v.s)) <= MAX_SAFE_INTEGER then Int(DecimalValue(Trim(v.s))) else v
  }

  // ---------------------------------------------------------------- one offer

  const RENAMES: seq<(Key, Key)> := [
    (MaxTradeFeeB, MaxTradeFeeBps), (MaxTradeFeeBp, MaxTradeFeeBps),
    (MaxPlatformFeeB, MaxPlatformFeeBps), (MaxPlatformFeeBp, MaxPlatformFeeBps),
    (MaxTotalFeeB, MaxTotalFeeBps), (MaxTotalFeeBp, MaxTotalFeeBps),
    (MinSolRefundSec, MinSolRefundWindowSec), (MaxSolRefundSec, MaxSolRefundWindowSec),
    (MinSolRefundWindow, MinSolRefundWindowSec), (MaxSolRefundWindow, MaxSolRefundWindowSec),
    (RefundAfterSec, SettlementRefundAfterSec)]

  // A misspelt name gives way to the right one where both are present.
  function Rename<K, V>(m: map<K, V>, from: K, to: K): map<K, V> {
    if from !in m then m else if to in m then m - {from} else m[to := m[from]] - {from}
  }

  function RenameAll(m: Fields, pairs: seq<(Key, Key)>): Fields
    decreases |pairs|
  {
    if pairs == [] then m else RenameAll(Rename(m, pairs[0].0, pairs[0].1), pairs[1..])
  }

  function SpreadWindow(m: Fields): Fields {
    if SolRefundWindowSec in m && MinSolRefundWindowSec !in m && MaxSolRefundWindowSec !in m then
      m[MinSolRefundWindowSec := m[SolRefundWindowSec]][MaxSolRefundWindowSec := m[SolRefundWindowSec]] - {SolRefundWindowSec}
    else m
  }

  predicate IsIntKey(k: Key) {
    k.MaxPlatformFeeBps? || k.MaxTradeFeeBps? || k.MaxTotalFeeBps? || k.MinSolRefundWindowSec? || k.MaxSolRefundWindowSec? ||
    k.SettlementRefundAfterSec?
  }

  function Fix(k: Key, v: Json): Json {
    if IsIntKey(k) then CoerceSafeInt(v)
    else if k.UsdtAmount? then ToAtomic(v, 6)
    else if k.TaoAmountAtomic? then ToAtomic(v, 0)
    else v
  }

  // A value replaced where the property is present.
  function Over<K, V>(m: map<K, V>, k: K, f: (K, V) -> V): map<K, V> {
    if k in m then m[k := f(k, m[k])] else m
  }

  function OverAll(m: Fields, keys: seq<Key>, f: (Key, Json) -> Json): Fields
    decreases |keys|
  {
    if keys == [] then m else OverAll(Over(m, keys[0], f), keys[1..], f)
  }

  const FIXED_KEYS: seq<Key> := [
    MaxPlatformFeeBps, MaxTradeFeeBps, MaxTotalFeeBps, MinSolRefundWindowSec, MaxSolRefundWindowSec, SettlementRefundAfterSec,
    UsdtAmount, TaoAmountAtomic]

  predicate IsFixedKey(k: Key) {
    IsIntKey(k) || k.UsdtAmount? || k.TaoAmountAtomic?
  }

  lemma OverOne(m: Fields, j: Key, f: (Key, Json) -> Json, k: Key)
    ensures k in Over(m, j, f) <==> k in m
    ensures k in m ==> Over(m, j, f)[k] == if k == j then f(k, m[k]) else m[k]
  {
  }

  lemma {:induction false} OverKeys(m: Fields, keys: seq<Key>, f: (Key, Json) -> Json, k: Key)
    requires forall i, j | 0 <= i < j < |keys| :: keys[i] != keys[j]
    ensures k in OverAll(m, keys, f) <==> k in m
    ensures k in m ==> OverAll(m, keys, f)[k] == if k in keys then f(k, m[k]) else m[k]
    decreases |keys|
  {
    if keys != [] {
      OverOne(m, keys[0], f, k);
      OverKeys(Over(m, keys[0], f), keys[1..], f, k);
      assert keys == [keys[0]] + keys[1..];
      assert forall j | 0 <= j < |keys[1..]| :: keys[1..][j] == keys[j + 1] && keys[j + 1] != keys[0];
    }
  }

  lemma FixedKeysDistinct(i: nat, j: nat)
    requires i < j < |FIXED_KEYS|
    ensures FIXED_KEYS[i] != FIXED_KEYS[j]
  {
  }

  lemma FixedKeysAre(k: Key)
    ensures k in FIXED_KEYS <==> IsFixedKey(k)
  {
    assert FIXED_KEYS[0] == MaxPlatformFeeBps && FIXED_KEYS[1] == MaxTradeFeeBps && FIXED_KEYS[2] == MaxTotalFeeBps;
    assert FIXED_KEYS[3] == MinSolRefundWindowSec && FIXED_KEYS[4] == MaxSolRefundWindowSec && FIXED_KEYS[5] == SettlementRefundAfterSec;
    assert FIXED_KEYS[6] == UsdtAmount && FIXED_KEYS[7] == TaoAmountAtomic;
  }

  lemma OverAt(m: Fields, k: Key)
    ensures k in OverAll(m, FIXED_KEYS, Fix) <==> k in m
    ensures k in m ==> OverAll(m, FIXED_KEYS, Fix)[k] == if IsFixedKey(k) then Fix(k, m[k]) else m[k]
  {
    forall i, j | 0 <= i < j < |FIXED_KEYS| ensures FIXED_KEYS[i] != FIXED_KEYS[j] { FixedKeysDistinct(i, j); }
    FixedKeysAre(k);
    OverKeys(m, FIXED_KEYS, Fix, k);
  }

  function RepairOffer(m: Fields): Fields {
    OverAll(SpreadWindow(RenameAll(m, RENAMES)), FIXED_KEYS, Fix)
  }

  // An object whose properties are changed in place.
  class Record<K(==), V> {
    var fields: map<K, V>

    constructor (fields: map<K, V>)
      ensures this.fields == fields
    {
      this.fields := fields;
    }

    method RenameKey(from: K, to: K)
      modifies this
      ensures fields == Rename(old(fields), from, to)
    {
      if from !in fields { return; }
      if to in fields {
        fields := fields - {from};
        return;
      }
      fields := fields[to := fields[from]];
      fields := fields - {from};
    }

    method FixKey(k: K, f: (K, V) -> V)
      modifies this
      ensures fields == Over(old(fields), k, f)
    {
      if k in fields { fields := fields[k := f(k, fields[k])]; }
    }
  }

  // The eleven renames in the order of the table.
  method RenameFields(offer: Record<Key, Json>)
    modifies offer
    ensures offer.fields == RenameAll(old(offer.fields), RENAMES)
  {
    offer.RenameKey(MaxTradeFeeB, MaxTradeFeeBps);
    offer.RenameKey(MaxTradeFeeBp, MaxTradeFeeBps);
    offer.RenameKey(MaxPlatformFeeB, MaxPlatformFeeBps);
    offer.RenameKey(MaxPlatformFeeBp, MaxPlatformFeeBps);
    offer.RenameKey(MaxTotalFeeB, MaxTotalFeeBps);
    offer.RenameKey(MaxTotalFeeBp, MaxTotalFeeBps);
    offer.RenameKey(MinSolRefundSec, MinSolRefundWindowSec);
    offer.RenameKey(MaxSolRefundSec, MaxSolRefundWindowSec);
    offer.RenameKey(MinSolRefundWindow, MinSolRefundWindowSec);
    offer.RenameKey(MaxSolRefundWindow, MaxSolRefundWindowSec);
    offer.RenameKey(RefundAfterSec, SettlementRefundAfterSec);
  }

  method FixFields(offer: Record<Key, Json>)
    modifies offer
    ensures offer.fields == OverAll(old(offer.fields), FIXED_KEYS, Fix)
  {
    offer.FixKey(MaxPlatformFeeBps, Fix);
    offer.FixKey(MaxTradeFeeBps, Fix);
    offer.FixKey(MaxTotalFeeBps, Fix);
    offer.FixKey(MinSolRefundWindowSec, Fix);
    offer.FixKey(MaxSolRefundWindowSec, Fix);
    offer.FixKey(SettlementRefundAfterSec, Fix);
    offer.FixKey(UsdtAmount, Fix);
    offer.FixKey(TaoAmountAtomic, Fix);
  }

  method RepairOfferFields(offer: Record<Key, Json>)
    modifies offer
    ensures offer.fields == RepairOffer(old(offer.fields))
  {
    RenameFields(offer);
    if SolRefundWindowSec in offer.fields && MinSolRefundWindowSec !in offer.fields && MaxSolRefundWindowSec !in offer.fields {
      var window := offer.fields[SolRefundWindowSec];
      offer.fields := offer.fields[MinSolRefundWindowSec := window][MaxSolRefundWindowSec := window] - {SolRefundWindowSec};
    }
    FixFields(offer);
  }

  // ---------------------------------------------------------------- repairing an offer twice

  predicate IsAlias(k: Key) {
    k.MaxTradeFeeB? || k.MaxTradeFeeBp? || k.MaxPlatformFeeB? || k.MaxPlatformFeeBp? || k.MaxTotalFeeB? || k.MaxTotalFeeBp? ||
    k.MinSolRefundSec? || k.MaxSolRefundSec? || k.MinSolRefundWindow? || k.MaxSolRefundWindow? || k.RefundAfterSec?
  }

  lemma TablePairs(i: nat)
    requires i < |RENAMES|
    ensures IsAlias(RENAMES[i].0) && IsIntKey(RENAMES[i].1)
  {
  }

  // One rename, seen from a key that is not an alias, and from an alias.
  lemma RenameOne(m: Fields, from: Key, to: Key, k: Key)
    requires from != to
    ensures k != from && k in m ==> k in Rename(m, from, to) && Rename(m, from, to)[k] == m[k]
    ensures k == from ==> k !in Rename(m, from, to)
    ensures k != to && k !in m ==> k !in Rename(m, from, to)
  {
  }

  ghost predicate GoodTable(pairs: seq<(Key, Key)>) {
    forall i | 0 <= i < |pairs| :: IsAlias(pairs[i].0) && IsIntKey(pairs[i].1)
  }

  lemma {:induction false} RightNamesKept(m: Fields, pairs: seq<(Key, Key)>, k: Key)
    requires GoodTable(pairs) && !IsAlias(k) && k in m
    ensures k in RenameAll(m, pairs) && RenameAll(m, pairs)[k] == m[k]
    decreases |pairs|
  {
    if pairs != [] {
      RenameOne(m, pairs[0].0, pairs[0].1, k);
      RightNamesKept(Rename(m, pairs[0].0, pairs[0].1), pairs[1..], k);
    }
  }

  lemma {:induction false} AliasStaysAway(m: Fields, pairs: seq<(Key, Key)>, k: Key)
    requires GoodTable(pairs) && IsAlias(k) && k !in m
    ensures k !in RenameAll(m, pairs)
    decreases |pairs|
  {
    if pairs != [] {
      RenameOne(m, pairs[0].0, pairs[0].1, k);
      AliasStaysAway(Rename(m, pairs[0].0, pairs[0].1), pairs[1..], k);
    }
  }

  lemma {:induction false} AliasGone(m: Fields, pairs: seq<(Key, Key)>, i: nat)
    requires GoodTable(pairs) && i < |pairs|
    ensures pairs[i].0 !in RenameAll(m, pairs)
    decreases |pairs|
  {
    var next := Rename(m, pairs[0].0, pairs[0].1);
    if i == 0 {
      RenameOne(m, pairs[0].0, pairs[0].1, pairs[0].0);
      AliasStaysAway(next, pairs[1..], pairs[0].0);
    } else {
      AliasGone(next, pairs[1..], i - 1);
    }
  }

  lemma TableGood()
    ensures GoodTable(RENAMES)
  {
    forall i | 0 <= i < |RENAMES| ensures IsAlias(RENAMES[i].0) && IsIntKey(RENAMES[i].1) { TablePairs(i); }
  }

  lemma {:induction false} NothingToRename(m: Fields, pairs: seq<(Key, Key)>)
    requires forall i | 0 <= i < |pairs| :: pairs[i].0 !in m
    ensures RenameAll(m, pairs) == m
    decreases |pairs|
  {
    if pairs != [] { NothingToRename(m, pairs[1..]); }
  }

  lemma FixTwice(k: Key, v: Json)
    ensures Fix(k, Fix(k, v)) == Fix(k, v)
  {
    if IsIntKey(k) {
      assert Fix(k, v) == CoerceSafeInt(v);
    } else if k.UsdtAmount? {
      assert Fix(k, v) == ToAtomic(v, 6);
      AtomicTwice(v, 6);
    } else if k.TaoAmountAtomic? {
      assert Fix(k, v) == ToAtomic(v, 0);
      AtomicTwice(v, 0);
    }
  }

  ghost predicate NoAlias(m: Fields) {
    forall i | 0 <= i < |RENAMES| :: RENAMES[i].0 !in m
  }

  // No alias is left, and the window name only where a bound of its own stands beside it.
  ghost predicate Settled(m: Fields) {
    NoAlias(m) && (SolRefundWindowSec in m ==> MinSolRefundWindowSec in m || MaxSolRefundWindowSec in m)
  }

  lemma RenamedNoAlias(m: Fields)
    ensures NoAlias(RenameAll(m, RENAMES))
  {
    TableGood();
    forall i | 0 <= i < |RENAMES| ensures RENAMES[i].0 !in RenameAll(m, RENAMES) { AliasGone(m, RENAMES, i); }
  }

  lemma SpreadSettled(m: Fields)
    requires NoAlias(m)
    ensures Settled(SpreadWindow(m))
  {
    forall i | 0 <= i < |RENAMES| ensures RENAMES[i].0 !in SpreadWindow(m) {
      TablePairs(i);
    }
  }

  lemma RenamedSettled(m: Fields)
    ensures Settled(SpreadWindow(RenameAll(m, RENAMES)))
  {
    RenamedNoAlias(m);
    SpreadSettled(RenameAll(m, RENAMES));
  }

  lemma SettledStays(m: Fields)
    requires Settled(m)
    ensures SpreadWindow(RenameAll(m, RENAMES)) == m
  {
    NothingToRename(m, RENAMES);
  }

  lemma SettledOver(m: Fields)
    requires Settled(m)
    ensures Settled(OverAll(m, FIXED_KEYS, Fix)) && OverAll(OverAll(m, FIXED_KEYS, Fix), FIXED_KEYS, Fix) == OverAll(m, FIXED_KEYS, Fix)
  {
    var r := OverAll(m, FIXED_KEYS, Fix);
    forall i | 0 <= i < |RENAMES| ensures RENAMES[i].0 !in r { OverAt(m, RENAMES[i].0); }
    OverAt(m, SolRefundWindowSec);
    OverAt(m, MinSolRefundWindowSec);
    OverAt(m, MaxSolRefundWindowSec);
    OverTwice(m);
  }

  lemma OverTwice(m: Fields)
    ensures OverAll(OverAll(m, FIXED_KEYS, Fix), FIXED_KEYS, Fix) == OverAll(m, FIXED_KEYS, Fix)
  {
    var r := OverAll(m, FIXED_KEYS, Fix);
    var rr := OverAll(r, FIXED_KEYS, Fix);
    forall k ensures (k in rr <==> k in r) && (k in r ==> rr[k] == r[k]) {
      OverAt(m, k);
      OverAt(r, k);
      if k in m { FixTwice(k, m[k]); }
    }
    assert rr == r;
  }

  // Repairing a repaired offer changes nothing.
  lemma OfferTwice(m: Fields)
    ensures RepairOffer(RepairOffer(m)) == RepairOffer(m)
  {
    var s := SpreadWindow(RenameAll(m, RENAMES));
    RenamedSettled(m);
    SettledOver(s);
    SettledStays(OverAll(s, FIXED_KEYS, Fix));
  }

  lemma SpreadKeeps(m: Fields, k: Key)
    requires k in m && k != SolRefundWindowSec
    ensures k in SpreadWindow(m) && SpreadWindow(m)[k] == m[k]
  {
  }

  // A value under its right name is kept, whatever else is renamed onto it.
  lemma OfferKeeps(m: Fields, k: Key)
    requires k in m && !IsAlias(k) && k != SolRefundWindowSec
    ensures k in RepairOffer(m) && RepairOffer(m)[k] == if IsFixedKey(k) then Fix(k, m[k]) else m[k]
  {
    TableGood();
    RightNamesKept(m, RENAMES, k);
    SpreadKeeps(RenameAll(m, RENAMES), k);
    OverAt(SpreadWindow(RenameAll(m, RENAMES)), k);
  }

  // ---------------------------------------------------------------- offer_post arguments

  const OFFER_KEYS: seq<Key> := [
    Pair, Have, Want, BtcSats, UsdtAmount, TaoAmountAtomic, SettlementKind, MaxPlatformFeeBps, MaxTradeFeeBps, MaxTotalFeeBps,
    MinSolRefundWindowSec, MaxSolRefundWindowSec, SettlementRefundAfterSec]

  function FixTime(k: Key, v: Json): Json {
    CoerceSafeInt(v)
  }

  function CoerceTimes(m: Fields): Fields {
    Over(Over(m, TtlSec, FixTime), ValidUntilUnix, FixTime)
  }

  predicate Given(m: Fields, k: Key) {
    k in m && !m[k].Null?
  }

  // A relative time is preferred to an absolute one.
  function PreferTtl(m: Fields): Fields {
    if Given(m, TtlSec) && Given(m, ValidUntilUnix) then m - {ValidUntilUnix} else m
  }

  predicate SingularChannel(m: Fields) {
    !(Channels in m && m[Channels].Arr?) && Channel in m && m[Channel].Str? && Trim(m[Channel].s) != ""
  }

  function PluralChannels(m: Fields): Fields {
    if SingularChannel(m) then m[Channels := Arr([Str(Trim(m[Channel].s))])] - {Channel} else m
  }

  // The offer keys left at the top level.
  function Flattened(m: Fields): Fields {
    map k | k in m && k in OFFER_KEYS :: m[k]
  }

  predicate HasHead(m: Fields) {
    Offers in m && m[Offers].Arr? && m[Offers].items != [] && m[Offers].items[0].Obj?
  }

  // What the first offer says already; nothing when there is no offer object to put things into.
  function Head(m: Fields): Fields {
    if HasHead(m) then m[Offers].items[0].fields else map[]
  }

  function Tail(m: Fields): seq<Json> {
    if HasHead(m) then m[Offers].items[1..] else []
  }

  function LiftOffers(m: Fields): Fields {
    var flat := Flattened(m);
    if flat == map[] then m else m[Offers := Arr([Obj(flat + Head(m))] + Tail(m))] - flat.Keys
  }

  function RepairItem(v: Json): Json {
    if v.Obj? then Obj(RepairOffer(v.fields)) else v
  }

  function Mapped<A, B>(s: seq<A>, f: A -> B): (r: seq<B>)
    ensures |r| == |s| && forall i | 0 <= i < |s| :: r[i] == f(s[i])
  {
    seq(|s|, i requires 0 <= i < |s| => f(s[i]))
  }

  lemma MappedCons<A, B>(x: A, s: seq<A>, f: A -> B)
    ensures Mapped([x] + s, f) == [f(x)] + Mapped(s, f)
  {
  }

  lemma MappedTwice<A(!new)>(s: seq<A>, f: A -> A)
    requires forall x :: f(f(x)) == f(x)
    ensures Mapped(Mapped(s, f), f) == Mapped(s, f)
  {
  }

  function RepairItems(items: seq<Json>): seq<Json> {
    Mapped(items, RepairItem)
  }

  function RepairOffers(m: Fields): Fields {
    if Offers in m && m[Offers].Arr? then m[Offers := Arr(RepairItems(m[Offers].items))] else m
  }

  function Prepared(args: Fields): Fields {
    PluralChannels(PreferTtl(CoerceTimes(args)))
  }

  function RepairOfferPost(args: Fields): Fields {
    RepairOffers(LiftOffers(Prepared(args)))
  }

  // The loops over the offer keys.

  function Pick<K, V>(m: map<K, V>, keys: seq<K>): map<K, V> {
    map k | k in m && k in keys :: m[k]
  }

  lemma PickNext<K, V>(m: map<K, V>, keys: seq<K>, k: K, into: map<K, V>)
    requires k in m
    ensures var now := Pick(m, keys) + into; Pick(m, keys + [k]) + into == if k in now then now else now[k := m[k]]
  {
  }

  method FilterKeys<K(==), V>(m: map<K, V>, keys: seq<K>) returns (present: seq<K>)
    ensures forall k :: k in present <==> k in keys && k in m
  {
    present := [];
    var i := 0;
    while i < |keys|
      invariant 0 <= i <= |keys| && forall k :: k in present <==> k in keys[..i] && k in m
    {
      assert keys[..i + 1] == keys[..i] + [keys[i]];
      if keys[i] in m { present := present + [keys[i]]; }
      i := i + 1;
    }
    assert keys[..i] == keys;
  }

  // Copies the properties the target lacks.
  method MergeMissing<K(==), V>(m: map<K, V>, keys: seq<K>, into: map<K, V>) returns (merged: map<K, V>)
    requires forall k | k in keys :: k in m
    ensures merged == Pick(m, keys) + into
  {
    merged := into;
    var i := 0;
    while i < |keys|
      invariant 0 <= i <= |keys| && merged == Pick(m, keys[..i]) + into
    {
      PickNext(m, keys[..i], keys[i], into);
      assert keys[..i + 1] == keys[..i] + [keys[i]];
      if keys[i] !in merged { merged := merged[keys[i] := m[keys[i]]]; }
      i := i + 1;
    }
    assert keys[..i] == keys;
  }

  method DeleteKeys<K(==), V>(out: Record<K, V>, keys: seq<K>)
    modifies out
    ensures out.fields == old(out.fields) - (set k | k in keys)
  {
    var i := 0;
    while i < |keys|
      invariant 0 <= i <= |keys| && out.fields == old(out.fields) - (set k | k in keys[..i])
    {
      assert keys[..i + 1] == keys[..i] + [keys[i]];
      out.fields := out.fields - {keys[i]};
      i := i + 1;
    }
    assert keys[..i] == keys;
  }

  method LiftFlattened(out: Record<Key, Json>)
    modifies out
    ensures out.fields == LiftOffers(old(out.fields))
  {
    ghost var m := out.fields;
    var flattened := FilterKeys(out.fields, OFFER_KEYS);
    assert Pick(m, flattened) == Flattened(m);
    if |flattened| > 0 {
      assert flattened[0] in Flattened(m);
      var merged := MergeMissing(out.fields, flattened, Head(out.fields));
      var offers := Arr([Obj(merged)] + Tail(out.fields));
      out.fields := out.fields[Offers := offers];
      DeleteKeys(out, flattened);
      assert (set k | k in flattened) == Flattened(m).Keys;
    } else {
      assert Flattened(m) == map[];
    }
  }

  method RepairOfferPostArguments(out: Record<Key, Json>)
    modifies out
    ensures out.fields == RepairOfferPost(old(out.fields))
  {
    out.FixKey(TtlSec, FixTime);
    out.FixKey(ValidUntilUnix, FixTime);
    if Given(out.fields, TtlSec) && Given(out.fields, ValidUntilUnix) {
      out.fields := out.fields - {ValidUntilUnix};
    }
    if SingularChannel(out.fields) {
      out.fields := out.fields[Channels := Arr([Str(Trim(out.fields[Channel].s))])] - {Channel};
    }
    LiftFlattened(out);
    if Offers in out.fields && out.fields[Offers].Arr? {
      out.fields := out.fields[Offers := Arr(RepairItems(out.fields[Offers].items))];
    }
  }

  // ---------------------------------------------------------------- repairing twice

  predicate Same(m: Fields, n: Fields, k: Key) {
    (k in m <==> k in n) && (k in m ==> m[k] == n[k])
  }

  predicate SameTop(m: Fields, n: Fields) {
    Same(m, n, TtlSec) && Same(m, n, ValidUntilUnix) && Same(m, n, Channel) && Same(m, n, Channels)
  }

  predicate Coerced(m: Fields, k: Key) {
    k in m ==> CoerceSafeInt(m[k]) == m[k]
  }

  // Nothing left to do on times and channels.
  predicate Calm(m: Fields) {
    Coerced(m, TtlSec) && Coerced(m, ValidUntilUnix) && !(Given(m, TtlSec) && Given(m, ValidUntilUnix)) && !SingularChannel(m)
  }

  lemma PreparedCalm(args: Fields)
    ensures Calm(Prepared(args))
  {
  }

  lemma CalmStays(m: Fields)
    requires Calm(m)
    ensures Prepared(m) == m
  {
    assert CoerceTimes(m) == m;
  }

  lemma NotOfferKey(k: Key)
    requires k.TtlSec? || k.ValidUntilUnix? || k.Channel? || k.Channels? || k.Offers?
    ensures k !in OFFER_KEYS
  {
  }

  lemma LiftKeepsTop(m: Fields)
    ensures SameTop(m, LiftOffers(m)) && Flattened(LiftOffers(m)) == map[]
  {
    NotOfferKey(TtlSec);
    NotOfferKey(ValidUntilUnix);
    NotOfferKey(Channel);
    NotOfferKey(Channels);
    NotOfferKey(Offers);
    assert forall k | k in LiftOffers(m) && k in OFFER_KEYS :: k in m && k in Flattened(m);
  }

  lemma ItemsTwice(items: seq<Json>)
    ensures RepairItems(RepairItems(items)) == RepairItems(items)
  {
    forall v: Json ensures RepairItem(RepairItem(v)) == RepairItem(v) {
      if v.Obj? { OfferTwice(v.fields); }
    }
    MappedTwice(items, RepairItem);
  }

  lemma OffersTwice(m: Fields)
    ensures RepairOffers(RepairOffers(m)) == RepairOffers(m)
    ensures SameTop(m, RepairOffers(m)) && Flattened(RepairOffers(m)).Keys == Flattened(m).Keys
  {
    NotOfferKey(Offers);
    if Offers in m && m[Offers].Arr? { ItemsTwice(m[Offers].items); }
  }

  // Repairing repaired arguments changes nothing.
  lemma RepairTwice(args: Fields)
    ensures RepairOfferPost(RepairOfferPost(args)) == RepairOfferPost(args)
  {
    var p := Prepared(args);
    var l := LiftOffers(p);
    var r := RepairOffers(l);
    PreparedCalm(args);
    LiftKeepsTop(p);
    OffersTwice(l);
    CalmStays(r);
    assert Flattened(r).Keys == {};
    assert LiftOffers(r) == r;
  }

  // ---------------------------------------------------------------- where flattened keys land

  lemma OfferKeysPlain(k: Key)
    requires k in OFFER_KEYS
    ensures !IsAlias(k) && k != SolRefundWindowSec && k != TtlSec && k != ValidUntilUnix && k != Channel && k != Channels && k != Offers
  {
  }

  lemma PreparedKeeps(args: Fields, k: Key)
    requires k in OFFER_KEYS || k.Offers?
    ensures Same(args, Prepared(args), k)
  {
    if k in OFFER_KEYS { OfferKeysPlain(k); }
  }

  // The first offer before its own repair.
  function Merged(args: Fields): Fields {
    Flattened(args) + Head(args)
  }

  lemma SameMerged(m: Fields, n: Fields)
    requires Same(m, n, Offers) && forall k | k in OFFER_KEYS :: Same(m, n, k)
    ensures Merged(m) == Merged(n) && Tail(m) == Tail(n)
  {
    assert Flattened(m) == Flattened(n);
  }

  lemma PreparedMerged(args: Fields)
    ensures Merged(Prepared(args)) == Merged(args) && Tail(Prepared(args)) == Tail(args)
  {
    PreparedKeeps(args, Offers);
    forall k | k in OFFER_KEYS ensures Same(args, Prepared(args), k) { PreparedKeeps(args, k); }
    SameMerged(args, Prepared(args));
  }

  lemma LiftedOffers(p: Fields, k: Key)
    requires k in p && k in OFFER_KEYS
    ensures k !in LiftOffers(p) && Offers in LiftOffers(p) && LiftOffers(p)[Offers] == Arr([Obj(Merged(p))] + Tail(p))
  {
    NotOfferKey(Offers);
    assert k in Flattened(p);
  }

  lemma RepairedItems(first: Fields, tail: seq<Json>)
    ensures RepairItems([Obj(first)] + tail) == [Obj(RepairOffer(first))] + RepairItems(tail)
  {
    MappedCons(Obj(first), tail, RepairItem);
  }

  lemma RepairedFrom(p: Fields, k: Key)
    requires k in p && k in OFFER_KEYS
    ensures var r := RepairOffers(LiftOffers(p));
      k !in r && Offers in r && r[Offers] == Arr([Obj(RepairOffer(Merged(p)))] + RepairItems(Tail(p)))
  {
    LiftedOffers(p, k);
    RepairedItems(Merged(p), Tail(p));
  }

  lemma RepairedOffers(args: Fields, k: Key)
    requires k in args && k in OFFER_KEYS
    ensures var r := RepairOfferPost(args);
      k !in r && Offers in r && r[Offers] == Arr([Obj(RepairOffer(Merged(args)))] + RepairItems(Tail(args)))
  {
    PreparedKeeps(args, k);
    PreparedMerged(args);
    RepairedFrom(Prepared(args), k);
  }

  // Every flattened key leaves the top level and is found in the first offer, with the value that
  // offer already had under the same name, or else its own, repaired. The other offers are kept,
  // repaired, exactly when the first one is an object; otherwise the flattened one replaces them all.
  lemma FlattenedLands(args: Fields, k: Key)
    requires k in args && k in OFFER_KEYS
    ensures var r := RepairOfferPost(args);
      && k !in r && Offers in r && r[Offers].Arr? && r[Offers].items != [] && r[Offers].items[0].Obj?
      && k in r[Offers].items[0].fields
      && r[Offers].items[0].fields[k] ==
           (var v := if k in Head(args) then Head(args)[k] else args[k]; if IsFixedKey(k) then Fix(k, v) else v)
      && r[Offers].items[1..] == RepairItems(Tail(args))
  {
    RepairedOffers(args, k);
    OfferKeysPlain(k);
    assert k in Flattened(args);
    OfferKeeps(Merged(args), k);
  }

  lemma NoAliasLeft(m: Fields, i: nat)
    requires i < |RENAMES|
    ensures RENAMES[i].0 !in RepairOffer(m)
  {
    RenamedSettled(m);
    SettledOver(SpreadWindow(RenameAll(m, RENAMES)));
  }

  predicate Renames(m: Fields, pair: (Key, Key), to: Key) {
    pair.1 == to && pair.0 in m
  }

  // The first misspelling of a name, in the order of the table, that an offer has.
  function FirstAlias(m: Fields, pairs: seq<(Key, Key)>, to: Key): (i: nat)
    ensures i <= |pairs| && (i < |pairs| ==> Renames(m, pairs[i], to))
    ensures forall j | 0 <= j < i :: !Renames(m, pairs[j], to)
  {
    if pairs == [] || Renames(m, pairs[0], to) then 0 else 1 + FirstAlias(m, pairs[1..], to)
  }

  ghost predicate AliasesDistinct(pairs: seq<(Key, Key)>) {
    forall i, j | 0 <= i < j < |pairs| :: pairs[i].0 != pairs[j].0
  }

  lemma SameAlias(m: Fields, n: Fields, pairs: seq<(Key, Key)>, to: Key)
    requires forall i | 0 <= i < |pairs| :: pairs[i].0 in m <==> pairs[i].0 in n
    ensures FirstAlias(m, pairs, to) == FirstAlias(n, pairs, to)
  {
    var i, j := FirstAlias(m, pairs, to), FirstAlias(n, pairs, to);
    assert i < |pairs| ==> Renames(n, pairs[i], to);
    assert j < |pairs| ==> Renames(m, pairs[j], to);
  }

  lemma {:induction false} RenamedFrom(m: Fields, pairs: seq<(Key, Key)>, to: Key)
    requires GoodTable(pairs) && AliasesDistinct(pairs) && !IsAlias(to) && to !in m && FirstAlias(m, pairs, to) < |pairs|
    ensures to in RenameAll(m, pairs) && RenameAll(m, pairs)[to] == m[pairs[FirstAlias(m, pairs, to)].0]
    decreases |pairs|
  {
    var next := Rename(m, pairs[0].0, pairs[0].1);
    if Renames(m, pairs[0], to) {
      RightNamesKept(next, pairs[1..], to);
    } else {
      forall i | 0 <= i < |pairs[1..]| ensures pairs[1..][i].0 in m <==> pairs[1..][i].0 in next {
        assert pairs[1..][i] == pairs[i + 1];
      }
      SameAlias(m, next, pairs[1..], to);
      RenamedFrom(next, pairs[1..], to);
    }
  }

  // Where the table has an alias.
  function Place(k: Key): int {
    match k
    case MaxTradeFeeB => 0
    case MaxTradeFeeBp => 1
    case MaxPlatformFeeB => 2
    case MaxPlatformFeeBp => 3
    case MaxTotalFeeB => 4
    case MaxTotalFeeBp => 5
    case MinSolRefundSec => 6
    case MaxSolRefundSec => 7
    case MinSolRefundWindow => 8
    case MaxSolRefundWindow => 9
    case RefundAfterSec => 10
    case _ => -1
  }

  lemma TableDistinct()
    ensures AliasesDistinct(RENAMES)
  {
    forall i | 0 <= i < |RENAMES| ensures Place(RENAMES[i].0) == i { PlaceOf(i); }
  }

  lemma PlaceOf(i: nat)
    requires i < |RENAMES|
    ensures Place(RENAMES[i].0) == i
  {
  }

  // The first misspelling an offer has gives the right name its value, unless that is there itself.
  lemma FirstAliasWins(m: Fields, pairs: seq<(Key, Key)>, i: nat)
    requires GoodTable(pairs) && AliasesDistinct(pairs) && i < |pairs| && pairs[i].0 in m && pairs[i].1 !in m
    requires forall j | 0 <= j < i :: !Renames(m, pairs[j], pairs[i].1)
    ensures var to := pairs[i].1; var r := OverAll(SpreadWindow(RenameAll(m, pairs)), FIXED_KEYS, Fix);
      to in r && r[to] == Fix(to, m[pairs[i].0])
  {
    var to := pairs[i].1;
    assert Renames(m, pairs[i], to);
    assert FirstAlias(m, pairs, to) == i;
    RenamedFrom(m, pairs, to);
    SpreadKeeps(RenameAll(m, pairs), to);
    OverAt(SpreadWindow(RenameAll(m, pairs)), to);
  }

  lemma HeadRepaired(args: Fields)
    requires HasHead(args)
    ensures var r := RepairOfferPost(args);
      Offers in r && r[Offers] == Arr([Obj(RepairOffer(Merged(args)))] + RepairItems(Tail(args)))
  {
    if k :| k in args && k in OFFER_KEYS {
      RepairedOffers(args, k);
    } else {
      var p := Prepared(args);
      PreparedKeeps(args, Offers);
      PreparedMerged(args);
      forall k | k in OFFER_KEYS ensures k !in p { PreparedKeeps(args, k); }
      assert Flattened(p) == map[] && Merged(p) == Head(p);
      assert p[Offers].items == [Obj(Head(p))] + Tail(p);
      RepairedItems(Head(p), Tail(p));
    }
  }

  predicate Says(m: Fields, k: Key, v: Json) {
    k in m && m[k] == v
  }

  // What becomes of a value that the first offer holds under a misspelt name: where the right name is
  // there, or flattened, that one wins, although the misspelt one was there before; where neither is, the
  // value survives unless an earlier misspelling is there, which then does so by the same lemma.
  lemma MisspeltExactly(args: Fields, i: nat)
    requires i < |RENAMES| && RENAMES[i].0 in Head(args)
    ensures var r := RepairOfferPost(args); var (alias, to) := RENAMES[i]; var flat := to in args && to in OFFER_KEYS;
      && Offers in r && r[Offers].Arr? && r[Offers].items != [] && r[Offers].items[0].Obj?
      && alias !in r[Offers].items[0].fields
      && (to in Head(args) || flat ==>
            Says(r[Offers].items[0].fields, to, Fix(to, if to in Head(args) then Head(args)[to] else args[to])))
      && (to !in Head(args) && !flat && (forall j | 0 <= j < i :: !Renames(Head(args), RENAMES[j], to)) ==>
            Says(r[Offers].items[0].fields, to, Fix(to, Head(args)[alias])))
  {
    var merged, to := Merged(args), RENAMES[i].1;
    HeadRepaired(args);
    NoAliasLeft(merged, i);
    AliasesNotFlattened(args);
    TableGood();
    if to in merged {
      RightNamePlain(i);
      OfferKeeps(merged, to);
    } else if forall j | 0 <= j < i :: !Renames(Head(args), RENAMES[j], to) {
      TableDistinct();
      FirstAliasWins(merged, RENAMES, i);
    }
  }

  lemma RightNamePlain(i: nat)
    requires i < |RENAMES|
    ensures !IsAlias(RENAMES[i].1) && RENAMES[i].1 != SolRefundWindowSec && IsFixedKey(RENAMES[i].1)
  {
    TablePairs(i);
  }

  // A misspelt name is no offer key, so only the first offer can bring one in.
  lemma AliasesNotFlattened(args: Fields)
    ensures forall j | 0 <= j < |RENAMES| :: RENAMES[j].0 !in Flattened(args)
  {
    forall j | 0 <= j < |RENAMES| ensures RENAMES[j].0 !in Flattened(args) {
      TablePairs(j);
      if RENAMES[j].0 in OFFER_KEYS { OfferKeysPlain(RENAMES[j].0); }
    }
  }

  // ---------------------------------------------------------------- the tables and the small repairs

  // The right name of each misspelling.
  function RightName(k: Key): Option<Key> {
    match k
    case MaxTradeFeeB => Some(MaxTradeFeeBps)
    case MaxTradeFeeBp => Some(MaxTradeFeeBps)
    case MaxPlatformFeeB => Some(MaxPlatformFeeBps)
    case MaxPlatformFeeBp => Some(MaxPlatformFeeBps)
    case MaxTotalFeeB => Some(MaxTotalFeeBps)
    case MaxTotalFeeBp => Some(MaxTotalFeeBps)
    case MinSolRefundSec => Some(MinSolRefundWindowSec)
    case MinSolRefundWindow => Some(MinSolRefundWindowSec)
    case MaxSolRefundSec => Some(MaxSolRefundWindowSec)
    case MaxSolRefundWindow => Some(MaxSolRefundWindowSec)
    case RefundAfterSec => Some(SettlementRefundAfterSec)
    case _ => None
  }

  // The table has every misspelling once, with its right name.
  lemma TableExactly(k: Key)
    ensures RightName(k).Some? <==> exists i :: 0 <= i < |RENAMES| && RENAMES[i].0 == k
    ensures RightName(k).Some? ==> 0 <= Place(k) < |RENAMES| && RENAMES[Place(k)] == (k, RightName(k).value)
  {
    forall i | 0 <= i < |RENAMES| ensures RightName(RENAMES[i].0) == Some(RENAMES[i].1) { }
    if RightName(k).Some? { assert RENAMES[Place(k)].0 == k; }
  }

  // The fields of an offer that are lifted from the top level.
  lemma OfferKeysExactly(k: Key)
    ensures k in OFFER_KEYS <==>
      || k.Pair? || k.Have? || k.Want? || k.BtcSats? || k.UsdtAmount? || k.TaoAmountAtomic? || k.SettlementKind?
      || k.MaxPlatformFeeBps? || k.MaxTradeFeeBps? || k.MaxTotalFeeBps?
      || k.MinSolRefundWindowSec? || k.MaxSolRefundWindowSec? || k.SettlementRefundAfterSec?
  {
  }

  // A number in a string becomes that number, with any white space around it; anything else is kept.
  lemma CoercesNumbers(before: string, n: nat, after: string)
    requires Blank(before) && Blank(after) && n <= 9007199254740991
    ensures CoerceSafeInt(Str(before + Decimal(n) + after)) == Int(n)
  {
    DecimalRoundTrip(n);
    TrimmedNumeral(before, Decimal(n), after);
  }

  lemma KeepsTheRest(v: Json)
    ensures !v.Str? ==> CoerceSafeInt(v) == v
    ensures v.Str? && !IsNumeral(Trim(v.s)) ==> CoerceSafeInt(v) == v
    ensures v.Str? && IsNumeral(Trim(v.s)) && DecimalValue(Trim(v.s)) > 9007199254740991 ==> CoerceSafeInt(v) == v
  {
  }

  lemma TrimmedNumeral(before: string, t: string, after: string)
    requires Blank(before) && Blank(after) && IsNumeral(t)
    ensures Trim(before + t + after) == t
  {
    assert before + t + after == before + (t + after);
    assert (t + after)[0] == t[0];
    TrimBlank(before, t + after);
    TrimEndBlank(t, after);
  }

  lemma NoRightName(k: Key)
    ensures RightName(k) == None <==> !IsAlias(k)
  {
  }

  // What becomes of a value under its right name: amounts become atomic, counts and times become numbers,
  // and the rest is kept.
  function Repaired(k: Key, v: Json): Json {
    match k
    case UsdtAmount => ToAtomic(v, 6)
    case TaoAmountAtomic => ToAtomic(v, 0)
    case MaxPlatformFeeBps => CoerceSafeInt(v)
    case MaxTradeFeeBps => CoerceSafeInt(v)
    case MaxTotalFeeBps => CoerceSafeInt(v)
    case MinSolRefundWindowSec => CoerceSafeInt(v)
    case MaxSolRefundWindowSec => CoerceSafeInt(v)
    case SettlementRefundAfterSec => CoerceSafeInt(v)
    case _ => v
  }

  lemma FixIsRepaired(k: Key, v: Json)
    ensures Repaired(k, v) == if IsFixedKey(k) then Fix(k, v) else v
  {
  }

  lemma OfferKeepsExactly(m: Fields, k: Key)
    requires k in m && RightName(k) == None && !k.SolRefundWindowSec?
    ensures Says(RepairOffer(m), k, Repaired(k, m[k]))
  {
    NoRightName(k);
    OfferKeeps(m, k);
    FixIsRepaired(k, m[k]);
  }

  ghost predicate AliasFree(m: Fields) {
    forall k | IsAlias(k) :: k !in m
  }

  // An offer without misspelt names is only spread and fixed.
  lemma WithoutAliases(m: Fields, k: Key)
    requires AliasFree(m)
    ensures k in SpreadWindow(m) ==> Says(RepairOffer(m), k, Repaired(k, SpreadWindow(m)[k]))
    ensures k !in SpreadWindow(m) ==> k !in RepairOffer(m)
  {
    TableGood();
    NothingToRename(m, RENAMES);
    OverAt(SpreadWindow(m), k);
    if k in SpreadWindow(m) { FixIsRepaired(k, SpreadWindow(m)[k]); }
  }

  lemma SpreadExactly(m: Fields)
    requires SolRefundWindowSec in m
    ensures var s := SpreadWindow(m); var v := m[SolRefundWindowSec];
      if MinSolRefundWindowSec !in m && MaxSolRefundWindowSec !in m
      then SolRefundWindowSec !in s && Says(s, MinSolRefundWindowSec, v) && Says(s, MaxSolRefundWindowSec, v)
      else Says(s, SolRefundWindowSec, v)
  {
  }

  // A single refund window gives both bounds, where the offer has neither, under any name.
  lemma WindowSpreads(m: Fields, k: Key)
    requires SolRefundWindowSec in m && MinSolRefundWindowSec !in m && MaxSolRefundWindowSec !in m && AliasFree(m)
    requires k.MinSolRefundWindowSec? || k.MaxSolRefundWindowSec?
    ensures SolRefundWindowSec !in RepairOffer(m) && Says(RepairOffer(m), k, CoerceSafeInt(m[SolRefundWindowSec]))
  {
    SpreadExactly(m);
    WithoutAliases(m, SolRefundWindowSec);
    WithoutAliases(m, k);
    FixIsRepaired(k, m[SolRefundWindowSec]);
  }

  lemma WindowStays(m: Fields)
    requires SolRefundWindowSec in m && (MinSolRefundWindowSec in m || MaxSolRefundWindowSec in m) && AliasFree(m)
    ensures Says(RepairOffer(m), SolRefundWindowSec, m[SolRefundWindowSec])
  {
    OtherStays(m, SolRefundWindowSec);
  }

  lemma OtherStays(m: Fields, k: Key)
    requires AliasFree(m) && k in m && !IsFixedKey(k)
    requires MinSolRefundWindowSec in m || MaxSolRefundWindowSec in m
    ensures Says(RepairOffer(m), k, m[k])
  {
    WithoutAliases(m, k);
    FixIsRepaired(k, m[k]);
  }

  // The times and the channels of the arguments: times become numbers, a time to live displaces an absolute
  // one, a lone channel becomes the list of one. Nothing else changes.
  lemma PreparedExactly(args: Fields, k: Key)
    ensures var p := Prepared(args);
      var both := Given(args, TtlSec) && Given(args, ValidUntilUnix); var lone := SingularChannel(args);
      && (TtlSec in args ==> Says(p, TtlSec, CoerceSafeInt(args[TtlSec]))) && (TtlSec !in args ==> TtlSec !in p)
      && (ValidUntilUnix in args && !both ==> Says(p, ValidUntilUnix, CoerceSafeInt(args[ValidUntilUnix])))
      && (ValidUntilUnix !in args || both ==> ValidUntilUnix !in p)
      && (lone ==> Says(p, Channels, Arr([Str(Trim(args[Channel].s))])) && Channel !in p)
      && (!lone ==> Same(args, p, Channels) && Same(args, p, Channel))
      && (!(k.TtlSec? || k.ValidUntilUnix? || k.Channel? || k.Channels?) ==> Same(args, p, k))
  {
  }
}
