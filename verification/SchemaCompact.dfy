// Compaction of the JSON schemas of tool parameters, which drops or rewrites keywords to save tokens,
// and what that does to the values they accept: on which schemas it only relaxes, and which keywords
// make it tighten.

module SchemaCompact {

  import opened Prelude

  // ---------------------------------------------------------------- values and schemas

  datatype Json = Null | Bool(b: bool) | Num(n: int) | Str(s: string) | Arr(items: seq<Json>) | Obj(members: seq<Member>)
  datatype Member = Member(key: string, value: Json)

  // A JSON Schema by its keywords. kept: the keywords copied as they are (type, const, enum, default and
  // the bounds). The compaction drops patterns (patternProperties), prefix (prefixItems), ref ($ref) and
  // others, which stands for every further keyword.
  datatype Schema =
    | Always(b: bool)
    | Keywords(kept: map<string, Json>, additional: Additional, required: Option<seq<string>>, items: Items,
               properties: Properties, anyOf: Branches, allOf: Branches, oneOf: Branches, patterns: Properties,
               prefix: Branches, ref: Option<string>, others: map<string, Json>)

  datatype Additional = Unsaid | Rest(schema: Schema)
  datatype Items = NoItems | Each(schema: Schema) | Tuple(schemas: seq<Schema>)
  datatype Branches = NoBranches | Branches(list: seq<Schema>)
  datatype Properties = NoProperties | Properties(list: seq<Property>)

  datatype Property = Property(key: string, schema: Schema)

  const EMPTY := Keywords(map[], Unsaid, None, NoItems, NoProperties, NoBranches, NoBranches, NoBranches, NoProperties,
                          NoBranches, None, map[])

  // ---------------------------------------------------------------- compaction

  function Compact(s: Schema): Schema
    decreases s, 0
  {
    match s
    case Always(_) => s
    case Keywords(kept, additional, required, items, properties, anyOf, allOf, oneOf, _, _, _, _) =>
      Keywords(kept, additional, required, CompactItems(items), CompactProperties(properties), CompactBranches(anyOf),
               CompactBranches(allOf), CompactBranches(oneOf), NoProperties, NoBranches, None, map[])
  }

  function CompactBranches(b: Branches): (r: Branches)
    ensures r.Branches? <==> b.Branches?
    ensures b.Branches? ==> r.list == CompactList(b.list)
    decreases b, 2
  {
    match b
    case NoBranches => NoBranches
    case Branches(list) => Branches(CompactList(list))
  }

  function CompactProperties(p: Properties): (r: Properties)
    ensures r.Properties? <==> p.Properties?
    ensures p.Properties? ==> r.list == CompactEach(p.list)
    decreases p, 2
  {
    match p
    case NoProperties => NoProperties
    case Properties(list) => Properties(CompactEach(list))
  }

  function CompactItems(items: Items): (r: Items)
    ensures (r.Each? <==> items.Each?) && (r.Tuple? <==> items.Tuple?)
    ensures items.Each? ==> r.schema == Compact(items.schema)
    ensures items.Tuple? ==> r.schemas == CompactList(items.schemas)
    decreases items, 2
  {
    match items
    case NoItems => NoItems
    case Each(s) => Each(Compact(s))
    case Tuple(ss) => Tuple(CompactList(ss))
  }

  function CompactList(ss: seq<Schema>): (r: seq<Schema>)
    ensures |r| == |ss|
    ensures forall i | 0 <= i < |ss| :: r[i] == Compact(ss[i])
    decreases ss, 1
  {
    seq(|ss|, i requires 0 <= i < |ss| => Compact(ss[i]))
  }

  function CompactEach(ps: seq<Property>): (r: seq<Property>)
    ensures |r| == |ps|
    ensures forall i | 0 <= i < |ps| :: r[i] == Property(ps[i].key, Compact(ps[i].schema))
    decreases ps, 1
  {
    seq(|ps|, i requires 0 <= i < |ps| => Property(ps[i].key, Compact(ps[i].schema)))
  }

  // ---------------------------------------------------------------- validity

  // How the keywords that are not spelt out here judge a value: the copied ones by themselves, and the
  // dropped ones in the schema they stand in. Dropped keywords that are not there ask for nothing.
  // The drafts differ: up to draft-07 a $ref alone decides, whatever stands beside it (refAlone), and
  // prefixItems is unknown; since 2020-12 it judges the first items and leaves the others to items
  // (prefixFirst).
  datatype Semantics = Semantics(judgeKept: (map<string, Json>, Json) -> bool, judgeOthers: (Schema, Json) -> bool,
                                 matches: (string, string) -> bool, judgeRef: (string, Json) -> bool,
                                 refAlone: bool, prefixFirst: bool)

  ghost predicate Sound(sem: Semantics) {
    forall s: Schema, v: Json | s.Keywords? && s.others == map[] :: sem.judgeOthers(s, v)
  }

  predicate Names(ps: Properties, key: string) {
    ps.Properties? && exists i | 0 <= i < |ps.list| :: ps.list[i].key == key
  }

  predicate Matched(sem: Semantics, patterns: Properties, key: string) {
    patterns.Properties? && exists i | 0 <= i < |patterns.list| :: sem.matches(patterns.list[i].key, key)
  }

  predicate HasKey(v: Json, key: string)
    requires v.Obj?
  {
    exists i | 0 <= i < |v.members| :: v.members[i].key == key
  }

  predicate Valid(sem: Semantics, s: Schema, v: Json)
    decreases s, 3
  {
    match s
    case Always(b) => b
    case Keywords(_, _, _, _, _, _, _, _, _, _, ref, _) =>
      && (ref.Some? ==> sem.judgeRef(ref.value, v))
      && ((ref.Some? && sem.refAlone) || ValidBesideRef(sem, s, v))
  }

  predicate ValidBesideRef(sem: Semantics, s: Schema, v: Json)
    requires s.Keywords?
    decreases s, 2
  {
    && sem.judgeKept(s.kept, v)
    && sem.judgeOthers(s, v)
    && (s.required.Some? && v.Obj? ==> forall i | 0 <= i < |s.required.value| :: HasKey(v, s.required.value[i]))
    && ValidPrefix(sem, s.prefix, v)
    && ValidItems(sem, s.items, Leading(sem, s.prefix), v)
    && ValidProperties(sem, s.properties, v)
    && ValidPatterns(sem, s.patterns, v)
    && ValidRest(sem, s, v)
    && ValidChoices(sem, s, v)
  }

  // How many items are the business of prefixItems.
  function Leading(sem: Semantics, prefix: Branches): nat {
    if sem.prefixFirst && prefix.Branches? then |prefix.list| else 0
  }

  predicate ValidPrefix(sem: Semantics, prefix: Branches, v: Json)
    decreases prefix, 1
  {
    sem.prefixFirst && prefix.Branches? && v.Arr? ==>
      forall i | 0 <= i < |v.items| && i < |prefix.list| :: Valid(sem, prefix.list[i], v.items[i])
  }

  predicate ValidItems(sem: Semantics, items: Items, leading: nat, v: Json)
    decreases items, 1
  {
    match items
    case NoItems => true
    case Each(schema) => v.Arr? ==> forall i | leading <= i < |v.items| :: Valid(sem, schema, v.items[i])
    case Tuple(schemas) => v.Arr? ==> forall i | 0 <= i < |v.items| && i < |schemas| :: Valid(sem, schemas[i], v.items[i])
  }

  predicate ValidProperties(sem: Semantics, properties: Properties, v: Json)
    decreases properties, 1
  {
    properties.Properties? && v.Obj? ==>
      forall i, j | 0 <= i < |properties.list| && 0 <= j < |v.members| && properties.list[i].key == v.members[j].key ::
        Valid(sem, properties.list[i].schema, v.members[j].value)
  }

  predicate ValidPatterns(sem: Semantics, patterns: Properties, v: Json)
    decreases patterns, 1
  {
    patterns.Properties? && v.Obj? ==>
      forall i, j | 0 <= i < |patterns.list| && 0 <= j < |v.members| && sem.matches(patterns.list[i].key, v.members[j].key) ::
        Valid(sem, patterns.list[i].schema, v.members[j].value)
  }

  // additionalProperties speaks of what neither properties nor patternProperties name.
  predicate ValidRest(sem: Semantics, s: Schema, v: Json)
    requires s.Keywords?
    decreases s, 1
  {
    s.additional.Rest? && v.Obj? ==>
      forall j | 0 <= j < |v.members| && !Names(s.properties, v.members[j].key) && !Matched(sem, s.patterns, v.members[j].key) ::
        Valid(sem, s.additional.schema, v.members[j].value)
  }

  predicate ValidChoices(sem: Semantics, s: Schema, v: Json)
    requires s.Keywords?
    decreases s, 1
  {
    && (s.anyOf.Branches? ==> exists i | 0 <= i < |s.anyOf.list| :: Valid(sem, s.anyOf.list[i], v))
    && (s.allOf.Branches? ==> forall i | 0 <= i < |s.allOf.list| :: Valid(sem, s.allOf.list[i], v))
    && (s.oneOf.Branches? ==> exists i | 0 <= i < |s.oneOf.list| :: Only(sem, s.oneOf.list, v, i))
  }

  // Branch i admits the value and no other does.
  predicate Only(sem: Semantics, ss: seq<Schema>, v: Json, i: nat)
    decreases ss, 4
  {
    i < |ss| && forall k | 0 <= k < |ss| :: Valid(sem, ss[k], v) <==> k == i
  }

  // Nothing dropped here had admitted a value that the kept keywords refuse: no $ref that stands alone,
  // no prefixItems ahead of items, no patternProperties ahead of additionalProperties.
  predicate Harmless(sem: Semantics, s: Schema)
    requires s.Keywords?
  {
    && (s.ref.None? || !sem.refAlone)
    && (s.prefix.NoBranches? || !sem.prefixFirst || !s.items.Each?)
    && (s.patterns.NoProperties? || s.additional.Unsaid?)
  }

  // So it is wherever the compaction goes, and there is no oneOf. A dropped `not` is among the others
  // and does no harm.
  predicate Simple(sem: Semantics, s: Schema)
    decreases s
  {
    match s
    case Always(_) => true
    case Keywords(_, _, _, items, properties, anyOf, allOf, oneOf, _, _, _, _) =>
      && Harmless(sem, s) && oneOf.NoBranches?
      && (items.Each? ==> Simple(sem, items.schema))
      && (items.Tuple? ==> forall i | 0 <= i < |items.schemas| :: Simple(sem, items.schemas[i]))
      && (properties.Properties? ==> forall i | 0 <= i < |properties.list| :: Simple(sem, properties.list[i].schema))
      && (anyOf.Branches? ==> forall i | 0 <= i < |anyOf.list| :: Simple(sem, anyOf.list[i]))
      && (allOf.Branches? ==> forall i | 0 <= i < |allOf.list| :: Simple(sem, allOf.list[i]))
  }

  lemma {:induction false} RelaxesItems(sem: Semantics, items: Items, leading: nat, v: Json)
    requires Sound(sem) && ValidItems(sem, items, leading, v) && (items.Each? ==> leading == 0)
    requires items.Each? ==> Simple(sem, items.schema)
    requires items.Tuple? ==> forall i | 0 <= i < |items.schemas| :: Simple(sem, items.schemas[i])
    ensures ValidItems(sem, CompactItems(items), 0, v)
    decreases items, 1
  {
    if v.Arr? {
      if items.Each? {
        forall i | 0 <= i < |v.items| ensures Valid(sem, Compact(items.schema), v.items[i]) {
          Relaxes(sem, items.schema, v.items[i]);
        }
      } else if items.Tuple? {
        forall i | 0 <= i < |v.items| && i < |items.schemas| ensures Valid(sem, Compact(items.schemas[i]), v.items[i]) {
          Relaxes(sem, items.schemas[i], v.items[i]);
        }
      }
    }
  }

  lemma {:induction false} RelaxesProperties(sem: Semantics, p: Properties, v: Json)
    requires Sound(sem) && ValidProperties(sem, p, v)
    requires p.Properties? ==> forall i | 0 <= i < |p.list| :: Simple(sem, p.list[i].schema)
    ensures ValidProperties(sem, CompactProperties(p), v)
    decreases p, 1
  {
    if v.Obj? && p.Properties? {
      forall i, j | 0 <= i < |p.list| && 0 <= j < |v.members| && p.list[i].key == v.members[j].key
        ensures Valid(sem, Compact(p.list[i].schema), v.members[j].value)
      {
        Relaxes(sem, p.list[i].schema, v.members[j].value);
      }
    }
  }

  lemma {:induction false} RelaxesChoices(sem: Semantics, s: Schema, v: Json)
    requires Sound(sem) && s.Keywords? && Simple(sem, s) && ValidChoices(sem, s, v)
    ensures ValidChoices(sem, Compact(s), v)
    decreases s, 1
  {
    var c := Compact(s);
    if s.anyOf.Branches? {
      var i :| 0 <= i < |s.anyOf.list| && Valid(sem, s.anyOf.list[i], v);
      Relaxes(sem, s.anyOf.list[i], v);
      assert Valid(sem, c.anyOf.list[i], v);
    }
    if s.allOf.Branches? {
      forall i | 0 <= i < |s.allOf.list| ensures Valid(sem, Compact(s.allOf.list[i]), v) {
        Relaxes(sem, s.allOf.list[i], v);
      }
    }
  }

  // additionalProperties is copied as it is and, where it is said, speaks of the same members.
  lemma KeepsRest(sem: Semantics, s: Schema, v: Json)
    requires s.Keywords? && Harmless(sem, s) && ValidRest(sem, s, v)
    ensures ValidRest(sem, Compact(s), v)
  {
    if v.Obj? && s.additional.Rest? {
      forall j | 0 <= j < |v.members| ensures Names(Compact(s).properties, v.members[j].key) == Names(s.properties, v.members[j].key) {
        SameNames(s.properties, v.members[j].key);
      }
    }
  }

  lemma SameNames(p: Properties, key: string)
    ensures Names(CompactProperties(p), key) == Names(p, key)
  {
    if p.Properties? {
      var cs := CompactProperties(p).list;
      assert forall i | 0 <= i < |cs| :: cs[i].key == p.list[i].key;
    }
  }

  // Without the dropped keywords the others decide.
  lemma KeptDecide(sem: Semantics, c: Schema, v: Json)
    requires Sound(sem) && c.Keywords? && c.patterns.NoProperties? && c.prefix.NoBranches? && c.ref.None? && c.others == map[]
    requires sem.judgeKept(c.kept, v)
    requires c.required.Some? && v.Obj? ==> forall i | 0 <= i < |c.required.value| :: HasKey(v, c.required.value[i])
    requires ValidItems(sem, c.items, 0, v) && ValidProperties(sem, c.properties, v) && ValidRest(sem, c, v) && ValidChoices(sem, c, v)
    ensures Valid(sem, c, v)
  {
    assert ValidPatterns(sem, c.patterns, v) && ValidPrefix(sem, c.prefix, v) && Leading(sem, c.prefix) == 0;
  }

  // Compaction only relaxes: what the full schema admits, the compacted one admits too.
  lemma {:induction false} Relaxes(sem: Semantics, s: Schema, v: Json)
    requires Sound(sem) && Simple(sem, s) && Valid(sem, s, v)
    ensures Valid(sem, Compact(s), v)
    decreases s, 2
  {
    if s.Keywords? {
      RelaxesItems(sem, s.items, Leading(sem, s.prefix), v);
      RelaxesProperties(sem, s.properties, v);
      RelaxesChoices(sem, s, v);
      KeepsRest(sem, s, v);
      KeptDecide(sem, Compact(s), v);
    }
  }

  // Compacting twice is compacting once.
  lemma {:induction false} CompactTwice(s: Schema)
    ensures Compact(Compact(s)) == Compact(s)
    decreases s, 1
  {
    if s.Keywords? {
      if s.items.Each? { CompactTwice(s.items.schema); }
      if s.items.Tuple? { ListTwice(s.items.schemas); }
      if s.properties.Properties? { PropertiesTwice(s.properties.list); }
      if s.anyOf.Branches? { ListTwice(s.anyOf.list); }
      if s.allOf.Branches? { ListTwice(s.allOf.list); }
      if s.oneOf.Branches? { ListTwice(s.oneOf.list); }
    }
  }

  lemma {:induction false} ListTwice(ss: seq<Schema>)
    ensures CompactList(CompactList(ss)) == CompactList(ss)
    decreases ss, 0
  {
    forall i | 0 <= i < |ss| ensures Compact(Compact(ss[i])) == Compact(ss[i]) { CompactTwice(ss[i]); }
  }

  lemma {:induction false} PropertiesTwice(ps: seq<Property>)
    ensures CompactEach(CompactEach(ps)) == CompactEach(ps)
    decreases ps, 0
  {
    forall i | 0 <= i < |ps| ensures Compact(Compact(ps[i].schema)) == Compact(ps[i].schema) { CompactTwice(ps[i].schema); }
  }

  // ---------------------------------------------------------------- why these keywords are excluded

  // Under oneOf a branch that only a dropped keyword ruled out is let in, and the value with two
  // branches is now refused.
  lemma OneOfTightens(sem: Semantics, dropped: map<string, Json>, v: Json)
    requires Sound(sem) && sem.judgeKept(map[], v)
    requires var branch := EMPTY.(others := dropped); !sem.judgeOthers(branch, v)
    ensures var s := EMPTY.(oneOf := Branches([EMPTY.(others := dropped), Always(true)]));
      Valid(sem, s, v) && !Valid(sem, Compact(s), v)
  {
    var branch := EMPTY.(others := dropped);
    var s := EMPTY.(oneOf := Branches([branch, Always(true)]));
    assert !Valid(sem, branch, v) && Valid(sem, s.oneOf.list[1], v);
    assert Only(sem, s.oneOf.list, v, 1);
    var list := Compact(s).oneOf.list;
    assert list[0] == Compact(branch) && list[1] == Compact(Always(true));
    assert Compact(branch) == EMPTY && Valid(sem, EMPTY, v);
    assert !ValidChoices(sem, Compact(s), v);
  }

  // Without patternProperties a property they admitted falls under additionalProperties.
  lemma PatternsTighten(sem: Semantics, pattern: string, key: string, v: Json)
    requires Sound(sem) && sem.matches(pattern, key) && sem.judgeKept(map[], Obj([Member(key, v)]))
    ensures var s := EMPTY.(additional := Rest(Always(false)), patterns := Properties([Property(pattern, Always(true))]));
      var w := Obj([Member(key, v)]);
      Valid(sem, s, w) && !Valid(sem, Compact(s), w)
  {
    var s := EMPTY.(additional := Rest(Always(false)), patterns := Properties([Property(pattern, Always(true))]));
    var w := Obj([Member(key, v)]);
    assert s.patterns.list[0].key == pattern && w.members[0].key == key;
    assert Matched(sem, s.patterns, key);
    assert ValidPatterns(sem, s.patterns, w) && ValidRest(sem, s, w);
    assert ValidPrefix(sem, s.prefix, w) && ValidItems(sem, s.items, Leading(sem, s.prefix), w);
    assert ValidProperties(sem, s.properties, w) && ValidChoices(sem, s, w);
    assert !Names(Compact(s).properties, key) && !Matched(sem, Compact(s).patterns, key);
  }

  // Without prefixItems the first items fall under items.
  lemma PrefixTightens(sem: Semantics, v: Json)
    requires Sound(sem) && sem.prefixFirst && sem.judgeKept(map[], Arr([v]))
    ensures var s := EMPTY.(items := Each(Always(false)), prefix := Branches([Always(true)])); var w := Arr([v]);
      Valid(sem, s, w) && !Valid(sem, Compact(s), w)
  {
    var c, w := Compact(EMPTY.(items := Each(Always(false)), prefix := Branches([Always(true)]))), Arr([v]);
    assert c.items == Each(Always(false)) && !Valid(sem, c.items.schema, w.items[0]);
  }

  // Without a $ref that stood alone the keywords beside it begin to count.
  lemma RefTightens(sem: Semantics, kept: map<string, Json>, ref: string, v: Json)
    requires sem.refAlone && sem.judgeRef(ref, v) && !sem.judgeKept(kept, v)
    ensures var s := EMPTY.(kept := kept, ref := Some(ref)); Valid(sem, s, v) && !Valid(sem, Compact(s), v)
  {
    assert Compact(EMPTY.(kept := kept, ref := Some(ref))).kept == kept;
  }

  // ---------------------------------------------------------------- what is kept

  // Every keyword has one of these two fates.
  predicate CopiedAsIs(s: Schema, c: Schema)
    requires s.Keywords? && c.Keywords?
  {
    c.kept == s.kept && c.additional == s.additional && c.required == s.required
  }

  predicate Dropped(c: Schema)
    requires c.Keywords?
  {
    c.patterns == NoProperties && c.prefix == NoBranches && c.ref == None && c.others == map[]
  }

  ghost predicate BranchesKept(b: Branches, c: Branches) {
    b.Branches? == c.Branches? && (b.Branches? ==> |c.list| == |b.list| && forall i | 0 <= i < |b.list| :: c.list[i] == Compact(b.list[i]))
  }

  ghost predicate PropertiesKept(p: Properties, c: Properties) {
    && p.Properties? == c.Properties?
    && (p.Properties? ==> |c.list| == |p.list| && forall i | 0 <= i < |p.list| :: c.list[i] == Property(p.list[i].key, Compact(p.list[i].schema)))
  }

  // The members of properties keep their names and places, the lists their lengths and order; what
  // stands in them is compacted in turn.
  lemma CompactExactly(s: Schema)
    requires s.Keywords?
    ensures var c := Compact(s);
      && c.Keywords? && CopiedAsIs(s, c) && Dropped(c)
      && BranchesKept(s.anyOf, c.anyOf) && BranchesKept(s.allOf, c.allOf) && BranchesKept(s.oneOf, c.oneOf)
      && c.items.NoItems? == s.items.NoItems? && c.items.Each? == s.items.Each?
      && (s.items.Each? ==> c.items.schema == Compact(s.items.schema))
      && (s.items.Tuple? ==> BranchesKept(Branches(s.items.schemas), Branches(c.items.schemas)))
      && PropertiesKept(s.properties, c.properties)
  {
  }

  // Nothing that compaction drops occurs wherever it goes.
  predicate Lean(s: Schema)
    decreases s
  {
    match s
    case Always(_) => true
    case Keywords(_, _, _, items, properties, anyOf, allOf, oneOf, _, _, _, _) =>
      && Dropped(s)
      && (items.Each? ==> Lean(items.schema))
      && (items.Tuple? ==> forall i | 0 <= i < |items.schemas| :: Lean(items.schemas[i]))
      && (properties.Properties? ==> forall i | 0 <= i < |properties.list| :: Lean(properties.list[i].schema))
      && (anyOf.Branches? ==> forall i | 0 <= i < |anyOf.list| :: Lean(anyOf.list[i]))
      && (allOf.Branches? ==> forall i | 0 <= i < |allOf.list| :: Lean(allOf.list[i]))
      && (oneOf.Branches? ==> forall i | 0 <= i < |oneOf.list| :: Lean(oneOf.list[i]))
  }

  lemma {:induction false} LeanList(ss: seq<Schema>)
    requires forall i | 0 <= i < |ss| :: Lean(ss[i])
    ensures CompactList(ss) == ss
    decreases ss, 0
  {
    forall i | 0 <= i < |ss| ensures Compact(ss[i]) == ss[i] { LeanUnchanged(ss[i]); }
  }

  lemma {:induction false} LeanProperties(ps: seq<Property>)
    requires forall i | 0 <= i < |ps| :: Lean(ps[i].schema)
    ensures CompactEach(ps) == ps
    decreases ps, 0
  {
    forall i | 0 <= i < |ps| ensures Compact(ps[i].schema) == ps[i].schema { LeanUnchanged(ps[i].schema); }
  }

  // A schema without them is left as it is: compaction loses nothing else.
  lemma {:induction false} LeanUnchanged(s: Schema)
    requires Lean(s)
    ensures Compact(s) == s
    decreases s, 1
  {
    if s.Keywords? {
      if s.items.Each? { LeanUnchanged(s.items.schema); }
      if s.items.Tuple? { LeanList(s.items.schemas); }
      if s.properties.Properties? { LeanProperties(s.properties.list); }
      if s.anyOf.Branches? { LeanList(s.anyOf.list); }
      if s.allOf.Branches? { LeanList(s.allOf.list); }
      if s.oneOf.Branches? { LeanList(s.oneOf.list); }
    }
  }
}
