// The canonical JSON text that every signature and hash of the system is taken over.

module StableStringify {

  import opened Prelude

  // JavaScript strings are sequences of UTF-16 code units.
  type Unit = u: int | 0 <= u < 0x1_0000
  type Text = seq<Unit>

  // A JavaScript value as the printer sees it: an object keeps its properties in insertion order.
  datatype Js =
    | Undefined
    | Null
    | Bool(b: bool)
    | Num(n: int)
    | Str(s: Text)
    | Arr(items: seq<Js>)
    | Obj(fields: seq<Field>)

  datatype Field = Field(key: Text, value: Js)

  // A JSON value: an object is an unordered map.
  datatype Value =
    | VNull
    | VBool(b: bool)
    | VNum(n: int)
    | VStr(s: Text)
    | VArr(items: seq<Value>)
    | VObj(members: map<Text, Value>)

  predicate DistinctKeys(fields: seq<Field>) {
    forall i, j | 0 <= i < j < |fields| :: fields[i].key != fields[j].key
  }

  // Property names of one object are unique.
  ghost predicate Valid(v: Js) {
    match v
    case Arr(items) => forall i | 0 <= i < |items| :: Valid(items[i])
    case Obj(fields) => DistinctKeys(fields) && forall i | 0 <= i < |fields| :: Valid(fields[i].value)
    case _ => true
  }

  function Keys(fields: seq<Field>): (ks: seq<Text>)
    ensures |ks| == |fields|
    ensures forall i | 0 <= i < |fields| :: ks[i] == fields[i].key
  {
    seq(|fields|, i requires 0 <= i < |fields| => fields[i].key)
  }

  function IndexOf(fields: seq<Field>, k: Text): (i: nat)
    requires k in Keys(fields)
    ensures i < |fields| && fields[i].key == k
  {
    if fields[0].key == k then 0 else
      assert k in Keys(fields[1..]) by {
        var j :| 0 <= j < |fields| && Keys(fields)[j] == k;
        assert Keys(fields[1..])[j - 1] == k;
      }
      1 + IndexOf(fields[1..], k)
  }

  function Get(obj: Js, k: Text): (v: Js)
    requires obj.Obj? && k in Keys(obj.fields)
    ensures v < obj
    ensures Valid(obj) ==> Valid(v)
  {
    obj.fields[IndexOf(obj.fields, k)].value
  }

  // ---------------------------------------------------------------- key order

  // Array.prototype.sort() on strings: lexicographic on code units.
  predicate Less(a: Text, b: Text) {
    if b == [] then false
    else if a == [] then true
    else a[0] < b[0] || (a[0] == b[0] && Less(a[1..], b[1..]))
  }

  lemma {:induction false} LessTransitive(a: Text, b: Text, c: Text)
    requires Less(a, b) && Less(b, c)
    ensures Less(a, c)
  {
    if a != [] && a[0] == b[0] == c[0] {
      LessTransitive(a[1..], b[1..], c[1..]);
    }
  }

  lemma {:induction false} LessTotal(a: Text, b: Text)
    ensures a == b || Less(a, b) || Less(b, a)
    ensures !(Less(a, b) && Less(b, a))
    ensures a == b ==> !Less(a, b)
  {
    if a != [] && b != [] {
      LessTotal(a[1..], b[1..]);
      assert a == [a[0]] + a[1..] && b == [b[0]] + b[1..];
    }
  }

  predicate Sorted(ks: seq<Text>) {
    forall i, j | 0 <= i < j < |ks| :: Less(ks[i], ks[j])
  }

  function InsertKey(k: Text, ks: seq<Text>): seq<Text> {
    if ks == [] || !Less(ks[0], k) then [k] + ks else [ks[0]] + InsertKey(k, ks[1..])
  }

  function SortKeys(ks: seq<Text>): seq<Text> {
    if ks == [] then [] else InsertKey(ks[0], SortKeys(ks[1..]))
  }

  lemma {:induction false} InsertKeySorted(k: Text, ks: seq<Text>)
    requires Sorted(ks) && k !in ks
    ensures Sorted(InsertKey(k, ks))
    ensures forall x :: x in InsertKey(k, ks) <==> x == k || x in ks
  {
    if ks != [] {
      assert ks == [ks[0]] + ks[1..];
      LessTotal(ks[0], k);
      if Less(ks[0], k) {
        InsertKeySorted(k, ks[1..]);
        var r := InsertKey(k, ks[1..]);
        forall j | 0 <= j < |r| ensures Less(ks[0], r[j]) {
          assert r[j] in r;
        }
      } else {
        forall j | 0 <= j < |ks| ensures Less(k, ks[j]) {
          if j > 0 { LessTransitive(k, ks[0], ks[j]); }
        }
      }
    }
  }

  lemma SortKeysLength(ks: seq<Text>)
    ensures |SortKeys(ks)| == |ks|
  {
    if ks != [] { InsertKeyLength(ks[0], SortKeys(ks[1..])); }
  }

  lemma InsertKeyLength(k: Text, ks: seq<Text>)
    ensures |InsertKey(k, ks)| == |ks| + 1
  {
  }

  lemma {:induction false} SortKeysSorted(ks: seq<Text>)
    requires forall i, j | 0 <= i < j < |ks| :: ks[i] != ks[j]
    ensures Sorted(SortKeys(ks))
    ensures forall x :: x in SortKeys(ks) <==> x in ks
  {
    if ks != [] {
      assert ks == [ks[0]] + ks[1..];
      SortKeysSorted(ks[1..]);
      InsertKeySorted(ks[0], SortKeys(ks[1..]));
    }
  }

  lemma NonemptyHasKey(ks: seq<Text>)
    requires ks != []
    ensures exists k :: k in ks
  {
    assert ks[0] in ks;
  }

  // A set of keys has one sorted listing.
  lemma {:induction false} SortedUnique(xs: seq<Text>, ys: seq<Text>)
    requires Sorted(xs) && Sorted(ys)
    requires forall k :: k in xs <==> k in ys
    ensures xs == ys
  {
    if xs == [] {
      if ys != [] { NonemptyHasKey(ys); }
    } else {
      assert xs[0] in ys;
      assert ys[0] in xs;
      LessTotal(xs[0], ys[0]);
      assert xs[0] == ys[0];
      forall k ensures k in xs[1..] <==> k in ys[1..] {
        LessTotal(xs[0], xs[0]);
        assert k in xs <==> k == xs[0] || k in xs[1..];
        assert k in ys <==> k == ys[0] || k in ys[1..];
        assert xs[0] !in xs[1..] && ys[0] !in ys[1..];
      }
      SortedUnique(xs[1..], ys[1..]);
    }
  }

  // ---------------------------------------------------------------- printer

  const QUOTE: Unit := 34
  const BACKSLASH: Unit := 92
  const COMMA: Unit := 44
  const COLON: Unit := 58
  const MINUS: Unit := 45
  const OPEN_BRACKET: Unit := 91
  const CLOSE_BRACKET: Unit := 93
  const OPEN_BRACE: Unit := 123
  const CLOSE_BRACE: Unit := 125
  const NULL_TEXT: Text := [110, 117, 108, 108]
  const TRUE_TEXT: Text := [116, 114, 117, 101]
  const FALSE_TEXT: Text := [102, 97, 108, 115, 101]

  predicate IsHighSurrogate(u: Unit) { 0xD800 <= u < 0xDC00 }

  predicate IsLowSurrogate(u: Unit) { 0xDC00 <= u < 0xE000 }

  predicate IsDigit(u: Unit) { 48 <= u < 58 }

  function HexDigit(d: int): Unit
    requires 0 <= d < 16
  {
    if d < 10 then 48 + d else 87 + d
  }

  function Hex4(u: Unit): Text {
    [HexDigit(u / 4096), HexDigit(u / 256 % 16), HexDigit(u / 16 % 16), HexDigit(u % 16)]
  }

  // JSON.stringify escapes quotes, backslashes, control characters and lone surrogates.
  function EscapeUnit(u: Unit): Text {
    if u == QUOTE || u == BACKSLASH then [BACKSLASH, u]
    else if u == 8 then [BACKSLASH, 98]
    else if u == 12 then [BACKSLASH, 102]
    else if u == 10 then [BACKSLASH, 110]
    else if u == 13 then [BACKSLASH, 114]
    else if u == 9 then [BACKSLASH, 116]
    else if u < 32 || IsHighSurrogate(u) || IsLowSurrogate(u) then [BACKSLASH, 117] + Hex4(u)
    else [u]
  }

  function Escape(s: Text): Text {
    if s == [] then []
    else if |s| > 1 && IsHighSurrogate(s[0]) && IsLowSurrogate(s[1]) then [s[0], s[1]] + Escape(s[2..])
    else EscapeUnit(s[0]) + Escape(s[1..])
  }

  function Quote(s: Text): Text {
    [QUOTE] + Escape(s) + [QUOTE]
  }

  function Digits(n: nat): Text {
    if n < 10 then [48 + n] else Digits(n / 10) + [48 + n % 10]
  }

  function PrintInt(n: int): Text {
    if n < 0 then [MINUS] + Digits(-n) else Digits(n)
  }

  function Stringify(v: Js): Text
    decreases v, 1, 0
  {
    match v
    case Undefined => NULL_TEXT
    case Null => NULL_TEXT
    case Bool(b) => if b then TRUE_TEXT else FALSE_TEXT
    case Num(n) => PrintInt(n)
    case Str(s) => Quote(s)
    case Arr(items) => [OPEN_BRACKET] + JoinItems(items) + [CLOSE_BRACKET]
    case Obj(fields) =>
      var keys := SortKeys(Keys(fields));
      SortKeysMembers(Keys(fields));
      [OPEN_BRACE] + JoinMembers(v, keys) + [CLOSE_BRACE]
  }

  lemma SortKeysMembers(ks: seq<Text>)
    ensures forall x | x in SortKeys(ks) :: x in ks
  {
    if ks != [] {
      SortKeysMembers(ks[1..]);
      InsertKeyMembers(ks[0], SortKeys(ks[1..]));
    }
  }

  lemma InsertKeyMembers(k: Text, ks: seq<Text>)
    ensures forall x | x in InsertKey(k, ks) :: x == k || x in ks
  {
  }

  function JoinItems(items: seq<Js>): Text
    decreases items, 0, 0
  {
    if items == [] then []
    else if |items| == 1 then Stringify(items[0])
    else Stringify(items[0]) + [COMMA] + JoinItems(items[1..])
  }

  function Member(obj: Js, k: Text): Text
    requires obj.Obj? && k in Keys(obj.fields)
    decreases obj, 0, 0
  {
    Quote(k) + [COLON] + Stringify(Get(obj, k))
  }

  function JoinMembers(obj: Js, keys: seq<Text>): Text
    requires obj.Obj? && forall k | k in keys :: k in Keys(obj.fields)
    decreases obj, 0, |keys| + 1
  {
    if keys == [] then []
    else if |keys| == 1 then Member(obj, keys[0])
    else Member(obj, keys[0]) + [COMMA] + JoinMembers(obj, keys[1..])
  }

  // ---------------------------------------------------------------- meaning

  // The JSON value a JavaScript value stands for; undefined is written as null.
  ghost function Meaning(v: Js): Value {
    match v
    case Undefined => VNull
    case Null => VNull
    case Bool(b) => VBool(b)
    case Num(n) => VNum(n)
    case Str(s) => VStr(s)
    case Arr(items) => VArr(Meanings(items))
    case Obj(fields) => VObj(map k | k in Keys(fields) :: Meaning(Get(v, k)))
  }

  ghost function Meanings(items: seq<Js>): seq<Value> {
    if items == [] then [] else [Meaning(items[0])] + Meanings(items[1..])
  }

  ghost function MeaningOfKeys(obj: Js, keys: seq<Text>): map<Text, Value>
    requires obj.Obj? && forall k | k in keys :: k in Keys(obj.fields)
  {
    map k | k in keys :: Meaning(Get(obj, k))
  }

  // ---------------------------------------------------------------- parser (RFC 8259, sections 4-7)

  function HexValue(u: Unit): Option<int> {
    if 48 <= u < 58 then Some(u - 48) else if 97 <= u < 103 then Some(u - 87) else None
  }

  function ParseHex4(t: Text): Option<Unit>
    requires |t| >= 4
  {
    var a, b, c, d := HexValue(t[0]), HexValue(t[1]), HexValue(t[2]), HexValue(t[3]);
    if a.Some? && b.Some? && c.Some? && d.Some?
       && 0 <= a.value < 16 && 0 <= b.value < 16 && 0 <= c.value < 16 && 0 <= d.value < 16
    then Some(((a.value * 16 + b.value) * 16 + c.value) * 16 + d.value)
    else None
  }

  function Unescape(u: Unit): Option<Unit> {
    if u == QUOTE || u == BACKSLASH then Some(u)
    else if u == 98 then Some(8)
    else if u == 102 then Some(12)
    else if u == 110 then Some(10)
    else if u == 114 then Some(13)
    else if u == 116 then Some(9)
    else None
  }

  // One escaped or literal code unit of a string.
  function ParseUnit(t: Text): (r: Option<(Unit, Text)>)
    requires t != []
    ensures r.Some? ==> |r.value.1| < |t|
  {
    if t[0] == BACKSLASH then
      if |t| >= 6 && t[1] == 117 then
        match ParseHex4(t[2..6])
        case None => None
        case Some(u) => Some((u, t[6..]))
      else if |t| >= 2 then
        match Unescape(t[1])
        case None => None
        case Some(u) => Some((u, t[2..]))
      else None
    else if t[0] < 32 then None
    else Some((t[0], t[1..]))
  }

  // The body of a string, up to and including the closing quote.
  function ParseString(t: Text): (r: Option<(Text, Text)>)
    ensures r.Some? ==> |r.value.1| < |t|
  {
    if t == [] then None
    else if t[0] == QUOTE then Some(([], t[1..]))
    else
      match ParseUnit(t)
      case None => None
      case Some((u, t')) =>
        match ParseString(t')
        case None => None
        case Some((s, rest)) => Some(([u] + s, rest))
  }

  function ParseDigits(t: Text, acc: nat): (r: (nat, Text))
    ensures |r.1| <= |t|
  {
    if t != [] && IsDigit(t[0]) then ParseDigits(t[1..], acc * 10 + (t[0] - 48)) else (acc, t)
  }

  function Literal(t: Text, name: Text, v: Value): (r: Option<(Value, Text)>)
    requires name != []
    ensures r.Some? ==> |r.value.1| < |t|
  {
    if name <= t then Some((v, t[|name|..])) else None
  }

  function ParseNumber(t: Text): (r: Option<(Value, Text)>)
    requires t != []
    ensures r.Some? ==> |r.value.1| < |t|
  {
    if t[0] == MINUS then
      if |t| > 1 && IsDigit(t[1]) then
        var r := ParseDigits(t[2..], t[1] - 48);
        Some((VNum(-(r.0 as int)), r.1))
      else None
    else if IsDigit(t[0]) then
      var r := ParseDigits(t[1..], t[0] - 48);
      Some((VNum(r.0), r.1))
    else None
  }

  function Parse(t: Text): (r: Option<(Value, Text)>)
    ensures r.Some? ==> |r.value.1| < |t|
    decreases |t|, 0
  {
    if t == [] then None
    else if t[0] == 110 then Literal(t, NULL_TEXT, VNull)
    else if t[0] == 116 then Literal(t, TRUE_TEXT, VBool(true))
    else if t[0] == 102 then Literal(t, FALSE_TEXT, VBool(false))
    else if t[0] == QUOTE then
      match ParseString(t[1..])
      case None => None
      case Some((s, rest)) => Some((VStr(s), rest))
    else if t[0] == MINUS || IsDigit(t[0]) then ParseNumber(t)
    else if t[0] == OPEN_BRACKET then
      if |t| > 1 && t[1] == CLOSE_BRACKET then Some((VArr([]), t[2..]))
      else
        match ParseItems(t[1..])
        case None => None
        case Some((vs, rest)) => Some((VArr(vs), rest))
    else if t[0] == OPEN_BRACE then
      if |t| > 1 && t[1] == CLOSE_BRACE then Some((VObj(map[]), t[2..]))
      else
        match ParseMembers(t[1..])
        case None => None
        case Some((m, rest)) => Some((VObj(m), rest))
    else None
  }

  function ParseItems(t: Text): (r: Option<(seq<Value>, Text)>)
    ensures r.Some? ==> |r.value.1| < |t|
    decreases |t|, 1
  {
    match Parse(t)
    case None => None
    case Some((v, rest)) =>
      if rest == [] then None
      else if rest[0] == CLOSE_BRACKET then Some(([v], rest[1..]))
      else if rest[0] == COMMA then
        match ParseItems(rest[1..])
        case None => None
        case Some((vs, rest')) => Some(([v] + vs, rest'))
      else None
  }

  function ParseMember(t: Text): (r: Option<(Text, Value, Text)>)
    ensures r.Some? ==> |r.value.2| < |t|
    decreases |t|, 1
  {
    if t == [] || t[0] != QUOTE then None
    else
      match ParseString(t[1..])
      case None => None
      case Some((k, afterKey)) =>
        if afterKey == [] || afterKey[0] != COLON then None
        else
          match Parse(afterKey[1..])
          case None => None
          case Some((v, rest)) => Some((k, v, rest))
  }

  function ParseMembers(t: Text): (r: Option<(map<Text, Value>, Text)>)
    ensures r.Some? ==> |r.value.1| < |t|
    decreases |t|, 2
  {
    match ParseMember(t)
    case None => None
    case Some((k, v, rest)) =>
      if rest == [] then None
      else if rest[0] == CLOSE_BRACE then Some((map[k := v], rest[1..]))
      else if rest[0] == COMMA then
        match ParseMembers(rest[1..])
        case None => None
        case Some((m, rest')) => Some((m[k := v], rest'))
      else None
  }

  // ---------------------------------------------------------------- the parser inverts the printer

  lemma Hex4RoundTrip(u: Unit)
    ensures ParseHex4(Hex4(u)) == Some(u)
  {
    var a, b, c, d := u / 4096, u / 256 % 16, u / 16 % 16, u % 16;
    assert u / 256 == a * 16 + b;
    assert u / 16 == (a * 16 + b) * 16 + c;
    assert u == ((a * 16 + b) * 16 + c) * 16 + d;
  }

  lemma EscapeUnitRoundTrip(u: Unit, rest: Text)
    ensures EscapeUnit(u) != [] && EscapeUnit(u)[0] != QUOTE
    ensures ParseUnit(EscapeUnit(u) + rest) == Some((u, rest))
  {
    var t := EscapeUnit(u) + rest;
    if |EscapeUnit(u)| == 6 {
      assert t[2..6] == Hex4(u) && t[6..] == rest;
      Hex4RoundTrip(u);
    } else if |EscapeUnit(u)| == 2 {
      assert t[2..] == rest;
    } else {
      assert t[1..] == rest;
    }
  }

  lemma ParseStringStep(t: Text, u: Unit, tail: Text, s: Text, rest: Text)
    requires t != [] && t[0] != QUOTE && ParseUnit(t) == Some((u, tail))
    requires ParseString(tail) == Some((s, rest))
    ensures ParseString(t) == Some(([u] + s, rest))
  {
  }

  lemma Regroup(a: Text, b: Text, c: Text, d: Text)
    ensures a + b + c + d == a + (b + c + d)
  {
  }

  lemma {:induction false} StringRoundTrip(s: Text, rest: Text)
    ensures ParseString(Escape(s) + [QUOTE] + rest) == Some((s, rest))
    decreases |s|
  {
    if s == [] {
      assert Escape(s) + [QUOTE] + rest == [QUOTE] + rest;
    } else if |s| > 1 && IsHighSurrogate(s[0]) && IsLowSurrogate(s[1]) {
      var tail := Escape(s[2..]) + [QUOTE] + rest;
      StringRoundTrip(s[2..], rest);
      Regroup([s[0], s[1]], Escape(s[2..]), [QUOTE], rest);
      assert ([s[1]] + tail)[1..] == tail;
      ParseStringStep([s[1]] + tail, s[1], tail, s[2..], rest);
      assert ([s[0], s[1]] + tail)[1..] == [s[1]] + tail;
      ParseStringStep([s[0], s[1]] + tail, s[0], [s[1]] + tail, [s[1]] + s[2..], rest);
      assert s == [s[0]] + ([s[1]] + s[2..]);
    } else {
      var tail := Escape(s[1..]) + [QUOTE] + rest;
      StringRoundTrip(s[1..], rest);
      EscapeUnitRoundTrip(s[0], tail);
      Regroup(EscapeUnit(s[0]), Escape(s[1..]), [QUOTE], rest);
      ParseStringStep(EscapeUnit(s[0]) + tail, s[0], tail, s[1..], rest);
      assert s == [s[0]] + s[1..];
    }
  }

  lemma {:induction false} DigitsRoundTrip(n: nat, rest: Text)
    ensures Digits(n) != [] && IsDigit(Digits(n)[0])
    ensures ParseDigits((Digits(n) + rest)[1..], Digits(n)[0] - 48) == ParseDigits(rest, n)
  {
    if n < 10 {
      assert (Digits(n) + rest)[1..] == rest;
    } else {
      var last := [48 + n % 10] + rest;
      DigitsRoundTrip(n / 10, last);
      assert Digits(n) + rest == Digits(n / 10) + last;
      assert last[1..] == rest;
    }
  }

  // What a string is printed as: quotes, backslashes and control characters are escaped, by a letter
  // where there is one; so are lone surrogates, in lower-case hexadecimal; nothing else is.
  lemma EscapesExactly(u: Unit)
    ensures EscapeUnit(u) == [u] <==> u >= 32 && u != 34 && u != 92 && !(0xD800 <= u <= 0xDFFF)
    ensures |EscapeUnit(u)| == 2 <==> u in {8, 9, 10, 12, 13, 34, 92}
    ensures |EscapeUnit(u)| in {1, 2, 6}
    ensures |EscapeUnit(u)| == 6 ==> forall i | 2 <= i < 6 :: 48 <= EscapeUnit(u)[i] <= 57 || 97 <= EscapeUnit(u)[i] <= 102
  {
  }

  lemma PairKept(high: Unit, low: Unit, s: Text)
    requires 0xD800 <= high <= 0xDBFF && 0xDC00 <= low <= 0xDFFF
    ensures Escape([high, low] + s) == [high, low] + Escape(s)
  {
    assert ([high, low] + s)[2..] == s;
  }

  lemma {:induction false} PlainKept(s: Text)
    requires forall u | u in s :: EscapeUnit(u) == [u]
    ensures Escape(s) == s
  {
    if s != [] {
      assert s == [s[0]] + s[1..];
      PlainKept(s[1..]);
    }
  }

  // An integer is printed without leading zeros, and with a sign only below zero.
  lemma {:induction false} DigitsExactly(n: nat)
    ensures var t := Digits(n);
      t != [] && (forall i | 0 <= i < |t| :: 48 <= t[i] <= 57) && (t[0] == 48 <==> n == 0) && (n == 0 ==> |t| == 1)
  {
    if n >= 10 { DigitsExactly(n / 10); }
  }

  lemma IntegerExactly(n: int)
    ensures var t := PrintInt(n); var digits := if n < 0 then t[1..] else t;
      && (t[0] == 45 <==> n < 0)
      && digits != [] && (forall i | 0 <= i < |digits| :: 48 <= digits[i] <= 57) && (digits[0] == 48 ==> n == 0 && |digits| == 1)
  {
    DigitsExactly(if n < 0 then -n else n);
  }

  // What may follow a value without extending it.
  predicate Delimited(rest: Text) {
    rest == [] || !IsDigit(rest[0])
  }

  lemma {:induction false} NumberRoundTrip(n: int, rest: Text)
    requires Delimited(rest)
    ensures Parse(PrintInt(n) + rest) == Some((VNum(n), rest))
  {
    var m := if n < 0 then -n else n;
    var digits := Digits(m) + rest;
    DigitsRoundTrip(m, rest);
    if n < 0 {
      Regroup([MINUS], Digits(m), rest, []);
      assert PrintInt(n) + rest == [MINUS] + digits;
      ParseNegative(digits, m, rest);
    } else {
      assert ParseNumber(digits) == Some((VNum(n), rest));
    }
  }

  lemma ParseNegative(digits: Text, m: nat, rest: Text)
    requires digits != [] && IsDigit(digits[0]) && ParseDigits(digits[1..], digits[0] - 48) == (m, rest)
    ensures Parse([MINUS] + digits) == Some((VNum(-(m as int)), rest))
  {
    var t := [MINUS] + digits;
    assert t[2..] == digits[1..];
    assert t[1] == digits[0];
    assert ParseNumber(t) == Some((VNum(-(m as int)), rest));
    assert t[0] == MINUS;
    assert Parse(t) == ParseNumber(t);
  }

  lemma QuoteRoundTrip(s: Text, rest: Text)
    ensures Parse(Quote(s) + rest) == Some((VStr(s), rest))
  {
    assert (Quote(s) + rest)[1..] == Escape(s) + [QUOTE] + rest;
    StringRoundTrip(s, rest);
  }

  // Printing and reading back gives the value that was printed, whatever follows it.
  lemma {:induction false} RoundTrip(v: Js, rest: Text)
    requires Valid(v) && Delimited(rest)
    ensures Parse(Stringify(v) + rest) == Some((Meaning(v), rest))
    decreases v, 1, 0
  {
    match v
    case Undefined =>
    case Null =>
    case Bool(b) =>
    case Num(n) => NumberRoundTrip(n, rest);
    case Str(s) => QuoteRoundTrip(s, rest);
    case Arr(items) => ArrayRoundTrip(items, rest);
    case Obj(fields) => ObjectRoundTrip(v, rest);
  }

  lemma ValueStart(v: Js)
    ensures Stringify(v) != [] && Stringify(v)[0] != CLOSE_BRACKET
  {
    if v.Num? { DigitsRoundTrip(if v.n < 0 then -v.n else v.n, []); }
  }

  lemma {:induction false} ArrayRoundTrip(items: seq<Js>, rest: Text)
    requires forall i | 0 <= i < |items| :: Valid(items[i])
    ensures Parse([OPEN_BRACKET] + JoinItems(items) + [CLOSE_BRACKET] + rest) == Some((VArr(Meanings(items)), rest))
    decreases items, 0, 1
  {
    if items == [] {
      assert ([OPEN_BRACKET] + [] + [CLOSE_BRACKET] + rest)[2..] == rest;
    } else {
      ItemsRoundTrip(items, rest);
      ValueStart(items[0]);
      assert JoinItems(items)[0] == Stringify(items[0])[0];
      ParseArrayText(JoinItems(items), Meanings(items), rest);
    }
  }

  lemma ParseArrayText(inner: Text, vs: seq<Value>, rest: Text)
    requires inner != [] && inner[0] != CLOSE_BRACKET
    requires ParseItems(inner + [CLOSE_BRACKET] + rest) == Some((vs, rest))
    ensures Parse([OPEN_BRACKET] + inner + [CLOSE_BRACKET] + rest) == Some((VArr(vs), rest))
  {
    var t := [OPEN_BRACKET] + inner + [CLOSE_BRACKET] + rest;
    assert t[1..] == inner + [CLOSE_BRACKET] + rest;
    assert t[1] == inner[0];
  }

  lemma {:induction false} ItemsRoundTrip(items: seq<Js>, rest: Text)
    requires items != [] && forall i | 0 <= i < |items| :: Valid(items[i])
    ensures ParseItems(JoinItems(items) + [CLOSE_BRACKET] + rest) == Some((Meanings(items), rest))
    decreases items, 0, 0
  {
    var t := JoinItems(items) + [CLOSE_BRACKET] + rest;
    var next := if |items| == 1 then [CLOSE_BRACKET] + rest
                else [COMMA] + (JoinItems(items[1..]) + [CLOSE_BRACKET] + rest);
    assert t == Stringify(items[0]) + next;
    RoundTrip(items[0], next);
    if |items| == 1 {
      assert next[1..] == rest;
      assert Meanings(items) == [Meaning(items[0])];
    } else {
      ItemsRoundTrip(items[1..], rest);
      assert next[1..] == JoinItems(items[1..]) + [CLOSE_BRACKET] + rest;
    }
  }

  // The members of an object text, one at a time.

  lemma ParseMemberText(k: Text, body: Text, v: Value, rest: Text)
    requires Parse(body + rest) == Some((v, rest))
    ensures ParseMember(Quote(k) + [COLON] + body + rest) == Some((k, v, rest))
  {
    var t := Quote(k) + [COLON] + body + rest;
    var afterKey := [COLON] + (body + rest);
    assert t[1..] == Escape(k) + [QUOTE] + afterKey;
    StringRoundTrip(k, afterKey);
    assert afterKey[1..] == body + rest;
  }

  lemma ParseLastMember(k: Text, body: Text, v: Value, rest: Text)
    requires Parse(body + ([CLOSE_BRACE] + rest)) == Some((v, [CLOSE_BRACE] + rest))
    ensures ParseMembers(Quote(k) + [COLON] + body + [CLOSE_BRACE] + rest) == Some((map[k := v], rest))
  {
    var next := [CLOSE_BRACE] + rest;
    ParseMemberText(k, body, v, next);
    assert Quote(k) + [COLON] + body + [CLOSE_BRACE] + rest == Quote(k) + [COLON] + body + next;
    assert next[1..] == rest;
  }

  lemma ParseNextMember(k: Text, body: Text, v: Value, more: Text, m: map<Text, Value>, rest: Text)
    requires Parse(body + ([COMMA] + (more + [CLOSE_BRACE] + rest))) == Some((v, [COMMA] + (more + [CLOSE_BRACE] + rest)))
    requires ParseMembers(more + [CLOSE_BRACE] + rest) == Some((m, rest))
    ensures ParseMembers(Quote(k) + [COLON] + body + [COMMA] + more + [CLOSE_BRACE] + rest) == Some((m[k := v], rest))
  {
    var tail := more + [CLOSE_BRACE] + rest;
    ParseMemberText(k, body, v, [COMMA] + tail);
    NextText(Quote(k) + [COLON] + body, more, rest);
  }

  lemma NextText(head: Text, more: Text, rest: Text)
    ensures head + [COMMA] + more + [CLOSE_BRACE] + rest == head + ([COMMA] + (more + [CLOSE_BRACE] + rest))
  {
  }

  lemma ParseObjectText(members: Text, m: map<Text, Value>, rest: Text)
    requires members != [] && members[0] == QUOTE
    requires ParseMembers(members + [CLOSE_BRACE] + rest) == Some((m, rest))
    ensures Parse([OPEN_BRACE] + members + [CLOSE_BRACE] + rest) == Some((VObj(m), rest))
  {
    var t := [OPEN_BRACE] + members + [CLOSE_BRACE] + rest;
    assert t[1..] == members + [CLOSE_BRACE] + rest;
    assert t[1] == members[0];
  }

  lemma {:induction false} ObjectRoundTrip(obj: Js, rest: Text)
    requires obj.Obj? && Valid(obj)
    ensures Parse(Stringify(obj) + rest) == Some((Meaning(obj), rest))
    decreases obj, 0, |obj.fields| + 1
  {
    var keys := SortKeys(Keys(obj.fields));
    SortKeysSorted(Keys(obj.fields));
    SortKeysLength(Keys(obj.fields));
    assert MeaningOfKeys(obj, keys) == Meaning(obj).members;
    assert Stringify(obj) == [OPEN_BRACE] + JoinMembers(obj, keys) + [CLOSE_BRACE];
    if keys == [] {
    } else {
      MembersRoundTrip(obj, keys, rest);
      ParseObjectText(JoinMembers(obj, keys), MeaningOfKeys(obj, keys), rest);
    }
  }

  lemma MeaningOfKeysStep(obj: Js, keys: seq<Text>)
    requires obj.Obj? && keys != [] && forall k | k in keys :: k in Keys(obj.fields)
    ensures MeaningOfKeys(obj, keys) == MeaningOfKeys(obj, keys[1..])[keys[0] := Meaning(Get(obj, keys[0]))]
    ensures MeaningOfKeys(obj, []) == map[]
  {
  }

  lemma {:induction false} MembersRoundTrip(obj: Js, keys: seq<Text>, rest: Text)
    requires obj.Obj? && Valid(obj) && keys != [] && Sorted(keys)
    requires forall k | k in keys :: k in Keys(obj.fields)
    ensures JoinMembers(obj, keys) != [] && JoinMembers(obj, keys)[0] == QUOTE
    ensures ParseMembers(JoinMembers(obj, keys) + [CLOSE_BRACE] + rest) == Some((MeaningOfKeys(obj, keys), rest))
    decreases obj, 0, |keys|
  {
    var k := keys[0];
    var child := Get(obj, k);
    if |keys| == 1 {
      RoundTrip(child, [CLOSE_BRACE] + rest);
      ParseLastMember(k, Stringify(child), Meaning(child), rest);
      MeaningOfKeysStep(obj, keys);
    } else {
      var more := JoinMembers(obj, keys[1..]);
      RoundTrip(child, [COMMA] + (more + [CLOSE_BRACE] + rest));
      MembersRoundTrip(obj, keys[1..], rest);
      ParseNextMember(k, Stringify(child), Meaning(child), more, MeaningOfKeys(obj, keys[1..]), rest);
      MeaningOfKeysStep(obj, keys);
    }
  }

  // ---------------------------------------------------------------- canonical form

  lemma {:induction false} SameMeaningSameText(a: Js, b: Js)
    requires Valid(a) && Valid(b) && Meaning(a) == Meaning(b)
    ensures Stringify(a) == Stringify(b)
    decreases a, 1, 0
  {
    match a
    case Arr(items) =>
      SameItemsSameText(items, b.items);
    case Obj(fields) =>
      var ka, kb := SortKeys(Keys(fields)), SortKeys(Keys(b.fields));
      SortKeysSorted(Keys(fields));
      SortKeysSorted(Keys(b.fields));
      assert Meaning(a).members.Keys == Meaning(b).members.Keys;
      forall k ensures k in ka <==> k in kb {
        assert k in Meaning(a).members <==> k in Meaning(b).members;
      }
      SortedUnique(ka, kb);
      SameMembersSameText(a, b, ka);
    case _ =>
  }

  lemma {:induction false} SameItemsSameText(xs: seq<Js>, ys: seq<Js>)
    requires forall i | 0 <= i < |xs| :: Valid(xs[i])
    requires forall i | 0 <= i < |ys| :: Valid(ys[i])
    requires Meanings(xs) == Meanings(ys)
    ensures |xs| == |ys| && JoinItems(xs) == JoinItems(ys)
    decreases xs, 0, 0
  {
    if xs != [] && ys != [] {
      assert Meaning(xs[0]) == Meanings(xs)[0] == Meanings(ys)[0] == Meaning(ys[0]);
      assert Meanings(xs)[1..] == Meanings(xs[1..]) && Meanings(ys)[1..] == Meanings(ys[1..]);
      SameMeaningSameText(xs[0], ys[0]);
      SameItemsSameText(xs[1..], ys[1..]);
    }
  }

  lemma {:induction false} SameMembersSameText(a: Js, b: Js, keys: seq<Text>)
    requires a.Obj? && b.Obj? && Valid(a) && Valid(b) && Meaning(a) == Meaning(b)
    requires forall k | k in keys :: k in Keys(a.fields) && k in Keys(b.fields)
    ensures JoinMembers(a, keys) == JoinMembers(b, keys)
    decreases a, 0, |keys|
  {
    if keys != [] {
      assert Meaning(Get(a, keys[0])) == Meaning(a).members[keys[0]];
      assert Meaning(Get(b, keys[0])) == Meaning(b).members[keys[0]];
      SameMeaningSameText(Get(a, keys[0]), Get(b, keys[0]));
      SameMembersSameText(a, b, keys[1..]);
    }
  }

  // The text identifies the JSON value exactly: neither key order nor anything else shows through,
  // and no two different values share a text.
  lemma Canonical(a: Js, b: Js)
    requires Valid(a) && Valid(b)
    ensures Stringify(a) == Stringify(b) <==> Meaning(a) == Meaning(b)
  {
    if Meaning(a) == Meaning(b) {
      SameMeaningSameText(a, b);
    }
    RoundTrip(a, []);
    RoundTrip(b, []);
    assert Stringify(a) + [] == Stringify(a) && Stringify(b) + [] == Stringify(b);
  }
}
