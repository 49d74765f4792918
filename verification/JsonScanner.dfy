// Recovering the last JSON value from command output that may hold several in a row.

module JsonScanner {

  import opened Prelude
  import opened JsText

  predicate IsOpen(c: char) {
    c == '{' || c == '['
  }

  // ---------------------------------------------------------------- the scan

  function OpenOf(brace: bool): char { if brace then '{' else '[' }
  function CloseOf(brace: bool): char { if brace then '}' else ']' }

  // The loop's variables; depth counts brackets of one kind only.
  datatype Scan = Scan(depth: int, inString: bool, esc: bool)

  function Eat(brace: bool, st: Scan, c: char): Scan {
    if st.inString then
      if st.esc then st.(esc := false)
      else if c == '\\' then st.(esc := true)
      else st.(inString := c != '"')
    else if c == '"' then st.(inString := true)
    else if c == OpenOf(brace) then st.(depth := st.depth + 1)
    else if c == CloseOf(brace) then st.(depth := st.depth - 1)
    else st
  }

  // What is left of the text once the depth is back to zero.
  function Match(t: string, brace: bool, st: Scan): (rest: Option<string>)
    ensures rest.Some? ==> |rest.value| < |t|
  {
    if t == "" then None
    else
      var st' := Eat(brace, st, t[0]);
      if st'.depth == 0 then Some(t[1..]) else Match(t[1..], brace, st')
  }

  const START := Scan(0, false, false)

  // The chunks cut from the text, up to the first place where no bracket opens or one never closes.
  function Chunks(t: string): seq<string>
    decreases |t|
  {
    var s := TrimStart(t);
    TrimStartShorter(t);
    if s == "" || !IsOpen(s[0]) then []
    else
      match Match(s, s[0] == '{', START)
      case None => []
      case Some(rest) => [s[..|s| - |rest|]] + Chunks(rest)
  }

  lemma TrimStartShorter(t: string)
    ensures |TrimStart(t)| <= |t|
  {
  }

  datatype Output<+V> = Parsed(value: V) | Raw(text: string)

  function ParseAll<V>(chunks: seq<string>, parse: string -> Option<V>): seq<V> {
    if chunks == [] then []
    else match parse(Trim(chunks[0]))
      case Some(v) => [v] + ParseAll(chunks[1..], parse)
      case None => ParseAll(chunks[1..], parse)
  }

  // JSON.parse is a parameter; an empty text gives an empty result.
  function Result<V>(text: string, parse: string -> Option<V>): Output<V> {
    var s := Trim(text);
    if s == "" then Raw("")
    else match parse(s)
      case Some(v) => Parsed(v)
      case None =>
        var out := ParseAll(Chunks(s), parse);
        if out != [] then Parsed(out[|out| - 1]) else Raw(s)
  }

  method SkipSpace(s: string, from: nat) returns (i: nat)
    requires from <= |s|
    ensures from <= i <= |s| && s[i..] == TrimStart(s[from..])
  {
    i := from;
    while i < |s| && IsSpace(s[i])
      invariant from <= i <= |s| && TrimStart(s[i..]) == TrimStart(s[from..])
    {
      i := i + 1;
    }
  }

  lemma MatchStep(s: string, j: nat, brace: bool, st: Scan)
    requires j < |s|
    ensures var st' := Eat(brace, st, s[j]);
      Match(s[j..], brace, st) == if st'.depth == 0 then Some(s[j + 1..]) else Match(s[j + 1..], brace, st')
  {
    assert s[j..][1..] == s[j + 1..];
  }

  // The brace-matching loop from position i; closed tells whether the bracket at i was closed.
  method FindEnd(s: string, i: nat, brace: bool) returns (j: nat, closed: bool)
    requires i < |s| && s[i] == OpenOf(brace)
    ensures i < j <= |s|
    ensures Match(s[i..], brace, START) == if closed then Some(s[j..]) else None
  {
    var depth, inString, esc := 0, false, false;
    j := i;
    while j < |s|
      invariant i <= j <= |s| && (depth >= 1 || (j == i && depth == 0 && !inString && !esc))
      invariant Match(s[j..], brace, Scan(depth, inString, esc)) == Match(s[i..], brace, START)
    {
      var ch := s[j];
      ghost var was := Scan(depth, inString, esc);
      MatchStep(s, j, brace, was);
      if inString {
        if esc {
          esc := false;
        } else if ch == '\\' {
          esc := true;
        } else if ch == '"' {
          inString := false;
        }
      } else if ch == '"' {
        inString := true;
      } else {
        if ch == OpenOf(brace) { depth := depth + 1; }
        if ch == CloseOf(brace) {
          depth := depth - 1;
          if depth == 0 {
            j := j + 1;
            break;
          }
        }
      }
      assert Scan(depth, inString, esc) == Eat(brace, was, ch);
      j := j + 1;
    }
    closed := depth == 0;
  }

  // One turn of the outer loop, from position i to the start k of the next bracket.
  lemma ChunksStep(s: string, i: nat, k: nat)
    requires i <= k <= |s| && s[k..] == TrimStart(s[i..])
    ensures k == |s| || !IsOpen(s[k]) ==> Chunks(s[i..]) == []
    ensures k < |s| && IsOpen(s[k]) ==>
      var end := Match(s[k..], s[k] == '{', START);
      Chunks(s[i..]) == if end.None? then [] else [s[k..|s| - |end.value|]] + Chunks(end.value)
  {
    if k < |s| && IsOpen(s[k]) {
      var end := Match(s[k..], s[k] == '{', START);
      if end.Some? { assert s[k..][..|s[k..]| - |end.value|] == s[k..|s| - |end.value|]; }
    }
  }

  lemma {:induction false} ParseSnoc<V>(chunks: seq<string>, chunk: string, parse: string -> Option<V>)
    ensures ParseAll(chunks + [chunk], parse) ==
      ParseAll(chunks, parse) + (match parse(Trim(chunk)) case Some(v) => [v] case None => [])
  {
    if chunks != [] {
      assert (chunks + [chunk])[1..] == chunks[1..] + [chunk];
      ParseSnoc(chunks[1..], chunk, parse);
    }
  }

  lemma ChunkCut(s: string, from: nat, i: nat, j: nat)
    requires from <= i < j <= |s| && s[i..] == TrimStart(s[from..]) && IsOpen(s[i])
    requires Match(s[i..], s[i] == '{', START) == Some(s[j..])
    ensures Chunks(s[from..]) == [s[i..j]] + Chunks(s[j..])
  {
    ChunksStep(s, from, i);
    assert |s[j..]| == |s| - j;
  }

  lemma CutOne(s: string, all: seq<string>, cut: seq<string>, from: nat, i: nat, j: nat)
    requires from <= i < j <= |s| && s[i..] == TrimStart(s[from..]) && IsOpen(s[i])
    requires cut + Chunks(s[from..]) == all && Match(s[i..], s[i] == '{', START) == Some(s[j..])
    ensures (cut + [s[i..j]]) + Chunks(s[j..]) == all
  {
    ChunkCut(s, from, i, j);
    MoveOver(cut, s[i..j], Chunks(s[j..]));
  }

  lemma MoveOver(cut: seq<string>, chunk: string, rest: seq<string>)
    ensures (cut + [chunk]) + rest == cut + ([chunk] + rest)
  {
  }

  lemma CutAll(s: string, cut: seq<string>, from: nat, i: nat)
    requires from <= i <= |s| && s[i..] == TrimStart(s[from..])
    requires i == |s| || !IsOpen(s[i]) || Match(s[i..], s[i] == '{', START) == None
    requires cut + Chunks(s[from..]) == Chunks(s)
    ensures cut == Chunks(s)
  {
    ChunksStep(s, from, i);
    assert cut + [] == cut;
  }

  // The values parsed from the chunks of a text, in order.
  method Extract<V>(s: string, parse: string -> Option<V>) returns (out: seq<V>)
    ensures out == ParseAll(Chunks(s), parse)
  {
    out := [];
    ghost var cut: seq<string> := [];
    var i := 0;
    assert s[0..] == s;
    while i < |s|
      invariant 0 <= i <= |s|
      invariant cut + Chunks(s[i..]) == Chunks(s)
      invariant out == ParseAll(cut, parse)
      decreases |s| - i
    {
      ghost var from := i;
      i := SkipSpace(s, i);
      if i >= |s| || !IsOpen(s[i]) {
        CutAll(s, cut, from, i);
        return;
      }
      var j, closed := FindEnd(s, i, s[i] == '{');
      if !closed {
        CutAll(s, cut, from, i);
        return;
      }
      CutOne(s, Chunks(s), cut, from, i, j);
      ParseSnoc(cut, s[i..j], parse);
      cut := cut + [s[i..j]];
      var v := parse(Trim(s[i..j]));
      if v.Some? { out := out + [v.value]; }
      i := j;
    }
    CutAll(s, cut, i, i);
  }

  method ParseJsonOrJsonLines<V>(text: string, parse: string -> Option<V>) returns (r: Output<V>)
    ensures r == Result(text, parse)
  {
    var s := Trim(text);
    if s == "" { return Raw(""); }
    var whole := parse(s);
    if whole.Some? { return Parsed(whole.value); }
    var out := Extract(s, parse);
    if |out| > 0 { return Parsed(out[|out| - 1]); }
    r := Raw(s);
  }

  // ---------------------------------------------------------------- JSON texts as token trees

  // A string is made of plain units and escapes; a text outside strings is made of plain characters,
  // strings and bracketed groups. Every object or array of RFC 8259 is such a group, with its
  // numbers, literals, commas, colons and white space as plain characters.
  datatype Part = Unit(c: char) | Escape(c: char)
  datatype Item = Plain(c: char) | Quoted(parts: seq<Part>) | Group(brace: bool, items: seq<Item>)

  predicate GoodPart(p: Part) {
    p.Unit? ==> p.c != '"' && p.c != '\\'
  }

  predicate Good(item: Item) {
    match item
    case Plain(c) => c != '"' && !IsOpen(c) && c != '}' && c != ']'
    case Quoted(parts) => forall i | 0 <= i < |parts| :: GoodPart(parts[i])
    case Group(_, items) => forall i | 0 <= i < |items| :: Good(items[i])
  }

  function PartsText(parts: seq<Part>): string {
    if parts == [] then ""
    else (if parts[0].Unit? then [parts[0].c] else ['\\', parts[0].c]) + PartsText(parts[1..])
  }

  function Text(item: Item): string {
    match item
    case Plain(c) => [c]
    case Quoted(parts) => ['"'] + PartsText(parts) + ['"']
    case Group(brace, items) => [OpenOf(brace)] + ItemsText(items) + [CloseOf(brace)]
  }

  function ItemsText(items: seq<Item>): string {
    if items == [] then "" else Text(items[0]) + ItemsText(items[1..])
  }

  lemma {:induction false} PartsMatched(parts: seq<Part>, t: string, brace: bool, depth: int)
    requires depth >= 1 && forall i | 0 <= i < |parts| :: GoodPart(parts[i])
    ensures Match(PartsText(parts) + (['"'] + t), brace, Scan(depth, true, false)) == Match(t, brace, Scan(depth, false, false))
  {
    if parts == [] {
      assert PartsText(parts) + (['"'] + t) == ['"'] + t;
    } else {
      var c, rest := parts[0].c, PartsText(parts[1..]) + (['"'] + t);
      PartsMatched(parts[1..], t, brace, depth);
      if parts[0].Unit? {
        assert PartsText(parts) + (['"'] + t) == [c] + rest;
      } else {
        assert PartsText(parts) + (['"'] + t) == ['\\'] + ([c] + rest);
      }
    }
  }

  lemma Regroup(a: string, b: string, c: string, d: string)
    ensures a + b + c + d == a + (b + (c + d))
  {
  }

  lemma QuotedMatched(parts: seq<Part>, t: string, brace: bool, depth: int)
    requires depth >= 1 && Good(Quoted(parts))
    ensures Match(Text(Quoted(parts)) + t, brace, Scan(depth, false, false)) == Match(t, brace, Scan(depth, false, false))
  {
    Regroup(['"'], PartsText(parts), ['"'], t);
    PartsMatched(parts, t, brace, depth);
  }

  // The depth inside a bracket that is counted, or not.
  function Deeper(kind: bool, brace: bool, depth: int): int {
    if kind == brace then depth + 1 else depth
  }

  lemma GroupOpened(kind: bool, items: seq<Item>, t: string, brace: bool, depth: int)
    requires depth >= 1 || (kind == brace && depth == 0)
    ensures Match(Text(Group(kind, items)) + t, brace, Scan(depth, false, false)) ==
      Match(ItemsText(items) + ([CloseOf(kind)] + t), brace, Scan(Deeper(kind, brace, depth), false, false))
  {
    Regroup([OpenOf(kind)], ItemsText(items), [CloseOf(kind)], t);
  }

  lemma GroupClosed(kind: bool, t: string, brace: bool, depth: int)
    requires depth >= 1
    ensures Match([CloseOf(kind)] + t, brace, Scan(Deeper(kind, brace, depth), false, false)) == Match(t, brace, Scan(depth, false, false))
  {
  }

  lemma PlainMatched(c: char, t: string, brace: bool, depth: int)
    requires depth >= 1 && Good(Plain(c))
    ensures Match(Text(Plain(c)) + t, brace, Scan(depth, false, false)) == Match(t, brace, Scan(depth, false, false))
  {
  }

  // Inside an open bracket a balanced item leaves the scan where it was.
  lemma {:induction false} ItemMatched(item: Item, t: string, brace: bool, depth: int)
    requires Good(item) && depth >= 1
    ensures Match(Text(item) + t, brace, Scan(depth, false, false)) == Match(t, brace, Scan(depth, false, false))
    decreases item, 0
  {
    match item
    case Plain(c) => PlainMatched(c, t, brace, depth);
    case Quoted(parts) => QuotedMatched(parts, t, brace, depth);
    case Group(kind, items) =>
      GroupOpened(kind, items, t, brace, depth);
      ItemsMatched(item, items, [CloseOf(kind)] + t, brace, Deeper(kind, brace, depth));
      GroupClosed(kind, t, brace, depth);
  }

  lemma {:induction false} ItemsMatched(whole: Item, items: seq<Item>, t: string, brace: bool, depth: int)
    requires whole.Group? && (forall i | 0 <= i < |items| :: Good(items[i]) && items[i] in whole.items) && depth >= 1
    ensures Match(ItemsText(items) + t, brace, Scan(depth, false, false)) == Match(t, brace, Scan(depth, false, false))
    decreases whole, 0, |items|
  {
    if items == [] {
      assert ItemsText(items) + t == t;
    } else {
      assert items[0] in whole.items;
      var rest := ItemsText(items[1..]) + t;
      assert ItemsText(items) + t == Text(items[0]) + rest;
      ItemMatched(items[0], rest, brace, depth);
      ItemsMatched(whole, items[1..], t, brace, depth);
    }
  }

  // The loop stops exactly at the end of a bracketed group, whatever follows.
  lemma GroupMatched(g: Item, t: string)
    requires Good(g) && g.Group?
    ensures Match(Text(g) + t, g.brace, START) == Some(t)
  {
    GroupOpened(g.brace, g.items, t, g.brace, 0);
    ItemsMatched(g, g.items, [CloseOf(g.brace)] + t, g.brace, 1);
  }

  // ---------------------------------------------------------------- one chunk per value

  datatype Spaced = Spaced(before: string, group: Item)

  ghost predicate GoodStream(values: seq<Spaced>) {
    forall i | 0 <= i < |values| :: Blank(values[i].before) && values[i].group.Group? && Good(values[i].group)
  }

  function StreamText(values: seq<Spaced>, after: string): string {
    if values == [] then after else values[0].before + Text(values[0].group) + StreamText(values[1..], after)
  }

  function GroupTexts(values: seq<Spaced>): seq<string> {
    seq(|values|, i requires 0 <= i < |values| => Text(values[i].group))
  }

  lemma StreamCons(values: seq<Spaced>, after: string)
    requires values != []
    ensures StreamText(values, after) == values[0].before + (Text(values[0].group) + StreamText(values[1..], after))
  {
  }

  // The first chunk of white space, a group and anything else.
  lemma FirstChunk(before: string, g: Item, rest: string)
    requires Blank(before) && Good(g) && g.Group?
    ensures Chunks(before + (Text(g) + rest)) == [Text(g)] + Chunks(rest)
  {
    var t := Text(g) + rest;
    TrimBlank(before, t);
    GroupMatched(g, rest);
    assert t[..|t| - |rest|] == Text(g);
  }

  // Text that opens no bracket where the scan would look for one.
  predicate Quiet(t: string) {
    TrimStart(t) == "" || !IsOpen(TrimStart(t)[0])
  }

  lemma BlankQuiet(t: string)
    requires Blank(t)
    ensures Quiet(t)
  {
    TrimBlank(t, "");
    assert t + "" == t;
  }

  // Brackets, quotes and escapes inside strings do not mislead the scan: it cuts one chunk per value, and
  // stops at whatever follows them.
  lemma {:induction false} OneChunkPerValue(values: seq<Spaced>, after: string)
    requires GoodStream(values) && Quiet(after)
    ensures Chunks(StreamText(values, after)) == GroupTexts(values)
  {
    if values != [] {
      StreamCons(values, after);
      FirstChunk(values[0].before, values[0].group, StreamText(values[1..], after));
      OneChunkPerValue(values[1..], after);
      assert GroupTexts(values) == [Text(values[0].group)] + GroupTexts(values[1..]);
    }
  }

  lemma {:induction false} StreamSplit(values: seq<Spaced>, after: string)
    requires GoodStream(values)
    ensures StreamText(values, after) == StreamText(values, "") + after
    ensures values != [] ==> var t := StreamText(values, ""); t != "" && !IsSpace(t[|t| - 1])
  {
    if values != [] {
      StreamSplit(values[1..], after);
      var head, tail := values[0].before + Text(values[0].group), StreamText(values[1..], "");
      assert StreamText(values, after) == head + (tail + after);
      if |values| == 1 { assert head + tail == head; }
    }
  }

  lemma StartTrimmed(values: seq<Spaced>, after: string)
    requires GoodStream(values) && values != []
    ensures TrimStart(StreamText(values, after)) == Text(values[0].group) + StreamText(values[1..], after)
  {
    StreamCons(values, after);
    TrimBlank(values[0].before, Text(values[0].group) + StreamText(values[1..], after));
  }

  lemma TrimmedStream(values: seq<Spaced>, after: string)
    requires GoodStream(values) && Blank(after) && values != []
    ensures Trim(StreamText(values, after)) == StreamText([Spaced("", values[0].group)] + values[1..], "")
    ensures Trim(StreamText(values, after)) != ""
  {
    var trimmed := [Spaced("", values[0].group)] + values[1..];
    assert trimmed[1..] == values[1..];
    StartTrimmed(values, after);
    assert "" + (Text(values[0].group) + StreamText(values[1..], after)) == Text(values[0].group) + StreamText(values[1..], after);
    StreamCons(trimmed, after);
    StreamSplit(trimmed, after);
    TrimEndBlank(StreamText(trimmed, ""), after);
  }

  lemma {:induction false} ParseGroups<V>(values: seq<Spaced>, parse: string -> Option<V>)
    requires GoodStream(values) && forall i | 0 <= i < |values| :: parse(Text(values[i].group)).Some?
    ensures var out := ParseAll(GroupTexts(values), parse);
      |out| == |values| && forall i | 0 <= i < |values| :: Some(out[i]) == parse(Text(values[i].group))
  {
    if values != [] {
      assert GroupTexts(values)[1..] == GroupTexts(values[1..]);
      ParseGroups(values[1..], parse);
    }
  }

  // Output holding several JSON objects or arrays, with any white space between and around them,
  // yields the last one; a single one is what JSON.parse makes of the whole text.
  lemma LastValue<V>(values: seq<Spaced>, after: string, parse: string -> Option<V>)
    requires GoodStream(values) && Blank(after) && values != []
    requires forall i | 0 <= i < |values| :: parse(Text(values[i].group)).Some?
    requires |values| > 1 ==> parse(Trim(StreamText(values, after))).None?
    ensures Result(StreamText(values, after), parse) == Parsed(parse(Text(values[|values| - 1].group)).value)
  {
    var trimmed := [Spaced("", values[0].group)] + values[1..];
    TrimmedStream(values, after);
    BlankQuiet("");
    OneChunkPerValue(trimmed, "");
    ParseGroups(trimmed, parse);
    assert trimmed[|values| - 1].group == values[|values| - 1].group;
    if |values| == 1 {
      assert "" + Text(values[0].group) + "" == Text(values[0].group);
      assert StreamText(trimmed[1..], "") == "";
      assert Trim(StreamText(values, after)) == Text(values[0].group);
    }
  }

  predicate Read<V>(values: seq<Spaced>, parse: string -> Option<V>, k: nat)
    requires k < |values|
  {
    parse(Text(values[k].group)).Some?
  }

  // The readable chunks in order, seen from the last of them.
  lemma {:induction false} LastRead<V>(values: seq<Spaced>, parse: string -> Option<V>, k: nat)
    requires GoodStream(values) && k < |values| && Read(values, parse, k) && forall i | k < i < |values| :: !Read(values, parse, i)
    ensures var out := ParseAll(GroupTexts(values), parse); out != [] && Some(out[|out| - 1]) == parse(Text(values[k].group))
  {
    assert GroupTexts(values)[1..] == GroupTexts(values[1..]);
    if k > 0 {
      assert Read(values[1..], parse, k - 1);
      forall i | k - 1 < i < |values[1..]| ensures !Read(values[1..], parse, i) { assert !Read(values, parse, i + 1); }
      LastRead(values[1..], parse, k - 1);
    } else {
      forall i | 0 <= i < |values[1..]| ensures !Read(values[1..], parse, i) { assert !Read(values, parse, i + 1); }
      NoneRead(values[1..], parse);
    }
  }

  lemma {:induction false} NoneRead<V>(values: seq<Spaced>, parse: string -> Option<V>)
    requires GoodStream(values) && forall i | 0 <= i < |values| :: !Read(values, parse, i)
    ensures ParseAll(GroupTexts(values), parse) == []
  {
    if values != [] {
      assert !Read(values, parse, 0);
      assert GroupTexts(values)[1..] == GroupTexts(values[1..]);
      forall i | 0 <= i < |values[1..]| ensures !Read(values[1..], parse, i) { assert !Read(values, parse, i + 1); }
      NoneRead(values[1..], parse);
    }
  }

  // The stream without the white space in front of it.
  function Unindented(values: seq<Spaced>): seq<Spaced>
    requires values != []
  {
    [Spaced("", values[0].group)] + values[1..]
  }

  lemma UnindentedStart(values: seq<Spaced>, after: string)
    requires GoodStream(values) && values != []
    ensures GoodStream(Unindented(values)) && GroupTexts(Unindented(values)) == GroupTexts(values)
    ensures TrimStart(StreamText(values, after)) == StreamText(Unindented(values), after)
  {
    var u := Unindented(values);
    assert u[1..] == values[1..];
    StartTrimmed(values, after);
    StreamCons(u, after);
    assert "" + (Text(values[0].group) + StreamText(values[1..], after)) == Text(values[0].group) + StreamText(values[1..], after);
  }

  lemma NoisyEnd(t: string, noise: string, after: string)
    requires noise != "" && !IsSpace(noise[|noise| - 1]) && Blank(after)
    ensures TrimEnd(t + (noise + after)) == t + noise
  {
    assert t + (noise + after) == (t + noise) + after;
    TrimEndBlank(t + noise, after);
  }

  lemma NoisyTrimmed(values: seq<Spaced>, noise: string, after: string)
    requires GoodStream(values) && values != [] && noise != "" && !IsSpace(noise[|noise| - 1]) && Blank(after)
    ensures Trim(StreamText(values, noise + after)) == StreamText(Unindented(values), noise) != ""
  {
    UnindentedStart(values, noise + after);
    StreamSplit(Unindented(values), noise + after);
    StreamSplit(Unindented(values), noise);
    NoisyEnd(StreamText(Unindented(values), ""), noise, after);
  }

  lemma NoisyResult<V>(values: seq<Spaced>, noise: string, after: string, parse: string -> Option<V>)
    requires GoodStream(values) && values != [] && Quiet(noise) && noise != "" && !IsSpace(noise[|noise| - 1]) && Blank(after)
    requires parse(Trim(StreamText(values, noise + after))).None?
    ensures var out := ParseAll(GroupTexts(values), parse);
      Result(StreamText(values, noise + after), parse) ==
        if out != [] then Parsed(out[|out| - 1]) else Raw(Trim(StreamText(values, noise + after)))
  {
    UnindentedStart(values, noise + after);
    NoisyTrimmed(values, noise, after);
    OneChunkPerValue(Unindented(values), noise);
  }

  // The first k values end with the last one that can be read.
  ghost predicate ReadUpTo<V>(values: seq<Spaced>, parse: string -> Option<V>, k: nat) {
    k <= |values| && (k > 0 ==> Read(values, parse, k - 1)) && forall i | k <= i < |values| :: !Read(values, parse, i)
  }

  lemma ReadExactly<V>(values: seq<Spaced>, parse: string -> Option<V>, k: nat)
    requires GoodStream(values) && ReadUpTo(values, parse, k)
    ensures var out := ParseAll(GroupTexts(values), parse);
      if k > 0 then out != [] && Some(out[|out| - 1]) == parse(Text(values[k - 1].group)) else out == []
  {
    if k > 0 { LastRead(values, parse, k - 1); } else { NoneRead(values, parse); }
  }

  // Values followed by other text: the last value that can be read is the result, and the trimmed text
  // itself where none can.
  lemma LastBeforeNoise<V>(values: seq<Spaced>, noise: string, after: string, parse: string -> Option<V>, k: nat)
    requires GoodStream(values) && values != [] && Quiet(noise) && noise != "" && !IsSpace(noise[|noise| - 1]) && Blank(after)
    requires parse(Trim(StreamText(values, noise + after))).None? && ReadUpTo(values, parse, k)
    ensures k > 0 ==> Result(StreamText(values, noise + after), parse) == Parsed(parse(Text(values[k - 1].group)).value)
    ensures k == 0 ==> Result(StreamText(values, noise + after), parse) == Raw(Trim(StreamText(values, noise + after)))
  {
    ReadExactly(values, parse, k);
    NoisyResult(values, noise, after, parse);
  }

  // Text that opens no bracket is handed back trimmed, unless it is JSON itself.
  lemma QuietIsRaw<V>(text: string, parse: string -> Option<V>)
    requires Quiet(Trim(text))
    ensures Result(text, parse) ==
      if Trim(text) != "" && parse(Trim(text)).Some? then Parsed(parse(Trim(text)).value) else Raw(Trim(text))
  {
  }

  // ---------------------------------------------------------------- JSON objects and arrays are groups

  // RFC 8259, sections 2 to 7, with its white space kept. A scalar is a number or a literal name.
  datatype Json =
    | Scalar(lit: string)
    | String(body: seq<Part>)
    | Array(cells: seq<Cell>, gap: string)
    | Object(members: seq<Member>, gap: string)

  datatype Cell = Cell(before: string, value: Json, after: string)
  datatype Member = Member(before: string, key: seq<Part>, after: string, cell: Cell)

  predicate PlainText(s: string) {
    forall i | 0 <= i < |s| :: Good(Plain(s[i]))
  }

  predicate GoodString(parts: seq<Part>) {
    forall i | 0 <= i < |parts| :: GoodPart(parts[i])
  }

  predicate GoodJson(j: Json) {
    match j
    case Scalar(lit) => PlainText(lit)
    case String(body) => GoodString(body)
    case Array(cells, gap) => Blank(gap) && forall i | 0 <= i < |cells| :: GoodCell(cells[i])
    case Object(members, gap) => Blank(gap) && forall i | 0 <= i < |members| :: GoodMember(members[i])
  }

  predicate GoodCell(c: Cell) {
    Blank(c.before) && Blank(c.after) && GoodJson(c.value)
  }

  predicate GoodMember(m: Member) {
    Blank(m.before) && Blank(m.after) && GoodString(m.key) && GoodCell(m.cell)
  }

  function StringText(parts: seq<Part>): string {
    ['"'] + PartsText(parts) + ['"']
  }

  function JsonText(j: Json): string {
    match j
    case Scalar(lit) => lit
    case String(body) => StringText(body)
    case Array(cells, gap) => ['['] + (if cells == [] then gap else CellsText(cells)) + [']']
    case Object(members, gap) => ['{'] + (if members == [] then gap else MembersText(members)) + ['}']
  }

  function CellText(c: Cell): string {
    c.before + JsonText(c.value) + c.after
  }

  function MemberText(m: Member): string {
    m.before + StringText(m.key) + m.after + [':'] + CellText(m.cell)
  }

  function CellsText(cells: seq<Cell>): string
    requires cells != []
  {
    if |cells| == 1 then CellText(cells[0]) else CellText(cells[0]) + [','] + CellsText(cells[1..])
  }

  function MembersText(members: seq<Member>): string
    requires members != []
  {
    if |members| == 1 then MemberText(members[0]) else MemberText(members[0]) + [','] + MembersText(members[1..])
  }

  ghost predicate IsTree(items: seq<Item>, text: string) {
    (forall i | 0 <= i < |items| :: Good(items[i])) && ItemsText(items) == text
  }

  lemma {:induction false} TreeJoin(a: seq<Item>, s: string, b: seq<Item>, t: string)
    requires IsTree(a, s) && IsTree(b, t)
    ensures IsTree(a + b, s + t)
  {
    if a == [] {
      assert a + b == b && s + t == t;
    } else {
      assert (a + b)[1..] == a[1..] + b;
      TreeJoin(a[1..], ItemsText(a[1..]), b, t);
    }
  }

  lemma {:induction false} PlainTree(s: string) returns (items: seq<Item>)
    requires PlainText(s)
    ensures IsTree(items, s)
  {
    items := [];
    if s != "" {
      var rest := PlainTree(s[1..]);
      items := [Plain(s[0])] + rest;
      assert items[1..] == rest && s == [s[0]] + s[1..];
    }
  }

  lemma JsonTree(j: Json) returns (items: seq<Item>)
    requires GoodJson(j)
    ensures IsTree(items, JsonText(j))
    ensures j.Array? || j.Object? ==> |items| == 1 && items[0].Group?
    decreases j, 0
  {
    match j
    case Scalar(lit) => items := PlainTree(lit);
    case String(body) =>
      items := [Quoted(body)];
    case Array(cells, gap) =>
      var inner: seq<Item>;
      if cells == [] { inner := PlainTree(gap); } else { inner := CellsTree(j, cells); }
      items := [Group(false, inner)];
    case Object(members, gap) =>
      var inner: seq<Item>;
      if members == [] { inner := PlainTree(gap); } else { inner := MembersTree(j, members); }
      items := [Group(true, inner)];
  }

  lemma CellTree(c: Cell) returns (items: seq<Item>)
    requires GoodCell(c)
    ensures IsTree(items, CellText(c))
    decreases c, 0
  {
    var a := PlainTree(c.before);
    var b := JsonTree(c.value);
    var d := PlainTree(c.after);
    TreeJoin(a, c.before, b, JsonText(c.value));
    TreeJoin(a + b, c.before + JsonText(c.value), d, c.after);
    items := a + b + d;
  }

  lemma MemberTree(m: Member) returns (items: seq<Item>)
    requires GoodMember(m)
    ensures IsTree(items, MemberText(m))
    decreases m, 0
  {
    var a := PlainTree(m.before);
    var b := PlainTree(m.after);
    var c := CellTree(m.cell);
    TreeJoin(a, m.before, [Quoted(m.key)], StringText(m.key));
    TreeJoin(a + [Quoted(m.key)], m.before + StringText(m.key), b, m.after);
    TreeJoin(a + [Quoted(m.key)] + b, m.before + StringText(m.key) + m.after, [Plain(':')], [':']);
    TreeJoin(a + [Quoted(m.key)] + b + [Plain(':')], m.before + StringText(m.key) + m.after + [':'], c, CellText(m.cell));
    items := a + [Quoted(m.key)] + b + [Plain(':')] + c;
  }

  lemma CellsTree(whole: Json, cells: seq<Cell>) returns (items: seq<Item>)
    requires whole.Array? && cells != [] && forall i | 0 <= i < |cells| :: GoodCell(cells[i]) && cells[i] in whole.cells
    ensures IsTree(items, CellsText(cells))
    decreases whole, 0, |cells|
  {
    assert cells[0] in whole.cells;
    items := CellTree(cells[0]);
    if |cells| > 1 {
      var rest := CellsTree(whole, cells[1..]);
      TreeJoin(items, CellText(cells[0]), [Plain(',')], [',']);
      TreeJoin(items + [Plain(',')], CellText(cells[0]) + [','], rest, CellsText(cells[1..]));
      items := items + [Plain(',')] + rest;
    }
  }

  lemma MembersTree(whole: Json, members: seq<Member>) returns (items: seq<Item>)
    requires whole.Object? && members != [] && forall i | 0 <= i < |members| :: GoodMember(members[i]) && members[i] in whole.members
    ensures IsTree(items, MembersText(members))
    decreases whole, 0, |members|
  {
    assert members[0] in whole.members;
    items := MemberTree(members[0]);
    if |members| > 1 {
      var rest := MembersTree(whole, members[1..]);
      TreeJoin(items, MemberText(members[0]), [Plain(',')], [',']);
      TreeJoin(items + [Plain(',')], MemberText(members[0]) + [','], rest, MembersText(members[1..]));
      items := items + [Plain(',')] + rest;
    }
  }

  // Every JSON object or array is the text of a bracketed group, so the theorems above apply to it.
  lemma JsonIsGroup(j: Json)
    requires GoodJson(j) && (j.Array? || j.Object?)
    ensures exists g: Item :: g.Group? && Good(g) && Text(g) == JsonText(j)
  {
    var items := JsonTree(j);
    assert items == [items[0]] && ItemsText(items) == Text(items[0]) + ItemsText(items[1..]);
    assert Text(items[0]) == JsonText(j);
  }

  datatype Document = Document(before: string, json: Json)

  predicate GoodDocuments(docs: seq<Document>) {
    forall i | 0 <= i < |docs| :: Blank(docs[i].before) && GoodJson(docs[i].json) && (docs[i].json.Array? || docs[i].json.Object?)
  }

  function DocumentsText(docs: seq<Document>, after: string): string {
    if docs == [] then after else docs[0].before + JsonText(docs[0].json) + DocumentsText(docs[1..], after)
  }

  lemma DocumentsAreGroups(docs: seq<Document>, after: string) returns (values: seq<Spaced>)
    requires GoodDocuments(docs)
    ensures GoodStream(values) && |values| == |docs| && StreamText(values, after) == DocumentsText(docs, after)
    ensures forall i | 0 <= i < |docs| :: Text(values[i].group) == JsonText(docs[i].json)
  {
    values := [];
    if docs != [] {
      JsonIsGroup(docs[0].json);
      var g: Item :| g.Group? && Good(g) && Text(g) == JsonText(docs[0].json);
      var rest := DocumentsAreGroups(docs[1..], after);
      values := [Spaced(docs[0].before, g)] + rest;
      assert values[1..] == rest;
    }
  }

  // A parser that reads no more than RFC 8259 allows.
  ghost predicate JsonOnly<V(!new)>(parse: string -> Option<V>) {
    forall t | parse(t).Some? :: IsJson(t)
  }

  ghost predicate IsJson(t: string) {
    exists c: Cell :: GoodCell(c) && CellText(c) == t
  }

  // A JSON text that opens a bracket closes it with nothing but white space to follow.
  lemma JsonEndsBlank(t: string)
    requires IsJson(t) && t != "" && IsOpen(t[0])
    ensures Match(t, t[0] == '{', START).Some? && Blank(Match(t, t[0] == '{', START).value)
  {
    var c: Cell :| GoodCell(c) && CellText(c) == t;
    var text := JsonText(c.value);
    assert c.before == "" && t == text + c.after;
    assert text != "" && t[0] == text[0];
    JsonIsGroup(c.value);
    var g: Item :| g.Group? && Good(g) && Text(g) == text;
    GroupMatched(g, c.after);
    assert g.brace == (t[0] == '{');
  }

  // Several values in a row are no JSON text.
  lemma StreamIsNoJson(values: seq<Spaced>, after: string)
    requires GoodStream(values) && Blank(after) && |values| > 1
    ensures !IsJson(Trim(StreamText(values, after)))
  {
    var t, g, tail := Trim(StreamText(values, after)), values[0].group, StreamText(values[1..], "");
    TrimmedStream(values, after);
    StreamCons([Spaced("", g)] + values[1..], "");
    assert ([Spaced("", g)] + values[1..])[1..] == values[1..];
    assert t == Text(g) + tail && t[0] == OpenOf(g.brace);
    GroupMatched(g, tail);
    StreamSplit(values[1..], "");
    if IsJson(t) { JsonEndsBlank(t); }
  }

  // Command output holding several JSON objects or arrays, with any white space between and around
  // them and any brackets, quotes and escapes in their strings, yields the last one.
  lemma LastDocument<V(!new)>(docs: seq<Document>, after: string, parse: string -> Option<V>)
    requires GoodDocuments(docs) && Blank(after) && docs != [] && JsonOnly(parse)
    requires forall i | 0 <= i < |docs| :: parse(JsonText(docs[i].json)).Some?
    ensures Result(DocumentsText(docs, after), parse) == Parsed(parse(JsonText(docs[|docs| - 1].json)).value)
  {
    var values := DocumentsAreGroups(docs, after);
    if |docs| > 1 { StreamIsNoJson(values, after); }
    LastValue(values, after, parse);
  }
}
