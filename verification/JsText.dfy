// JavaScript text helpers shared by several components: white space, trimming and decimal numerals.

module JsText {

  // White space of String.prototype.trim and of the class \s.
  predicate IsSpace(c: char) {
    var u := c as int;
    || 0x09 <= u <= 0x0D || u == 0x20 || u == 0xA0 || u == 0x1680 || 0x2000 <= u <= 0x200A
    || u == 0x2028 || u == 0x2029 || u == 0x202F || u == 0x205F || u == 0x3000 || u == 0xFEFF
  }

  // Tabulator, line feed, vertical tabulator, form feed, carriage return, the line and paragraph
  // separators, the byte order mark, and the spaces of Unicode.
  lemma SpacesExactly(c: char)
    ensures IsSpace(c) <==> (c as int) in {
      9, 10, 11, 12, 13, 32, 0xA0, 0x1680, 0x2000, 0x2001, 0x2002, 0x2003, 0x2004, 0x2005, 0x2006, 0x2007, 0x2008, 0x2009, 0x200A,
      0x2028, 0x2029, 0x202F, 0x205F, 0x3000, 0xFEFF}
  {
  }

  predicate Blank(s: string) {
    forall i | 0 <= i < |s| :: IsSpace(s[i])
  }

  function TrimStart(s: string): string {
    if s != "" && IsSpace(s[0]) then TrimStart(s[1..]) else s
  }

  function TrimEnd(s: string): string {
    if s != "" && IsSpace(s[|s| - 1]) then TrimEnd(s[..|s| - 1]) else s
  }

  function Trim(s: string): string {
    TrimEnd(TrimStart(s))
  }

  lemma {:induction false} TrimBlank(w: string, t: string)
    requires Blank(w) && (t == "" || !IsSpace(t[0]))
    ensures TrimStart(w + t) == t
  {
    if w == "" {
      assert w + t == t;
    } else {
      assert (w + t)[1..] == w[1..] + t;
      TrimBlank(w[1..], t);
    }
  }

  lemma {:induction false} TrimEndBlank(t: string, w: string)
    requires Blank(w) && t != "" && !IsSpace(t[|t| - 1])
    ensures TrimEnd(t + w) == t
  {
    if w == "" {
      assert t + w == t;
    } else {
      var n := |w| - 1;
      assert (t + w)[..|t + w| - 1] == t + w[..n];
      TrimEndBlank(t, w[..n]);
    }
  }

  // Thirty-two bytes in lower-case hexadecimal.
  predicate IsHex64(s: string) {
    |s| == 64 && forall i | 0 <= i < 64 :: '0' <= s[i] <= '9' || 'a' <= s[i] <= 'f'
  }

  lemma Hex64Exactly(s: string)
    ensures IsHex64(s) <==> |s| == 64 && forall c | c in s :: c in "0123456789abcdef"
  {
    if |s| == 64 && forall c | c in s :: c in "0123456789abcdef" {
      forall i | 0 <= i < 64 ensures '0' <= s[i] <= '9' || 'a' <= s[i] <= 'f' { assert s[i] in s; }
    }
  }

  predicate IsDigit(c: char) { '0' <= c <= '9' }

  predicate AllDigits(s: string) {
    forall i | 0 <= i < |s| :: IsDigit(s[i])
  }

  predicate IsNumeral(s: string) {
    s != "" && AllDigits(s)
  }

  function DecimalValue(s: string): nat
    requires AllDigits(s)
  {
    if s == "" then 0 else 10 * DecimalValue(s[..|s| - 1]) + (s[|s| - 1] as int - '0' as int)
  }

  function Decimal(n: nat): string {
    var d := [(('0' as int) + n % 10) as char];
    if n < 10 then d else Decimal(n / 10) + d
  }

  lemma {:induction false} DecimalRoundTrip(n: nat)
    ensures IsNumeral(Decimal(n)) && DecimalValue(Decimal(n)) == n
  {
    var s := Decimal(n);
    if n < 10 {
      assert s[..0] == "";
    } else {
      DecimalRoundTrip(n / 10);
      assert s[..|s| - 1] == Decimal(n / 10);
    }
  }
}
