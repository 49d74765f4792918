// The exact conversion of a decimal amount, as a language model writes it, with separators and a unit
// behind it, to atomic units.

module AtomicAmount {

  import opened Prelude
  import opened JsText

  function Power10(n: nat): (r: nat)
    ensures r > 0
  {
    if n == 0 then 1 else 10 * Power10(n - 1)
  }

  method Pow10BigInt(n: nat) returns (out: nat)
    ensures out == Power10(n)
  {
    out := 1;
    var i := 0;
    while i < n
      invariant 0 <= i <= n && out == Power10(i)
    {
      out := out * 10;
      i := i + 1;
    }
  }

  function WithoutSeparators(s: string): string {
    if s == "" then ""
    else if s[0] == '_' || s[0] == ',' then WithoutSeparators(s[1..])
    else [s[0]] + WithoutSeparators(s[1..])
  }

  function FirstToken(s: string): string {
    if s == "" || IsSpace(s[0]) then "" else [s[0]] + FirstToken(s[1..])
  }

  function Zeros(n: nat): (s: string)
    ensures AllDigits(s)
  {
    seq(n, _ => '0')
  }

  // Where the first dot is, or the length.
  function DotAt(s: string): (i: nat)
    ensures i <= |s|
  {
    if s == "" || s[0] == '.' then 0 else 1 + DotAt(s[1..])
  }

  // An optional plus sign, digits, and optionally a dot and more digits.
  function ParseDecimal(s: string): (r: Option<(string, string)>)
    ensures r.Some? ==> IsNumeral(r.value.0) && AllDigits(r.value.1)
  {
    var t := if s != "" && s[0] == '+' then s[1..] else s;
    var i := DotAt(t);
    if !IsNumeral(t[..i]) then None
    else if i == |t| then Some((t[..i], ""))
    else if IsNumeral(t[i + 1..]) then Some((t[..i], t[i + 1..]))
    else None
  }

  // ".5" reads as "0.5" and "1." as "1.0".
  function Dotted(s: string): string
    requires s != ""
  {
    var a := if s[0] == '.' then ['0'] + s else s;
    if a[|a| - 1] == '.' then a + ['0'] else a
  }

  function Scaled(whole: string, frac: string, decimals: nat): nat
    requires AllDigits(whole) && AllDigits(frac) && |frac| <= decimals
  {
    DecimalValue(whole) * Power10(decimals) + DecimalValue(frac + Zeros(decimals - |frac|))
  }

  // The atomic amount of a text, or None when it is left alone.
  function Atomic(s: string, decimals: nat): Option<string> {
    var token := FirstToken(WithoutSeparators(Trim(s)));
    if token == "" then None
    else if AllDigits(token) then Some(token)
    else match ParseDecimal(Dotted(token))
      case None => None
      case Some((whole, frac)) => if |frac| > decimals then None else Some(Decimal(Scaled(whole, frac, decimals)))
  }

  lemma {:induction false} NumeralText(s: string)
    requires AllDigits(s)
    ensures WithoutSeparators(s) == s && FirstToken(s) == s
  {
    if s != "" { NumeralText(s[1..]); }
  }

  // Text that already is atomic stays as it is.
  lemma NumeralFixed(s: string, decimals: nat)
    requires IsNumeral(s)
    ensures Atomic(s, decimals) == Some(s)
  {
    NumeralText(s);
  }

  lemma AtomicIsNumeral(s: string, decimals: nat)
    ensures Atomic(s, decimals).Some? ==> IsNumeral(Atomic(s, decimals).value)
  {
    var token := FirstToken(WithoutSeparators(Trim(s)));
    if token != "" && !AllDigits(token) {
      match ParseDecimal(Dotted(token))
      case None =>
      case Some((whole, frac)) => if |frac| <= decimals { DecimalRoundTrip(Scaled(whole, frac, decimals)); }
    }
  }

  lemma {:induction false} PowerAdd(a: nat, b: nat)
    ensures Power10(a + b) == Power10(a) * Power10(b)
    decreases b
  {
    if b > 0 { PowerAdd(a, b - 1); }
  }

  lemma {:induction false} ValueOfJoined(a: string, b: string)
    requires AllDigits(a) && AllDigits(b)
    ensures AllDigits(a + b) && DecimalValue(a + b) == DecimalValue(a) * Power10(|b|) + DecimalValue(b)
    decreases |b|
  {
    if b == "" {
      assert a + b == a;
    } else {
      var n := |b| - 1;
      assert (a + b)[..|a + b| - 1] == a + b[..n];
      ValueOfJoined(a, b[..n]);
      Shift(DecimalValue(a), Power10(n), DecimalValue(b[..n]));
    }
  }

  lemma Shift(x: nat, p: nat, y: nat)
    ensures 10 * (x * p + y) == x * (10 * p) + 10 * y
  {
  }

  lemma {:induction false} ZerosAreZero(n: nat)
    ensures DecimalValue(Zeros(n)) == 0
  {
    if n > 0 {
      assert Zeros(n)[..n - 1] == Zeros(n - 1);
      ZerosAreZero(n - 1);
    }
  }

  // N * 10^f == (whole * 10^f + frac) * 10^decimals, for f digits after the dot.
  lemma ScaledExact(whole: string, frac: string, decimals: nat)
    requires AllDigits(whole) && AllDigits(frac) && |frac| <= decimals
    ensures AllDigits(whole + frac)
    ensures Scaled(whole, frac, decimals) * Power10(|frac|) == DecimalValue(whole + frac) * Power10(decimals)
  {
    var f, pad := |frac|, decimals - |frac|;
    var w, x := DecimalValue(whole), DecimalValue(frac);
    var p, q, r := Power10(f), Power10(pad), Power10(decimals);
    ValueOfJoined(frac, Zeros(pad));
    ZerosAreZero(pad);
    ValueOfJoined(whole, frac);
    PowerAdd(pad, f);
    assert pad + f == decimals && r == q * p;
    Distribute(w, x, p, q, r);
  }

  lemma Distribute(w: nat, x: nat, p: nat, q: nat, r: nat)
    requires r == q * p
    ensures (w * r + x * q) * p == (w * p + x) * r
  {
    assert (w * r + x * q) * p == w * r * p + x * q * p;
    assert x * q * p == x * (q * p);
    assert (w * p + x) * r == w * p * r + x * r;
    assert w * r * p == w * p * r;
  }

  lemma {:induction false} DotAfter(whole: string, frac: string)
    requires AllDigits(whole)
    ensures DotAt(whole + ['.'] + frac) == |whole|
  {
    var s := whole + ['.'] + frac;
    if whole != "" {
      assert s[1..] == whole[1..] + ['.'] + frac;
      DotAfter(whole[1..], frac);
    }
  }

  lemma {:induction false} DecimalToken(s: string)
    requires forall i | 0 <= i < |s| :: IsDigit(s[i]) || s[i] == '.'
    ensures WithoutSeparators(s) == s && FirstToken(s) == s
  {
    if s != "" { DecimalToken(s[1..]); }
  }

  lemma DecimalTrimmed(s: string)
    requires s != "" && IsDigit(s[0]) && IsDigit(s[|s| - 1])
    ensures Trim(s) == s
  {
  }

  lemma ParseDotted(whole: string, frac: string)
    requires IsNumeral(whole) && IsNumeral(frac)
    ensures var s := whole + ['.'] + frac; s != "" && ParseDecimal(Dotted(s)) == Some((whole, frac))
  {
    var s := whole + ['.'] + frac;
    assert s[0] == whole[0] && s[|s| - 1] == frac[|frac| - 1];
    DotAfter(whole, frac);
    assert s[..|whole|] == whole && s[|whole| + 1..] == frac;
  }

  lemma TokenOfDotted(whole: string, frac: string)
    requires IsNumeral(whole) && IsNumeral(frac)
    ensures var s := whole + ['.'] + frac; FirstToken(WithoutSeparators(Trim(s))) == s && !AllDigits(s)
  {
    var s := whole + ['.'] + frac;
    assert s[0] == whole[0] && s[|s| - 1] == frac[|frac| - 1] && s[|whole|] == '.';
    DecimalTrimmed(s);
    DecimalToken(s);
  }

  lemma AtomicOfDotted(whole: string, frac: string, decimals: nat)
    requires IsNumeral(whole) && IsNumeral(frac)
    ensures Atomic(whole + ['.'] + frac, decimals) ==
      if |frac| > decimals then None else Some(Decimal(Scaled(whole, frac, decimals)))
  {
    TokenOfDotted(whole, frac);
    ParseDotted(whole, frac);
  }

  // A decimal text with at most the allowed digits after the dot becomes exactly its value in atomic
  // units; with more it is left alone.
  lemma DecimalExact(whole: string, frac: string, decimals: nat)
    requires IsNumeral(whole) && IsNumeral(frac)
    ensures var r := Atomic(whole + ['.'] + frac, decimals);
      if |frac| > decimals then r == None
      else r.Some? && IsNumeral(r.value) && AllDigits(whole + frac) &&
           DecimalValue(r.value) * Power10(|frac|) == DecimalValue(whole + frac) * Power10(decimals)
  {
    AtomicOfDotted(whole, frac, decimals);
    if |frac| <= decimals {
      DecimalRoundTrip(Scaled(whole, frac, decimals));
      ScaledExact(whole, frac, decimals);
    }
  }

  // ---------------------------------------------------------------- what counts as an amount

  predicate IsSeparator(c: char) {
    c == '_' || c == ','
  }

  lemma {:induction false} SeparatorsGo(a: string, b: string)
    ensures WithoutSeparators(a + b) == WithoutSeparators(a) + WithoutSeparators(b)
  {
    if a == "" {
      assert a + b == b;
    } else {
      assert (a + b)[1..] == a[1..] + b;
      SeparatorsGo(a[1..], b);
    }
  }

  // A text without white space at the ends, separators or spaces is its own token.
  predicate IsToken(s: string) {
    s != "" && forall i | 0 <= i < |s| :: !IsSeparator(s[i]) && !IsSpace(s[i])
  }

  lemma {:induction false} TokenThenRest(token: string, rest: string)
    requires (forall i | 0 <= i < |token| :: !IsSeparator(token[i]) && !IsSpace(token[i])) && (rest == "" || IsSpace(rest[0]))
    ensures WithoutSeparators(token) == token && FirstToken(token + rest) == token
  {
    if token == "" {
      assert token + rest == rest;
    } else {
      assert (token + rest)[1..] == token[1..] + rest;
      TokenThenRest(token[1..], rest);
    }
  }

  lemma TokenTrimmed(token: string)
    requires IsToken(token)
    ensures Trim(token) == token
  {
  }

  // Separators inside the amount, and words after it, do not matter: "1,234.5 usdt" is 1234.5.
  lemma NoiseIgnored(s: string, token: string, rest: string, decimals: nat)
    requires IsToken(token) && (rest == "" || IsSpace(rest[0])) && WithoutSeparators(Trim(s)) == token + rest
    ensures Atomic(s, decimals) == Atomic(token, decimals)
  {
    TokenThenRest(token, rest);
    TokenThenRest(token, "");
    TokenTrimmed(token);
    assert token + "" == token;
  }

  // The decimal an amount is read as: an optional plus sign, digits, and a dot with digits after it, where
  // those before a leading dot or after a trailing one may be missing.
  predicate ReadsAs(token: string, whole: string, frac: string)
    requires token != ""
  {
    var t := (if token[0] == '.' then "0" else "") + token + (if token[|token| - 1] == '.' then "0" else "");
    var u := whole + (if frac == "" then "" else ['.'] + frac);
    IsNumeral(whole) && AllDigits(frac) && (t == u || t == ['+'] + u)
  }

  lemma {:induction false} NoDot(s: string)
    requires AllDigits(s)
    ensures DotAt(s) == |s|
  {
    if s != "" { NoDot(s[1..]); }
  }

  lemma ParseReads(t: string, whole: string, frac: string)
    requires IsNumeral(whole) && AllDigits(frac) && t == whole + (if frac == "" then "" else ['.'] + frac)
    ensures ParseDecimal(t) == Some((whole, frac))
  {
    assert t[0] == whole[0];
    if frac == "" {
      assert t == whole;
      NoDot(whole);
    } else {
      assert t == whole + ['.'] + frac;
      DotAfter(whole, frac);
      assert t[..|whole|] == whole && t[|whole| + 1..] == frac;
    }
  }

  lemma ParseExactly(t: string, whole: string, frac: string)
    ensures ParseDecimal(t) == Some((whole, frac)) <==>
      && IsNumeral(whole) && AllDigits(frac)
      && var u := whole + (if frac == "" then "" else ['.'] + frac); t == u || t == ['+'] + u
  {
    var u := whole + (if frac == "" then "" else ['.'] + frac);
    var v := if t != "" && t[0] == '+' then t[1..] else t;
    if ParseDecimal(t) == Some((whole, frac)) {
      var i := DotAt(v);
      DotSplit(v);
      assert v == u;
      assert t == v || t == ['+'] + v;
    }
    if IsNumeral(whole) && AllDigits(frac) && (t == u || t == ['+'] + u) {
      ParseReads(u, whole, frac);
      assert u[0] == whole[0] && (['+'] + u)[1..] == u;
    }
  }

  lemma {:induction false} DotSplit(s: string)
    ensures var i := DotAt(s); if i < |s| then s == s[..i] + ['.'] + s[i + 1..] else s == s[..i]
    ensures var i := DotAt(s); i < |s| ==> s[i] == '.'
  {
    if s != "" && s[0] != '.' { DotSplit(s[1..]); }
  }

  // Of a token that is no digit string: it is an amount exactly when it reads as a decimal with no more
  // digits after the dot than allowed.
  lemma AmountExactly(token: string, decimals: nat)
    requires IsToken(token) && !AllDigits(token)
    ensures Atomic(token, decimals).Some? <==> exists whole, frac :: ReadsAs(token, whole, frac) && |frac| <= decimals
    ensures forall whole, frac | ReadsAs(token, whole, frac) && |frac| <= decimals ::
      Atomic(token, decimals) == Some(Decimal(Scaled(whole, frac, decimals)))
  {
    TokenThenRest(token, "");
    TokenTrimmed(token);
    assert token + "" == token;
    forall whole, frac ensures ReadsAs(token, whole, frac) <==> ParseDecimal(Dotted(token)) == Some((whole, frac)) {
      ParseExactly(Dotted(token), whole, frac);
      assert Dotted(token) == (if token[0] == '.' then "0" else "") + token + (if token[|token| - 1] == '.' then "0" else "");
    }
  }
}
