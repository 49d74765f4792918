// Decoding of BOLT #11 invoices from their human-readable part and 5-bit words.

module Bolt11 {

  import opened Prelude
  import opened Bech32
  import opened JsText

  // ---------------------------------------------------------------- numbers in words

  function WordsValue(words: seq<Word>): nat {
    if words == [] then 0 else 32 * WordsValue(words[..|words| - 1]) + words[|words| - 1]
  }

  function Power32(k: nat): (r: nat)
    ensures r > 0
  {
    if k == 0 then 1 else 32 * Power32(k - 1)
  }

  // n in exactly k words, most significant first.
  function NumberWords(n: nat, k: nat): (words: seq<Word>)
    ensures |words| == k
    decreases k
  {
    if k == 0 then [] else NumberWords(n / 32, k - 1) + [n % 32]
  }

  lemma {:induction false} NumberRoundTrip(n: nat, k: nat)
    requires n < Power32(k)
    ensures WordsValue(NumberWords(n, k)) == n
    decreases k
  {
    if k > 0 {
      NumberRoundTrip(n / 32, k - 1);
      assert NumberWords(n, k)[..k - 1] == NumberWords(n / 32, k - 1);
    }
  }

  method WordsToBigInt(words: seq<Word>) returns (n: nat)
    ensures n == WordsValue(words)
  {
    n := 0;
    var i := 0;
    while i < |words|
      invariant 0 <= i <= |words| && n == WordsValue(words[..i])
    {
      assert words[..i + 1][..i] == words[..i];
      n := n * 32 + words[i];
      i := i + 1;
    }
    assert words[..i] == words;
  }

  // ---------------------------------------------------------------- the human-readable part

  predicate IsUnit(u: string) {
    u == "" || u == "m" || u == "u" || u == "n" || u == "p"
  }

  // The currency runs to the first digit.
  function FirstDigit(s: string): (i: nat)
    ensures i <= |s|
    ensures i < |s| ==> IsDigit(s[i])
    ensures forall k | 0 <= k < i :: !IsDigit(s[k])
  {
    if s == "" || IsDigit(s[0]) then 0 else 1 + FirstDigit(s[1..])
  }

  // Where the leading digits of an amount end.
  function DigitsEnd(s: string): (i: nat)
    ensures i <= |s| && AllDigits(s[..i])
    ensures i < |s| ==> !IsDigit(s[i])
  {
    if s == "" || !IsDigit(s[0]) then 0 else
      assert s[..1 + DigitsEnd(s[1..])] == [s[0]] + s[1..][..DigitsEnd(s[1..])];
      1 + DigitsEnd(s[1..])
  }

  datatype Hrp = Hrp(currency: string, amountMsat: Option<nat>)

  function Millisats(digits: nat, unit: string): nat
    requires IsUnit(unit)
  {
    if unit == "" then digits * 100_000_000_000
    else if unit == "m" then digits * 100_000_000
    else if unit == "u" then digits * 100_000
    else if unit == "n" then digits * 100
    else digits / 10
  }

  function ParseAmount(amount: string): Result<Option<nat>> {
    if amount == "" then Ok(None)
    else
      var d := DigitsEnd(amount);
      if d == 0 || !IsUnit(amount[d..]) then Err("Invalid amount in HRP")
      else
        var digits := DecimalValue(amount[..d]);
        if amount[d..] == "p" && digits % 10 != 0 then Err("Invalid pico amount (not a whole millisat)")
        else Ok(Some(Millisats(digits, amount[d..])))
  }

  function ParseHrp(hrp: string): Result<Hrp> {
    if !("ln" <= hrp) then Err("Invalid HRP")
    else
      var i := 2 + FirstDigit(hrp[2..]);
      match ParseAmount(hrp[i..])
      case Err(e) => Err(e)
      case Ok(msat) => Ok(Hrp(hrp[2..i], msat))
  }

  method SkipToDigit(s: string, from: nat) returns (i: nat)
    requires from <= |s|
    ensures i == from + FirstDigit(s[from..]) && i <= |s|
  {
    i := from;
    while i < |s| && !IsDigit(s[i])
      invariant from <= i <= |s| && FirstDigit(s[from..]) == i - from + FirstDigit(s[i..])
    {
      assert s[i..][1..] == s[i + 1..];
      i := i + 1;
    }
  }

  method ParseHrpAmountMsat(hrp: string) returns (r: Result<Hrp>)
    ensures r == ParseHrp(hrp)
  {
    if !("ln" <= hrp) { return Err("Invalid HRP"); }
    var i := SkipToDigit(hrp, 2);
    var msat := ParseAmount(hrp[i..]);
    if msat.Err? { return Err(msat.error); }
    r := Ok(Hrp(hrp[2..i], msat.value));
  }

  // BOLT #11, "Human-Readable Part": the amount in pico-bitcoin of one unit; a millisatoshi is ten.
  function PicoPer(unit: string): nat
    requires IsUnit(unit)
  {
    if unit == "" then 1_000_000_000_000
    else if unit == "m" then 1_000_000_000
    else if unit == "u" then 1_000_000
    else if unit == "n" then 1_000
    else 1
  }

  predicate NoDigit(s: string) {
    forall i | 0 <= i < |s| :: !IsDigit(s[i])
  }

  lemma {:induction false} FirstDigitExact(currency: string, amount: string)
    requires NoDigit(currency) && (amount == "" || IsDigit(amount[0]))
    ensures FirstDigit(currency + amount) == |currency|
  {
    if currency == "" {
      assert currency + amount == amount;
    } else {
      assert (currency + amount)[1..] == currency[1..] + amount;
      FirstDigitExact(currency[1..], amount);
    }
  }

  lemma HrpSplit(currency: string, amount: string)
    requires NoDigit(currency) && (amount == "" || IsDigit(amount[0]))
    ensures var hrp := "ln" + currency + amount; var i := 2 + |currency|;
      "ln" <= hrp && FirstDigit(hrp[2..]) == |currency| && hrp[2..i] == currency && hrp[i..] == amount
  {
    assert ("ln" + currency + amount)[2..] == currency + amount;
    FirstDigitExact(currency, amount);
  }

  lemma MillisatsExact(digits: nat, unit: string)
    requires IsUnit(unit)
    ensures digits * PicoPer(unit) % 10 == 0 <==> !(unit == "p" && digits % 10 != 0)
    ensures digits * PicoPer(unit) % 10 == 0 ==> 10 * Millisats(digits, unit) == digits * PicoPer(unit)
  {
    if unit == "p" {
      assert digits * PicoPer(unit) == digits;
    } else {
      var per := PicoPer(unit) / 10;
      assert PicoPer(unit) == 10 * per && Millisats(digits, unit) == digits * per;
      TenTimes(digits, per);
    }
  }

  lemma TenTimes(a: nat, b: nat)
    ensures a * (10 * b) == 10 * (a * b) && a * (10 * b) % 10 == 0
  {
  }

  // Every multiplier gives the exact amount, ten pico-bitcoin to the millisatoshi, and is refused
  // exactly when that is not a whole number.
  lemma HrpRoundTrip(currency: string, digits: string, unit: string)
    requires NoDigit(currency) && AllDigits(digits) && digits != "" && IsUnit(unit)
    ensures var r := ParseHrp("ln" + currency + (digits + unit));
      var pico := DecimalValue(digits) * PicoPer(unit);
      && (r.Ok? <==> pico % 10 == 0)
      && (r.Ok? ==> r.value.currency == currency && r.value.amountMsat.Some? && 10 * r.value.amountMsat.value == pico)
  {
    var amount := digits + unit;
    assert amount[0] == digits[0];
    HrpSplit(currency, amount);
    MillisatsExact(DecimalValue(digits), unit);
  }

  lemma NoAmountRoundTrip(currency: string)
    requires NoDigit(currency)
    ensures ParseHrp("ln" + currency) == Ok(Hrp(currency, None))
  {
    HrpSplit(currency, "");
    assert "ln" + currency + "" == "ln" + currency;
  }

  // ---------------------------------------------------------------- the data part

  const SIGNATURE_WORDS := 104
  const MAX_SAFE_INTEGER := 9007199254740991
  const DEFAULT_EXPIRY := 3600

  // Positions of the letters p and x in the Bech32 alphabet.
  const TAG_P: Word := 1
  const TAG_X: Word := 6

  datatype Field = Field(tag: Word, data: seq<Word>)

  // What the field loop has found so far.
  datatype Found = Found(paymentHash: Option<seq<Byte>>, expiry: nat)

  // bech32.fromWords; the library's own is Bech32.FromWords.
  type Regroup = seq<Word> -> Result<seq<Byte>>

  function Take(f: Field, st: Found, regroup: Regroup): Result<Found> {
    if f.tag == TAG_P then
      match regroup(f.data)
      case Err(e) => Err(e)
      case Ok(bytes) => Ok(st.(paymentHash := Some(bytes)))
    else if f.tag == TAG_X then
      if WordsValue(f.data) > MAX_SAFE_INTEGER then Err("Expiry too large") else Ok(st.(expiry := WordsValue(f.data)))
    else Ok(st)
  }

  lemma SliceOfSlice<T>(s: seq<T>, i: nat, j: nat, a: nat, b: nat)
    requires i <= j <= |s| && a <= b <= j - i
    ensures s[i..j][a..b] == s[i + a..i + b]
  {
    var t := s[i..j];
    forall k | 0 <= k < b - a ensures t[a..b][k] == s[i + a..i + b][k] {
      assert t[a..b][k] == t[a + k];
      assert t[a + k] == s[i + (a + k)];
    }
  }

  // The first tagged field and what follows it, or an error when it is cut short.
  function NextField(w: seq<Word>): (r: Result<(Field, seq<Word>)>)
    requires w != []
    ensures r.Ok? ==> |r.value.1| < |w|
  {
    if |w| < 3 then Err("Truncated tagged field header")
    else
      var n := (w[1] as int) * 32 + w[2];
      if 3 + n > |w| then Err("Truncated tagged field data") else Ok((Field(w[0], w[3..3 + n]), w[3 + n..]))
  }

  // The tagged fields that make up the words.
  function Split(w: seq<Word>): Result<seq<Field>>
    decreases |w|
  {
    if w == [] then Ok([])
    else match NextField(w)
      case Err(e) => Err(e)
      case Ok((f, rest)) =>
        match Split(rest)
        case Err(e) => Err(e)
        case Ok(fs) => Ok([f] + fs)
  }

  function TakeAll(fs: seq<Field>, st: Found, regroup: Regroup): Result<Found> {
    if fs == [] then Ok(st)
    else match Take(fs[0], st, regroup)
      case Err(e) => Err(e)
      case Ok(next) => TakeAll(fs[1..], next, regroup)
  }

  // The loop: fields are taken one by one, so an error of a field comes before any later truncation.
  function Scan(w: seq<Word>, st: Found, regroup: Regroup): Result<Found>
    decreases |w|
  {
    if w == [] then Ok(st)
    else match NextField(w)
      case Err(e) => Err(e)
      case Ok((f, rest)) =>
        match Take(f, st, regroup)
        case Err(e) => Err(e)
        case Ok(next) => Scan(rest, next, regroup)
  }

  // The field at position idx.
  lemma FieldAt(words: seq<Word>, idx: nat, end: nat)
    requires idx < end <= |words|
    ensures var r := NextField(words[idx..end]);
      if idx + 3 > end then r == Err("Truncated tagged field header")
      else
        var n := (words[idx + 1] as int) * 32 + words[idx + 2];
        if idx + 3 + n > end then r == Err("Truncated tagged field data")
        else r == Ok((Field(words[idx], words[idx + 3..idx + 3 + n]), words[idx + 3 + n..end]))
  {
    if idx + 3 <= end {
      var n := (words[idx + 1] as int) * 32 + words[idx + 2];
      if idx + 3 + n <= end {
        SliceOfSlice(words, idx, end, 3, 3 + n);
        SliceOfSlice(words, idx, end, 3 + n, end - idx);
      }
    }
  }

  // One turn of the loop at position idx.
  lemma ScanStep(words: seq<Word>, idx: nat, end: nat, n: nat, st: Found, regroup: Regroup)
    requires idx + 3 <= end <= |words| && n == (words[idx + 1] as int) * 32 + words[idx + 2] && idx + 3 + n <= end
    ensures var next := Take(Field(words[idx], words[idx + 3..idx + 3 + n]), st, regroup);
      Scan(words[idx..end], st, regroup) == if next.Ok? then Scan(words[idx + 3 + n..end], next.value, regroup) else next
  {
    FieldAt(words, idx, end);
  }

  method TakeField(f: Field, st: Found, regroup: Regroup) returns (r: Result<Found>)
    ensures r == Take(f, st, regroup)
  {
    if f.tag == TAG_P {
      var bytes := regroup(f.data);
      if bytes.Err? { return Err(bytes.error); }
      return Ok(st.(paymentHash := Some(bytes.value)));
    }
    if f.tag == TAG_X {
      var n := WordsToBigInt(f.data);
      if n > MAX_SAFE_INTEGER { return Err("Expiry too large"); }
      return Ok(st.(expiry := n));
    }
    r := Ok(st);
  }

  // One turn of the loop: the field at idx, and where the next one starts.
  method ReadField(words: seq<Word>, idx: nat, end: nat, st: Found, regroup: Regroup) returns (r: Result<Found>, next: nat)
    requires idx < end <= |words|
    ensures r.Err? ==> Scan(words[idx..end], st, regroup) == r
    ensures r.Ok? ==> idx < next <= end && Scan(words[idx..end], st, regroup) == Scan(words[next..end], r.value, regroup)
  {
    next := idx;
    if idx + 3 > end { return Err("Truncated tagged field header"), next; }
    var tag, dataLen := words[idx], (words[idx + 1] as int) * 32 + words[idx + 2];
    next := idx + 3;
    if next + dataLen > end { return Err("Truncated tagged field data"), next; }
    ScanStep(words, idx, end, dataLen, st, regroup);
    r := TakeField(Field(tag, words[next..next + dataLen]), st, regroup);
    next := next + dataLen;
  }

  method ScanFields(words: seq<Word>, end: nat, regroup: Regroup) returns (r: Result<Found>)
    requires 7 <= end <= |words|
    ensures r == Scan(words[7..end], Found(None, DEFAULT_EXPIRY), regroup)
  {
    var idx, st := 7, Found(None, DEFAULT_EXPIRY);
    while idx < end
      invariant 7 <= idx <= end
      invariant Scan(words[idx..end], st, regroup) == Scan(words[7..end], Found(None, DEFAULT_EXPIRY), regroup)
    {
      var field, next := ReadField(words, idx, end, st, regroup);
      if field.Err? { return field; }
      st, idx := field.value, next;
    }
    r := Ok(st);
  }

  datatype Invoice = Invoice(currency: string, amountMsat: Option<nat>, timestamp: nat, paymentHash: Option<seq<Byte>>,
                             expiry: nat, expiresAt: nat)

  // From what the Bech32 decoder returns.
  function Decode(hrp: string, words: seq<Word>, regroup: Regroup): Result<Invoice> {
    match ParseHrp(hrp)
    case Err(e) => Err(e)
    case Ok(h) =>
      if |words| < 7 + SIGNATURE_WORDS then Err("Invoice too short")
      else
        var timestamp := WordsValue(words[..7]);
        if timestamp == 0 then Err("Invalid invoice timestamp")
        else match Scan(words[7..|words| - SIGNATURE_WORDS], Found(None, DEFAULT_EXPIRY), regroup)
          case Err(e) => Err(e)
          case Ok(f) => Ok(Invoice(h.currency, h.amountMsat, timestamp, f.paymentHash, f.expiry, timestamp + f.expiry))
  }

  method DecodeBolt11(hrp: string, words: seq<Word>, regroup: Regroup) returns (r: Result<Invoice>)
    ensures r == Decode(hrp, words, regroup)
  {
    var h := ParseHrpAmountMsat(hrp);
    if h.Err? { return Err(h.error); }
    if |words| < 7 + SIGNATURE_WORDS { return Err("Invoice too short"); }
    var timestamp := WordsToBigInt(words[..7]);
    if timestamp <= 0 { return Err("Invalid invoice timestamp"); }
    var f := ScanFields(words, |words| - SIGNATURE_WORDS, regroup);
    if f.Err? { return Err(f.error); }
    r := Ok(Invoice(h.value.currency, h.value.amountMsat, timestamp, f.value.paymentHash, f.value.expiry,
                    timestamp + f.value.expiry));
  }

  // ---------------------------------------------------------------- the round trip

  predicate GoodFields(fs: seq<Field>) {
    forall i | 0 <= i < |fs| :: |fs[i].data| < 1024
  }

  // BOLT #11, "Tagged Fields": type, length in two words, data.
  function FieldWords(f: Field): seq<Word>
    requires |f.data| < 1024
  {
    [f.tag, |f.data| / 32, |f.data| % 32] + f.data
  }

  function EncodeFields(fs: seq<Field>): seq<Word>
    requires GoodFields(fs)
  {
    if fs == [] then [] else FieldWords(fs[0]) + EncodeFields(fs[1..])
  }

  lemma NextExact(w: seq<Word>)
    requires w != [] && NextField(w).Ok?
    ensures var (f, rest) := NextField(w).value; |f.data| < 1024 && w == FieldWords(f) + rest
  {
    var n := (w[1] as int) * 32 + w[2];
    assert n / 32 == w[1] && n % 32 == w[2];
    assert w == w[..3] + w[3..3 + n] + w[3 + n..];
    assert w[..3] == [w[0], w[1], w[2]];
  }

  lemma {:induction false} ScanEncoded(fs: seq<Field>, st: Found, regroup: Regroup)
    requires GoodFields(fs)
    ensures Scan(EncodeFields(fs), st, regroup) == TakeAll(fs, st, regroup)
  {
    if fs != [] {
      var next := Take(fs[0], st, regroup);
      if next.Ok? { ScanEncoded(fs[1..], next.value, regroup); }
    }
  }

  // Words that are not cut short are the encoding of exactly one list of fields.
  lemma {:induction false} SplitExact(w: seq<Word>)
    requires Split(w).Ok?
    ensures GoodFields(Split(w).value) && EncodeFields(Split(w).value) == w
    decreases |w|
  {
    if w != [] {
      NextExact(w);
      var (f, rest) := NextField(w).value;
      SplitExact(rest);
      assert Split(w).value[1..] == Split(rest).value;
    }
  }

  lemma {:induction false} SplitEncoded(fs: seq<Field>)
    requires GoodFields(fs)
    ensures Split(EncodeFields(fs)) == Ok(fs)
  {
    if fs != [] {
      SplitEncoded(fs[1..]);
      assert fs == [fs[0]] + fs[1..];
    }
  }

  // The data of the last field with a tag.
  function LastData(fs: seq<Field>, tag: Word): Option<seq<Word>> {
    if fs == [] then None
    else if LastData(fs[1..], tag).Some? then LastData(fs[1..], tag)
    else if fs[0].tag == tag then Some(fs[0].data)
    else None
  }

  predicate Readable(f: Field, regroup: Regroup) {
    && (f.tag == TAG_P ==> regroup(f.data).Ok?)
    && (f.tag == TAG_X ==> WordsValue(f.data) <= MAX_SAFE_INTEGER)
  }

  // The field list is refused exactly when some p or x field cannot be read; otherwise the last of
  // each kind counts and every other field is ignored.
  lemma {:induction false} TakeAllExact(fs: seq<Field>, st: Found, regroup: Regroup)
    ensures TakeAll(fs, st, regroup).Ok? <==> forall i | 0 <= i < |fs| :: Readable(fs[i], regroup)
    ensures TakeAll(fs, st, regroup).Ok? ==>
      var r, p, x := TakeAll(fs, st, regroup).value, LastData(fs, TAG_P), LastData(fs, TAG_X);
      && r.paymentHash == (if p.Some? then Some(match regroup(p.value) case Ok(b) => b case Err(_) => []) else st.paymentHash)
      && r.expiry == (if x.Some? then WordsValue(x.value) else st.expiry)
  {
    if fs != [] {
      assert Readable(fs[0], regroup) <==> Take(fs[0], st, regroup).Ok?;
      if Take(fs[0], st, regroup).Ok? {
        TakeAllExact(fs[1..], Take(fs[0], st, regroup).value, regroup);
        assert forall i | 0 < i < |fs| :: fs[i] == fs[1..][i - 1];
      }
    }
  }

  function EncodeWords(timestamp: nat, fs: seq<Field>, signature: seq<Word>): seq<Word>
    requires GoodFields(fs)
  {
    NumberWords(timestamp, 7) + EncodeFields(fs) + signature
  }

  lemma EncodedParts(timestamp: nat, fs: seq<Field>, signature: seq<Word>)
    requires GoodFields(fs) && |signature| == SIGNATURE_WORDS
    ensures var words := EncodeWords(timestamp, fs, signature);
      && |words| >= 7 + SIGNATURE_WORDS && words[..7] == NumberWords(timestamp, 7)
      && words[7..|words| - SIGNATURE_WORDS] == EncodeFields(fs)
  {
  }

  lemma DecodeEncoded(hrp: string, timestamp: nat, fs: seq<Field>, signature: seq<Word>, regroup: Regroup)
    requires GoodFields(fs) && |signature| == SIGNATURE_WORDS && 0 < timestamp < Power32(7)
    ensures var r := Decode(hrp, EncodeWords(timestamp, fs, signature), regroup);
      var h, f := ParseHrp(hrp), TakeAll(fs, Found(None, DEFAULT_EXPIRY), regroup);
      && (r.Ok? <==> h.Ok? && f.Ok?)
      && (r.Ok? ==> r.value == Invoice(h.value.currency, h.value.amountMsat, timestamp, f.value.paymentHash, f.value.expiry,
                                       timestamp + f.value.expiry))
  {
    EncodedParts(timestamp, fs, signature);
    NumberRoundTrip(timestamp, 7);
    ScanEncoded(fs, Found(None, DEFAULT_EXPIRY), regroup);
  }

  // What an encoder put in: the p fields, if any, hold this hash and the x fields, if any, this expiry.
  ghost predicate Carries(fs: seq<Field>, hash: Option<seq<Byte>>, expiry: nat, expiryWords: nat) {
    && GoodFields(fs)
    && (hash.Some? <==> exists i | 0 <= i < |fs| :: fs[i].tag == TAG_P)
    && (forall i | 0 <= i < |fs| && fs[i].tag == TAG_P :: fs[i].data == ToWords(hash.value))
    && (forall i | 0 <= i < |fs| && fs[i].tag == TAG_X :: fs[i].data == NumberWords(expiry, expiryWords))
    && expiry < Power32(expiryWords) && expiry <= MAX_SAFE_INTEGER
  }

  lemma {:induction false} LastDataAmong(fs: seq<Field>, tag: Word)
    ensures LastData(fs, tag).Some? <==> exists i | 0 <= i < |fs| :: fs[i].tag == tag
    ensures LastData(fs, tag).Some? ==> exists i | 0 <= i < |fs| :: fs[i].tag == tag && fs[i].data == LastData(fs, tag).value
  {
    if fs != [] {
      LastDataAmong(fs[1..], tag);
      assert forall i | 0 < i < |fs| :: fs[i] == fs[1..][i - 1];
      if LastData(fs[1..], tag).Some? {
        var i :| 0 <= i < |fs[1..]| && fs[1..][i].tag == tag && fs[1..][i].data == LastData(fs[1..], tag).value;
        assert fs[i + 1].tag == tag && fs[i + 1].data == LastData(fs, tag).value;
      } else if fs[0].tag == tag {
        assert fs[0].data == LastData(fs, tag).value;
      }
    }
  }

  ghost function ExpiryOf(fs: seq<Field>, expiry: nat): nat {
    if exists i | 0 <= i < |fs| :: fs[i].tag == TAG_X then expiry else DEFAULT_EXPIRY
  }

  lemma CarriedFound(fs: seq<Field>, hash: Option<seq<Byte>>, expiry: nat, expiryWords: nat)
    requires Carries(fs, hash, expiry, expiryWords)
    ensures TakeAll(fs, Found(None, DEFAULT_EXPIRY), FromWords) == Ok(Found(hash, ExpiryOf(fs, expiry)))
  {
    if hash.Some? { BytesRoundTrip(hash.value); }
    NumberRoundTrip(expiry, expiryWords);
    TakeAllExact(fs, Found(None, DEFAULT_EXPIRY), FromWords);
    LastDataAmong(fs, TAG_P);
    LastDataAmong(fs, TAG_X);
  }

  // The amount part: digits and a multiplier that make whole millisatoshi, or nothing at all.
  predicate GoodAmount(digits: string, unit: string) {
    AllDigits(digits) && IsUnit(unit) && (digits == "" ==> unit == "") && DecimalValue(digits) * PicoPer(unit) % 10 == 0
  }

  // Decoding gives back the currency, the timestamp, the payment hash and the exact amount where the
  // invoice has them, and the expiry (3600 without an x field), whatever other fields and signature
  // there are.
  lemma InvoiceRoundTrip(currency: string, digits: string, unit: string, timestamp: nat, fs: seq<Field>,
                         hash: Option<seq<Byte>>, expiry: nat, expiryWords: nat, signature: seq<Word>)
    requires NoDigit(currency) && GoodAmount(digits, unit)
    requires 0 < timestamp < Power32(7) && |signature| == SIGNATURE_WORDS && Carries(fs, hash, expiry, expiryWords)
    ensures var r := Decode("ln" + currency + (digits + unit), EncodeWords(timestamp, fs, signature), FromWords);
      && r.Ok? && r.value.currency == currency && r.value.timestamp == timestamp && r.value.paymentHash == hash
      && (r.value.amountMsat.Some? <==> digits != "")
      && (digits != "" ==> 10 * r.value.amountMsat.value == DecimalValue(digits) * PicoPer(unit))
      && r.value.expiry == ExpiryOf(fs, expiry) && r.value.expiresAt == timestamp + r.value.expiry
  {
    if digits == "" {
      NoAmountRoundTrip(currency);
      assert "ln" + currency + (digits + unit) == "ln" + currency;
    } else {
      HrpRoundTrip(currency, digits, unit);
    }
    CarriedFound(fs, hash, expiry, expiryWords);
    DecodeEncoded("ln" + currency + (digits + unit), timestamp, fs, signature, FromWords);
  }

  // The field loop never reads the signature.
  lemma SignatureUnread(hrp: string, body: seq<Word>, sig1: seq<Word>, sig2: seq<Word>, regroup: Regroup)
    requires |body| >= 7 && |sig1| == SIGNATURE_WORDS && |sig2| == SIGNATURE_WORDS
    ensures Decode(hrp, body + sig1, regroup) == Decode(hrp, body + sig2, regroup)
  {
    assert (body + sig1)[..7] == (body + sig2)[..7];
    assert (body + sig1)[7..|body|] == (body + sig2)[7..|body|];
  }

  // ---------------------------------------------------------------- what decodes

  // The digits and the unit of an amount that is read.
  ghost predicate AmountAt(amount: string, k: int) {
    0 < k <= |amount| && AllDigits(amount[..k]) && IsUnit(amount[k..]) && DecimalValue(amount[..k]) * PicoPer(amount[k..]) % 10 == 0
  }

  // Digits end in one place only.
  lemma UniqueEnd(s: string, a: nat, b: nat)
    requires a <= |s| && b <= |s| && AllDigits(s[..a]) && AllDigits(s[..b])
    requires (a < |s| ==> !IsDigit(s[a])) && (b < |s| ==> !IsDigit(s[b]))
    ensures a == b
  {
    assert forall i | 0 <= i < a :: IsDigit(s[..a][i]);
    assert forall i | 0 <= i < b :: IsDigit(s[..b][i]);
  }

  // An amount is read exactly when it is missing, or digits and a known unit that make whole millisatoshi.
  lemma AmountExactly(amount: string)
    ensures ParseAmount(amount).Ok? <==> amount == "" || exists k :: AmountAt(amount, k)
    ensures amount == "" ==> ParseAmount(amount) == Ok(None)
    ensures forall k | AmountAt(amount, k) ::
      ParseAmount(amount).value.Some? && 10 * ParseAmount(amount).value.value == DecimalValue(amount[..k]) * PicoPer(amount[k..])
  {
    var d := DigitsEnd(amount);
    forall k | AmountAt(amount, k) ensures k == d { UniqueEnd(amount, k, d); }
    if d > 0 && IsUnit(amount[d..]) {
      MillisatsExact(DecimalValue(amount[..d]), amount[d..]);
      assert AmountAt(amount, d) <==> DecimalValue(amount[..d]) * PicoPer(amount[d..]) % 10 == 0;
    }
  }

  // A human-readable part starts with "ln"; what follows, up to the first digit, is the currency.
  lemma HrpExactly(currency: string, amount: string)
    requires NoDigit(currency) && (amount == "" || IsDigit(amount[0]))
    ensures var r := ParseHrp("ln" + currency + amount);
      && (r.Ok? <==> ParseAmount(amount).Ok?)
      && (r.Ok? ==> r.value == Hrp(currency, ParseAmount(amount).value))
  {
    HrpSplit(currency, amount);
  }

  lemma {:induction false} ScanSplits(w: seq<Word>, st: Found, regroup: Regroup)
    ensures Scan(w, st, regroup).Ok? <==> Split(w).Ok? && TakeAll(Split(w).value, st, regroup).Ok?
    ensures Scan(w, st, regroup).Ok? ==> Scan(w, st, regroup) == TakeAll(Split(w).value, st, regroup)
    decreases |w|
  {
    if w != [] && NextField(w).Ok? {
      var (f, rest) := NextField(w).value;
      if Split(rest).Ok? {
        assert Split(w).value == [f] + Split(rest).value;
        assert Split(w).value[1..] == Split(rest).value;
      }
      if Take(f, st, regroup).Ok? { ScanSplits(rest, Take(f, st, regroup).value, regroup); }
    }
  }

  // An invoice decodes exactly when its human-readable part does, there is room for a timestamp and the
  // signature, the timestamp is not zero, and the words between are tagged fields, each readable.
  lemma DecodeExactly(hrp: string, words: seq<Word>, regroup: Regroup)
    ensures Decode(hrp, words, regroup).Ok? <==>
      && ParseHrp(hrp).Ok? && |words| >= 111 && WordsValue(words[..7]) > 0
      && Split(words[7..|words| - 104]).Ok?
      && var fs := Split(words[7..|words| - 104]).value; forall i | 0 <= i < |fs| :: Readable(fs[i], regroup)
  {
    if |words| >= 111 {
      var w, st := words[7..|words| - 104], Found(None, DEFAULT_EXPIRY);
      ScanSplits(w, st, regroup);
      if Split(w).Ok? { TakeAllExact(Split(w).value, st, regroup); }
    }
  }

  // ---------------------------------------------------------------- checking an invoice message

  function HexDigit(d: nat): char
    requires d < 16
  {
    if d < 10 then (48 + d) as char else (87 + d) as char
  }

  function Hex(bytes: seq<Byte>): string {
    if bytes == [] then "" else [HexDigit(bytes[0] / 16), HexDigit(bytes[0] % 16)] + Hex(bytes[1..])
  }

  lemma HexByte(a: Byte, b: Byte)
    requires HexDigit(a / 16) == HexDigit(b / 16) && HexDigit(a % 16) == HexDigit(b % 16)
    ensures a == b
  {
  }

  lemma {:induction false} HexInjective(a: seq<Byte>, b: seq<Byte>)
    requires Hex(a) == Hex(b)
    ensures a == b
  {
    if a != [] && b != [] {
      var s, t := Hex(a), Hex(b);
      assert s[0] == t[0] && s[1] == t[1];
      assert s[2..] == Hex(a[1..]) && t[2..] == Hex(b[1..]);
      HexByte(a[0], b[0]);
      HexInjective(a[1..], b[1..]);
      assert a == [a[0]] + a[1..] && b == [b[0]] + b[1..];
    }
  }

  // The stated expiry may be missing, not a number, or a number.
  datatype Stated = Missing | NotFinite | At(n: int)

  // A stated hash is trimmed and lower-cased; an empty one is not compared.
  function MatchesInvoiceBody(decoded: Result<Invoice>, wantHash: string, wantAmount: Option<int>, wantExpiry: Stated): Result<Invoice> {
    match decoded
    case Err(e) => Err(e)
    case Ok(inv) =>
      if wantHash != "" && inv.paymentHash.Some? && inv.paymentHash.value != [] && Hex(inv.paymentHash.value) != wantHash then
        Err("bolt11 payment_hash mismatch")
      else if wantAmount.Some? && inv.amountMsat.Some? && inv.amountMsat.value != wantAmount.value then Err("bolt11 amount mismatch")
      else if wantExpiry.NotFinite? then Err("invalid expires_at_unix")
      else if wantExpiry.At? && inv.expiresAt != wantExpiry.n then Err("bolt11 expires_at_unix mismatch")
      else Ok(inv)
  }

  // A hash of no bytes counts as none.
  predicate HasHash(hash: Option<seq<Byte>>) {
    hash.Some? && hash.value != []
  }

  // A message passes exactly when every field it states is the one the quoted invoice was encoded with,
  // or is a hash or an amount that the invoice does not have.
  lemma MessageMatchesInvoice(currency: string, digits: string, unit: string, timestamp: nat, fs: seq<Field>, hash: Option<seq<Byte>>,
                              expiry: nat, expiryWords: nat, signature: seq<Word>,
                              wantHash: string, wantAmount: Option<int>, wantExpiry: Stated)
    requires NoDigit(currency) && GoodAmount(digits, unit)
    requires 0 < timestamp < Power32(7) && |signature| == SIGNATURE_WORDS && Carries(fs, hash, expiry, expiryWords)
    ensures var decoded := Decode("ln" + currency + (digits + unit), EncodeWords(timestamp, fs, signature), FromWords);
      MatchesInvoiceBody(decoded, wantHash, wantAmount, wantExpiry).Ok? <==>
      (&& (wantHash == "" || !HasHash(hash) || wantHash == Hex(hash.value))
       && (wantAmount.None? || digits == "" || 10 * wantAmount.value == DecimalValue(digits) * PicoPer(unit))
       && (wantExpiry.Missing? || wantExpiry == At(timestamp + ExpiryOf(fs, expiry))))
  {
    InvoiceRoundTrip(currency, digits, unit, timestamp, fs, hash, expiry, expiryWords, signature);
    var inv := Decode("ln" + currency + (digits + unit), EncodeWords(timestamp, fs, signature), FromWords).value;
    MatchExact(inv, wantHash, wantAmount, wantExpiry);
    if digits != "" && wantAmount.Some? {
      assert inv.amountMsat.value == wantAmount.value <==> 10 * inv.amountMsat.value == 10 * wantAmount.value;
    }
  }

  lemma MatchExact(inv: Invoice, wantHash: string, wantAmount: Option<int>, wantExpiry: Stated)
    ensures MatchesInvoiceBody(Ok(inv), wantHash, wantAmount, wantExpiry).Ok? <==>
      (&& (wantHash == "" || !HasHash(inv.paymentHash) || wantHash == Hex(inv.paymentHash.value))
       && (wantAmount.None? || inv.amountMsat.None? || wantAmount.value == inv.amountMsat.value)
       && (wantExpiry.Missing? || wantExpiry == At(inv.expiresAt)))
  {
  }

  // Messages that state different hashes both pass exactly when the invoice has no payment hash.
  lemma HashPinnedExactly(inv: Invoice, a: seq<Byte>, b: seq<Byte>, wantAmount: Option<int>, wantExpiry: Stated)
    requires a != b && a != [] && b != [] && MatchesInvoiceBody(Ok(inv), "", wantAmount, wantExpiry).Ok?
    ensures (MatchesInvoiceBody(Ok(inv), Hex(a), wantAmount, wantExpiry).Ok? && MatchesInvoiceBody(Ok(inv), Hex(b), wantAmount, wantExpiry).Ok?)
       <==> !HasHash(inv.paymentHash)
  {
    if Hex(a) == Hex(b) { HexInjective(a, b); }
  }

  // And messages that state different amounts, exactly when it has no amount.
  lemma AmountPinnedExactly(inv: Invoice, a: int, b: int, wantHash: string, wantExpiry: Stated)
    requires a != b && MatchesInvoiceBody(Ok(inv), wantHash, None, wantExpiry).Ok?
    ensures (MatchesInvoiceBody(Ok(inv), wantHash, Some(a), wantExpiry).Ok? && MatchesInvoiceBody(Ok(inv), wantHash, Some(b), wantExpiry).Ok?)
       <==> inv.amountMsat == None
  {
  }

  // An invoice with neither passes whatever hash and amount a message states.
  lemma BareInvoicePasses(signature: seq<Word>, wantHash: string, wantAmount: int)
    requires |signature| == SIGNATURE_WORDS
    ensures MatchesInvoiceBody(Decode("lnbc", EncodeWords(1, [], signature), FromWords), wantHash, Some(wantAmount), At(3601)).Ok?
  {
    assert Power32(1) > 0 && Power32(7) > 1 by { assert Power32(7) == 32 * Power32(6); }
    MessageMatchesInvoice("bc", "", "", 1, [], None, 0, 1, signature, wantHash, Some(wantAmount), At(3601));
    assert "ln" + "bc" + ("" + "") == "lnbc";
  }
}
