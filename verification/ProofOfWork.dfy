// Proof of work on sidechannel messages.

module ProofOfWork {

  import opened Prelude
  import opened StableStringify

  // ---------------------------------------------------------------- counting zero bits

  type Nibble = n: int | 0 <= n < 16

  function NibbleZeros(n: Nibble): nat {
    if n >= 8 then 0 else if n >= 4 then 1 else if n >= 2 then 2 else if n == 1 then 3 else 4
  }

  function LeadingZeros(h: seq<Nibble>): nat {
    if h == [] then 0 else if h[0] == 0 then 4 + LeadingZeros(h[1..]) else NibbleZeros(h[0])
  }

  method CountLeadingZeroBits(h: seq<Nibble>) returns (bits: nat)
    ensures bits == LeadingZeros(h)
  {
    bits := 0;
    var i := 0;
    while i < |h|
      invariant 0 <= i <= |h| && bits + LeadingZeros(h[i..]) == LeadingZeros(h)
    {
      if h[i] == 0 {
        bits := bits + 4;
      } else {
        ghost var before := bits;
        var nibble: int, mask: int := h[i], 8;
        while mask > 0
          invariant mask in {8, 4, 2, 1, 0} && nibble < (if mask == 0 then 1 else 2 * mask)
          invariant bits == before + (if mask == 8 then 0 else if mask == 4 then 1 else if mask == 2 then 2 else if mask == 1 then 3 else 4)
        {
          if nibble / mask % 2 == 1 { return; }
          bits := bits + 1;
          mask := mask / 2;
        }
      }
      i := i + 1;
    }
  }

  // The number the hexadecimal digits stand for.
  function Value(h: seq<Nibble>): nat {
    if h == [] then 0 else h[0] * Power2(4 * (|h| - 1)) + Value(h[1..])
  }

  lemma {:induction false} PowerAdd(a: nat, b: nat)
    ensures Power2(a + b) == Power2(a) * Power2(b)
    decreases b
  {
    if b > 0 { PowerAdd(a, b - 1); }
  }

  lemma {:induction false} PowerGrows(a: nat, b: nat)
    requires a <= b
    ensures Power2(a) <= Power2(b)
    decreases b
  {
    if a < b { PowerGrows(a, b - 1); }
  }

  lemma Sixteen(k: nat)
    ensures Power2(k + 4) == 16 * Power2(k)
  {
    assert Power2(k + 4) == 2 * Power2(k + 3) && Power2(k + 3) == 2 * Power2(k + 2);
    assert Power2(k + 2) == 2 * Power2(k + 1);
  }

  lemma {:induction false} ValueBelow(h: seq<Nibble>)
    ensures Value(h) < Power2(4 * |h|)
  {
    if h != [] {
      ValueBelow(h[1..]);
      var p := Power2(4 * (|h| - 1));
      Sixteen(4 * (|h| - 1));
      assert 4 * (|h| - 1) + 4 == 4 * |h|;
      Scale(h[0], 15, p);
    }
  }

  // With a first digit n other than zero: n is below 2^(4-d) exactly when it starts with d zeros.
  lemma NibbleThreshold(n: Nibble, p: nat, v: nat, d: nat)
    requires n != 0 && p > 0 && v < p && d <= 4
    ensures NibbleZeros(n) >= d <==> n * p + v < Power2(4 - d) * p
  {
    var q := Power2(4 - d);
    assert q == (if d == 0 then 16 else if d == 1 then 8 else if d == 2 then 4 else if d == 3 then 2 else 1) by {
      assert Power2(0) == 1 && Power2(1) == 2 && Power2(2) == 4 && Power2(3) == 8 && Power2(4) == 16;
    }
    assert NibbleZeros(n) >= d <==> n < q;
    if n < q { Scale(n + 1, q, p); } else { Scale(q, n, p); }
  }

  lemma Scale(a: nat, b: nat, p: nat)
    requires a <= b
    ensures a * p <= b * p
  {
  }

  // The digest has at least d leading zero bits exactly when its number is below 2^(length - d).
  lemma {:induction false} ZerosMeanSmall(h: seq<Nibble>, d: nat)
    requires d <= 4 * |h|
    ensures LeadingZeros(h) >= d <==> Value(h) < Power2(4 * |h| - d)
  {
    if h != [] {
      var m := 4 * (|h| - 1);
      ValueBelow(h[1..]);
      if h[0] == 0 {
        if d >= 4 {
          ZerosMeanSmall(h[1..], d - 4);
        } else {
          PowerGrows(m, 4 * |h| - d);
        }
      } else if d <= 4 {
        NibbleThreshold(h[0], Power2(m), Value(h[1..]), d);
        PowerAdd(4 - d, m);
      } else {
        PowerGrows(4 * |h| - d, m);
        Scale(1, h[0], Power2(m));
      }
    }
  }

  // ---------------------------------------------------------------- attaching and checking

  datatype Pow = Pow(nonce: int, difficulty: int)

  // A message; the fields the work covers are Js values, null when missing.
  datatype Payload = Payload(id: Js, channel: Js, from: Js, origin: Js, message: Js, ts: Js, ttl: int, relayedBy: string, pow: Option<Pow>)

  // sha256Hex, by the digits it gives for a text.
  type Digest = Text -> seq<Nibble>

  datatype Config = Config(enabled: bool, difficulty: int, channels: Option<set<string>>, entryOnly: bool, entryChannel: string)

  predicate Required(cfg: Config, channel: string) {
    && cfg.enabled && cfg.difficulty > 0
    && if cfg.channels.Some? then channel in cfg.channels.value else cfg.entryOnly ==> channel == cfg.entryChannel
  }

  const ID: Text := [105, 100]
  const CHANNEL: Text := [99, 104, 97, 110, 110, 101, 108]
  const FROM: Text := [102, 114, 111, 109]
  const ORIGIN: Text := [111, 114, 105, 103, 105, 110]
  const MESSAGE: Text := [109, 101, 115, 115, 97, 103, 101]
  const TS: Text := [116, 115]
  const NONCE: Text := [110, 111, 110, 99, 101]

  function PowObject(p: Payload, nonce: int): Js {
    Obj([Field(ID, p.id), Field(CHANNEL, p.channel), Field(FROM, p.from), Field(ORIGIN, p.origin),
         Field(MESSAGE, p.message), Field(TS, p.ts), Field(NONCE, Num(nonce))])
  }

  function PowBase(p: Payload, nonce: int): Text {
    Stringify(PowObject(p, nonce))
  }

  predicate Works(digest: Digest, p: Payload, nonce: int, difficulty: int) {
    LeadingZeros(digest(PowBase(p, nonce))) >= difficulty
  }

  method CheckPow(cfg: Config, digest: Digest, p: Payload, channel: string) returns (ok: bool)
    ensures ok <==> !Required(cfg, channel) || (p.pow.Some? && Works(digest, p, p.pow.value.nonce, cfg.difficulty))
  {
    if !Required(cfg, channel) { return true; }
    if p.pow.None? { return false; }
    var bits := CountLeadingZeroBits(digest(PowBase(p, p.pow.value.nonce)));
    ok := bits >= cfg.difficulty;
  }

  // Whether the search ends depends on the hash; where some nonce up to a bound works, it stops at
  // the least one.
  method AttachPow(cfg: Config, digest: Digest, p: Payload, channel: string, ghost bound: nat) returns (r: Payload)
    requires Required(cfg, channel) ==> exists n: nat :: n <= bound && Works(digest, p, n, cfg.difficulty)
    ensures !Required(cfg, channel) ==> r == p
    ensures Required(cfg, channel) ==>
      && r.pow.Some? && r == p.(pow := r.pow) && r.pow.value.difficulty == cfg.difficulty && 0 <= r.pow.value.nonce <= bound
      && Works(digest, p, r.pow.value.nonce, cfg.difficulty)
      && forall n: nat | n < r.pow.value.nonce :: !Works(digest, p, n, cfg.difficulty)
  {
    if !Required(cfg, channel) { return p; }
    var nonce := 0;
    while true
      invariant 0 <= nonce <= bound && forall n: nat | n < nonce :: !Works(digest, p, n, cfg.difficulty)
      decreases bound - nonce
    {
      var bits := CountLeadingZeroBits(digest(PowBase(p, nonce)));
      if bits >= cfg.difficulty {
        return p.(pow := Some(Pow(nonce, cfg.difficulty)));
      }
      nonce := nonce + 1;
    }
  }

  // Work survives relaying: the time to live and the relay's name are not covered.
  lemma WorkSurvivesRelay(digest: Digest, p: Payload, nonce: int, difficulty: int, ttl: int, relay: string)
    ensures Works(digest, p.(ttl := ttl, relayedBy := relay), nonce, difficulty) == Works(digest, p, nonce, difficulty)
  {
    assert PowObject(p.(ttl := ttl, relayedBy := relay), nonce) == PowObject(p, nonce);
  }

  ghost predicate ValidPayload(p: Payload) {
    Valid(p.id) && Valid(p.channel) && Valid(p.from) && Valid(p.origin) && Valid(p.message) && Valid(p.ts)
  }

  lemma FieldNames(p: Payload, nonce: int)
    ensures DistinctKeys(PowObject(p, nonce).fields)
  {
    assert |ID| == 2 && |CHANNEL| == 7 && |FROM| == 4 && |ORIGIN| == 6 && |MESSAGE| == 7 && |TS| == 2 && |NONCE| == 5;
    assert ID[0] != TS[0] && CHANNEL[0] != MESSAGE[0];
  }

  lemma MeaningAt(fields: seq<Field>, i: nat)
    requires DistinctKeys(fields) && i < |fields|
    ensures var m := Meaning(Obj(fields)).members; fields[i].key in m && m[fields[i].key] == Meaning(fields[i].value)
  {
  }

  ghost predicate SameValues(a: seq<Field>, b: seq<Field>) {
    |a| == |b| && forall i | 0 <= i < |a| :: a[i].key == b[i].key && Meaning(a[i].value) == Meaning(b[i].value)
  }

  lemma SameMap(m: map<Text, Value>, n: map<Text, Value>)
    requires m.Keys == n.Keys && forall k | k in m :: m[k] == n[k]
    ensures m == n
  {
  }

  lemma SameMeaning(a: seq<Field>, b: seq<Field>)
    requires DistinctKeys(a) && DistinctKeys(b) && SameValues(a, b)
    ensures Meaning(Obj(a)) == Meaning(Obj(b))
  {
    var m, n := Meaning(Obj(a)).members, Meaning(Obj(b)).members;
    assert Keys(a) == Keys(b);
    forall k | k in m ensures m[k] == n[k] {
      var i :| 0 <= i < |a| && Keys(a)[i] == k;
      MeaningAt(a, i);
      MeaningAt(b, i);
    }
    SameMap(m, n);
  }

  lemma MeaningGivesValue(a: seq<Field>, b: seq<Field>, i: nat)
    requires DistinctKeys(a) && DistinctKeys(b) && i < |a| && i < |b| && a[i].key == b[i].key && Meaning(Obj(a)) == Meaning(Obj(b))
    ensures Meaning(a[i].value) == Meaning(b[i].value)
  {
    MeaningAt(a, i);
    MeaningAt(b, i);
  }

  ghost predicate SameContent(p: Payload, q: Payload) {
    && Meaning(p.id) == Meaning(q.id) && Meaning(p.channel) == Meaning(q.channel) && Meaning(p.from) == Meaning(q.from)
    && Meaning(p.origin) == Meaning(q.origin) && Meaning(p.message) == Meaning(q.message) && Meaning(p.ts) == Meaning(q.ts)
  }

  lemma ObjectGivesContent(p: Payload, n: int, q: Payload, m: int)
    requires Meaning(PowObject(p, n)) == Meaning(PowObject(q, m))
    ensures SameContent(p, q) && n == m
  {
    var a, b := PowObject(p, n).fields, PowObject(q, m).fields;
    FieldNames(p, n);
    FieldNames(q, m);
    forall i | 0 <= i < 7 ensures Meaning(a[i].value) == Meaning(b[i].value) {
      MeaningGivesValue(a, b, i);
    }
    assert Meaning(a[0].value) == Meaning(b[0].value) && Meaning(a[1].value) == Meaning(b[1].value);
    assert Meaning(a[2].value) == Meaning(b[2].value) && Meaning(a[3].value) == Meaning(b[3].value);
    assert Meaning(a[4].value) == Meaning(b[4].value) && Meaning(a[5].value) == Meaning(b[5].value);
    assert Meaning(a[6].value) == Meaning(b[6].value);
  }

  lemma FieldsOf(p: Payload, n: int)
    ensures var a := PowObject(p, n).fields;
      && |a| == 7 && a[0] == Field(ID, p.id) && a[1] == Field(CHANNEL, p.channel) && a[2] == Field(FROM, p.from)
      && a[3] == Field(ORIGIN, p.origin) && a[4] == Field(MESSAGE, p.message) && a[5] == Field(TS, p.ts)
      && a[6] == Field(NONCE, Num(n))
  {
  }

  lemma SevenSame(a: seq<Field>, b: seq<Field>)
    requires |a| == 7 && |b| == 7
    requires a[0].key == b[0].key && a[1].key == b[1].key && a[2].key == b[2].key && a[3].key == b[3].key
    requires a[4].key == b[4].key && a[5].key == b[5].key && a[6].key == b[6].key
    requires Meaning(a[0].value) == Meaning(b[0].value) && Meaning(a[1].value) == Meaning(b[1].value)
    requires Meaning(a[2].value) == Meaning(b[2].value) && Meaning(a[3].value) == Meaning(b[3].value)
    requires Meaning(a[4].value) == Meaning(b[4].value) && Meaning(a[5].value) == Meaning(b[5].value)
    requires Meaning(a[6].value) == Meaning(b[6].value)
    ensures SameValues(a, b)
  {
  }

  lemma ContentGivesObject(p: Payload, n: int, q: Payload)
    requires SameContent(p, q)
    ensures Meaning(PowObject(p, n)) == Meaning(PowObject(q, n))
  {
    FieldNames(p, n);
    FieldNames(q, n);
    FieldsOf(p, n);
    FieldsOf(q, n);
    SevenSame(PowObject(p, n).fields, PowObject(q, n).fields);
    SameMeaning(PowObject(p, n).fields, PowObject(q, n).fields);
  }

  // Work is bound to the content: two messages are hashed over the same text only when the covered
  // fields and the nonce are the same.
  lemma WorkBindsContent(p: Payload, n: int, q: Payload, m: int)
    requires ValidPayload(p) && ValidPayload(q)
    ensures PowBase(p, n) == PowBase(q, m) <==> SameContent(p, q) && n == m
  {
    FieldNames(p, n);
    FieldNames(q, m);
    assert Valid(PowObject(p, n)) && Valid(PowObject(q, m));
    Canonical(PowObject(p, n), PowObject(q, m));
    if Meaning(PowObject(p, n)) == Meaning(PowObject(q, m)) { ObjectGivesContent(p, n, q, m); }
    if SameContent(p, q) { ContentGivesObject(p, n, q); }
  }

  // A nonce works exactly when the digest of the covered text, read as a number, is small enough.
  lemma WorksExactly(digest: Digest, p: Payload, nonce: int, difficulty: nat)
    requires difficulty <= 4 * |digest(PowBase(p, nonce))|
    ensures var h := digest(PowBase(p, nonce)); Works(digest, p, nonce, difficulty) <==> Value(h) < Power2(4 * |h| - difficulty)
  {
    ZerosMeanSmall(digest(PowBase(p, nonce)), difficulty);
  }

  // Work is asked for on the listed channels, or without a list on the entry channel only or on all.
  lemma RequiredExactly(cfg: Config, channel: string)
    ensures !cfg.enabled || cfg.difficulty <= 0 ==> !Required(cfg, channel)
    ensures cfg.enabled && cfg.difficulty > 0 ==>
      match cfg.channels
      case Some(list) => Required(cfg, channel) <==> channel in list
      case None => Required(cfg, channel) <==> !cfg.entryOnly || channel == cfg.entryChannel
  {
  }
}
