// Envelopes signed over their canonical text.

module SignedMessage {

  import opened Prelude
  import opened StableStringify

  // "sig", "signer" and the keys of an unsigned envelope.
  const SIG: Text := [115, 105, 103]
  const SIGNER: Text := [115, 105, 103, 110, 101, 114]
  const V: Text := [118]
  const KIND: Text := [107, 105, 110, 100]
  const TRADE_ID: Text := [116, 114, 97, 100, 101, 95, 105, 100]
  const TS: Text := [116, 115]
  const NONCE: Text := [110, 111, 110, 99, 101]
  const BODY: Text := [98, 111, 100, 121]

  // The wallet: signing, verification, the public key of a secret key, and the trimming and
  // lower-casing applied to hex texts.
  datatype Wallet = Wallet(
    sign: (Text, Text) -> Text,
    verify: (Text, Text, Text) -> bool,
    publicKey: Text -> Text,
    norm: Text -> Text)

  // An ideal scheme: what was signed verifies, and one signature fits one message per key.
  ghost predicate Ideal(w: Wallet) {
    && (forall m, sk :: w.verify(w.norm(w.sign(m, sk)), m, w.norm(w.publicKey(sk))))
    && (forall m, sk :: w.sign(m, sk) != [] && w.norm(w.sign(m, sk)) != [])
    && (forall sk :: w.publicKey(sk) != [] && w.norm(w.publicKey(sk)) != [])
    && (forall t :: w.norm(w.norm(t)) == w.norm(t))
    && (forall s, m, m', p :: w.verify(s, m, p) && w.verify(s, m', p) ==> m == m')
  }

  function CreateUnsigned(kind: Text, tradeId: Text, body: Js, ts: int, nonce: Option<Text>, random: Text, v: int)
    : Result<Js>
  {
    if kind == [] then Err("kind is required")
    else if tradeId == [] then Err("tradeId is required")
    else if body == Undefined then Err("body is required")
    else
      var n := if nonce.Some? && nonce.value != [] then nonce.value else random;
      Ok(Obj([Field(V, Num(v)), Field(KIND, Str(kind)), Field(TRADE_ID, Str(tradeId)),
              Field(TS, Num(ts)), Field(NONCE, Str(n)), Field(BODY, body)]))
  }

  function Without(fields: seq<Field>, k: Text): seq<Field> {
    if fields == [] then []
    else if fields[0].key == k then Without(fields[1..], k)
    else [fields[0]] + Without(fields[1..], k)
  }

  // Assigning a property: an existing one keeps its place.
  function SetField(fields: seq<Field>, k: Text, v: Js): seq<Field> {
    if fields == [] then [Field(k, v)]
    else if fields[0].key == k then [Field(k, v)] + fields[1..]
    else [fields[0]] + SetField(fields[1..], k, v)
  }

  function Property(env: Js, k: Text): Js {
    if env.Obj? && k in Keys(env.fields) then Get(env, k) else Undefined
  }

  function Unsigned(env: Js): Js
    requires env.Obj?
  {
    Obj(Without(Without(env.fields, SIG), SIGNER))
  }

  function Sign(w: Wallet, unsigned: Js, secret: Text): Text {
    w.sign(Stringify(unsigned), secret)
  }

  function Attach(w: Wallet, unsigned: Js, signer: Text, sig: Text): Result<Js>
    requires unsigned.Obj?
  {
    if signer == [] then Err("signerPubKeyHex is required")
    else if sig == [] then Err("sigHex is required")
    else Ok(Obj(SetField(SetField(unsigned.fields, SIGNER, Str(w.norm(signer))), SIG, Str(w.norm(sig)))))
  }

  function Verify(w: Wallet, env: Js): Result<()> {
    if !env.Obj? && !env.Arr? then Err("Invalid envelope")
    else
      var sig, signer := Property(env, SIG), Property(env, SIGNER);
      if !sig.Str? || sig.s == [] then Err("Missing sig")
      else if !signer.Str? || signer.s == [] then Err("Missing signer")
      else if w.verify(w.norm(sig.s), Stringify(Unsigned(env)), w.norm(signer.s)) then Ok(())
      else Err("Invalid signature")
  }

  // ---------------------------------------------------------------- field lists

  lemma {:induction false} WithoutFields(fields: seq<Field>, k: Text)
    requires DistinctKeys(fields)
    ensures DistinctKeys(Without(fields, k))
    ensures forall f :: f in Without(fields, k) <==> f in fields && f.key != k
  {
    if fields != [] {
      assert fields == [fields[0]] + fields[1..];
      WithoutFields(fields[1..], k);
    }
  }

  lemma {:induction false} SetFieldFields(fields: seq<Field>, k: Text, v: Js)
    requires DistinctKeys(fields)
    ensures DistinctKeys(SetField(fields, k, v))
    ensures forall f :: f in SetField(fields, k, v) <==> (f in fields && f.key != k) || f == Field(k, v)
  {
    if fields != [] {
      var head, tail := fields[0], fields[1..];
      assert fields == [head] + tail;
      forall f | f in tail ensures f.key != head.key {
        var i :| 0 <= i < |tail| && tail[i] == f;
        assert fields[i + 1] == f;
      }
      if head.key != k {
        SetFieldFields(tail, k, v);
      } else {
      }
    }
  }

  lemma KeyHasField(fields: seq<Field>, k: Text)
    ensures k in Keys(fields) <==> exists f :: f in fields && f.key == k
  {
    if k in Keys(fields) {
      assert fields[IndexOf(fields, k)] in fields;
    }
    forall f | f in fields && f.key == k ensures k in Keys(fields) {
      var i :| 0 <= i < |fields| && fields[i] == f;
      assert Keys(fields)[i] == k;
    }
  }

  lemma FieldIsGet(obj: Js, f: Field)
    requires Valid(obj) && obj.Obj? && f in obj.fields
    ensures f.key in Keys(obj.fields) && Get(obj, f.key) == f.value
  {
    KeyHasField(obj.fields, f.key);
    var i :| 0 <= i < |obj.fields| && obj.fields[i] == f;
    assert IndexOf(obj.fields, f.key) == i;
  }

  // Objects with the same fields, in whatever order, mean the same.
  lemma SameFieldsSameMeaning(a: Js, b: Js)
    requires a.Obj? && b.Obj? && Valid(a) && Valid(b)
    requires forall f :: f in a.fields <==> f in b.fields
    ensures Meaning(a) == Meaning(b)
  {
    forall k ensures k in Meaning(a).members <==> k in Meaning(b).members {
      KeyHasField(a.fields, k);
      KeyHasField(b.fields, k);
    }
    forall k | k in Meaning(a).members ensures Meaning(a).members[k] == Meaning(b).members[k] {
      FieldIsGet(b, Field(k, Get(a, k)));
    }
    assert Meaning(a).members == Meaning(b).members;
  }

  lemma UnsignedValid(env: Js)
    requires env.Obj? && Valid(env)
    ensures Valid(Unsigned(env))
    ensures forall f :: f in Unsigned(env).fields <==> f in env.fields && f.key != SIG && f.key != SIGNER
  {
    WithoutFields(env.fields, SIG);
    WithoutFields(Without(env.fields, SIG), SIGNER);
    forall i | 0 <= i < |Unsigned(env).fields| ensures Valid(Unsigned(env).fields[i].value) {
      assert Unsigned(env).fields[i] in env.fields;
    }
  }

  lemma UnsignedMember(env: Js, k: Text)
    requires env.Obj? && Valid(env)
    ensures k in Keys(Unsigned(env).fields) <==> k in Keys(env.fields) && k != SIG && k != SIGNER
    ensures k in Keys(Unsigned(env).fields) ==> Get(Unsigned(env), k) == Get(env, k)
  {
    var u := Unsigned(env);
    UnsignedValid(env);
    KeyHasField(u.fields, k);
    KeyHasField(env.fields, k);
    if k in Keys(u.fields) {
      FieldIsGet(env, Field(k, Get(u, k)));
    }
  }

  lemma MeaningMember(obj: Js, k: Text)
    requires obj.Obj?
    ensures Meaning(obj).VObj?
    ensures k in Meaning(obj).members <==> k in Keys(obj.fields)
    ensures k in Keys(obj.fields) ==> Meaning(obj).members[k] == Meaning(Get(obj, k))
  {
  }

  lemma UnsignedMeaning(env: Js)
    requires env.Obj? && Valid(env)
    ensures Meaning(Unsigned(env)) == VObj(Meaning(env).members - {SIG, SIGNER})
  {
    var got, want := Meaning(Unsigned(env)).members, Meaning(env).members - {SIG, SIGNER};
    forall k ensures (k in got <==> k in want) && (k in got ==> got[k] == want[k]) {
      UnsignedMember(env, k);
      MeaningMember(env, k);
      MeaningMember(Unsigned(env), k);
    }
    SameMap(got, want);
  }

  lemma SameMap(m: map<Text, Value>, m': map<Text, Value>)
    requires forall k :: (k in m <==> k in m') && (k in m ==> m[k] == m'[k])
    ensures m == m'
  {
  }

  // ---------------------------------------------------------------- signatures

  predicate HasSignatureKeys(unsigned: Js)
    requires unsigned.Obj?
  {
    SIG in Keys(unsigned.fields) || SIGNER in Keys(unsigned.fields)
  }

  lemma AttachedFields(w: Wallet, unsigned: Js, signer: Text, sig: Text)
    requires unsigned.Obj? && Valid(unsigned) && signer != [] && sig != []
    ensures var env := Attach(w, unsigned, signer, sig).value;
      && Valid(env)
      && Property(env, SIG) == Str(w.norm(sig)) && Property(env, SIGNER) == Str(w.norm(signer))
      && forall f :: f in Unsigned(env).fields <==> f in unsigned.fields && f.key != SIG && f.key != SIGNER
  {
    var env := Attach(w, unsigned, signer, sig).value;
    var inner := SetField(unsigned.fields, SIGNER, Str(w.norm(signer)));
    SetFieldFields(unsigned.fields, SIGNER, Str(w.norm(signer)));
    SetFieldFields(inner, SIG, Str(w.norm(sig)));
    forall i | 0 <= i < |env.fields| ensures Valid(env.fields[i].value) {
      assert env.fields[i] in env.fields;
    }
    FieldIsGet(env, Field(SIG, Str(w.norm(sig))));
    FieldIsGet(env, Field(SIGNER, Str(w.norm(signer))));
    UnsignedValid(env);
  }

  // Signing, attaching and verifying succeeds exactly on envelopes that do not already use the two
  // signature keys: those are dropped before the text is rebuilt.
  lemma SignedEnvelopeVerifies(w: Wallet, unsigned: Js, secret: Text)
    requires Ideal(w) && unsigned.Obj? && Valid(unsigned)
    ensures var env := Attach(w, unsigned, w.publicKey(secret), Sign(w, unsigned, secret));
      env.Ok? && (Verify(w, env.value).Ok? <==> !HasSignatureKeys(unsigned))
  {
    var signer, sig := w.publicKey(secret), Sign(w, unsigned, secret);
    var env := Attach(w, unsigned, signer, sig).value;
    AttachedFields(w, unsigned, signer, sig);
    UnsignedValid(env);
    KeyHasField(unsigned.fields, SIG);
    KeyHasField(unsigned.fields, SIGNER);
    if HasSignatureKeys(unsigned) {
      var k := if SIG in Keys(unsigned.fields) then SIG else SIGNER;
      UnsignedMeaning(env);
      assert k in Meaning(unsigned).members && k !in Meaning(Unsigned(env)).members;
    } else {
      forall f ensures f in Unsigned(env).fields <==> f in unsigned.fields {
      }
      SameFieldsSameMeaning(Unsigned(env), unsigned);
    }
    Canonical(Unsigned(env), unsigned);
  }

  // The verdict depends on the JSON value of the envelope only, not on the order of its keys at any depth.
  lemma ReorderingKeepsVerdict(w: Wallet, a: Js, b: Js)
    requires a.Obj? && b.Obj? && Valid(a) && Valid(b) && Meaning(a) == Meaning(b)
    ensures Verify(w, a) == Verify(w, b)
  {
    SameUnsignedText(a, b);
    SameTextProperty(a, b, SIG);
    SameTextProperty(a, b, SIGNER);
  }

  lemma SameUnsignedText(a: Js, b: Js)
    requires a.Obj? && b.Obj? && Valid(a) && Valid(b)
    ensures Stringify(Unsigned(a)) == Stringify(Unsigned(b))
       <==> Meaning(a).members - {SIG, SIGNER} == Meaning(b).members - {SIG, SIGNER}
  {
    UnsignedValid(a);
    UnsignedValid(b);
    UnsignedMeaning(a);
    UnsignedMeaning(b);
    Canonical(Unsigned(a), Unsigned(b));
  }

  lemma SameTextProperty(a: Js, b: Js, k: Text)
    requires a.Obj? && b.Obj? && Meaning(a) == Meaning(b)
    ensures Property(a, k).Str? == Property(b, k).Str?
    ensures Property(a, k).Str? ==> Property(a, k) == Property(b, k)
  {
    MeaningMember(a, k);
    MeaningMember(b, k);
  }

  // One signature under one key vouches for one unsigned value.
  lemma SignatureBindsOneValue(w: Wallet, a: Js, b: Js)
    requires Ideal(w) && a.Obj? && b.Obj? && Valid(a) && Valid(b)
    requires Verify(w, a).Ok? && Verify(w, b).Ok?
    requires Property(a, SIG) == Property(b, SIG) && Property(a, SIGNER) == Property(b, SIGNER)
    ensures Meaning(Unsigned(a)) == Meaning(Unsigned(b))
    ensures Meaning(a) == Meaning(b)
  {
    SignatureBindsOneText(w, a, b);
    SameUnsignedText(a, b);
    UnsignedMeaning(a);
    UnsignedMeaning(b);
    SameOutsideAndInside(Meaning(a).members, Meaning(b).members, {SIG, SIGNER});
  }

  lemma SignatureBindsOneText(w: Wallet, a: Js, b: Js)
    requires Ideal(w) && a.Obj? && b.Obj? && Verify(w, a).Ok? && Verify(w, b).Ok?
    requires Property(a, SIG) == Property(b, SIG) && Property(a, SIGNER) == Property(b, SIGNER)
    ensures Stringify(Unsigned(a)) == Stringify(Unsigned(b))
    ensures forall k | k in {SIG, SIGNER} ::
              && k in Meaning(a).members && k in Meaning(b).members
              && Meaning(a).members[k] == Meaning(b).members[k]
  {
    forall k | k in {SIG, SIGNER}
      ensures k in Keys(a.fields) && k in Keys(b.fields) && Get(a, k) == Get(b, k)
    {
      assert Property(a, k).Str? && Property(a, k) == Property(b, k);
    }
  }

  lemma SameOutsideAndInside(m: map<Text, Value>, m': map<Text, Value>, ks: set<Text>)
    requires m - ks == m' - ks
    requires forall k | k in ks :: k in m && k in m' && m[k] == m'[k]
    ensures m == m'
  {
    forall k ensures (k in m <==> k in m') && (k in m ==> m[k] == m'[k]) {
      if k !in ks {
        assert k in m <==> k in m - ks;
        assert k in m' <==> k in m' - ks;
        if k in m { assert m[k] == (m - ks)[k] == (m' - ks)[k]; }
      }
    }
    assert m == m';
  }

  // What createUnsignedEnvelope builds is always free of the signature keys.
  lemma CreatedEnvelopeVerifies(w: Wallet, kind: Text, tradeId: Text, body: Js, ts: int, nonce: Option<Text>,
                                random: Text, v: int, secret: Text)
    requires Ideal(w) && kind != [] && tradeId != [] && body != Undefined && Valid(body)
    ensures var unsigned := CreateUnsigned(kind, tradeId, body, ts, nonce, random, v);
      && unsigned.Ok? && unsigned.value.Obj?
      && var env := Attach(w, unsigned.value, w.publicKey(secret), Sign(w, unsigned.value, secret));
      && env.Ok? && Verify(w, env.value).Ok?
  {
    var unsigned := CreateUnsigned(kind, tradeId, body, ts, nonce, random, v).value;
    assert Keys(unsigned.fields) == [V, KIND, TRADE_ID, TS, NONCE, BODY];
    SignedEnvelopeVerifies(w, unsigned, secret);
  }

  // ---------------------------------------------------------------- what goes where

  // An unsigned envelope needs a kind, a trade id and a body; each goes under its own key, the nonce is
  // the given one or else the random one, and there is nothing else in it.
  lemma CreatedExactly(kind: Text, tradeId: Text, body: Js, ts: int, nonce: Option<Text>, random: Text, v: int)
    ensures CreateUnsigned(kind, tradeId, body, ts, nonce, random, v).Ok? <==> kind != [] && tradeId != [] && body != Undefined
    ensures var r := CreateUnsigned(kind, tradeId, body, ts, nonce, random, v);
      r.Ok? ==>
        (&& r.value.Obj? && |r.value.fields| == 6
         && Property(r.value, KIND) == Str(kind) && Property(r.value, TRADE_ID) == Str(tradeId)
         && Property(r.value, BODY) == body && Property(r.value, TS) == Num(ts) && Property(r.value, V) == Num(v)
         && Property(r.value, NONCE) == Str(match nonce case Some(n) => (if n == [] then random else n) case None => random))
  {
    var r := CreateUnsigned(kind, tradeId, body, ts, nonce, random, v);
    if r.Ok? {
      var fs := r.value.fields;
      assert |V| == 1 && |KIND| == 4 && |TRADE_ID| == 8 && |TS| == 2 && |NONCE| == 5 && |BODY| == 4 && KIND[0] != BODY[0];
      forall i, j | 0 <= i < j < |fs| ensures fs[i].key != fs[j].key { }
      PropertyAt(fs, 0);
      PropertyAt(fs, 1);
      PropertyAt(fs, 2);
      PropertyAt(fs, 3);
      PropertyAt(fs, 4);
      PropertyAt(fs, 5);
    }
  }

  lemma PropertyAt(fields: seq<Field>, i: nat)
    requires i < |fields| && forall j, k | 0 <= j < k < |fields| :: fields[j].key != fields[k].key
    ensures Property(Obj(fields), fields[i].key) == fields[i].value
  {
    assert Keys(fields)[i] == fields[i].key;
    var j := IndexOf(fields, fields[i].key);
    assert fields[j].key == fields[i].key;
  }

  // An envelope verifies exactly when it has a non-empty signature and signer and the first is the
  // second's over the canonical text of everything else in it.
  lemma VerifiesExactly(w: Wallet, env: Js, rest: Js)
    requires env.Obj? && Valid(env) && rest.Obj? && Valid(rest) && Meaning(rest) == VObj(Meaning(env).members - {SIG, SIGNER})
    ensures Verify(w, env).Ok? <==>
      var sig, signer := Property(env, SIG), Property(env, SIGNER);
      sig.Str? && sig.s != [] && signer.Str? && signer.s != [] && w.verify(w.norm(sig.s), Stringify(rest), w.norm(signer.s))
  {
    UnsignedValid(env);
    UnsignedMeaning(env);
    Canonical(Unsigned(env), rest);
  }
}
