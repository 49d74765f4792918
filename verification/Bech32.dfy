// Regrouping of bytes and 5-bit words (BIP-173, "Bech32"), as the tagged fields of an invoice are
// encoded.

module Bech32 {

  import opened Prelude

  type Word = w: int | 0 <= w < 32
  type Byte = b: int | 0 <= b < 256
  type Bits = seq<bool>

  // The k low bits of n, most significant first.
  function BitsOf(n: nat, k: nat): (bits: Bits)
    ensures |bits| == k
    decreases k
  {
    if k == 0 then [] else BitsOf(n / 2, k - 1) + [n % 2 == 1]
  }

  function NumberOf(bits: Bits): nat {
    if bits == [] then 0 else 2 * NumberOf(bits[..|bits| - 1]) + (if bits[|bits| - 1] then 1 else 0)
  }

  function WordBits(words: seq<Word>): (bits: Bits)
    ensures |bits| == 5 * |words|
  {
    if words == [] then [] else BitsOf(words[0], 5) + WordBits(words[1..])
  }

  function ByteBits(bytes: seq<Byte>): (bits: Bits)
    ensures |bits| == 8 * |bytes|
  {
    if bytes == [] then [] else BitsOf(bytes[0], 8) + ByteBits(bytes[1..])
  }

  lemma {:induction false} NumberBelow(bits: Bits)
    ensures NumberOf(bits) < Power2(|bits|)
  {
    if bits != [] { NumberBelow(bits[..|bits| - 1]); }
  }

  function GroupBytes(bits: Bits, n: nat): (bytes: seq<Byte>)
    requires |bits| == 8 * n
    ensures |bytes| == n
  {
    if n == 0 then []
    else
      NumberBelow(bits[..8]);
      [NumberOf(bits[..8])] + GroupBytes(bits[8..], n - 1)
  }

  function GroupWords(bits: Bits, n: nat): (words: seq<Word>)
    requires |bits| == 5 * n
    ensures |words| == n
  {
    if n == 0 then []
    else
      NumberBelow(bits[..5]);
      [NumberOf(bits[..5])] + GroupWords(bits[5..], n - 1)
  }

  function Zeros(k: nat): Bits {
    seq(k, _ => false)
  }

  function WholeBytes(k: nat): (n: nat)
    ensures 8 * n <= k < 8 * n + 8
  {
    k / 8
  }

  function WordsNeeded(k: nat): (n: nat)
    ensures k <= 5 * n < k + 5
  {
    (k + 4) / 5
  }

  // Regrouping without padding: what is left over must be fewer than five zero bits.
  function FromWords(words: seq<Word>): Result<seq<Byte>> {
    var bits := WordBits(words);
    var n := WholeBytes(|bits|);
    if |bits| - 8 * n >= 5 then Err("Excess padding")
    else if exists i | 8 * n <= i < |bits| :: bits[i] then Err("Non-zero padding")
    else Ok(GroupBytes(bits[..8 * n], n))
  }

  // Regrouping with zero padding, as an encoder does it.
  function ToWords(bytes: seq<Byte>): seq<Word> {
    var bits := ByteBits(bytes);
    var n := WordsNeeded(|bits|);
    GroupWords(bits + Zeros(5 * n - |bits|), n)
  }

  lemma {:induction false} BitsRoundTrip(n: nat, k: nat)
    requires n < Power2(k)
    ensures NumberOf(BitsOf(n, k)) == n
    decreases k
  {
    if k > 0 {
      BitsRoundTrip(n / 2, k - 1);
      assert BitsOf(n, k)[..k - 1] == BitsOf(n / 2, k - 1);
    }
  }

  lemma {:induction false} NumberBits(bits: Bits)
    ensures BitsOf(NumberOf(bits), |bits|) == bits
  {
    if bits != [] {
      NumberBits(bits[..|bits| - 1]);
    }
  }

  lemma {:induction false} GroupWordsBits(bits: Bits, n: nat)
    requires |bits| == 5 * n
    ensures WordBits(GroupWords(bits, n)) == bits
    decreases n
  {
    if n > 0 {
      NumberBits(bits[..5]);
      GroupWordsBits(bits[5..], n - 1);
      assert GroupWords(bits, n)[1..] == GroupWords(bits[5..], n - 1);
      assert bits == bits[..5] + bits[5..];
    }
  }

  lemma {:induction false} ByteBitsGrouped(bytes: seq<Byte>)
    ensures GroupBytes(ByteBits(bytes), |bytes|) == bytes
  {
    if bytes != [] {
      var bits := ByteBits(bytes);
      BitsRoundTrip(bytes[0], 8);
      assert bits[..8] == BitsOf(bytes[0], 8) && bits[8..] == ByteBits(bytes[1..]);
      ByteBitsGrouped(bytes[1..]);
    }
  }

  lemma Unpadded(words: seq<Word>, bits: Bits, pad: nat, n: nat)
    requires |bits| == 8 * n && pad < 5 && WordBits(words) == bits + Zeros(pad)
    ensures FromWords(words) == Ok(GroupBytes(bits, n))
  {
    assert WholeBytes(|bits + Zeros(pad)|) == n;
    assert (bits + Zeros(pad))[..8 * n] == bits;
  }

  function PadOf(bytes: seq<Byte>): (pad: nat)
    ensures pad < 5
  {
    5 * WordsNeeded(8 * |bytes|) - 8 * |bytes|
  }

  lemma PaddedBits(bytes: seq<Byte>)
    ensures WordBits(ToWords(bytes)) == ByteBits(bytes) + Zeros(PadOf(bytes))
  {
    GroupWordsBits(ByteBits(bytes) + Zeros(PadOf(bytes)), WordsNeeded(8 * |bytes|));
  }

  lemma RegroupPadded(bytes: seq<Byte>, words: seq<Word>)
    requires WordBits(words) == ByteBits(bytes) + Zeros(PadOf(bytes))
    ensures FromWords(words) == Ok(bytes)
  {
    Unpadded(words, ByteBits(bytes), PadOf(bytes), |bytes|);
    ByteBitsGrouped(bytes);
  }

  lemma BytesRoundTrip(bytes: seq<Byte>)
    ensures FromWords(ToWords(bytes)) == Ok(bytes)
  {
    PaddedBits(bytes);
    RegroupPadded(bytes, ToWords(bytes));
  }
}
