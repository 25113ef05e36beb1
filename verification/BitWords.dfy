/** Machine words as bits, least significant first: `w[0]` is `w & 1`, `w[..8]` is `w as u8`, and
    shifting right drops bits from the front. */
module BitWords {
  import opened Basics

  type Bits = seq<bool>

  type Word = w: Bits | |w| == 64 witness seq(64, i => false)

  function Zeros(n: nat): (r: Bits)
    ensures |r| == n && forall i :: 0 <= i < n ==> !r[i]
  {
    seq(n, i => false)
  }

  function Xor(a: Bits, b: Bits): (r: Bits)
    requires |a| == |b|
    ensures |r| == |a| && forall i :: 0 <= i < |r| ==> r[i] == (a[i] != b[i])
  {
    seq(|a|, i requires 0 <= i < |a| => a[i] != b[i])
  }

  // ----- numbers and bits -------------------------------------------------------------------------

  /** The low `k` bits of a number. */
  function ToBits(n: nat, k: nat): (r: Bits)
    ensures |r| == k
  {
    if k == 0 then [] else [n % 2 == 1] + ToBits(n / 2, k - 1)
  }

  function Value(bits: Bits): nat {
    if bits == [] then 0 else (if bits[0] then 1 else 0) + 2 * Value(bits[1..])
  }

  function Power2(k: nat): nat {
    if k == 0 then 1 else 2 * Power2(k - 1)
  }

  lemma {:induction false} ValueBound(bits: Bits)
    ensures Value(bits) < Power2(|bits|)
  {
    if bits != [] { ValueBound(bits[1..]); }
  }

  lemma {:induction false} BitsOfValue(bits: Bits)
    ensures ToBits(Value(bits), |bits|) == bits
  {
    if bits != [] {
      BitsOfValue(bits[1..]);
      assert bits == [bits[0]] + bits[1..];
    }
  }

  lemma {:induction false} ValueOfBits(n: nat, k: nat)
    requires n < Power2(k)
    ensures Value(ToBits(n, k)) == n
  {
    if k > 0 {
      ValueOfBits(n / 2, k - 1);
      assert ToBits(n, k)[1..] == ToBits(n / 2, k - 1);
    }
  }

  function ByteOf(bits: Bits): (b: Byte)
    requires |bits| == 8
    ensures ToBits(b, 8) == bits
  {
    ValueBound(bits);
    BitsOfValue(bits);
    assert Power2(8) == 256;
    Value(bits)
  }

  lemma ByteBits(b: Byte)
    ensures ByteOf(ToBits(b, 8)) == b
  {
    assert Power2(8) == 256;
    ValueOfBits(b, 8);
  }

  lemma {:induction false} TopBit(n: nat, k: nat)
    requires Power2(k) <= n < Power2(k + 1)
    ensures ToBits(n, k + 1)[k]
  {
    if k > 0 {
      TopBit(n / 2, k - 1);
      assert ToBits(n, k + 1)[k] == ToBits(n / 2, k)[k - 1];
    }
  }

  lemma {:induction false} PowerSum(a: nat, b: nat)
    ensures Power2(a + b) == Power2(a) * Power2(b)
  {
    if b > 0 { PowerSum(a, b - 1); }
  }
}
