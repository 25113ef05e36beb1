/** Integer-encoded strings of src/rdb_object.rs: other servers write small numbers in one, two or four
    bytes, and decoding gives their decimal text. */
module RdbIntegers {
  import opened Basics
  import opened RdbCodec

  // ----- what is on the wire and what is to come out ------------------------------------------------------

  /** The two's-complement bytes of a number, least significant first. */
  function TwosComplement(v: int, k: nat): (s: Bytes)
    ensures |s| == k
  {
    seq(k, i requires 0 <= i < k => v / Power256(i) % 256)
  }

  /** A decimal text read digit by digit. */
  function ReadDigits(t: Bytes): int {
    if t == [] then 0 else 10 * ReadDigits(t[..|t| - 1]) + t[|t| - 1] - '0' as int
  }

  predicate Natural(t: Bytes) {
    && t != [] && (forall i :: 0 <= i < |t| ==> '0' as int <= t[i] <= '9' as int)
    && (|t| > 1 ==> t[0] != '0' as int)
  }

  /** The text is the number, with a minus sign if it is negative and no leading zero. */
  predicate Spells(t: Bytes, v: int) {
    if v < 0 then t != [] && t[0] == '-' as int && Natural(t[1..]) && ReadDigits(t[1..]) == -v
    else Natural(t) && ReadDigits(t) == v
  }

  // ----- decimal text ---------------------------------------------------------------------------------------

  lemma {:induction false} DigitsSpell(n: nat)
    ensures Natural(Digits(n)) && ReadDigits(Digits(n)) == n
    ensures n > 0 ==> Digits(n)[0] != '0' as int
  {
    if n >= 10 {
      DigitsSpell(n / 10);
      assert Digits(n)[..|Digits(n)| - 1] == Digits(n / 10);
    }
  }

  lemma DecimalSpells(v: int)
    ensures Spells(Decimal(v), v)
  {
    if v < 0 {
      DigitsSpell(-v);
      assert Decimal(v)[1..] == Digits(-v);
    } else {
      DigitsSpell(v);
    }
  }

  // ----- two's complement -----------------------------------------------------------------------------------

  lemma DivideTwice(v: int, p: int)
    requires p > 0
    ensures v / (256 * p) == v / 256 / p
    ensures v % (256 * p) == v % 256 + 256 * (v / 256 % p)
  {
    var q, r := v / 256, v % 256;
    var a, b := q / p, q % p;
    assert 256 * p > 0 && v == 256 * q + r && q == p * a + b;
    assert v == 256 * p * a + (256 * b + r);
    assert 0 <= 256 * b + r < 256 * p;
    Uniquely(v, 256 * p, a, 256 * b + r);
  }

  lemma Uniquely(v: int, d: int, q: int, r: int)
    requires d > 0 && v == d * q + r && 0 <= r < d
    ensures v / d == q && v % d == r
  {
    SameQuotient(d, q, r, v / d, v % d);
  }

  lemma SameQuotient(d: int, q: int, r: int, q': int, r': int)
    requires d * q + r == d * q' + r' && 0 <= r < d && 0 <= r' < d
    ensures q == q' && r == r'
  {
    if q > q' {
      AtLeast(d, q - q');
    } else if q < q' {
      AtLeast(d, q' - q);
    }
  }

  lemma AtLeast(d: int, x: int)
    requires d > 0 && x >= 1
    ensures d * x >= d
  {
  }

  lemma ComplementTail(v: int, k: nat)
    requires k > 0
    ensures TwosComplement(v, k)[0] == v % 256 && TwosComplement(v, k)[1..] == TwosComplement(v / 256, k - 1)
  {
    forall i | 0 <= i < k - 1 ensures v / Power256(i + 1) % 256 == v / 256 / Power256(i) % 256 {
      DivideTwice(v, Power256(i));
    }
  }

  lemma LowByteFirst(s: Bytes)
    requires s != []
    ensures FromBigEndian(ReverseBytes(s)) == s[0] + 256 * FromBigEndian(ReverseBytes(s[1..]))
  {
    var front := ReverseBytes(s[1..]);
    assert ReverseBytes(s) == front + [s[0]] && (front + [s[0]])[..|front|] == front;
  }

  lemma {:induction false} ComplementValue(v: int, k: nat)
    ensures FromBigEndian(ReverseBytes(TwosComplement(v, k))) == v % Power256(k)
    decreases k
  {
    if k == 0 {
      assert TwosComplement(v, 0) == [];
    } else {
      ComplementTail(v, k);
      ComplementValue(v / 256, k - 1);
      LowByteFirst(TwosComplement(v, k));
      DivideTwice(v, Power256(k - 1));
    }
  }

  lemma SignedComplement(v: int, k: nat)
    requires k > 0 && -Power256(k) <= 2 * v < Power256(k)
    ensures Signed(TwosComplement(v, k)) == v
  {
    ComplementValue(v, k);
    if v < 0 {
      Uniquely(v, Power256(k), -1, v + Power256(k));
    } else {
      Uniquely(v, Power256(k), 0, v);
    }
  }

  // ----- the strings -----------------------------------------------------------------------------------------

  lemma TaggedString(v: int, tag: nat, k: nat, tail: Bytes)
    requires tag <= 2 && k == [1, 2, 4][tag] && -Power256(k) <= 2 * v < Power256(k)
    ensures exists t :: DecodeString([0xC0 + tag] + TwosComplement(v, k) + tail) == Ok(t, tail) && Spells(t, v)
  {
    var s := TwosComplement(v, k);
    var d := [0xC0 + tag] + s + tail;
    assert DecodeLen(d) == Ok((tag, true), s + tail) by { assert d[1..] == s + tail; }
    assert (s + tail)[..k] == s && (s + tail)[k..] == tail;
    SignedComplement(v, k);
    DecimalSpells(v);
    assert DecodeString(d) == Ok(Decimal(v), tail);
  }

  /** Each of the three widths decodes, for every number it can hold and whatever follows, to the
      decimal text of the number. */
  lemma IntegerStrings(v: int, tail: Bytes)
    ensures -0x80 <= v < 0x80 ==>
      exists t :: DecodeString([0xC0] + TwosComplement(v, 1) + tail) == Ok(t, tail) && Spells(t, v)
    ensures -0x8000 <= v < 0x8000 ==>
      exists t :: DecodeString([0xC1] + TwosComplement(v, 2) + tail) == Ok(t, tail) && Spells(t, v)
    ensures -0x8000_0000 <= v < 0x8000_0000 ==>
      exists t :: DecodeString([0xC2] + TwosComplement(v, 4) + tail) == Ok(t, tail) && Spells(t, v)
  {
    hide DecodeString, Spells, TwosComplement;
    assert Power256(1) == 0x100 && Power256(2) == 0x1_0000 && Power256(4) == 0x1_0000_0000;
    if -0x80 <= v < 0x80 { TaggedString(v, 0, 1, tail); }
    if -0x8000 <= v < 0x8000 { TaggedString(v, 1, 2, tail); }
    if -0x8000_0000 <= v < 0x8000_0000 { TaggedString(v, 2, 4, tail); }
  }
}
