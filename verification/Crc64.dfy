/** The CRC-64 of src/rdb_object.rs: reflected Jones polynomial, initial value 0, no final xor. */
module Crc64 {
  import opened Basics
  import opened BitWords
  import opened CrcPolynomial

  // ----- one shift ----------------------------------------------------------------------------------

  function Shr(x: Word, n: nat): Word
    requires n <= 64
  {
    x[n..] + Zeros(n)
  }

  /** One turn of the table-building loop: `if crc & 1 { (crc >> 1) ^ POLY } else { crc >> 1 }`. */
  function Step(x: Word): Word {
    if x[0] then Xor(Shr(x, 1), Poly()) else Shr(x, 1)
  }

  function Steps(x: Word, n: nat): Word
    decreases n
  {
    if n == 0 then x else Steps(Step(x), n - 1)
  }

  lemma StepLinear(x: Word, y: Word)
    ensures Step(Xor(x, y)) == Xor(Step(x), Step(y))
  {
    hide Poly;
    assert Shr(Xor(x, y), 1) == Xor(Shr(x, 1), Shr(y, 1));
  }

  lemma {:induction false} StepsLinear(x: Word, y: Word, n: nat)
    ensures Steps(Xor(x, y), n) == Xor(Steps(x, n), Steps(y, n))
    decreases n
  {
    hide Step, Xor;
    if n > 0 {
      StepLinear(x, y);
      StepsLinear(Step(x), Step(y), n - 1);
    }
  }

  lemma StepInjective(x: Word, y: Word)
    requires Step(x) == Step(y)
    ensures x == y
  {
    hide Poly;
    PolyTop();
    assert Step(x)[63] == x[0] && Step(y)[63] == y[0];
    assert Shr(x, 1) == Shr(y, 1) by {
      if x[0] { XorCancels(Shr(x, 1), Shr(y, 1), Poly()); }
    }
    assert x == [x[0]] + Shr(x, 1)[..63];
    assert y == [y[0]] + Shr(y, 1)[..63];
  }

  lemma XorCancels(x: Bits, y: Bits, p: Bits)
    requires |x| == |y| == |p| && Xor(x, p) == Xor(y, p)
    ensures x == y
  {
    forall i | 0 <= i < |x| ensures x[i] == y[i] {
      assert Xor(x, p)[i] == Xor(y, p)[i];
    }
  }

  lemma {:induction false} StepsInjective(x: Word, y: Word, n: nat)
    requires Steps(x, n) == Steps(y, n)
    ensures x == y
    decreases n
  {
    hide Step;
    if n > 0 {
      StepsInjective(Step(x), Step(y), n - 1);
      StepInjective(x, y);
    }
  }

  lemma {:induction false} StepsZero(n: nat)
    ensures Steps(Zeros(64), n) == Zeros(64)
  {
    hide Step, Zeros;
    if n > 0 {
      StepZero();
      StepsZero(n - 1);
    }
  }

  lemma StepZero()
    ensures Step(Zeros(64)) == Zeros(64)
  {
    hide Poly;
    assert Shr(Zeros(64), 1) == Zeros(64);
  }

  // ----- the bit-serial reference --------------------------------------------------------------------

  /** Feed a stream of bits, one shift a bit. */
  function Serial(x: Word, bits: Bits): Word
    decreases |bits|
  {
    if bits == [] then x else Serial(Step(x[0 := x[0] != bits[0]]), bits[1..])
  }

  function Stream(data: seq<Byte>): (r: Bits)
    ensures |r| == 8 * |data|
  {
    if data == [] then [] else ToBits(data[0], 8) + Stream(data[1..])
  }

  function SerialCrc(data: seq<Byte>): Word {
    Serial(Zeros(64), Stream(data))
  }

  lemma {:induction false} SerialConcat(x: Word, a: Bits, b: Bits)
    ensures Serial(x, a + b) == Serial(Serial(x, a), b)
    decreases |a|
  {
    hide Step;
    if a == [] {
      assert a + b == b;
    } else {
      SerialConcat(Step(x[0 := x[0] != a[0]]), a[1..], b);
      assert (a + b)[1..] == a[1..] + b;
    }
  }

  lemma {:induction false} StreamConcat(a: seq<Byte>, b: seq<Byte>)
    ensures Stream(a + b) == Stream(a) + Stream(b)
  {
    hide ToBits;
    if a == [] {
      assert a + b == b;
    } else {
      StreamConcat(a[1..], b);
      assert (a + b)[1..] == a[1..] + b;
    }
  }

  function Pad(bits: Bits): Word
    requires |bits| <= 64
  {
    bits + Zeros(64 - |bits|)
  }

  lemma BlockHead(x: Word, bits: Bits)
    requires 0 < |bits| <= 64
    ensures Step(Xor(x, Pad(bits))) == Xor(Step(x[0 := x[0] != bits[0]]), Pad(bits[1..]))
  {
    hide Poly;
    var first, rest := x[0 := x[0] != bits[0]], bits[1..];
    var shifted: Word := [false] + Pad(rest)[..63];
    assert Xor(x, Pad(bits)) == Xor(first, shifted);
    StepLinear(first, shifted);
    assert Step(shifted) == Pad(rest);
  }

  /** Up to 64 bits at once: xor them in, then shift once a bit. */
  lemma {:induction false} SerialBlock(x: Word, bits: Bits)
    requires |bits| <= 64
    ensures Serial(x, bits) == Steps(Xor(x, Pad(bits)), |bits|)
    decreases |bits|
  {
    hide Poly, Pad, Step;
    if bits == [] {
      PadNothing(x);
    } else {
      BlockHead(x, bits);
      SerialBlock(Step(x[0 := x[0] != bits[0]]), bits[1..]);
    }
  }

  lemma PadNothing(x: Word)
    ensures Xor(x, Pad([])) == x
  {
  }

  // ----- the table ------------------------------------------------------------------------------------

  function TableEntry(i: Byte): Word {
    Steps(Pad(ToBits(i, 8)), 8)
  }

  /** crc64_table: eight shifts of every byte. */
  method BuildTable() returns (table: seq<Word>)
    ensures |table| == 256 && forall i :: 0 <= i < 256 ==> table[i] == TableEntry(i)
  {
    hide Step, Poly;
    table := [];
    for i := 0 to 256
      invariant |table| == i && forall j :: 0 <= j < i ==> table[j] == TableEntry(j)
    {
      var crc: Word := Pad(ToBits(i, 8));
      for k := 0 to 8
        invariant Steps(crc, 8 - k) == TableEntry(i)
      {
        crc := Step(crc);
      }
      table := table + [crc];
    }
  }

  lemma {:induction false} StepsShiftOut(y: Bits, k: nat)
    requires |y| + k == 64
    ensures Steps(Zeros(k) + y, k) == y + Zeros(k)
    decreases k
  {
    hide Step;
    if k == 0 {
      assert Zeros(0) + y == y && y + Zeros(0) == y;
    } else {
      ShiftZeroOut(y, k);
      StepsShiftOut(y + [false], k - 1);
    }
  }

  lemma ShiftZeroOut(y: Bits, k: nat)
    requires |y| + k == 64 && k > 0
    ensures Step(Zeros(k) + y) == Zeros(k - 1) + (y + [false])
    ensures y + [false] + Zeros(k - 1) == y + Zeros(k)
  {
    hide Poly;
  }

  /** Looking the low byte up and xoring in the rest is eight shifts. */
  lemma TableStep(x: Word)
    ensures Steps(x, 8) == Xor(TableEntry(ByteOf(x[..8])), Shr(x, 8))
  {
    var low: Word, high: Word := Pad(x[..8]), Zeros(8) + x[8..];
    assert x == Xor(low, high);
    StepsLinear(low, high, 8);
    StepsShiftOut(x[8..], 8);
  }

  /** redis_crc64: the table-driven loop computes the bit-serial CRC of every byte string. */
  method RedisCrc64(data: seq<Byte>) returns (crc: Word)
    ensures crc == SerialCrc(data)
  {
    hide Serial, Steps, Step, TableEntry, ToBits, Stream, Poly;
    assert Stream([]) == [] && Serial(Zeros(64), []) == Zeros(64) by { SerialOfNothing(); }
    var table := BuildTable();
    crc := Zeros(64);
    for i := 0 to |data|
      invariant crc == SerialCrc(data[..i])
    {
      var b := data[i];
      ghost var before := crc;
      var index := ByteOf(Xor(crc[..8], ToBits(b, 8)));
      crc := Xor(table[index], Shr(crc, 8));
      UpdateIsSerial(before, b);
      StreamConcat(data[..i], [b]);
      SerialConcat(Zeros(64), Stream(data[..i]), Stream([b]));
      assert data[..i + 1] == data[..i] + [b];
      StreamOne(b);
    }
    assert data[..|data|] == data;
  }

  lemma SerialOfNothing()
    ensures Stream([]) == [] && Serial(Zeros(64), []) == Zeros(64)
  {
  }

  lemma StreamOne(b: Byte)
    ensures Stream([b]) == ToBits(b, 8)
  {
    hide ToBits;
  }

  lemma UpdateIsSerial(crc: Word, b: Byte)
    ensures Serial(crc, ToBits(b, 8))
         == Xor(TableEntry(ByteOf(Xor(crc[..8], ToBits(b, 8)))), Shr(crc, 8))
  {
    hide Serial, Steps, TableEntry, ToBits;
    var x := Xor(crc, Pad(ToBits(b, 8)));
    SerialBlock(crc, ToBits(b, 8));
    TableStep(x);
    assert x[..8] == Xor(crc[..8], ToBits(b, 8));
    assert Shr(x, 8) == Shr(crc, 8);
  }

  // ----- error detection --------------------------------------------------------------------------------

  /** Feeding the same bits keeps different states different. */
  lemma {:induction false} SerialStateInjective(x: Word, y: Word, bits: Bits)
    requires Serial(x, bits) == Serial(y, bits)
    ensures x == y
    decreases |bits|
  {
    if bits != [] {
      var x', y' := x[0 := x[0] != bits[0]], y[0 := y[0] != bits[0]];
      SerialStateInjective(Step(x'), Step(y'), bits[1..]);
      StepInjective(x', y');
      assert x == x'[0 := x'[0] != bits[0]] && y == y'[0 := y'[0] != bits[0]];
    }
  }

  /** From one state, different blocks of up to 64 bits lead to different states. */
  lemma SerialBlockInjective(x: Word, a: Bits, b: Bits)
    requires |a| == |b| <= 64 && Serial(x, a) == Serial(x, b)
    ensures a == b
  {
    SerialBlock(x, a);
    SerialBlock(x, b);
    StepsInjective(Xor(x, Pad(a)), Xor(x, Pad(b)), |a|);
    forall i | 0 <= i < |a| ensures a[i] == b[i] {
      assert Xor(x, Pad(a))[i] == Xor(x, Pad(b))[i];
    }
  }

  /** Any change confined to 64 consecutive bits changes the CRC. */
  lemma BurstDetected(before: Bits, a: Bits, b: Bits, after: Bits)
    requires |a| == |b| <= 64 && a != b
    ensures Serial(Zeros(64), before + a + after) != Serial(Zeros(64), before + b + after)
  {
    var x := Serial(Zeros(64), before);
    SerialConcat(Zeros(64), before + a, after);
    SerialConcat(Zeros(64), before, a);
    SerialConcat(Zeros(64), before + b, after);
    SerialConcat(Zeros(64), before, b);
    if Serial(Serial(x, a), after) == Serial(Serial(x, b), after) {
      SerialStateInjective(Serial(x, a), Serial(x, b), after);
      SerialBlockInjective(x, a, b);
    }
  }

  /** A message followed by the right check word, and by no other, has CRC zero. */
  lemma CheckWordIff(message: Bits, check: Word)
    ensures Serial(Zeros(64), message + check) == Zeros(64) <==> check == Serial(Zeros(64), message)
  {
    var x := Serial(Zeros(64), message);
    SerialConcat(Zeros(64), message, check);
    SerialBlock(x, check);
    assert Pad(check) == check;
    StepsZero(64);
    if Steps(Xor(x, check), 64) == Zeros(64) {
      StepsInjective(Xor(x, check), Zeros(64), 64);
      forall i | 0 <= i < 64 ensures x[i] == check[i] {
        assert Xor(x, check)[i] == Zeros(64)[i];
      }
    }
    if check == x { assert Xor(x, check) == Zeros(64); }
  }
}
