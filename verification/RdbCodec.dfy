/** The DUMP codec of src/rdb_object.rs. A decoder maps the unread bytes to a value and the bytes
    it leaves unread; `Outside` marks compact foreign encodings that have no encoder here. */
module RdbCodec {
  import opened Basics
  import opened BitWords
  import opened Crc64

  datatype Parse<+T> = Fail | Outside | Ok(value: T, rest: Bytes) {
    predicate IsFailure() { !Ok? }
    function PropagateFailure<U>(): Parse<U>
      requires !Ok?
    {
      if Fail? then Fail else Outside
    }
    function Extract(): (T, Bytes)
      requires Ok?
    {
      (value, rest)
    }
  }

  const TYPE_STRING: Byte := 0
  const TYPE_LIST: Byte := 1
  const TYPE_SET: Byte := 2
  const TYPE_HASH: Byte := 4
  const TYPE_ZSET_2: Byte := 5
  const TYPE_STREAM: Byte := 15
  const MAX_STRING: nat := 512 * 1024 * 1024
  const TWO_64: nat := 0x1_0000_0000_0000_0000

  // ----- fixed-width integers ---------------------------------------------------------------------

  /** The low `k` bytes of a number, most significant first. */
  function BigEndian(n: nat, k: nat): (r: Bytes)
    ensures |r| == k
  {
    if k == 0 then [] else BigEndian(n / 256, k - 1) + [n % 256]
  }

  function FromBigEndian(s: Bytes): (n: nat)
    ensures n < Power256(|s|)
  {
    if s == [] then 0 else FromBigEndian(s[..|s| - 1]) * 256 + s[|s| - 1]
  }

  function Power256(k: nat): (p: int)
    ensures p > 0
  {
    if k == 0 then 1 else 256 * Power256(k - 1)
  }

  lemma {:induction false} BigEndianRoundTrip(n: nat, k: nat)
    requires n < Power256(k)
    ensures FromBigEndian(BigEndian(n, k)) == n
  {
    if k > 0 {
      BigEndianRoundTrip(n / 256, k - 1);
      assert BigEndian(n, k)[..k - 1] == BigEndian(n / 256, k - 1);
    }
  }

  /** Bits packed into bytes, lowest first: `to_le_bytes` when there are 64 of them. */
  function Packed(bits: Bits): (r: Bytes)
    requires |bits| % 8 == 0
    ensures |r| == |bits| / 8
  {
    if bits == [] then [] else [ByteOf(bits[..8])] + Packed(bits[8..])
  }

  lemma {:induction false} PackedRoundTrip(bits: Bits)
    requires |bits| % 8 == 0
    ensures Stream(Packed(bits)) == bits
  {
    if bits != [] {
      PackedRoundTrip(bits[8..]);
      assert Packed(bits)[1..] == Packed(bits[8..]);
      assert bits == bits[..8] + bits[8..];
    }
  }

  // ----- lengths ------------------------------------------------------------------------------------

  /** encode_len_u64: the 6-, 14-, 32- and 64-bit forms. */
  function EncodeLen(n: nat): Bytes {
    if n < 0x40 then [n]
    else if n < 0x4000 then [n / 256 + 0x40, n % 256]
    else if n < 0x1_0000_0000 then [0x80] + BigEndian(n, 4)
    else [0x81] + BigEndian(n, 8)
  }

  /** decode_len: a length, or an encoding tag when the flag is set. */
  function DecodeLen(d: Bytes): (r: Parse<(nat, bool)>)
    ensures r.Ok? ==> |r.rest| < |d| && r.value.0 < TWO_64
  {
    assert Power256(4) == 0x1_0000_0000 && Power256(8) == TWO_64;
    if d == [] then Fail
    else if d[0] < 0x40 then Ok((d[0], false), d[1..])
    else if d[0] < 0x80 then
      if |d| < 2 then Fail else Ok(((d[0] as int - 0x40) * 256 + d[1], false), d[2..])
    else if d[0] == 0x80 then
      if |d| < 5 then Fail else Ok((FromBigEndian(d[1..5]), false), d[5..])
    else if d[0] == 0x81 then
      if |d| < 9 then Fail else Ok((FromBigEndian(d[1..9]), false), d[9..])
    else if d[0] >= 0xC0 then Ok((d[0] - 0xC0, true), d[1..])
    else Fail
  }

  /** decode_rdb_len. */
  function DecodePlainLen(d: Bytes): (r: Parse<nat>)
    ensures r.Ok? ==> |r.rest| < |d| && r.value < TWO_64
  {
    var ((n, encoded), rest) :- DecodeLen(d);
    if encoded then Fail else Ok(n, rest)
  }

  lemma LenRoundTrip(n: nat, tail: Bytes)
    requires n < TWO_64
    ensures DecodeLen(EncodeLen(n) + tail) == Ok((n, false), tail)
    ensures DecodePlainLen(EncodeLen(n) + tail) == Ok(n, tail)
  {
    var d := EncodeLen(n) + tail;
    if n < 0x40 {
      assert d[1..] == tail;
    } else if n < 0x4000 {
      assert d[2..] == tail;
    } else if n < 0x1_0000_0000 {
      assert Power256(4) == 0x1_0000_0000;
      BigEndianRoundTrip(n, 4);
      assert d[1..5] == BigEndian(n, 4) && d[5..] == tail;
    } else {
      assert Power256(4) == 0x1_0000_0000;
      assert Power256(8) == TWO_64;
      BigEndianRoundTrip(n, 8);
      assert d[1..9] == BigEndian(n, 8) && d[9..] == tail;
    }
  }

  // ----- strings ------------------------------------------------------------------------------------

  function EncodeString(s: Bytes): Bytes {
    EncodeLen(|s|) + s
  }

  /** `Cursor::raw`. */
  function Raw(d: Bytes, n: nat): Parse<Bytes> {
    if n > |d| then Fail else Ok(d[..n], d[n..])
  }

  /** Decimal digits of an integer, as `to_string` writes them. */
  function Digits(n: nat): Bytes {
    if n < 10 then [48 + n] else Digits(n / 10) + [48 + n % 10]
  }

  function Decimal(n: int): Bytes {
    if n < 0 then [45] + Digits(-n) else Digits(n)
  }

  /** The signed little-endian integer in `s`. */
  function Signed(s: Bytes): int {
    var n := FromBigEndian(ReverseBytes(s));
    if 2 * n >= Power256(|s|) then n - Power256(|s|) else n
  }

  function ReverseBytes(s: Bytes): Bytes {
    if s == [] then [] else ReverseBytes(s[1..]) + [s[0]]
  }

  /** decode_string: raw, integer-encoded, or compressed (left outside). */
  function DecodeString(d: Bytes): Parse<Bytes> {
    var ((n, encoded), rest) :- DecodeLen(d);
    if !encoded then
      if n > MAX_STRING then Fail else Raw(rest, n)
    else if n <= 2 then
      var (s, rest) :- Raw(rest, if n == 0 then 1 else if n == 1 then 2 else 4);
      Ok(Decimal(Signed(s)), rest)
    else if n == 3 then Outside
    else Fail
  }

  predicate Storable(s: Bytes) {
    |s| <= MAX_STRING
  }

  /** The string codec is self-delimiting. */
  lemma StringRoundTrip(s: Bytes, tail: Bytes)
    requires Storable(s)
    ensures DecodeString(EncodeString(s) + tail) == Ok(s, tail)
  {
    LenRoundTrip(|s|, s + tail);
    assert EncodeString(s) + tail == EncodeLen(|s|) + (s + tail);
    assert (s + tail)[..|s|] == s && (s + tail)[|s|..] == tail;
  }

  // ----- repetition ------------------------------------------------------------------------------------

  function EncodeAll<T>(xs: seq<T>, encode: T -> Bytes): Bytes {
    if xs == [] then [] else encode(xs[0]) + EncodeAll(xs[1..], encode)
  }

  function DecodeMany<T>(d: Bytes, n: nat, decode: Bytes -> Parse<T>): Parse<seq<T>>
    decreases n
  {
    if n == 0 then Ok([], d)
    else
      var (x, rest) :- decode(d);
      var (xs, rest) :- DecodeMany(rest, n - 1, decode);
      Ok([x] + xs, rest)
  }

  /** Every well-formed value survives encoding, whatever bytes follow it. */
  ghost predicate Delimits<T(!new)>(encode: T -> Bytes, decode: Bytes -> Parse<T>, ok: T -> bool) {
    forall x, tail :: ok(x) ==> decode(encode(x) + tail) == Ok(x, tail)
  }

  lemma {:induction false} ManyRoundTrip<T(!new)>(xs: seq<T>, encode: T -> Bytes, decode: Bytes -> Parse<T>, ok: T -> bool, tail: Bytes)
    requires Delimits(encode, decode, ok) && forall i :: 0 <= i < |xs| ==> ok(xs[i])
    ensures DecodeMany(EncodeAll(xs, encode) + tail, |xs|, decode) == Ok(xs, tail)
    decreases |xs|
  {
    if xs == [] {
      assert EncodeAll(xs, encode) + tail == tail;
    } else {
      ManyRoundTrip(xs[1..], encode, decode, ok, tail);
      assert EncodeAll(xs, encode) + tail == encode(xs[0]) + (EncodeAll(xs[1..], encode) + tail);
      assert xs == [xs[0]] + xs[1..];
    }
  }

  function EncodeCounted<T>(xs: seq<T>, encode: T -> Bytes): Bytes {
    EncodeLen(|xs|) + EncodeAll(xs, encode)
  }

  function DecodeCounted<T>(d: Bytes, decode: Bytes -> Parse<T>): Parse<seq<T>> {
    var (n, rest) :- DecodePlainLen(d);
    DecodeMany(rest, n, decode)
  }

  lemma CountedRoundTrip<T(!new)>(xs: seq<T>, encode: T -> Bytes, decode: Bytes -> Parse<T>, ok: T -> bool, tail: Bytes)
    requires Delimits(encode, decode, ok) && |xs| < TWO_64 && forall i :: 0 <= i < |xs| ==> ok(xs[i])
    ensures DecodeCounted(EncodeCounted(xs, encode) + tail, decode) == Ok(xs, tail)
  {
    LenRoundTrip(|xs|, EncodeAll(xs, encode) + tail);
    assert EncodeCounted(xs, encode) + tail == EncodeLen(|xs|) + (EncodeAll(xs, encode) + tail);
    ManyRoundTrip(xs, encode, decode, ok, tail);
  }
}
