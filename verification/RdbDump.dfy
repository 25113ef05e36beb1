/** Whole DUMP payloads of src/rdb_object.rs: type byte, object, version, CRC-64. */
module RdbDump {
  import opened Basics
  import opened BitWords
  import opened Crc64
  import opened RdbCodec
  import opened RdbObjects

  const VERSION: Bytes := [9, 0]

  predicate ObjectOk(o: RdbObject) {
    match o
    case String(s) => Storable(s)
    case List(xs) => |xs| < TWO_64 && forall i :: 0 <= i < |xs| ==> Storable(xs[i])
    case Set(xs) => |xs| < TWO_64 && forall i :: 0 <= i < |xs| ==> Storable(xs[i])
    case Hash(fs) => |fs| < TWO_64 && forall i :: 0 <= i < |fs| ==> FieldOk(fs[i])
    case ZSet(ms) => |ms| < TWO_64 && forall i :: 0 <= i < |ms| ==> ScoredOk(ms[i])
    case Stream(s) => StreamOk(s)
  }

  function EncodeObject(o: RdbObject): Bytes {
    match o
    case String(s) => [TYPE_STRING] + EncodeString(s)
    case List(xs) => [TYPE_LIST] + EncodeCounted(xs, EncodeString)
    case Set(xs) => [TYPE_SET] + EncodeCounted(xs, EncodeString)
    case Hash(fs) => [TYPE_HASH] + EncodeCounted(fs, EncodeField)
    case ZSet(ms) => [TYPE_ZSET_2] + EncodeCounted(ms, EncodeScored)
    case Stream(s) => [TYPE_STREAM] + EncodeStream(s)
  }

  /** Compact or textual encodings written by other servers, which nothing here encodes. */
  predicate Foreign(ty: Byte) {
    ty == 3 || 10 <= ty <= 14 || 16 <= ty <= 18 || ty == 20
  }

  function DecodeTyped(ty: Byte, d: Bytes): Parse<RdbObject> {
    if ty == TYPE_STRING then var (s, rest) :- DecodeString(d); Ok(String(s), rest)
    else if ty == TYPE_LIST then var (xs, rest) :- DecodeCounted(d, DecodeString); Ok(List(xs), rest)
    else if ty == TYPE_SET then var (xs, rest) :- DecodeCounted(d, DecodeString); Ok(Set(xs), rest)
    else if ty == TYPE_HASH then var (fs, rest) :- DecodeCounted(d, DecodeField); Ok(Hash(fs), rest)
    else if ty == TYPE_ZSET_2 then var (ms, rest) :- DecodeCounted(d, DecodeScored); Ok(ZSet(ms), rest)
    else if ty == TYPE_STREAM then var (s, rest) :- DecodeStream(d); Ok(RdbObject.Stream(s), rest)
    else if Foreign(ty) then Outside
    else Fail
  }

  /** decode_rdb_object: every byte must be used. */
  function DecodeObject(d: Bytes): Parse<RdbObject> {
    if d == [] then Fail
    else
      var (o, rest) :- DecodeTyped(d[0], d[1..]);
      if rest != [] then Fail else Ok(o, rest)
  }

  lemma TypedRoundTrip(o: RdbObject, tail: Bytes)
    requires ObjectOk(o)
    ensures DecodeTyped(EncodeObject(o)[0], EncodeObject(o)[1..] + tail) == Ok(o, tail)
  {
    hide EncodeCounted, DecodeCounted, EncodeString, DecodeString, EncodeStream, DecodeStream, EncodeField, EncodeScored;
    match o
    case String(s) => StringRoundTrip(s, tail);
    case List(xs) => StringDelimits(); CountedRoundTrip(xs, EncodeString, DecodeString, Storable, tail);
    case Set(xs) => StringDelimits(); CountedRoundTrip(xs, EncodeString, DecodeString, Storable, tail);
    case Hash(fs) => FieldDelimits(); CountedRoundTrip(fs, EncodeField, DecodeField, FieldOk, tail);
    case ZSet(ms) => ScoredDelimits(); CountedRoundTrip(ms, EncodeScored, DecodeScored, ScoredOk, tail);
    case Stream(s) => StreamRoundTrip(s, tail);
  }

  function FinishDump(body: Bytes): Bytes {
    body + VERSION + Packed(SerialCrc(body + VERSION))
  }

  function EncodeDump(o: RdbObject): Bytes {
    FinishDump(EncodeObject(o))
  }

  /** decode_redis_dump. */
  function DecodeDump(data: Bytes): Parse<RdbObject> {
    if |data| < 11 then Fail
    else
      var body, check := data[..|data| - 8], data[|data| - 8..];
      if SerialCrc(body) != Crc64.Stream(check) then Fail
      else DecodeObject(body[..|body| - 2])
  }

  lemma EncodedTyped(o: RdbObject)
    ensures |EncodeObject(o)| >= 1
  {
    hide EncodeString, EncodeStream;
  }

  /** Decoding an encoded DUMP returns the original, for every kind of object. */
  lemma DumpRoundTrip(o: RdbObject)
    requires ObjectOk(o)
    ensures DecodeDump(EncodeDump(o)) == Ok(o, [])
  {
    hide SerialCrc, Packed, DecodeTyped, ObjectOk, StreamOk, EncodeObject;
    var typed, data := EncodeObject(o), EncodeDump(o);
    var body := typed + VERSION;
    PackedRoundTrip(SerialCrc(body));
    EncodedTyped(o);
    assert data[..|data| - 8] == body && data[|data| - 8..] == Packed(SerialCrc(body));
    assert body[..|body| - 2] == typed;
    TypedRoundTrip(o, []);
    assert typed[1..] + [] == typed[1..];
  }

  // ----- error detection ---------------------------------------------------------------------------

  /** A payload passes the checksum test exactly when the CRC of all of it is zero. */
  lemma ChecksumIff(data: Bytes)
    requires |data| >= 8
    ensures SerialCrc(data[..|data| - 8]) == Crc64.Stream(data[|data| - 8..]) <==> SerialCrc(data) == Zeros(64)
  {
    hide Crc64.Stream, Serial;
    var body, check := data[..|data| - 8], data[|data| - 8..];
    assert data == body + check;
    StreamConcat(body, check);
    CheckWordIff(Crc64.Stream(body), Crc64.Stream(check));
  }

  lemma {:induction false} StreamInjective(a: Bytes, b: Bytes)
    requires |a| == |b| && Crc64.Stream(a) == Crc64.Stream(b)
    ensures a == b
  {
    if a != [] {
      assert Crc64.Stream(a)[..8] == ToBits(a[0], 8) && Crc64.Stream(b)[..8] == ToBits(b[0], 8);
      ByteBits(a[0]);
      ByteBits(b[0]);
      assert Crc64.Stream(a)[8..] == Crc64.Stream(a[1..]) && Crc64.Stream(b)[8..] == Crc64.Stream(b[1..]);
      StreamInjective(a[1..], b[1..]);
    }
  }

  /** A payload that is not rejected is rejected once any eight or fewer consecutive bytes of it,
      in the body, the version, the trailer or across them, are replaced by different ones. */
  lemma CorruptionRejected(before: Bytes, good: Bytes, bad: Bytes, after: Bytes)
    requires |good| == |bad| <= 8 && good != bad
    requires !DecodeDump(before + good + after).Fail?
    ensures DecodeDump(before + bad + after).Fail?
  {
    hide DecodeObject, Serial, Crc64.Stream;
    var data, data' := before + good + after, before + bad + after;
    ChecksumIff(data);
    ChecksumIff(data');
    StreamConcat(before + good, after);
    StreamConcat(before, good);
    StreamConcat(before + bad, after);
    StreamConcat(before, bad);
    if Crc64.Stream(good) == Crc64.Stream(bad) {
      StreamInjective(good, bad);
    }
    BurstDetected(Crc64.Stream(before), Crc64.Stream(good), Crc64.Stream(bad), Crc64.Stream(after));
  }

  /** In particular, changing one byte anywhere is always noticed. */
  lemma OneByteRejected(data: Bytes, i: nat, b: Byte)
    requires i < |data| && b != data[i] && !DecodeDump(data).Fail?
    ensures DecodeDump(data[i := b]).Fail?
  {
    hide DecodeDump;
    assert data == data[..i] + [data[i]] + data[i + 1..];
    assert data[i := b] == data[..i] + [b] + data[i + 1..];
    CorruptionRejected(data[..i], [data[i]], [b], data[i + 1..]);
  }
}
