/** The cursor of src/rdb_object.rs, and the decoders that move it. */
module RdbCursor {
  import opened Basics
  import opened BitWords
  import opened Crc64
  import opened RdbCodec
  import opened StreamIds
  import opened RdbObjects
  import opened RdbDump
  import RdbWire

  /** What a decoding method returns: the error, a foreign encoding, or a value. */
  datatype Outcome<+T> = Error | Foreign | Value(value: T)

  /** A method that read `unread0` and left `unread` did what the decoder `p` describes. */
  ghost predicate Follows<T>(p: Parse<T>, out: Outcome<T>, unread: Bytes) {
    match p
    case Fail => out.Error?
    case Outside => out.Foreign?
    case Ok(v, rest) => out == Value(v) && unread == rest
  }

  /** Decoding one more item at the end. */
  lemma {:induction false} ManySnoc<T>(d: Bytes, n: nat, decode: Bytes -> Parse<T>)
    ensures DecodeMany(d, n + 1, decode) ==
      match DecodeMany(d, n, decode)
      case Fail => Fail
      case Outside => Outside
      case Ok(xs, rest) =>
        match decode(rest)
        case Fail => Fail
        case Outside => Outside
        case Ok(x, rest') => Ok(xs + [x], rest')
    decreases n
  {
    var first := decode(d);
    if n > 0 && first.Ok? {
      ManySnoc(first.rest, n - 1, decode);
      var many := DecodeMany(d, n, decode);
      if many.Ok? {
        var inner := DecodeMany(first.rest, n - 1, decode);
        var last := decode(many.rest);
        if last.Ok? { assert [first.value] + (inner.value + [last.value]) == many.value + [last.value]; }
      }
    } else if n == 0 && first.Ok? {
      assert [first.value] + [] == [] + [first.value];
    }
  }

  lemma {:induction false} ManyStops<T>(d: Bytes, k: nat, n: nat, decode: Bytes -> Parse<T>)
    requires k <= n && !DecodeMany(d, k, decode).Ok?
    ensures DecodeMany(d, n, decode).Fail? == DecodeMany(d, k, decode).Fail?
    ensures DecodeMany(d, n, decode).Outside? == DecodeMany(d, k, decode).Outside?
    decreases n - k
  {
    if k < n {
      ManySnoc(d, n - 1, decode);
      ManyStops(d, k, n - 1, decode);
    }
  }

  /** A string was read exactly when the unread bytes began with a writing of it. */
  ghost predicate TextRead(before: Bytes, out: Outcome<Bytes>, after: Bytes) {
    && (out.Value? ==> RdbWire.Splits(before, out.value, after, RdbWire.Text))
    && forall s, t, rest: Bytes :: RdbWire.Text(s, t) && before == s + rest ==> out == Value(t) && after == rest
  }

  lemma TextReadOf(before: Bytes, out: Outcome<Bytes>, after: Bytes)
    requires Follows(DecodeString(before), out, after)
    ensures TextRead(before, out, after)
  {
    hide DecodeString, RdbWire.Text, RdbWire.Splits;
    RdbWire.TextTaken(before);
  }

  class Cursor {
    const data: Bytes
    var pos: nat

    ghost predicate Valid()
      reads this
    {
      pos <= |data|
    }

    ghost function Unread(): Bytes
      reads this
      requires Valid()
    {
      data[pos..]
    }

    constructor (data: Bytes)
      ensures Valid() && this.data == data && Unread() == data
    {
      this.data := data;
      pos := 0;
    }

    method U8() returns (out: Outcome<Byte>)
      requires Valid()
      modifies this
      ensures Valid()
      ensures if old(Unread()) == [] then out.Error? && Unread() == []
              else out == Value(old(Unread())[0]) && Unread() == old(Unread())[1..]
    {
      if pos + 1 > |data| {
        return Error;
      }
      out := Value(data[pos]);
      pos := pos + 1;
    }

    method ReadRaw(n: nat) returns (out: Outcome<Bytes>)
      requires Valid()
      modifies this
      ensures Valid() && Follows(Raw(old(Unread()), n), out, Unread())
    {
      if pos + n > |data| {
        return Error;
      }
      ghost var d := Unread();
      out := Value(data[pos..pos + n]);
      pos := pos + n;
      assert out.value == d[..n] && Unread() == d[n..];
    }

    method ReadLen() returns (out: Outcome<(nat, bool)>)
      requires Valid()
      modifies this
      ensures Valid() && Follows(DecodeLen(old(Unread())), out, Unread())
    {
      ghost var d := Unread();
      var first := U8();
      if first.Error? {
        return Error;
      }
      var byte := first.value;
      if byte < 0x40 {
        return Value((byte, false));
      } else if byte < 0x80 {
        var next := U8();
        if next.Error? {
          return Error;
        }
        return Value(((byte as int - 0x40) * 256 + next.value, false));
      } else if byte == 0x80 || byte == 0x81 {
        var b := ReadRaw(if byte == 0x80 then 4 else 8);
        if b.Error? {
          return Error;
        }
        assert b.value == d[1..if byte == 0x80 then 5 else 9];
        return Value((FromBigEndian(b.value), false));
      } else if byte >= 0xC0 {
        return Value((byte - 0xC0, true));
      }
      return Error;
    }

    method ReadPlainLen() returns (out: Outcome<nat>)
      requires Valid()
      modifies this
      ensures Valid() && Follows(DecodePlainLen(old(Unread())), out, Unread())
    {
      var len := ReadLen();
      if len.Error? || len.value.1 {
        return Error;
      }
      return Value(len.value.0);
    }

    method ReadString() returns (out: Outcome<Bytes>)
      requires Valid()
      modifies this
      ensures Valid() && Follows(DecodeString(old(Unread())), out, Unread())
      ensures TextRead(old(Unread()), out, Unread())
    {
      hide DecodeString, TextRead;
      out := ReadForms();
      TextReadOf(old(Unread()), out, Unread());
    }

    method ReadForms() returns (out: Outcome<Bytes>)
      requires Valid()
      modifies this
      ensures Valid() && Follows(DecodeString(old(Unread())), out, Unread())
    {
      var len := ReadLen();
      if len.Error? {
        return Error;
      }
      var (n, encoded) := len.value;
      if !encoded {
        if n > MAX_STRING {
          return Error;
        }
        out := ReadRaw(n);
      } else if n <= 2 {
        var b := ReadRaw(if n == 0 then 1 else if n == 1 then 2 else 4);
        if b.Error? {
          return Error;
        }
        return Value(Decimal(Signed(b.value)));
      } else if n == 3 {
        return Outcome.Foreign;
      } else {
        return Error;
      }
    }

    /** The element loop of lists and sets. */
    method ReadStrings(n: nat) returns (out: Outcome<seq<Bytes>>)
      requires Valid()
      modifies this
      ensures Valid() && Follows(DecodeMany(old(Unread()), n, DecodeString), out, Unread())
    {
      hide DecodeString, TextRead;
      ghost var d := Unread();
      var xs: seq<Bytes> := [];
      for i := 0 to n
        invariant Valid() && DecodeMany(d, i, DecodeString) == Ok(xs, Unread())
      {
        ManySnoc(d, i, DecodeString);
        var x := ReadString();
        if !x.Value? {
          ManyStops(d, i + 1, n, DecodeString);
          return if x.Error? then Error else Outcome.Foreign;
        }
        xs := xs + [x.value];
      }
      return Value(xs);
    }

    /** The field loop of hashes. */
    method ReadFields(n: nat) returns (out: Outcome<seq<Field>>)
      requires Valid()
      modifies this
      ensures Valid() && Follows(DecodeMany(old(Unread()), n, DecodeField), out, Unread())
    {
      hide DecodeString, TextRead;
      ghost var d := Unread();
      var xs: seq<Field> := [];
      for i := 0 to n
        invariant Valid() && DecodeMany(d, i, DecodeField) == Ok(xs, Unread())
      {
        ManySnoc(d, i, DecodeField);
        var k := ReadString();
        if !k.Value? {
          ManyStops(d, i + 1, n, DecodeField);
          return if k.Error? then Error else Outcome.Foreign;
        }
        var v := ReadString();
        if !v.Value? {
          ManyStops(d, i + 1, n, DecodeField);
          return if v.Error? then Error else Outcome.Foreign;
        }
        xs := xs + [(k.value, v.value)];
      }
      return Value(xs);
    }

    /** The member loop of zsets with binary scores. */
    method ReadScored(n: nat) returns (out: Outcome<seq<Scored>>)
      requires Valid()
      modifies this
      ensures Valid() && Follows(DecodeMany(old(Unread()), n, DecodeScored), out, Unread())
    {
      hide DecodeString, Crc64.Stream, TextRead;
      ghost var d := Unread();
      var xs: seq<Scored> := [];
      for i := 0 to n
        invariant Valid() && DecodeMany(d, i, DecodeScored) == Ok(xs, Unread())
      {
        ManySnoc(d, i, DecodeScored);
        var m := ReadString();
        if !m.Value? {
          ManyStops(d, i + 1, n, DecodeScored);
          return if m.Error? then Error else Outcome.Foreign;
        }
        var raw := ReadRaw(8);
        if !raw.Value? {
          ManyStops(d, i + 1, n, DecodeScored);
          return Error;
        }
        xs := xs + [(m.value, Crc64.Stream(raw.value))];
      }
      return Value(xs);
    }

    method ReadId() returns (out: Outcome<Id>)
      requires Valid()
      modifies this
      ensures Valid() && Follows(DecodeId(old(Unread())), out, Unread())
    {
      hide DecodePlainLen;
      var ms := ReadPlainLen();
      if !ms.Value? { return if ms.Error? then Error else Outcome.Foreign; }
      var sq := ReadPlainLen();
      if !sq.Value? { return if sq.Error? then Error else Outcome.Foreign; }
      return Value(Id(ms.value, sq.value));
    }

    method ReadEntry() returns (out: Outcome<Entry>)
      requires Valid()
      modifies this
      ensures Valid() && Follows(DecodeEntry(old(Unread())), out, Unread())
    {
      hide DecodePlainLen, DecodeId, DecodeMany;
      var id := ReadId();
      if !id.Value? { return if id.Error? then Error else Outcome.Foreign; }
      var n := ReadPlainLen();
      if !n.Value? { return if n.Error? then Error else Outcome.Foreign; }
      var fields := ReadFields(n.value);
      if !fields.Value? { return if fields.Error? then Error else Outcome.Foreign; }
      return Value(Entry(id.value, fields.value));
    }

    method ReadEntries(n: nat) returns (out: Outcome<seq<Entry>>)
      requires Valid()
      modifies this
      ensures Valid() && Follows(DecodeMany(old(Unread()), n, DecodeEntry), out, Unread())
    {
      hide DecodeEntry;
      ghost var d := Unread();
      var xs: seq<Entry> := [];
      for i := 0 to n
        invariant Valid() && DecodeMany(d, i, DecodeEntry) == Ok(xs, Unread())
      {
        ManySnoc(d, i, DecodeEntry);
        var x := ReadEntry();
        if !x.Value? {
          ManyStops(d, i + 1, n, DecodeEntry);
          return if x.Error? then Error else Outcome.Foreign;
        }
        xs := xs + [x.value];
      }
      return Value(xs);
    }

    method ReadPending() returns (out: Outcome<Pending>)
      requires Valid()
      modifies this
      ensures Valid() && Follows(DecodePending(old(Unread())), out, Unread())
    {
      hide DecodePlainLen, DecodeId, DecodeString, TextRead;
      var id := ReadId();
      if !id.Value? { return if id.Error? then Error else Outcome.Foreign; }
      var consumer := ReadString();
      if !consumer.Value? { return if consumer.Error? then Error else Outcome.Foreign; }
      var time := ReadPlainLen();
      if !time.Value? { return if time.Error? then Error else Outcome.Foreign; }
      var count := ReadPlainLen();
      if !count.Value? { return if count.Error? then Error else Outcome.Foreign; }
      return Value(Pending(id.value, consumer.value, time.value, count.value));
    }

    method ReadPendings(n: nat) returns (out: Outcome<seq<Pending>>)
      requires Valid()
      modifies this
      ensures Valid() && Follows(DecodeMany(old(Unread()), n, DecodePending), out, Unread())
    {
      hide DecodePending;
      ghost var d := Unread();
      var xs: seq<Pending> := [];
      for i := 0 to n
        invariant Valid() && DecodeMany(d, i, DecodePending) == Ok(xs, Unread())
      {
        ManySnoc(d, i, DecodePending);
        var x := ReadPending();
        if !x.Value? {
          ManyStops(d, i + 1, n, DecodePending);
          return if x.Error? then Error else Outcome.Foreign;
        }
        xs := xs + [x.value];
      }
      return Value(xs);
    }

    method ReadConsumers(n: nat) returns (out: Outcome<seq<Consumer>>)
      requires Valid()
      modifies this
      ensures Valid() && Follows(DecodeMany(old(Unread()), n, DecodeConsumer), out, Unread())
    {
      hide DecodePlainLen, DecodeString, TextRead;
      ghost var d := Unread();
      var xs: seq<Consumer> := [];
      for i := 0 to n
        invariant Valid() && DecodeMany(d, i, DecodeConsumer) == Ok(xs, Unread())
      {
        ManySnoc(d, i, DecodeConsumer);
        if !DecodeConsumer(Unread()).Ok? { ManyStops(d, i + 1, n, DecodeConsumer); }
        var name := ReadString();
        if !name.Value? { return if name.Error? then Error else Outcome.Foreign; }
        var seen := ReadPlainLen();
        if !seen.Value? { return if seen.Error? then Error else Outcome.Foreign; }
        var pending := ReadPlainLen();
        if !pending.Value? { return if pending.Error? then Error else Outcome.Foreign; }
        xs := xs + [Consumer(name.value, seen.value, pending.value)];
      }
      return Value(xs);
    }

    method ReadGroup() returns (out: Outcome<Group>)
      requires Valid()
      modifies this
      ensures Valid() && Follows(DecodeGroup(old(Unread())), out, Unread())
    {
      hide DecodePlainLen, DecodeId, DecodeString, DecodeMany, TextRead;
      var name := ReadString();
      if !name.Value? { return if name.Error? then Error else Outcome.Foreign; }
      var last := ReadId();
      if !last.Value? { return if last.Error? then Error else Outcome.Foreign; }
      var np := ReadPlainLen();
      if !np.Value? { return if np.Error? then Error else Outcome.Foreign; }
      var pending := ReadPendings(np.value);
      if !pending.Value? { return if pending.Error? then Error else Outcome.Foreign; }
      var nc := ReadPlainLen();
      if !nc.Value? { return if nc.Error? then Error else Outcome.Foreign; }
      var consumers := ReadConsumers(nc.value);
      if !consumers.Value? { return if consumers.Error? then Error else Outcome.Foreign; }
      return Value(Group(name.value, last.value, pending.value, consumers.value));
    }

    method ReadGroups(n: nat) returns (out: Outcome<seq<Group>>)
      requires Valid()
      modifies this
      ensures Valid() && Follows(DecodeMany(old(Unread()), n, DecodeGroup), out, Unread())
    {
      hide DecodeGroup;
      ghost var d := Unread();
      var xs: seq<Group> := [];
      for i := 0 to n
        invariant Valid() && DecodeMany(d, i, DecodeGroup) == Ok(xs, Unread())
      {
        ManySnoc(d, i, DecodeGroup);
        var x := ReadGroup();
        if !x.Value? {
          ManyStops(d, i + 1, n, DecodeGroup);
          return if x.Error? then Error else Outcome.Foreign;
        }
        xs := xs + [x.value];
      }
      return Value(xs);
    }

    /** The marked block of a stream. */
    method ReadStreamBody(last: Id) returns (out: Outcome<StreamState>)
      requires Valid()
      modifies this
      ensures Valid() && Follows(DecodeStreamBody(last, old(Unread())), out, Unread())
    {
      hide DecodePlainLen, DecodeMany;
      var mark := ReadRaw(4);
      if mark.Error? || mark.value != KORE_MARK { return Error; }
      var ne := ReadPlainLen();
      if !ne.Value? { return if ne.Error? then Error else Outcome.Foreign; }
      var entries := ReadEntries(ne.value);
      if !entries.Value? { return if entries.Error? then Error else Outcome.Foreign; }
      var ng := ReadPlainLen();
      if !ng.Value? { return if ng.Error? then Error else Outcome.Foreign; }
      var groups := ReadGroups(ng.value);
      if !groups.Value? { return if groups.Error? then Error else Outcome.Foreign; }
      return Value(StreamState(last, entries.value, groups.value));
    }

    /** decode_stream_type15. */
    method ReadStream() returns (out: Outcome<StreamState>)
      requires Valid()
      modifies this
      ensures Valid() && Follows(DecodeStream(old(Unread())), out, Unread())
    {
      hide DecodePlainLen, DecodeId, DecodeStreamBody;
      var listpacks := ReadPlainLen();
      if !listpacks.Value? { return if listpacks.Error? then Error else Outcome.Foreign; }
      if listpacks.value > 0 { return Error; }
      var length := ReadPlainLen();
      if !length.Value? { return if length.Error? then Error else Outcome.Foreign; }
      var last := ReadId();
      if !last.Value? { return if last.Error? then Error else Outcome.Foreign; }
      var first := ReadId();
      if !first.Value? { return if first.Error? then Error else Outcome.Foreign; }
      var maxDeleted := ReadId();
      if !maxDeleted.Value? { return if maxDeleted.Error? then Error else Outcome.Foreign; }
      var added := ReadPlainLen();
      if !added.Value? { return if added.Error? then Error else Outcome.Foreign; }
      var foreign := ReadPlainLen();
      if !foreign.Value? { return if foreign.Error? then Error else Outcome.Foreign; }
      if foreign.value > 0 { return Error; }
      if pos >= |data| {
        return if length.value == 0 then Value(StreamState(last.value, [], [])) else Error;
      }
      out := ReadStreamBody(last.value);
    }

    /** The per-type arms of decode_rdb_object. */
    method ReadTyped(ty: Byte) returns (out: Outcome<RdbObject>)
      requires Valid()
      modifies this
      ensures Valid() && Follows(DecodeTyped(ty, old(Unread())), out, Unread())
    {
      hide DecodePlainLen, DecodeString, DecodeMany, DecodeStream, TextRead;
      if ty == TYPE_STRING {
        var s := ReadString();
        return if s.Value? then Value(String(s.value)) else if s.Error? then Error else Outcome.Foreign;
      } else if ty == TYPE_STREAM {
        var s := ReadStream();
        return if s.Value? then Value(RdbObject.Stream(s.value)) else if s.Error? then Error else Outcome.Foreign;
      } else if ty == TYPE_LIST || ty == TYPE_SET || ty == TYPE_HASH || ty == TYPE_ZSET_2 {
        var n := ReadPlainLen();
        if !n.Value? { return if n.Error? then Error else Outcome.Foreign; }
        if ty == TYPE_HASH {
          var fs := ReadFields(n.value);
          return if fs.Value? then Value(Hash(fs.value)) else if fs.Error? then Error else Outcome.Foreign;
        } else if ty == TYPE_ZSET_2 {
          var ms := ReadScored(n.value);
          return if ms.Value? then Value(ZSet(ms.value)) else if ms.Error? then Error else Outcome.Foreign;
        }
        var xs := ReadStrings(n.value);
        return if xs.Error? then Error else if xs.Foreign? then Outcome.Foreign
          else if ty == TYPE_LIST then Value(List(xs.value)) else Value(Set(xs.value));
      }
      return if RdbDump.Foreign(ty) then Outcome.Foreign else Error;
    }
  }

  /** decode_redis_dump: checksum first, then the object, with nothing left over. */
  method DecodeRedisDump(data: Bytes) returns (out: Outcome<RdbObject>)
    ensures match DecodeDump(data)
      case Fail => out.Error?
      case Outside => out.Foreign?
      case Ok(o, _) => out == Value(o)
    ensures forall o :: out == Value(o) <==> RdbWire.DumpText(data, o)
  {
    hide DecodeTyped, SerialCrc, RdbWire.DumpText;
    forall o ensures DecodeDump(data) == Ok(o, []) <==> RdbWire.DumpText(data, o) {
      RdbWire.DumpIff(data, o);
    }
    if |data| < 11 {
      return Error;
    }
    var body := data[..|data| - 8];
    var crc := RedisCrc64(body);
    if crc != Crc64.Stream(data[|data| - 8..]) {
      return Error;
    }
    var c := new Cursor(body[..|body| - 2]);
    var ty := c.U8();
    if ty.Error? {
      return Error;
    }
    out := c.ReadTyped(ty.value);
    if out.Value? && c.pos != |c.data| {
      return Error;
    }
  }
}
