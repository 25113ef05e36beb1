/** DUMP objects of src/rdb_object.rs and the two directions of the codec over them. */
module RdbObjects {
  import opened Basics
  import opened BitWords
  import opened Crc64
  import opened RdbCodec
  import opened StreamIds

  type Field = (Bytes, Bytes)
  type Scored = (Bytes, Word)

  datatype Entry = Entry(id: Id, fields: seq<Field>)
  datatype Pending = Pending(id: Id, consumer: Bytes, deliveryTime: nat, deliveryCount: nat)
  datatype Consumer = Consumer(name: Bytes, seenTime: nat, pending: nat)
  datatype Group = Group(name: Bytes, lastDelivered: Id, pending: seq<Pending>, consumers: seq<Consumer>)
  datatype StreamState = StreamState(lastGenerated: Id, entries: seq<Entry>, groups: seq<Group>)

  /** A zset score is its 64-bit pattern. */
  datatype RdbObject =
    | String(value: Bytes)
    | List(elements: seq<Bytes>)
    | Set(members: seq<Bytes>)
    | Hash(fields: seq<Field>)
    | ZSet(scored: seq<Scored>)
    | Stream(state: StreamState)

  // ----- items ---------------------------------------------------------------------------------------

  lemma Nested(a: Bytes, b: Bytes, c: Bytes, d: Bytes, tail: Bytes)
    ensures a + b + c + d + tail == a + (b + (c + (d + tail)))
  {
  }

  lemma StringDelimits()
    ensures Delimits(EncodeString, DecodeString, Storable)
  {
    forall s: Bytes, tail: Bytes | Storable(s) ensures DecodeString(EncodeString(s) + tail) == Ok(s, tail) {
      StringRoundTrip(s, tail);
    }
  }

  function EncodeField(f: Field): Bytes {
    EncodeString(f.0) + EncodeString(f.1)
  }

  function DecodeField(d: Bytes): Parse<Field> {
    var (k, rest) :- DecodeString(d);
    var (v, rest) :- DecodeString(rest);
    Ok((k, v), rest)
  }

  predicate FieldOk(f: Field) {
    Storable(f.0) && Storable(f.1)
  }

  lemma FieldDelimits()
    ensures Delimits(EncodeField, DecodeField, FieldOk)
  {
    hide EncodeLen, DecodePlainLen, EncodeString, DecodeString, EncodeId, DecodeId, EncodeCounted, DecodeCounted;
    forall f: Field, tail: Bytes | FieldOk(f) ensures DecodeField(EncodeField(f) + tail) == Ok(f, tail) {
      StringRoundTrip(f.0, EncodeString(f.1) + tail);
      StringRoundTrip(f.1, tail);
      assert EncodeField(f) + tail == EncodeString(f.0) + (EncodeString(f.1) + tail);
    }
  }

  function EncodeScored(m: Scored): Bytes {
    EncodeString(m.0) + Packed(m.1)
  }

  function DecodeScored(d: Bytes): Parse<Scored> {
    var (member, rest) :- DecodeString(d);
    var (raw, rest) :- Raw(rest, 8);
    Ok((member, Crc64.Stream(raw)), rest)
  }

  predicate ScoredOk(m: Scored) {
    Storable(m.0)
  }

  lemma ScoredDelimits()
    ensures Delimits(EncodeScored, DecodeScored, ScoredOk)
  {
    forall m: Scored, tail: Bytes | ScoredOk(m) ensures DecodeScored(EncodeScored(m) + tail) == Ok(m, tail) {
      StringRoundTrip(m.0, Packed(m.1) + tail);
      PackedRoundTrip(m.1);
      assert EncodeScored(m) + tail == EncodeString(m.0) + (Packed(m.1) + tail);
      assert (Packed(m.1) + tail)[..8] == Packed(m.1) && (Packed(m.1) + tail)[8..] == tail;
    }
  }

  function EncodeId(id: Id): Bytes {
    EncodeLen(id.ms) + EncodeLen(id.sq)
  }

  function DecodeId(d: Bytes): Parse<Id> {
    var (ms, rest) :- DecodePlainLen(d);
    var (sq, rest) :- DecodePlainLen(rest);
    Ok(Id(ms, sq), rest)
  }

  lemma IdRoundTrip(id: Id, tail: Bytes)
    ensures DecodeId(EncodeId(id) + tail) == Ok(id, tail)
  {
    LenRoundTrip(id.ms, EncodeLen(id.sq) + tail);
    LenRoundTrip(id.sq, tail);
    assert EncodeId(id) + tail == EncodeLen(id.ms) + (EncodeLen(id.sq) + tail);
  }

  function EncodeEntry(e: Entry): Bytes {
    EncodeId(e.id) + EncodeCounted(e.fields, EncodeField)
  }

  function DecodeEntry(d: Bytes): Parse<Entry> {
    var (id, rest) :- DecodeId(d);
    var (fields, rest) :- DecodeCounted(rest, DecodeField);
    Ok(Entry(id, fields), rest)
  }

  predicate EntryOk(e: Entry) {
    |e.fields| < TWO_64 && forall i :: 0 <= i < |e.fields| ==> FieldOk(e.fields[i])
  }

  lemma EntryDelimits()
    ensures Delimits(EncodeEntry, DecodeEntry, EntryOk)
  {
    hide EncodeLen, DecodePlainLen, EncodeString, DecodeString, EncodeId, DecodeId, EncodeCounted, DecodeCounted;
    FieldDelimits();
    forall e: Entry, tail: Bytes | EntryOk(e) ensures DecodeEntry(EncodeEntry(e) + tail) == Ok(e, tail) {
      var body := EncodeCounted(e.fields, EncodeField);
      IdRoundTrip(e.id, body + tail);
      CountedRoundTrip(e.fields, EncodeField, DecodeField, FieldOk, tail);
      assert EncodeEntry(e) + tail == EncodeId(e.id) + (body + tail);
    }
  }

  function EncodePending(p: Pending): Bytes {
    EncodeId(p.id) + EncodeString(p.consumer) + EncodeLen(p.deliveryTime) + EncodeLen(p.deliveryCount)
  }

  function DecodePending(d: Bytes): Parse<Pending> {
    var (id, rest) :- DecodeId(d);
    var (consumer, rest) :- DecodeString(rest);
    var (time, rest) :- DecodePlainLen(rest);
    var (count, rest) :- DecodePlainLen(rest);
    Ok(Pending(id, consumer, time, count), rest)
  }

  predicate PendingOk(p: Pending) {
    Storable(p.consumer) && p.deliveryTime < TWO_64 && p.deliveryCount < TWO_64
  }

  lemma PendingDelimits()
    ensures Delimits(EncodePending, DecodePending, PendingOk)
  {
    hide EncodeLen, DecodePlainLen, EncodeString, DecodeString, EncodeId, DecodeId, EncodeCounted, DecodeCounted;
    forall p: Pending, tail: Bytes | PendingOk(p) ensures DecodePending(EncodePending(p) + tail) == Ok(p, tail) {
      var d3 := EncodeLen(p.deliveryCount) + tail;
      var d2 := EncodeLen(p.deliveryTime) + d3;
      var d1 := EncodeString(p.consumer) + d2;
      LenRoundTrip(p.deliveryCount, tail);
      LenRoundTrip(p.deliveryTime, d3);
      StringRoundTrip(p.consumer, d2);
      IdRoundTrip(p.id, d1);
      Nested(EncodeId(p.id), EncodeString(p.consumer), EncodeLen(p.deliveryTime), EncodeLen(p.deliveryCount), tail);
    }
  }

  function EncodeConsumer(c: Consumer): Bytes {
    EncodeString(c.name) + EncodeLen(c.seenTime) + EncodeLen(c.pending)
  }

  function DecodeConsumer(d: Bytes): Parse<Consumer> {
    var (name, rest) :- DecodeString(d);
    var (seen, rest) :- DecodePlainLen(rest);
    var (pending, rest) :- DecodePlainLen(rest);
    Ok(Consumer(name, seen, pending), rest)
  }

  predicate ConsumerOk(c: Consumer) {
    Storable(c.name) && c.seenTime < TWO_64 && c.pending < TWO_64
  }

  lemma ConsumerDelimits()
    ensures Delimits(EncodeConsumer, DecodeConsumer, ConsumerOk)
  {
    hide EncodeLen, DecodePlainLen, EncodeString, DecodeString, EncodeId, DecodeId, EncodeCounted, DecodeCounted;
    forall c: Consumer, tail: Bytes | ConsumerOk(c) ensures DecodeConsumer(EncodeConsumer(c) + tail) == Ok(c, tail) {
      var d2 := EncodeLen(c.pending) + tail;
      var d1 := EncodeLen(c.seenTime) + d2;
      LenRoundTrip(c.pending, tail);
      LenRoundTrip(c.seenTime, d2);
      StringRoundTrip(c.name, d1);
      Nested(EncodeString(c.name), EncodeLen(c.seenTime), EncodeLen(c.pending), [], tail);
      assert EncodeConsumer(c) + [] == EncodeConsumer(c) && [] + tail == tail;
    }
  }

  function EncodeGroup(g: Group): Bytes {
    EncodeString(g.name) + EncodeId(g.lastDelivered)
    + EncodeCounted(g.pending, EncodePending) + EncodeCounted(g.consumers, EncodeConsumer)
  }

  function DecodeGroup(d: Bytes): Parse<Group> {
    var (name, rest) :- DecodeString(d);
    var (last, rest) :- DecodeId(rest);
    var (pending, rest) :- DecodeCounted(rest, DecodePending);
    var (consumers, rest) :- DecodeCounted(rest, DecodeConsumer);
    Ok(Group(name, last, pending, consumers), rest)
  }

  predicate GroupOk(g: Group) {
    && Storable(g.name)
    && |g.pending| < TWO_64 && (forall i :: 0 <= i < |g.pending| ==> PendingOk(g.pending[i]))
    && |g.consumers| < TWO_64 && (forall i :: 0 <= i < |g.consumers| ==> ConsumerOk(g.consumers[i]))
  }

  lemma GroupDelimits()
    ensures Delimits(EncodeGroup, DecodeGroup, GroupOk)
  {
    hide EncodeLen, DecodePlainLen, EncodeString, DecodeString, EncodeId, DecodeId, EncodeCounted, DecodeCounted;
    PendingDelimits();
    ConsumerDelimits();
    forall g: Group, tail: Bytes | GroupOk(g) ensures DecodeGroup(EncodeGroup(g) + tail) == Ok(g, tail) {
      var d3 := EncodeCounted(g.consumers, EncodeConsumer) + tail;
      var d2 := EncodeCounted(g.pending, EncodePending) + d3;
      var d1 := EncodeId(g.lastDelivered) + d2;
      CountedRoundTrip(g.consumers, EncodeConsumer, DecodeConsumer, ConsumerOk, tail);
      CountedRoundTrip(g.pending, EncodePending, DecodePending, PendingOk, d3);
      IdRoundTrip(g.lastDelivered, d2);
      StringRoundTrip(g.name, d1);
      Nested(EncodeString(g.name), EncodeId(g.lastDelivered), EncodeCounted(g.pending, EncodePending),
             EncodeCounted(g.consumers, EncodeConsumer), tail);
    }
  }

  // ----- streams ---------------------------------------------------------------------------------------

  const KORE_MARK: Bytes := [75, 83, 84, 49]

  function FirstId(entries: seq<Entry>): Id {
    if entries == [] then ZERO else entries[0].id
  }

  /** encode_stream_dump, after the type byte: no listpacks, the metadata, no foreign groups, then
      the marked block with everything. */
  function EncodeStream(s: StreamState): Bytes {
    EncodeLen(0) + EncodeLen(|s.entries|) + EncodeId(s.lastGenerated) + EncodeId(FirstId(s.entries))
    + EncodeId(ZERO) + EncodeLen(|s.entries|) + EncodeLen(0)
    + KORE_MARK + EncodeCounted(s.entries, EncodeEntry) + EncodeCounted(s.groups, EncodeGroup)
  }

  /** decode_stream_type15. Any foreign group makes it fail, whatever follows. */
  function DecodeStream(d: Bytes): Parse<StreamState> {
    var (listpacks, rest) :- DecodePlainLen(d);
    if listpacks > 0 then Fail
    else
      var (length, rest) :- DecodePlainLen(rest);
      var (last, rest) :- DecodeId(rest);
      var (_, rest) :- DecodeId(rest);
      var (_, rest) :- DecodeId(rest);
      var (_, rest) :- DecodePlainLen(rest);
      var (foreign, rest) :- DecodePlainLen(rest);
      if foreign > 0 then Fail
      else if rest == [] then
        if length == 0 then Ok(StreamState(last, [], []), rest) else Fail
      else DecodeStreamBody(last, rest)
  }

  function DecodeStreamBody(last: Id, d: Bytes): Parse<StreamState> {
    var (mark, rest) :- Raw(d, 4);
    if mark != KORE_MARK then Fail
    else
      var (entries, rest) :- DecodeCounted(rest, DecodeEntry);
      var (groups, rest) :- DecodeCounted(rest, DecodeGroup);
      Ok(StreamState(last, entries, groups), rest)
  }

  predicate StreamOk(s: StreamState) {
    && |s.entries| < TWO_64 && (forall i :: 0 <= i < |s.entries| ==> EntryOk(s.entries[i]))
    && |s.groups| < TWO_64 && (forall i :: 0 <= i < |s.groups| ==> GroupOk(s.groups[i]))
  }

  lemma StreamBodyRoundTrip(s: StreamState, tail: Bytes)
    requires StreamOk(s)
    ensures DecodeStreamBody(s.lastGenerated,
              KORE_MARK + EncodeCounted(s.entries, EncodeEntry) + EncodeCounted(s.groups, EncodeGroup) + tail)
         == Ok(s, tail)
  {
    hide EncodeLen, DecodePlainLen, EncodeString, DecodeString, EncodeId, DecodeId, EncodeCounted, DecodeCounted;
    EntryDelimits();
    GroupDelimits();
    var d2 := EncodeCounted(s.groups, EncodeGroup) + tail;
    var d1 := EncodeCounted(s.entries, EncodeEntry) + d2;
    CountedRoundTrip(s.groups, EncodeGroup, DecodeGroup, GroupOk, tail);
    CountedRoundTrip(s.entries, EncodeEntry, DecodeEntry, EntryOk, d2);
    var d := KORE_MARK + EncodeCounted(s.entries, EncodeEntry) + EncodeCounted(s.groups, EncodeGroup) + tail;
    assert d == KORE_MARK + d1;
    assert d[..4] == KORE_MARK && d[4..] == d1;
  }

  lemma StreamRoundTrip(s: StreamState, tail: Bytes)
    requires StreamOk(s)
    ensures DecodeStream(EncodeStream(s) + tail) == Ok(s, tail)
  {
    hide DecodeStreamBody, EncodeCounted, DecodePlainLen, DecodeId, EncodeLen, EncodeId;
    var n := |s.entries|;
    var d7 := KORE_MARK + EncodeCounted(s.entries, EncodeEntry) + EncodeCounted(s.groups, EncodeGroup) + tail;
    var d6 := EncodeLen(0) + d7;
    var d5 := EncodeLen(n) + d6;
    var d4 := EncodeId(ZERO) + d5;
    var d3 := EncodeId(FirstId(s.entries)) + d4;
    var d2 := EncodeId(s.lastGenerated) + d3;
    var d1 := EncodeLen(n) + d2;
    StreamBodyRoundTrip(s, tail);
    LenRoundTrip(0, d7);
    LenRoundTrip(n, d6);
    IdRoundTrip(ZERO, d5);
    IdRoundTrip(FirstId(s.entries), d4);
    IdRoundTrip(s.lastGenerated, d3);
    LenRoundTrip(n, d2);
    LenRoundTrip(0, d1);
    StreamLayout(s, tail);
  }

  lemma StreamLayout(s: StreamState, tail: Bytes)
    ensures
      var n := |s.entries|;
      var d7 := KORE_MARK + EncodeCounted(s.entries, EncodeEntry) + EncodeCounted(s.groups, EncodeGroup) + tail;
      EncodeStream(s) + tail == EncodeLen(0) + (EncodeLen(n) + (EncodeId(s.lastGenerated) + (EncodeId(FirstId(s.entries))
        + (EncodeId(ZERO) + (EncodeLen(n) + (EncodeLen(0) + d7))))))
  {
    hide EncodeCounted, EncodeLen, EncodeId;
  }
}
