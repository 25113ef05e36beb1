/** The DUMP format of src/rdb_object.rs as a grammar, read off the bytes: which byte strings write a
    given length, string or object. Decoding succeeds with an object exactly on the strings that write it. */
module RdbWire {
  import opened Basics
  import opened BitWords
  import opened Crc64
  import opened RdbCodec
  import opened RdbObjects
  import opened RdbDump
  import opened StreamIds
  import RdbIntegers

  // ----- the grammar ------------------------------------------------------------------------------------

  /** Big-endian numbers of four and eight bytes. */
  function Four(s: Bytes): int
    requires |s| == 4
  {
    s[0] as int * 0x100_0000 + s[1] as int * 0x1_0000 + s[2] as int * 0x100 + s[3]
  }

  function Eight(s: Bytes): int
    requires |s| == 8
  {
    Four(s[..4]) * 0x1_0000_0000 + Four(s[4..])
  }

  /** The four ways to write a length. */
  predicate Len(s: Bytes, n: nat) {
    || (|s| == 1 && s[0] < 64 && n == s[0])
    || (|s| == 2 && 64 <= s[0] < 128 && n == (s[0] as int - 64) * 256 + s[1])
    || (|s| == 5 && s[0] == 128 && n == Four(s[1..]))
    || (|s| == 9 && s[0] == 129 && n == Eight(s[1..]))
  }

  /** A signed little-endian integer of one, two or four bytes. */
  predicate Number(s: Bytes, v: int) {
    || (|s| == 1 && v == s[0] as int - if s[0] < 128 then 0 else 0x100)
    || (|s| == 2 && v == s[0] as int + s[1] as int * 0x100 - if s[1] < 128 then 0 else 0x1_0000)
    || (|s| == 4 && v == Four([s[3], s[2], s[1], s[0]]) - if s[3] < 128 then 0 else 0x1_0000_0000)
  }

  ghost predicate Counted(s: Bytes, t: Bytes) {
    exists l :: Len(l, |t|) && s == l + t
  }

  ghost predicate Written(s: Bytes, t: Bytes) {
    exists v :: Number(s, v) && RdbIntegers.Spells(t, v)
  }

  /** A string: its length and its bytes, or a small integer that stands for its decimal text. */
  ghost predicate Text(s: Bytes, t: Bytes) {
    || (|t| <= 512 * 1024 * 1024 && Counted(s, t))
    || (|s| == 2 && s[0] == 192 && Written(s[1..], t))
    || (|s| == 3 && s[0] == 193 && Written(s[1..], t))
    || (|s| == 5 && s[0] == 194 && Written(s[1..], t))
  }

  ghost function Join(parts: seq<Bytes>): Bytes {
    if parts == [] then [] else parts[0] + Join(parts[1..])
  }

  ghost predicate Each<T>(parts: seq<Bytes>, xs: seq<T>, form: (Bytes, T) -> bool) {
    |parts| == |xs| && forall i :: 0 <= i < |xs| ==> form(parts[i], xs[i])
  }

  /** A count and then that many items. */
  ghost predicate Items<T>(s: Bytes, xs: seq<T>, form: (Bytes, T) -> bool) {
    exists l, parts :: Len(l, |xs|) && Each(parts, xs, form) && s == l + Join(parts)
  }

  ghost predicate FieldText(s: Bytes, f: Field) {
    exists a, b :: Text(a, f.0) && Text(b, f.1) && s == a + b
  }

  function TwoTo(i: nat): (p: int)
    requires i < 8
    ensures p > 0
  {
    [1, 2, 4, 8, 16, 32, 64, 128][i]
  }

  /** Eight bytes hold a word, lowest byte and lowest bit first. */
  predicate WordText(s: Bytes, w: Word) {
    |s| == 8 && forall k, i :: 0 <= k < 8 && 0 <= i < 8 ==> (w[8 * k + i] <==> s[k] / TwoTo(i) % 2 == 1)
  }

  /** A member before its score. */
  ghost predicate ScoredText(s: Bytes, m: Scored) {
    exists a, b :: Text(a, m.0) && WordText(b, m.1) && s == a + b
  }

  ghost predicate IdText(s: Bytes, id: Id) {
    exists a, b :: Len(a, id.ms) && Len(b, id.sq) && s == a + b
  }

  ghost predicate EntryText(s: Bytes, e: Entry) {
    exists a, b :: IdText(a, e.id) && Items(b, e.fields, FieldText) && s == a + b
  }

  ghost predicate PendingText(s: Bytes, p: Pending) {
    exists a, b, c, d :: IdText(a, p.id) && Text(b, p.consumer) && Len(c, p.deliveryTime) && Len(d, p.deliveryCount)
      && s == a + b + c + d
  }

  ghost predicate ConsumerText(s: Bytes, c: Consumer) {
    exists a, b, d :: Text(a, c.name) && Len(b, c.seenTime) && Len(d, c.pending) && s == a + b + d
  }

  ghost predicate GroupText(s: Bytes, g: Group) {
    exists a, b, c, d :: Text(a, g.name) && IdText(b, g.lastDelivered) && Items(c, g.pending, PendingText)
      && Items(d, g.consumers, ConsumerText) && s == a + b + c + d
  }

  /** What stands before a stream's contents: no listpacks, a length, the last ID, three values
      nothing depends on, and no foreign groups. */
  ghost predicate HeadText(s: Bytes, length: nat, last: Id) {
    exists a, b, c, d, first, removed, added: nat ::
      && Len(a, 0) && Len(b, length) && IdText(c, last) && AsideText(d, first, removed, added)
      && s == a + b + c + d
  }

  ghost predicate AsideText(s: Bytes, first: Id, removed: Id, added: nat) {
    exists a, b, c, d :: IdText(a, first) && IdText(b, removed) && Len(c, added) && Len(d, 0) && s == a + b + c + d
  }

  /** The mark "KST1", the entries and the groups. */
  ghost predicate BodyText(s: Bytes, st: StreamState) {
    exists a, b :: Items(a, st.entries, EntryText) && Items(b, st.groups, GroupText) && s == [75, 83, 84, 49] + a + b
  }

  /** Nothing may stand behind the head of an empty stream. */
  ghost predicate StreamText(s: Bytes, st: StreamState) {
    exists head, body, length: nat ::
      && HeadText(head, length, st.lastGenerated) && s == head + body
      && if body == [] then length == 0 && st.entries == [] && st.groups == [] else BodyText(body, st)
  }

  /** One type byte, then the value. */
  ghost predicate ObjectText(s: Bytes, o: RdbObject) {
    && s != []
    && match o
       case String(t) => s[0] == 0 && Text(s[1..], t)
       case List(xs) => s[0] == 1 && Items(s[1..], xs, Text)
       case Set(xs) => s[0] == 2 && Items(s[1..], xs, Text)
       case Hash(fs) => s[0] == 4 && Items(s[1..], fs, FieldText)
       case ZSet(ms) => s[0] == 5 && Items(s[1..], ms, ScoredText)
       case Stream(st) => s[0] == 15 && StreamText(s[1..], st)
  }

  /** The object, two bytes of version, and eight that make the checksum right. */
  ghost predicate DumpText(data: Bytes, o: RdbObject) {
    exists typed, version, check :: ObjectText(typed, o) && |version| == 2 && |check| == 8
      && data == typed + version + check && SerialCrc(data) == Zeros(64)
  }

  // ----- lengths ------------------------------------------------------------------------------------------

  lemma Longer(s: Bytes, k: nat)
    requires 0 < k <= |s|
    ensures FromBigEndian(s[..k]) == FromBigEndian(s[..k - 1]) * 256 + s[k - 1]
  {
    assert s[..k][..k - 1] == s[..k - 1];
  }

  lemma FourReads(s: Bytes)
    requires |s| >= 4
    ensures FromBigEndian(s[..4]) == Four(s[..4])
  {
    hide FromBigEndian;
    Nothing(s);
    Longer(s, 1);
    Longer(s, 2);
    Longer(s, 3);
    Longer(s, 4);
  }

  lemma Nothing(s: Bytes)
    ensures FromBigEndian(s[..0]) == 0
  {
  }

  lemma EightReads(s: Bytes)
    requires |s| == 8
    ensures FromBigEndian(s[..8]) == Eight(s)
  {
    hide FromBigEndian;
    FourReads(s);
    Longer(s, 5);
    Longer(s, 6);
    Longer(s, 7);
    Longer(s, 8);
  }

  lemma LenForward(s: Bytes, n: nat, rest: Bytes)
    requires Len(s, n)
    ensures DecodeLen(s + rest) == Ok((n, false), rest) && DecodePlainLen(s + rest) == Ok(n, rest)
  {
    var d := s + rest;
    assert d[0] == s[0] && d[|s|..] == rest;
    if |s| == 5 {
      assert d[1..5] == s[1..] == s[1..][..4];
      FourReads(s[1..]);
    } else if |s| == 9 {
      assert d[1..9] == s[1..] == s[1..][..8];
      EightReads(s[1..]);
    }
  }

  lemma LenBack(d: Bytes) returns (s: Bytes)
    requires DecodeLen(d).Ok? && !DecodeLen(d).value.1
    ensures Len(s, DecodeLen(d).value.0) && d == s + DecodeLen(d).rest
  {
    var k := |d| - |DecodeLen(d).rest|;
    s := d[..k];
    assert d == s + d[k..];
    if d[0] == 128 {
      assert s[1..] == d[1..5] == s[1..][..4];
      FourReads(s[1..]);
    } else if d[0] == 129 {
      assert s[1..] == d[1..9] == s[1..][..8];
      EightReads(s[1..]);
    }
  }

  /** Of the ways to write a length, the encoder takes a shortest. */
  lemma ShortestLen(n: nat, s: Bytes)
    requires n < TWO_64
    ensures Len(EncodeLen(n), n) && (Len(s, n) ==> |EncodeLen(n)| <= |s|)
  {
    var l := EncodeLen(n);
    LenRoundTrip(n, []);
    assert l + [] == l;
    var w := LenBack(l);
    assert w + [] == w;
  }

  lemma PlainLenBack(d: Bytes) returns (s: Bytes)
    requires DecodePlainLen(d).Ok?
    ensures Len(s, DecodePlainLen(d).value) && d == s + DecodePlainLen(d).rest
  {
    s := LenBack(d);
  }

  // ----- strings ------------------------------------------------------------------------------------------

  lemma Reversed(s: Bytes)
    ensures |s| == 1 ==> ReverseBytes(s) == s
    ensures |s| == 2 ==> ReverseBytes(s) == [s[1], s[0]]
    ensures |s| == 4 ==> ReverseBytes(s) == [s[3], s[2], s[1], s[0]]
  {
    if |s| == 1 {
      assert s[1..] == [];
    } else if |s| == 2 {
      Reversed(s[1..]);
    } else if |s| == 4 {
      Reversed(s[1..][1..]);
      assert ReverseBytes(s[1..]) == ReverseBytes(s[1..][1..]) + [s[1]];
    }
  }

  lemma NumberReads(s: Bytes)
    requires |s| == 1 || |s| == 2 || |s| == 4
    ensures Number(s, Signed(s))
  {
    hide FromBigEndian, ReverseBytes;
    assert Power256(1) == 256 && Power256(2) == 0x1_0000 && Power256(4) == 0x1_0000_0000;
    Reversed(s);
    var r := ReverseBytes(s);
    Nothing(r);
    Longer(r, 1);
    assert r[..|r|] == r;
    if |s| >= 2 { Longer(r, 2); }
    if |s| == 4 { FourReads(r); }
  }

  lemma NumberIs(s: Bytes, v: int)
    requires Number(s, v)
    ensures v == Signed(s)
  {
    NumberReads(s);
  }

  lemma {:induction false} LeadingDigit(t: Bytes)
    requires RdbIntegers.Natural(t) && t[0] != '0' as int
    ensures RdbIntegers.ReadDigits(t) > 0
    decreases |t|
  {
    if |t| > 1 {
      LeadingDigit(t[..|t| - 1]);
    } else {
      assert t[..0] == [];
    }
  }

  lemma {:induction false} NaturalIsDigits(t: Bytes)
    requires RdbIntegers.Natural(t)
    ensures RdbIntegers.ReadDigits(t) >= 0 && t == Digits(RdbIntegers.ReadDigits(t))
    decreases |t|
  {
    var init := t[..|t| - 1];
    if |t| == 1 {
      assert init == [];
    } else {
      NaturalIsDigits(init);
      LeadingDigit(init);
      assert t == init + [t[|t| - 1]];
    }
  }

  /** A number has one decimal text. */
  lemma SpelledIs(t: Bytes, v: int)
    requires RdbIntegers.Spells(t, v)
    ensures t == Decimal(v)
  {
    if v < 0 {
      NaturalIsDigits(t[1..]);
      assert t == [t[0]] + t[1..];
    } else {
      NaturalIsDigits(t);
    }
  }

  lemma TextForward(s: Bytes, t: Bytes, rest: Bytes)
    requires Text(s, t)
    ensures DecodeString(s + rest) == Ok(t, rest)
  {
    hide Number, RdbIntegers.Spells, Decimal, Signed, Len;
    if |t| <= 512 * 1024 * 1024 && Counted(s, t) {
      var l :| Len(l, |t|) && s == l + t;
      LenForward(l, |t|, t + rest);
      assert s + rest == l + (t + rest);
      assert (t + rest)[..|t|] == t && (t + rest)[|t|..] == rest;
    } else {
      var v :| Number(s[1..], v) && RdbIntegers.Spells(t, v);
      NumberIs(s[1..], v);
      SpelledIs(t, v);
      var d := s + rest;
      assert d[1..] == s[1..] + rest && (s[1..] + rest)[..|s| - 1] == s[1..] && (s[1..] + rest)[|s| - 1..] == rest;
    }
  }

  lemma IntegerBack(d: Bytes, k: nat) returns (s: Bytes)
    requires DecodeLen(d).Ok? && DecodeLen(d).value == (k, true) && k <= 2 && DecodeString(d).Ok?
    ensures Text(s, DecodeString(d).value) && d == s + DecodeString(d).rest
  {
    hide Number, RdbIntegers.Spells, Decimal, Signed, Len;
    var size := if k == 0 then 1 else if k == 1 then 2 else 4;
    var raw := d[1..][..size];
    s := d[..size + 1];
    assert d == s + d[size + 1..] && d[1..][size..] == d[size + 1..] && s[1..] == raw;
    NumberReads(raw);
    RdbIntegers.DecimalSpells(Signed(raw));
    assert Written(raw, Decimal(Signed(raw)));
  }

  lemma TextBack(d: Bytes) returns (s: Bytes)
    requires DecodeString(d).Ok?
    ensures Text(s, DecodeString(d).value) && d == s + DecodeString(d).rest
  {
    hide Written, DecodeLen, Signed, Decimal, Len;
    var len := DecodeLen(d);
    if !len.value.1 {
      var l := LenBack(d);
      var t := DecodeString(d).value;
      s := l + t;
      assert len.rest == t + DecodeString(d).rest;
    } else {
      s := IntegerBack(d, len.value.0);
    }
  }

  // ----- repetition ---------------------------------------------------------------------------------------

  ghost predicate Splits<T>(d: Bytes, x: T, rest: Bytes, form: (Bytes, T) -> bool) {
    exists s :: form(s, x) && d == s + rest
  }

  /** A decoder returns exactly what the bytes at the front write. */
  ghost predicate Reads<T(!new)>(decode: Bytes -> Parse<T>, form: (Bytes, T) -> bool) {
    && (forall s, x, rest :: form(s, x) ==> decode(s + rest) == Ok(x, rest))
    && (forall d :: decode(d).Ok? ==> Splits(d, decode(d).value, decode(d).rest, form))
  }

  lemma {:induction false} ManyForward<T(!new)>(decode: Bytes -> Parse<T>, form: (Bytes, T) -> bool, parts: seq<Bytes>, xs: seq<T>, rest: Bytes)
    requires Reads(decode, form) && Each(parts, xs, form)
    ensures DecodeMany(Join(parts) + rest, |xs|, decode) == Ok(xs, rest)
    decreases |xs|
  {
    if xs == [] {
      assert Join(parts) + rest == rest;
    } else {
      ManyForward(decode, form, parts[1..], xs[1..], rest);
      assert form(parts[0], xs[0]);
      assert Join(parts) + rest == parts[0] + (Join(parts[1..]) + rest);
      assert xs == [xs[0]] + xs[1..];
    }
  }

  lemma {:induction false} ManyBack<T(!new)>(decode: Bytes -> Parse<T>, form: (Bytes, T) -> bool, d: Bytes, n: nat) returns (parts: seq<Bytes>)
    requires Reads(decode, form) && DecodeMany(d, n, decode).Ok?
    ensures |DecodeMany(d, n, decode).value| == n && Each(parts, DecodeMany(d, n, decode).value, form)
    ensures d == Join(parts) + DecodeMany(d, n, decode).rest
    decreases n
  {
    parts := [];
    if n > 0 {
      var x, d1 := decode(d).value, decode(d).rest;
      assert Splits(d, x, d1, form);
      var s :| form(s, x) && d == s + d1;
      var others := ManyBack(decode, form, d1, n - 1);
      parts := [s] + others;
      var r := DecodeMany(d1, n - 1, decode);
      assert DecodeMany(d, n, decode) == Ok([x] + r.value, r.rest);
      assert parts[1..] == others;
      assert d == s + (Join(others) + r.rest) == Join(parts) + r.rest;
    }
  }

  lemma ItemsForward<T(!new)>(decode: Bytes -> Parse<T>, form: (Bytes, T) -> bool, s: Bytes, xs: seq<T>, rest: Bytes)
    requires Reads(decode, form) && Items(s, xs, form)
    ensures DecodeCounted(s + rest, decode) == Ok(xs, rest)
  {
    hide DecodePlainLen, Reads, Len, Each;
    var l, parts :| Len(l, |xs|) && Each(parts, xs, form) && s == l + Join(parts);
    LenForward(l, |xs|, Join(parts) + rest);
    assert s + rest == l + (Join(parts) + rest);
    ManyForward(decode, form, parts, xs, rest);
  }

  lemma ItemsBack<T(!new)>(decode: Bytes -> Parse<T>, form: (Bytes, T) -> bool, d: Bytes) returns (s: Bytes)
    requires Reads(decode, form) && DecodeCounted(d, decode).Ok?
    ensures Items(s, DecodeCounted(d, decode).value, form) && d == s + DecodeCounted(d, decode).rest
  {
    hide DecodePlainLen, Reads, Len, Each;
    var n, d1 := DecodePlainLen(d).value, DecodePlainLen(d).rest;
    var l := PlainLenBack(d);
    var parts := ManyBack(decode, form, d1, n);
    s := l + Join(parts);
  }

  // ----- items --------------------------------------------------------------------------------------------

  lemma TextReads()
    ensures Reads(DecodeString, Text)
  {
    hide DecodeString, Text;
    forall s: Bytes, t: Bytes, rest: Bytes | Text(s, t) ensures DecodeString(s + rest) == Ok(t, rest) {
      TextForward(s, t, rest);
    }
    forall d: Bytes | DecodeString(d).Ok? ensures Splits(d, DecodeString(d).value, DecodeString(d).rest, Text) {
      var s := TextBack(d);
    }
  }

  lemma TextTaken(d: Bytes)
    ensures DecodeString(d).Ok? ==> Splits(d, DecodeString(d).value, DecodeString(d).rest, Text)
    ensures forall s, t, rest: Bytes :: Text(s, t) && d == s + rest ==> DecodeString(d) == Ok(t, rest)
  {
    hide DecodeString, Text;
    TextReads();
  }

  lemma FieldReads()
    ensures Reads(DecodeField, FieldText)
  {
    hide DecodeString, Text;
    forall s: Bytes, f: Field, rest: Bytes | FieldText(s, f) ensures DecodeField(s + rest) == Ok(f, rest) {
      var a, b :| Text(a, f.0) && Text(b, f.1) && s == a + b;
      assert s + rest == a + (b + rest);
      TextForward(a, f.0, b + rest);
      TextForward(b, f.1, rest);
    }
    forall d: Bytes | DecodeField(d).Ok? ensures Splits(d, DecodeField(d).value, DecodeField(d).rest, FieldText) {
      var a := TextBack(d);
      var b := TextBack(DecodeString(d).rest);
      assert d == (a + b) + DecodeField(d).rest;
      assert FieldText(a + b, DecodeField(d).value);
    }
  }

  lemma Halved(n: nat, i: nat)
    requires 0 < i < 8
    ensures n / 2 / TwoTo(i - 1) == n / TwoTo(i)
  {
    if i == 1 {} else if i == 2 {} else if i == 3 {} else if i == 4 {} else if i == 5 {} else if i == 6 {} else {}
  }

  lemma {:induction false} BitAt(n: nat, k: nat, i: nat)
    requires i < k <= 8
    ensures ToBits(n, k)[i] <==> n / TwoTo(i) % 2 == 1
    decreases i
  {
    hide TwoTo;
    if i == 0 {
      LowestBit(n);
    } else {
      BitAt(n / 2, k - 1, i - 1);
      Halved(n, i);
    }
  }

  lemma LowestBit(n: nat)
    ensures n / TwoTo(0) == n
  {
  }

  lemma {:induction false} StreamAt(s: Bytes, k: nat, i: nat)
    requires k < |s| && i < 8
    ensures Crc64.Stream(s)[8 * k + i] == ToBits(s[k], 8)[i]
    decreases k
  {
    if k > 0 {
      StreamAt(s[1..], k - 1, i);
      assert Crc64.Stream(s)[8 * k + i] == Crc64.Stream(s[1..])[8 * (k - 1) + i];
    }
  }

  lemma WordReads(s: Bytes)
    requires |s| == 8
    ensures WordText(s, Crc64.Stream(s))
  {
    hide TwoTo, Crc64.Stream, ToBits;
    forall k, i | 0 <= k < 8 && 0 <= i < 8 ensures Crc64.Stream(s)[8 * k + i] <==> s[k] / TwoTo(i) % 2 == 1 {
      StreamAt(s, k, i);
      BitAt(s[k], 8, i);
    }
  }

  lemma WordIs(s: Bytes, w: Word)
    requires WordText(s, w)
    ensures w == Crc64.Stream(s)
  {
    hide TwoTo;
    WordReads(s);
    forall j | 0 <= j < 64 ensures w[j] == Crc64.Stream(s)[j] {
      var k, i := j / 8, j % 8;
      assert j == 8 * k + i;
      assert w[8 * k + i] <==> s[k] / TwoTo(i) % 2 == 1;
    }
  }

  lemma ScoredReads()
    ensures Reads(DecodeScored, ScoredText)
  {
    hide DecodeString, Text, WordText, Crc64.Stream;
    forall s: Bytes, m: Scored, rest: Bytes | ScoredText(s, m) ensures DecodeScored(s + rest) == Ok(m, rest) {
      var a, b :| Text(a, m.0) && WordText(b, m.1) && s == a + b;
      assert s + rest == a + (b + rest);
      TextForward(a, m.0, b + rest);
      WordIs(b, m.1);
      EightBytes(b, m.1);
      assert (b + rest)[..8] == b && (b + rest)[8..] == rest;
    }
    forall d: Bytes | DecodeScored(d).Ok? ensures Splits(d, DecodeScored(d).value, DecodeScored(d).rest, ScoredText) {
      var a := TextBack(d);
      var d1 := DecodeString(d).rest;
      var b := d1[..8];
      WordReads(b);
      assert d == (a + b) + DecodeScored(d).rest;
      assert ScoredText(a + b, DecodeScored(d).value);
    }
  }

  lemma EightBytes(s: Bytes, w: Word)
    requires WordText(s, w)
    ensures |s| == 8
  {
  }

  lemma IdForward(s: Bytes, id: Id, rest: Bytes)
    requires IdText(s, id)
    ensures DecodeId(s + rest) == Ok(id, rest)
  {
    hide DecodePlainLen, Len;
    var a, b :| Len(a, id.ms) && Len(b, id.sq) && s == a + b;
    assert s + rest == a + (b + rest);
    LenForward(a, id.ms, b + rest);
    LenForward(b, id.sq, rest);
  }

  lemma IdBack(d: Bytes) returns (s: Bytes)
    requires DecodeId(d).Ok?
    ensures IdText(s, DecodeId(d).value) && d == s + DecodeId(d).rest
  {
    hide DecodePlainLen, Len;
    var a := PlainLenBack(d);
    var b := PlainLenBack(DecodePlainLen(d).rest);
    s := a + b;
  }

  lemma EntryReads()
    ensures Reads(DecodeEntry, EntryText)
  {
    hide DecodeId, DecodeCounted, IdText, Items, Reads;
    FieldReads();
    ReadsIff(DecodeEntry, EntryText);
    forall s: Bytes, e: Entry, rest: Bytes | EntryText(s, e) ensures DecodeEntry(s + rest) == Ok(e, rest) {
      var a, b :| IdText(a, e.id) && Items(b, e.fields, FieldText) && s == a + b;
      assert s + rest == a + (b + rest);
      IdForward(a, e.id, b + rest);
      ItemsForward(DecodeField, FieldText, b, e.fields, rest);
    }
    forall d: Bytes | DecodeEntry(d).Ok? ensures Splits(d, DecodeEntry(d).value, DecodeEntry(d).rest, EntryText) {
      var a := IdBack(d);
      var b := ItemsBack(DecodeField, FieldText, DecodeId(d).rest);
      assert d == (a + b) + DecodeEntry(d).rest;
      assert EntryText(a + b, DecodeEntry(d).value);
    }
  }

  lemma ReadsIff<T(!new)>(decode: Bytes -> Parse<T>, form: (Bytes, T) -> bool)
    ensures Reads(decode, form) <==>
      && (forall s, x, rest :: form(s, x) ==> decode(s + rest) == Ok(x, rest))
      && (forall d :: decode(d).Ok? ==> Splits(d, decode(d).value, decode(d).rest, form))
  {
  }

  lemma PendingReads()
    ensures Reads(DecodePending, PendingText)
  {
    hide DecodeId, DecodeString, DecodePlainLen, IdText, Text, Len;
    forall s: Bytes, p: Pending, rest: Bytes | PendingText(s, p) ensures DecodePending(s + rest) == Ok(p, rest) {
      var a, b, c, d :| IdText(a, p.id) && Text(b, p.consumer) && Len(c, p.deliveryTime) && Len(d, p.deliveryCount) && s == a + b + c + d;
      Nested(a, b, c, d, rest);
      IdForward(a, p.id, b + (c + (d + rest)));
      TextForward(b, p.consumer, c + (d + rest));
      LenForward(c, p.deliveryTime, d + rest);
      LenForward(d, p.deliveryCount, rest);
    }
    forall w: Bytes | DecodePending(w).Ok? ensures Splits(w, DecodePending(w).value, DecodePending(w).rest, PendingText) {
      var a := IdBack(w);
      var w1 := DecodeId(w).rest;
      var b := TextBack(w1);
      var w2 := DecodeString(w1).rest;
      var c := PlainLenBack(w2);
      var d := PlainLenBack(DecodePlainLen(w2).rest);
      Nested(a, b, c, d, DecodePending(w).rest);
      assert PendingText(a + b + c + d, DecodePending(w).value);
    }
  }

  lemma ConsumerReads()
    ensures Reads(DecodeConsumer, ConsumerText)
  {
    hide DecodeString, DecodePlainLen, Text, Len;
    forall s: Bytes, c: Consumer, rest: Bytes | ConsumerText(s, c) ensures DecodeConsumer(s + rest) == Ok(c, rest) {
      var a, b, d :| Text(a, c.name) && Len(b, c.seenTime) && Len(d, c.pending) && s == a + b + d;
      assert s + rest == a + (b + (d + rest));
      TextForward(a, c.name, b + (d + rest));
      LenForward(b, c.seenTime, d + rest);
      LenForward(d, c.pending, rest);
    }
    forall w: Bytes | DecodeConsumer(w).Ok? ensures Splits(w, DecodeConsumer(w).value, DecodeConsumer(w).rest, ConsumerText) {
      var a := TextBack(w);
      var w1 := DecodeString(w).rest;
      var b := PlainLenBack(w1);
      var d := PlainLenBack(DecodePlainLen(w1).rest);
      assert w == (a + b + d) + DecodeConsumer(w).rest;
      assert ConsumerText(a + b + d, DecodeConsumer(w).value);
    }
  }

  lemma GroupReads()
    ensures Reads(DecodeGroup, GroupText)
  {
    hide DecodeId, DecodeString, DecodeCounted, IdText, Text, Items, Reads;
    PendingReads();
    ConsumerReads();
    ReadsIff(DecodeGroup, GroupText);
    forall s: Bytes, g: Group, rest: Bytes | GroupText(s, g) ensures DecodeGroup(s + rest) == Ok(g, rest) {
      var a, b, c, d :| Text(a, g.name) && IdText(b, g.lastDelivered) && Items(c, g.pending, PendingText)
        && Items(d, g.consumers, ConsumerText) && s == a + b + c + d;
      Nested(a, b, c, d, rest);
      TextForward(a, g.name, b + (c + (d + rest)));
      IdForward(b, g.lastDelivered, c + (d + rest));
      ItemsForward(DecodePending, PendingText, c, g.pending, d + rest);
      ItemsForward(DecodeConsumer, ConsumerText, d, g.consumers, rest);
    }
    forall w: Bytes | DecodeGroup(w).Ok? ensures Splits(w, DecodeGroup(w).value, DecodeGroup(w).rest, GroupText) {
      var a := TextBack(w);
      var w1 := DecodeString(w).rest;
      var b := IdBack(w1);
      var w2 := DecodeId(w1).rest;
      var c := ItemsBack(DecodePending, PendingText, w2);
      var d := ItemsBack(DecodeConsumer, ConsumerText, DecodeCounted(w2, DecodePending).rest);
      Nested(a, b, c, d, DecodeGroup(w).rest);
      assert GroupText(a + b + c + d, DecodeGroup(w).value);
    }
  }

  // ----- streams ------------------------------------------------------------------------------------------

  lemma AsideForward(s: Bytes, first: Id, removed: Id, added: nat, rest: Bytes) returns (r1: Bytes, r2: Bytes, r3: Bytes)
    requires AsideText(s, first, removed, added)
    ensures DecodeId(s + rest) == Ok(first, r1) && DecodeId(r1) == Ok(removed, r2)
    ensures DecodePlainLen(r2) == Ok(added, r3) && DecodePlainLen(r3) == Ok(0, rest)
  {
    hide DecodeId, DecodePlainLen, IdText, Len;
    var a, b, c, d :| IdText(a, first) && IdText(b, removed) && Len(c, added) && Len(d, 0) && s == a + b + c + d;
    Nested(a, b, c, d, rest);
    r1, r2, r3 := b + (c + (d + rest)), c + (d + rest), d + rest;
    IdForward(a, first, r1);
    IdForward(b, removed, r2);
    LenForward(c, added, r3);
    LenForward(d, 0, rest);
  }

  /** Past the head of a stream. */
  function PastHead(d: Bytes): Parse<(nat, Id)> {
    var (listpacks, rest) :- DecodePlainLen(d);
    if listpacks > 0 then Fail
    else
      var (length, rest) :- DecodePlainLen(rest);
      var (last, rest) :- DecodeId(rest);
      var (_, rest) :- DecodeId(rest);
      var (_, rest) :- DecodeId(rest);
      var (_, rest) :- DecodePlainLen(rest);
      var (foreign, rest) :- DecodePlainLen(rest);
      if foreign > 0 then Fail else Ok((length, last), rest)
  }

  lemma HeadForward(s: Bytes, length: nat, last: Id, rest: Bytes)
    requires HeadText(s, length, last)
    ensures PastHead(s + rest) == Ok((length, last), rest)
  {
    hide DecodeId, DecodePlainLen, IdText, Len, AsideText;
    var a, b, c, d, first, removed, added: nat :|
      Len(a, 0) && Len(b, length) && IdText(c, last) && AsideText(d, first, removed, added) && s == a + b + c + d;
    Nested(a, b, c, d, rest);
    LenForward(a, 0, b + (c + (d + rest)));
    LenForward(b, length, c + (d + rest));
    IdForward(c, last, d + rest);
    var r1, r2, r3 := AsideForward(d, first, removed, added, rest);
  }

  lemma HeadBack(d: Bytes) returns (s: Bytes)
    requires PastHead(d).Ok?
    ensures HeadText(s, PastHead(d).value.0, PastHead(d).value.1) && d == s + PastHead(d).rest
  {
    hide DecodeId, DecodePlainLen, IdText, Len;
    var d1 := DecodePlainLen(d).rest;
    var d2 := DecodePlainLen(d1).rest;
    var d3 := DecodeId(d2).rest;
    var d4 := DecodeId(d3).rest;
    var d5 := DecodeId(d4).rest;
    var d6 := DecodePlainLen(d5).rest;
    var s1 := PlainLenBack(d);
    var s2 := PlainLenBack(d1);
    var s3 := IdBack(d2);
    var s4 := IdBack(d3);
    var s5 := IdBack(d4);
    var s6 := PlainLenBack(d5);
    var s7 := PlainLenBack(d6);
    var aside := s4 + s5 + s6 + s7;
    Nested(s4, s5, s6, s7, PastHead(d).rest);
    assert AsideText(aside, DecodeId(d3).value, DecodeId(d4).value, DecodePlainLen(d5).value);
    s := s1 + s2 + s3 + aside;
    Nested(s1, s2, s3, aside, PastHead(d).rest);
  }

  lemma StreamPastHead(d: Bytes)
    ensures DecodeStream(d) ==
      if !PastHead(d).Ok? then PastHead(d).PropagateFailure()
      else if PastHead(d).rest != [] then DecodeStreamBody(PastHead(d).value.1, PastHead(d).rest)
      else if PastHead(d).value.0 == 0 then Ok(StreamState(PastHead(d).value.1, [], []), []) else Fail
  {
    hide DecodeId, DecodePlainLen, DecodeStreamBody;
  }

  lemma BodyForward(s: Bytes, st: StreamState)
    requires BodyText(s, st)
    ensures DecodeStreamBody(st.lastGenerated, s) == Ok(st, [])
  {
    hide DecodeCounted, Items, Reads;
    EntryReads();
    GroupReads();
    var a, b :| Items(a, st.entries, EntryText) && Items(b, st.groups, GroupText) && s == [75, 83, 84, 49] + a + b;
    assert s[..4] == [75, 83, 84, 49] && s[4..] == a + b && b + [] == b;
    ItemsForward(DecodeEntry, EntryText, a, st.entries, b);
    ItemsForward(DecodeGroup, GroupText, b, st.groups, []);
  }

  lemma BodyBack(last: Id, d: Bytes)
    requires DecodeStreamBody(last, d).Ok? && DecodeStreamBody(last, d).rest == []
    ensures BodyText(d, DecodeStreamBody(last, d).value) && DecodeStreamBody(last, d).value.lastGenerated == last
  {
    hide DecodeCounted, Items, Reads;
    EntryReads();
    GroupReads();
    var a := ItemsBack(DecodeEntry, EntryText, d[4..]);
    var b := ItemsBack(DecodeGroup, GroupText, DecodeCounted(d[4..], DecodeEntry).rest);
    assert d == d[..4] + d[4..] && b + [] == b;
    assert d == [75, 83, 84, 49] + a + b;
  }

  lemma StreamIff(d: Bytes, st: StreamState)
    ensures DecodeStream(d) == Ok(st, []) <==> StreamText(d, st)
  {
    hide DecodeStreamBody, DecodeStream, PastHead, HeadText, BodyText;
    StreamPastHead(d);
    if StreamText(d, st) {
      var head, body, length: nat :| HeadText(head, length, st.lastGenerated) && d == head + body
        && if body == [] then length == 0 && st.entries == [] && st.groups == [] else BodyText(body, st);
      HeadForward(head, length, st.lastGenerated, body);
      if body != [] { BodyForward(body, st); }
    }
    if DecodeStream(d) == Ok(st, []) {
      var head := HeadBack(d);
      var body, length, last := PastHead(d).rest, PastHead(d).value.0, PastHead(d).value.1;
      if body != [] { BodyBack(last, body); }
      assert HeadText(head, length, st.lastGenerated) && d == head + body;
    }
  }

  // ----- objects ------------------------------------------------------------------------------------------

  lemma ItemsIff<T(!new)>(decode: Bytes -> Parse<T>, form: (Bytes, T) -> bool, d: Bytes, xs: seq<T>)
    requires Reads(decode, form)
    ensures DecodeCounted(d, decode) == Ok(xs, []) <==> Items(d, xs, form)
  {
    hide DecodeCounted, Items, Reads;
    assert d + [] == d;
    if Items(d, xs, form) { ItemsForward(decode, form, d, xs, []); }
    if DecodeCounted(d, decode) == Ok(xs, []) { var s := ItemsBack(decode, form, d); assert s + [] == s; }
  }

  lemma TextIff(d: Bytes, t: Bytes)
    ensures DecodeString(d) == Ok(t, []) <==> Text(d, t)
  {
    hide DecodeString, Text;
    assert d + [] == d;
    if Text(d, t) { TextForward(d, t, []); }
    if DecodeString(d) == Ok(t, []) { var s := TextBack(d); assert s + [] == s; }
  }

  lemma ObjectIff(d: Bytes, o: RdbObject)
    ensures DecodeObject(d) == Ok(o, []) <==> ObjectText(d, o)
  {
    hide DecodeString, Text, DecodeCounted, Items, DecodeStream, StreamText, Reads;
    if d != [] {
      TextReads();
      FieldReads();
      ScoredReads();
      match o
      case String(t) => TextIff(d[1..], t);
      case List(xs) => ItemsIff(DecodeString, Text, d[1..], xs);
      case Set(xs) => ItemsIff(DecodeString, Text, d[1..], xs);
      case Hash(fs) => ItemsIff(DecodeField, FieldText, d[1..], fs);
      case ZSet(ms) => ItemsIff(DecodeScored, ScoredText, d[1..], ms);
      case Stream(st) => StreamIff(d[1..], st);
    }
  }

  /** For every byte string and every object: decoding gives the object exactly when the bytes are a
      DUMP of it, in any of the length and string forms. */
  lemma DumpIff(data: Bytes, o: RdbObject)
    ensures DecodeDump(data) == Ok(o, []) <==> DumpText(data, o)
  {
    hide DecodeObject, ObjectText, Serial, Crc64.Stream;
    if |data| >= 11 {
      var body := data[..|data| - 8];
      var typed := body[..|body| - 2];
      ChecksumIff(data);
      ObjectIff(typed, o);
      assert data == typed + body[|body| - 2..] + data[|data| - 8..];
      if DumpText(data, o) {
        var t, v, c :| ObjectText(t, o) && |v| == 2 && |c| == 8 && data == t + v + c && SerialCrc(data) == Zeros(64);
        assert t == typed;
      }
    } else if DumpText(data, o) {
      var t, v, c :| ObjectText(t, o) && |v| == 2 && |c| == 8 && data == t + v + c;
      NotEmpty(t, o);
    }
  }

  lemma NotEmpty(s: Bytes, o: RdbObject)
    requires ObjectText(s, o)
    ensures |s| > 0
  {
  }

  /** What is encoded is a DUMP in that sense, with version 9. */
  lemma EncodedText(o: RdbObject)
    requires ObjectOk(o)
    ensures DumpText(EncodeDump(o), o)
    ensures |EncodeDump(o)| >= 11 && EncodeDump(o)[|EncodeDump(o)| - 10..|EncodeDump(o)| - 8] == [9, 0]
  {
    hide DumpText, EncodeObject, DecodeDump, SerialCrc, Packed;
    DumpRoundTrip(o);
    DumpIff(EncodeDump(o), o);
    EncodedTyped(o);
  }
}
