/** Stream entry IDs of src/stream_type.rs and ascending walks over sets of them. */
module StreamIds {

  const MAX_U64: nat := 0xffff_ffff_ffff_ffff

  type U64 = n: nat | n <= MAX_U64

  datatype Id = Id(ms: U64, sq: U64)

  const ZERO := Id(0, 0)
  const MAX := Id(MAX_U64, MAX_U64)

  predicate Less(a: Id, b: Id) {
    a.ms < b.ms || (a.ms == b.ms && a.sq < b.sq)
  }

  predicate AtMost(a: Id, b: Id) {
    a == b || Less(a, b)
  }

  /** next_id: documented as the smallest ID strictly greater, which the maximum has not got. */
  function NextId(id: Id): Id {
    if id.sq < MAX_U64 then Id(id.ms, id.sq + 1)
    else if id.ms < MAX_U64 then Id(id.ms + 1, 0)
    else MAX
  }

  /** Starting a range at `NextId(a)` leaves exactly the IDs above `a`, and keeps the maximum
      when `a` is the maximum. */
  lemma NextIdIff(a: Id, b: Id)
    ensures AtMost(NextId(a), b) <==> Less(a, b) || (a == MAX && b == MAX)
  {
  }

  // ----- ascending sequences --------------------------------------------------------------------

  ghost predicate Ascending(ids: seq<Id>) {
    forall i, j :: 0 <= i < j < |ids| ==> Less(ids[i], ids[j])
  }

  lemma {:induction false} LeastExists(ids: set<Id>)
    requires ids != {}
    ensures exists m :: m in ids && forall x :: x in ids ==> AtMost(m, x)
  {
    var a :| a in ids;
    if ids != {a} {
      var rest := ids - {a};
      assert ids == rest + {a};
      LeastExists(rest);
      var m :| m in rest && forall x :: x in rest ==> AtMost(m, x);
      var least := if Less(a, m) then a else m;
      forall x | x in ids ensures AtMost(least, x) {
        assert x == a || x in rest;
      }
    }
  }

  /** The least of a non-empty set, as the front of an ordered map. */
  function Least(ids: set<Id>): (m: Id)
    requires ids != {}
    ensures m in ids && forall x :: x in ids ==> AtMost(m, x)
  {
    LeastExists(ids);
    var m :| m in ids && forall x :: x in ids ==> AtMost(m, x);
    m
  }

  /** The order in which an ordered map walks its keys. */
  function InOrder(ids: set<Id>): seq<Id>
    decreases |ids|
  {
    if ids == {} then []
    else var m := Least(ids); [m] + InOrder(ids - {m})
  }

  lemma {:induction false} InOrderSorts(ids: set<Id>)
    ensures Ascending(InOrder(ids)) && |InOrder(ids)| == |ids|
    ensures forall x :: x in InOrder(ids) <==> x in ids
    decreases |ids|
  {
    hide Less, Ascending;
    if ids == {} {
      AscendingEmpty();
    } else {
      var m := Least(ids);
      InOrderSorts(ids - {m});
      var rest := InOrder(ids - {m});
      forall j | 0 <= j < |rest| ensures Less(m, rest[j]) {
        assert rest[j] in rest && rest[j] in ids && rest[j] != m;
      }
      AscendingHead(m, rest);
    }
  }

  lemma AscendingEmpty()
    ensures Ascending([])
  {
  }

  lemma AscendingHead(m: Id, rest: seq<Id>)
    requires Ascending(rest) && forall j :: 0 <= j < |rest| ==> Less(m, rest[j])
    ensures Ascending([m] + rest)
  {
    hide Less;
  }

  /** An ascending sequence is determined by its elements. */
  lemma {:induction false} AscendingUnique(a: seq<Id>, b: seq<Id>)
    requires Ascending(a) && Ascending(b) && forall x :: x in a <==> x in b
    ensures a == b
  {
    assert |b| > 0 ==> b[0] in a;
    if a != [] {
      assert a[0] in a && a[0] in b;
      assert b[0] in b;
      var i :| 0 <= i < |b| && b[i] == a[0];
      var j :| 0 <= j < |a| && a[j] == b[0];
      assert a[0] == b[0];
      forall x ensures x in a[1..] <==> x in b[1..] {
        assert x in a <==> x == a[0] || x in a[1..];
        assert x in b <==> x == b[0] || x in b[1..];
        if x in a[1..] { var m :| 0 <= m < |a| - 1 && a[1..][m] == x; assert Less(a[0], a[m + 1]); }
        if x in b[1..] { var m :| 0 <= m < |b| - 1 && b[1..][m] == x; assert Less(b[0], b[m + 1]); }
      }
      AscendingUnique(a[1..], b[1..]);
      assert a == [a[0]] + a[1..] && b == [b[0]] + b[1..];
    }
  }

  function From(ids: set<Id>, start: Id): set<Id> {
    set id | id in ids && AtMost(start, id)
  }
}
