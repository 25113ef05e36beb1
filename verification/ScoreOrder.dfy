/** Scores, members and the (score, member) order of src/sorted_set.rs. */
module ScoreOrder {
  import opened Basics

  type Member = seq<Byte>

  /** An f64 seen through `OrderedFloat`: every NaN is one value sorted last, and the two
      zeroes are one value. */
  datatype Score = NegInf | Finite(value: real) | PosInf | NaN

  datatype ScoreKey = ScoreKey(score: Score, member: Member)

  function ScoreRank(s: Score): int {
    match s
    case NegInf => 0
    case Finite(_) => 1
    case PosInf => 2
    case NaN => 3
  }

  predicate ScoreLess(a: Score, b: Score) {
    if a.Finite? && b.Finite? then a.value < b.value else ScoreRank(a) < ScoreRank(b)
  }

  /** Byte-wise lexicographic order: a proper prefix comes first. */
  predicate MemberLess(a: Member, b: Member) {
    if b == [] then false
    else if a == [] then true
    else if a[0] != b[0] then a[0] < b[0]
    else MemberLess(a[1..], b[1..])
  }

  predicate Less(a: ScoreKey, b: ScoreKey) {
    if a.score == b.score then MemberLess(a.member, b.member) else ScoreLess(a.score, b.score)
  }

  lemma {:induction false} MemberLessIrreflexive(a: Member)
    ensures !MemberLess(a, a)
  {
    if a != [] { MemberLessIrreflexive(a[1..]); }
  }

  lemma {:induction false} MemberLessTransitive(a: Member, b: Member, c: Member)
    requires MemberLess(a, b) && MemberLess(b, c)
    ensures MemberLess(a, c)
  {
    if a != [] && a[0] == b[0] == c[0] { MemberLessTransitive(a[1..], b[1..], c[1..]); }
  }

  lemma {:induction false} MemberLessTotal(a: Member, b: Member)
    ensures a == b || MemberLess(a, b) || MemberLess(b, a)
  {
    if a != [] && b != [] && a[0] == b[0] {
      MemberLessTotal(a[1..], b[1..]);
      assert a == [a[0]] + a[1..] && b == [b[0]] + b[1..];
    }
  }

  /** `Ord for ScoreKey` is a strict total order whose equality is equality of keys, which is
      what lets the skiplist compare with `<` while walking and with `==` on landing. */
  lemma LessIsStrictTotalOrder(a: ScoreKey, b: ScoreKey, c: ScoreKey)
    ensures !Less(a, a)
    ensures Less(a, b) && Less(b, c) ==> Less(a, c)
    ensures a == b || Less(a, b) || Less(b, a)
    ensures !(Less(a, b) && Less(b, a))
  {
    MemberLessIrreflexive(a.member);
    MemberLessTotal(a.member, b.member);
    if MemberLess(a.member, b.member) && MemberLess(b.member, c.member) {
      MemberLessTransitive(a.member, b.member, c.member);
    }
    if MemberLess(a.member, b.member) && MemberLess(b.member, a.member) {
      MemberLessTransitive(a.member, b.member, a.member);
    }
  }

  /** The member order goes by the first byte in which two members differ; a proper prefix is less. */
  lemma {:induction false} MemberLessIff(a: Member, b: Member)
    ensures MemberLess(a, b) <==> exists k: nat :: k <= |a| && k < |b| && a[..k] == b[..k] && (k == |a| || a[k] < b[k])
  {
    if b == [] {
    } else if a == [] || a[0] != b[0] {
      assert a[..0] == b[..0];
      forall k: nat | 0 < k <= |a| && k < |b| ensures a[..k] != b[..k] {
        assert a[..k][0] != b[..k][0];
      }
    } else {
      MemberLessIff(a[1..], b[1..]);
      if k: nat :| k <= |a| && k < |b| && a[..k] == b[..k] && (k == |a| || a[k] < b[k]) {
        assert a[1..][..k - 1] == a[..k][1..] == b[..k][1..] == b[1..][..k - 1];
      }
      if k: nat :| k <= |a[1..]| && k < |b[1..]| && a[1..][..k] == b[1..][..k] && (k == |a[1..]| || a[1..][k] < b[1..][k]) {
        assert a[..k + 1] == [a[0]] + a[1..][..k] && b[..k + 1] == [b[0]] + b[1..][..k];
      }
    }
  }

  /** What the order means: the smaller number first, between the two infinities, NaN after everything;
      for equal scores the member smaller at the first byte that differs, or a proper prefix. */
  lemma LessIff(a: ScoreKey, b: ScoreKey)
    ensures Less(a, b) <==>
      if a.score == b.score then
        exists k: nat :: && k <= |a.member| && k < |b.member| && a.member[..k] == b.member[..k]
                         && (k == |a.member| || a.member[k] < b.member[k])
      else
        || b.score.NaN? || a.score.NegInf? || (a.score.Finite? && b.score.PosInf?)
        || (a.score.Finite? && b.score.Finite? && a.score.value < b.score.value)
  {
    MemberLessIff(a.member, b.member);
  }

  ghost predicate Sorted(keys: seq<ScoreKey>) {
    forall i, j :: 0 <= i < j < |keys| ==> Less(keys[i], keys[j])
  }

  /** Number of leading keys below `key`. */
  ghost function Position(keys: seq<ScoreKey>, key: ScoreKey): (p: nat)
    ensures p <= |keys|
  {
    if keys == [] || !Less(keys[0], key) then 0 else 1 + Position(keys[1..], key)
  }

  /** In a sorted sequence `Position` splits the keys at `key`. */
  lemma {:induction false} PositionSplits(keys: seq<ScoreKey>, key: ScoreKey)
    requires Sorted(keys)
    ensures forall j :: 0 <= j < Position(keys, key) ==> Less(keys[j], key)
    ensures forall j :: Position(keys, key) <= j < |keys| ==> !Less(keys[j], key)
  {
    if keys == [] {
    } else if Less(keys[0], key) {
      PositionSplits(keys[1..], key);
      forall j | 0 <= j < |keys|
        ensures j < Position(keys, key) ==> Less(keys[j], key)
        ensures j >= Position(keys, key) ==> !Less(keys[j], key)
      {
        if j > 0 { assert keys[j] == keys[1..][j - 1]; }
      }
    } else {
      forall j | 0 <= j < |keys| ensures !Less(keys[j], key) {
        if j > 0 { LessIsStrictTotalOrder(keys[0], keys[j], key); }
      }
    }
  }

  /** A key is present in a sorted sequence exactly when it sits at its own position. */
  lemma PositionFinds(keys: seq<ScoreKey>, key: ScoreKey)
    requires Sorted(keys)
    ensures key in keys <==> Position(keys, key) < |keys| && keys[Position(keys, key)] == key
    ensures forall j :: 0 <= j < |keys| && keys[j] == key ==> j == Position(keys, key)
  {
    PositionSplits(keys, key);
    forall j | 0 <= j < |keys| && keys[j] == key ensures j == Position(keys, key) {
      var p := Position(keys, key);
      if j > p {
        LessIsStrictTotalOrder(keys[p], key, key);
      }
      LessIsStrictTotalOrder(key, key, key);
    }
  }

  ghost function Inserted(keys: seq<ScoreKey>, key: ScoreKey): seq<ScoreKey> {
    keys[..Position(keys, key)] + [key] + keys[Position(keys, key)..]
  }

  lemma InsertedSorted(keys: seq<ScoreKey>, key: ScoreKey)
    requires Sorted(keys) && key !in keys
    ensures Sorted(Inserted(keys, key))
    ensures multiset(Inserted(keys, key)) == multiset(keys) + multiset{key}
  {
    hide Less, Position;
    var p := Position(keys, key);
    PositionSplits(keys, key);
    forall j | p <= j < |keys| ensures Less(key, keys[j]) {
      LessIsStrictTotalOrder(key, keys[j], key);
    }
    SplicedSorted(keys, p, key);
    assert keys == keys[..p] + keys[p..];
  }

  lemma SplicedSorted(keys: seq<ScoreKey>, p: nat, key: ScoreKey)
    requires Sorted(keys) && p <= |keys|
    requires forall j :: 0 <= j < p ==> Less(keys[j], key)
    requires forall j :: p <= j < |keys| ==> Less(key, keys[j])
    ensures Sorted(keys[..p] + [key] + keys[p..])
  {
    hide Less;
  }

  ghost function Without(keys: seq<ScoreKey>, p: nat): seq<ScoreKey>
    requires p < |keys|
  {
    keys[..p] + keys[p + 1..]
  }

  /** The keys without `key`, if it was there. */
  ghost function Deleted(keys: seq<ScoreKey>, key: ScoreKey): seq<ScoreKey> {
    var p := Position(keys, key);
    if p < |keys| && keys[p] == key then Without(keys, p) else keys
  }

  lemma WithoutSorted(keys: seq<ScoreKey>, p: nat)
    requires Sorted(keys) && p < |keys|
    ensures Sorted(Without(keys, p)) && keys[p] !in Without(keys, p)
    ensures multiset(keys) == multiset(Without(keys, p)) + multiset{keys[p]}
  {
    assert keys == keys[..p] + [keys[p]] + keys[p + 1..];
    var out := Without(keys, p);
    forall j | 0 <= j < |out| ensures out[j] != keys[p] {
      var j' := if j < p then j else j + 1;
      assert out[j] == keys[j'];
      LessIsStrictTotalOrder(keys[p], keys[p], keys[p]);
    }
  }

  /** A strictly sorted sequence is determined by its elements. */
  lemma {:induction false} SortedIsUnique(a: seq<ScoreKey>, b: seq<ScoreKey>)
    requires Sorted(a) && Sorted(b)
    requires forall k :: k in a <==> k in b
    ensures a == b
  {
    assert |b| > 0 ==> b[0] in a;
    if a != [] {
      assert a[0] in a && a[0] in b;
      assert b[0] in b && b[0] in a;
      var i :| 0 <= i < |b| && b[i] == a[0];
      var j :| 0 <= j < |a| && a[j] == b[0];
      LessIsStrictTotalOrder(a[0], b[0], a[0]);
      assert a[0] == b[0];
      forall k ensures k in a[1..] <==> k in b[1..] {
        LessIsStrictTotalOrder(a[0], k, k);
        assert k in a <==> k == a[0] || k in a[1..];
        assert k in b <==> k == b[0] || k in b[1..];
        if k in a[1..] { var m :| 0 <= m < |a| - 1 && a[1..][m] == k; assert Less(a[0], a[m + 1]); }
        if k in b[1..] { var m :| 0 <= m < |b| - 1 && b[1..][m] == k; assert Less(b[0], b[m + 1]); }
      }
      SortedIsUnique(a[1..], b[1..]);
      assert a == [a[0]] + a[1..] && b == [b[0]] + b[1..];
    }
  }
}
