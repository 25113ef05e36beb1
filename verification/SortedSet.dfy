/** `SortedSet` of src/sorted_set.rs: a span skiplist and a member map kept in step. */
module SortedSets {
  import opened Basics
  import opened ScoreOrder
  import opened SkipLists

  // ----- the plain sorted sequence that the structure refines -------------------------

  /** The member map and the sorted sequence hold the same pairs. */
  ghost predicate Agree(keys: seq<ScoreKey>, m: map<Member, Score>) {
    forall k :: k in keys <==> k.member in m && m[k.member] == k.score
  }

  ghost function RemoveMember(keys: seq<ScoreKey>, member: Member): seq<ScoreKey> {
    if keys == [] then []
    else if keys[0].member == member then RemoveMember(keys[1..], member)
    else [keys[0]] + RemoveMember(keys[1..], member)
  }

  ghost function Reversed(keys: seq<ScoreKey>): (r: seq<ScoreKey>)
    ensures |r| == |keys| && forall i :: 0 <= i < |r| ==> r[i] == keys[|keys| - 1 - i]
  {
    if keys == [] then [] else Reversed(keys[1..]) + [keys[0]]
  }

  /** A negative index counts from the end and stops at 0. */
  function Normalised(i: int, len: nat): nat {
    if i >= 0 then i else if len + i >= 0 then len + i else 0
  }

  /** The half-open rank interval that a [start, stop] pair selects. */
  function Interval(start: int, stop: int, len: nat): (r: (nat, nat))
    ensures r.0 <= r.1 <= len
  {
    var a, b := Normalised(start, len), Normalised(stop, len);
    if len == 0 || a > b || a >= len then (0, 0) else (a, Min(b, len - 1) + 1)
  }

  /** Which ranks a pair selects: negative bounds count from the end, and a stop before the first
      element counts as the first. */
  lemma IntervalIff(start: int, stop: int, len: nat, r: nat)
    requires r < len
    ensures var (a, b) := Interval(start, stop, len);
      a <= r < b <==>
      && (if start < 0 then len + start <= r else start <= r)
      && (if stop < 0 then r <= len + stop || r == 0 else r <= stop)
  {
  }

  datatype Op =
    | Add(member: Member, score: Score, height: nat)
    | Remove(member: Member)
    | PopMin(count: nat)
    | PopMax(count: nat)
    | RemoveRangeByRank(start: int, stop: int)

  /** What each operation does to the plain sorted sequence. No height occurs in it. */
  ghost function Apply(keys: seq<ScoreKey>, op: Op): seq<ScoreKey> {
    match op
    case Add(member, score, _) => Inserted(RemoveMember(keys, member), ScoreKey(score, member))
    case Remove(member) => RemoveMember(keys, member)
    case PopMin(count) => keys[Min(count, |keys|)..]
    case PopMax(count) => keys[..|keys| - Min(count, |keys|)]
    case RemoveRangeByRank(start, stop) =>
      var (a, b) := Interval(start, stop, |keys|);
      keys[..a] + keys[b..]
  }

  ghost function ApplyAll(keys: seq<ScoreKey>, ops: seq<Op>): seq<ScoreKey> {
    if ops == [] then keys else Apply(ApplyAll(keys, ops[..|ops| - 1]), ops[|ops| - 1])
  }

  // ----- lemmas about the sequence ----------------------------------------------------

  lemma {:induction false} RemoveMemberKeeps(keys: seq<ScoreKey>, member: Member)
    ensures forall k :: k in RemoveMember(keys, member) <==> k in keys && k.member != member
    ensures Sorted(keys) ==> Sorted(RemoveMember(keys, member))
  {
    if keys != [] {
      RemoveMemberKeeps(keys[1..], member);
      assert keys == [keys[0]] + keys[1..];
      if Sorted(keys) && keys[0].member != member {
        var rest := RemoveMember(keys[1..], member);
        forall j | 0 <= j < |rest| ensures Less(keys[0], rest[j]) {
          assert rest[j] in keys[1..];
        }
      }
    }
  }

  /** Deleting a member's own key and dropping the member are the same thing. */
  lemma DeletedIsRemoveMember(keys: seq<ScoreKey>, m: map<Member, Score>, member: Member)
    requires Sorted(keys) && Agree(keys, m) && member in m
    ensures ScoreKey(m[member], member) in keys
    ensures Deleted(keys, ScoreKey(m[member], member)) == RemoveMember(keys, member)
  {
    var key := ScoreKey(m[member], member);
    assert key in keys;
    PositionFinds(keys, key);
    var p := Position(keys, key);
    WithoutSorted(keys, p);
    RemoveMemberKeeps(keys, member);
    var out := Without(keys, p);
    forall k ensures k in out <==> k in RemoveMember(keys, member) {
      assert k in multiset(keys) <==> k in multiset(out) + multiset{key};
    }
    SortedIsUnique(out, RemoveMember(keys, member));
  }

  lemma AbsentMember(keys: seq<ScoreKey>, m: map<Member, Score>, member: Member)
    requires Sorted(keys) && Agree(keys, m) && member !in m
    ensures RemoveMember(keys, member) == keys
  {
    RemoveMemberKeeps(keys, member);
    SortedIsUnique(RemoveMember(keys, member), keys);
  }

  lemma AgreeWithout(keys: seq<ScoreKey>, m: map<Member, Score>, member: Member)
    requires Agree(keys, m)
    ensures Agree(RemoveMember(keys, member), m - {member})
  {
    RemoveMemberKeeps(keys, member);
  }

  lemma AgreeWith(keys: seq<ScoreKey>, m: map<Member, Score>, member: Member, score: Score)
    requires Sorted(keys) && Agree(keys, m) && member !in m
    ensures ScoreKey(score, member) !in keys
    ensures Agree(Inserted(keys, ScoreKey(score, member)), m[member := score])
  {
    var key := ScoreKey(score, member);
    InsertedSorted(keys, key);
    forall k ensures k in Inserted(keys, key) <==> k in keys || k == key {
      assert k in multiset(Inserted(keys, key)) <==> k in multiset(keys) + multiset{key};
    }
  }

  /** Re-adding a member with its own score changes nothing. */
  lemma ReinsertSame(keys: seq<ScoreKey>, m: map<Member, Score>, member: Member)
    requires Sorted(keys) && Agree(keys, m) && member in m
    ensures Inserted(RemoveMember(keys, member), ScoreKey(m[member], member)) == keys
  {
    hide Inserted, RemoveMember, Sorted, Less;
    var out := RemoveMember(keys, member);
    RemoveMemberKeeps(keys, member);
    AgreeWithout(keys, m, member);
    AgreeWith(out, m - {member}, member, m[member]);
    InsertedSorted(out, ScoreKey(m[member], member));
    assert (m - {member})[member := m[member]] == m;
    SortedIsUnique(Inserted(out, ScoreKey(m[member], member)), keys);
  }

  lemma EmptyAgrees(m: map<Member, Score>)
    requires Agree([], m)
    ensures m == map[]
  {
    assert forall member :: member in m ==> ScoreKey(m[member], member) in [];
  }

  lemma {:induction false} AgreeCounts(keys: seq<ScoreKey>, m: map<Member, Score>)
    requires Sorted(keys) && Agree(keys, m)
    ensures |keys| == |m|
  {
    if keys == [] {
      EmptyAgrees(m);
    } else {
      var k := keys[0];
      assert k in keys;
      assert keys == [k] + keys[1..];
      var m' := m - {k.member};
      forall x ensures x in keys[1..] <==> x.member in m' && m'[x.member] == x.score {
        LessIsStrictTotalOrder(k, k, k);
        assert x in keys <==> x == k || x in keys[1..];
      }
      AgreeCounts(keys[1..], m');
      assert m.Keys == m'.Keys + {k.member};
    }
  }

  lemma RemoveMemberAt(keys: seq<ScoreKey>, m: map<Member, Score>, i: nat)
    requires Sorted(keys) && Agree(keys, m) && i < |keys|
    ensures keys[i].member in m && m[keys[i].member] == keys[i].score
    ensures RemoveMember(keys, keys[i].member) == Without(keys, i)
  {
    assert keys[i] in keys;
    DeletedIsRemoveMember(keys, m, keys[i].member);
    PositionFinds(keys, keys[i]);
  }

  /** The sorted sequence is a function of the member map: neither the history nor the heights
      drawn can be observed through it. */
  lemma HistoryIndependent(keys1: seq<ScoreKey>, keys2: seq<ScoreKey>, m: map<Member, Score>)
    requires Sorted(keys1) && Sorted(keys2) && Agree(keys1, m) && Agree(keys2, m)
    ensures keys1 == keys2
  {
    SortedIsUnique(keys1, keys2);
  }

  /** The rank of a key is the number of pairs in the map that come before it. */
  lemma RankCounts(keys: seq<ScoreKey>, m: map<Member, Score>, i: nat)
    requires Sorted(keys) && Agree(keys, m) && i < |keys|
    ensures i == |set member | member in m && Less(ScoreKey(m[member], member), keys[i])|
  {
    hide Less;
    var below := set member | member in m && Less(ScoreKey(m[member], member), keys[i]);
    MembersCount(keys[..i], m);
    forall member ensures member in below <==> member in MembersOf(keys[..i]) {
      if member in below {
        assert ScoreKey(m[member], member) in keys;
        var j :| 0 <= j < |keys| && keys[j] == ScoreKey(m[member], member);
        LessIsStrictTotalOrder(keys[i], keys[j], keys[i]);
        assert j < i;
        assert keys[..i][j] == keys[j];
      }
      if member in MembersOf(keys[..i]) {
        var j :| 0 <= j < i && keys[..i][j].member == member;
        assert keys[j] in keys && Less(keys[j], keys[i]);
      }
    }
    assert below == MembersOf(keys[..i]);
  }

  lemma FiniteAscend(keys: seq<ScoreKey>)
    requires Sorted(keys)
    ensures forall i, j :: 0 <= i < j < |keys| && keys[i].score.Finite? && keys[j].score.Finite? ==>
      keys[i].score.value <= keys[j].score.value
  {
    forall i, j | 0 <= i < j < |keys| && keys[i].score.Finite? && keys[j].score.Finite?
      ensures keys[i].score.value <= keys[j].score.value
    {
      assert Less(keys[i], keys[j]);
      LessIff(keys[i], keys[j]);
    }
  }

  /** Numbers never go down, or up in reverse. */
  ghost predicate ByScore(out: seq<ScoreKey>, reverse: bool) {
    forall i, j :: 0 <= i < j < |out| && out[i].score.Finite? && out[j].score.Finite? ==>
      if reverse then out[i].score.value >= out[j].score.value else out[i].score.value <= out[j].score.value
  }

  lemma RangeByScore(keys: seq<ScoreKey>, start: int, stop: int, reverse: bool)
    requires Sorted(keys)
    ensures var (a, b) := Interval(start, stop, |keys|);
      ByScore(if reverse then Reversed(keys)[a..b] else keys[a..b], reverse)
    ensures ByScore([], reverse)
  {
    hide Less;
    FiniteAscend(keys);
  }

  ghost function MembersOf(keys: seq<ScoreKey>): set<Member> {
    set k | k in keys :: k.member
  }

  lemma {:induction false} MembersCount(keys: seq<ScoreKey>, m: map<Member, Score>)
    requires Sorted(keys) && forall k :: k in keys ==> k.member in m && m[k.member] == k.score
    ensures |MembersOf(keys)| == |keys|
  {
    hide Less;
    if keys != [] {
      var front, last := keys[..|keys| - 1], keys[|keys| - 1];
      assert keys == front + [last];
      MembersCount(front, m);
      assert MembersOf(keys) == MembersOf(front) + {last.member};
      if last.member in MembersOf(front) {
        var j :| 0 <= j < |front| && front[j].member == last.member;
        assert front[j] in keys && last in keys;
        assert Less(keys[j], keys[|keys| - 1]);
        LessIsStrictTotalOrder(last, last, last);
        assert false;
      }
    }
  }

  // ----- the structure -----------------------------------------------------------------

  lemma IntervalShrinks(keys: seq<ScoreKey>, a: nat, j: nat)
    requires a + j < |keys|
    ensures var left := keys[..a] + keys[a + j..];
      left[a] == keys[a + j] && left[..a] + left[a + 1..] == keys[..a] + keys[a + j + 1..]
  {
  }

  class SortedSet {
    const list: SkipList
    var memberMap: map<Member, Score>

    ghost predicate Valid()
      reads this, list
    {
      list.Valid() && Agree(list.keys, memberMap)
    }

    constructor ()
      ensures Valid() && fresh(list) && list.keys == [] && memberMap == map[]
    {
      list := new SkipList();
      memberMap := map[];
    }

    /** add: true exactly for a new member; an update moves the member to its new place. */
    method Add(member: Member, score: Score, height: nat) returns (added: bool)
      requires Valid() && 1 <= height <= MAX_LEVEL
      modifies this, list
      ensures Valid() && added == (member !in old(memberMap))
      ensures memberMap == old(memberMap)[member := score]
      ensures list.keys == Apply(old(list.keys), Op.Add(member, score, height))
    {
      hide Arena, Towers, Levels, Keyed, Sorted, Agree, Inserted, RemoveMember;
      RemoveMemberKeeps(list.keys, member);
      AgreeWithout(list.keys, memberMap, member);
      AgreeWith(RemoveMember(list.keys, member), memberMap - {member}, member, score);
      assert (memberMap - {member})[member := score] == memberMap[member := score];
      if member in memberMap {
        if memberMap[member] == score {
          ReinsertSame(list.keys, memberMap, member);
          return false;
        }
        DeletedIsRemoveMember(list.keys, memberMap, member);
        var _ := list.Remove(ScoreKey(memberMap[member], member));
        list.Insert(ScoreKey(score, member), height);
        memberMap := memberMap[member := score];
        return false;
      }
      AbsentMember(list.keys, memberMap, member);
      list.Insert(ScoreKey(score, member), height);
      memberMap := memberMap[member := score];
      return true;
    }

    method Remove(member: Member) returns (removed: bool)
      requires Valid()
      modifies this, list
      ensures Valid() && removed == (member in old(memberMap))
      ensures memberMap == old(memberMap) - {member}
      ensures list.keys == Apply(old(list.keys), Op.Remove(member))
    {
      AgreeWithout(list.keys, memberMap, member);
      if member in memberMap {
        DeletedIsRemoveMember(list.keys, memberMap, member);
        var score := memberMap[member];
        memberMap := memberMap - {member};
        var _ := list.Remove(ScoreKey(score, member));
        return true;
      }
      AbsentMember(list.keys, memberMap, member);
      return false;
    }

    function Len(): (n: nat)
      reads this, list
      requires Valid()
      ensures n == |list.keys|
    {
      AgreeCounts(list.keys, memberMap);
      |memberMap|
    }

    /** rank: the index of the member's pair in the sorted sequence. */
    method Rank(member: Member) returns (rank: Option<nat>)
      requires Valid()
      ensures rank.None? <==> member !in memberMap
      ensures rank.Some? ==> rank.value < |list.keys| && list.keys[rank.value] == ScoreKey(memberMap[member], member)
      ensures rank.Some? ==>
        rank.value == |set m | m in memberMap && Less(ScoreKey(memberMap[m], m), ScoreKey(memberMap[member], member))|
    {
      hide Arena, Towers, Levels, Keyed, Sorted, Less, Position;
      if member !in memberMap {
        return None;
      }
      assert ScoreKey(memberMap[member], member) in list.keys;
      rank := list.RankOf(ScoreKey(memberMap[member], member));
      RankCounts(list.keys, memberMap, rank.value);
    }

    /** rev_rank: the index in the mirrored sequence. */
    method RevRank(member: Member) returns (rank: Option<nat>)
      requires Valid()
      ensures rank.None? <==> member !in memberMap
      ensures rank.Some? ==> rank.value < |list.keys| && Reversed(list.keys)[rank.value] == ScoreKey(memberMap[member], member)
    {
      rank := Rank(member);
      if rank.Some? {
        rank := Some(Len() - 1 - rank.value);
      }
    }

    /** range: the selected interval of the sorted sequence, or of its mirror image. */
    method Range(start: int, stop: int, reverse: bool) returns (out: seq<ScoreKey>)
      requires Valid()
      ensures var (a, b) := Interval(start, stop, |list.keys|);
        out == if reverse then Reversed(list.keys)[a..b] else list.keys[a..b]
      ensures ByScore(out, reverse)
    {
      hide Arena, Towers, Levels, Keyed, Sorted, Agree, Reversed, ByScore, Interval;
      out := Collect(start, stop, reverse);
      RangeByScore(list.keys, start, stop, reverse);
    }

    /** range_forward and range_reverse, behind the normalising of the bounds. */
    method Collect(start: int, stop: int, reverse: bool) returns (out: seq<ScoreKey>)
      requires Valid()
      ensures var (a, b) := Interval(start, stop, |list.keys|);
        out == if reverse then Reversed(list.keys)[a..b] else list.keys[a..b]
    {
      hide Arena, Towers, Levels, Keyed, Sorted, Agree, Reversed;
      var len := Len();
      out := [];
      if len == 0 {
        return;
      }
      var a, b := Normalised(start, len), Normalised(stop, len);
      if a > b || a >= len {
        return;
      }
      b := Min(b, len - 1);
      ghost var all := if reverse then Reversed(list.keys) else list.keys;
      for r := a to b + 1
        invariant out == all[a..r]
      {
        var key := list.GetByRank(if reverse then len - 1 - r else r);
        assert all[a..r + 1] == all[a..r] + [all[r]];
        if key.Some? {
          out := out + [key.value];
        }
      }
    }

    /** pop_min: the lowest pairs, lowest first, and they are gone. */
    method PopMin(count: nat) returns (out: seq<ScoreKey>)
      requires Valid()
      modifies this, list
      ensures Valid() && out == old(list.keys)[..Min(count, |old(list.keys)|)]
      ensures list.keys == Apply(old(list.keys), Op.PopMin(count))
    {
      hide Arena, Towers, Levels, Keyed, Sorted, Agree;
      ghost var keys0 := list.keys;
      var n := Min(count, Len());
      out := [];
      for j := 0 to n
        invariant Valid() && out == keys0[..j] && list.keys == keys0[j..]
      {
        var key := list.GetByRank(0);
        if key.None? {
          break;
        }
        RemoveMemberAt(list.keys, memberMap, 0);
        var _ := Remove(key.value.member);
        out := out + [key.value];
      }
    }

    /** pop_max: the highest pairs, highest first, and they are gone. */
    method PopMax(count: nat) returns (out: seq<ScoreKey>)
      requires Valid()
      modifies this, list
      ensures Valid() && out == Reversed(old(list.keys))[..Min(count, |old(list.keys)|)]
      ensures list.keys == Apply(old(list.keys), Op.PopMax(count))
    {
      hide Arena, Towers, Levels, Keyed, Sorted, Agree;
      ghost var keys0 := list.keys;
      var n := Min(count, Len());
      out := [];
      for j := 0 to n
        invariant Valid() && out == Reversed(keys0)[..j] && list.keys == keys0[..|keys0| - j]
      {
        var last := Len() - 1;
        var key := list.GetByRank(last);
        if key.None? {
          break;
        }
        RemoveMemberAt(list.keys, memberMap, last);
        var _ := Remove(key.value.member);
        out := out + [key.value];
      }
    }

    /** remove_range_by_rank: exactly the selected interval goes, and its size is returned. */
    method RemoveRangeByRank(start: int, stop: int) returns (count: nat)
      requires Valid()
      modifies this, list
      ensures Valid()
      ensures count == |old(list.keys)| - |list.keys|
      ensures list.keys == Apply(old(list.keys), Op.RemoveRangeByRank(start, stop))
    {
      hide Arena, Towers, Levels, Keyed, Sorted, Agree;
      ghost var keys0 := list.keys;
      ghost var (a, b) := Interval(start, stop, |keys0|);
      var doomed := Range(start, stop, false);
      count := 0;
      for j := 0 to |doomed|
        invariant Valid() && count == j && list.keys == keys0[..a] + keys0[a + j..]
      {
        RemoveMemberAt(list.keys, memberMap, a);
        IntervalShrinks(keys0, a, j);
        assert doomed[j] == list.keys[a];
        var removed := Remove(doomed[j].member);
        if removed {
          count := count + 1;
        }
      }
    }

    method Step(op: Op)
      requires Valid() && (op.Add? ==> 1 <= op.height <= MAX_LEVEL)
      modifies this, list
      ensures Valid() && list.keys == Apply(old(list.keys), op)
    {
      match op
      case Add(member, score, height) => var _ := Add(member, score, height);
      case Remove(member) => var _ := Remove(member);
      case PopMin(count) => var _ := PopMin(count);
      case PopMax(count) => var _ := PopMax(count);
      case RemoveRangeByRank(start, stop) => var _ := RemoveRangeByRank(start, stop);
    }

    /** Any run of operations, whatever heights it draws, leaves the map and the skiplist
        holding the same pairs, in the order the plain sorted sequence would have. */
    method Run(ops: seq<Op>)
      requires Valid()
      requires forall i :: 0 <= i < |ops| && ops[i].Add? ==> 1 <= ops[i].height <= MAX_LEVEL
      modifies this, list
      ensures Valid() && list.keys == ApplyAll(old(list.keys), ops)
    {
      for i := 0 to |ops|
        invariant Valid() && list.keys == ApplyAll(old(list.keys), ops[..i])
      {
        Step(ops[i]);
        assert ops[..i + 1][..i] == ops[..i];
      }
      assert ops[..|ops|] == ops;
    }
  }
}
