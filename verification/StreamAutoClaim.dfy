/** XAUTOCLAIM of src/stream_type.rs: one call, and following its cursor until it comes back to
    zero. */
module StreamAutoClaim {
  import opened Basics
  import opened StreamIds
  import opened ConsumerGroups
  import opened AutoClaimWalks
  import opened GroupSteps

  /** xautoclaim, as the code runs it. */
  method XAutoClaim(g: Group, live: set<Id>, p: Scan, start: Id) returns (r: Result)
    ensures r == Claimed(g, live, p, start)
  {
    var ids := InOrder(Candidates(g, live, p, start));
    var w := Walk(g, [], [], None);
    var i := 0;
    while i < |ids|
      invariant 0 <= i <= |ids|
      invariant Walked(w, live, p, ids[i..]) == Walked(Walk(g, [], [], None), live, p, ids)
    {
      var id := ids[i];
      assert ids[i..][0] == id && ids[i..][1..] == ids[i + 1..];
      if id !in live {
        var dropped, found := RemovePending(w.group, id);
        w := Walk(dropped, w.claimed, if found then w.deleted + [id] else w.deleted, Some(id));
        i := i + 1;
        continue;
      }
      if |w.claimed| >= p.count {
        w := w.(last := Some(id));
        break;
      }
      var group, got := ClaimTurn(w.group, true, p.consumer, id, p.now, Opts(p));
      w := Walk(group, if got then w.claimed + [id] else w.claimed, w.deleted, Some(id));
      if |w.claimed| >= p.count {
        break;
      }
      i := i + 1;
    }
    return Result(w.group, CursorAfter(w.group, w.last), w.claimed, w.deleted);
  }

  // ----- one call, when every pending entry is live --------------------------------------------------

  /** The entry a claim leaves behind. */
  function ClaimedEntry(e: PendingEntry, p: Scan): PendingEntry {
    PendingEntry(p.consumer, p.now, ClaimedCount(e.count, Opts(p)))
  }

  /** `g'` is `g` with exactly the listed entries claimed. */
  ghost predicate ClaimedExactly(g: Group, g': Group, p: Scan, ids: set<Id>) {
    && g'.pending.Keys == g.pending.Keys && ids <= g.pending.Keys
    && forall id :: id in g.pending ==>
      g'.pending[id] == if id in ids then ClaimedEntry(g.pending[id], p) else g.pending[id]
  }

  ghost function Elements(ids: seq<Id>): set<Id> {
    set id | id in ids
  }

  lemma ClaimStep(g: Group, g': Group, p: Scan, ids: set<Id>, id: Id)
    requires ClaimedExactly(g, g', p, ids) && id in g.pending && id !in ids
    requires Idle(p.now, g.pending[id].time) >= p.minIdle
    ensures Claimable(g', true, id, p.now, Opts(p))
    ensures ClaimedExactly(g, ClaimOne(g', true, p.consumer, id, p.now, Opts(p)), p, ids + {id})
  {
  }

  function Take(ids: seq<Id>, k: nat): seq<Id> {
    if k < |ids| then ids[..k] else ids
  }

  lemma TakeHead(claimed: seq<Id>, ids: seq<Id>, k: nat)
    requires ids != [] && k >= 1
    ensures claimed + Take(ids, k) == (claimed + [ids[0]]) + Take(ids[1..], k - 1)
    ensures k == 1 ==> claimed + Take(ids, k) == claimed + [ids[0]]
  {
  }

  lemma TakeNone(claimed: seq<Id>, k: nat)
    ensures claimed + Take([], k) == claimed
  {
  }

  lemma FreshHead(claimed: seq<Id>, ids: seq<Id>)
    requires ids != [] && Ascending(claimed + ids)
    ensures ids[0] !in Elements(claimed)
    ensures Elements(claimed + [ids[0]]) == Elements(claimed) + {ids[0]}
    ensures (claimed + [ids[0]]) + ids[1..] == claimed + ids
  {
    forall k | 0 <= k < |claimed| ensures claimed[k] != ids[0] {
      assert (claimed + ids)[k] == claimed[k] && (claimed + ids)[|claimed|] == ids[0];
    }
  }

  /** With every candidate live and a positive count, the loop claims the first candidates up to
      the count, and nothing else. */
  lemma {:induction false} WalkedClaims(g: Group, w: Walk, live: set<Id>, p: Scan, ids: seq<Id>)
    requires ClaimedExactly(g, w.group, p, Elements(w.claimed)) && w.deleted == [] && |w.claimed| < p.count
    requires w.last == if w.claimed == [] then None else Some(w.claimed[|w.claimed| - 1])
    requires Ascending(w.claimed + ids)
    requires forall id :: id in ids ==> id in live && id in g.pending && Idle(p.now, g.pending[id].time) >= p.minIdle
    ensures
      var w' := Walked(w, live, p, ids);
      && w'.claimed == w.claimed + Take(ids, p.count - |w.claimed|) && w'.deleted == []
      && w'.last == (if w'.claimed == [] then None else Some(w'.claimed[|w'.claimed| - 1]))
      && ClaimedExactly(g, w'.group, p, Elements(w'.claimed))
    decreases |ids|
  {
    hide ClaimedExactly, ClaimOne, Claimable, Ascending, Elements, Take;
    if ids == [] {
      TakeNone(w.claimed, p.count - |w.claimed|);
    } else {
      var id, rest := ids[0], ids[1..];
      assert id in ids;
      FreshHead(w.claimed, ids);
      ClaimStep(g, w.group, p, Elements(w.claimed), id);
      var claimed := w.claimed + [id];
      var w' := Walk(ClaimOne(w.group, true, p.consumer, id, p.now, Opts(p)), claimed, [], Some(id));
      TakeHead(w.claimed, ids, p.count - |w.claimed|);
      if |claimed| < p.count {
        WalkedClaims(g, w', live, p, rest);
      }
    }
  }

  /** One call claims the lowest candidates and moves the cursor past them. */
  lemma CallClaims(g: Group, live: set<Id>, p: Scan, start: Id)
    requires p.count >= 1 && g.pending.Keys <= live
    ensures
      var r, all := Claimed(g, live, p, start), InOrder(Candidates(g, live, p, start));
      && r.claimed == Take(all, p.count) <= all && (all != [] ==> r.claimed != []) && r.deleted == []
      && r.next == CursorAfter(g, if r.claimed == [] then None else Some(r.claimed[|r.claimed| - 1]))
      && ClaimedExactly(g, r.group, p, Elements(r.claimed))
  {
    hide InOrder, Less, Ascending, ClaimedExactly, CursorAfter, ClaimOne, Walked, Elements;
    var all := InOrder(Candidates(g, live, p, start));
    InOrderSorts(Candidates(g, live, p, start));
    assert [] + all == all && forall k :: [] + Take(all, k) == Take(all, k);
    NothingClaimed(g, p);
    WalkedClaims(g, Walk(g, [], [], None), live, p, all);
    var r := Claimed(g, live, p, start);
    CursorByKeys(g, r.group, p, Elements(r.claimed), if r.claimed == [] then None else Some(r.claimed[|r.claimed| - 1]));
  }

  lemma NothingClaimed(g: Group, p: Scan)
    ensures ClaimedExactly(g, g, p, Elements([]))
  {
  }

  lemma CursorByKeys(g: Group, g': Group, p: Scan, ids: set<Id>, last: Option<Id>)
    requires ClaimedExactly(g, g', p, ids)
    ensures CursorAfter(g', last) == CursorAfter(g, last)
  {
  }

  // ----- following the cursor --------------------------------------------------------------------------

  /** A scan can get stuck only on the maximal ID, and only if it may be claimed again at once. */
  ghost predicate CanFinish(g: Group, p: Scan) {
    MAX !in g.pending || p.minIdle > 0
  }

  /** A prefix of a set in order holds exactly the elements up to its last one. */
  lemma PrefixSplits(all: set<Id>, claimed: seq<Id>)
    requires claimed != [] && claimed <= InOrder(all)
    ensures Elements(claimed) <= all && claimed[|claimed| - 1] in all
    ensures forall id :: id in all ==> (id in Elements(claimed) <==> AtMost(id, claimed[|claimed| - 1]))
  {
    var order, n := InOrder(all), |claimed|;
    InOrderSorts(all);
    forall id | id in all ensures id in Elements(claimed) <==> AtMost(id, claimed[n - 1]) {
      assert id in order;
      var k :| 0 <= k < |order| && order[k] == id;
      if k < n { assert claimed[k] == id; }
      assert claimed[n - 1] == order[n - 1];
    }
    forall id | id in Elements(claimed) ensures id in all {
      var k :| 0 <= k < n && claimed[k] == id;
      assert order[k] in order;
    }
    assert order[n - 1] in order;
  }

  /** The cursor is zero when nothing is pending after the last ID examined, and otherwise splits
      the pending IDs at that ID. */
  lemma CursorSplits(g: Group, last: Id)
    ensures CursorAfter(g, Some(last)) == ZERO ==> forall id :: id in g.pending ==> !Less(last, id)
    ensures CursorAfter(g, Some(last)) != ZERO ==> forall id :: id in g.pending ==>
      (AtMost(CursorAfter(g, Some(last)), id) <==> Less(last, id) || (last == MAX && id == MAX))
  {
    var ahead := From(g.pending.Keys, NextId(last));
    forall id | id in g.pending ensures id in ahead <==> Less(last, id) || (last == MAX && id == MAX) {
      NextIdIff(last, id);
    }
    if ahead != {} && Least(ahead) == ZERO {
      NextIdIff(last, ZERO);
    }
  }

  /** What a call leaves for the calls after it: exactly the candidates it did not claim. */
  lemma CallLeaves(g: Group, live: set<Id>, p: Scan, start: Id)
    requires p.count >= 1 && g.pending.Keys <= live && CanFinish(g, p)
    ensures
      var r, all := Claimed(g, live, p, start), Candidates(g, live, p, start);
      && Elements(r.claimed) <= all
      && (r.next == ZERO ==> Elements(r.claimed) == all)
      && (r.next != ZERO ==> Candidates(r.group, live, p, r.next) == all - Elements(r.claimed) && r.claimed != [])
  {
    hide Claimed, InOrder, Elements, Ascending, Take, CursorAfter;
    var r, all := Claimed(g, live, p, start), Candidates(g, live, p, start);
    CallClaims(g, live, p, start);
    InOrderSorts(all);
    if r.claimed == [] {
      NoElements();
      NoCursor(g);
    } else {
      PrefixSplits(all, r.claimed);
      CursorSplits(g, r.claimed[|r.claimed| - 1]);
      if r.next != ZERO {
        LeftAhead(g, r.group, live, p, start, Elements(r.claimed), r.claimed[|r.claimed| - 1], r.next);
      }
    }
  }

  lemma NoCursor(g: Group)
    ensures CursorAfter(g, None) == ZERO
  {
  }

  lemma NoElements()
    ensures Elements([]) == {}
  {
  }

  lemma LeftAhead(g: Group, g': Group, live: set<Id>, p: Scan, start: Id, claimed: set<Id>, last: Id, next: Id)
    requires ClaimedExactly(g, g', p, claimed) && g.pending.Keys <= live && CanFinish(g, p)
    requires last in Candidates(g, live, p, start)
    requires forall id :: id in Candidates(g, live, p, start) ==> (id in claimed <==> AtMost(id, last))
    requires claimed <= Candidates(g, live, p, start)
    requires forall id :: id in g.pending ==> (AtMost(next, id) <==> Less(last, id) || (last == MAX && id == MAX))
    ensures Candidates(g', live, p, next) == Candidates(g, live, p, start) - claimed
  {
    forall id | id in g.pending
      ensures id in Candidates(g', live, p, next) <==> id in Candidates(g, live, p, start) && id !in claimed
    {
      if id in claimed {
        assert Idle(p.now, g'.pending[id].time) == 0;
      }
    }
  }

  /** All that a scan needs to know about one of its calls. */
  lemma CallSummary(g: Group, live: set<Id>, p: Scan, start: Id)
    requires p.count >= 1 && g.pending.Keys <= live && CanFinish(g, p)
    ensures
      var r, all := Claimed(g, live, p, start), Candidates(g, live, p, start);
      && r.claimed <= InOrder(all) && r.deleted == []
      && ClaimedExactly(g, r.group, p, Elements(r.claimed))
      && r.group.pending.Keys <= live && CanFinish(r.group, p)
      && (r.next == ZERO ==> Elements(r.claimed) == all)
      && (r.next != ZERO ==>
        && Candidates(r.group, live, p, r.next) == all - Elements(r.claimed)
        && Elements(r.claimed) <= all
        && |Candidates(r.group, live, p, r.next)| < |all|)
  {
    hide Claimed, InOrder, Elements, Candidates;
    CallClaims(g, live, p, start);
    CallLeaves(g, live, p, start);
    var r, all := Claimed(g, live, p, start), Candidates(g, live, p, start);
    if r.next != ZERO { Fewer(all, r.claimed, Candidates(r.group, live, p, r.next)); }
  }

  /** Following the cursors of a whole scan. */
  ghost function ScanAll(g: Group, live: set<Id>, p: Scan, start: Id): Result
    requires p.count >= 1 && g.pending.Keys <= live && CanFinish(g, p)
    decreases |Candidates(g, live, p, start)|
  {
    CallSummary(g, live, p, start);
    var r := Claimed(g, live, p, start);
    if r.next == ZERO then r
    else
      var rest := ScanAll(r.group, live, p, r.next);
      Result(rest.group, rest.next, r.claimed + rest.claimed, r.deleted + rest.deleted)
  }

  lemma Fewer(all: set<Id>, claimed: seq<Id>, left: set<Id>)
    requires claimed != [] && Elements(claimed) <= all && left == all - Elements(claimed)
    ensures |left| < |all|
  {
    assert claimed[0] in Elements(claimed);
    assert left < all;
    assert |all - left| + |left| == |all|;
    assert claimed[0] in all - left;
  }

  lemma Chained(g: Group, g1: Group, g2: Group, p: Scan, a: set<Id>, b: set<Id>)
    requires ClaimedExactly(g, g1, p, a) && ClaimedExactly(g1, g2, p, b) && a !! b
    ensures ClaimedExactly(g, g2, p, a + b)
  {
  }

  /** Following the cursors from anywhere until zero comes back terminates, and claims every
      candidate exactly once, lowest first, leaving every other pending entry as it was. */
  lemma {:induction false} ScanClaimsAll(g: Group, live: set<Id>, p: Scan, start: Id)
    requires p.count >= 1 && g.pending.Keys <= live && CanFinish(g, p)
    ensures
      var r, all := ScanAll(g, live, p, start), Candidates(g, live, p, start);
      && r.claimed == InOrder(all) && r.deleted == [] && r.next == ZERO
      && ClaimedExactly(g, r.group, p, all)
    decreases |Candidates(g, live, p, start)|
  {
    hide Claimed, ClaimedExactly, Candidates, InOrder, Elements, CanFinish;
    var r, all := Claimed(g, live, p, start), Candidates(g, live, p, start);
    CallSummary(g, live, p, start);
    if r.next == ZERO {
      WholeOrder(all, r.claimed);
    } else {
      ScanClaimsAll(r.group, live, p, r.next);
      SplitOrder(all, r.claimed);
      Chained(g, r.group, ScanAll(r.group, live, p, r.next).group, p, Elements(r.claimed), all - Elements(r.claimed));
      assert Elements(r.claimed) + (all - Elements(r.claimed)) == all;
    }
  }

  lemma WholeOrder(all: set<Id>, claimed: seq<Id>)
    requires claimed <= InOrder(all) && Elements(claimed) == all
    ensures claimed == InOrder(all)
  {
    InOrderSorts(all);
    AscendingUnique(claimed, InOrder(all));
  }

  /** What is left after a prefix is walked in the same order. */
  lemma {:induction false} SplitOrder(all: set<Id>, front: seq<Id>)
    requires front <= InOrder(all)
    ensures front + InOrder(all - Elements(front)) == InOrder(all)
    decreases |front|
  {
    if front == [] {
      assert all - Elements(front) == all;
    } else {
      var m := Least(all);
      assert front[1..] <= InOrder(all - {m});
      SplitOrder(all - {m}, front[1..]);
      assert front == [m] + front[1..];
      assert (all - {m}) - Elements(front[1..]) == all - Elements(front);
    }
  }

  // ----- the scan that never ends ----------------------------------------------------------------------

  /** The cursor after `k` calls, starting from zero. */
  ghost function CursorAt(g: Group, live: set<Id>, p: Scan, k: nat): (Group, Id) {
    if k == 0 then (g, ZERO)
    else
      var (before, cursor) := CursorAt(g, live, p, k - 1);
      var r := Claimed(before, live, p, cursor);
      (r.group, r.next)
  }

  /** Outside that condition zero never comes back: the maximal ID is its own successor. */
  lemma {:induction false} StuckOnMax(g: Group, live: set<Id>, p: Scan, k: nat)
    requires p.count >= 1 && g.pending.Keys <= live && !CanFinish(g, p)
    ensures CursorAt(g, live, p, k).0.pending.Keys == g.pending.Keys
    ensures k > 0 ==> CursorAt(g, live, p, k).1 != ZERO
  {
    hide Claimed, InOrder, Take, Ascending;
    if k > 0 {
      StuckOnMax(g, live, p, k - 1);
      var (before, cursor) := CursorAt(g, live, p, k - 1);
      CallClaims(before, live, p, cursor);
      InOrderSorts(Candidates(before, live, p, cursor));
      assert MAX in Candidates(before, live, p, cursor);
      var r := Claimed(before, live, p, cursor);
      var last := r.claimed[|r.claimed| - 1];
      NextIdIff(last, MAX);
      assert MAX in From(before.pending.Keys, NextId(last));
      CursorSplits(before, last);
    }
  }
}
