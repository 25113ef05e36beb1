/** What claiming and trimming in src/stream_type.rs do, read off the state before them. */
module StreamClaimSpecs {
  import opened Basics
  import opened StreamIds
  import opened ConsumerGroups
  import opened AutoClaimWalks
  import opened Streams
  import opened StreamAutoClaim
  import opened StreamSpecs

  // ----- XCLAIM ---------------------------------------------------------------------------------------------

  /** A pending entry may be claimed once it has been idle long enough, any other only by force. */
  predicate Takes(g: Group, id: Id, now: nat, minIdle: nat, force: bool) {
    if id in g.pending then minIdle == 0 || g.pending[id].time + minIdle <= now else force
  }

  /** The delivery count after a claim, from the one before it. */
  predicate Counts(before: nat, after: nat, retryCount: int, justId: bool) {
    if retryCount >= 0 then after == retryCount
    else if justId then after == (if before == 0 then 1 else before)
    else after == (if before < 0xffff_ffff_ffff_ffff then before + 1 else 0xffff_ffff_ffff_ffff)
  }

  function CountOf(g: Group, id: Id): nat {
    if id in g.pending then g.pending[id].count else 0
  }

  ghost predicate Unrepeated(ids: seq<Id>) {
    forall i, j :: 0 <= i < j < |ids| ==> ids[i] != ids[j]
  }

  ghost predicate Untouched(g: Group, g': Group, id: Id) {
    (id in g'.pending <==> id in g.pending) && (id in g.pending && id in g'.pending ==> g'.pending[id] == g.pending[id])
  }

  /** What becomes of one ID: out of the request or not claimable, nothing; no entry, dropped; otherwise it
      belongs to the claimer. */
  ghost predicate ClaimedId(g: Group, g': Group, live: set<Id>, c: Name, ids: seq<Id>, now: nat, opts: ClaimOpts, id: Id) {
    if id !in ids then Untouched(g, g', id)
    else if id !in live then id !in g'.pending
    else if !Takes(g, id, now, opts.minIdle, opts.force) then Untouched(g, g', id)
    else
      && id in g'.pending && g'.pending[id].consumer == c && g'.pending[id].time == opts.deliveryTime
      && (Unrepeated(ids) ==> Counts(CountOf(g, id), g'.pending[id].count, opts.retryCount, opts.justId))
  }

  ghost predicate ClaimSpec(g: Group, g': Group, live: set<Id>, c: Name, ids: seq<Id>, now: nat, opts: ClaimOpts, claimed: seq<Id>) {
    && g'.last == g.last
    && (forall id :: ClaimedId(g, g', live, c, ids, now, opts, id))
    && (forall id :: id in claimed <==> id in ids && id in live && Takes(g, id, now, opts.minIdle, opts.force))
    && (Unrepeated(ids) ==> InRequestOrder(claimed, ids))
    && g'.consumers.Keys == g.consumers.Keys + (if claimed == [] then {} else {c})
  }

  ghost predicate InRequestOrder(claimed: seq<Id>, ids: seq<Id>) {
    && Unrepeated(claimed)
    && forall i, j, p, q :: 0 <= i < |ids| && 0 <= j < |ids| && 0 <= p < q < |claimed| && ids[i] == claimed[p] && ids[j] == claimed[q] ==> i < j
  }

  lemma TakesIff(g: Group, id: Id, now: nat, opts: ClaimOpts)
    ensures Claimable(g, true, id, now, opts) <==> Takes(g, id, now, opts.minIdle, opts.force)
  {
  }

  /** One turn of the loop, for the ID of that turn and for any other. */
  lemma ClaimTurnOther(g: Group, live: bool, c: Name, id: Id, now: nat, opts: ClaimOpts, x: Id)
    requires x != id
    ensures Untouched(g, ClaimOne(g, live, c, id, now, opts), x)
  {
  }

  lemma ClaimTurnSame(g: Group, live: bool, c: Name, id: Id, now: nat, opts: ClaimOpts)
    ensures var g', takes := ClaimOne(g, live, c, id, now, opts), Takes(g, id, now, opts.minIdle, opts.force);
      && (!live ==> id !in g'.pending)
      && (live && !takes ==> g' == g)
      && (live && takes ==>
        && id in g'.pending && g'.pending[id].consumer == c && g'.pending[id].time == opts.deliveryTime
        && Counts(CountOf(g, id), g'.pending[id].count, opts.retryCount, opts.justId))
  {
  }

  lemma ClaimTurnConsumers(g: Group, live: bool, c: Name, id: Id, now: nat, opts: ClaimOpts)
    ensures var g' := ClaimOne(g, live, c, id, now, opts);
      && g'.last == g.last
      && g'.consumers.Keys == g.consumers.Keys + if live && Takes(g, id, now, opts.minIdle, opts.force) then {c} else {}
  {
  }

  lemma ClaimedIdNext(g: Group, g1: Group, live: set<Id>, c: Name, ids: seq<Id>, now: nat, opts: ClaimOpts, id: Id, x: Id)
    requires ClaimedId(g, g1, live, c, ids, now, opts, x)
    ensures ClaimedId(g, ClaimOne(g1, id in live, c, id, now, opts), live, c, ids + [id], now, opts, x)
  {
    hide ClaimOne, Counts;
    assert x in ids + [id] <==> x in ids || x == id;
    if Unrepeated(ids + [id]) { UnrepeatedFront(ids, id); }
    if x != id {
      ClaimTurnOther(g1, id in live, c, id, now, opts, x);
    } else {
      ClaimTurnSame(g1, id in live, c, id, now, opts);
    }
  }

  lemma UnrepeatedFront(ids: seq<Id>, id: Id)
    requires Unrepeated(ids + [id])
    ensures Unrepeated(ids) && id !in ids
  {
    var all := ids + [id];
    forall i, j | 0 <= i < j < |ids| ensures ids[i] != ids[j] { assert all[i] != all[j]; }
    forall i | 0 <= i < |ids| ensures ids[i] != id { assert all[i] != all[|ids|]; }
  }

  lemma StillTakes(g: Group, g1: Group, live: set<Id>, c: Name, ids: seq<Id>, now: nat, opts: ClaimOpts, id: Id)
    requires ClaimedId(g, g1, live, c, ids, now, opts, id) && id in live
    ensures Takes(g1, id, now, opts.minIdle, opts.force) ==> Takes(g, id, now, opts.minIdle, opts.force)
    ensures id !in ids ==> (Takes(g1, id, now, opts.minIdle, opts.force) <==> Takes(g, id, now, opts.minIdle, opts.force))
  {
  }

  lemma OrderNext(claimed: seq<Id>, ids: seq<Id>, id: Id)
    requires InRequestOrder(claimed, ids) && id !in ids && forall x :: x in claimed ==> x in ids
    ensures InRequestOrder(claimed, ids + [id]) && InRequestOrder(claimed + [id], ids + [id])
  {
    var claimed', ids' := claimed + [id], ids + [id];
    assert forall p :: 0 <= p < |claimed| ==> claimed[p] in claimed;
    forall i, j, p, q | 0 <= i < |ids'| && 0 <= j < |ids'| && 0 <= p < q < |claimed'| && ids'[i] == claimed'[p] && ids'[j] == claimed'[q]
      ensures i < j
    {
      assert claimed'[p] == claimed[p] && claimed[p] in ids;
    }
  }

  lemma ClaimNext(g: Group, g1: Group, live: set<Id>, c: Name, ids: seq<Id>, now: nat, opts: ClaimOpts, claimed: seq<Id>, id: Id)
    requires ClaimSpec(g, g1, live, c, ids, now, opts, claimed)
    ensures ClaimSpec(g, ClaimOne(g1, id in live, c, id, now, opts), live, c, ids + [id], now, opts,
                      claimed + if Claimable(g1, id in live, id, now, opts) then [id] else [])
  {
    hide ClaimOne, ClaimedId, Claimable, Unrepeated, InRequestOrder;
    var g', got := ClaimOne(g1, id in live, c, id, now, opts), Claimable(g1, id in live, id, now, opts);
    forall x ensures ClaimedId(g, g', live, c, ids + [id], now, opts, x) {
      ClaimedIdNext(g, g1, live, c, ids, now, opts, id, x);
    }
    ClaimTurnConsumers(g1, id in live, c, id, now, opts);
    GotIff(g, g1, live, c, ids, now, opts, id);
    var claimed' := claimed + if got then [id] else [];
    assert !got ==> claimed' == claimed;
    forall x ensures x in claimed' <==> x in ids + [id] && x in live && Takes(g, x, now, opts.minIdle, opts.force) {
      assert x in ids + [id] <==> x in ids || x == id;
      assert x in claimed' <==> x in claimed || (got && x == id);
    }
    if Unrepeated(ids + [id]) {
      UnrepeatedFront(ids, id);
      OrderNext(claimed, ids, id);
    }
  }

  lemma GotIff(g: Group, g1: Group, live: set<Id>, c: Name, ids: seq<Id>, now: nat, opts: ClaimOpts, id: Id)
    requires ClaimedId(g, g1, live, c, ids, now, opts, id)
    ensures var got := Claimable(g1, id in live, id, now, opts);
      && (got <==> id in live && Takes(g1, id, now, opts.minIdle, opts.force))
      && (got ==> Takes(g, id, now, opts.minIdle, opts.force))
      && (id !in ids && id in live && Takes(g, id, now, opts.minIdle, opts.force) ==> got)
  {
    hide ClaimedId, Takes;
    TakesIff(g1, id, now, opts);
    if id in live { StillTakes(g, g1, live, c, ids, now, opts, id); }
  }

  lemma NothingAsked(g: Group, live: set<Id>, c: Name, now: nat, opts: ClaimOpts)
    ensures ClaimSpec(g, g, live, c, [], now, opts, [])
  {
  }

  lemma {:induction false} ClaimMeets(g: Group, live: set<Id>, c: Name, ids: seq<Id>, now: nat, opts: ClaimOpts)
    ensures ClaimSpec(g, ClaimAll(g, live, c, ids, now, opts), live, c, ids, now, opts, ClaimedIds(g, live, c, ids, now, opts))
    decreases |ids|
  {
    hide ClaimSpec, ClaimOne, Claimable;
    if ids == [] {
      NothingAsked(g, live, c, now, opts);
    } else {
      var front, last := ids[..|ids| - 1], ids[|ids| - 1];
      assert ids == front + [last];
      ClaimMeets(g, live, c, front, now, opts);
      ClaimNext(g, ClaimAll(g, live, c, front, now, opts), live, c, front, now, opts, ClaimedIds(g, live, c, front, now, opts), last);
    }
  }

  // ----- XAUTOCLAIM -------------------------------------------------------------------------------------------

  /** The pending entries from an ID on that have been idle long enough. */
  ghost function Stale(g: Group, p: Scan, start: Id): set<Id> {
    set id | id in g.pending && !Less(id, start) && Takes(g, id, p.now, p.minIdle, false)
  }

  /** Exactly the listed entries belong to the scanning consumer, claimed now. */
  ghost predicate HandsOver(g: Group, g': Group, p: Scan, ids: seq<Id>) {
    && g'.last == g.last && g'.pending.Keys == g.pending.Keys
    && (forall id :: id in g.pending && id !in ids ==> g'.pending[id] == g.pending[id])
    && forall id :: id in g.pending && id in ids ==>
      && g'.pending[id].consumer == p.consumer && g'.pending[id].time == p.now
      && Counts(g.pending[id].count, g'.pending[id].count, -1, p.justId)
  }

  /** A call claims the lowest stale entries and answers with the pending ID to go on from, or zero. */
  ghost predicate AutoClaimSpec(g: Group, r: Result, p: Scan, start: Id) {
    && Answers(r.claimed, Stale(g, p, start), Some(p.count)) && r.deleted == [] && HandsOver(g, r.group, p, r.claimed)
    && if r.claimed == [] then r.next == Id(0, 0)
      else
        var last := r.claimed[|r.claimed| - 1];
        if exists id :: id in g.pending && Past(last, id)
        then r.next in g.pending && Past(last, r.next) && forall id :: id in g.pending && Past(last, id) ==> !Less(id, r.next)
        else r.next == Id(0, 0)
  }

  lemma StaleIsCandidate(g: Group, live: set<Id>, p: Scan, start: Id)
    requires g.pending.Keys <= live
    ensures Candidates(g, live, p, start) == Stale(g, p, start)
  {
  }

  lemma CursorMeets(g: Group, last: Id)
    ensures var next := CursorAfter(g, Some(last));
      if exists id :: id in g.pending && Past(last, id)
      then next in g.pending && Past(last, next) && forall id :: id in g.pending && Past(last, id) ==> !Less(id, next)
      else next == Id(0, 0)
  {
    hide Past, NextId;
    forall id ensures AtMost(NextId(last), id) <==> Past(last, id) { PastIff(last, id); }
    var ahead := From(g.pending.Keys, NextId(last));
    assert forall id :: id in ahead <==> id in g.pending && Past(last, id);
    if ahead != {} {
      assert Least(ahead) in ahead && forall x :: x in ahead ==> AtMost(Least(ahead), x);
    }
  }

  lemma HandedOver(g: Group, g': Group, p: Scan, ids: seq<Id>)
    requires ClaimedExactly(g, g', p, Elements(ids)) && g'.last == g.last
    ensures HandsOver(g, g', p, ids)
  {
  }

  lemma TakenAnswers(all: set<Id>, count: nat)
    requires count >= 1
    ensures Answers(Take(InOrder(all), count), all, Some(count))
  {
    hide InOrder, Ascending;
    InOrderSorts(all);
    LimitedAnswers(all, Some(count));
  }

  lemma AutoClaimMeets(g: Group, live: set<Id>, p: Scan, start: Id)
    requires p.count >= 1 && g.pending.Keys <= live
    ensures AutoClaimSpec(g, Claimed(g, live, p, start), p, start)
  {
    hide InOrder, Claimed, ClaimedExactly, CursorAfter, Candidates, Stale, Answers, HandsOver, Elements, Past, Less, Take;
    var r := Claimed(g, live, p, start);
    CallClaims(g, live, p, start);
    StaleIsCandidate(g, live, p, start);
    TakenAnswers(Stale(g, p, start), p.count);
    ClaimedKeepsCursor(g, live, p, start);
    HandedOver(g, r.group, p, r.claimed);
    if r.claimed != [] { CursorMeets(g, r.claimed[|r.claimed| - 1]); } else { NoCursor(g); }
  }

  lemma NoCursor(g: Group)
    ensures CursorAfter(g, None) == Id(0, 0)
  {
  }

  lemma ClaimedKeepsCursor(g: Group, live: set<Id>, p: Scan, start: Id)
    ensures Claimed(g, live, p, start).group.last == g.last
  {
    hide InOrder;
    WalkedCursor(Walk(g, [], [], None), live, p, InOrder(Candidates(g, live, p, start)));
  }

  /** A whole scan hands every stale entry from its start on over to the scanning consumer, once and in
      ascending order, and touches nothing else. */
  lemma ScanHandsOver(g: Group, live: set<Id>, p: Scan, start: Id)
    requires p.count >= 1 && g.pending.Keys <= live && CanFinish(g, p)
    ensures var r := ScanAll(g, live, p, start);
      && Answers(r.claimed, Stale(g, p, start), None) && r.next == Id(0, 0)
      && r.group.pending.Keys == g.pending.Keys
      && (forall id :: id in g.pending && id !in Stale(g, p, start) ==> r.group.pending[id] == g.pending[id])
      && forall id :: id in Stale(g, p, start) ==>
        && r.group.pending[id].consumer == p.consumer && r.group.pending[id].time == p.now
        && Counts(g.pending[id].count, r.group.pending[id].count, -1, p.justId)
  {
    hide InOrder, ScanAll, Candidates, Answers;
    ScanClaimsAll(g, live, p, start);
    StaleIsCandidate(g, live, p, start);
    LimitedAnswers(Stale(g, p, start), None);
  }

  // ----- trimming ------------------------------------------------------------------------------------------------

  /** The entry is gone everywhere; in a group that had it pending one consumer with something pending, if
      any, has been debited. */
  ghost predicate EvictSpec(s: State, s': State, id: Id) {
    && s'.entries == s.entries - {id} && s'.lastGenerated == s.lastGenerated && s'.groups.Keys == s.groups.Keys
    && forall n :: n in s.groups ==>
      if id in s.groups[n].pending then Dropped(s.groups[n], s'.groups[n], [id]) && OneDebit(s.groups[n], s'.groups[n])
      else s'.groups[n] == s.groups[n]
  }

  ghost predicate OneDebit(g: Group, g': Group) {
    if exists c :: c in g.consumers && g.consumers[c].pending > 0
    then exists c :: c in g.consumers && g.consumers[c].pending > 0 && Debits(g, g', c)
    else g'.consumers == g.consumers
  }

  ghost predicate Debits(g: Group, g': Group, c: Name)
    requires c in g.consumers
  {
    && g'.consumers.Keys == g.consumers.Keys && g'.consumers[c].pending == g.consumers[c].pending - 1
    && forall d :: d in g.consumers && d != c ==> g'.consumers[d] == g.consumers[d]
  }

  /** Some entries are gone, with what was pending of them, and nothing else but counters has changed. */
  ghost predicate TrimSpec(s: State, s': State) {
    && s'.entries.Keys <= s.entries.Keys && (forall id :: id in s'.entries ==> s'.entries[id] == s.entries[id])
    && s'.lastGenerated == s.lastGenerated && s'.groups.Keys == s.groups.Keys
    && forall n :: n in s.groups ==> Trimmed(s.groups[n], s'.groups[n], s'.entries.Keys)
  }

  ghost predicate Trimmed(g: Group, g': Group, live: set<Id>) {
    && g'.last == g.last && SameConsumers(g, g')
    && (forall id :: id in g'.pending <==> id in g.pending && id in live)
    && (forall id :: id in g'.pending ==> g'.pending[id] == g.pending[id])
  }

  lemma NothingTrimmed(s: State)
    requires Inv(s)
    ensures TrimSpec(s, s)
  {
    forall n | n in s.groups ensures Trimmed(s.groups[n], s.groups[n], s.entries.Keys) {
      assert GroupInv(s.entries, s.groups[n]);
    }
  }

  lemma TrimNext(s: State, s1: State, s2: State, id: Id)
    requires TrimSpec(s, s1) && EvictSpec(s1, s2, id)
    ensures TrimSpec(s, s2)
  {
    hide OneDebit;
    forall n | n in s.groups ensures Trimmed(s.groups[n], s2.groups[n], s2.entries.Keys) {
      TrimmedNext(s.groups[n], s1.groups[n], s2.groups[n], s1.entries.Keys, id);
    }
  }

  lemma TrimmedNext(g: Group, g1: Group, g2: Group, live: set<Id>, id: Id)
    requires Trimmed(g, g1, live) && if id in g1.pending then Dropped(g1, g2, [id]) else g2 == g1
    ensures Trimmed(g, g2, live - {id})
  {
  }

  lemma EvictMeets(s: State, id: Id, debits: map<Name, Name>)
    requires WalkDebits(s, id, debits)
    ensures EvictSpec(s, Evicted(s, id, debits), id)
  {
    var s' := Evicted(s, id, debits);
    forall n | n in s.groups && id in s.groups[n].pending
      ensures Dropped(s.groups[n], s'.groups[n], [id]) && OneDebit(s.groups[n], s'.groups[n])
    {
      EvictOneMeets(s.groups[n], id, Debited(debits, n));
    }
  }

  lemma EvictOneMeets(g: Group, id: Id, debited: Name)
    requires id in g.pending && (SomePends(g) ==> Pends(g, debited))
    ensures Dropped(g, EvictPending(g, id, debited), [id]) && OneDebit(g, EvictPending(g, id, debited))
  {
    var g' := EvictPending(g, id, debited);
    if SomePends(g) {
      assert Debits(g, g', debited);
    } else {
      assert g'.consumers == g.consumers;
      assert forall c :: c in g.consumers ==> !Pends(g, c);
    }
  }
}
