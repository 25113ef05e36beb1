/** What each operation of src/stream_type.rs answers and does, read off the state before it: without
    the functions that compute it. */
module StreamSpecs {
  import opened Basics
  import opened StreamIds
  import opened ConsumerGroups
  import opened AutoClaimWalks
  import opened Streams

  // ----- answers --------------------------------------------------------------------------------------------

  /** Past an ID, where the maximal one counts as past itself. */
  predicate Past(after: Id, id: Id) {
    || after.ms < id.ms || (after.ms == id.ms && after.sq < id.sq)
    || (after == id && id.ms == id.sq == 0xffff_ffff_ffff_ffff)
  }

  /** All of the IDs in ascending order, or the lowest of them up to a count; a count of zero asks for one. */
  ghost predicate Answers(out: seq<Id>, all: set<Id>, count: Option<nat>) {
    && Ascending(out)
    && (forall id :: id in out ==> id in all)
    && (forall a, b :: a in all && a !in out && b in out ==> Less(b, a))
    && |out| == if count.None? || |all| <= count.value then |all| else if count.value == 0 then 1 else count.value
  }

  ghost predicate OneGroup(s: State, s': State, n: Name) {
    && s'.entries == s.entries && s'.lastGenerated == s.lastGenerated
    && n in s.groups && n in s'.groups && s'.groups - {n} == s.groups - {n}
  }

  /** The consumer has been seen; nobody else has, and nobody has gone. */
  ghost predicate Seen(g: Group, g': Group, c: Name, now: nat) {
    && g'.consumers.Keys == g.consumers.Keys + {c}
    && forall d :: d in g'.consumers ==> g'.consumers[d].seen == if d == c then now else g.consumers[d].seen
  }

  ghost predicate SameConsumers(g: Group, g': Group) {
    && g'.consumers.Keys == g.consumers.Keys
    && forall d :: d in g.consumers ==> g'.consumers[d].seen == g.consumers[d].seen
  }

  // ----- entries --------------------------------------------------------------------------------------------

  ghost predicate AddSpec(s: State, s': State, given: Option<Id>, fields: Fields, now: U64, id: Option<Id>) {
    && (id.Some? <==> fields != [] && (given.Some? ==> given.value != Id(0, 0) && Less(s.lastGenerated, given.value)))
    && (id.None? ==> s' == s)
    && (id.Some? ==>
      && s' == State(s.entries[id.value := fields], id.value, s.groups)
      && (given.Some? ==> id == given)
      && (given.None? && now > s.lastGenerated.ms ==> id.value.ms == now && id.value.sq == 0)
      && (given.None? && now <= s.lastGenerated.ms ==>
        && id.value.ms == s.lastGenerated.ms
        && id.value.sq == s.lastGenerated.sq + if s.lastGenerated.sq == 0xffff_ffff_ffff_ffff then 0 else 1))
  }

  ghost predicate DeleteSpec(s: State, s': State, ids: seq<Id>) {
    && (forall id :: id in s'.entries <==> id in s.entries && id !in ids)
    && (forall id :: id in s'.entries ==> s'.entries[id] == s.entries[id])
    && s'.lastGenerated == s.lastGenerated && s'.groups.Keys == s.groups.Keys
    && forall n :: n in s.groups ==> Dropped(s.groups[n], s'.groups[n], ids)
  }

  /** The IDs are no longer pending, and that is all. */
  ghost predicate Dropped(g: Group, g': Group, ids: seq<Id>) {
    && g'.last == g.last && SameConsumers(g, g')
    && (forall id :: id in g'.pending <==> id in g.pending && id !in ids)
    && (forall id :: id in g'.pending ==> g'.pending[id] == g.pending[id])
  }

  /** The consumer is gone with everything that was pending for it. */
  ghost predicate LeavesWith(g: Group, g': Group, c: Name) {
    && g'.last == g.last && g'.consumers == g.consumers - {c}
    && (forall id :: id in g'.pending <==> id in g.pending && g.pending[id].consumer != c)
    && (forall id :: id in g'.pending ==> g'.pending[id] == g.pending[id])
  }

  // ----- reading --------------------------------------------------------------------------------------------

  ghost predicate ReadSpec(s: State, s': State, n: Name, c: Name, count: Option<nat>, now: nat, noack: bool, out: seq<Id>) {
    && OneGroup(s, s', n)
    && Answers(out, (set id | id in s.entries && Past(s.groups[n].last, id)), count)
    && Reads(s.groups[n], s'.groups[n], c, now, noack, out)
  }

  /** Unless asked not to, the group expects the reader to acknowledge what was delivered. */
  ghost predicate Reads(g: Group, g': Group, c: Name, now: nat, noack: bool, out: seq<Id>) {
    && g'.last == (if out == [] then g.last else out[|out| - 1])
    && Seen(g, g', c, now)
    && (forall id :: id in g'.pending <==> id in g.pending || (!noack && id in out))
    && forall id :: id in g'.pending ==>
      if !noack && id in out then g'.pending[id] == PendingEntry(c, now, 1 + if id in g.pending then g.pending[id].count else 0)
      else id in g.pending && g'.pending[id] == g.pending[id]
  }

  ghost predicate HistorySpec(s: State, s': State, n: Name, c: Name, after: Id, count: Option<nat>, now: nat, out: seq<Id>) {
    && OneGroup(s, s', n)
    && Answers(out, History(s, s.groups[n], c, after), count)
    && Rereads(s.groups[n], s'.groups[n], c, now, out)
  }

  /** The reader's own pending entries past an ID, as far as they still exist. */
  ghost function History(s: State, g: Group, c: Name, after: Id): set<Id> {
    set id | id in g.pending && g.pending[id].consumer == c && id in s.entries && Past(after, id)
  }

  ghost predicate Rereads(g: Group, g': Group, c: Name, now: nat, out: seq<Id>) {
    && g'.last == g.last && Seen(g, g', c, now) && g'.pending.Keys == g.pending.Keys
    && forall id :: id in g.pending ==>
      g'.pending[id] == if id in out then PendingEntry(g.pending[id].consumer, now, g.pending[id].count + 1) else g.pending[id]
  }

  lemma LimitedAnswers(all: set<Id>, count: Option<nat>)
    ensures Answers(Limited(InOrder(all), count), all, count)
  {
    hide InOrder, Less;
    InOrderSorts(all);
    var order, out := InOrder(all), Limited(InOrder(all), count);
    forall id | id in out ensures id in all { assert id in order; }
    forall a, b | a in all && a !in out && b in out ensures Less(b, a) {
      assert a in order;
      var i, j :| 0 <= i < |order| && order[i] == a && 0 <= j < |out| && out[j] == b;
      assert out[j] == order[j] && i >= |out|;
    }
  }

  lemma PastIff(after: Id, id: Id)
    ensures AtMost(NextId(after), id) <==> Past(after, id)
  {
  }

  /** What delivering does, before the reader has been counted. */
  ghost predicate Delivers(g: Group, g': Group, c: Name, now: nat, noack: bool, ids: seq<Id>) {
    && g'.last == (if ids == [] then g.last else ids[|ids| - 1]) && SameConsumers(g, g')
    && (forall id :: id in g'.pending <==> id in g.pending || (!noack && id in ids))
    && forall id :: id in g'.pending ==>
      if !noack && id in ids then g'.pending[id] == PendingEntry(c, now, 1 + if id in g.pending then g.pending[id].count else 0)
      else id in g.pending && g'.pending[id] == g.pending[id]
  }

  lemma DeliversOne(g: Group, g1: Group, c: Name, now: nat, noack: bool, ids: seq<Id>, id: Id)
    requires Delivers(g, g1, c, now, noack, ids) && id !in ids
    ensures Delivers(g, DeliverOne(g1, c, id, now, noack), c, now, noack, ids + [id])
  {
  }

  lemma LastIsNew(ids: seq<Id>)
    requires Ascending(ids) && ids != []
    ensures Ascending(ids[..|ids| - 1]) && ids[|ids| - 1] !in ids[..|ids| - 1]
    ensures ids == ids[..|ids| - 1] + [ids[|ids| - 1]]
  {
    var front, last := ids[..|ids| - 1], ids[|ids| - 1];
    forall i | 0 <= i < |front| ensures front[i] != last { assert Less(ids[i], ids[|ids| - 1]); }
  }

  lemma {:induction false} DeliveredAll(g: Group, c: Name, ids: seq<Id>, now: nat, noack: bool)
    requires Ascending(ids)
    ensures Delivers(g, DeliverAll(g, c, ids, now, noack), c, now, noack, ids)
  {
    hide Delivers, DeliverOne, Ascending;
    if ids == [] {
      assert Delivers(g, g, c, now, noack, []) by { NothingDelivered(g, c, now, noack); }
    } else {
      LastIsNew(ids);
      var front, last := ids[..|ids| - 1], ids[|ids| - 1];
      DeliveredAll(g, c, front, now, noack);
      DeliversOne(g, DeliverAll(g, c, front, now, noack), c, now, noack, front, last);
    }
  }

  lemma NothingDelivered(g: Group, c: Name, now: nat, noack: bool)
    ensures Delivers(g, g, c, now, noack, [])
  {
  }

  lemma ReadNewMeets(g: Group, c: Name, ids: seq<Id>, now: nat, noack: bool)
    requires Ascending(ids)
    ensures Reads(g, ReadNew(g, c, ids, now, noack), c, now, noack, ids)
  {
    hide DeliverAll, OwnedCount, Ascending;
    DeliveredAll(Ensure(g, c, now), c, ids, now, noack);
  }

  lemma NewIdsAnswer(s: State, g: Group, count: Option<nat>)
    ensures Answers(NewIds(s, g, count), (set id | id in s.entries && Past(g.last, id)), count)
    ensures Ascending(NewIds(s, g, count))
  {
    hide InOrder, Limited, Past, NextId, Less;
    var all := set id | id in s.entries && Past(g.last, id);
    forall id ensures AtMost(NextId(g.last), id) <==> Past(g.last, id) { PastIff(g.last, id); }
    assert From(s.entries.Keys, NextId(g.last)) == all;
    LimitedAnswers(all, count);
  }

  lemma ReadMeets(s: State, n: Name, c: Name, count: Option<nat>, now: nat, noack: bool)
    requires n in s.groups
    ensures ReadSpec(s, Next(s, ReadGroup(n, c, count, now, noack)), n, c, count, now, noack, NewIds(s, s.groups[n], count))
  {
    hide NewIds, ReadNew, Answers, Reads, Past, Ascending;
    NewIdsAnswer(s, s.groups[n], count);
    ReadNewMeets(s.groups[n], c, NewIds(s, s.groups[n], count), now, noack);
  }

  ghost predicate Touches(g: Group, g': Group, now: nat, ids: seq<Id>) {
    && g'.last == g.last && g'.consumers == g.consumers && g'.pending.Keys == g.pending.Keys
    && forall id :: id in g.pending ==>
      g'.pending[id] == if id in ids then PendingEntry(g.pending[id].consumer, now, g.pending[id].count + 1) else g.pending[id]
  }

  lemma {:induction false} TouchedAll(g: Group, ids: seq<Id>, now: nat)
    requires Ascending(ids)
    ensures Touches(g, TouchAll(g, ids, now), now, ids)
  {
    hide Ascending;
    if ids != [] {
      LastIsNew(ids);
      TouchedAll(g, ids[..|ids| - 1], now);
    }
  }

  lemma HistoryIdsAnswer(s: State, g: Group, c: Name, after: Id, count: Option<nat>)
    ensures Answers(HistoryIds(s, g, c, after, count), History(s, g, c, after), count)
    ensures Ascending(HistoryIds(s, g, c, after, count))
  {
    hide InOrder, Limited, Past, NextId, Less;
    forall id ensures AtMost(NextId(after), id) <==> Past(after, id) { PastIff(after, id); }
    assert (set id | id in g.pending && AtMost(NextId(after), id) && g.pending[id].consumer == c && id in s.entries)
        == History(s, g, c, after);
    LimitedAnswers(History(s, g, c, after), count);
  }

  lemma RereadMeets(g: Group, c: Name, ids: seq<Id>, now: nat)
    requires Ascending(ids)
    ensures Rereads(g, TouchAll(Ensure(g, c, now), ids, now), c, now, ids)
  {
    hide TouchAll, Ascending;
    TouchedAll(Ensure(g, c, now), ids, now);
  }

  lemma HistoryMeets(s: State, n: Name, c: Name, after: Id, count: Option<nat>, now: nat)
    requires n in s.groups
    ensures HistorySpec(s, Next(s, ReadHistory(n, c, after, count, now)), n, c, after, count, now,
                        HistoryIds(s, s.groups[n], c, after, count))
  {
    hide HistoryIds, TouchAll, Ensure, Answers, Rereads, History, Ascending;
    HistoryIdsAnswer(s, s.groups[n], c, after, count);
    RereadMeets(s.groups[n], c, HistoryIds(s, s.groups[n], c, after, count), now);
  }

  // ----- deleting and acknowledging ---------------------------------------------------------------------------

  lemma DroppedOne(g: Group, g1: Group, ids: seq<Id>, id: Id)
    requires Dropped(g, g1, ids)
    ensures Dropped(g, DropPending(g1, id), ids + [id])
  {
  }

  lemma {:induction false} AckMeets(g: Group, ids: seq<Id>)
    ensures Dropped(g, AckAll(g, ids), ids)
  {
    hide Dropped, DropPending;
    if ids == [] {
      assert Dropped(g, g, []) by { NothingDropped(g); }
    } else {
      var front, last := ids[..|ids| - 1], ids[|ids| - 1];
      assert ids == front + [last];
      AckMeets(g, front);
      DroppedOne(g, AckAll(g, front), front, last);
    }
  }

  lemma NothingDropped(g: Group)
    ensures Dropped(g, g, [])
  {
  }

  lemma DeleteOneMeets(s: State, s1: State, ids: seq<Id>, id: Id)
    requires Inv(s) && DeleteSpec(s, s1, ids)
    ensures DeleteSpec(s, DeletedOne(s1, id), ids + [id])
  {
    hide DropPending, Dropped;
    var s' := DeletedOne(s1, id);
    forall n | n in s.groups ensures n in s'.groups && Dropped(s.groups[n], s'.groups[n], ids + [id]) {
      if id in s1.entries {
        DroppedOne(s.groups[n], s1.groups[n], ids, id);
      } else {
        NotPending(s, s1, n, ids, id);
      }
    }
  }

  /** What is no entry is not pending, so leaving the groups alone drops it too. */
  lemma NotPending(s: State, s1: State, n: Name, ids: seq<Id>, id: Id)
    requires Inv(s) && DeleteSpec(s, s1, ids) && n in s.groups && id !in s1.entries
    ensures Dropped(s.groups[n], s1.groups[n], ids + [id])
  {
    assert GroupInv(s.entries, s.groups[n]);
  }

  lemma {:induction false} DeleteMeets(s: State, ids: seq<Id>)
    requires Inv(s)
    ensures DeleteSpec(s, DeletedAll(s, ids), ids)
    decreases |ids|
  {
    hide Inv, DeleteSpec, DeletedOne;
    if ids == [] {
      assert DeleteSpec(s, s, []) by { NothingDeleted(s); }
    } else {
      var front, last := ids[..|ids| - 1], ids[|ids| - 1];
      assert ids == front + [last];
      DeleteMeets(s, front);
      DeleteOneMeets(s, DeletedAll(s, front), front, last);
    }
  }

  lemma NothingDeleted(s: State)
    ensures DeleteSpec(s, s, [])
  {
  }
}
