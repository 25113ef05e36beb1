/** The stream state machine of src/stream_type.rs: entries, IDs and consumer groups under every
    operation, with the clock and the choice of debited consumers as parameters. */
module Streams {
  import opened Basics
  import opened StreamIds
  import opened ConsumerGroups
  import opened AutoClaimWalks

  type Fields = seq<(Bytes, Bytes)>

  datatype State = State(entries: map<Id, Fields>, lastGenerated: Id, groups: map<Name, Group>)

  const EMPTY := State(map[], ZERO, map[])

  // ----- the operations -------------------------------------------------------------------------------

  /** next_auto_id. */
  function AutoId(last: Id, now: U64): Id {
    if now > last.ms then Id(now, 0)
    else Id(last.ms, if last.sq < MAX_U64 then last.sq + 1 else MAX_U64)
  }

  /** It is documented to be strictly greater than the last ID. That holds exactly when the clock
      has moved on or there is a sequence number left. */
  lemma AutoIdGrowsIff(last: Id, now: U64)
    ensures Less(last, AutoId(last, now)) <==> now > last.ms || last.sq < MAX_U64
  {
  }

  function Added(s: State, id: Id, fields: Fields): State {
    s.(entries := s.entries[id := fields], lastGenerated := id)
  }

  function DeletedOne(s: State, id: Id): State {
    if id !in s.entries then s
    else s.(entries := s.entries - {id}, groups := map n | n in s.groups :: DropPending(s.groups[n], id))
  }

  function DeletedAll(s: State, ids: seq<Id>): State {
    if ids == [] then s else DeletedOne(DeletedAll(s, ids[..|ids| - 1]), ids[|ids| - 1])
  }

  function Debited(debits: map<Name, Name>, n: Name): Name {
    if n in debits then debits[n] else []
  }

  /** remove_entry_and_pel, where `debits` names the consumer each group's walk came to first. */
  function Evicted(s: State, id: Id, debits: map<Name, Name>): State {
    s.(entries := s.entries - {id},
       groups := map n | n in s.groups :: EvictPending(s.groups[n], id, Debited(debits, n)))
  }

  function ClaimAll(g: Group, live: set<Id>, c: Name, ids: seq<Id>, now: nat, opts: ClaimOpts): Group {
    if ids == [] then g
    else
      var id := ids[|ids| - 1];
      ClaimOne(ClaimAll(g, live, c, ids[..|ids| - 1], now, opts), id in live, c, id, now, opts)
  }

  /** The IDs an XCLAIM reports, in request order. */
  function ClaimedIds(g: Group, live: set<Id>, c: Name, ids: seq<Id>, now: nat, opts: ClaimOpts): seq<Id> {
    if ids == [] then []
    else
      var front, id := ids[..|ids| - 1], ids[|ids| - 1];
      ClaimedIds(g, live, c, front, now, opts)
      + if Claimable(ClaimAll(g, live, c, front, now, opts), id in live, id, now, opts) then [id] else []
  }

  function AckAll(g: Group, ids: seq<Id>): Group {
    if ids == [] then g else DropPending(AckAll(g, ids[..|ids| - 1]), ids[|ids| - 1])
  }

  function TouchAll(g: Group, ids: seq<Id>, now: nat): Group {
    if ids == [] then g else TouchOne(TouchAll(g, ids[..|ids| - 1], now), ids[|ids| - 1], now)
  }

  /** A count of zero still yields one entry: the loop tests it only after taking one. */
  function Limited(ids: seq<Id>, count: Option<nat>): seq<Id> {
    if count.None? then ids
    else var n := if count.value == 0 then 1 else count.value; if |ids| <= n then ids else ids[..n]
  }

  /** The entries a `>` read delivers: those after the group's cursor, in order, up to the count. */
  function NewIds(s: State, g: Group, count: Option<nat>): seq<Id> {
    Limited(InOrder(From(s.entries.Keys, NextId(g.last))), count)
  }

  function ReadNew(g: Group, c: Name, ids: seq<Id>, now: nat, noack: bool): Group {
    var g' := DeliverAll(Ensure(g, c, now), c, ids, now, noack);
    if noack then g' else Recount(g', c)
  }

  /** The entries a history read returns: the reader's own pending ones after an ID. */
  function HistoryIds(s: State, g: Group, c: Name, after: Id, count: Option<nat>): seq<Id> {
    Limited(InOrder(set id | id in g.pending && AtMost(NextId(after), id)
                       && g.pending[id].consumer == c && id in s.entries), count)
  }

  datatype Op =
    | AddAuto(fields: Fields, now: U64)
    | AddExplicit(id: Id, fields: Fields)
    | Delete(ids: seq<Id>)
    | Evict(evicted: Id, debits: map<Name, Name>)
    | CreateGroup(group: Name, start: Id)
    | DestroyGroup(group: Name)
    | CreateConsumer(group: Name, consumer: Name, time: nat)
    | DeleteConsumer(group: Name, consumer: Name)
    | SetGroupId(group: Name, cursor: Id)
    | SetId(last: Id)
    | Claim(group: Name, consumer: Name, ids: seq<Id>, time: nat, opts: ClaimOpts)
    | ReadGroup(group: Name, consumer: Name, count: Option<nat>, time: nat, noack: bool)
    | ReadHistory(group: Name, consumer: Name, after: Id, count: Option<nat>, time: nat)
    | Ack(group: Name, ids: seq<Id>)
    | AutoClaim(group: Name, scan: Scan, from: Id)

  /** Whether the operation addresses an existing group, which all but a few need. */
  function OnGroup(s: State, op: Op): Option<Group> {
    match op
    case CreateConsumer(n, _, _) => if n in s.groups then Some(s.groups[n]) else None
    case DeleteConsumer(n, _) => if n in s.groups then Some(s.groups[n]) else None
    case SetGroupId(n, _) => if n in s.groups then Some(s.groups[n]) else None
    case Claim(n, _, _, _, _) => if n in s.groups then Some(s.groups[n]) else None
    case ReadGroup(n, _, _, _, _) => if n in s.groups then Some(s.groups[n]) else None
    case ReadHistory(n, _, _, _, _) => if n in s.groups then Some(s.groups[n]) else None
    case Ack(n, _) => if n in s.groups then Some(s.groups[n]) else None
    case AutoClaim(n, _, _) => if n in s.groups then Some(s.groups[n]) else None
    case _ => None
  }

  function WithGroup(s: State, n: Name, g: Group): State {
    s.(groups := s.groups[n := g])
  }

  /** The group an operation on one group leaves behind. */
  function GroupAfter(s: State, g: Group, op: Op): Group {
    match op
    case CreateConsumer(_, c, now) => AddConsumer(g, c, now)
    case DeleteConsumer(_, c) => RemoveConsumer(g, c)
    case SetGroupId(_, id) => g.(last := id)
    case Claim(_, c, ids, now, opts) => ClaimAll(g, s.entries.Keys, c, ids, now, opts)
    case ReadGroup(_, c, count, now, noack) => ReadNew(g, c, NewIds(s, g, count), now, noack)
    case ReadHistory(_, c, after, count, now) => TouchAll(Ensure(g, c, now), HistoryIds(s, g, c, after, count), now)
    case Ack(_, ids) => AckAll(g, ids)
    case AutoClaim(_, scan, from) => Claimed(g, s.entries.Keys, scan, from).group
    case _ => g
  }

  /** One operation; an operation that the code refuses leaves the state as it was. */
  function Next(s: State, op: Op): State {
    match op
    case AddAuto(fields, now) => if fields == [] then s else Added(s, AutoId(s.lastGenerated, now), fields)
    case AddExplicit(id, fields) =>
      if fields == [] || id == ZERO || AtMost(id, s.lastGenerated) then s else Added(s, id, fields)
    case Delete(ids) => DeletedAll(s, ids)
    case Evict(id, debits) => Evicted(s, id, debits)
    case CreateGroup(n, start) => if n in s.groups then s else WithGroup(s, n, Group(start, map[], map[]))
    case DestroyGroup(n) => s.(groups := s.groups - {n})
    case SetId(id) => if exists e :: e in s.entries && Less(id, e) then s else s.(lastGenerated := id)
    case _ => if OnGroup(s, op).None? then s else WithGroup(s, op.group, GroupAfter(s, OnGroup(s, op).value, op))
  }

  function Run(s: State, ops: seq<Op>): State
    decreases |ops|
  {
    if ops == [] then s else Next(Run(s, ops[..|ops| - 1]), ops[|ops| - 1])
  }

  lemma RunSnoc(s: State, ops: seq<Op>, op: Op)
    ensures Run(s, ops + [op]) == Next(Run(s, ops), op)
  {
    assert (ops + [op])[..|ops|] == ops;
  }

  // ----- what every operation keeps --------------------------------------------------------------------

  ghost predicate GroupInv(entries: map<Id, Fields>, g: Group) {
    Registered(g) && g.pending.Keys <= entries.Keys
  }

  /** No entry is above the last generated ID, every pending ID is a live entry, and every pending
      owner is a registered consumer. */
  ghost predicate Inv(s: State) {
    && (forall id :: id in s.entries ==> AtMost(id, s.lastGenerated))
    && (forall n :: n in s.groups ==> GroupInv(s.entries, s.groups[n]))
  }

  ghost predicate AllCounted(s: State) {
    forall n :: n in s.groups ==> Counted(s.groups[n])
  }

  lemma {:induction false} ClaimAllKeeps(entries: map<Id, Fields>, g: Group, c: Name, ids: seq<Id>, now: nat, opts: ClaimOpts)
    requires GroupInv(entries, g)
    ensures GroupInv(entries, ClaimAll(g, entries.Keys, c, ids, now, opts))
    ensures Counted(g) ==> Counted(ClaimAll(g, entries.Keys, c, ids, now, opts))
    decreases |ids|
  {
    if ids != [] {
      var id := ids[|ids| - 1];
      ClaimAllKeeps(entries, g, c, ids[..|ids| - 1], now, opts);
      ClaimOneCounts(ClaimAll(g, entries.Keys, c, ids[..|ids| - 1], now, opts), id in entries.Keys, c, id, now, opts);
    }
  }

  lemma {:induction false} AckAllKeeps(entries: map<Id, Fields>, g: Group, ids: seq<Id>)
    requires GroupInv(entries, g)
    ensures GroupInv(entries, AckAll(g, ids)) && (Counted(g) ==> Counted(AckAll(g, ids)))
  {
    if ids != [] {
      AckAllKeeps(entries, g, ids[..|ids| - 1]);
      DropPendingCounts(AckAll(g, ids[..|ids| - 1]), ids[|ids| - 1]);
    }
  }

  lemma {:induction false} TouchAllKeeps(entries: map<Id, Fields>, g: Group, ids: seq<Id>, now: nat)
    requires GroupInv(entries, g)
    ensures GroupInv(entries, TouchAll(g, ids, now)) && (Counted(g) ==> Counted(TouchAll(g, ids, now)))
    decreases |ids|
  {
    if ids != [] {
      TouchAllKeeps(entries, g, ids[..|ids| - 1], now);
      TouchOneCounts(TouchAll(g, ids[..|ids| - 1], now), ids[|ids| - 1], now);
    }
  }

  lemma {:induction false} DeliverAllPending(g: Group, c: Name, ids: seq<Id>, now: nat, noack: bool)
    ensures DeliverAll(g, c, ids, now, noack).pending.Keys
         == if noack then g.pending.Keys else g.pending.Keys + (set id | id in ids)
    ensures DeliverAll(g, c, ids, now, noack).last == if ids == [] then g.last else ids[|ids| - 1]
    decreases |ids|
  {
    if ids != [] {
      DeliverAllPending(g, c, ids[..|ids| - 1], now, noack);
      assert ids == ids[..|ids| - 1] + [ids[|ids| - 1]];
    }
  }

  lemma ReadNewKeeps(entries: map<Id, Fields>, g: Group, c: Name, ids: seq<Id>, now: nat, noack: bool)
    requires GroupInv(entries, g) && forall id :: id in ids ==> id in entries
    ensures GroupInv(entries, ReadNew(g, c, ids, now, noack))
    ensures Counted(g) ==> Counted(ReadNew(g, c, ids, now, noack))
    ensures ReadNew(g, c, ids, now, noack).last == if ids == [] then g.last else ids[|ids| - 1]
  {
    hide Counted, DeliverAll, CountedExcept;
    EnsureCounts(g, c, now);
    var g1 := Ensure(g, c, now);
    DeliverAllCounts(g1, c, ids, now, noack);
    DeliverAllPending(g1, c, ids, now, noack);
    RecountCounts(DeliverAll(g1, c, ids, now, noack), c);
    if Counted(g1) { CountedIsExcept(g1, c); }
  }

  lemma CountedIsExcept(g: Group, c: Name)
    requires Counted(g)
    ensures CountedExcept(g, c)
  {
  }

  lemma LimitedWithin(ids: seq<Id>, count: Option<nat>)
    ensures Limited(ids, count) <= ids
    ensures ids != [] ==> Limited(ids, count) != []
  {
  }

  lemma NewIdsLive(s: State, g: Group, count: Option<nat>)
    ensures forall id :: id in NewIds(s, g, count) ==> id in s.entries
  {
    var all := InOrder(From(s.entries.Keys, NextId(g.last)));
    InOrderSorts(From(s.entries.Keys, NextId(g.last)));
    LimitedWithin(all, count);
    forall id | id in NewIds(s, g, count) ensures id in s.entries {
      assert id in all;
    }
  }

  lemma GroupAfterKeeps(s: State, g: Group, op: Op)
    requires GroupInv(s.entries, g)
    ensures GroupInv(s.entries, GroupAfter(s, g, op))
    ensures Counted(g) ==> Counted(GroupAfter(s, g, op))
  {
    hide Counted, Registered, ReadNew, ClaimAll, AckAll, TouchAll, NewIds, HistoryIds, Walked, InOrder;
    match op
    case CreateConsumer(_, c, now) => AddConsumerKeeps(s.entries, g, c, now);
    case DeleteConsumer(_, c) => RemoveConsumerCounts(g, c);
    case SetGroupId(_, id) => CursorKeeps(g, id);
    case Claim(_, c, ids, now, opts) => ClaimAllKeeps(s.entries, g, c, ids, now, opts);
    case ReadGroup(_, c, count, now, noack) =>
      NewIdsLive(s, g, count);
      ReadNewKeeps(s.entries, g, c, NewIds(s, g, count), now, noack);
    case ReadHistory(_, c, after, count, now) =>
      EnsureCounts(g, c, now);
      TouchAllKeeps(s.entries, Ensure(g, c, now), HistoryIds(s, g, c, after, count), now);
    case Ack(_, ids) => AckAllKeeps(s.entries, g, ids);
    case AutoClaim(_, scan, from) =>
      WalkedKeeps(s.entries.Keys, Walk(g, [], [], None), scan, InOrder(Candidates(g, s.entries.Keys, scan, from)));
    case _ =>
  }

  lemma AddConsumerKeeps(entries: map<Id, Fields>, g: Group, c: Name, now: nat)
    requires GroupInv(entries, g)
    ensures GroupInv(entries, AddConsumer(g, c, now)) && (Counted(g) ==> Counted(AddConsumer(g, c, now)))
  {
    var g' := AddConsumer(g, c, now);
    assert c !in g.consumers ==> Owned(g, c) == {};
    forall d | CountsRight(g, d) ensures CountsRight(g', d) {
      assert Owned(g', d) == Owned(g, d);
    }
  }

  lemma CursorKeeps(g: Group, id: Id)
    ensures Registered(g) ==> Registered(g.(last := id))
    ensures Counted(g) ==> Counted(g.(last := id))
  {
    var g' := g.(last := id);
    forall d | CountsRight(g, d) ensures CountsRight(g', d) {
      assert Owned(g', d) == Owned(g, d);
    }
  }

  lemma {:induction false} DeletedAllKeeps(s: State, ids: seq<Id>)
    requires Inv(s)
    ensures Inv(DeletedAll(s, ids)) && (AllCounted(s) ==> AllCounted(DeletedAll(s, ids)))
    decreases |ids|
  {
    if ids != [] {
      DeletedAllKeeps(s, ids[..|ids| - 1]);
      var before, id := DeletedAll(s, ids[..|ids| - 1]), ids[|ids| - 1];
      forall n | n in before.groups
        ensures Registered(DropPending(before.groups[n], id))
        ensures Counted(before.groups[n]) ==> Counted(DropPending(before.groups[n], id))
      {
        DropPendingCounts(before.groups[n], id);
      }
    }
  }

  /** The debited consumer is the owner in every group in which the entry is pending. */
  ghost predicate DebitsOwners(s: State, id: Id, debits: map<Name, Name>) {
    forall n :: n in s.groups && id in s.groups[n].pending ==> Debited(debits, n) == s.groups[n].pending[id].consumer
  }

  ghost predicate CountSafe(s: State, op: Op) {
    op.Evict? ==> DebitsOwners(s, op.evicted, op.debits)
  }

  /** Every operation keeps the invariant, and keeps right counters right unless it is an eviction
      that debits somebody else. */
  lemma NextKeepsInv(s: State, op: Op)
    requires Inv(s)
    ensures Inv(Next(s, op))
    ensures AllCounted(s) ==> (AllCounted(Next(s, op)) <==> CountSafe(s, op))
  {
    hide Counted, Registered, GroupAfter, DeletedAll, Evicted, DebitsOwners;
    match op
    case AddAuto(fields, now) => if fields != [] { AddedKeeps(s, AutoId(s.lastGenerated, now), fields); }
    case AddExplicit(id, fields) => if Less(s.lastGenerated, id) { AddedKeeps(s, id, fields); }
    case Delete(ids) => DeletedAllKeeps(s, ids);
    case Evict(id, debits) =>
      EvictedKeeps(s, id, debits);
      if AllCounted(s) { EvictedCounts(s, id, debits); }
    case CreateGroup(n, start) => EmptyGroup(start);
    case DestroyGroup(n) =>
    case SetId(id) =>
    case _ => if OnGroup(s, op).Some? { GroupAfterKeeps(s, OnGroup(s, op).value, op); }
  }

  lemma EvictedCounts(s: State, id: Id, debits: map<Name, Name>)
    requires Inv(s) && AllCounted(s)
    ensures AllCounted(Evicted(s, id, debits)) <==> DebitsOwners(s, id, debits)
  {
    hide Counted, Registered, EvictPending;
    var s' := Evicted(s, id, debits);
    forall n | n in s.groups
      ensures Counted(s'.groups[n]) <==> id !in s.groups[n].pending || Debited(debits, n) == s.groups[n].pending[id].consumer
    {
      EvictCounts(s.groups[n], id, Debited(debits, n));
    }
    assert s'.groups.Keys == s.groups.Keys;
  }

  /** What the walk over the consumers guarantees: it debits somebody with something pending. */
  ghost predicate WalkDebits(s: State, id: Id, debits: map<Name, Name>) {
    forall n :: n in s.groups && id in s.groups[n].pending && SomePends(s.groups[n]) ==>
      Pends(s.groups[n], Debited(debits, n))
  }

  /** Evicting an entry keeps the counters right, in whatever order the consumers are walked, exactly
      when in every group that has it pending its owner is the only one with anything pending. */
  lemma EvictedCountsIff(s: State, id: Id)
    requires Inv(s) && AllCounted(s)
    ensures (forall debits :: WalkDebits(s, id, debits) ==> AllCounted(Evicted(s, id, debits)))
       <==> (forall n :: n in s.groups && id in s.groups[n].pending ==> OnlyOwnerPends(s.groups[n], id))
  {
    hide Inv, AllCounted, Evicted;
    forall debits ensures AllCounted(Evicted(s, id, debits)) <==> DebitsOwners(s, id, debits) {
      EvictedCounts(s, id, debits);
    }
    OwnersPend(s, id);
    if n :| n in s.groups && id in s.groups[n].pending && !OnlyOwnerPends(s.groups[n], id) {
      var c :| c in s.groups[n].consumers && c != s.groups[n].pending[id].consumer && s.groups[n].consumers[c].pending != 0;
      var debits := (map m | m in s.groups && id in s.groups[m].pending :: s.groups[m].pending[id].consumer)[n := c];
      assert WalkDebits(s, id, debits) && !DebitsOwners(s, id, debits);
    }
  }

  lemma OwnersPend(s: State, id: Id)
    requires Inv(s) && AllCounted(s)
    ensures forall n :: n in s.groups && id in s.groups[n].pending ==> Pends(s.groups[n], s.groups[n].pending[id].consumer)
  {
    forall n | n in s.groups && id in s.groups[n].pending
      ensures Pends(s.groups[n], s.groups[n].pending[id].consumer)
    {
      var g := s.groups[n];
      assert CountsRight(g, g.pending[id].consumer) && id in Owned(g, g.pending[id].consumer);
    }
  }

  lemma EmptyGroup(start: Id)
    ensures Registered(Group(start, map[], map[])) && Counted(Group(start, map[], map[]))
  {
  }

  lemma AddedKeeps(s: State, id: Id, fields: Fields)
    requires Inv(s) && AtMost(s.lastGenerated, id)
    ensures Inv(Added(s, id, fields)) && (AllCounted(s) ==> AllCounted(Added(s, id, fields)))
  {
  }

  lemma EvictedKeeps(s: State, id: Id, debits: map<Name, Name>)
    requires Inv(s)
    ensures Inv(Evicted(s, id, debits))
  {
  }

  ghost predicate CountedThroughout(ops: seq<Op>) {
    forall k :: 0 <= k <= |ops| ==> AllCounted(Run(EMPTY, ops[..k]))
  }

  ghost predicate SafeThroughout(ops: seq<Op>) {
    forall i :: 0 <= i < |ops| ==> CountSafe(Run(EMPTY, ops[..i]), ops[i])
  }

  lemma ThroughoutLast(ops: seq<Op>, op: Op)
    ensures CountedThroughout(ops + [op]) <==> CountedThroughout(ops) && AllCounted(Run(EMPTY, ops + [op]))
    ensures SafeThroughout(ops + [op]) <==> SafeThroughout(ops) && CountSafe(Run(EMPTY, ops), op)
    ensures CountedThroughout(ops) ==> AllCounted(Run(EMPTY, ops))
  {
    hide AllCounted, CountSafe, Run;
    var all := ops + [op];
    assert all[..|all|] == all && all[..|ops|] == ops && ops[..|ops|] == ops && all[|ops|] == op;
    assert forall k :: 0 <= k <= |ops| ==> all[..k] == ops[..k];
    assert forall i :: 0 <= i < |ops| ==> all[i] == ops[i];
  }

  /** Every run from an empty stream, trims and deletions included, keeps the invariant. The counters
      are right throughout exactly when every eviction debits the owners of what it evicts. */
  lemma {:induction false} RunKeepsInv(ops: seq<Op>)
    ensures Inv(Run(EMPTY, ops))
    ensures CountedThroughout(ops) <==> SafeThroughout(ops)
  {
    hide Inv, AllCounted, CountSafe, Next, CountedThroughout, SafeThroughout;
    if ops == [] {
      EmptyIsCounted();
    } else {
      var front, last := ops[..|ops| - 1], ops[|ops| - 1];
      assert front + [last] == ops;
      RunKeepsInv(front);
      NextKeepsInv(Run(EMPTY, front), last);
      ThroughoutLast(front, last);
    }
  }

  lemma EmptyIsCounted()
    ensures Inv(EMPTY) && CountedThroughout([]) && SafeThroughout([])
  {
  }
}
