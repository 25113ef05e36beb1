/** `RedisStream` of src/stream_type.rs as an object: every method is one step of the stream state
    machine. IDs arrive parsed, and the clock is a parameter. */
module RedisStreams {
  import opened Basics
  import opened StreamIds
  import opened ConsumerGroups
  import opened AutoClaimWalks
  import opened GroupSteps
  import opened Streams
  import opened StreamSpecs
  import opened StreamAutoClaim
  import opened StreamClaimSpecs
  import opened StreamSnapshots
  import R = RdbObjects

  /** The collecting loop of a range read, which tests the count only after taking an entry. */
  method Collect(ids: seq<Id>, count: Option<nat>) returns (out: seq<Id>)
    ensures out == Limited(ids, count)
  {
    out := [];
    for i := 0 to |ids|
      invariant out == ids[..i]
      invariant count.Some? ==> i == 0 || i < count.value
    {
      out := out + [ids[i]];
      if count.Some? && |out| >= count.value {
        return;
      }
    }
  }

  lemma HistoryNext(s: State, group: Name, c: Name, after: Id, count: Option<nat>, now: nat)
    ensures Next(s, ReadHistory(group, c, after, count, now)) ==
      if group !in s.groups then s
      else
        var g := s.groups[group];
        WithGroup(s, group, TouchAll(Ensure(g, c, now), HistoryIds(s, g, c, after, count), now))
  {
  }

  /** Drop one entry from every group's pending list, walking the groups in no particular order. */
  method DropFromGroups(groups: map<Name, Group>, id: Id) returns (out: map<Name, Group>)
    ensures out == map n | n in groups :: DropPending(groups[n], id)
  {
    hide DropPending;
    var rest := groups.Keys;
    out := groups;
    while rest != {}
      invariant rest <= groups.Keys == out.Keys
      invariant forall n :: n in groups ==> out[n] == if n in rest then groups[n] else DropPending(groups[n], id)
      decreases rest
    {
      var n :| n in rest;
      rest := rest - {n};
      var g, _ := RemovePending(groups[n], id);
      out := out[n := g];
    }
  }

  /** Evict one entry from every group's pending list; `debits` records who was debited. */
  method EvictFromGroups(groups: map<Name, Group>, id: Id) returns (out: map<Name, Group>, ghost debits: map<Name, Name>)
    ensures out == map n | n in groups :: EvictPending(groups[n], id, Debited(debits, n))
    ensures forall n :: n in groups && id in groups[n].pending && SomePends(groups[n]) ==>
      Pends(groups[n], Debited(debits, n))
  {
    hide EvictPending, SomePends, Pends;
    var rest := groups.Keys;
    out, debits := groups, map[];
    while rest != {}
      invariant rest <= groups.Keys == out.Keys && debits.Keys == groups.Keys - rest
      invariant forall n :: n in groups ==> out[n] == if n in rest then groups[n] else EvictPending(groups[n], id, debits[n])
      invariant forall n :: n in debits && id in groups[n].pending && SomePends(groups[n]) ==>
        Pends(groups[n], debits[n])
      decreases rest
    {
      var n :| n in rest;
      rest := rest - {n};
      var g, debited := EvictFrom(groups[n], id);
      out := out[n := g];
      debits := debits[n := debited];
    }
  }

  class RedisStream {
    var entries: map<Id, Fields>
    var lastGenerated: Id
    var groups: map<Name, Group>

    ghost function Abs(): State
      reads this
    {
      State(entries, lastGenerated, groups)
    }

    /** No entry above the last ID, every pending ID a live entry, every pending owner registered. */
    ghost predicate Valid()
      reads this
    {
      Inv(Abs())
    }

    /** Every consumer's counter is the number of entries pending for it. */
    ghost predicate Exact()
      reads this
    {
      AllCounted(Abs())
    }

    constructor ()
      ensures Abs() == EMPTY && Valid() && Exact()
    {
      entries, lastGenerated, groups := map[], ZERO, map[];
    }

    /** xadd; no ID given means `*`. */
    method XAdd(given: Option<Id>, fields: Fields, now: U64) returns (id: Option<Id>)
      requires Valid()
      modifies this
      ensures Valid() && (old(Exact()) ==> Exact())
      ensures Abs() == Next(old(Abs()), if given.None? then AddAuto(fields, now) else AddExplicit(given.value, fields))
      ensures AddSpec(old(Abs()), Abs(), given, fields, now, id)
    {
      hide Inv, AllCounted;
      NextKeepsInv(Abs(), if given.None? then AddAuto(fields, now) else AddExplicit(given.value, fields));
      if fields == [] {
        return None;
      }
      var next := AutoId(lastGenerated, now);
      if given.Some? {
        if given.value == ZERO || AtMost(given.value, lastGenerated) {
          return None;
        }
        next := given.value;
      }
      entries := entries[next := fields];
      lastGenerated := next;
      return Some(next);
    }

    /** xdel: returns how many entries went. */
    method XDel(ids: seq<Id>) returns (n: nat)
      requires Valid()
      modifies this
      ensures Valid() && (old(Exact()) ==> Exact())
      ensures Abs() == Next(old(Abs()), Delete(ids)) && n + |entries| == |old(entries)|
      ensures DeleteSpec(old(Abs()), Abs(), ids)
    {
      hide Inv, AllCounted, DropPending, DeleteSpec;
      NextKeepsInv(Abs(), Delete(ids));
      DeleteMeets(Abs(), ids);
      n := 0;
      for i := 0 to |ids|
        invariant Abs() == DeletedAll(old(Abs()), ids[..i]) && n + |entries| == |old(entries)|
      {
        assert ids[..i + 1][..i] == ids[..i];
        if ids[i] in entries {
          n := n + 1;
          entries := entries - {ids[i]};
          groups := DropFromGroups(groups, ids[i]);
        }
      }
      assert ids[..|ids|] == ids;
    }

    /** remove_entry_and_pel. The counters stay right exactly when the walk debits the owners. */
    method RemoveEntryAndPel(id: Id) returns (ghost debits: map<Name, Name>)
      requires Valid()
      modifies this
      ensures Valid() && (old(Exact()) ==> (Exact() <==> DebitsOwners(old(Abs()), id, debits)))
      ensures Abs() == Next(old(Abs()), Evict(id, debits)) && entries == old(entries) - {id}
      ensures WalkDebits(old(Abs()), id, debits) && EvictSpec(old(Abs()), Abs(), id)
    {
      hide Inv, AllCounted, EvictPending, DebitsOwners, EvictSpec;
      entries := entries - {id};
      groups, debits := EvictFromGroups(groups, id);
      NextKeepsInv(old(Abs()), Evict(id, debits));
      EvictMeets(old(Abs()), id, debits);
    }

    /** Evict the given entries one by one. */
    method EvictAll(ids: seq<Id>) returns (ghost ops: seq<Op>)
      requires Valid()
      modifies this
      ensures Valid()
      ensures Abs() == Run(old(Abs()), ops) && |ops| == |ids|
      ensures forall i :: 0 <= i < |ids| ==> ops[i].Evict? && ops[i].evicted == ids[i]
      ensures entries == old(entries) - Elements(ids) && TrimSpec(old(Abs()), Abs())
    {
      hide Next, Run, Elements, Inv, TrimSpec, EvictSpec, DebitsOwners, WalkDebits, AllCounted;
      NothingTrimmed(Abs());
      ops := [];
      EmptyRun(Abs());
      ElementsSnoc([], 0);
      for i := 0 to |ids|
        invariant Valid() && Abs() == Run(old(Abs()), ops) && |ops| == i && TrimSpec(old(Abs()), Abs())
        invariant forall k :: 0 <= k < i ==> ops[k].Evict? && ops[k].evicted == ids[k]
        invariant entries == old(entries) - Elements(ids[..i])
      {
        ghost var before := Abs();
        ghost var debits := RemoveEntryAndPel(ids[i]);
        TrimNext(old(Abs()), before, Abs(), ids[i]);
        RunSnoc(old(Abs()), ops, Evict(ids[i], debits));
        ops := ops + [Evict(ids[i], debits)];
        ElementsSnoc(ids, i);
      }
      assert ids[..|ids|] == ids;
    }

    /** trim_maxlen_limit: the lowest IDs go, down to `max` entries or up to the limit. */
    method TrimMaxlen(max: nat, limit: Option<nat>) returns (removed: nat, ghost ops: seq<Op>)
      requires Valid()
      modifies this
      ensures Valid()
      ensures Abs() == Run(old(Abs()), ops) && removed == |ops| && (forall i :: 0 <= i < |ops| ==> ops[i].Evict?)
      ensures removed == |old(entries)| - |entries|
      ensures var excess := if |old(entries)| <= max then 0 else |old(entries)| - max;
        removed == if limit.Some? then Min(limit.value, excess) else excess
      ensures forall a, b :: a in old(entries) && a !in entries && b in entries ==> Less(a, b)
      ensures TrimSpec(old(Abs()), Abs())
    {
      hide InOrder, Less, Ascending, Inv, Run, TrimSpec;
      NothingTrimmed(Abs());
      removed, ops := 0, [];
      EmptyRun(Abs());
      if |entries| <= max {
        return;
      }
      var excess := |entries| - max;
      if limit.Some? && limit.value < excess {
        excess := limit.value;
      }
      ghost var keys := entries.Keys;
      InOrderSorts(keys);
      var order := InOrder(entries.Keys);
      ops := EvictAll(order[..excess]);
      removed := excess;
      PrefixRemoved(keys, excess);
      assert entries.Keys == keys - Elements(order[..excess]);
    }

    /** trim_minid_limit: IDs below `minid` go, lowest first, up to the limit. */
    method TrimMinid(minid: Id, limit: Option<nat>) returns (removed: nat, ghost ops: seq<Op>)
      requires Valid()
      modifies this
      ensures Valid()
      ensures Abs() == Run(old(Abs()), ops) && removed == |ops| && (forall i :: 0 <= i < |ops| ==> ops[i].Evict?)
      ensures var below := set id | id in old(entries) && Less(id, minid);
        removed == if limit.Some? then Min(limit.value, |below|) else |below|
      ensures entries.Keys <= old(entries).Keys && removed == |old(entries)| - |entries|
      ensures forall id :: id in old(entries) && id !in entries ==> Less(id, minid)
      ensures forall a, b :: a in old(entries) && a !in entries && b in entries ==> Less(a, b)
      ensures TrimSpec(old(Abs()), Abs())
    {
      hide InOrder, Less, Ascending, Inv, Run, TrimSpec;
      ghost var keys := entries.Keys;
      var below := set id | id in entries && Less(id, minid);
      InOrderSorts(below);
      var ids := InOrder(below);
      if limit.Some? && |ids| > limit.value {
        ids := ids[..limit.value];
      }
      ops := EvictAll(ids);
      removed := |ids|;
      assert InOrder(below)[..removed] == ids;
      PrefixRemoved(below, removed);
      assert entries.Keys == keys - Elements(ids);
      SplitBelow(keys, below, Elements(ids), minid);
    }

    method GroupCreate(name: Name, start: Id) returns (created: bool)
      requires Valid()
      modifies this
      ensures Valid() && (old(Exact()) ==> Exact())
      ensures Abs() == Next(old(Abs()), CreateGroup(name, start)) && created == (name !in old(groups))
      ensures entries == old(entries) && lastGenerated == old(lastGenerated)
      ensures groups == if created then old(groups)[name := Group(start, map[], map[])] else old(groups)
    {
      hide Inv, AllCounted;
      NextKeepsInv(Abs(), CreateGroup(name, start));
      created := name !in groups;
      if created {
        groups := groups[name := Group(start, map[], map[])];
      }
    }

    method GroupDestroy(name: Name) returns (destroyed: bool)
      requires Valid()
      modifies this
      ensures Valid() && (old(Exact()) ==> Exact())
      ensures Abs() == Next(old(Abs()), DestroyGroup(name)) && destroyed == (name in old(groups))
      ensures entries == old(entries) && lastGenerated == old(lastGenerated) && groups == old(groups) - {name}
    {
      hide Inv, AllCounted;
      NextKeepsInv(Abs(), DestroyGroup(name));
      destroyed := name in groups;
      groups := groups - {name};
    }

    /** group_create_consumer: whether the consumer is new, or None for a missing group. */
    method GroupCreateConsumer(group: Name, c: Name, now: nat) returns (created: Option<bool>)
      requires Valid()
      modifies this
      ensures Valid() && (old(Exact()) ==> Exact())
      ensures Abs() == Next(old(Abs()), CreateConsumer(group, c, now))
      ensures created == if group in old(groups) then Some(c !in old(groups)[group].consumers) else None
      ensures created != Some(true) ==> unchanged(this)
      ensures created == Some(true) ==> OneGroup(old(Abs()), Abs(), group)
      ensures created == Some(true) ==>
        var g := old(groups)[group]; groups[group] == Group(g.last, g.consumers[c := Consumer(now, 0)], g.pending)
    {
      hide Inv, AllCounted;
      NextKeepsInv(Abs(), CreateConsumer(group, c, now));
      if group !in groups {
        return None;
      }
      var g := groups[group];
      created := Some(c !in g.consumers);
      assert groups[group := g] == groups;
      if c !in g.consumers {
        g := g.(consumers := g.consumers[c := Consumer(now, 0)]);
      }
      groups := groups[group := g];
    }

    /** group_setid: whether the group exists. */
    method GroupSetId(group: Name, id: Id) returns (done: bool)
      requires Valid()
      modifies this
      ensures Valid() && (old(Exact()) ==> Exact())
      ensures Abs() == Next(old(Abs()), SetGroupId(group, id)) && done == (group in old(groups))
      ensures !done ==> unchanged(this)
      ensures done ==> OneGroup(old(Abs()), Abs(), group)
      ensures done ==> var g := old(groups)[group]; groups[group] == Group(id, g.consumers, g.pending)
    {
      hide Inv, AllCounted;
      NextKeepsInv(Abs(), SetGroupId(group, id));
      done := group in groups;
      if done {
        groups := groups[group := groups[group].(last := id)];
      }
    }

    /** group_del_consumer: returns how many entries were pending for the consumer. */
    method GroupDelConsumer(group: Name, c: Name) returns (n: Option<nat>)
      requires Valid()
      modifies this
      ensures Valid() && (old(Exact()) ==> Exact())
      ensures Abs() == Next(old(Abs()), DeleteConsumer(group, c))
      ensures n.None? <==> group !in old(groups)
      ensures n.Some? ==> n.value == |Owned(old(groups)[group], c)|
      ensures n.None? ==> unchanged(this)
      ensures n.Some? ==> OneGroup(old(Abs()), Abs(), group) && LeavesWith(old(groups)[group], groups[group], c)
    {
      hide Inv, AllCounted;
      NextKeepsInv(Abs(), DeleteConsumer(group, c));
      if group !in groups {
        return None;
      }
      if c !in groups[group].consumers {
        UnknownOwnsNothing(old(Abs()), group, c);
        assert groups[group := groups[group]] == groups;
        return Some(0);
      }
      var g, count := RemoveWithPending(groups[group], c);
      groups := groups[group := g];
      return Some(count);
    }

    /** xsetid: refused below the highest entry. */
    method XSetId(id: Id) returns (done: bool)
      requires Valid()
      modifies this
      ensures Valid() && (old(Exact()) ==> Exact())
      ensures Abs() == Next(old(Abs()), SetId(id))
      ensures done <==> forall e :: e in entries ==> AtMost(e, id)
      ensures entries == old(entries) && groups == old(groups) && lastGenerated == if done then id else old(lastGenerated)
    {
      hide Inv, AllCounted;
      NextKeepsInv(Abs(), SetId(id));
      if exists e :: e in entries && Less(id, e) {
        return false;
      }
      lastGenerated := id;
      return true;
    }

    /** xclaim: the claimed IDs in request order, or None for a missing group. */
    method XClaim(group: Name, c: Name, ids: seq<Id>, now: nat, opts: ClaimOpts) returns (claimed: Option<seq<Id>>)
      requires Valid()
      modifies this
      ensures Valid() && (old(Exact()) ==> Exact())
      ensures Abs() == Next(old(Abs()), Claim(group, c, ids, now, opts))
      ensures claimed.None? <==> group !in old(groups)
      ensures claimed.None? ==> unchanged(this)
      ensures claimed.Some? ==> OneGroup(old(Abs()), Abs(), group)
      ensures claimed.Some? ==>
        ClaimSpec(old(groups)[group], groups[group], entries.Keys, c, ids, now, opts, claimed.value)
    {
      hide Inv, AllCounted, ClaimOne, Claimable, ClaimSpec;
      NextKeepsInv(Abs(), Claim(group, c, ids, now, opts));
      if group !in groups {
        return None;
      }
      var g, out := groups[group], [];
      for i := 0 to |ids|
        invariant unchanged(this) && g == ClaimAll(groups[group], entries.Keys, c, ids[..i], now, opts)
        invariant out == ClaimedIds(groups[group], entries.Keys, c, ids[..i], now, opts)
      {
        assert ids[..i + 1][..i] == ids[..i];
        var got;
        g, got := ClaimTurn(g, ids[i] in entries, c, ids[i], now, opts);
        if got {
          out := out + [ids[i]];
        }
      }
      assert ids[..|ids|] == ids;
      ClaimMeets(groups[group], entries.Keys, c, ids, now, opts);
      groups := groups[group := g];
      return Some(out);
    }

    /** xautoclaim. */
    method XAutoClaimFrom(group: Name, p: Scan, start: Id) returns (r: Option<Result>)
      requires Valid()
      modifies this
      ensures Valid() && (old(Exact()) ==> Exact())
      ensures Abs() == Next(old(Abs()), AutoClaim(group, p, start))
      ensures r == if group in old(groups) then Some(Claimed(old(groups)[group], old(entries).Keys, p, start)) else None
      ensures r.None? ==> unchanged(this)
      ensures r.Some? ==> OneGroup(old(Abs()), Abs(), group) && groups[group] == r.value.group
      ensures r.Some? && p.count >= 1 ==> AutoClaimSpec(old(groups)[group], r.value, p, start)
    {
      hide Inv, AllCounted, Claimed, AutoClaimSpec, GroupInv;
      if group in groups && p.count >= 1 {
        AutoClaimSound(Abs(), group, p, start);
      }
      NextKeepsInv(Abs(), AutoClaim(group, p, start));
      if group !in groups {
        return None;
      }
      var result := XAutoClaim(groups[group], entries.Keys, p, start);
      groups := groups[group := result.group];
      return Some(result);
    }

    /** xreadgroup_opts with `>`. */
    method XReadGroupNew(group: Name, c: Name, count: Option<nat>, now: nat, noack: bool) returns (out: Option<seq<Id>>)
      requires Valid()
      modifies this
      ensures Valid() && (old(Exact()) ==> Exact())
      ensures Abs() == Next(old(Abs()), ReadGroup(group, c, count, now, noack))
      ensures out == if group in old(groups) then Some(NewIds(old(Abs()), old(groups)[group], count)) else None
      ensures out.None? ==> unchanged(this)
      ensures out.Some? ==> ReadSpec(old(Abs()), Abs(), group, c, count, now, noack, out.value)
    {
      hide Inv, AllCounted, InOrder, From, DeliverOne, Ensure, Recount, Limited, ReadSpec;
      NextKeepsInv(Abs(), ReadGroup(group, c, count, now, noack));
      if group !in groups {
        return None;
      }
      ReadMeets(Abs(), group, c, count, now, noack);
      var ids := Collect(InOrder(From(entries.Keys, NextId(groups[group].last))), count);
      var g := SeeConsumer(groups[group], c, now);
      ghost var g0 := g;
      for i := 0 to |ids|
        invariant unchanged(this) && g == DeliverAll(g0, c, ids[..i], now, noack)
      {
        assert ids[..i + 1][..i] == ids[..i];
        g := DeliverTurn(g, c, ids[i], now, noack);
      }
      assert ids[..|ids|] == ids;
      if !noack {
        g := RecountReader(g, c);
      }
      groups := groups[group := g];
      return Some(ids);
    }

    /** xreadgroup_opts with an explicit ID: the reader's own pending entries after it. */
    method XReadGroupHistory(group: Name, c: Name, after: Id, count: Option<nat>, now: nat) returns (out: Option<seq<Id>>)
      requires Valid()
      modifies this
      ensures Valid() && (old(Exact()) ==> Exact())
      ensures Abs() == Next(old(Abs()), ReadHistory(group, c, after, count, now))
      ensures out == if group in old(groups) then Some(HistoryIds(old(Abs()), old(groups)[group], c, after, count)) else None
      ensures out.None? ==> unchanged(this)
      ensures out.Some? ==> HistorySpec(old(Abs()), Abs(), group, c, after, count, now, out.value)
    {
      hide Inv, AllCounted, InOrder, TouchOne, Ensure, Limited, AtMost, NextId, Next, HistorySpec;
      NextKeepsInv(Abs(), ReadHistory(group, c, after, count, now));
      HistoryNext(Abs(), group, c, after, count, now);
      if group !in groups {
        return None;
      }
      HistoryMeets(Abs(), group, c, after, count, now);
      var g0 := groups[group];
      var ids := Collect(InOrder(set id | id in g0.pending && AtMost(NextId(after), id)
                                   && g0.pending[id].consumer == c && id in entries), count);
      var g := SeeConsumer(g0, c, now);
      ghost var g1 := g;
      for i := 0 to |ids|
        invariant unchanged(this) && g == TouchAll(g1, ids[..i], now)
      {
        assert ids[..i + 1][..i] == ids[..i];
        g := TouchTurn(g, ids[i], now);
      }
      assert ids[..|ids|] == ids;
      groups := groups[group := g];
      return Some(ids);
    }

    /** xack: returns how many entries were pending. */
    method XAck(group: Name, ids: seq<Id>) returns (n: Option<nat>)
      requires Valid()
      modifies this
      ensures Valid() && (old(Exact()) ==> Exact())
      ensures Abs() == Next(old(Abs()), Ack(group, ids)) && (n.None? <==> group !in old(groups))
      ensures n.Some? ==> n.value == |old(groups)[group].pending| - |groups[group].pending|
      ensures n.None? ==> unchanged(this)
      ensures n.Some? ==> OneGroup(old(Abs()), Abs(), group) && Dropped(old(groups)[group], groups[group], ids)
    {
      hide Inv, AllCounted, Debit, Dropped;
      NextKeepsInv(Abs(), Ack(group, ids));
      if group !in groups {
        return None;
      }
      var g, acked := groups[group], 0;
      for i := 0 to |ids|
        invariant unchanged(this) && g == AckAll(groups[group], ids[..i])
        invariant acked == |groups[group].pending| - |g.pending| && acked >= 0
      {
        assert ids[..i + 1][..i] == ids[..i];
        var found;
        g, found := RemovePending(g, ids[i]);
        if found {
          acked := acked + 1;
        }
      }
      assert ids[..|ids|] == ids;
      AckMeets(groups[group], ids);
      groups := groups[group := g];
      return Some(acked);
    }

    /** export_state. */
    method ExportState() returns (x: R.StreamState)
      ensures Saves(x, Abs())
    {
      x := Save(State(entries, lastGenerated, groups));
    }

    /** import_state. */
    method ImportState(x: R.StreamState)
      modifies this
      ensures Abs() == Loaded(x) && Exact()
      ensures Valid() <==> forall n, id :: n in groups && id in groups[n].pending ==> id in entries
    {
      hide LoadedGroup, Inv, AllCounted, RaisedTo;
      LoadedIsSound(x);
      entries, groups := map[], map[];
      for i := 0 to |x.entries|
        invariant entries == Inserted(EntryPairs(x.entries)[..i]) && groups == map[]
      {
        assert EntryPairs(x.entries)[..i + 1][..i] == EntryPairs(x.entries)[..i];
        entries := entries[x.entries[i].id := x.entries[i].fields];
      }
      assert EntryPairs(x.entries)[..|x.entries|] == EntryPairs(x.entries);
      lastGenerated := RaisedTo(x.lastGenerated, entries.Keys);
      for i := 0 to |x.groups|
        invariant groups == Inserted(GroupPairs(x.groups)[..i])
        invariant entries == Inserted(EntryPairs(x.entries)) && lastGenerated == RaisedTo(x.lastGenerated, entries.Keys)
      {
        assert GroupPairs(x.groups)[..i + 1][..i] == GroupPairs(x.groups)[..i];
        var g := LoadGroup(x.groups[i]);
        groups := groups[x.groups[i].name := g];
      }
      assert GroupPairs(x.groups)[..|x.groups|] == GroupPairs(x.groups);
    }
  }

  lemma EmptyRun(s: State)
    ensures Run(s, []) == s
  {
  }

  lemma UnknownOwnsNothing(s: State, group: Name, c: Name)
    requires Inv(s) && group in s.groups && c !in s.groups[group].consumers
    ensures Owned(s.groups[group], c) == {} && LeavesWith(s.groups[group], s.groups[group], c)
  {
    assert GroupInv(s.entries, s.groups[group]);
  }

  lemma AutoClaimSound(s: State, group: Name, p: Scan, start: Id)
    requires Inv(s) && group in s.groups && p.count >= 1
    ensures AutoClaimSpec(s.groups[group], Claimed(s.groups[group], s.entries.Keys, p, start), p, start)
  {
    hide AutoClaimSpec, Claimed;
    assert GroupInv(s.entries, s.groups[group]);
    AutoClaimMeets(s.groups[group], s.entries.Keys, p, start);
  }

  /** Whatever goes is below the bound and below everything that stays. */
  lemma SplitBelow(keys: set<Id>, below: set<Id>, gone: set<Id>, minid: Id)
    requires below == (set id | id in keys && Less(id, minid)) && gone <= below
    requires forall a, b :: a in gone && b in below - gone ==> Less(a, b)
    ensures forall a, b :: a in gone && b in keys - gone ==> Less(a, b)
    ensures |keys - gone| == |keys| - |gone|
  {
    forall a, b | a in gone && b in keys - gone ensures Less(a, b) {
      if b !in below { assert !Less(b, minid); }
    }
    assert keys == gone + (keys - gone);
  }

  lemma ElementsSnoc(ids: seq<Id>, i: nat)
    requires i <= |ids|
    ensures Elements(ids[..0]) == {}
    ensures i < |ids| ==> Elements(ids[..i + 1]) == Elements(ids[..i]) + {ids[i]}
  {
    if i < |ids| { assert ids[..i + 1] == ids[..i] + [ids[i]]; }
  }

  lemma PrefixBelow(order: seq<Id>, n: nat, a: Id, b: Id)
    requires Ascending(order) && n <= |order|
    requires a in Elements(order[..n]) && b in order && b !in Elements(order[..n])
    ensures Less(a, b)
  {
    var front := order[..n];
    assert forall k :: 0 <= k < n ==> front[k] == order[k];
    var i :| 0 <= i < n && front[i] == a;
    var j :| 0 <= j < |order| && order[j] == b;
  }

  /** Taking away the first of an ordered set leaves only larger ones. */
  lemma PrefixRemoved(keys: set<Id>, n: nat)
    requires n <= |InOrder(keys)|
    ensures Elements(InOrder(keys)[..n]) <= keys
    ensures |keys - Elements(InOrder(keys)[..n])| == |keys| - n
    ensures forall a, b :: a in Elements(InOrder(keys)[..n]) && b in keys - Elements(InOrder(keys)[..n]) ==> Less(a, b)
  {
    hide InOrder;
    var order := InOrder(keys);
    var gone := Elements(order[..n]);
    InOrderSorts(keys);
    assert gone <= keys by {
      forall a | a in gone ensures a in keys { assert a in order; }
    }
    PrefixSize(order[..n]);
    assert |keys| == |gone| + |keys - gone|;
    forall a, b | a in gone && b in keys - gone ensures Less(a, b) {
      PrefixBelow(order, n, a, b);
    }
  }

  lemma {:induction false} PrefixSize(ids: seq<Id>)
    requires Ascending(ids)
    ensures |Elements(ids)| == |ids|
  {
    if ids != [] {
      var front, last := ids[..|ids| - 1], ids[|ids| - 1];
      PrefixSize(front);
      assert ids == front + [last];
      assert Elements(ids) == Elements(front) + {last};
      forall i | 0 <= i < |front| ensures front[i] != last {
        assert Less(ids[i], ids[|ids| - 1]);
      }
    }
  }
}
