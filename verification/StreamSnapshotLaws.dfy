/** Saved streams field by field, and what a snapshot loads as in terms of what it says itself, with
    repeated keys, unlisted owners and wrong counters in it. */
module StreamSnapshotLaws {
  import opened Basics
  import opened StreamIds
  import opened ConsumerGroups
  import opened Streams
  import opened StreamSnapshots
  import R = RdbObjects

  // ----- saving -------------------------------------------------------------------------------------------

  ghost predicate GroupMeans(x: R.Group, g: Group) {
    && x.lastDelivered == g.last && |x.consumers| == |g.consumers| && |x.pending| == |g.pending|
    && (forall c :: c in x.consumers ==>
         c.name in g.consumers && g.consumers[c.name].seen == c.seenTime && g.consumers[c.name].pending == c.pending)
    && (forall p :: p in x.pending ==>
         && p.id in g.pending && g.pending[p.id].consumer == p.consumer
         && g.pending[p.id].time == p.deliveryTime && g.pending[p.id].count == p.deliveryCount)
  }

  lemma SavesGroupMeans(x: R.Group, g: Group)
    requires SavesGroup(x, g)
    ensures GroupMeans(x, g)
  {
    forall c | c in x.consumers
      ensures c.name in g.consumers && g.consumers[c.name].seen == c.seenTime && g.consumers[c.name].pending == c.pending
    {
      var i :| 0 <= i < |x.consumers| && x.consumers[i] == c;
      var pair := ConsumerPairs(x.consumers)[i];
    }
    forall p | p in x.pending
      ensures p.id in g.pending && g.pending[p.id].consumer == p.consumer
      ensures g.pending[p.id].time == p.deliveryTime && g.pending[p.id].count == p.deliveryCount
    {
      var i :| 0 <= i < |x.pending| && x.pending[i] == p;
      var pair := PendingPairs(x.pending)[i];
    }
  }

  /** Every entry, group, consumer and pending entry saved is one of the stream's, and there are as many. */
  lemma SavesMeans(x: R.StreamState, s: State)
    requires Saves(x, s)
    ensures |x.entries| == |s.entries| && |x.groups| == |s.groups| && x.lastGenerated == s.lastGenerated
    ensures forall e :: e in x.entries ==> e.id in s.entries && s.entries[e.id] == e.fields
    ensures forall h :: h in x.groups ==> h.name in s.groups && GroupMeans(h, s.groups[h.name])
  {
    hide SavesGroup, GroupMeans;
    forall e | e in x.entries ensures e.id in s.entries && s.entries[e.id] == e.fields {
      var i :| 0 <= i < |x.entries| && x.entries[i] == e;
      var pair := EntryPairs(x.entries)[i];
    }
    forall h | h in x.groups ensures h.name in s.groups && GroupMeans(h, s.groups[h.name]) {
      SavesGroupMeans(h, s.groups[h.name]);
    }
  }

  // ----- loading ------------------------------------------------------------------------------------------

  /** Of several pairs with a key the last counts. */
  lemma {:induction false} LastCounts<K(!new), V>(xs: seq<(K, V)>, i: nat)
    requires i < |xs| && forall j :: i < j < |xs| ==> xs[j].0 != xs[i].0
    ensures xs[i].0 in Inserted(xs) && Inserted(xs)[xs[i].0] == xs[i].1
    decreases |xs|
  {
    var front := xs[..|xs| - 1];
    assert forall j :: 0 <= j < |front| ==> front[j] == xs[j];
    if i < |front| { LastCounts(front, i); }
  }

  lemma LoadedEntry(x: R.StreamState, i: nat)
    requires i < |x.entries| && forall j :: i < j < |x.entries| ==> x.entries[j].id != x.entries[i].id
    ensures x.entries[i].id in Loaded(x).entries && Loaded(x).entries[x.entries[i].id] == x.entries[i].fields
  {
    LastCounts(EntryPairs(x.entries), i);
  }

  lemma LoadedPending(x: R.Group, i: nat)
    requires i < |x.pending| && forall j :: i < j < |x.pending| ==> x.pending[j].id != x.pending[i].id
    ensures var p, g := x.pending[i], LoadedGroup(x);
      && p.id in g.pending && g.pending[p.id].consumer == p.consumer
      && g.pending[p.id].time == p.deliveryTime && g.pending[p.id].count == p.deliveryCount
  {
    LastCounts(PendingPairs(x.pending), i);
  }

  lemma LoadedConsumer(x: R.Group, i: nat)
    requires i < |x.consumers| && forall j :: i < j < |x.consumers| ==> x.consumers[j].name != x.consumers[i].name
    ensures x.consumers[i].name in LoadedGroup(x).consumers
    ensures LoadedGroup(x).consumers[x.consumers[i].name].seen == x.consumers[i].seenTime
  {
    hide Inserted;
    LastCounts(ConsumerPairs(x.consumers), i);
    OwnersRegistered(Inserted(ConsumerPairs(x.consumers)), x.pending);
  }

  lemma {:induction false} NotOwner(consumers: map<Name, Consumer>, ps: seq<R.Pending>, c: Name)
    requires c !in consumers && forall j :: 0 <= j < |ps| ==> ps[j].consumer != c
    ensures c !in WithOwners(consumers, ps)
    decreases |ps|
  {
    if ps != [] { NotOwner(consumers, ps[..|ps| - 1], c); }
  }

  lemma {:induction false} OwnerSince(consumers: map<Name, Consumer>, ps: seq<R.Pending>, i: nat)
    requires i < |ps| && ps[i].consumer !in consumers && forall j :: 0 <= j < i ==> ps[j].consumer != ps[i].consumer
    ensures ps[i].consumer in WithOwners(consumers, ps) && WithOwners(consumers, ps)[ps[i].consumer].seen == ps[i].deliveryTime
    decreases |ps|
  {
    var front := ps[..|ps| - 1];
    assert forall j :: 0 <= j < |front| ==> front[j] == ps[j];
    if i < |front| {
      OwnerSince(consumers, front, i);
    } else {
      NotOwner(consumers, front, ps[i].consumer);
    }
  }

  lemma {:induction false} NotInserted<K(!new), V>(xs: seq<(K, V)>, k: K)
    requires forall i :: 0 <= i < |xs| ==> xs[i].0 != k
    ensures k !in Inserted(xs)
    decreases |xs|
  {
    if xs != [] { NotInserted(xs[..|xs| - 1], k); }
  }

  /** An owner the snapshot does not list was seen when its first entry was delivered. */
  lemma LoadedOwner(x: R.Group, i: nat)
    requires i < |x.pending| && forall j :: 0 <= j < i ==> x.pending[j].consumer != x.pending[i].consumer
    requires forall c :: c in x.consumers ==> c.name != x.pending[i].consumer
    ensures x.pending[i].consumer in LoadedGroup(x).consumers
    ensures LoadedGroup(x).consumers[x.pending[i].consumer].seen == x.pending[i].deliveryTime
  {
    hide Inserted;
    NotInserted(ConsumerPairs(x.consumers), x.pending[i].consumer);
    OwnerSince(Inserted(ConsumerPairs(x.consumers)), x.pending, i);
  }

  /** A consumer counts the pending entries it owns, whatever the snapshot says. */
  lemma LoadedCount(x: R.Group, c: Name)
    requires c in LoadedGroup(x).consumers
    ensures LoadedGroup(x).consumers[c].pending ==
      |set id | id in LoadedGroup(x).pending && LoadedGroup(x).pending[id].consumer == c|
  {
    hide WithOwners, Inserted;
    var g := Group(x.lastDelivered, WithOwners(Inserted(ConsumerPairs(x.consumers)), x.pending), Inserted(PendingPairs(x.pending)));
    RecountedCounts(g);
    assert CountsRight(LoadedGroup(x), c);
    assert Owned(LoadedGroup(x), c) == set id | id in LoadedGroup(x).pending && LoadedGroup(x).pending[id].consumer == c;
  }

  /** The last ID is the highest of the one saved and those of the entries. */
  lemma LoadedLast(x: R.StreamState)
    ensures AtMost(x.lastGenerated, Loaded(x).lastGenerated)
    ensures forall id :: id in Loaded(x).entries ==> AtMost(id, Loaded(x).lastGenerated)
    ensures Loaded(x).lastGenerated == x.lastGenerated || Loaded(x).lastGenerated in Loaded(x).entries
  {
    hide InOrder;
    var ids := Loaded(x).entries.Keys;
    RaisedIsHighest(x.lastGenerated, ids);
    InOrderSorts(ids);
    var order := InOrder(ids);
    if order != [] { assert order[|order| - 1] in order; }
  }
}
