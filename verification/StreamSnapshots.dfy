/** Saving and reloading a stream: export_state and import_state of src/stream_type.rs, and the DUMP
    payload between them. */
module StreamSnapshots {
  import opened Basics
  import opened StreamIds
  import opened ConsumerGroups
  import opened GroupSteps
  import opened Streams
  import R = RdbObjects
  import RdbDump
  import RdbCodec

  // ----- listing a map and inserting the list ---------------------------------------------------------

  /** The list holds every binding of the map once, in any order. */
  ghost predicate Lists<K(!new), V>(xs: seq<(K, V)>, m: map<K, V>) {
    && |xs| == |m|
    && (forall i :: 0 <= i < |xs| ==> xs[i].0 in m && m[xs[i].0] == xs[i].1)
    && (forall k :: k in m ==> exists i :: 0 <= i < |xs| && xs[i].0 == k)
  }

  function Inserted<K, V>(xs: seq<(K, V)>): map<K, V> {
    if xs == [] then map[] else Inserted(xs[..|xs| - 1])[xs[|xs| - 1].0 := xs[|xs| - 1].1]
  }

  lemma {:induction false} InsertedLists<K(!new), V>(xs: seq<(K, V)>, m: map<K, V>)
    requires forall i :: 0 <= i < |xs| ==> xs[i].0 in m && m[xs[i].0] == xs[i].1
    ensures forall k :: k in Inserted(xs) <==> exists i :: 0 <= i < |xs| && xs[i].0 == k
    ensures forall k :: k in Inserted(xs) ==> k in m && Inserted(xs)[k] == m[k]
  {
    if xs != [] {
      var front, last := xs[..|xs| - 1], xs[|xs| - 1];
      assert forall i :: 0 <= i < |front| ==> front[i] == xs[i];
      InsertedLists(front, m);
      forall k ensures k in Inserted(xs) <==> exists i :: 0 <= i < |xs| && xs[i].0 == k {
        if i :| 0 <= i < |xs| && xs[i].0 == k {
          assert i < |front| ==> front[i].0 == k;
        }
      }
    }
  }

  lemma ListInserts<K(!new), V>(xs: seq<(K, V)>, m: map<K, V>)
    requires Lists(xs, m)
    ensures Inserted(xs) == m
  {
    InsertedLists(xs, m);
  }

  // ----- the snapshot of a state ----------------------------------------------------------------------

  function EntryPairs(es: seq<R.Entry>): seq<(Id, Fields)> {
    seq(|es|, i requires 0 <= i < |es| => (es[i].id, es[i].fields))
  }

  function ConsumerPairs(cs: seq<R.Consumer>): seq<(Name, Consumer)> {
    seq(|cs|, i requires 0 <= i < |cs| => (cs[i].name, Consumer(cs[i].seenTime, cs[i].pending)))
  }

  function PendingPairs(ps: seq<R.Pending>): seq<(Id, PendingEntry)> {
    seq(|ps|, i requires 0 <= i < |ps| => (ps[i].id, PendingEntry(ps[i].consumer, ps[i].deliveryTime, ps[i].deliveryCount)))
  }

  ghost predicate SavesGroup(x: R.Group, g: Group) {
    && x.lastDelivered == g.last
    && Lists(ConsumerPairs(x.consumers), g.consumers)
    && Lists(PendingPairs(x.pending), g.pending)
  }

  /** What export_state makes of a state, up to the order in which the hash maps are walked. */
  ghost predicate Saves(x: R.StreamState, s: State) {
    && x.lastGenerated == s.lastGenerated
    && Lists(EntryPairs(x.entries), s.entries)
    && |x.groups| == |s.groups|
    && (forall i :: 0 <= i < |x.groups| ==> x.groups[i].name in s.groups && SavesGroup(x.groups[i], s.groups[x.groups[i].name]))
    && (forall n :: n in s.groups ==> exists i :: 0 <= i < |x.groups| && x.groups[i].name == n)
  }

  // ----- the state of a snapshot ----------------------------------------------------------------------

  /** Owners the snapshot does not list are registered, seen when their entry was delivered. */
  function WithOwners(consumers: map<Name, Consumer>, ps: seq<R.Pending>): map<Name, Consumer> {
    if ps == [] then consumers
    else
      var m, p := WithOwners(consumers, ps[..|ps| - 1]), ps[|ps| - 1];
      if p.consumer in m then m else m[p.consumer := Consumer(p.deliveryTime, 0)]
  }

  /** Every counter recomputed from the pending entries list. */
  function Recounted(g: Group): Group {
    g.(consumers := map c | c in g.consumers :: g.consumers[c].(pending := OwnedCount(g, c)))
  }

  function LoadedGroup(x: R.Group): Group {
    Recounted(Group(x.lastDelivered, WithOwners(Inserted(ConsumerPairs(x.consumers)), x.pending), Inserted(PendingPairs(x.pending))))
  }

  function GroupPairs(gs: seq<R.Group>): seq<(Name, Group)> {
    seq(|gs|, i requires 0 <= i < |gs| => (gs[i].name, LoadedGroup(gs[i])))
  }

  /** The last ID, raised to the highest entry where the snapshot has it lower. */
  function RaisedTo(last: Id, ids: set<Id>): Id {
    var order := InOrder(ids);
    if order != [] && Less(last, order[|order| - 1]) then order[|order| - 1] else last
  }

  function Loaded(x: R.StreamState): State {
    var entries := Inserted(EntryPairs(x.entries));
    State(entries, RaisedTo(x.lastGenerated, entries.Keys), Inserted(GroupPairs(x.groups)))
  }

  // ----- what any snapshot loads as --------------------------------------------------------------------

  lemma RecountedCounts(g: Group)
    ensures Counted(Recounted(g))
    ensures Counted(g) <==> Recounted(g) == g
  {
    var g' := Recounted(g);
    forall c ensures CountsRight(g', c) {
      assert Owned(g', c) == Owned(g, c);
    }
    if Counted(g) {
      forall c | c in g.consumers ensures g'.consumers[c] == g.consumers[c] {
        assert CountsRight(g, c);
        assert Owned(g, c) == (set id | id in g.pending && g.pending[id].consumer == c);
      }
      assert g'.consumers == g.consumers;
    }
  }

  lemma {:induction false} OwnersRegistered(consumers: map<Name, Consumer>, ps: seq<R.Pending>)
    ensures forall c :: c in consumers ==> c in WithOwners(consumers, ps) && WithOwners(consumers, ps)[c] == consumers[c]
    ensures forall i :: 0 <= i < |ps| ==> ps[i].consumer in WithOwners(consumers, ps)
    ensures (forall i :: 0 <= i < |ps| ==> ps[i].consumer in consumers) ==> WithOwners(consumers, ps) == consumers
  {
    if ps != [] {
      var front := ps[..|ps| - 1];
      assert forall i :: 0 <= i < |front| ==> front[i] == ps[i];
      OwnersRegistered(consumers, front);
    }
  }

  lemma RaisedIsHighest(last: Id, ids: set<Id>)
    ensures forall id :: id in ids ==> AtMost(id, RaisedTo(last, ids))
    ensures (forall id :: id in ids ==> AtMost(id, last)) ==> RaisedTo(last, ids) == last
  {
    hide InOrder;
    InOrderSorts(ids);
    var order := InOrder(ids);
    forall id | id in ids ensures order != [] && AtMost(id, order[|order| - 1]) {
      assert id in order;
      var i :| 0 <= i < |order| && order[i] == id;
    }
    if order != [] { assert order[|order| - 1] in order; }
  }

  lemma {:induction false} InsertedFrom<K(!new), V>(xs: seq<(K, V)>, k: K)
    requires k in Inserted(xs)
    ensures exists i :: 0 <= i < |xs| && xs[i] == (k, Inserted(xs)[k])
  {
    var front, last := xs[..|xs| - 1], xs[|xs| - 1];
    if k == last.0 {
      assert xs[|xs| - 1] == (k, Inserted(xs)[k]);
    } else {
      InsertedFrom(front, k);
      var i :| 0 <= i < |front| && front[i] == (k, Inserted(front)[k]);
      assert xs[i] == (k, Inserted(xs)[k]);
    }
  }

  lemma LoadedGroupOk(x: R.Group)
    ensures Registered(LoadedGroup(x)) && Counted(LoadedGroup(x))
  {
    hide OwnedCount, Inserted;
    var g := Group(x.lastDelivered, WithOwners(Inserted(ConsumerPairs(x.consumers)), x.pending), Inserted(PendingPairs(x.pending)));
    RecountedCounts(g);
    OwnersRegistered(Inserted(ConsumerPairs(x.consumers)), x.pending);
    forall id | id in g.pending ensures g.pending[id].consumer in g.consumers {
      InsertedFrom(PendingPairs(x.pending), id);
    }
  }

  /** Whatever the snapshot says, no entry is above the last ID, every pending owner is registered and
      every counter is right; so the state is sound exactly when every pending ID is a live entry. */
  lemma LoadedIsSound(x: R.StreamState)
    ensures AllCounted(Loaded(x))
    ensures Inv(Loaded(x)) <==>
      forall n, id :: n in Loaded(x).groups && id in Loaded(x).groups[n].pending ==> id in Loaded(x).entries
  {
    hide LoadedGroup, RaisedTo, Inserted, Counted, Registered;
    var s := Loaded(x);
    RaisedIsHighest(x.lastGenerated, s.entries.Keys);
    forall n | n in s.groups ensures Registered(s.groups[n]) && Counted(s.groups[n]) {
      InsertedFrom(GroupPairs(x.groups), n);
      var i :| 0 <= i < |x.groups| && GroupPairs(x.groups)[i] == (n, s.groups[n]);
      LoadedGroupOk(x.groups[i]);
    }
  }

  // ----- saving and loading ------------------------------------------------------------------------------

  /** The same stream with every counter recomputed. */
  function Repaired(s: State): State {
    s.(groups := map n | n in s.groups :: Recounted(s.groups[n]))
  }

  lemma GroupComesBack(x: R.Group, g: Group)
    requires SavesGroup(x, g) && Registered(g)
    ensures LoadedGroup(x) == Recounted(g)
  {
    hide OwnedCount, Inserted, Lists;
    ListInserts(ConsumerPairs(x.consumers), g.consumers);
    ListInserts(PendingPairs(x.pending), g.pending);
    OwnersRegistered(g.consumers, x.pending);
    PendingListed(x.pending, g.pending);
  }

  lemma PendingListed(ps: seq<R.Pending>, m: map<Id, PendingEntry>)
    requires Lists(PendingPairs(ps), m)
    ensures forall i :: 0 <= i < |ps| ==> ps[i].id in m && m[ps[i].id].consumer == ps[i].consumer
  {
    forall i | 0 <= i < |ps| ensures ps[i].id in m && m[ps[i].id].consumer == ps[i].consumer {
      var pair := PendingPairs(ps)[i];
    }
  }

  /** A reload keeps everything but the counters, which it recomputes. */
  lemma LoadRepairs(x: R.StreamState, s: State)
    requires Inv(s) && Saves(x, s)
    ensures Loaded(x) == Repaired(s)
  {
    hide LoadedGroup, Recounted, RaisedTo, Inserted, Lists, SavesGroup, Registered;
    ListInserts(EntryPairs(x.entries), s.entries);
    RaisedIsHighest(s.lastGenerated, s.entries.Keys);
    var groups := map n | n in s.groups :: Recounted(s.groups[n]);
    var pairs := GroupPairs(x.groups);
    forall i | 0 <= i < |pairs| ensures pairs[i].0 in groups && groups[pairs[i].0] == pairs[i].1 {
      GroupComesBack(x.groups[i], s.groups[x.groups[i].name]);
    }
    InsertedLists(pairs, groups);
    forall n | n in groups ensures n in Inserted(pairs) {
      var i :| 0 <= i < |x.groups| && x.groups[i].name == n;
      assert pairs[i].0 == n;
    }
    assert Inserted(pairs) == groups;
  }

  lemma RepairedIff(s: State)
    ensures AllCounted(Repaired(s))
    ensures Repaired(s) == s <==> AllCounted(s)
  {
    hide Recounted, Counted;
    forall n | n in s.groups ensures Counted(Recounted(s.groups[n])) && (Counted(s.groups[n]) <==> Recounted(s.groups[n]) == s.groups[n]) {
      RecountedCounts(s.groups[n]);
    }
    var groups := map n | n in s.groups :: Recounted(s.groups[n]);
    if AllCounted(s) { assert groups == s.groups; }
    if groups == s.groups {
      forall n | n in s.groups ensures Counted(s.groups[n]) { assert groups[n] == s.groups[n]; }
    }
  }

  /** The DUMP payload of a saved stream decodes to what was saved and loads as the stream itself,
      exactly when its counters were right; otherwise only the counters differ, and they are right. */
  lemma SavedComesBackIff(x: R.StreamState, s: State)
    requires Inv(s) && Saves(x, s) && R.StreamOk(x)
    ensures RdbDump.DecodeDump(RdbDump.EncodeDump(R.Stream(x))) == RdbCodec.Ok(R.Stream(x), [])
    ensures Loaded(x) == Repaired(s) && AllCounted(Loaded(x))
    ensures Loaded(x) == s <==> AllCounted(s)
  {
    hide RdbDump.DecodeDump, RdbDump.EncodeDump, Inv, Saves, R.StreamOk, Loaded, Repaired, AllCounted;
    RdbDump.DumpRoundTrip(R.Stream(x));
    LoadRepairs(x, s);
    RepairedIff(s);
  }

  /** So every state a run reaches is reloaded soundly, and as it was if the run never miscounted. */
  lemma RunComesBack(ops: seq<Op>, x: R.StreamState)
    requires Saves(x, Run(EMPTY, ops))
    ensures Inv(Loaded(x)) && AllCounted(Loaded(x))
    ensures SafeThroughout(ops) ==> Loaded(x) == Run(EMPTY, ops)
  {
    hide Saves, Loaded, AllCounted, SafeThroughout, Recounted, Run;
    var s := Run(EMPTY, ops);
    RunKeepsInv(ops);
    LoadRepairs(x, s);
    RepairedIff(s);
    RepairedInv(s);
    assert ops[..|ops|] == ops;
  }

  lemma RepairedInv(s: State)
    requires Inv(s)
    ensures Inv(Repaired(s))
  {
    forall n | n in s.groups ensures GroupInv(s.entries, Repaired(s).groups[n]) {
      assert GroupInv(s.entries, s.groups[n]);
    }
  }

  // ----- the loops ---------------------------------------------------------------------------------------

  /** The keys of a hash map, in whatever order the walk meets them. */
  method AnyOrder<K>(keys: set<K>) returns (order: seq<K>)
    ensures |order| == |keys| && forall k :: k in order <==> k in keys
  {
    order := [];
    var rest := keys;
    while rest != {}
      invariant rest <= keys && |order| == |keys| - |rest|
      invariant forall k :: k in order <==> k in keys - rest
      decreases rest
    {
      var k :| k in rest;
      rest := rest - {k};
      order := order + [k];
    }
  }

  lemma OrderLists<K(!new), V>(order: seq<K>, m: map<K, V>, xs: seq<(K, V)>)
    requires |order| == |m| == |xs| && forall k :: k in order <==> k in m
    requires forall i :: 0 <= i < |xs| ==> order[i] in m && xs[i] == (order[i], m[order[i]])
    ensures Lists(xs, m)
  {
    forall k | k in m ensures exists i :: 0 <= i < |xs| && xs[i].0 == k {
      var i :| 0 <= i < |order| && order[i] == k;
      assert xs[i].0 == k;
    }
  }

  method SaveGroup(name: Name, g: Group) returns (x: R.Group)
    ensures x.name == name && SavesGroup(x, g)
    ensures forall i, j :: 0 <= i < j < |x.pending| ==> Less(x.pending[i].id, x.pending[j].id)
  {
    hide InOrder, Lists, Less;
    InOrderSorts(g.pending.Keys);
    var ids := InOrder(g.pending.Keys);
    var pending := seq(|ids|, i requires 0 <= i < |ids| && ids[i] in g.pending =>
      R.Pending(ids[i], g.pending[ids[i]].consumer, g.pending[ids[i]].time, g.pending[ids[i]].count));
    OrderLists(ids, g.pending, PendingPairs(pending));
    var names := AnyOrder(g.consumers.Keys);
    var consumers := seq(|names|, i requires 0 <= i < |names| && names[i] in g.consumers =>
      R.Consumer(names[i], g.consumers[names[i]].seen, g.consumers[names[i]].pending));
    OrderLists(names, g.consumers, ConsumerPairs(consumers));
    return R.Group(name, g.last, pending, consumers);
  }

  method SaveGroups(groups: map<Name, Group>) returns (gs: seq<R.Group>)
    ensures |gs| == |groups|
    ensures forall i :: 0 <= i < |gs| ==> gs[i].name in groups && SavesGroup(gs[i], groups[gs[i].name])
    ensures forall n :: n in groups ==> exists i :: 0 <= i < |gs| && gs[i].name == n
  {
    hide SavesGroup;
    var names := AnyOrder(groups.Keys);
    gs := [];
    for i := 0 to |names|
      invariant |gs| == i
      invariant forall k :: 0 <= k < i ==> gs[k].name == names[k] && SavesGroup(gs[k], groups[names[k]])
    {
      var saved := SaveGroup(names[i], groups[names[i]]);
      gs := gs + [saved];
    }
    forall n | n in groups ensures exists i :: 0 <= i < |gs| && gs[i].name == n {
      var i :| 0 <= i < |names| && names[i] == n;
      assert gs[i].name == n;
    }
  }

  /** export_state. */
  method Save(s: State) returns (x: R.StreamState)
    ensures Saves(x, s)
    ensures forall i, j :: 0 <= i < j < |x.entries| ==> Less(x.entries[i].id, x.entries[j].id)
  {
    hide InOrder, SavesGroup, Lists, Less;
    InOrderSorts(s.entries.Keys);
    var ids := InOrder(s.entries.Keys);
    var entries := seq(|ids|, i requires 0 <= i < |ids| && ids[i] in s.entries => R.Entry(ids[i], s.entries[ids[i]]));
    OrderLists(ids, s.entries, EntryPairs(entries));
    var groups := SaveGroups(s.groups);
    return R.StreamState(s.lastGenerated, entries, groups);
  }

  /** How many of a consumer's pending entries are outside `rest`. */
  ghost function Tally(g: Group, c: Name, rest: set<Id>): nat {
    |Owned(g, c) - rest|
  }

  lemma TallyOne(g: Group, c: Name, rest: set<Id>, id: Id)
    requires id in rest && id in g.pending
    ensures Tally(g, c, rest - {id}) == Tally(g, c, rest) + if g.pending[id].consumer == c then 1 else 0
  {
    var before := Owned(g, c) - rest;
    assert Owned(g, c) - (rest - {id}) == if g.pending[id].consumer == c then before + {id} else before;
  }

  lemma TallyAll(g: Group, c: Name)
    ensures Tally(g, c, {}) == OwnedCount(g, c) && Tally(g, c, g.pending.Keys) == 0
  {
    assert Owned(g, c) - {} == Owned(g, c);
    assert Owned(g, c) - g.pending.Keys == {};
  }

  /** The counters once every pending entry outside `rest` has been credited to its owner. */
  ghost predicate Tallied(g: Group, consumers: map<Name, Consumer>, rest: set<Id>) {
    && consumers.Keys == g.consumers.Keys
    && forall c :: c in consumers ==> consumers[c] == Consumer(g.consumers[c].seen, Tally(g, c, rest))
  }

  lemma TallyStep(g: Group, consumers: map<Name, Consumer>, rest: set<Id>, id: Id)
    requires Tallied(g, consumers, rest) && id in rest && id in g.pending
    ensures Tallied(g, Credit(consumers, g.pending[id].consumer), rest - {id})
  {
    hide Tally;
    forall c | c in consumers ensures Tally(g, c, rest - {id}) == Tally(g, c, rest) + if g.pending[id].consumer == c then 1 else 0 {
      TallyOne(g, c, rest, id);
    }
  }

  lemma TallyEnds(g: Group, consumers: map<Name, Consumer>)
    requires Tallied(g, consumers, {})
    ensures g.(consumers := consumers) == Recounted(g)
  {
    hide Tally, OwnedCount;
    forall c | c in consumers ensures Tally(g, c, {}) == OwnedCount(g, c) {
      TallyAll(g, c);
    }
    assert consumers == Recounted(g).consumers;
  }

  /** All counters to zero, then one credit for every pending entry. */
  method RecountAll(g: Group) returns (g': Group)
    ensures g' == Recounted(g)
  {
    hide Recounted, Credit, Tally;
    var consumers := map c | c in g.consumers :: g.consumers[c].(pending := 0);
    var rest := g.pending.Keys;
    forall c ensures Tally(g, c, rest) == 0 {
      TallyAll(g, c);
    }
    while rest != {}
      invariant rest <= g.pending.Keys && Tallied(g, consumers, rest)
      decreases rest
    {
      var id :| id in rest;
      TallyStep(g, consumers, rest, id);
      rest := rest - {id};
      consumers := CreditConsumer(consumers, g.pending[id].consumer);
    }
    TallyEnds(g, consumers);
    return g.(consumers := consumers);
  }

  method LoadGroup(x: R.Group) returns (g: Group)
    ensures g == LoadedGroup(x)
  {
    hide Recounted;
    var listed: map<Name, Consumer> := map[];
    for i := 0 to |x.consumers|
      invariant listed == Inserted(ConsumerPairs(x.consumers)[..i])
    {
      assert ConsumerPairs(x.consumers)[..i + 1][..i] == ConsumerPairs(x.consumers)[..i];
      listed := listed[x.consumers[i].name := Consumer(x.consumers[i].seenTime, x.consumers[i].pending)];
    }
    assert ConsumerPairs(x.consumers)[..|x.consumers|] == ConsumerPairs(x.consumers);
    var consumers, pending := LoadPending(listed, x.pending);
    g := RecountAll(Group(x.lastDelivered, consumers, pending));
  }

  method LoadPending(listed: map<Name, Consumer>, ps: seq<R.Pending>)
    returns (consumers: map<Name, Consumer>, pending: map<Id, PendingEntry>)
    ensures consumers == WithOwners(listed, ps) && pending == Inserted(PendingPairs(ps))
  {
    consumers, pending := listed, map[];
    for i := 0 to |ps|
      invariant consumers == WithOwners(listed, ps[..i]) && pending == Inserted(PendingPairs(ps)[..i])
    {
      assert ps[..i + 1][..i] == ps[..i];
      assert PendingPairs(ps)[..i + 1][..i] == PendingPairs(ps)[..i];
      if ps[i].consumer !in consumers {
        consumers := consumers[ps[i].consumer := Consumer(ps[i].deliveryTime, 0)];
      }
      pending := pending[ps[i].id := PendingEntry(ps[i].consumer, ps[i].deliveryTime, ps[i].deliveryCount)];
    }
    assert ps[..|ps|] == ps && PendingPairs(ps)[..|ps|] == PendingPairs(ps);
  }
}
