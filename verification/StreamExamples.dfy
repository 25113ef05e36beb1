/** Short runs from an empty stream at which documented properties of src/stream_type.rs fail. */
module StreamExamples {
  import opened Basics
  import opened StreamIds
  import opened ConsumerGroups
  import opened Streams
  import opened StreamDelivery
  import opened StreamMessages

  const GROUP: Name := [103]
  const ANN: Name := [97]
  const BEN: Name := [98]

  /** The last ID of a millisecond. */
  const FULL := Id(5, MAX_U64)

  lemma RunTwo(s: State, a: Op, b: Op)
    ensures Run(s, [a, b]) == Next(Next(s, a), b)
  {
    hide Next;
    assert [a, b][..1] == [a] && [a][..0] == [];
    assert Run(s, [a]) == Next(s, a) && Run(s, []) == s;
  }

  lemma InOrderOne(id: Id)
    ensures InOrder({id}) == [id] && InOrder({}) == []
  {
    assert {id} - {id} == {};
  }

  /** A generated ID need not grow: at the end of a millisecond an addition repeats the last ID and
      overwrites the entry. */
  lemma SaturatedIdRepeats(f: Fields, f': Fields)
    requires f != [] && f' != []
    ensures Run(EMPTY, [AddExplicit(FULL, f), AddAuto(f', 5)]) == State(map[FULL := f'], FULL, map[])
  {
    RunTwo(EMPTY, AddExplicit(FULL, f), AddAuto(f', 5));
  }

  /** A stream of one entry and a group that has read nothing. */
  function Unread(id: Id, f: Fields): State {
    State(map[id := f], id, map[GROUP := Group(ZERO, map[], map[])])
  }

  lemma UnreadIsReached(id: Id, f: Fields)
    requires id != ZERO && f != []
    ensures Run(EMPTY, [AddExplicit(id, f), CreateGroup(GROUP, ZERO)]) == Unread(id, f) && Inv(Unread(id, f))
  {
    RunTwo(EMPTY, AddExplicit(id, f), CreateGroup(GROUP, ZERO));
    assert Next(EMPTY, AddExplicit(id, f)) == State(map[id := f], id, map[]);
    assert map[][GROUP := Group(ZERO, map[], map[])] == map[GROUP := Group(ZERO, map[], map[])];
  }

  const READ := ReadGroup(GROUP, ANN, None, 0, true)

  /** A read without acknowledgement moves the cursor to the one entry ahead of it. */
  lemma ReadOne(s: State, id: Id)
    requires GROUP in s.groups && s.entries.Keys == {id} && Ahead(s.groups[GROUP].last, id)
    ensures DeliveredBy(s, READ, GROUP) == [id]
    ensures var s' := Next(s, READ);
      s'.entries == s.entries && s'.lastGenerated == s.lastGenerated && GROUP in s'.groups && s'.groups[GROUP].last == id
  {
    hide InOrder;
    var g := s.groups[GROUP];
    InOrderOne(id);
    assert From(s.entries.Keys, NextId(g.last)) == {id};
    assert NewIds(s, g, None) == [id];
    DeliverAllPending(Ensure(g, ANN, 0), ANN, [id], 0, true);
  }

  lemma ReadNone(s: State)
    requires GROUP in s.groups && forall id :: id in s.entries ==> !Ahead(s.groups[GROUP].last, id)
    ensures DeliveredBy(s, READ, GROUP) == []
  {
    hide InOrder;
    InOrderOne(ZERO);
    assert From(s.entries.Keys, NextId(s.groups[GROUP].last)) == {};
  }

  /** With the maximal ID two reads deliver one entry twice. */
  lemma MaxIsRedelivered(f: Fields)
    requires f != []
    ensures var s := Run(EMPTY, [AddExplicit(MAX, f), CreateGroup(GROUP, ZERO)]);
      Deliveries(s, [READ, READ], GROUP) == [MAX, MAX]
  {
    hide Next, InOrder;
    UnreadIsReached(MAX, f);
    var s := Unread(MAX, f);
    NextIdIff(ZERO, MAX);
    ReadOne(s, MAX);
    var s1 := Next(s, READ);
    NextIdIff(MAX, MAX);
    ReadOne(s1, MAX);
    DeliveriesTwo(s, READ, READ, GROUP);
  }

  lemma DeliveriesTwo(s: State, a: Op, b: Op, n: Name)
    ensures Deliveries(s, [a, b], n) == DeliveredBy(s, a, n) + DeliveredBy(Next(s, a), b, n)
  {
    hide Next, DeliveredBy;
    assert [a, b][..1] == [a] && [a][..0] == [];
    assert Run(s, [a]) == Next(s, a) && Run(s, []) == s;
    assert Deliveries(s, [], n) == [] && Deliveries(s, [a], n) == [] + DeliveredBy(s, a, n);
  }

  /** A delivered entry is overwritten at the end of a millisecond: the new message is live, and no
      read delivers it. */
  lemma OverwrittenIsLost(f: Fields, f': Fields)
    requires f != [] && f' != []
    ensures var s := Run(EMPTY, [AddExplicit(FULL, f), CreateGroup(GROUP, ZERO)]);
      var s' := Run(s, [READ, AddAuto(f', 5)]);
      && Deliveries(s, [READ, AddAuto(f', 5)], GROUP) == [FULL]
      && s'.entries == map[FULL := f'] && s'.lastGenerated != MAX
      && DeliveredBy(s', READ, GROUP) == []
      && Inv(s) && GROUP in s.groups && !LosesNothing(s, [READ, AddAuto(f', 5)], GROUP)
  {
    hide InOrder, LosesNothing, AllReach, NewIds;
    UnreadIsReached(FULL, f);
    var s := Unread(FULL, f);
    NextIdIff(ZERO, FULL);
    ReadOne(s, FULL);
    var add := AddAuto(f', 5);
    var s1 := Next(s, READ);
    RunTwo(s, READ, add);
    DeliveriesTwo(s, READ, add, GROUP);
    var s2 := Next(s1, add);
    assert s2.entries == map[FULL := f'];
    NextIdIff(FULL, FULL);
    ReadNone(s2);
    OverwrittenStep(s, s1, add);
  }

  lemma OverwrittenStep(s: State, s1: State, add: Op)
    requires Inv(s) && GROUP in s.groups && s.groups[GROUP].last == ZERO && s.lastGenerated == FULL
    requires s1 == Next(s, READ) && GROUP in s1.groups && s1.groups[GROUP].last == FULL
    requires s1.lastGenerated == FULL && FULL in s1.entries
    requires add.AddAuto? && add.fields != [] && add.now == 5
    ensures !LosesNothing(s, [READ, add], GROUP)
  {
    hide Next, Inv, Extended, NothingLost, DeliveredBy;
    assert [READ, add][..1] == [READ] && [READ][..0] == [];
    assert Run(s, [READ]) == s1 && Run(s, []) == s;
    TraceInStep(s, [READ], GROUP);
    assert !Reaches(s1, add, GROUP);
    CursorGrows(s, [READ], GROUP);
    OverwriteLoses(s, s1, add, GROUP, Traced(s, [READ], GROUP), 1);
  }

  // ----- trimming ------------------------------------------------------------------------------------------

  const FIRST := Id(1, 0)
  const SECOND := Id(2, 0)

  function Force(c: Name, id: Id): Op {
    Claim(GROUP, c, [id], 0, ClaimOpts(0, true, 0, -1, false))
  }

  /** Two entries, each pending for a consumer of its own. */
  function TwoOwners(f: Fields): seq<Op> {
    [AddExplicit(FIRST, f), AddExplicit(SECOND, f), CreateGroup(GROUP, ZERO), Force(ANN, FIRST), Force(BEN, SECOND)]
  }

  function Owners(f: Fields): State {
    State(map[FIRST := f, SECOND := f], SECOND,
          map[GROUP := Group(ZERO, map[ANN := Consumer(0, 1), BEN := Consumer(0, 1)],
                             map[FIRST := PendingEntry(ANN, 0, 1), SECOND := PendingEntry(BEN, 0, 1)])])
  }

  lemma ForceNew(entries: map<Id, Fields>, last: Id, g: Group, c: Name, id: Id)
    requires id in entries && id !in g.pending && c !in g.consumers
    ensures Next(State(entries, last, map[GROUP := g]), Force(c, id)) ==
      State(entries, last, map[GROUP := Group(g.last, g.consumers[c := Consumer(0, 1)], g.pending[id := PendingEntry(c, 0, 1)])])
  {
    var s := State(entries, last, map[GROUP := g]);
    var g' := ClaimOne(g, true, c, id, 0, ClaimOpts(0, true, 0, -1, false));
    assert [id][..0] == [] && ClaimAll(g, entries.Keys, c, [], 0, ClaimOpts(0, true, 0, -1, false)) == g;
    assert g'.consumers == g.consumers[c := Consumer(0, 1)];
    assert s.groups[GROUP := g'] == map[GROUP := g'];
  }

  lemma TwoOwnersRun(f: Fields)
    requires f != []
    ensures Run(EMPTY, TwoOwners(f)) == Owners(f)
  {
    hide Next;
    var ops := TwoOwners(f);
    var front := [AddExplicit(FIRST, f), AddExplicit(SECOND, f)];
    RunTwo(EMPTY, AddExplicit(FIRST, f), AddExplicit(SECOND, f));
    RunSnoc(EMPTY, front, ops[2]);
    RunSnoc(EMPTY, front + [ops[2]], ops[3]);
    RunSnoc(EMPTY, front + [ops[2]] + [ops[3]], ops[4]);
    assert ops == front + [ops[2]] + [ops[3]] + [ops[4]];
    var g := Group(ZERO, map[], map[]);
    var two := map[FIRST := f, SECOND := f];
    TwoEntries(f);
    ForceNew(two, SECOND, g, ANN, FIRST);
    ForceNew(two, SECOND, Group(ZERO, map[ANN := Consumer(0, 1)], map[FIRST := PendingEntry(ANN, 0, 1)]), BEN, SECOND);
  }

  lemma TwoEntries(f: Fields)
    requires f != []
    ensures Next(Next(Next(EMPTY, AddExplicit(FIRST, f)), AddExplicit(SECOND, f)), CreateGroup(GROUP, ZERO)) ==
      State(map[FIRST := f, SECOND := f], SECOND, map[GROUP := Group(ZERO, map[], map[])])
  {
    assert Next(EMPTY, AddExplicit(FIRST, f)) == State(map[FIRST := f], FIRST, map[]);
  }

  /** Trimming the first entry may debit the owner of the second: a walk over the consumers may come to
      it first. One counter then says 1 for nothing and the other 0 for one entry. */
  lemma TrimMiscounts(f: Fields)
    requires f != []
    ensures Run(EMPTY, TwoOwners(f)) == Owners(f)
    ensures var s, debits := Owners(f), map[GROUP := BEN];
      var g := Next(s, Evict(FIRST, debits)).groups[GROUP];
      && WalkDebits(s, FIRST, debits) && !CountSafe(s, Evict(FIRST, debits))
      && g.consumers == map[ANN := Consumer(0, 1), BEN := Consumer(0, 0)]
      && Owned(g, ANN) == {} && Owned(g, BEN) == {SECOND}
  {
    hide Run;
    TwoOwnersRun(f);
    assert ANN != BEN && FIRST != SECOND;
    var s := Owners(f);
    assert s.groups[GROUP].pending[FIRST].consumer == ANN;
    var g := Next(s, Evict(FIRST, map[GROUP := BEN])).groups[GROUP];
    assert g.pending == map[SECOND := PendingEntry(BEN, 0, 1)];
  }
}
