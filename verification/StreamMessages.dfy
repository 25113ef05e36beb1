/** Whether a consumer group loses messages. A message is one addition, told apart from a later one
    that is given the same ID. */
module StreamMessages {
  import opened Basics
  import opened StreamIds
  import opened ConsumerGroups
  import opened Streams
  import opened StreamDelivery

  /** The `birth`-th operation of a run added it; 0 stands for an entry there from the start. */
  datatype Message = Message(id: Id, birth: nat)

  /** The births of the live entries, and the messages delivered, ever there, and taken out. */
  datatype Trace = Trace(births: map<Id, nat>, log: seq<Message>, known: set<Message>, removed: set<Message>)

  /** The ID of the message an operation adds. */
  function Adds(s: State, op: Op): Option<Id> {
    match op
    case AddAuto(fields, now) => if fields == [] then None else Some(AutoId(s.lastGenerated, now))
    case AddExplicit(id, fields) =>
      if fields == [] || id == ZERO || AtMost(id, s.lastGenerated) then None else Some(id)
    case _ => None
  }

  ghost function Messages(births: map<Id, nat>): set<Message> {
    set id | id in births :: Message(id, births[id])
  }

  ghost function Born(births: map<Id, nat>, ids: seq<Id>): seq<Message> {
    seq(|ids|, i requires 0 <= i < |ids| => Message(ids[i], if ids[i] in births then births[ids[i]] else 0))
  }

  ghost function NextBirths(births: map<Id, nat>, added: Option<Id>, live: set<Id>, k: nat): map<Id, nat> {
    if added.Some? then births[added.value := k] else map id | id in births && id in live :: births[id]
  }

  /** What the `k`-th operation adds to a trace. Overwriting a live entry does not count as taking it
      out. */
  ghost function Extended(t: Trace, s: State, op: Op, n: Name, k: nat): Trace {
    var live, added := Next(s, op).entries.Keys, Adds(s, op);
    var births := NextBirths(t.births, added, live, k);
    Trace(births, t.log + Born(t.births, DeliveredBy(s, op, n)), t.known + Messages(births),
          t.removed + Messages(t.births - live))
  }

  ghost function First(s: State): Trace {
    var births := map id | id in s.entries :: 0;
    Trace(births, [], Messages(births), {})
  }

  ghost function Traced(s: State, ops: seq<Op>, n: Name): Trace {
    if ops == [] then First(s)
    else Extended(Traced(s, ops[..|ops| - 1], n), Run(s, ops[..|ops| - 1]), ops[|ops| - 1], n, |ops|)
  }

  /** What the group is owed: what was ahead of its cursor, and, unless the cursor was put ahead of the
      stream, everything added since. */
  predicate Owed(s: State, n: Name, m: Message)
    requires n in s.groups
  {
    Less(s.groups[n].last, m.id) || (m.birth > 0 && AtMost(s.groups[n].last, s.lastGenerated))
  }

  predicate Waiting(t: Trace, last: Id, m: Message) {
    m.id in t.births && t.births[m.id] == m.birth && Ahead(last, m.id)
  }

  /** Every message owed has been delivered, was taken out, or is still ahead of the cursor. */
  ghost predicate NothingLost(s: State, n: Name, t: Trace, last: Id)
    requires n in s.groups
  {
    forall m :: m in t.known && Owed(s, n, m) ==> m in t.log || m in t.removed || Waiting(t, last, m)
  }

  /** When an addition puts no message out of reach. */
  predicate Reaches(s: State, op: Op, n: Name) {
    op.AddAuto? && op.fields != [] && n in s.groups ==>
      || op.now > s.lastGenerated.ms || s.lastGenerated.sq < MAX_U64
      || (s.lastGenerated !in s.entries && Ahead(s.groups[n].last, s.lastGenerated))
  }

  /** Whether the group is owed a message that is added with this ID. */
  predicate Expects(s: State, n: Name, id: Id)
    requires n in s.groups
  {
    Less(s.groups[n].last, id) || AtMost(s.groups[n].last, s.lastGenerated)
  }

  /** The live message with this ID has been delivered, or was never owed. */
  predicate Settled(s: State, n: Name, t: Trace, id: Id)
    requires n in s.groups
  {
    id in t.births ==> Message(id, t.births[id]) in t.log || !Owed(s, n, Message(id, t.births[id]))
  }

  /** When an addition loses nothing: it reaches the group, or the group is owed nothing with its ID, or
      it has the maximal ID, which reads repeat, and what it overwrites is settled. */
  predicate Spares(s0: State, s: State, op: Op, n: Name, t: Trace)
    requires n in s0.groups
  {
    || Reaches(s, op, n) || !Expects(s0, n, s.lastGenerated)
    || (s.lastGenerated == MAX && Settled(s0, n, t, MAX))
  }

  /** What a trace knows of the state it leads to. */
  ghost predicate InStep(s0: State, s: State, n: Name, t: Trace, k: nat)
    requires n in s0.groups
  {
    && Inv(s) && n in s.groups && AtMost(s0.lastGenerated, s.lastGenerated)
    && t.births.Keys == s.entries.Keys
    && (AtMost(s.groups[n].last, s.lastGenerated) || s.groups[n].last == s0.groups[n].last)
    && (forall m :: m in t.known ==> m.birth <= k)
    && (forall m :: m in t.removed ==> m.birth <= k && (m.id in t.births ==> t.births[m.id] != m.birth))
    && (forall m :: m in t.log ==> m.birth <= k)
    && Messages(t.births) <= t.known
  }

  // ----- one step ----------------------------------------------------------------------------------------

  lemma {:induction false} DeletedAllEntries(s: State, ids: seq<Id>)
    ensures DeletedAll(s, ids).entries.Keys <= s.entries.Keys && DeletedAll(s, ids).lastGenerated == s.lastGenerated
    decreases |ids|
  {
    if ids != [] { DeletedAllEntries(s, ids[..|ids| - 1]); }
  }

  /** The entries of the next state: one written at or above the last ID, or some taken away. */
  lemma EntriesStep(s: State, op: Op)
    requires Inv(s) && !op.SetId?
    ensures var s', a := Next(s, op), Adds(s, op);
      if a.Some? then
        && s'.entries.Keys == s.entries.Keys + {a.value} && s'.lastGenerated == a.value
        && AtMost(s.lastGenerated, a.value) && (a.value in s.entries ==> a.value == s.lastGenerated)
      else s'.entries.Keys <= s.entries.Keys && s'.lastGenerated == s.lastGenerated
  {
    hide DeletedAll, GroupAfter, EvictPending, GroupInv;
    if op.Delete? { DeletedAllEntries(s, op.ids); }
  }

  lemma ReachesIff(s: State, op: Op, n: Name)
    requires Inv(s) && n in s.groups && Adds(s, op).Some?
    ensures var a := Adds(s, op).value;
      Reaches(s, op, n) <==> Less(s.lastGenerated, a) || (a !in s.entries && Ahead(s.groups[n].last, a))
  {
    hide GroupInv;
    if op.AddAuto? {
      AutoIdGrowsIff(s.lastGenerated, op.now);
    }
  }

  lemma ExtendedInStep(s0: State, s: State, op: Op, n: Name, t: Trace, k: nat)
    requires n in s0.groups && InStep(s0, s, n, t, k) && CursorSafe(op, n)
    ensures InStep(s0, Next(s, op), n, Extended(t, s, op, n, k + 1), k + 1)
  {
    hide Next, Inv, DeliveredBy, Adds, Messages;
    var s', t', out := Next(s, op), Extended(t, s, op, n, k + 1), DeliveredBy(s, op, n);
    NextKeepsInv(s, op);
    EntriesStep(s, op);
    CursorStep(s, op, n);
    DeliveredLive(s, op, n);
    LastIdGrows(s0.lastGenerated, s, s');
    if out != [] { AtMostTransitive(out[|out| - 1], s.lastGenerated, s'.lastGenerated); }
    if AtMost(s.groups[n].last, s.lastGenerated) { AtMostTransitive(s.groups[n].last, s.lastGenerated, s'.lastGenerated); }
    BornBounded(t, k, out);
    ExtendedBirths(t, s, op, n, k);
  }

  lemma ExtendedBirths(t: Trace, s: State, op: Op, n: Name, k: nat)
    requires Inv(s) && !op.SetId? && t.births.Keys == s.entries.Keys && Messages(t.births) <= t.known
    requires forall m :: m in t.known ==> m.birth <= k
    requires forall m :: m in t.removed ==> m.birth <= k && (m.id in t.births ==> t.births[m.id] != m.birth)
    ensures var t', s' := Extended(t, s, op, n, k + 1), Next(s, op);
      && t'.births.Keys == s'.entries.Keys && Messages(t'.births) <= t'.known
      && (forall m :: m in t'.known ==> m.birth <= k + 1)
      && (forall m :: m in t'.removed ==> m.birth <= k + 1 && (m.id in t'.births ==> t'.births[m.id] != m.birth))
  {
    hide Next, Inv, DeliveredBy, Adds, NextBirths, Messages;
    EntriesStep(s, op);
    var live, added := Next(s, op).entries.Keys, Adds(s, op);
    NextBirthsOk(t.births, added, live, t.known, t.removed, k);
  }

  lemma NextBirthsOk(births: map<Id, nat>, added: Option<Id>, live: set<Id>, known: set<Message>, removed: set<Message>, k: nat)
    requires Messages(births) <= known && forall m :: m in known ==> m.birth <= k
    requires forall m :: m in removed ==> m.birth <= k && (m.id in births ==> births[m.id] != m.birth)
    requires if added.Some? then live == births.Keys + {added.value} else live <= births.Keys
    ensures var births' := NextBirths(births, added, live, k + 1);
      && births'.Keys == live
      && (forall m :: m in known + Messages(births') ==> m.birth <= k + 1)
      && (forall m :: m in removed + Messages(births - live) ==>
        m.birth <= k + 1 && (m.id in births' ==> births'[m.id] != m.birth))
  {
    assert forall id :: id in births ==> Message(id, births[id]) in Messages(births);
  }

  lemma BornBounded(t: Trace, k: nat, out: seq<Id>)
    requires Messages(t.births) <= t.known && forall m :: m in t.known ==> m.birth <= k
    ensures forall m :: m in Born(t.births, out) ==> m.birth <= k
  {
    assert forall id :: id in t.births ==> Message(id, t.births[id]) in Messages(t.births);
  }

  lemma AtMostTransitive(a: Id, b: Id, c: Id)
    requires AtMost(a, b) && AtMost(b, c)
    ensures AtMost(a, c)
  {
  }

  lemma LastIdGrows(first: Id, s: State, s': State)
    requires AtMost(first, s.lastGenerated) && AtMost(s.lastGenerated, s'.lastGenerated)
    ensures AtMost(first, s'.lastGenerated)
  {
  }

  lemma DeliveredLive(s: State, op: Op, n: Name)
    requires Inv(s) && n in s.groups
    ensures forall id :: id in DeliveredBy(s, op, n) ==> id in s.entries && AtMost(id, s.lastGenerated)
    ensures var out := DeliveredBy(s, op, n); out != [] ==> AtMost(out[|out| - 1], s.lastGenerated)
  {
    hide NewIds, GroupInv;
    if op.ReadGroup? && op.group == n {
      NewIdsLive(s, s.groups[n], op.count);
      var out := DeliveredBy(s, op, n);
      if out != [] { assert out[|out| - 1] in out; }
    }
  }

  /** A read moves messages from ahead of the cursor into the log. */
  lemma ReadLosesNothing(s0: State, s: State, op: Op, n: Name, t: Trace, k: nat)
    requires n in s0.groups && InStep(s0, s, n, t, k) && NothingLost(s0, n, t, s.groups[n].last)
    requires op.ReadGroup? && op.group == n
    ensures n in Next(s, op).groups && NothingLost(s0, n, Extended(t, s, op, n, k + 1), Next(s, op).groups[n].last)
  {
    hide Inv, NewIds, Owed, ReadNew, Ahead;
    var t', g := Extended(t, s, op, n, k + 1), s.groups[n];
    var out := NewIds(s, g, op.count);
    NewIdsAhead(s, g, op.count);
    CursorStep(s, op, n);
    assert Next(s, op).entries == s.entries;
    assert t'.births == t.births;
    assert Messages(t.births) <= t.known;
    forall m | m in t'.known && Owed(s0, n, m)
      ensures m in t'.log || m in t'.removed || Waiting(t', Next(s, op).groups[n].last, m)
    {
      assert m in t.known;
      if Waiting(t, g.last, m) && m.id in out {
        var i :| 0 <= i < |out| && out[i] == m.id;
        assert Born(t.births, out)[i] == m;
      }
    }
  }

  /** Any other operation that adds nothing leaves a message ahead, or takes it out. */
  lemma RemovalLosesNothing(s0: State, s: State, op: Op, n: Name, t: Trace, k: nat)
    requires n in s0.groups && InStep(s0, s, n, t, k) && NothingLost(s0, n, t, s.groups[n].last)
    requires CursorSafe(op, n) && !(op.ReadGroup? && op.group == n) && Adds(s, op).None?
    ensures n in Next(s, op).groups && NothingLost(s0, n, Extended(t, s, op, n, k + 1), Next(s, op).groups[n].last)
  {
    hide Inv, Next, Owed, Ahead;
    var t' := Extended(t, s, op, n, k + 1);
    CursorStays(s, op, n);
    EntriesStep(s, op);
    var gone := t.births - Next(s, op).entries.Keys;
    forall m | m in t'.known && Owed(s0, n, m)
      ensures m in t'.log || m in t'.removed || Waiting(t', s.groups[n].last, m)
    {
      assert m in t.known by {
        assert m in Messages(t'.births) ==> m in Messages(t.births);
      }
      if m.id in gone && m.birth == gone[m.id] { LiveIsKnown(gone, m.id); }
    }
  }

  /** An addition that reaches the group puts one more message ahead and disturbs none. */
  lemma AdditionLosesNothing(s0: State, s: State, op: Op, n: Name, t: Trace, k: nat)
    requires n in s0.groups && InStep(s0, s, n, t, k) && NothingLost(s0, n, t, s.groups[n].last)
    requires CursorSafe(op, n) && Adds(s, op).Some? && Reaches(s, op, n)
    ensures n in Next(s, op).groups && NothingLost(s0, n, Extended(t, s, op, n, k + 1), Next(s, op).groups[n].last)
  {
    hide Inv, Next, Reaches, Ahead;
    var t', a := Extended(t, s, op, n, k + 1), Adds(s, op).value;
    CursorStays(s, op, n);
    EntriesStep(s, op);
    ReachesIff(s, op, n);
    AddedIsNew(s, a);
    forall m | m in t'.known && Owed(s0, n, m)
      ensures m in t'.log || m in t'.removed || Waiting(t', s.groups[n].last, m)
    {
      assert m in Messages(t'.births) && m.id != a ==> m in Messages(t.births);
      if m !in t.known {
        AddedIsAhead(s0, s, n, a, m);
      }
    }
  }

  lemma AddedIsNew(s: State, a: Id)
    requires Inv(s)
    ensures Less(s.lastGenerated, a) ==> a !in s.entries
  {
    hide GroupInv;
  }

  lemma AddedIsAhead(s0: State, s: State, n: Name, a: Id, m: Message)
    requires n in s0.groups && n in s.groups && AtMost(s0.lastGenerated, s.lastGenerated)
    requires AtMost(s.groups[n].last, s.lastGenerated) || s.groups[n].last == s0.groups[n].last
    requires Less(s.lastGenerated, a) || Ahead(s.groups[n].last, a)
    requires m.id == a && Owed(s0, n, m)
    ensures Ahead(s.groups[n].last, a)
  {
    NextIdIff(s.groups[n].last, a);
  }

  lemma LiveIsKnown(births: map<Id, nat>, id: Id)
    requires id in births
    ensures Message(id, births[id]) in Messages(births)
  {
  }

  /** An addition that repeats an ID loses nothing either when what it overwrites is settled and its own
      message is ahead or not owed. */
  lemma RepetitionLosesNothing(s0: State, s: State, op: Op, n: Name, t: Trace, k: nat)
    requires n in s0.groups && InStep(s0, s, n, t, k) && NothingLost(s0, n, t, s.groups[n].last)
    requires CursorSafe(op, n) && Adds(s, op).Some? && Settled(s0, n, t, Adds(s, op).value)
    requires Ahead(s.groups[n].last, Adds(s, op).value) || !Owed(s0, n, Message(Adds(s, op).value, k + 1))
    ensures n in Next(s, op).groups && NothingLost(s0, n, Extended(t, s, op, n, k + 1), Next(s, op).groups[n].last)
  {
    hide Inv, Next, Ahead, Owed;
    var t', a := Extended(t, s, op, n, k + 1), Adds(s, op).value;
    CursorStays(s, op, n);
    EntriesStep(s, op);
    forall m | m in t'.known && Owed(s0, n, m)
      ensures m in t'.log || m in t'.removed || Waiting(t', s.groups[n].last, m)
    {
      assert m in Messages(t'.births) && m.id != a ==> m in Messages(t.births);
    }
  }

  lemma SparingLosesNothing(s0: State, s: State, op: Op, n: Name, t: Trace, k: nat)
    requires n in s0.groups && InStep(s0, s, n, t, k) && NothingLost(s0, n, t, s.groups[n].last)
    requires CursorSafe(op, n) && Adds(s, op).Some? && Spares(s0, s, op, n, t)
    ensures n in Next(s, op).groups && NothingLost(s0, n, Extended(t, s, op, n, k + 1), Next(s, op).groups[n].last)
  {
    hide Inv, Next, NothingLost, Extended, InStep;
    if Reaches(s, op, n) {
      AdditionLosesNothing(s0, s, op, n, t, k);
    } else {
      assert Adds(s, op).value == s.lastGenerated;
      NextIdIff(s.groups[n].last, MAX);
      RepetitionLosesNothing(s0, s, op, n, t, k);
    }
  }

  /** Any other addition loses a message: the one it overwrites, or its own. */
  lemma OverwriteLoses(s0: State, s: State, op: Op, n: Name, t: Trace, k: nat)
    requires n in s0.groups && InStep(s0, s, n, t, k) && AtMost(s0.groups[n].last, s.groups[n].last)
    requires forall m :: m in t.log ==> AtMost(m.id, s.groups[n].last)
    requires CursorSafe(op, n) && !Spares(s0, s, op, n, t)
    ensures n in Next(s, op).groups && !NothingLost(s0, n, Extended(t, s, op, n, k + 1), Next(s, op).groups[n].last)
  {
    hide Inv, Next;
    var t', a, last := Extended(t, s, op, n, k + 1), Adds(s, op).value, s.groups[n].last;
    CursorStays(s, op, n);
    EntriesStep(s, op);
    ReachesIff(s, op, n);
    assert a == s.lastGenerated && AtMost(last, a);
    NextIdIff(last, a);
    var m := if last == a && a != MAX then Message(a, k + 1) else Message(a, t.births[a]);
    assert t'.births == t.births[a := k + 1] && t'.log == t.log;
    LiveIsKnown(t'.births, a);
    if m.birth != k + 1 { LiveIsKnown(t.births, a); }
    assert m in t'.known;
    assert m !in t'.log && m !in t'.removed && !Waiting(t', last, m) && Owed(s0, n, m);
  }

  // ----- whole runs --------------------------------------------------------------------------------------

  ghost predicate AllReach(s: State, ops: seq<Op>, n: Name) {
    forall i :: 0 <= i < |ops| ==> Reaches(Run(s, ops[..i]), ops[i], n)
  }

  lemma AllReachLast(s: State, ops: seq<Op>, op: Op, n: Name)
    ensures AllReach(s, ops + [op], n) <==> AllReach(s, ops, n) && Reaches(Run(s, ops), op, n)
  {
    hide Reaches, Run;
    var all := ops + [op];
    assert all[|ops|] == op && all[..|ops|] == ops;
    assert forall i :: 0 <= i < |ops| ==> all[..i] == ops[..i] && all[i] == ops[i];
  }

  lemma FirstInStep(s: State, n: Name)
    requires Inv(s) && n in s.groups
    ensures InStep(s, s, n, First(s), 0) && NothingLost(s, n, First(s), s.groups[n].last)
  {
    hide Inv;
    forall m | m in First(s).known && Owed(s, n, m) ensures Waiting(First(s), s.groups[n].last, m) {
      NextIdIff(s.groups[n].last, m.id);
    }
  }

  lemma {:induction false} TraceInStep(s: State, ops: seq<Op>, n: Name)
    requires Inv(s) && n in s.groups && AllCursorSafe(ops, n)
    ensures InStep(s, Run(s, ops), n, Traced(s, ops, n), |ops|)
    decreases |ops|
  {
    hide Inv, InStep, Next, Extended, First;
    if ops == [] {
      FirstInStep(s, n);
    } else {
      var front := ops[..|ops| - 1];
      TraceInStep(s, front, n);
      ExtendedInStep(s, Run(s, front), ops[|ops| - 1], n, Traced(s, front, n), |front|);
    }
  }

  /** After a run: every message owed has been delivered, was taken out, or is still ahead. */
  ghost predicate LosesNothing(s: State, ops: seq<Op>, n: Name)
    requires n in s.groups
  {
    n in Run(s, ops).groups && NothingLost(s, n, Traced(s, ops, n), Run(s, ops).groups[n].last)
  }

  /** Every addition of the run loses nothing. */
  ghost predicate AllSpare(s: State, ops: seq<Op>, n: Name)
    requires n in s.groups
  {
    forall i :: 0 <= i < |ops| ==> Spares(s, Run(s, ops[..i]), ops[i], n, Traced(s, ops[..i], n))
  }

  lemma AllSpareLast(s: State, ops: seq<Op>, op: Op, n: Name)
    requires n in s.groups
    ensures AllSpare(s, ops + [op], n) <==> AllSpare(s, ops, n) && Spares(s, Run(s, ops), op, n, Traced(s, ops, n))
  {
    hide Spares, Run, Traced;
    var all := ops + [op];
    assert all[|ops|] == op && all[..|ops|] == ops;
    assert forall i :: 0 <= i < |ops| ==> all[..i] == ops[..i] && all[i] == ops[i];
  }

  lemma StepLosesNothing(s0: State, s: State, op: Op, n: Name, t: Trace, k: nat)
    requires n in s0.groups && InStep(s0, s, n, t, k) && NothingLost(s0, n, t, s.groups[n].last)
    requires CursorSafe(op, n) && Spares(s0, s, op, n, t)
    ensures n in Next(s, op).groups && NothingLost(s0, n, Extended(t, s, op, n, k + 1), Next(s, op).groups[n].last)
  {
    hide Next, NothingLost, Extended, Spares, CursorSafe;
    if op.ReadGroup? && op.group == n {
      ReadLosesNothing(s0, s, op, n, t, k);
    } else if Adds(s, op).None? {
      RemovalLosesNothing(s0, s, op, n, t, k);
    } else {
      SparingLosesNothing(s0, s, op, n, t, k);
    }
  }

  lemma {:induction false} AllSparedLosesNothing(s: State, ops: seq<Op>, n: Name)
    requires Inv(s) && n in s.groups && AllCursorSafe(ops, n) && AllSpare(s, ops, n)
    ensures LosesNothing(s, ops, n)
    decreases |ops|
  {
    hide Inv, InStep, NothingLost, Next, Extended, First, Spares, AllSpare;
    if ops == [] {
      FirstInStep(s, n);
    } else {
      var front, op := ops[..|ops| - 1], ops[|ops| - 1];
      assert front + [op] == ops;
      AllSpareLast(s, front, op, n);
      AllSparedLosesNothing(s, front, n);
      TraceInStep(s, front, n);
      InStepHasGroup(s, Run(s, front), n, Traced(s, front, n), |front|);
      StepLosesNothing(s, Run(s, front), op, n, Traced(s, front, n), |front|);
    }
  }

  /** Over every run that does not rewind the cursor and whose additions all reach the group, no
      message is lost. */
  lemma ReachingLosesNothing(s: State, ops: seq<Op>, n: Name)
    requires Inv(s) && n in s.groups && AllCursorSafe(ops, n) && AllReach(s, ops, n)
    ensures LosesNothing(s, ops, n)
  {
    hide Inv, LosesNothing, Reaches, Run, Traced;
    AllSparedLosesNothing(s, ops, n);
  }

  lemma InStepHasGroup(s0: State, s: State, n: Name, t: Trace, k: nat)
    requires n in s0.groups && InStep(s0, s, n, t, k)
    ensures n in s.groups && Inv(s)
  {
  }

  /** Over every run that does not rewind the cursor, nothing is lost at any point exactly when every
      addition spares the group. Where the cursor starts within the stream and the run stays below the
      maximal ID, that is when every addition is given a new ID, or one that is vacant and still ahead of
      the cursor. */
  lemma NothingLostIff(s: State, ops: seq<Op>, n: Name)
    requires Inv(s) && n in s.groups && AllCursorSafe(ops, n)
    ensures (forall k :: 0 <= k <= |ops| ==> LosesNothing(s, ops[..k], n)) <==> AllSpare(s, ops, n)
    ensures AtMost(s.groups[n].last, s.lastGenerated) && Run(s, ops).lastGenerated != MAX ==>
      (AllSpare(s, ops, n) <==> AllReach(s, ops, n))
  {
    hide Inv, LosesNothing, AllSpare, AllReach, Run;
    if AllSpare(s, ops, n) {
      forall k | 0 <= k <= |ops| ensures LosesNothing(s, ops[..k], n) {
        AllSparePrefix(s, ops, k, n);
        AllSparedLosesNothing(s, ops[..k], n);
      }
    } else {
      var k := FirstLoss(s, ops, n);
    }
    if AtMost(s.groups[n].last, s.lastGenerated) && Run(s, ops).lastGenerated != MAX {
      SparesIsReaches(s, ops, n);
    }
  }

  lemma AllSpareNone(s: State, n: Name)
    requires n in s.groups
    ensures AllSpare(s, [], n) && AllReach(s, [], n)
  {
  }

  lemma AllSparePrefix(s: State, ops: seq<Op>, k: nat, n: Name)
    requires n in s.groups && AllSpare(s, ops, n) && k <= |ops|
    ensures AllSpare(s, ops[..k], n)
  {
    hide Spares, Run, Traced;
    assert forall i :: 0 <= i < k ==> ops[..k][..i] == ops[..i] && ops[..k][i] == ops[i];
  }

  lemma {:induction false} SparesIsReaches(s: State, ops: seq<Op>, n: Name)
    requires Inv(s) && n in s.groups && AllCursorSafe(ops, n)
    requires AtMost(s.groups[n].last, s.lastGenerated) && Run(s, ops).lastGenerated != MAX
    ensures AllSpare(s, ops, n) <==> AllReach(s, ops, n)
    decreases |ops|
  {
    hide Inv, Next, Reaches, AllReach, AllSpare, Traced;
    AllSpareNone(s, n);
    if ops != [] {
      var front, op := ops[..|ops| - 1], ops[|ops| - 1];
      assert front + [op] == ops;
      AllReachLast(s, front, op, n);
      AllSpareLast(s, front, op, n);
      TraceInStep(s, front, n);
      LastIdStep(Run(s, front), op);
      SparesIsReaches(s, front, n);
    }
  }

  /** The first addition that does not spare the group loses a message. */
  lemma {:induction false} FirstLoss(s: State, ops: seq<Op>, n: Name) returns (k: nat)
    requires Inv(s) && n in s.groups && AllCursorSafe(ops, n) && !AllSpare(s, ops, n)
    ensures k <= |ops| && !LosesNothing(s, ops[..k], n)
    decreases |ops|
  {
    hide Inv, Next, Extended, NothingLost, Spares, AllSpare;
    assert ops != [] by { AllSpareNone(s, n); }
    var front, op := ops[..|ops| - 1], ops[|ops| - 1];
    assert front + [op] == ops;
    AllSpareLast(s, front, op, n);
    TraceInStep(s, front, n);
    if !AllSpare(s, front, n) {
      k := FirstLoss(s, front, n);
      assert front[..k] == ops[..k];
    } else {
      CursorGrows(s, front, n);
      OverwriteLoses(s, Run(s, front), op, n, Traced(s, front, n), |front|);
      k := |ops|;
      assert ops[..k] == ops;
    }
  }

  lemma LastIdStep(s: State, op: Op)
    requires Inv(s) && !op.SetId?
    ensures Next(s, op).lastGenerated != MAX ==> s.lastGenerated != MAX
  {
    hide Next, Inv;
    EntriesStep(s, op);
  }

  /** The cursor only moves up, and nothing in the log is past it. */
  lemma {:induction false} CursorGrows(s: State, ops: seq<Op>, n: Name)
    requires Inv(s) && n in s.groups && AllCursorSafe(ops, n)
    ensures n in Run(s, ops).groups && AtMost(s.groups[n].last, Run(s, ops).groups[n].last)
    ensures forall m :: m in Traced(s, ops, n).log ==> AtMost(m.id, Run(s, ops).groups[n].last)
    decreases |ops|
  {
    hide Inv, Next, DeliveredBy, InStep, NextBirths, Messages, AtMost, CursorSafe;
    if ops == [] {
      assert AtMost(s.groups[n].last, s.groups[n].last) by { AtMostSame(s.groups[n].last); }
    } else {
      var front, op := ops[..|ops| - 1], ops[|ops| - 1];
      CursorGrows(s, front, n);
      TraceInStep(s, front, n);
      var before, t := Run(s, front), Traced(s, front, n);
      InStepHasGroup(s, before, n, t, |front|);
      DeliveredGrows(before, op, n);
      var last, last' := before.groups[n].last, Next(before, op).groups[n].last;
      AtMostTransitive(s.groups[n].last, last, last');
      forall m | m in Traced(s, ops, n).log ensures AtMost(m.id, last') {
        if m in t.log {
          AtMostTransitive(m.id, last, last');
        } else {
          assert m in Born(t.births, DeliveredBy(before, op, n));
        }
      }
    }
  }

  lemma AtMostSame(a: Id)
    ensures AtMost(a, a)
  {
  }

  lemma DeliveredGrows(s: State, op: Op, n: Name)
    requires Inv(s) && n in s.groups && CursorSafe(op, n)
    ensures n in Next(s, op).groups && AtMost(s.groups[n].last, Next(s, op).groups[n].last)
    ensures forall id :: id in DeliveredBy(s, op, n) ==> AtMost(id, Next(s, op).groups[n].last)
  {
    hide Inv, Next;
    CursorStep(s, op, n);
    ReadInTurn(s, op, n);
    var out := DeliveredBy(s, op, n);
    if out != [] {
      var top := out[|out| - 1];
      assert top in out;
      NewIdsAhead(s, s.groups[n], op.count);
      NextIdIff(s.groups[n].last, top);
      forall id | id in out ensures AtMost(id, top) {
        var i :| 0 <= i < |out| && out[i] == id;
      }
    }
  }
}
