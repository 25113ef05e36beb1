/** When trimming keeps the counters of src/stream_type.rs right, whatever order the consumers are
    walked in. */
module StreamTrims {
  import opened StreamIds
  import opened ConsumerGroups
  import opened Streams

  /** The operation as it may turn out in a state: an eviction debits, in each group, somebody with
      something pending. */
  ghost predicate Chosen(s: State, op': Op, op: Op) {
    if op.Evict? then op'.Evict? && op'.evicted == op.evicted && WalkDebits(s, op.evicted, op'.debits) else op' == op
  }

  /** A run with all its walks over consumers, for a run in which the debits are left open. */
  ghost predicate Walked(ops': seq<Op>, ops: seq<Op>) {
    && |ops'| == |ops|
    && (ops != [] ==>
      var front', front := ops'[..|ops| - 1], ops[..|ops| - 1];
      Walked(front', front) && Chosen(Run(EMPTY, front'), ops'[|ops| - 1], ops[|ops| - 1]))
  }

  /** In every group that has the entry pending, its owner is the only one with anything pending. */
  ghost predicate Alone(s: State, id: Id) {
    forall n :: n in s.groups && id in s.groups[n].pending ==> OnlyOwnerPends(s.groups[n], id)
  }

  function OwnersOf(s: State, id: Id): map<Name, Name> {
    map n | n in s.groups && id in s.groups[n].pending :: s.groups[n].pending[id].consumer
  }

  /** The operation with the owners debited. */
  function Fair(s: State, op: Op): Op {
    if op.Evict? then Evict(op.evicted, OwnersOf(s, op.evicted)) else op
  }

  function FairOps(ops: seq<Op>): (r: seq<Op>)
    ensures |r| == |ops|
  {
    if ops == [] then []
    else var front := FairOps(ops[..|ops| - 1]); front + [Fair(Run(EMPTY, front), ops[|ops| - 1])]
  }

  /** Every eviction comes when nobody but the owner has anything pending; all before it have debited
      the owners. */
  ghost predicate AloneThroughout(ops: seq<Op>) {
    ops != [] ==>
      var front, last := ops[..|ops| - 1], ops[|ops| - 1];
      AloneThroughout(front) && (last.Evict? ==> Alone(Run(EMPTY, FairOps(front)), last.evicted))
  }

  lemma WalkedSnoc(ops': seq<Op>, op': Op, ops: seq<Op>, op: Op)
    ensures Walked(ops' + [op'], ops + [op]) <==> Walked(ops', ops) && Chosen(Run(EMPTY, ops'), op', op)
  {
    hide Chosen, Run;
    assert (ops' + [op'])[..|ops'|] == ops' && (ops + [op])[..|ops|] == ops;
  }

  lemma {:induction false} FairIsWalked(ops: seq<Op>)
    ensures CountedThroughout(FairOps(ops)) && Walked(FairOps(ops), ops)
  {
    hide AllCounted, CountedThroughout, Inv, Run, Chosen, Fair, Walked;
    if ops == [] {
      EmptyIsCounted();
      assert Walked([], []) by { NothingWalked(); }
    } else {
      var front, last := ops[..|ops| - 1], ops[|ops| - 1];
      FairIsWalked(front);
      var s := Run(EMPTY, FairOps(front));
      RunKeepsInv(FairOps(front));
      ThroughoutLast(FairOps(front), Fair(s, last));
      FairStep(s, last);
      RunSnoc(EMPTY, FairOps(front), Fair(s, last));
      assert ops == front + [last];
      WalkedSnoc(FairOps(front), Fair(s, last), front, last);
    }
  }

  lemma NothingWalked()
    ensures Walked([], [])
  {
  }

  lemma FairStep(s: State, op: Op)
    requires Inv(s) && AllCounted(s)
    ensures AllCounted(Next(s, Fair(s, op))) && Chosen(s, Fair(s, op), op)
  {
    hide Inv, AllCounted, Next, Pends, SomePends;
    NextKeepsInv(s, Fair(s, op));
    if op.Evict? { OwnersPend(s, op.evicted); }
  }

  /** When the owner is alone, every walk debits the owner. */
  lemma AloneIsFair(s: State, op': Op, op: Op)
    requires Inv(s) && AllCounted(s) && Chosen(s, op', op) && (op.Evict? ==> Alone(s, op.evicted))
    ensures Next(s, op') == Next(s, Fair(s, op))
  {
    hide Inv, AllCounted, EvictPending;
    if op.Evict? {
      OwnersPend(s, op.evicted);
      var id := op.evicted;
      forall n | n in s.groups
        ensures EvictPending(s.groups[n], id, Debited(op'.debits, n)) == EvictPending(s.groups[n], id, Debited(OwnersOf(s, id), n))
      {
        AloneDebits(s.groups[n], id, Debited(op'.debits, n), Debited(OwnersOf(s, id), n));
      }
    }
  }

  lemma AloneDebits(g: Group, id: Id, d: Name, d': Name)
    requires id in g.pending ==> Pends(g, g.pending[id].consumer) && OnlyOwnerPends(g, id)
    requires id in g.pending && SomePends(g) ==> Pends(g, d)
    requires id in g.pending ==> d' == g.pending[id].consumer
    ensures EvictPending(g, id, d) == EvictPending(g, id, d')
  {
  }

  lemma {:induction false} AloneCounts(ops': seq<Op>, ops: seq<Op>)
    requires Walked(ops', ops) && AloneThroughout(ops)
    ensures CountedThroughout(ops') && Run(EMPTY, ops') == Run(EMPTY, FairOps(ops))
    decreases |ops|
  {
    hide AllCounted, CountedThroughout, Inv, Next, Chosen, Fair, Alone;
    if ops == [] {
      EmptyIsCounted();
    } else {
      var front', front := ops'[..|ops| - 1], ops[..|ops| - 1];
      var last', last := ops'[|ops| - 1], ops[|ops| - 1];
      AloneCounts(front', front);
      var s := Run(EMPTY, front');
      RunKeepsInv(front');
      ThroughoutLast(front', last');
      AloneIsFair(s, last', last);
      FairStep(s, last);
      assert ops' == front' + [last'];
      RunSnoc(EMPTY, FairOps(front), Fair(s, last));
    }
  }

  ghost function SomePending(g: Group): (c: Name)
    requires SomePends(g)
    ensures Pends(g, c)
  {
    var c :| c in g.consumers && Pends(g, c); c
  }

  /** Every state lets every operation go on somehow. */
  lemma SomeChoice(s: State, op: Op) returns (op': Op)
    ensures Chosen(s, op', op)
  {
    op' := op;
    if op.Evict? {
      var debits := map n | n in s.groups && SomePends(s.groups[n]) :: SomePending(s.groups[n]);
      op' := Evict(op.evicted, debits);
    }
  }

  lemma {:induction false} Continue(ops': seq<Op>, ops: seq<Op>, k: nat) returns (all: seq<Op>)
    requires k <= |ops| && Walked(ops', ops[..k])
    ensures Walked(all, ops) && ops' <= all
    decreases |ops| - k
  {
    hide Chosen, Run, Walked;
    if k == |ops| {
      assert ops[..k] == ops;
      return ops';
    }
    var op' := SomeChoice(Run(EMPTY, ops'), ops[k]);
    WalkedSnoc(ops', op', ops[..k], ops[k]);
    assert ops[..k + 1] == ops[..k] + [ops[k]];
    all := Continue(ops' + [op'], ops, k + 1);
  }

  lemma MiscountStays(ops': seq<Op>, all: seq<Op>)
    requires ops' <= all && !AllCounted(Run(EMPTY, ops'))
    ensures !CountedThroughout(all)
  {
    hide AllCounted, Run;
    assert all[..|ops'|] == ops';
  }

  lemma PrefixMiscounts(ops': seq<Op>, all: seq<Op>)
    requires ops' <= all && !CountedThroughout(ops')
    ensures !CountedThroughout(all)
  {
    hide AllCounted, Run;
    var k :| 0 <= k <= |ops'| && !AllCounted(Run(EMPTY, ops'[..k]));
    assert all[..k] == ops'[..k];
  }

  lemma SomeMiscount(s: State, id: Id) returns (debits: map<Name, Name>)
    requires Inv(s) && AllCounted(s) && !Alone(s, id)
    ensures WalkDebits(s, id, debits) && !AllCounted(Evicted(s, id, debits))
  {
    hide Inv, AllCounted, Evicted, WalkDebits;
    EvictedCountsIff(s, id);
    debits :| WalkDebits(s, id, debits) && !AllCounted(Evicted(s, id, debits));
  }

  lemma ChosenEvict(s: State, op: Op, debits: map<Name, Name>)
    requires op.Evict? && WalkDebits(s, op.evicted, debits)
    ensures Chosen(s, Evict(op.evicted, debits), op)
  {
  }

  /** Where an eviction comes too early, some walk miscounts. */
  lemma {:induction false} NotAloneMiscounts(ops: seq<Op>) returns (ops': seq<Op>)
    requires !AloneThroughout(ops)
    ensures Walked(ops', ops) && !CountedThroughout(ops')
    decreases |ops|
  {
    hide AllCounted, CountedThroughout, Inv, Run, Chosen, Alone, Walked, Evicted;
    var front, last := ops[..|ops| - 1], ops[|ops| - 1];
    if !AloneThroughout(front) {
      var short := NotAloneMiscounts(front);
      ops' := Continue(short, ops, |ops| - 1);
      PrefixMiscounts(short, ops');
    } else {
      var s := Run(EMPTY, FairOps(front));
      FairIsWalked(front);
      RunKeepsInv(FairOps(front));
      ThroughoutLast(FairOps(front), last);
      var debits := SomeMiscount(s, last.evicted);
      var op' := Evict(last.evicted, debits);
      assert ops == front + [last];
      assert Chosen(s, op', last) by { ChosenEvict(s, last, debits); }
      WalkedSnoc(FairOps(front), op', front, last);
      ops' := FairOps(front) + [op'];
      RunSnoc(EMPTY, FairOps(front), op');
      assert Next(s, op') == Evicted(s, last.evicted, debits);
      MiscountStays(ops', ops');
    }
  }

  /** The counters are right throughout a run, in every order of walking the consumers, exactly when
      every eviction comes while nobody but the owner has anything pending in the groups concerned. */
  lemma TrimsCountIff(ops: seq<Op>)
    ensures (forall ops' :: Walked(ops', ops) ==> CountedThroughout(ops')) <==> AloneThroughout(ops)
  {
    hide Walked, CountedThroughout, AloneThroughout;
    if AloneThroughout(ops) {
      forall ops' | Walked(ops', ops) ensures CountedThroughout(ops') { AloneCounts(ops', ops); }
    } else {
      var ops' := NotAloneMiscounts(ops);
    }
  }
}
