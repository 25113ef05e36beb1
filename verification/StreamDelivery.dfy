/** What a consumer group delivers over whole runs: in order, nothing twice, no message lost, and
    exactly when each of these holds. */
module StreamDelivery {
  import opened Basics
  import opened StreamIds
  import opened ConsumerGroups
  import opened AutoClaimWalks
  import opened Streams

  /** The entries one operation delivers as new to group `n`. */
  ghost function DeliveredBy(s: State, op: Op, n: Name): seq<Id> {
    if op.ReadGroup? && op.group == n && n in s.groups then NewIds(s, s.groups[n], op.count) else []
  }

  /** The group's cursor moves only by reads, and the last ID only by additions. */
  ghost predicate CursorSafe(op: Op, n: Name) {
    && !op.SetId?
    && (op.SetGroupId? || op.DestroyGroup? ==> op.group != n)
  }

  ghost predicate AllCursorSafe(ops: seq<Op>, n: Name) {
    forall i :: 0 <= i < |ops| ==> CursorSafe(ops[i], n)
  }

  /** What a read with the cursor at `last` can still see. */
  predicate Ahead(last: Id, id: Id) {
    AtMost(NextId(last), id)
  }

  // ----- one read ----------------------------------------------------------------------------------

  /** A `>` read delivers, in order, a prefix of what is ahead of the cursor, and what it leaves is
      still ahead. */
  lemma NewIdsAhead(s: State, g: Group, count: Option<nat>)
    ensures var out := NewIds(s, g, count);
      && Ascending(out)
      && (forall id :: id in out ==> id in s.entries && Ahead(g.last, id))
      && (forall id :: id in s.entries && Ahead(g.last, id) && id !in out ==> out != [] && Ahead(out[|out| - 1], id))
  {
    hide InOrder, Less, NextId, Limited;
    var ahead := From(s.entries.Keys, NextId(g.last));
    var all, out := InOrder(ahead), NewIds(s, g, count);
    InOrderSorts(ahead);
    LimitedWithin(all, count);
    forall id | id in out ensures id in s.entries && Ahead(g.last, id) {
      assert id in all;
    }
    forall id | id in s.entries && Ahead(g.last, id) && id !in out ensures out != [] && Ahead(out[|out| - 1], id) {
      assert id in ahead && id in all;
      var i :| 0 <= i < |all| && all[i] == id;
      assert forall k :: 0 <= k < |out| ==> out[k] == all[k];
      assert Less(out[|out| - 1], id);
      NextIdIff(out[|out| - 1], id);
    }
  }

  /** The cursor stands on a live entry with the maximal ID. */
  ghost predicate StuckAtMax(s: State, n: Name) {
    n in s.groups && s.groups[n].last == MAX && MAX in s.entries
  }

  /** A `>` read delivers something that is not after the cursor exactly when the cursor stands on
      an entry with the maximal ID, which it then delivers again. */
  lemma RedeliversIff(s: State, op: Op, n: Name)
    requires n in s.groups && op.ReadGroup? && op.group == n
    ensures (exists id :: id in DeliveredBy(s, op, n) && !Less(s.groups[n].last, id)) <==> StuckAtMax(s, n)
  {
    hide NewIds, Less;
    var g := s.groups[n];
    var out := NewIds(s, g, op.count);
    NewIdsAhead(s, g, op.count);
    forall id | id in out ensures !Less(g.last, id) <==> g.last == MAX && id == MAX {
      NextIdIff(g.last, id);
      LessIrreflexive(MAX);
    }
    if StuckAtMax(s, n) {
      NextIdIff(MAX, MAX);
      assert Ahead(g.last, MAX);
      if MAX !in out {
        NextIdIff(MAX, out[0]);
        LessThanMax(out[0]);
        assert out[0] in out;
      }
    }
  }

  lemma LessIrreflexive(a: Id)
    ensures !Less(a, a)
  {
  }

  lemma LessThanMax(a: Id)
    ensures !Less(MAX, a)
  {
  }

  // ----- the deliveries in order ---------------------------------------------------------------------

  /** Everything delivered as new to group `n` over a run, in order. */
  ghost function Deliveries(s: State, ops: seq<Op>, n: Name): seq<Id> {
    if ops == [] then []
    else Deliveries(s, ops[..|ops| - 1], n) + DeliveredBy(Run(s, ops[..|ops| - 1]), ops[|ops| - 1], n)
  }

  /** Strictly increasing, and past the cursor from the start: nothing comes twice. */
  ghost predicate InTurn(cursor: Id, log: seq<Id>) {
    Ascending([cursor] + log)
  }

  /** Operations other than reads of this group leave its cursor alone. */
  lemma CursorStays(s: State, op: Op, n: Name)
    requires n in s.groups && CursorSafe(op, n) && !(op.ReadGroup? && op.group == n)
    ensures n in Next(s, op).groups && Next(s, op).groups[n].last == s.groups[n].last
  {
    hide NewIds, HistoryIds, ReadNew, DeliverAll, Walked, InOrder;
    match op
    case Delete(ids) => DeletedAllCursor(s, ids, n);
    case Claim(_, c, ids, now, opts) =>
      if op.group in s.groups { ClaimAllCursor(s.groups[op.group], s.entries.Keys, c, ids, now, opts); }
    case Ack(_, ids) => if op.group in s.groups { AckAllCursor(s.groups[op.group], ids); }
    case ReadHistory(_, c, after, count, now) =>
      if op.group in s.groups {
        TouchAllCursor(Ensure(s.groups[op.group], c, now), HistoryIds(s, s.groups[op.group], c, after, count), now);
      }
    case AutoClaim(_, scan, from) =>
      if op.group in s.groups {
        var g, live := s.groups[op.group], s.entries.Keys;
        WalkedCursor(Walk(g, [], [], None), live, scan, InOrder(Candidates(g, live, scan, from)));
      }
    case _ =>
  }

  lemma {:induction false} DeletedAllCursor(s: State, ids: seq<Id>, n: Name)
    requires n in s.groups
    ensures n in DeletedAll(s, ids).groups && DeletedAll(s, ids).groups[n].last == s.groups[n].last
    decreases |ids|
  {
    if ids != [] { DeletedAllCursor(s, ids[..|ids| - 1], n); }
  }

  lemma {:induction false} ClaimAllCursor(g: Group, live: set<Id>, c: Name, ids: seq<Id>, now: nat, opts: ClaimOpts)
    ensures ClaimAll(g, live, c, ids, now, opts).last == g.last
    decreases |ids|
  {
    if ids != [] { ClaimAllCursor(g, live, c, ids[..|ids| - 1], now, opts); }
  }

  lemma {:induction false} AckAllCursor(g: Group, ids: seq<Id>)
    ensures AckAll(g, ids).last == g.last
  {
    if ids != [] { AckAllCursor(g, ids[..|ids| - 1]); }
  }

  lemma {:induction false} TouchAllCursor(g: Group, ids: seq<Id>, now: nat)
    ensures TouchAll(g, ids, now).last == g.last
    decreases |ids|
  {
    if ids != [] { TouchAllCursor(g, ids[..|ids| - 1], now); }
  }

  /** The cursor is the last delivery, or where it was. */
  lemma CursorStep(s: State, op: Op, n: Name)
    requires Inv(s) && n in s.groups && CursorSafe(op, n)
    ensures var s', out := Next(s, op), DeliveredBy(s, op, n);
      n in s'.groups && s'.groups[n].last == if out == [] then s.groups[n].last else out[|out| - 1]
  {
    hide NewIds, ReadNew, DeliverAll;
    if op.ReadGroup? && op.group == n {
      NewIdsLive(s, s.groups[n], op.count);
      ReadNewKeeps(s.entries, s.groups[n], op.consumer, NewIds(s, s.groups[n], op.count), op.time, op.noack);
    } else {
      CursorStays(s, op, n);
    }
  }

  /** Appending to a log whose last element is the cursor. */
  lemma InTurnAppend(cursor: Id, log: seq<Id>, out: seq<Id>)
    requires Ascending(out)
    ensures var last := if log == [] then cursor else log[|log| - 1];
      InTurn(cursor, log + out) <==> InTurn(cursor, log) && forall i :: 0 <= i < |out| ==> Less(last, out[i])
  {
    var was := [cursor] + log;
    assert [cursor] + (log + out) == was + out;
    AscendingConcat(was, out);
  }

  lemma AscendingConcat(a: seq<Id>, b: seq<Id>)
    requires a != [] && Ascending(b)
    ensures Ascending(a + b) <==> Ascending(a) && forall i :: 0 <= i < |b| ==> Less(a[|a| - 1], b[i])
  {
    hide Less;
    var all, last := a + b, a[|a| - 1];
    if Ascending(a) && forall i :: 0 <= i < |b| ==> Less(last, b[i]) {
      forall i, j | 0 <= i < j < |all| ensures Less(all[i], all[j]) {
        if i < |a| - 1 && |a| <= j { LessTransitive(a[i], last, b[j - |a|]); }
      }
    }
    if Ascending(all) {
      assert forall i :: 0 <= i < |a| ==> all[i] == a[i];
      assert forall i :: 0 <= i < |b| ==> all[|a| + i] == b[i];
    }
  }

  lemma LessTransitive(a: Id, b: Id, c: Id)
    requires Less(a, b) && Less(b, c)
    ensures Less(a, c)
  {
  }

  /** A read of the group while its cursor is stuck. */
  ghost predicate Repeats(s: State, op: Op, n: Name) {
    op.ReadGroup? && op.group == n && StuckAtMax(s, n)
  }

  ghost predicate NeverRepeats(s: State, ops: seq<Op>, n: Name) {
    forall i :: 0 <= i < |ops| ==> !Repeats(Run(s, ops[..i]), ops[i], n)
  }

  lemma NeverRepeatsLast(s: State, ops: seq<Op>, op: Op, n: Name)
    ensures NeverRepeats(s, ops + [op], n) <==> NeverRepeats(s, ops, n) && !Repeats(Run(s, ops), op, n)
  {
    hide Repeats, Run;
    var all := ops + [op];
    assert all[|ops|] == op && all[..|ops|] == ops;
    assert forall i :: 0 <= i < |ops| ==> all[..i] == ops[..i] && all[i] == ops[i];
  }

  /** Over every run that does not rewind the cursor, the concatenated deliveries are strictly
      increasing from the initial cursor on exactly when no read finds the cursor on a live entry with
      the maximal ID. */
  lemma {:induction false} DeliveriesInTurnIff(s: State, ops: seq<Op>, n: Name)
    requires Inv(s) && n in s.groups && AllCursorSafe(ops, n)
    ensures Inv(Run(s, ops)) && n in Run(s, ops).groups
    ensures var log := Deliveries(s, ops, n);
      Run(s, ops).groups[n].last == if log == [] then s.groups[n].last else log[|log| - 1]
    ensures InTurn(s.groups[n].last, Deliveries(s, ops, n)) <==> NeverRepeats(s, ops, n)
    decreases |ops|
  {
    hide Next, Inv, DeliveredBy, Repeats, NeverRepeats, InTurn;
    var cursor := s.groups[n].last;
    if ops == [] {
      NothingInTurn(s, n);
    } else {
      var front, op := ops[..|ops| - 1], ops[|ops| - 1];
      assert front + [op] == ops;
      DeliveriesInTurnIff(s, front, n);
      var before := Run(s, front);
      NextKeepsInv(before, op);
      CursorStep(before, op, n);
      ReadInTurn(before, op, n);
      InTurnAppend(cursor, Deliveries(s, front, n), DeliveredBy(before, op, n));
      NeverRepeatsLast(s, front, op, n);
    }
  }

  lemma NothingInTurn(s: State, n: Name)
    requires n in s.groups
    ensures InTurn(s.groups[n].last, []) && NeverRepeats(s, [], n)
  {
  }

  lemma ReadInTurn(s: State, op: Op, n: Name)
    requires n in s.groups
    ensures Ascending(DeliveredBy(s, op, n))
    ensures (forall i :: 0 <= i < |DeliveredBy(s, op, n)| ==> Less(s.groups[n].last, DeliveredBy(s, op, n)[i]))
       <==> !Repeats(s, op, n)
  {
    hide NewIds, Less, StuckAtMax;
    var out := DeliveredBy(s, op, n);
    if op.ReadGroup? && op.group == n {
      NewIdsAhead(s, s.groups[n], op.count);
      RedeliversIff(s, op, n);
      assert forall i :: 0 <= i < |out| ==> out[i] in out;
      if StuckAtMax(s, n) {
        var id :| id in out && !Less(s.groups[n].last, id);
        var i :| 0 <= i < |out| && out[i] == id;
      }
    }
  }
}
