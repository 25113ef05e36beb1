/** Consumer groups of src/stream_type.rs: the pending entries list and the per-consumer counters
    kept beside it. */
module ConsumerGroups {
  import opened Basics
  import opened StreamIds

  type Name = Bytes

  datatype PendingEntry = PendingEntry(consumer: Name, time: nat, count: nat)
  datatype Consumer = Consumer(seen: nat, pending: nat)
  datatype Group = Group(last: Id, consumers: map<Name, Consumer>, pending: map<Id, PendingEntry>)

  ghost function Owned(g: Group, c: Name): set<Id> {
    set id | id in g.pending && g.pending[id].consumer == c
  }

  /** Every pending entry belongs to a registered consumer. */
  ghost predicate Registered(g: Group) {
    forall id :: id in g.pending ==> g.pending[id].consumer in g.consumers
  }

  /** A counter is the number of pending entries its consumer owns. */
  ghost predicate CountsRight(g: Group, c: Name) {
    c in g.consumers ==> g.consumers[c].pending == |Owned(g, c)|
  }

  ghost predicate Counted(g: Group) {
    forall c {:trigger CountsRight(g, c)} :: CountsRight(g, c)
  }

  ghost predicate CountedExcept(g: Group, d: Name) {
    forall c {:trigger CountsRight(g, c)} :: c != d ==> CountsRight(g, c)
  }

  // ----- steps on one group ------------------------------------------------------------------------

  function Debit(consumers: map<Name, Consumer>, c: Name): map<Name, Consumer> {
    if c in consumers && consumers[c].pending > 0
    then consumers[c := consumers[c].(pending := consumers[c].pending - 1)] else consumers
  }

  function Credit(consumers: map<Name, Consumer>, c: Name): map<Name, Consumer> {
    if c in consumers then consumers[c := consumers[c].(pending := consumers[c].pending + 1)] else consumers
  }

  /** Remove a pending entry and debit its owner, as XACK, XDEL and the orphan paths do. */
  function DropPending(g: Group, id: Id): Group {
    if id !in g.pending then g
    else g.(pending := g.pending - {id}, consumers := Debit(g.consumers, g.pending[id].consumer))
  }

  /** Remove a pending entry and debit whichever consumer comes first with a positive counter, as
      the trim path does. */
  function EvictPending(g: Group, id: Id, debited: Name): Group {
    if id !in g.pending then g
    else g.(pending := g.pending - {id}, consumers := Debit(g.consumers, debited))
  }

  function Ensure(g: Group, c: Name, now: nat): Group {
    g.(consumers := g.consumers[c := if c in g.consumers then g.consumers[c].(seen := now) else Consumer(now, 0)])
  }

  function AddConsumer(g: Group, c: Name, now: nat): Group {
    if c in g.consumers then g else g.(consumers := g.consumers[c := Consumer(now, 0)])
  }

  function RemoveConsumer(g: Group, c: Name): Group {
    if c !in g.consumers then g
    else g.(consumers := g.consumers - {c},
            pending := map id | id in g.pending && g.pending[id].consumer != c :: g.pending[id])
  }

  datatype ClaimOpts = ClaimOpts(minIdle: nat, force: bool, deliveryTime: nat, retryCount: int, justId: bool)

  function Saturating(n: nat): nat {
    if n >= MAX_U64 then MAX_U64 else n
  }

  function Idle(now: nat, time: nat): nat {
    if now >= time then now - time else 0
  }

  predicate Claimable(g: Group, live: bool, id: Id, now: nat, opts: ClaimOpts) {
    live && if id in g.pending then Idle(now, g.pending[id].time) >= opts.minIdle else opts.force
  }

  /** The delivery count after a claim: set outright, raised, or at least one. A negative
      `retryCount` stands for an absent option. */
  function ClaimedCount(before: nat, opts: ClaimOpts): nat {
    if opts.retryCount >= 0 then opts.retryCount
    else if !opts.justId then Saturating(before + 1)
    else if before == 0 then 1 else before
  }

  /** Make `c` the owner of a pending entry, new or not. */
  function Transfer(g: Group, c: Name, id: Id, time: nat, count: nat): Group {
    var consumers :=
      if id !in g.pending then Credit(g.consumers, c)
      else if g.pending[id].consumer != c then Credit(Debit(g.consumers, g.pending[id].consumer), c)
      else g.consumers;
    g.(pending := g.pending[id := PendingEntry(c, time, count)], consumers := consumers)
  }

  /** One turn of the XCLAIM loop. */
  function ClaimOne(g: Group, live: bool, c: Name, id: Id, now: nat, opts: ClaimOpts): Group {
    if !live then DropPending(g, id)
    else if !Claimable(g, live, id, now, opts) then g
    else
      var before := if id in g.pending then g.pending[id].count else 0;
      Transfer(Ensure(g, c, now), c, id, opts.deliveryTime, ClaimedCount(before, opts))
  }

  /** One turn of the `>` delivery loop; the reader's own counter is recomputed after it. */
  function DeliverOne(g: Group, c: Name, id: Id, now: nat, noack: bool): Group {
    if noack then g.(last := id)
    else
      var before := if id in g.pending then g.pending[id].count else 0;
      var consumers := if id in g.pending && g.pending[id].consumer != c
                       then Debit(g.consumers, g.pending[id].consumer) else g.consumers;
      Group(id, consumers, g.pending[id := PendingEntry(c, now, before + 1)])
  }

  function DeliverAll(g: Group, c: Name, ids: seq<Id>, now: nat, noack: bool): Group {
    if ids == [] then g
    else DeliverOne(DeliverAll(g, c, ids[..|ids| - 1], now, noack), c, ids[|ids| - 1], now, noack)
  }

  function OwnedCount(g: Group, c: Name): nat {
    |set id | id in g.pending && g.pending[id].consumer == c|
  }

  function Recount(g: Group, c: Name): Group {
    if c in g.consumers then g.(consumers := g.consumers[c := g.consumers[c].(pending := OwnedCount(g, c))]) else g
  }

  /** A re-read of history touches time and count of the reader's own entries. */
  function TouchOne(g: Group, id: Id, now: nat): Group {
    if id in g.pending then g.(pending := g.pending[id := g.pending[id].(time := now, count := g.pending[id].count + 1)]) else g
  }

  // ----- counters --------------------------------------------------------------------------------------

  lemma DropPendingCounts(g: Group, id: Id)
    requires Registered(g)
    ensures Registered(DropPending(g, id))
    ensures Counted(g) ==> Counted(DropPending(g, id))
    ensures forall d :: CountedExcept(g, d) ==> CountedExcept(DropPending(g, id), d)
  {
    if id in g.pending {
      var g', owner := DropPending(g, id), g.pending[id].consumer;
      forall c | CountsRight(g, c) ensures CountsRight(g', c) {
        assert Owned(g', c) == Owned(g, c) - {id};
        if c == owner { assert id in Owned(g, c); }
      }
    }
  }

  lemma EnsureCounts(g: Group, c: Name, now: nat)
    requires Registered(g)
    ensures Registered(Ensure(g, c, now)) && c in Ensure(g, c, now).consumers
    ensures Counted(g) ==> Counted(Ensure(g, c, now))
  {
    var g' := Ensure(g, c, now);
    assert c !in g.consumers ==> Owned(g, c) == {};
    forall d | CountsRight(g, d) ensures CountsRight(g', d) {
      assert Owned(g', d) == Owned(g, d);
    }
  }

  lemma TransferCounts(g: Group, c: Name, id: Id, time: nat, count: nat)
    requires Registered(g) && c in g.consumers
    ensures Registered(Transfer(g, c, id, time, count))
    ensures Counted(g) ==> Counted(Transfer(g, c, id, time, count))
  {
    var g' := Transfer(g, c, id, time, count);
    if Counted(g) {
      forall d ensures CountsRight(g', d) {
        TransferCount(g, c, id, time, count, d);
      }
    }
  }

  lemma TransferCount(g: Group, c: Name, id: Id, time: nat, count: nat, d: Name)
    requires c in g.consumers && CountsRight(g, d)
    ensures CountsRight(Transfer(g, c, id, time, count), d)
  {
    hide Owned;
    TransferOwned(g, c, id, time, count, d);
  }

  lemma TransferOwned(g: Group, c: Name, id: Id, time: nat, count: nat, d: Name)
    requires c in g.consumers
    ensures Owned(Transfer(g, c, id, time, count), d) == if d == c then Owned(g, d) + {id} else Owned(g, d) - {id}
    ensures id in Owned(g, d) <==> id in g.pending && g.pending[id].consumer == d
  {
  }

  lemma ClaimOneCounts(g: Group, live: bool, c: Name, id: Id, now: nat, opts: ClaimOpts)
    requires Registered(g)
    ensures Registered(ClaimOne(g, live, c, id, now, opts))
    ensures Counted(g) ==> Counted(ClaimOne(g, live, c, id, now, opts))
  {
    hide Counted, Registered, Transfer, Ensure, DropPending;
    DropPendingCounts(g, id);
    EnsureCounts(g, c, now);
    var before := if id in g.pending then g.pending[id].count else 0;
    TransferCounts(Ensure(g, c, now), c, id, opts.deliveryTime, ClaimedCount(before, opts));
  }

  lemma DeliverOneCounts(g: Group, c: Name, id: Id, now: nat, noack: bool)
    requires Registered(g) && c in g.consumers
    ensures Registered(DeliverOne(g, c, id, now, noack)) && c in DeliverOne(g, c, id, now, noack).consumers
    ensures CountedExcept(g, c) ==> CountedExcept(DeliverOne(g, c, id, now, noack), c)
    ensures noack && Counted(g) ==> Counted(DeliverOne(g, c, id, now, noack))
  {
    var g' := DeliverOne(g, c, id, now, noack);
    forall d | CountsRight(g, d) && (d != c || noack) ensures CountsRight(g', d) {
      assert noack ==> Owned(g', d) == Owned(g, d);
      assert !noack ==> Owned(g', d) == Owned(g, d) - {id};
    }
  }

  lemma {:induction false} DeliverAllCounts(g: Group, c: Name, ids: seq<Id>, now: nat, noack: bool)
    requires Registered(g) && c in g.consumers
    ensures Registered(DeliverAll(g, c, ids, now, noack)) && c in DeliverAll(g, c, ids, now, noack).consumers
    ensures CountedExcept(g, c) ==> CountedExcept(DeliverAll(g, c, ids, now, noack), c)
    ensures noack && Counted(g) ==> Counted(DeliverAll(g, c, ids, now, noack))
  {
    if ids != [] {
      DeliverAllCounts(g, c, ids[..|ids| - 1], now, noack);
      DeliverOneCounts(DeliverAll(g, c, ids[..|ids| - 1], now, noack), c, ids[|ids| - 1], now, noack);
    }
  }

  lemma RecountCounts(g: Group, c: Name)
    requires Registered(g)
    ensures Registered(Recount(g, c)) && (CountedExcept(g, c) ==> Counted(Recount(g, c)))
  {
    var g' := Recount(g, c);
    if CountedExcept(g, c) {
      forall d ensures CountsRight(g', d) {
        assert Owned(g', d) == Owned(g, d);
        assert d != c ==> CountsRight(g, d);
      }
    }
  }

  lemma RemoveConsumerCounts(g: Group, c: Name)
    requires Registered(g)
    ensures Registered(RemoveConsumer(g, c)) && (Counted(g) ==> Counted(RemoveConsumer(g, c)))
  {
    var g' := RemoveConsumer(g, c);
    forall d | CountsRight(g, d) ensures CountsRight(g', d) {
      assert d != c ==> Owned(g', d) == Owned(g, d);
    }
  }

  lemma TouchOneCounts(g: Group, id: Id, now: nat)
    requires Registered(g)
    ensures Registered(TouchOne(g, id, now)) && (Counted(g) ==> Counted(TouchOne(g, id, now)))
  {
    var g' := TouchOne(g, id, now);
    forall d | CountsRight(g, d) ensures CountsRight(g', d) {
      assert Owned(g', d) == Owned(g, d);
    }
  }

  /** The trim path debits a consumer that need not own the entry. The counters stay right exactly
      when the entry is not pending or its owner is the one debited. */
  lemma EvictCounts(g: Group, id: Id, debited: Name)
    requires Registered(g) && Counted(g)
    ensures Registered(EvictPending(g, id, debited))
    ensures Counted(EvictPending(g, id, debited)) <==> id !in g.pending || debited == g.pending[id].consumer
  {
    if id in g.pending {
      var owner, g' := g.pending[id].consumer, EvictPending(g, id, debited);
      assert CountsRight(g, owner) && id in Owned(g, owner);
      assert Owned(g', owner) == Owned(g, owner) - {id};
      if debited == owner {
        assert g' == DropPending(g, id);
        DropPendingCounts(g, id);
      } else {
        assert !CountsRight(g', owner);
      }
    }
  }

  /** So they stay right for every order in which the consumers may be walked exactly when the entry
      is not pending or its owner is the only consumer with anything pending. */
  lemma EvictCountsIff(g: Group, id: Id)
    requires Registered(g) && Counted(g)
    ensures (forall d :: d in g.consumers && g.consumers[d].pending > 0 ==> Counted(EvictPending(g, id, d)))
       <==> id !in g.pending || OnlyOwnerPends(g, id)
  {
    hide Counted, Registered, EvictPending;
    forall d ensures Counted(EvictPending(g, id, d)) <==> id !in g.pending || d == g.pending[id].consumer {
      EvictCounts(g, id, d);
    }
  }

  predicate Pends(g: Group, c: Name) {
    c in g.consumers && g.consumers[c].pending > 0
  }

  predicate SomePends(g: Group) {
    exists c :: c in g.consumers && Pends(g, c)
  }

  ghost predicate OnlyOwnerPends(g: Group, id: Id)
    requires id in g.pending
  {
    forall c :: c in g.consumers && c != g.pending[id].consumer ==> g.consumers[c].pending == 0
  }
}
