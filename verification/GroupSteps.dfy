/** The loops over one consumer group in src/stream_type.rs, step by step, against the functions that
    say what they do. */
module GroupSteps {
  import opened Basics
  import opened StreamIds
  import opened ConsumerGroups

  function SaturatingPred(n: nat): nat { if n > 0 then n - 1 else 0 }

  /** A saturating debit, if the consumer is there. */
  method DebitConsumer(consumers: map<Name, Consumer>, c: Name) returns (out: map<Name, Consumer>)
    ensures out == Debit(consumers, c)
  {
    out := consumers;
    if c in consumers {
      var entry := consumers[c];
      out := out[c := entry.(pending := SaturatingPred(entry.pending))];
    }
  }

  method CreditConsumer(consumers: map<Name, Consumer>, c: Name) returns (out: map<Name, Consumer>)
    ensures out == Credit(consumers, c)
  {
    out := consumers;
    if c in consumers {
      var entry := consumers[c];
      out := out[c := entry.(pending := entry.pending + 1)];
    }
  }

  /** Take an entry off the pending list and debit its owner. */
  method RemovePending(g: Group, id: Id) returns (g': Group, found: bool)
    ensures g' == DropPending(g, id) && found == (id in g.pending)
  {
    if id !in g.pending {
      return g, false;
    }
    var owner := g.pending[id].consumer;
    var consumers := DebitConsumer(g.consumers, owner);
    return g.(pending := g.pending - {id}, consumers := consumers), true;
  }

  /** The trim path: the first consumer met with something pending is debited. */
  method EvictFrom(g: Group, id: Id) returns (g': Group, debited: Name)
    ensures g' == EvictPending(g, id, debited)
    ensures id in g.pending && SomePends(g) ==> Pends(g, debited)
  {
    g', debited := g, [];
    if id in g.pending {
      g' := g'.(pending := g.pending - {id});
      var rest := g.consumers.Keys;
      while rest != {}
        invariant rest <= g.consumers.Keys && forall c :: c in g.consumers && c !in rest ==> g.consumers[c].pending == 0
        decreases rest
      {
        var c :| c in rest;
        rest := rest - {c};
        if g.consumers[c].pending > 0 {
          g' := g'.(consumers := g.consumers[c := g.consumers[c].(pending := g.consumers[c].pending - 1)]);
          debited := c;
          return;
        }
      }
      assert Debit(g.consumers, []) == g.consumers;
    }
  }

  /** Insert the consumer if it is missing, and note that it was seen. */
  method SeeConsumer(g: Group, c: Name, now: nat) returns (g': Group)
    ensures g' == Ensure(g, c, now)
  {
    var consumers := g.consumers;
    if c !in consumers {
      consumers := consumers[c := Consumer(now, 0)];
    }
    consumers := consumers[c := consumers[c].(seen := now)];
    g' := g.(consumers := consumers);
    assert consumers == Ensure(g, c, now).consumers;
  }

  /** One turn of the claim loop. */
  method ClaimTurn(g: Group, live: bool, c: Name, id: Id, now: nat, opts: ClaimOpts) returns (g': Group, claimed: bool)
    ensures g' == ClaimOne(g, live, c, id, now, opts) && claimed == Claimable(g, live, id, now, opts)
  {
    if !live {
      var dropped, _ := RemovePending(g, id);
      return dropped, false;
    }
    if id !in g.pending && !opts.force {
      return g, false;
    }
    if id in g.pending {
      var idle := if now >= g.pending[id].time then now - g.pending[id].time else 0;
      if idle < opts.minIdle {
        return g, false;
      }
    }
    g' := SeeConsumer(g, c, now);
    var added := id !in g'.pending;
    var pe := if added then PendingEntry(c, opts.deliveryTime, 0) else g'.pending[id];
    var consumers := g'.consumers;
    if pe.consumer != c {
      consumers := DebitConsumer(consumers, pe.consumer);
      pe := pe.(consumer := c);
      consumers := CreditConsumer(consumers, c);
    } else if added {
      consumers := CreditConsumer(consumers, c);
    }
    pe := pe.(time := opts.deliveryTime);
    if opts.retryCount >= 0 {
      pe := pe.(count := opts.retryCount);
    } else if !opts.justId {
      pe := pe.(count := Saturating(pe.count + 1));
    } else if pe.count == 0 {
      pe := pe.(count := 1);
    }
    g' := g'.(consumers := consumers, pending := g'.pending[id := pe]);
    claimed := true;
  }

  /** One turn of the delivery loop of a `>` read. */
  method DeliverTurn(g: Group, c: Name, id: Id, now: nat, noack: bool) returns (g': Group)
    ensures g' == DeliverOne(g, c, id, now, noack)
  {
    g' := g.(last := id);
    if noack {
      return;
    }
    var pe := if id in g.pending then g.pending[id] else PendingEntry(c, now, 0);
    var consumers := g.consumers;
    if pe.consumer != c {
      consumers := DebitConsumer(consumers, pe.consumer);
      pe := pe.(consumer := c);
    }
    pe := pe.(count := pe.count + 1, time := now);
    g' := g'.(consumers := consumers, pending := g.pending[id := pe]);
  }

  /** How many pending entries a consumer owns, by a pass over the list. */
  method CountOwned(g: Group, c: Name) returns (n: nat)
    ensures n == |Owned(g, c)|
  {
    n := 0;
    var rest := g.pending.Keys;
    ghost var seen: set<Id> := {};
    while rest != {}
      invariant rest <= g.pending.Keys && seen == Owned(g, c) - rest && n == |seen|
      decreases rest
    {
      var id :| id in rest;
      rest := rest - {id};
      if g.pending[id].consumer == c {
        n := n + 1;
        seen := seen + {id};
      }
    }
  }

  /** The recount of the reader after a delivery. */
  method RecountReader(g: Group, c: Name) returns (g': Group)
    ensures g' == Recount(g, c)
  {
    g' := g;
    if c in g.consumers {
      var n := CountOwned(g, c);
      g' := g.(consumers := g.consumers[c := g.consumers[c].(pending := n)]);
    }
  }

  /** group_del_consumer on a registered consumer: collect its pending IDs, remove them one by one, and
      remove the consumer. */
  method RemoveWithPending(g: Group, c: Name) returns (g': Group, n: nat)
    requires c in g.consumers
    ensures g' == RemoveConsumer(g, c) && n == |Owned(g, c)|
  {
    hide InOrder, Ascending;
    var ids := InOrder(set id | id in g.pending && g.pending[id].consumer == c);
    InOrderSorts(Owned(g, c));
    n := |ids|;
    var pending := g.pending;
    for i := 0 to |ids|
      invariant forall id :: id in pending <==> id in g.pending && id !in ids[..i]
      invariant forall id :: id in pending ==> pending[id] == g.pending[id]
    {
      pending := pending - {ids[i]};
    }
    assert forall id :: id in ids <==> id in Owned(g, c);
    assert ids[..|ids|] == ids;
    g' := g.(pending := pending, consumers := g.consumers - {c});
    assert g'.pending == RemoveConsumer(g, c).pending;
  }

  /** One turn of a history read. */
  method TouchTurn(g: Group, id: Id, now: nat) returns (g': Group)
    ensures g' == TouchOne(g, id, now)
  {
    g' := g;
    if id in g.pending {
      var pe := g.pending[id];
      pe := pe.(count := pe.count + 1);
      pe := pe.(time := now);
      g' := g.(pending := g.pending[id := pe]);
    }
  }
}
