/** How far src/fair_queue.rs serves in the order of arrival, which its documentation promises. */
module FairQueueOrder {
  import opened Basics
  import opened WaitingLine
  import opened FairQueues

  /** Nobody stands behind a later arrival. */
  ghost predicate ByArrival(q: Line) {
    forall i, j :: 0 <= i < j < |q| ==> q[i].arrival <= q[j].arrival
  }

  /** A line is in the order of arrival exactly when nobody in it has a better priority than an earlier
      arrival. */
  lemma ByArrivalIff(q: Line)
    requires Ordered(q)
    ensures ByArrival(q) <==>
      forall a, b :: a in q && b in q && a.arrival < b.arrival ==> a.client.priority <= b.client.priority
  {
    forall i, j | 0 <= i < j < |q| ensures Before(q[i], q[j]) && q[i] in q && q[j] in q {
    }
  }

  /** A client with the highest priority is never overtaken. */
  lemma HighestKeepsPlace(q: Line, q': Line, k: nat, x: Waiter)
    requires Ordered(q) && Ordered(q') && x in q && x in q' && x.client.priority == 0
    requires (forall w :: w in q ==> w.arrival < k) && forall w :: w in q' ==> w in q || w.arrival >= k
    ensures Ahead(q', x) <= Ahead(q, x)
  {
    hide Ahead, Ordered;
    forall y | y in Ahead(q', x) ensures y in Ahead(q, x) {
      if y !in Ahead(q, x) { OvertakenByBetterOnly(q, q', k, x, y); }
    }
  }

  lemma TwoInOrder(q: Line, a: Waiter, b: Waiter)
    requires Ordered(q) && multiset(q) == multiset{a} + multiset{b} && Before(b, a)
    ensures q == [b, a]
  {
    assert |q| == |multiset(q)| == 2;
    assert q == [q[0], q[1]] && Before(q[0], q[1]);
    assert q[0] in multiset(q) && q[1] in multiset(q) && a in multiset(q) && b in multiset(q);
  }

  /** Any other client may wait for ever: for every number of rounds, a client of better priority that
      comes each time is served each time, and the first one waits on. */
  method Starves(max: nat, x: Client, other: Client, n: nat, now: nat) returns (fq: FairQueue, served: seq<Option<Client>>)
    requires max >= 2 && other.priority < x.priority && other.resource == x.resource
    ensures fresh(fq) && fq.Valid() && LineOf(fq.queues, x.resource) == [Waiter(x, 0)]
    ensures |served| == n && forall i :: 0 <= i < n ==> served[i] == Some(other)
  {
    hide Total, AverageOk, NoneEmpty, Since, Others, Ordered;
    fq := new FairQueue(max);
    var ok := fq.Enqueue(x);
    OneInLine(LineOf(fq.queues, x.resource), Waiter(x, 0));
    served := [];
    for i := 0 to n
      invariant fresh(fq) && fq.Valid() && fq.max == max && LineOf(fq.queues, x.resource) == [Waiter(x, 0)] && fq.enqueued > 0
      invariant |served| == i && forall j :: 0 <= j < i ==> served[j] == Some(other)
    {
      ghost var w := Waiter(other, fq.enqueued);
      ok := fq.Enqueue(other);
      LineOrdered(fq.queues, fq.enqueued, fq.max, x.resource);
      TwoInOrder(LineOf(fq.queues, x.resource), Waiter(x, 0), w);
      var out := fq.Dequeue(x.resource, now);
      served := served + [out];
    }
  }

  lemma OneInLine(q: Line, w: Waiter)
    requires multiset(q) == multiset([]) + multiset{w}
    ensures q == [w]
  {
    assert |q| == |multiset(q)| == 1;
    assert q == [q[0]] && q[0] in multiset(q);
  }

  /** A client is dequeued by name from behind another one, where the documentation has it taken from the
      front only. */
  method TakenFromBehind(max: nat, a: Client, b: Client, now: nat) returns (fq: FairQueue, out: Option<Client>)
    requires max >= 2 && a.resource == b.resource && a.id != b.id && a.priority <= b.priority
    ensures fresh(fq) && fq.Valid() && out == Some(b) && LineOf(fq.queues, a.resource) == [Waiter(a, 0)]
  {
    hide Total, AverageOk, NoneEmpty, Since, Others, Ordered;
    fq := new FairQueue(max);
    var ok := fq.Enqueue(a);
    OneInLine(LineOf(fq.queues, a.resource), Waiter(a, 0));
    ok := fq.Enqueue(b);
    LineOrdered(fq.queues, fq.enqueued, fq.max, a.resource);
    ghost var q := LineOf(fq.queues, a.resource);
    TwoInOrder(q, Waiter(b, 1), Waiter(a, 0));
    assert Position(q, b.id) == 1;
    out := fq.DequeueClient(a.resource, b.id, now);
    assert q[..1] + q[2..] == [Waiter(a, 0)];
  }
}
