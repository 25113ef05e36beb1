/** One resource's waiting line of src/fair_queue.rs, and the floored running average. */
module WaitingLine {

  type ClientId = string
  type Resource = string

  datatype Client = Client(id: ClientId, resource: Resource, queuedAt: nat, ttl: nat, priority: nat)

  /** A queued client and its number in the order of arrival, which no decision reads. */
  datatype Waiter = Waiter(client: Client, arrival: nat)

  type Line = seq<Waiter>

  predicate Expired(c: Client, now: nat) { now > c.queuedAt + c.ttl }

  function WaitTime(c: Client, now: nat): nat { if now > c.queuedAt then now - c.queuedAt else 0 }

  /** Better priority first, then earlier arrival. */
  predicate Before(a: Waiter, b: Waiter) {
    a.client.priority < b.client.priority || (a.client.priority == b.client.priority && a.arrival < b.arrival)
  }

  ghost predicate Ordered(q: Line) {
    forall i, j :: 0 <= i < j < |q| ==> Before(q[i], q[j])
  }

  /** The position of the first strictly worse priority, or the end. */
  method InsertPosition(q: Line, priority: nat) returns (k: nat)
    ensures k <= |q| && (k < |q| ==> q[k].client.priority > priority)
    ensures forall i :: 0 <= i < k ==> q[i].client.priority <= priority
  {
    k := 0;
    while k < |q| && q[k].client.priority <= priority
      invariant k <= |q| && forall i :: 0 <= i < k ==> q[i].client.priority <= priority
    {
      k := k + 1;
    }
  }

  lemma InsertedOrdered(q: Line, k: nat, w: Waiter)
    requires Ordered(q) && k <= |q| && (k < |q| ==> q[k].client.priority > w.client.priority)
    requires forall i :: 0 <= i < k ==> q[i].client.priority <= w.client.priority
    requires forall i :: 0 <= i < |q| ==> q[i].arrival < w.arrival
    ensures Ordered(q[..k] + [w] + q[k..])
  {
    assert forall i :: k < i < |q| ==> Before(q[k], q[i]);
  }

  function Position(q: Line, id: ClientId): (k: nat)
    ensures k <= |q| && (k < |q| ==> q[k].client.id == id)
    ensures forall i :: 0 <= i < k ==> q[i].client.id != id
  {
    if q == [] || q[0].client.id == id then 0 else 1 + Position(q[1..], id)
  }

  /** The waiters still alive, in order. */
  function Alive(q: Line, now: nat): Line {
    if q == [] then []
    else
      var rest := Alive(q[..|q| - 1], now);
      if Expired(q[|q| - 1].client, now) then rest else rest + [q[|q| - 1]]
  }

  lemma {:induction false} AliveOrdered(q: Line, now: nat)
    requires Ordered(q)
    ensures Ordered(Alive(q, now)) && |Alive(q, now)| <= |q|
    ensures forall w :: w in Alive(q, now) <==> w in q && now <= w.client.queuedAt + w.client.ttl
  {
    if q != [] {
      AliveOrdered(q[..|q| - 1], now);
      var last := q[|q| - 1];
      assert forall w :: w in q[..|q| - 1] ==> Before(w, last);
      assert q == q[..|q| - 1] + [last];
    }
  }

  lemma {:induction false} AliveAll(q: Line, now: nat)
    ensures |Alive(q, now)| <= |q| && (|Alive(q, now)| == |q| ==> Alive(q, now) == q)
  {
    if q != [] {
      AliveAll(q[..|q| - 1], now);
      assert q == q[..|q| - 1] + [q[|q| - 1]];
    }
  }

  /** Who stands ahead of a waiter: at an earlier place in the line. */
  function Ahead(q: Line, x: Waiter): set<Waiter> {
    set i, j | 0 <= i < j < |q| && q[j] == x :: q[i]
  }

  /** In an ordered line those are the ones before it. */
  lemma AheadIsBefore(q: Line, x: Waiter, y: Waiter)
    requires Ordered(q) && x in q
    ensures y in Ahead(q, x) <==> y in q && Before(y, x)
  {
    var j :| 0 <= j < |q| && q[j] == x;
    if y in q && Before(y, x) {
      var i :| 0 <= i < |q| && q[i] == y;
      assert i < j;
    }
  }

  /** If the line changed only by departures and by arrivals since number `k`, then whoever newly
      stands ahead of a waiter that was there has a strictly better priority. */
  lemma OvertakenByBetterOnly(q: Line, q': Line, k: nat, x: Waiter, y: Waiter)
    requires Ordered(q) && Ordered(q')
    requires forall w :: w in q ==> w.arrival < k
    requires forall w :: w in q' ==> w in q || w.arrival >= k
    requires x in q && x in q'
    requires y in Ahead(q', x) && y !in Ahead(q, x)
    ensures y.client.priority < x.client.priority
  {
    AheadIsBefore(q, x, y);
    AheadIsBefore(q', x, y);
  }

  // ----- the running average ---------------------------------------------------------------------------

  function Sum(ws: seq<nat>): nat {
    if ws == [] then 0 else Sum(ws[..|ws| - 1]) + ws[|ws| - 1]
  }

  /** The average kept is never above the true mean of the n waits and at most (n - 1) / 2 below it. */
  ghost predicate AverageOk(avg: nat, ws: seq<nat>) {
    |ws| * avg <= Sum(ws) && 2 * Sum(ws) <= 2 * |ws| * avg + |ws| * (|ws| - 1)
  }

  function NextAverage(avg: nat, n: nat, wait: nat): nat
    requires n > 0
  {
    Floor(Product(avg, n - 1) + wait, n)
  }

  function Product(a: nat, b: nat): nat { a * b }

  function Floor(a: nat, n: nat): (f: nat)
    requires n > 0
    ensures n * f <= a <= n * f + n - 1
  {
    a / n
  }

  lemma NextAverageOk(avg: nat, ws: seq<nat>, wait: nat)
    requires AverageOk(avg, ws)
    ensures AverageOk(NextAverage(avg, |ws| + 1, wait), ws + [wait])
  {
    var n := |ws| + 1;
    var a := avg * (n - 1) + wait;
    assert (ws + [wait])[..|ws|] == ws;
    AverageStep(avg, n, wait, Sum(ws), Floor(a, n));
  }

  lemma AverageStep(avg: nat, n: nat, wait: nat, sum: nat, avg': nat)
    requires n > 0 && (n - 1) * avg <= sum && 2 * sum <= 2 * (n - 1) * avg + (n - 1) * (n - 2)
    requires n * avg' <= avg * (n - 1) + wait <= n * avg' + n - 1
    ensures n * avg' <= sum + wait && 2 * (sum + wait) <= 2 * n * avg' + n * (n - 1)
  {
    assert (n - 1) * (n - 2) + 2 * (n - 1) == n * (n - 1);
    assert 2 * (n - 1) * avg == 2 * (avg * (n - 1));
    assert 2 * n * avg' == 2 * (n * avg');
  }
}
