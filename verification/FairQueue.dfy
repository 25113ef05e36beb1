/** `FairQueue` of src/fair_queue.rs: a waiting line per resource and the statistics beside them. */
module FairQueues {
  import opened Basics
  import opened WaitingLine

  type Lines = map<Resource, Line>

  function LineOf(m: Lines, r: Resource): Line {
    if r in m then m[r] else []
  }

  /** How many clients wait in all. */
  ghost function Total(m: Lines): nat {
    if m == map[] then 0
    else
      var r :| r in m;
      |m[r]| + Total(m - {r})
  }

  lemma {:induction false} TotalAt(m: Lines, r: Resource)
    requires r in m
    ensures Total(m) == |m[r]| + Total(m - {r})
    decreases m.Keys
  {
    var pick :| pick in m && Total(m) == |m[pick]| + Total(m - {pick});
    if pick != r {
      TotalAt(m - {pick}, r);
      TotalAt(m - {r}, pick);
      assert m - {pick} - {r} == m - {r} - {pick};
    }
  }

  /** A changed line goes back into the table, or out of it when it is empty. */
  function Settled(m: Lines, r: Resource, q: Line): Lines {
    if q == [] then m - {r} else m[r := q]
  }

  lemma TotalOfUpdate(m: Lines, r: Resource, q: Line)
    ensures Total(m[r := q]) == Total(m) - |LineOf(m, r)| + |q|
    ensures Total(m - {r}) == Total(m) - |LineOf(m, r)|
  {
    TotalAt(m[r := q], r);
    assert m[r := q] - {r} == m - {r};
    if r in m { TotalAt(m, r); } else { assert m - {r} == m; }
  }

  ghost predicate LinesOk(m: Lines, arrived: nat, max: nat) {
    forall r :: r in m ==>
      && Ordered(m[r]) && |m[r]| <= max
      && (forall w :: w in m[r] ==> w.arrival < arrived && w.client.resource == r)
  }

  /** Between two moments lines change by departures, and by arrivals from number `k` on. */
  ghost predicate Since(before: Lines, k: nat, after: Lines) {
    forall r, w :: w in LineOf(after, r) ==> w in LineOf(before, r) || w.arrival >= k
  }

  predicate Others(before: Lines, after: Lines, r: Resource) {
    before - {r} == after - {r}
  }

  predicate NoneEmpty(m: Lines) {
    forall r :: r in m ==> m[r] != []
  }

  lemma SettleKeeps(m: Lines, r: Resource, q: Line, arrived: nat, max: nat)
    requires LinesOk(m, arrived, max)
    requires Ordered(q) && |q| <= |LineOf(m, r)| && forall w :: w in q ==> w in LineOf(m, r)
    ensures var m' := Settled(m, r, q);
      && LinesOk(m', arrived, max) && Since(m, arrived, m') && Others(m, m', r) && LineOf(m', r) == q
      && (NoneEmpty(m) ==> NoneEmpty(m')) && Total(m') == Total(m) - |LineOf(m, r)| + |q|
  {
    hide Ordered;
    TotalOfUpdate(m, r, q);
  }

  lemma WithoutOrdered(m: Lines, arrived: nat, max: nat, r: Resource, k: nat)
    requires LinesOk(m, arrived, max) && k < |LineOf(m, r)|
    ensures var q := LineOf(m, r); var q' := q[..k] + q[k + 1..];
      Ordered(q') && |q'| == |q| - 1 && forall w :: w in q' ==> w in q
  {
    var q := LineOf(m, r);
    assert q == q[..k] + [q[k]] + q[k + 1..];
  }

  lemma LineOrdered(m: Lines, arrived: nat, max: nat, r: Resource)
    requires LinesOk(m, arrived, max)
    ensures Ordered(LineOf(m, r))
  {
  }

  /** Looking a resource up makes an empty line for a new one. */
  lemma OpenKeeps(m: Lines, r: Resource, arrived: nat, max: nat)
    requires LinesOk(m, arrived, max)
    ensures var m' := m[r := LineOf(m, r)];
      && LinesOk(m', arrived, max) && Since(m, arrived, m') && Others(m, m', r) && LineOf(m', r) == LineOf(m, r)
      && Total(m') == Total(m) && (|LineOf(m, r)| > 0 ==> m' == m)
  {
    TotalOfUpdate(m, r, LineOf(m, r));
  }

  lemma ArriveKeeps(m: Lines, r: Resource, k: nat, w: Waiter, max: nat)
    requires LinesOk(m, w.arrival, max) && |LineOf(m, r)| < max && w.client.resource == r
    requires var q := LineOf(m, r);
      && k <= |q| && (k < |q| ==> q[k].client.priority > w.client.priority)
      && forall i :: 0 <= i < k ==> q[i].client.priority <= w.client.priority
    ensures var q := LineOf(m, r); var m' := m[r := q[..k] + [w] + q[k..]];
      && LinesOk(m', w.arrival + 1, max) && Since(m, w.arrival, m') && Others(m, m', r)
      && (NoneEmpty(m) ==> NoneEmpty(m')) && Total(m') == Total(m) + 1 && multiset(LineOf(m', r)) == multiset(q) + multiset{w}
  {
    hide Total;
    var q := LineOf(m, r);
    var q' := q[..k] + [w] + q[k..];
    ArriveOrdered(m, r, k, w, max);
    TotalOfUpdate(m, r, q');
    ArrivedLine(q, k, w);
    ArriveTable(m, r, q, q', w, max);
  }

  lemma ArriveOrdered(m: Lines, r: Resource, k: nat, w: Waiter, max: nat)
    requires LinesOk(m, w.arrival, max)
    requires var q := LineOf(m, r);
      && k <= |q| && (k < |q| ==> q[k].client.priority > w.client.priority)
      && forall i :: 0 <= i < k ==> q[i].client.priority <= w.client.priority
    ensures var q := LineOf(m, r); Ordered(q[..k] + [w] + q[k..])
  {
    var q := LineOf(m, r);
    assert r in m ==> forall i :: 0 <= i < |q| ==> q[i] in m[r];
    InsertedOrdered(q, k, w);
  }

  lemma ArriveTable(m: Lines, r: Resource, q: Line, q': Line, w: Waiter, max: nat)
    requires LinesOk(m, w.arrival, max) && q == LineOf(m, r) && w.client.resource == r
    requires Ordered(q') && |q'| <= max && forall x :: x in q' <==> x in q || x == w
    ensures LinesOk(m[r := q'], w.arrival + 1, max) && Since(m, w.arrival, m[r := q']) && Others(m, m[r := q'], r)
    ensures NoneEmpty(m) ==> NoneEmpty(m[r := q'])
  {
    hide Ordered;
    assert w in q';
  }

  lemma ArrivedLine(q: Line, k: nat, w: Waiter)
    requires k <= |q|
    ensures var q' := q[..k] + [w] + q[k..];
      && multiset(q') == multiset(q) + multiset{w}
      && (forall x :: x in q' <==> x in q || x == w)
  {
    assert q == q[..k] + q[k..];
  }

  lemma SettleSame(m: Lines, r: Resource, q: Line)
    requires q == LineOf(m, r) && NoneEmpty(m)
    ensures Settled(m, r, q) == m
  {
    assert q == [] ==> m - {r} == m;
  }

  lemma SinceSelf(m: Lines, k: nat)
    ensures Since(m, k, m)
  {
  }

  lemma SinceEmpty(m: Lines, k: nat)
    ensures Since(m, k, map[])
  {
  }

  lemma SinceThen(a: Lines, k: nat, b: Lines, k': nat, c: Lines)
    requires Since(a, k, b) && k <= k' && Since(b, k', c)
    ensures Since(a, k, c)
  {
  }

  lemma OthersSame(before: Lines, after: Lines, r: Resource)
    requires Others(before, after, r)
    ensures forall r' :: r' != r ==> LineOf(after, r') == LineOf(before, r')
  {
    forall r' | r' != r ensures LineOf(after, r') == LineOf(before, r') {
      assert r' in before <==> r' in before - {r};
      assert r' in after <==> r' in after - {r};
    }
  }

  /** `x` waits at both moments and `y` is ahead of it only at the second. */
  predicate Overtakes(before: Lines, after: Lines, r: Resource, x: Waiter, y: Waiter) {
    && x in LineOf(before, r) && x in LineOf(after, r)
    && y in Ahead(LineOf(after, r), x) && y !in Ahead(LineOf(before, r), x)
  }

  lemma Overtaken(before: Lines, k: nat, max: nat, after: Lines, k': nat, r: Resource, x: Waiter, y: Waiter)
    requires LinesOk(before, k, max) && LinesOk(after, k', max)
    requires Since(before, k, after) && Overtakes(before, after, r, x, y)
    ensures y.client.priority < x.client.priority
  {
    OvertakenByBetterOnly(LineOf(before, r), LineOf(after, r), k, x, y);
  }

  /** The longest of the waits, or zero before the first. */
  ghost predicate Longest(max: nat, waits: seq<nat>) {
    (forall w :: w in waits ==> w <= max) && if waits == [] then max == 0 else max in waits
  }

  /** How long a client queued at one time has waited at another. */
  predicate Waited(wait: nat, queuedAt: nat, now: nat) {
    if queuedAt <= now then queuedAt + wait == now else wait == 0
  }

  ghost predicate OneMore(before: seq<nat>, after: seq<nat>, queuedAt: nat, now: nat) {
    exists wait: nat :: Waited(wait, queuedAt, now) && after == before + [wait]
  }

  /** A line without those whose time is over: the others in the same order. */
  ghost predicate Swept(before: Line, after: Line, now: nat) {
    && (forall w :: w in after <==> w in before && now <= w.client.queuedAt + w.client.ttl)
    && |after| <= |before| && (Ordered(before) ==> Ordered(after))
  }

  lemma AliveSwept(m: Lines, arrived: nat, max: nat, r: Resource, now: nat)
    requires LinesOk(m, arrived, max)
    ensures Swept(LineOf(m, r), Alive(LineOf(m, r), now), now)
  {
    LineOrdered(m, arrived, max, r);
    AliveOrdered(LineOf(m, r), now);
  }

  datatype Op =
    | Enter(client: Client)
    | Turn(r: Resource, id: ClientId, now: nat)
    | Serve(r: Resource, now: nat)
    | ServeClient(r: Resource, id: ClientId, now: nat)
    | Withdraw(r: Resource, id: ClientId)
    | Clean(r: Resource, now: nat)
    | CleanAll(now: nat)
    | Wipe

  class FairQueue {
    const max: nat
    var queues: Lines
    var totalQueued: nat
    var activeQueues: nat
    var enqueued: nat
    var dequeued: nat
    var expired: nat
    var denied: nat
    var removed: nat
    var maxWait: nat
    var avgWait: nat
    /** The wait of every dequeued client, and how many `clear` dropped. */
    ghost var waits: seq<nat>
    ghost var cleared: nat

    /** Lines in order and bounded; no client lost or counted twice; the figures are those of the lines
        and of the waits seen. */
    ghost predicate Valid() reads this {
      && LinesOk(queues, enqueued, max)
      && totalQueued == Total(queues)
      && enqueued == dequeued + expired + removed + cleared + totalQueued
      && (max > 0 ==> NoneEmpty(queues) && activeQueues == |queues|)
      && |waits| == dequeued && AverageOk(avgWait, waits)
      && Longest(maxWait, waits)
    }

    constructor (max: nat)
      ensures Valid() && queues == map[] && this.max == max && enqueued == 0 && cleared == 0
    {
      this.max, queues, waits := max, map[], [];
      totalQueued, activeQueues, enqueued, dequeued, expired := 0, 0, 0, 0, 0;
      denied, removed, maxWait, avgWait, cleared := 0, 0, 0, 0, 0;
    }

    /** The recount after every change. */
    method CountAll() returns (n: nat)
      ensures n == Total(queues)
    {
      n := 0;
      var rest := queues;
      while rest != map[]
        invariant n + Total(rest) == Total(queues)
        decreases rest.Keys
      {
        var r :| r in rest;
        TotalAt(rest, r);
        n := n + |rest[r]|;
        rest := rest - {r};
      }
    }

    /** Refused exactly when the line is full; otherwise behind everyone of its priority or better. */
    method Enqueue(c: Client) returns (ok: bool)
      requires Valid()
      modifies this
      ensures Valid() && unchanged(`cleared) && Since(old(queues), old(enqueued), queues) && Others(old(queues), queues, c.resource)
      ensures ok == (|LineOf(old(queues), c.resource)| < max)
      ensures enqueued == old(enqueued) + if ok then 1 else 0
      ensures unchanged(`dequeued, `expired, `removed, `denied, `maxWait, `avgWait, `waits)
      ensures multiset(LineOf(queues, c.resource)) ==
        multiset(LineOf(old(queues), c.resource)) + if ok then multiset{Waiter(c, old(enqueued))} else multiset{}
    {
      hide LinesOk, Since, Others, NoneEmpty, Total, Ordered, AverageOk, Longest;
      var r := c.resource;
      var q := LineOf(queues, r);
      if |q| >= max {
        OpenKeeps(queues, r, enqueued, max);
        queues := queues[r := q];
        return false;
      }
      var k := InsertPosition(q, c.priority);
      var w := Waiter(c, enqueued);
      ArriveKeeps(queues, r, k, w, max);
      queues := queues[r := q[..k] + [w] + q[k..]];
      totalQueued := CountAll();
      activeQueues, enqueued := |queues|, enqueued + 1;
      return true;
    }

    /** A line shrinks; the figures are recounted only when someone left. */
    method Leave(r: Resource, q: Line)
      requires LinesOk(queues, enqueued, max) && totalQueued == Total(queues)
      requires max > 0 ==> NoneEmpty(queues) && activeQueues == |queues|
      requires Ordered(q) && |q| <= |LineOf(queues, r)| && forall w :: w in q ==> w in LineOf(queues, r)
      requires |q| == |LineOf(queues, r)| ==> q == LineOf(queues, r)
      modifies `queues, `totalQueued, `activeQueues
      ensures LinesOk(queues, enqueued, max) && totalQueued == Total(queues)
      ensures max > 0 ==> NoneEmpty(queues) && activeQueues == |queues|
      ensures LineOf(queues, r) == q && totalQueued + |LineOf(old(queues), r)| == old(totalQueued) + |q|
      ensures Since(old(queues), enqueued, queues) && Others(old(queues), queues, r)
    {
      hide LinesOk, Since, Others, NoneEmpty, Total, Ordered;
      SettleKeeps(queues, r, q, enqueued, max);
      if q == LineOf(queues, r) && max > 0 { SettleSame(queues, r, q); }
      var left := |q| < |LineOf(queues, r)|;
      queues := Settled(queues, r, q);
      if left {
        totalQueued := CountAll();
        activeQueues := |queues|;
      }
    }

    /** The wait of a dequeued client goes into the maximum and the average. */
    method RecordWait(c: Client, now: nat)
      requires |waits| == dequeued && AverageOk(avgWait, waits) && Longest(maxWait, waits)
      modifies `dequeued, `maxWait, `avgWait, `waits
      ensures dequeued == old(dequeued) + 1 && OneMore(old(waits), waits, c.queuedAt, now)
      ensures |waits| == dequeued && AverageOk(avgWait, waits) && Longest(maxWait, waits)
    {
      hide AverageOk;
      var wait := WaitTime(c, now);
      NextAverageOk(avgWait, waits, wait);
      dequeued := dequeued + 1;
      if wait > maxWait {
        maxWait := wait;
      }
      avgWait := NextAverage(avgWait, dequeued, wait);
      waits := waits + [wait];
      assert Waited(wait, c.queuedAt, now);
      assert wait == waits[|waits| - 1];
    }

    /** The front of the line, which is before everyone else in it. */
    method Dequeue(r: Resource, now: nat) returns (out: Option<Client>)
      requires Valid()
      modifies this
      ensures unchanged(`expired, `removed, `denied)
      ensures Valid() && unchanged(`enqueued, `cleared) && Since(old(queues), enqueued, queues) && Others(old(queues), queues, r)
      ensures var q := LineOf(old(queues), r);
        if q == [] then out == None && LineOf(queues, r) == [] && waits == old(waits)
        else out == Some(q[0].client) && LineOf(queues, r) == q[1..] && OneMore(old(waits), waits, q[0].client.queuedAt, now)
    {
      hide Since, Others, NoneEmpty, Total, AverageOk, LinesOk, Ordered, Longest;
      var q := LineOf(queues, r);
      LineOrdered(queues, enqueued, max, r);
      if q == [] {
        Leave(r, q);
        return None;
      }
      WithoutOrdered(queues, enqueued, max, r, 0);
      Leave(r, q[..0] + q[1..]);
      RecordWait(q[0].client, now);
      return Some(q[0].client);
    }

    /** The client's first place in the line, wherever it is. */
    method DequeueClient(r: Resource, id: ClientId, now: nat) returns (out: Option<Client>)
      requires Valid()
      modifies this
      ensures unchanged(`expired, `removed, `denied)
      ensures Valid() && unchanged(`enqueued, `cleared) && Since(old(queues), enqueued, queues) && Others(old(queues), queues, r)
      ensures var q := LineOf(old(queues), r); var k := Position(q, id);
        if k == |q| then out == None && LineOf(queues, r) == q && waits == old(waits)
        else out == Some(q[k].client) && LineOf(queues, r) == q[..k] + q[k + 1..] && OneMore(old(waits), waits, q[k].client.queuedAt, now)
    {
      hide Since, Others, NoneEmpty, Total, AverageOk, Position, LinesOk, Ordered, Longest;
      var q := LineOf(queues, r);
      LineOrdered(queues, enqueued, max, r);
      var k := Position(q, id);
      if k == |q| {
        Leave(r, q);
        return None;
      }
      WithoutOrdered(queues, enqueued, max, r, k);
      Leave(r, q[..k] + q[k + 1..]);
      RecordWait(q[k].client, now);
      return Some(q[k].client);
    }

    method Remove(r: Resource, id: ClientId) returns (found: bool)
      requires Valid()
      modifies this
      ensures Valid() && unchanged(`enqueued, `cleared) && Since(old(queues), enqueued, queues) && Others(old(queues), queues, r)
      ensures var q := LineOf(old(queues), r); var k := Position(q, id);
        && found == (k < |q|)
        && LineOf(queues, r) == if found then q[..k] + q[k + 1..] else q
      ensures removed == old(removed) + (if found then 1 else 0)
      ensures unchanged(`dequeued, `expired, `denied, `maxWait, `avgWait, `waits)
    {
      hide Since, NoneEmpty, Total, AverageOk, Position, LinesOk, Ordered, Longest;
      SinceSelf(queues, enqueued);
      var q := LineOf(queues, r);
      var k := Position(q, id);
      found := k < |q|;
      if found {
        WithoutOrdered(queues, enqueued, max, r, k);
        Leave(r, q[..k] + q[k + 1..]);
        removed := removed + 1;
      }
    }

    method CleanupExpired(r: Resource, now: nat) returns (n: nat)
      requires Valid()
      modifies this
      ensures Valid() && unchanged(`enqueued, `cleared) && Since(old(queues), enqueued, queues) && Others(old(queues), queues, r)
      ensures LineOf(queues, r) == Alive(LineOf(old(queues), r), now)
      ensures Swept(LineOf(old(queues), r), LineOf(queues, r), now)
      ensures n == |LineOf(old(queues), r)| - |LineOf(queues, r)| && expired == old(expired) + n
      ensures unchanged(`dequeued, `removed, `denied, `maxWait, `avgWait, `waits)
    {
      hide Since, Others, NoneEmpty, Total, AverageOk, Alive, Longest;
      var q := LineOf(queues, r);
      var alive := Alive(q, now);
      AliveOrdered(q, now);
      AliveAll(q, now);
      n := |q| - |alive|;
      Leave(r, alive);
      expired := expired + n;
    }

    /** The turn is given to the front of the line as it stands without the expired, or to anyone when
        nobody is left. */
    method TryAcquire(r: Resource, id: ClientId, now: nat) returns (ok: bool)
      requires Valid()
      modifies this
      ensures Valid() && unchanged(`enqueued, `cleared) && Since(old(queues), enqueued, queues) && Others(old(queues), queues, r)
      ensures LineOf(queues, r) == Alive(LineOf(old(queues), r), now)
      ensures Swept(LineOf(old(queues), r), LineOf(queues, r), now)
      ensures expired == old(expired) + |LineOf(old(queues), r)| - |LineOf(queues, r)|
      ensures var q := LineOf(queues, r); ok == (q == [] || q[0].client.id == id)
      ensures denied == old(denied) + if ok then 0 else 1
      ensures unchanged(`dequeued, `removed, `maxWait, `avgWait, `waits)
    {
      hide Since, Others, NoneEmpty, Total, AverageOk, LinesOk, Longest, Swept, Alive, Ordered;
      var _ := CleanupExpired(r, now);
      var q := LineOf(queues, r);
      ok := q == [] || q[0].client.id == id;
      if !ok {
        denied := denied + 1;
      }
    }

    /** Every line is cleaned, over the resources there were at the start. */
    method CleanupAllExpired(now: nat) returns (n: nat)
      requires Valid()
      modifies this
      ensures Valid() && unchanged(`enqueued, `cleared) && Since(old(queues), enqueued, queues)
      ensures forall r :: LineOf(queues, r) == Alive(LineOf(old(queues), r), now)
      ensures forall r :: Swept(LineOf(old(queues), r), LineOf(queues, r), now)
      ensures expired == old(expired) + n && totalQueued + n == old(totalQueued)
      ensures unchanged(`dequeued, `removed, `denied, `maxWait, `avgWait, `waits)
    {
      hide Since, NoneEmpty, Total, AverageOk, LinesOk, Alive, Longest, Swept, Ordered;
      n := 0;
      var rest := queues.Keys;
      SinceSelf(queues, enqueued);
      AliveAll([], now);
      while rest != {}
        invariant Valid() && unchanged(`enqueued, `cleared, `dequeued, `removed, `denied, `maxWait, `avgWait, `waits)
        invariant expired == old(expired) + n
        invariant Since(old(queues), enqueued, queues)
        invariant forall r :: LineOf(queues, r) == if r in rest then LineOf(old(queues), r) else Alive(LineOf(old(queues), r), now)
        decreases rest
      {
        var r :| r in rest;
        ghost var before := queues;
        var k := CleanupExpired(r, now);
        SinceThen(old(queues), enqueued, before, enqueued, queues);
        OthersSame(before, queues, r);
        n, rest := n + k, rest - {r};
      }
      forall r ensures Swept(LineOf(old(queues), r), LineOf(queues, r), now) {
        AliveSwept(old(queues), old(enqueued), max, r, now);
      }
    }

    /** Any run: the lines stay in order and bounded, no client is lost, and whoever gets ahead of a
        client that waits throughout has a strictly better priority. */
    method Run(ops: seq<Op>)
      requires Valid()
      modifies this
      ensures Valid() && old(enqueued) <= enqueued
      ensures (forall i :: 0 <= i < |ops| ==> !ops[i].Wipe?) ==> cleared == old(cleared)
      ensures forall r, x, y :: Overtakes(old(queues), queues, r, x, y) ==> y.client.priority < x.client.priority
    {
      hide Since, NoneEmpty, Total, AverageOk, LinesOk, Ahead, Alive, Position, Longest, Swept, Ordered;
      SinceSelf(queues, enqueued);
      for i := 0 to |ops|
        invariant Valid() && old(enqueued) <= enqueued && Since(old(queues), old(enqueued), queues)
        invariant (forall j :: 0 <= j < i ==> !ops[j].Wipe?) ==> cleared == old(cleared)
      {
        ghost var before, k := queues, enqueued;
        SinceEmpty(before, k);
        match ops[i] {
          case Enter(c) => var _ := Enqueue(c);
          case Turn(r, id, now) => var _ := TryAcquire(r, id, now);
          case Serve(r, now) => var _ := Dequeue(r, now);
          case ServeClient(r, id, now) => var _ := DequeueClient(r, id, now);
          case Withdraw(r, id) => var _ := Remove(r, id);
          case Clean(r, now) => var _ := CleanupExpired(r, now);
          case CleanAll(now) => var _ := CleanupAllExpired(now);
          case Wipe => Clear();
        }
        SinceThen(old(queues), old(enqueued), before, k, queues);
      }
      forall r, x, y | Overtakes(old(queues), queues, r, x, y)
        ensures y.client.priority < x.client.priority
      {
        Overtaken(old(queues), old(enqueued), max, queues, enqueued, r, x, y);
      }
    }

    method Clear()
      requires Valid()
      modifies this
      ensures Valid() && queues == map[] && cleared == old(cleared) + old(totalQueued)
      ensures unchanged(`enqueued, `dequeued, `expired, `removed, `denied, `maxWait, `avgWait, `waits)
    {
      queues := map[];
      cleared := cleared + totalQueued;
      totalQueued, activeQueues := 0, 0;
    }
  }
}
