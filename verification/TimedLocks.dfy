/** The detector of src/deadlock.rs over time: what its records say of any run of calls, each with its own
    time to live and at its own instant, and what detection then finds. */
module TimedLocks {
  import opened Basics
  import opened WaitForGraph
  import opened LockRecords
  import opened CycleSearch
  import opened DeadlockSnapshots
  import opened DeadlockDetectors

  datatype Call = Call(step: Step, ttl: nat, now: Instant)

  // ----- who holds and who waits, read off the calls -----------------------------------------------------

  /** A hold ends by its owner's release, by a forced release of the owner, or by another acquisition. */
  predicate EndsHold(step: Step, r: Resource, c: Client) {
    step == Release(r, c) || step == ForceRelease(c) || (step.Acquire? && step.resource == r)
  }

  /** The `i`-th call is an acquisition that still stands. */
  ghost predicate Holding(calls: seq<Call>, i: nat) {
    i < |calls| && calls[i].step.Acquire? && HoldStands(calls, i)
  }

  ghost predicate HoldStands(calls: seq<Call>, i: nat)
    requires i < |calls| && calls[i].step.Acquire?
  {
    forall j :: i < j < |calls| ==> !EndsHold(calls[j].step, calls[i].step.resource, calls[i].step.client)
  }

  ghost predicate Held(calls: seq<Call>, r: Resource, c: Client) {
    exists i: nat :: Holding(calls, i) && calls[i].step == Acquire(r, c)
  }

  /** A wait ends when its client gets the resource, gives up or is released by force, and when the holder
      of the resource is. */
  ghost predicate EndsWait(before: seq<Call>, step: Step, r: Resource, c: Client) {
    || step == Acquire(r, c) || step == GiveUp(c) || step == ForceRelease(c)
    || (step.ForceRelease? && Held(before, r, step.client))
  }

  /** The `i`-th call is a wait that still stands. */
  ghost predicate Pending(calls: seq<Call>, i: nat) {
    i < |calls| && calls[i].step.StartWait? && WaitStands(calls, i)
  }

  ghost predicate WaitStands(calls: seq<Call>, i: nat)
    requires i < |calls| && calls[i].step.StartWait?
  {
    forall j :: i < j < |calls| ==> !EndsWait(calls[..j], calls[j].step, calls[i].step.resource, calls[i].step.client)
  }

  ghost predicate Awaited(calls: seq<Call>, r: Resource, c: Client) {
    exists i: nat :: Pending(calls, i) && calls[i].step == StartWait(r, c)
  }

  /** A circular wait in a run: everyone waits for something that the next one holds. */
  ghost predicate Circle(calls: seq<Call>, clients: seq<Client>, resources: seq<Resource>) {
    && |clients| == |resources| + 1 && |resources| > 0 && clients[0] == clients[|resources|]
    && forall k :: 0 <= k < |resources| ==> Awaited(calls, resources[k], clients[k]) && Held(calls, resources[k], clients[k + 1])
  }

  /** Acquired at most its time to live ago; nanoseconds against milliseconds. */
  predicate InTime(call: Call, t: Instant) {
    t <= call.now + call.ttl * 1_000_000
  }

  ghost predicate HeldInTime(calls: seq<Call>, r: Resource, c: Client, t: Instant) {
    exists i: nat :: Holding(calls, i) && calls[i].step == Acquire(r, c) && InTime(calls[i], t)
  }

  // ----- the records -----------------------------------------------------------------------------------------

  function Info(call: Call): LockInfo
    requires call.step.Acquire? || call.step.StartWait?
  {
    LockInfo(call.step.resource, call.step.client, call.now, call.ttl)
  }

  ghost predicate HoldsMatch(held: map<Resource, LockInfo>, calls: seq<Call>) {
    && (forall i: nat :: Holding(calls, i) ==> calls[i].step.resource in held && held[calls[i].step.resource] == Info(calls[i]))
    && (forall r :: r in held ==> exists i: nat :: Holding(calls, i) && calls[i].step.resource == r)
  }

  ghost predicate WaitsMatch(waiting: map<Client, seq<LockInfo>>, calls: seq<Call>) {
    && (forall i: nat :: Pending(calls, i) ==> Waits(waiting, calls[i].step.client, Info(calls[i])))
    && (forall c, info :: Waits(waiting, c, info) ==>
      exists i: nat :: Pending(calls, i) && calls[i].step.client == c && Info(calls[i]) == info)
  }

  /** What a call does to the two maps. */
  ghost predicate Recorded(held: map<Resource, LockInfo>, waiting: map<Client, seq<LockInfo>>, call: Call,
                           held': map<Resource, LockInfo>, waiting': map<Client, seq<LockInfo>>)
  {
    match call.step
    case Acquire(r, c) =>
      && held' == held[r := Info(call)]
      && forall d, info :: Waits(waiting', d, info) <==> Waits(waiting, d, info) && !(d == c && info.resource == r)
    case Release(r, c) => held' == (if r in held && held[r].client == c then held - {r} else held) && waiting' == waiting
    case StartWait(r, c) =>
      held' == held && forall d, info :: Waits(waiting', d, info) <==> Waits(waiting, d, info) || (d == c && info == Info(call))
    case GiveUp(c) => held' == held && forall d, info :: Waits(waiting', d, info) <==> Waits(waiting, d, info) && d != c
    case ForceRelease(c) =>
      && held' == (map r | r in held && held[r].client != c :: held[r])
      && forall d, info :: Waits(waiting', d, info) <==>
        Waits(waiting, d, info) && d != c && !(info.resource in held && held[info.resource].client == c)
  }

  lemma HoldingNext(calls: seq<Call>, x: Call, i: nat)
    ensures Holding(calls + [x], i) <==>
      if i < |calls| then Holding(calls, i) && !EndsHold(x.step, calls[i].step.resource, calls[i].step.client)
      else i == |calls| && x.step.Acquire?
  {
    var all := calls + [x];
    assert forall j :: 0 <= j < |calls| ==> all[j] == calls[j];
    assert all[|calls|] == x;
  }

  lemma PendingNext(calls: seq<Call>, x: Call, i: nat)
    ensures Pending(calls + [x], i) <==>
      if i < |calls| then Pending(calls, i) && !EndsWait(calls, x.step, calls[i].step.resource, calls[i].step.client)
      else i == |calls| && x.step.StartWait?
  {
    hide EndsWait;
    var all := calls + [x];
    assert forall j :: 0 <= j < |calls| ==> all[j] == calls[j] && all[..j] == calls[..j];
    assert all[|calls|] == x && all[..|calls|] == calls;
  }

  lemma HoldsNext(held: map<Resource, LockInfo>, waiting: map<Client, seq<LockInfo>>, calls: seq<Call>, x: Call,
                  held': map<Resource, LockInfo>, waiting': map<Client, seq<LockInfo>>)
    requires HoldsMatch(held, calls) && Recorded(held, waiting, x, held', waiting')
    ensures HoldsMatch(held', calls + [x])
  {
    hide Waits, HoldStands;
    var all := calls + [x];
    forall i: nat | Holding(all, i) ensures all[i].step.Acquire? && all[i].step.resource in held' && held'[all[i].step.resource] == Info(all[i]) {
      HoldingNext(calls, x, i);
    }
    forall r | r in held' ensures exists i: nat :: Holding(all, i) && all[i].step.resource == r {
      if x.step.Acquire? && x.step.resource == r {
        HoldingNext(calls, x, |calls|);
        assert Holding(all, |calls|);
      } else {
        assert r in held;
        var i: nat :| Holding(calls, i) && calls[i].step.resource == r;
        HoldingNext(calls, x, i);
        assert all[i] == calls[i];
      }
    }
  }

  /** In a matching state the map says who holds what. */
  lemma HeldIff(held: map<Resource, LockInfo>, calls: seq<Call>, r: Resource, c: Client)
    requires HoldsMatch(held, calls)
    ensures Held(calls, r, c) <==> r in held && held[r].client == c
  {
    hide HoldStands;
    if r in held {
      var i: nat :| Holding(calls, i) && calls[i].step.resource == r;
    }
    if i: nat :| Holding(calls, i) && calls[i].step == Acquire(r, c) {
    }
  }

  /** Which waits a call lets stand. */
  lemma KeepsWait(held: map<Resource, LockInfo>, waiting: map<Client, seq<LockInfo>>, calls: seq<Call>, x: Call,
                  held': map<Resource, LockInfo>, waiting': map<Client, seq<LockInfo>>, info: LockInfo)
    requires HoldsMatch(held, calls) && Recorded(held, waiting, x, held', waiting')
    ensures Waits(waiting', info.client, info) <==>
      || (Waits(waiting, info.client, info) && !EndsWait(calls, x.step, info.resource, info.client))
      || (x.step.StartWait? && info == Info(x))
  {
    hide Waits, HoldsMatch, Held;
    if x.step.ForceRelease? {
      HeldIff(held, calls, info.resource, x.step.client);
    }
  }

  lemma OwnWaits(held: map<Resource, LockInfo>, waiting: map<Client, seq<LockInfo>>, calls: seq<Call>, x: Call,
                 held': map<Resource, LockInfo>, waiting': map<Client, seq<LockInfo>>)
    requires (forall c, info :: Waits(waiting, c, info) ==> info.client == c) && Recorded(held, waiting, x, held', waiting')
    ensures forall c, info :: Waits(waiting', c, info) ==> info.client == c
  {
    hide Waits;
  }

  lemma WaitsNext(held: map<Resource, LockInfo>, waiting: map<Client, seq<LockInfo>>, calls: seq<Call>, x: Call,
                  held': map<Resource, LockInfo>, waiting': map<Client, seq<LockInfo>>)
    requires HoldsMatch(held, calls) && WaitsMatch(waiting, calls) && Recorded(held, waiting, x, held', waiting')
    requires forall c, info :: Waits(waiting, c, info) ==> info.client == c
    ensures WaitsMatch(waiting', calls + [x])
  {
    hide Waits, WaitStands, HoldsMatch, Recorded, EndsWait;
    var all := calls + [x];
    OwnWaits(held, waiting, calls, x, held', waiting');
    forall i: nat | Pending(all, i) ensures all[i].step.StartWait? && Waits(waiting', all[i].step.client, Info(all[i])) {
      PendingNext(calls, x, i);
      KeepsWait(held, waiting, calls, x, held', waiting', Info(all[i]));
    }
    forall c, info | Waits(waiting', c, info)
      ensures exists i: nat :: Pending(all, i) && all[i].step.client == c && Info(all[i]) == info
    {
      KeepsWait(held, waiting, calls, x, held', waiting', info);
      if x.step.StartWait? && info == Info(x) {
        PendingNext(calls, x, |calls|);
        assert Pending(all, |calls|);
      } else {
        var i: nat :| Pending(calls, i) && calls[i].step.client == c && Info(calls[i]) == info;
        PendingNext(calls, x, i);
        assert all[i] == calls[i];
      }
    }
  }

  // ----- the detector --------------------------------------------------------------------------------------------

  ghost predicate InStep(d: Detector, calls: seq<Call>)
    reads d
  {
    && HoldsMatch(d.held, calls) && WaitsMatch(d.waiting, calls)
    && (forall c, info :: Waits(d.waiting, c, info) ==> info.client == c)
    && Stamped(d.graph, d.waiting) && Indexed(d.Abs())
  }

  lemma SubsetStamped(graph: seq<WaitEdge>, waiting: map<Client, seq<LockInfo>>, graph': seq<WaitEdge>, waiting': map<Client, seq<LockInfo>>)
    requires Stamped(graph, waiting) && forall e :: e in graph' ==> e in graph
    requires forall e, info :: e in graph' && Waits(waiting, e.waiter, info) && info.resource == e.resource ==> Waits(waiting', e.waiter, info)
    ensures Stamped(graph', waiting')
  {
    forall e | e in graph' ensures Stamp(e, waiting') {
      assert Stamp(e, waiting);
      var info :| Waits(waiting, e.waiter, info) && info.resource == e.resource && info.timestamp == e.timestamp;
      assert Waits(waiting', e.waiter, info);
    }
  }

  method Perform(d: Detector, call: Call)
    modifies d
    ensures Recorded(old(d.held), old(d.waiting), call, d.held, d.waiting) && d.Abs() == Next(old(d.Abs()), call.step)
    ensures Stamped(old(d.graph), old(d.waiting)) ==> Stamped(d.graph, d.waiting)
  {
    hide Waits, Stamped, ViewOf, Next;
    match call.step {
      case Acquire(r, c) => d.RecordLockAcquired(r, c, call.ttl, call.now);
      case Release(r, c) => d.RecordLockReleased(r, c);
      case StartWait(r, c) => d.RecordLockWait(r, c, call.ttl, call.now);
      case GiveUp(c) => d.RemoveFromWaiting(c);
      case ForceRelease(c) => var _ := d.ReleaseClientLocks(c);
    }
    if Stamped(old(d.graph), old(d.waiting)) && !call.step.Acquire? && !call.step.StartWait? {
      SubsetStamped(old(d.graph), old(d.waiting), d.graph, d.waiting);
    }
  }

  method RunCalls(d: Detector, calls: seq<Call>)
    requires InStep(d, [])
    modifies d
    ensures InStep(d, calls)
  {
    hide HoldsMatch, WaitsMatch, Recorded, Stamped, Indexed, Next, Waits;
    assert calls[..0] == [];
    for k := 0 to |calls|
      invariant InStep(d, calls[..k])
    {
      ghost var held, waiting, before := d.held, d.waiting, d.Abs();
      Perform(d, calls[k]);
      HoldsNext(held, waiting, calls[..k], calls[k], d.held, d.waiting);
      WaitsNext(held, waiting, calls[..k], calls[k], d.held, d.waiting);
      OwnWaits(held, waiting, calls[..k], calls[k], d.held, d.waiting);
      NextKeepsIndexed(before, calls[k].step);
      assert calls[..k + 1] == calls[..k] + [calls[k]];
    }
    assert calls[..|calls|] == calls;
  }

  lemma NothingYet()
    ensures HoldsMatch(map[], []) && WaitsMatch(map[], [])
  {
  }

  /** Every hold that stands is within its time to live, and every wait within its own and the maximum. */
  ghost predicate AllInTime(calls: seq<Call>, t: Instant, maxWait: nat) {
    && (forall i: nat :: Holding(calls, i) ==> InTime(calls[i], t))
    && (forall i: nat :: Pending(calls, i) ==> InTime(calls[i], t) && Young(calls[i], t, maxWait))
  }

  lemma InTimeIff(call: Call, t: Instant)
    requires call.step.Acquire? || call.step.StartWait?
    ensures InTime(call, t) <==> !Expired(Info(call), t)
  {
  }

  /** Begun less than the maximum wait ago. */
  predicate Young(call: Call, t: Instant, maxWait: nat) {
    maxWait > 0 && t < call.now + maxWait * 1_000_000
  }

  lemma YoungIff(call: Call, t: Instant, maxWait: nat)
    ensures Young(call, t, maxWait) <==> Elapsed(call.now, t) < maxWait * NANOS_PER_MS
  {
  }

  ghost predicate AwaitedYoung(calls: seq<Call>, r: Resource, c: Client, t: Instant, maxWait: nat) {
    exists i: nat :: Pending(calls, i) && calls[i].step == StartWait(r, c) && Young(calls[i], t, maxWait)
  }

  ghost predicate NoneOld(calls: seq<Call>, r: Resource, c: Client, t: Instant, maxWait: nat) {
    forall i: nat :: Pending(calls, i) && calls[i].step == StartWait(r, c) ==> Young(calls[i], t, maxWait)
  }

  /** Nobody waits twice at once for one resource. */
  ghost predicate WaitsOnce(calls: seq<Call>) {
    forall i: nat, j: nat :: Pending(calls, i) && Pending(calls, j) && calls[i].step == calls[j].step ==> i == j
  }

  /** The holds that stand and are in time are what a cleanup leaves. */
  lemma HoldsLeft(held: map<Resource, LockInfo>, calls: seq<Call>, t: Instant, r: Resource, c: Client)
    requires HoldsMatch(held, calls)
    ensures (r in held && held[r].client == c && !Expired(held[r], t)) <==> HeldInTime(calls, r, c, t)
  {
    hide HoldStands, InTime, Expired;
    if r in held {
      var i: nat :| Holding(calls, i) && calls[i].step.resource == r;
      InTimeIff(calls[i], t);
    }
    if i: nat :| Holding(calls, i) && calls[i].step == Acquire(r, c) && InTime(calls[i], t) {
      InTimeIff(calls[i], t);
    }
  }

  lemma NothingExpired(held: map<Resource, LockInfo>, waiting: map<Client, seq<LockInfo>>, graph: seq<WaitEdge>, calls: seq<Call>,
                       t: Instant, maxWait: nat)
    requires HoldsMatch(held, calls) && WaitsMatch(waiting, calls) && Stamped(graph, waiting) && AllInTime(calls, t, maxWait)
    ensures forall r :: r in held ==> !Expired(held[r], t)
    ensures forall c, info :: Waits(waiting, c, info) ==> !Expired(info, t) && Elapsed(info.timestamp, t) < maxWait * NANOS_PER_MS
    ensures forall e :: e in graph ==> Elapsed(e.timestamp, t) < maxWait * NANOS_PER_MS
  {
    hide HoldStands, WaitStands, InTime, Expired, Elapsed, Waits;
    forall r | r in held ensures !Expired(held[r], t) {
      var i: nat :| Holding(calls, i) && calls[i].step.resource == r;
      InTimeIff(calls[i], t);
    }
    forall c, info | Waits(waiting, c, info) ensures !Expired(info, t) && Elapsed(info.timestamp, t) < maxWait * NANOS_PER_MS {
      var i: nat :| Pending(calls, i) && calls[i].step.client == c && Info(calls[i]) == info;
      InTimeIff(calls[i], t);
      YoungIff(calls[i], t, maxWait);
    }
    forall e | e in graph ensures Elapsed(e.timestamp, t) < maxWait * NANOS_PER_MS {
      assert Stamp(e, waiting);
      var info :| Waits(waiting, e.waiter, info) && info.resource == e.resource && info.timestamp == e.timestamp;
    }
  }

  /** The two maps have a circular wait exactly when the calls have. */
  lemma CircleIff(held: map<Resource, LockInfo>, waiting: map<Client, seq<LockInfo>>, graph: seq<WaitEdge>, calls: seq<Call>)
    requires HoldsMatch(held, calls) && WaitsMatch(waiting, calls)
    ensures CircularWait(ViewOf(held, waiting, graph)) <==> exists clients, resources :: Circle(calls, clients, resources)
  {
    hide HoldsMatch, WaitsMatch, Held, Awaited, EdgesOf, WaitsOf;
    var v := ViewOf(held, waiting, graph);
    forall r, c ensures Held(calls, r, c) <==> Holds(v, c, r) { HeldIff(held, calls, r, c); }
    forall r, c ensures Awaited(calls, r, c) <==> Wait(c, r) in v.waits { AwaitedIff(waiting, calls, r, c); }
    forall clients, resources ensures Circle(calls, clients, resources) <==> IsCircularWait(v, clients, resources) {
    }
  }

  lemma AwaitedIff(waiting: map<Client, seq<LockInfo>>, calls: seq<Call>, r: Resource, c: Client)
    requires WaitsMatch(waiting, calls)
    ensures Awaited(calls, r, c) <==> Wait(c, r) in WaitsOf(waiting)
  {
    hide WaitStands;
    if i: nat :| Pending(calls, i) && calls[i].step == StartWait(r, c) {
      assert Waits(waiting, c, Info(calls[i]));
    }
    if Wait(c, r) in WaitsOf(waiting) {
      var info :| c in waiting && info in waiting[c] && info.resource == r;
      assert Waits(waiting, c, info);
    }
  }

  lemma SameWaits(a: map<Client, seq<LockInfo>>, b: map<Client, seq<LockInfo>>)
    requires forall c, info :: Waits(a, c, info) <==> Waits(b, c, info)
    ensures WaitsOf(a) == WaitsOf(b)
  {
    forall w | w in WaitsOf(a) ensures w in WaitsOf(b) {
      var info :| w.waiter in a && info in a[w.waiter] && info.resource == w.resource;
      assert Waits(a, w.waiter, info);
    }
    forall w | w in WaitsOf(b) ensures w in WaitsOf(a) {
      var info :| w.waiter in b && info in b[w.waiter] && info.resource == w.resource;
      assert Waits(b, w.waiter, info);
    }
  }

  lemma SameGraph(a: seq<WaitEdge>, b: seq<WaitEdge>)
    requires forall e :: e in a <==> e in b
    ensures EdgesOf(a) == EdgesOf(b)
  {
  }

  /** Any run of calls and then detection. What is held afterwards are the acquisitions that stand and are
      within their time to live. A deadlock is reported only if the calls have a circular wait in time, and
      always if they have one that repeats no older wait; so exactly then where nobody waits twice at once.
      When everything is in time, it is reported exactly when the calls have a circular wait. */
  method DetectAfter(calls: seq<Call>, t: Instant, maxWait: nat, autoResolve: bool, strategy: VictimStrategy)
    returns (d: Detector, status: DeadlockStatus)
    ensures fresh(d) && d.autoResolve == autoResolve && d.strategy == strategy && Sound(d.Abs())
    ensures forall r, c :: (r in d.held && d.held[r].client == c) <==> HeldInTime(calls, r, c, t)
    ensures HeldFrom(d.held, calls)
    ensures status.Deadlock? ==> Lasso(d.Abs().edges, status.cycle, status.resources)
    ensures status.Deadlock? ==> exists clients, resources :: CircleInTime(calls, clients, resources, t, maxWait)
    ensures (exists clients, resources :: CircleSurely(calls, clients, resources, t, maxWait)) ==> status.Deadlock?
    ensures WaitsOnce(calls) ==> (status.Deadlock? <==> exists clients, resources :: CircleInTime(calls, clients, resources, t, maxWait))
    ensures AllInTime(calls, t, maxWait) ==> (status.Deadlock? <==> exists clients, resources :: Circle(calls, clients, resources))
  {
    hide HoldsMatch, WaitsMatch, Stamped, Waits, AllInTime, Circle, CircleInTime, CircleSurely, WaitsOnce, Indexed, HeldFrom,
         HeldInTime, Expired, Elapsed, EdgesOf, WaitsOf, HasCycle;
    d := new Detector(maxWait, autoResolve, strategy);
    NothingYet();
    assert InStep(d, []) by { EmptyInStep(d); }
    RunCalls(d, calls);
    ghost var held, waiting, graph := d.held, d.waiting, d.graph;
    IndexedSound(d.Abs());
    status := d.DetectDeadlock(t);
    forall r, c ensures (r in d.held && d.held[r].client == c) <==> HeldInTime(calls, r, c, t) {
      HoldsLeft(held, calls, t, r, c);
    }
    MatchedFrom(held, calls, d.held);
    if status.Deadlock? {
      NoFalseAlarm(graph, d.Abs(), d.graph, waiting, calls, t, maxWait);
    }
    if clients, resources :| CircleSurely(calls, clients, resources, t, maxWait) {
      NoMissedAlarm(held, waiting, graph, d.graph, calls, clients, resources, t, maxWait);
    }
    if WaitsOnce(calls) {
      OnceIsSurely(calls, t, maxWait);
    }
    if AllInTime(calls, t, maxWait) {
      NothingExpired(held, waiting, graph, calls, t, maxWait);
      assert d.held == held;
      SameWaits(waiting, d.waiting);
      SameGraph(graph, d.graph);
      assert ViewOf(held, waiting, graph) == d.Abs();
      IndexedCycles(d.Abs());
      CircleIff(held, waiting, graph, calls);
    }
  }

  /** A circular wait in which every hold is within its time to live and every wait within the maximum. */
  ghost predicate CircleInTime(calls: seq<Call>, clients: seq<Client>, resources: seq<Resource>, t: Instant, maxWait: nat) {
    && Circle(calls, clients, resources)
    && forall k :: 0 <= k < |resources| ==>
      HeldInTime(calls, resources[k], clients[k + 1], t) && AwaitedYoung(calls, resources[k], clients[k], t, maxWait)
  }

  /** One that holds whichever of several waits of a client for a resource is looked at. */
  ghost predicate CircleSurely(calls: seq<Call>, clients: seq<Client>, resources: seq<Resource>, t: Instant, maxWait: nat) {
    && CircleInTime(calls, clients, resources, t, maxWait)
    && forall k :: 0 <= k < |resources| ==> NoneOld(calls, resources[k], clients[k], t, maxWait)
  }

  lemma OnceIsSurely(calls: seq<Call>, t: Instant, maxWait: nat)
    requires WaitsOnce(calls)
    ensures forall clients, resources ::
      CircleInTime(calls, clients, resources, t, maxWait) <==> CircleSurely(calls, clients, resources, t, maxWait)
  {
    hide Circle, Young, WaitStands, HeldInTime;
    forall r, c | AwaitedYoung(calls, r, c, t, maxWait) ensures NoneOld(calls, r, c, t, maxWait) {
    }
  }

  /** An edge that is left belongs to a young wait. */
  lemma EdgeYoung(graph: seq<WaitEdge>, waiting: map<Client, seq<LockInfo>>, calls: seq<Call>, x: WaitEdge, t: Instant, maxWait: nat)
    requires x in graph && Stamped(graph, waiting) && WaitsMatch(waiting, calls) && Elapsed(x.timestamp, t) < maxWait * NANOS_PER_MS
    ensures AwaitedYoung(calls, x.resource, x.waiter, t, maxWait)
  {
    hide Waits, WaitStands, Elapsed, Young;
    assert Stamp(x, waiting);
    var info :| Waits(waiting, x.waiter, info) && info.resource == x.resource && info.timestamp == x.timestamp;
    var i: nat :| Pending(calls, i) && calls[i].step.client == x.waiter && Info(calls[i]) == info;
    YoungIff(calls[i], t, maxWait);
    assert calls[i].step == StartWait(x.resource, x.waiter);
  }

  lemma NoFalseAlarm(graph: seq<WaitEdge>, left: View, kept: seq<WaitEdge>, waiting: map<Client, seq<LockInfo>>,
                     calls: seq<Call>, t: Instant, maxWait: nat)
    requires WaitsMatch(waiting, calls) && Stamped(graph, waiting) && Sound(left) && left.edges == EdgesOf(kept) && HasCycle(left.edges)
    requires forall x :: x in kept ==> x in graph && Elapsed(x.timestamp, t) < maxWait * NANOS_PER_MS
    requires forall r, c :: Holds(left, c, r) ==> HeldInTime(calls, r, c, t)
    ensures exists clients, resources :: CircleInTime(calls, clients, resources, t, maxWait)
  {
    hide WaitsMatch, Stamped, WaitsOf, HoldStands, WaitStands, InTime, Young, Elapsed;
    var clients, resources :| IsCycle(left.edges, clients, resources);
    forall k | 0 <= k < |resources|
      ensures HeldInTime(calls, resources[k], clients[k + 1], t) && AwaitedYoung(calls, resources[k], clients[k], t, maxWait)
      ensures Awaited(calls, resources[k], clients[k]) && Held(calls, resources[k], clients[k + 1])
    {
      assert Edge(clients[k], resources[k], clients[k + 1]) in left.edges;
      var x :| x in kept && EdgeOf(x) == Edge(clients[k], resources[k], clients[k + 1]);
      EdgeYoung(graph, waiting, calls, x, t, maxWait);
    }
    assert CircleInTime(calls, clients, resources, t, maxWait);
  }

  /** An edge of a hold in time stays when none of its waits is old. */
  lemma EdgeStays(held: map<Resource, LockInfo>, waiting: map<Client, seq<LockInfo>>, graph: seq<WaitEdge>, kept: seq<WaitEdge>,
                  calls: seq<Call>, r: Resource, w: Client, h: Client, t: Instant, maxWait: nat)
    requires HoldsMatch(held, calls) && WaitsMatch(waiting, calls) && Stamped(graph, waiting) && Indexed(ViewOf(held, waiting, graph))
    requires forall x :: x in kept <==>
      x in graph && !(x.resource in held && Expired(held[x.resource], t)) && Elapsed(x.timestamp, t) < maxWait * NANOS_PER_MS
    requires HeldInTime(calls, r, h, t) && Awaited(calls, r, w) && NoneOld(calls, r, w, t, maxWait)
    ensures Edge(w, r, h) in EdgesOf(kept)
  {
    hide HoldsMatch, Waits, HoldStands, WaitStands, Elapsed, Young, Expired, InTime, HeldInTime;
    HoldsLeft(held, calls, t, r, h);
    AwaitedIff(waiting, calls, r, w);
    assert Edge(w, r, h) in EdgesOf(graph);
    var x :| x in graph && EdgeOf(x) == Edge(w, r, h);
    assert Stamp(x, waiting);
    var info :| Waits(waiting, w, info) && info.resource == r && info.timestamp == x.timestamp;
    var i: nat :| Pending(calls, i) && calls[i].step.client == w && Info(calls[i]) == info;
    assert calls[i].step == StartWait(r, w);
    YoungIff(calls[i], t, maxWait);
    assert x in kept;
  }

  lemma NoMissedAlarm(held: map<Resource, LockInfo>, waiting: map<Client, seq<LockInfo>>, graph: seq<WaitEdge>, kept: seq<WaitEdge>,
                      calls: seq<Call>, clients: seq<Client>, resources: seq<Resource>, t: Instant, maxWait: nat)
    requires HoldsMatch(held, calls) && WaitsMatch(waiting, calls) && Stamped(graph, waiting) && Indexed(ViewOf(held, waiting, graph))
    requires forall x :: x in kept <==>
      x in graph && !(x.resource in held && Expired(held[x.resource], t)) && Elapsed(x.timestamp, t) < maxWait * NANOS_PER_MS
    requires CircleSurely(calls, clients, resources, t, maxWait)
    ensures HasCycle(EdgesOf(kept))
  {
    hide HoldsMatch, WaitsMatch, Stamped, Indexed, EdgesOf, HeldInTime, Awaited, NoneOld, AwaitedYoung, Held, Expired, Elapsed;
    forall k | 0 <= k < |resources| ensures Edge(clients[k], resources[k], clients[k + 1]) in EdgesOf(kept) {
      EdgeStays(held, waiting, graph, kept, calls, resources[k], clients[k], clients[k + 1], t, maxWait);
    }
    assert IsCycle(EdgesOf(kept), clients, resources);
  }

  lemma EmptyInStep(d: Detector)
    requires d.held == map[] && d.waiting == map[] && d.graph == []
    ensures InStep(d, [])
  {
    NothingYet();
  }

  lemma IndexedSound(v: View)
    requires Indexed(v)
    ensures Sound(v)
  {
  }

  /** Every record of a hold is that of an acquisition that stands. */
  ghost predicate HeldFrom(held: map<Resource, LockInfo>, calls: seq<Call>) {
    forall r :: r in held ==> exists i: nat :: Holding(calls, i) && held[r] == Info(calls[i]) && calls[i].step.resource == r
  }

  lemma MatchedFrom(held: map<Resource, LockInfo>, calls: seq<Call>, left: map<Resource, LockInfo>)
    requires HoldsMatch(held, calls) && forall r :: r in left ==> r in held && left[r] == held[r]
    ensures HeldFrom(left, calls)
  {
    hide HoldStands;
  }

  // ----- the victim ------------------------------------------------------------------------------------------------

  /** The acquisitions of a client that stand and are in time. */
  ghost predicate Standing(calls: seq<Call>, i: nat, t: Instant) {
    Holding(calls, i) && InTime(calls[i], t)
  }

  ghost function StandingOf(calls: seq<Call>, t: Instant, c: Client): set<Resource> {
    set i | 0 <= i < |calls| && Standing(calls, i, t) && calls[i].step.client == c :: calls[i].step.resource
  }

  /** What each strategy prefers, in terms of the calls. */
  ghost predicate Chosen(strategy: VictimStrategy, calls: seq<Call>, t: Instant, cycle: seq<Client>, victim: Client) {
    match strategy
    case Youngest =>
      exists i: nat :: Standing(calls, i, t) && calls[i].step.client == victim &&
        forall j: nat :: Standing(calls, j, t) && calls[j].step.client in cycle ==> calls[j].now <= calls[i].now
    case Oldest =>
      exists i: nat :: Standing(calls, i, t) && calls[i].step.client == victim &&
        forall j: nat :: Standing(calls, j, t) && calls[j].step.client in cycle ==> calls[i].now <= calls[j].now
    case FewestLocks =>
      forall c :: c in cycle && StandingOf(calls, t, c) != {} ==> |StandingOf(calls, t, victim)| <= |StandingOf(calls, t, c)|
  }

  /** The records of the holds left are those of the standing acquisitions. */
  ghost predicate Left(held: map<Resource, LockInfo>, calls: seq<Call>, t: Instant) {
    && (forall r :: r in held ==> exists i: nat :: Standing(calls, i, t) && held[r] == Info(calls[i]) && calls[i].step.resource == r)
    && (forall i: nat :: Standing(calls, i, t) ==> calls[i].step.resource in held && held[calls[i].step.resource] == Info(calls[i]))
  }

  lemma HoldsOnce(calls: seq<Call>, i: nat, j: nat)
    requires Holding(calls, i) && Holding(calls, j) && calls[i].step.resource == calls[j].step.resource
    ensures i == j
  {
  }

  lemma LeftHolds(held: map<Resource, LockInfo>, calls: seq<Call>, t: Instant)
    requires HeldFrom(held, calls) && forall r, c :: (r in held && held[r].client == c) <==> HeldInTime(calls, r, c, t)
    ensures Left(held, calls, t)
  {
    hide HoldStands, InTime;
    forall r | r in held ensures exists i: nat :: Standing(calls, i, t) && held[r] == Info(calls[i]) && calls[i].step.resource == r {
      var i: nat :| Holding(calls, i) && held[r] == Info(calls[i]) && calls[i].step.resource == r;
      assert HeldInTime(calls, r, held[r].client, t);
      var j: nat :| Holding(calls, j) && calls[j].step == Acquire(r, held[r].client) && InTime(calls[j], t);
      HoldsOnce(calls, i, j);
      assert Standing(calls, i, t);
    }
    forall i: nat | Standing(calls, i, t) ensures calls[i].step.resource in held && held[calls[i].step.resource] == Info(calls[i]) {
      var r, c := calls[i].step.resource, calls[i].step.client;
      assert HeldInTime(calls, r, c, t);
      assert r in held;
      var j: nat :| Holding(calls, j) && held[r] == Info(calls[j]) && calls[j].step.resource == r;
      HoldsOnce(calls, i, j);
    }
  }

  lemma LocksAre(held: map<Resource, LockInfo>, calls: seq<Call>, t: Instant, c: Client)
    requires Left(held, calls, t)
    ensures LocksOf(held, c) == StandingOf(calls, t, c)
  {
    hide HoldStands, InTime;
    forall r | r in LocksOf(held, c) ensures r in StandingOf(calls, t, c) {
      var i: nat :| Standing(calls, i, t) && held[r] == Info(calls[i]) && calls[i].step.resource == r;
    }
    forall r | r in StandingOf(calls, t, c) ensures r in LocksOf(held, c) {
      var i: nat :| 0 <= i < |calls| && Standing(calls, i, t) && calls[i].step.client == c && calls[i].step.resource == r;
    }
  }

  lemma LatestIs(held: map<Resource, LockInfo>, calls: seq<Call>, t: Instant, c: Client, s: Instant) returns (i: nat)
    requires Left(held, calls, t) && (IsLatest(held, c, s) || IsEarliest(held, c, s))
    ensures Standing(calls, i, t) && calls[i].step.client == c && calls[i].now == s
  {
    hide HoldStands, InTime;
    var r :| r in LocksOf(held, c) && held[r].timestamp == s;
    i :| Standing(calls, i, t) && held[r] == Info(calls[i]) && calls[i].step.resource == r;
  }

  lemma ChosenYoungest(held: map<Resource, LockInfo>, calls: seq<Call>, t: Instant, cycle: seq<Client>, victim: Client)
    requires Left(held, calls, t) && victim in cycle && LocksOf(held, victim) != {}
    requires forall c :: c in cycle && LocksOf(held, c) != {} ==> Preferred(Youngest, held, victim, c)
    ensures Chosen(Youngest, calls, t, cycle, victim)
  {
    hide HoldStands, InTime;
    assert Preferred(Youngest, held, victim, victim);
    var s :| IsLatest(held, victim, s);
    var i := LatestIs(held, calls, t, victim, s);
    forall j: nat | Standing(calls, j, t) && calls[j].step.client in cycle ensures calls[j].now <= calls[i].now {
      var c := calls[j].step.client;
      assert calls[j].step.resource in LocksOf(held, c);
      assert Preferred(Youngest, held, victim, c);
      var s', u :| IsLatest(held, victim, s') && IsLatest(held, c, u) && s' >= u;
    }
  }

  lemma ChosenOldest(held: map<Resource, LockInfo>, calls: seq<Call>, t: Instant, cycle: seq<Client>, victim: Client)
    requires Left(held, calls, t) && victim in cycle && LocksOf(held, victim) != {}
    requires forall c :: c in cycle && LocksOf(held, c) != {} ==> Preferred(Oldest, held, victim, c)
    ensures Chosen(Oldest, calls, t, cycle, victim)
  {
    hide HoldStands, InTime;
    assert Preferred(Oldest, held, victim, victim);
    var s :| IsEarliest(held, victim, s);
    var i := LatestIs(held, calls, t, victim, s);
    forall j: nat | Standing(calls, j, t) && calls[j].step.client in cycle ensures calls[i].now <= calls[j].now {
      var c := calls[j].step.client;
      assert calls[j].step.resource in LocksOf(held, c);
      assert Preferred(Oldest, held, victim, c);
      var s', u :| IsEarliest(held, victim, s') && IsEarliest(held, c, u) && s' <= u;
    }
  }

  lemma ChosenFewest(held: map<Resource, LockInfo>, calls: seq<Call>, t: Instant, cycle: seq<Client>, victim: Client)
    requires Left(held, calls, t)
    requires forall c :: c in cycle && LocksOf(held, c) != {} ==> Preferred(FewestLocks, held, victim, c)
    ensures Chosen(FewestLocks, calls, t, cycle, victim)
  {
    hide Left, StandingOf;
    LocksAre(held, calls, t, victim);
    forall c | c in cycle && StandingOf(calls, t, c) != {} ensures |StandingOf(calls, t, victim)| <= |StandingOf(calls, t, c)| {
      LocksAre(held, calls, t, c);
      assert Preferred(FewestLocks, held, victim, c);
    }
  }

  /** Any run of calls, then detection and the choice of a victim: every deadlock has one, on the reported
      list and with a hold in time. Under Youngest it made the last acquisition among the holds in time of
      those on the list, under Oldest the first, and under FewestLocks it holds no more than any of them. */
  method ResolveAfter(calls: seq<Call>, t: Instant, maxWait: nat, strategy: VictimStrategy)
    returns (status: DeadlockStatus, victim: Option<Client>)
    ensures status.Deadlock? ==>
      && victim.Some? && victim.value in status.cycle && StandingOf(calls, t, victim.value) != {}
      && Chosen(strategy, calls, t, status.cycle, victim.value)
  {
    hide Left, HeldFrom, HeldInTime, StandingOf, Chosen, Circle, AllInTime, EdgesOf, WaitsOf;
    victim := None;
    var d;
    d, status := DetectAfter(calls, t, maxWait, true, strategy);
    if status.Deadlock? {
      LeftHolds(d.held, calls, t);
      LassoHolder(d.held, d.waiting, d.graph, status.cycle, status.resources);
      victim := d.ResolveDeadlock(status.cycle);
      LocksAre(d.held, calls, t, victim.value);
      match strategy
      case Youngest => ChosenYoungest(d.held, calls, t, status.cycle, victim.value);
      case Oldest => ChosenOldest(d.held, calls, t, status.cycle, victim.value);
      case FewestLocks => ChosenFewest(d.held, calls, t, status.cycle, victim.value);
    }
  }
}
