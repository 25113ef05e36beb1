/** `DeadlockDetector` of src/deadlock.rs: the lock maps and the incrementally kept edge list. */
module DeadlockDetectors {
  import opened Basics
  import opened WaitForGraph
  import opened Lassos
  import opened LockRecords
  import opened CycleSearch
  import opened SnapshotMerge
  import opened DeadlockSnapshots

  datatype VictimStrategy = Youngest | Oldest | FewestLocks

  // ----- how list and map updates look at the level of sets ---------------------------------

  lemma EdgesOfRetain(graph: seq<WaitEdge>, keep: WaitEdge -> bool, p: Edge -> bool)
    requires forall e :: keep(e) == p(EdgeOf(e))
    ensures EdgesOf(Retain(graph, keep)) == set e | e in EdgesOf(graph) && p(e)
  {
  }

  /** Waiting lists under a per-client filter; clients left with nothing are dropped. */
  function RetainWaits(waiting: map<Client, seq<LockInfo>>, keep: LockInfo -> bool): map<Client, seq<LockInfo>> {
    map w | w in waiting && Retain(waiting[w], keep) != [] :: Retain(waiting[w], keep)
  }

  lemma RetainedWaits(waiting: map<Client, seq<LockInfo>>, keep: LockInfo -> bool)
    ensures forall c, info :: Waits(RetainWaits(waiting, keep), c, info) <==> Waits(waiting, c, info) && keep(info)
  {
  }

  lemma WaitsOfRetain(waiting: map<Client, seq<LockInfo>>, keep: LockInfo -> bool, p: Resource -> bool)
    requires forall info :: keep(info) == p(info.resource)
    ensures WaitsOf(RetainWaits(waiting, keep)) == set w | w in WaitsOf(waiting) && p(w.resource)
  {
    var after := RetainWaits(waiting, keep);
    forall w | w in WaitsOf(waiting) && p(w.resource) ensures w in WaitsOf(after) {
      var info :| info in waiting[w.waiter] && info.resource == w.resource;
      assert info in Retain(waiting[w.waiter], keep);
      assert info in after[w.waiter];
    }
  }

  lemma WaitsOfDrop(waiting: map<Client, seq<LockInfo>>, c: Client)
    ensures WaitsOf(waiting - {c}) == set w | w in WaitsOf(waiting) && w.waiter != c
  {
    forall w | w in WaitsOf(waiting) && w.waiter != c ensures w in WaitsOf(waiting - {c}) {
      var info :| info in waiting[w.waiter] && info.resource == w.resource;
      assert info in (waiting - {c})[w.waiter];
    }
  }

  /** The acquirer's own waits for the resource go; an empty list goes with its client. */
  function DropWait(waiting: map<Client, seq<LockInfo>>, c: Client, r: Resource): map<Client, seq<LockInfo>> {
    if c !in waiting then waiting
    else
      var rest := Retain(waiting[c], (info: LockInfo) => info.resource != r);
      if rest == [] then waiting - {c} else waiting[c := rest]
  }

  lemma WaitsOfDropWait(waiting: map<Client, seq<LockInfo>>, c: Client, r: Resource)
    ensures WaitsOf(DropWait(waiting, c, r)) == WaitsOf(waiting) - {Wait(c, r)}
  {
    var after := DropWait(waiting, c, r);
    forall w | w in WaitsOf(waiting) && w != Wait(c, r) ensures w in WaitsOf(after) {
      var info :| info in waiting[w.waiter] && info.resource == w.resource;
      assert info in after[w.waiter];
    }
  }

  lemma DroppedWaits(waiting: map<Client, seq<LockInfo>>, c: Client, r: Resource)
    ensures forall d, info :: Waits(DropWait(waiting, c, r), d, info) <==> Waits(waiting, d, info) && !(d == c && info.resource == r)
  {
  }

  /** Every edge is as old as a wait of its waiter for its resource. */
  ghost predicate Stamped(graph: seq<WaitEdge>, waiting: map<Client, seq<LockInfo>>) {
    forall e :: e in graph ==> Stamp(e, waiting)
  }

  ghost predicate Stamp(e: WaitEdge, waiting: map<Client, seq<LockInfo>>) {
    exists info :: Waits(waiting, e.waiter, info) && info.resource == e.resource && info.timestamp == e.timestamp
  }

  /** The edges once `c` holds `r`, before waits without an edge are linked. */
  ghost function Redirected(edges: set<Edge>, r: Resource, c: Client): set<Edge> {
    (set e | e in edges && e.resource != r)
    + (set e | e in edges && e.resource == r && e.waiter != c :: Edge(e.waiter, r, c))
  }

  /** The edge-rewriting loop of record_lock_acquired. */
  method Redirect(graph0: seq<WaitEdge>, r: Resource, c: Client) returns (graph: seq<WaitEdge>, seen: set<Edge>)
    ensures EdgesOf(graph) == seen == Redirected(EdgesOf(graph0), r, c)
    ensures forall e :: e in graph ==> Rewritten(e, graph0, r, c)
  {
    hide Rewritten;
    graph, seen := [], {};
    for i := 0 to |graph0|
      invariant EdgesOf(graph) == seen == Redirected(EdgesOf(graph0[..i]), r, c)
      invariant forall e :: e in graph ==> Rewritten(e, graph0, r, c)
    {
      var e := graph0[i];
      EdgesOfAppend(graph0[..i], e);
      assert graph0[..i + 1] == graph0[..i] + [e];
      RedirectedAdd(EdgesOf(graph0[..i]), EdgeOf(e), r, c);
      if e.resource == r {
        if e.waiter == c {
          continue;
        }
        e := e.(holder := c);
      }
      RewrittenOne(e, graph0, i, r, c);
      if EdgeOf(e) !in seen {
        EdgesOfAppend(graph, e);
        seen := seen + {EdgeOf(e)};
        graph := graph + [e];
      }
    }
    assert graph0[..|graph0|] == graph0;
  }

  /** An edge of the list, but for its holder, and none of the acquirer for the resource. */
  ghost predicate Rewritten(e: WaitEdge, graph0: seq<WaitEdge>, r: Resource, c: Client) {
    && !(e.resource == r && e.waiter == c)
    && exists e0 :: e0 in graph0 && e0.waiter == e.waiter && e0.resource == e.resource && e0.timestamp == e.timestamp
  }

  lemma RewrittenOne(e: WaitEdge, graph0: seq<WaitEdge>, i: nat, r: Resource, c: Client)
    requires i < |graph0| && graph0[i].waiter == e.waiter && graph0[i].resource == e.resource && graph0[i].timestamp == e.timestamp
    requires !(e.resource == r && e.waiter == c)
    ensures Rewritten(e, graph0, r, c)
  {
    assert graph0[i] in graph0;
  }

  lemma RedirectedAdd(edges: set<Edge>, e: Edge, r: Resource, c: Client)
    ensures Redirected(edges + {e}, r, c) == Redirected(edges, r, c)
      + if e.resource != r then {e} else if e.waiter != c then {Edge(e.waiter, r, c)} else {}
  {
    forall x | x in Redirected(edges, r, c) ensures x in Redirected(edges + {e}, r, c) {
      if x.resource == r {
        var f :| f in edges && f.resource == r && f.waiter != c && x == Edge(f.waiter, r, c);
        assert f in edges + {e};
      }
    }
    if e.resource == r && e.waiter != c { assert e in edges + {e}; }
  }

  ghost function Relinked(waits: set<Wait>, r: Resource, c: Client): set<Edge> {
    set w | w in waits && w.resource == r && w.waiter != c :: Edge(w.waiter, r, c)
  }

  /** The re-linking loops of record_lock_acquired; the map is walked in no particular order. */
  method Relink(waiting: map<Client, seq<LockInfo>>, graph0: seq<WaitEdge>, seen0: set<Edge>, r: Resource, c: Client)
    returns (graph: seq<WaitEdge>, seen: set<Edge>)
    requires EdgesOf(graph0) == seen0
    ensures EdgesOf(graph) == seen == seen0 + Relinked(WaitsOf(waiting), r, c)
    ensures forall e :: e in graph ==> e in graph0 || Stamp(e, waiting)
  {
    hide Stamp;
    graph, seen := graph0, seen0;
    var rest := waiting.Keys;
    ghost var walked: set<Wait> := {};
    while rest != {}
      invariant rest <= waiting.Keys
      invariant walked == set w | w in WaitsOf(waiting) && w.waiter !in rest
      invariant EdgesOf(graph) == seen == seen0 + Relinked(walked, r, c)
      invariant forall e :: e in graph ==> e in graph0 || Stamp(e, waiting)
      decreases rest
    {
      var w :| w in rest;
      rest := rest - {w};
      ghost var before := walked;
      for k := 0 to |waiting[w]|
        invariant walked == before + set info | info in waiting[w][..k] :: Wait(w, info.resource)
        invariant EdgesOf(graph) == seen == seen0 + Relinked(walked, r, c)
        invariant forall e :: e in graph ==> e in graph0 || Stamp(e, waiting)
      {
        var info := waiting[w][k];
        assert waiting[w][..k + 1] == waiting[w][..k] + [info];
        RelinkedAdd(walked, Wait(w, info.resource), r, c);
        walked := walked + {Wait(w, info.resource)};
        if w != c && info.resource == r && Edge(w, r, c) !in seen {
          var e := WaitEdge(w, c, r, info.timestamp);
          StampOne(e, waiting, k);
          EdgesOfAppend(graph, e);
          seen := seen + {Edge(w, r, c)};
          graph := graph + [e];
        }
      }
      assert waiting[w][..|waiting[w]|] == waiting[w];
    }
    assert walked == WaitsOf(waiting);
  }

  lemma StampOne(e: WaitEdge, waiting: map<Client, seq<LockInfo>>, k: nat)
    requires e.waiter in waiting && k < |waiting[e.waiter]|
    requires waiting[e.waiter][k].resource == e.resource && waiting[e.waiter][k].timestamp == e.timestamp
    ensures Stamp(e, waiting)
  {
    assert Waits(waiting, e.waiter, waiting[e.waiter][k]);
  }

  /** Edges that the acquisition left are as old as waits that it left. */
  lemma AcquiredStamped(graph0: seq<WaitEdge>, waiting0: map<Client, seq<LockInfo>>, graph1: seq<WaitEdge>, graph: seq<WaitEdge>,
                        r: Resource, c: Client)
    requires Stamped(graph0, waiting0) && forall e :: e in graph1 ==> Rewritten(e, graph0, r, c)
    requires forall e :: e in graph ==> e in graph1 || Stamp(e, DropWait(waiting0, c, r))
    ensures Stamped(graph, DropWait(waiting0, c, r))
  {
    hide DropWait;
    DroppedWaits(waiting0, c, r);
    forall e | e in graph && e in graph1 ensures Stamp(e, DropWait(waiting0, c, r)) {
      var e0 :| e0 in graph0 && e0.waiter == e.waiter && e0.resource == e.resource && e0.timestamp == e.timestamp;
      assert Stamp(e0, waiting0);
    }
  }

  lemma RelinkedAdd(waits: set<Wait>, w: Wait, r: Resource, c: Client)
    ensures Relinked(waits + {w}, r, c)
         == Relinked(waits, r, c) + if w.resource == r && w.waiter != c then {Edge(w.waiter, r, c)} else {}
  {
    forall x | x in Relinked(waits, r, c) ensures x in Relinked(waits + {w}, r, c) {
      var y :| y in waits && y.resource == r && y.waiter != c && x == Edge(y.waiter, r, c);
      assert y in waits + {w};
    }
    if w.resource == r && w.waiter != c { assert w in waits + {w}; }
  }

  ghost function LocksOf(held: map<Resource, LockInfo>, c: Client): set<Resource> {
    set r | r in held && held[r].client == c
  }

  ghost predicate IsEarliest(held: map<Resource, LockInfo>, c: Client, t: Instant) {
    && (exists r :: r in LocksOf(held, c) && held[r].timestamp == t)
    && forall r :: r in LocksOf(held, c) ==> t <= held[r].timestamp
  }

  ghost predicate IsLatest(held: map<Resource, LockInfo>, c: Client, t: Instant) {
    && (exists r :: r in LocksOf(held, c) && held[r].timestamp == t)
    && forall r :: r in LocksOf(held, c) ==> held[r].timestamp <= t
  }

  /** The first and the last of some holds' times. */
  ghost predicate Spans(held: map<Resource, LockInfo>, mine: set<Resource>, earliest: Instant, latest: Instant) {
    && mine <= held.Keys
    && (exists r :: r in mine && held[r].timestamp == earliest)
    && (exists r :: r in mine && held[r].timestamp == latest)
    && forall r :: r in mine ==> earliest <= held[r].timestamp <= latest
  }

  lemma SpansAdd(held: map<Resource, LockInfo>, mine: set<Resource>, earliest: Instant, latest: Instant, r: Resource)
    requires r in held && (mine == {} || Spans(held, mine, earliest, latest))
    ensures
      var t := held[r].timestamp;
      Spans(held, mine + {r}, if mine == {} || t < earliest then t else earliest, if mine == {} || t > latest then t else latest)
  {
    assert r in mine + {r};
    if mine != {} {
      var a :| a in mine && held[a].timestamp == earliest;
      var b :| b in mine && held[b].timestamp == latest;
      assert a in mine + {r} && b in mine + {r};
    }
  }

  /** The candidate loop's pass over the held locks, in no particular order. */
  method Tally(held: map<Resource, LockInfo>, c: Client) returns (count: nat, earliest: Instant, latest: Instant)
    ensures count == |LocksOf(held, c)|
    ensures count > 0 ==> IsEarliest(held, c, earliest) && IsLatest(held, c, latest)
  {
    hide Spans, LocksOf, LocksBesides, IsEarliest, IsLatest;
    count, earliest, latest := 0, 0, 0;
    var rest := held.Keys;
    ghost var mine: set<Resource> := {};
    NoLocksBesides(held, c);
    while rest != {}
      invariant rest <= held.Keys && mine == LocksBesides(held, c, rest) && count == |mine|
      invariant mine == {} || Spans(held, mine, earliest, latest)
      decreases rest
    {
      var r :| r in rest;
      LocksStep(held, c, rest, r);
      rest := rest - {r};
      if held[r].client == c {
        var t := held[r].timestamp;
        SpansAdd(held, mine, earliest, latest, r);
        if count == 0 || t < earliest { earliest := t; }
        if count == 0 || t > latest { latest := t; }
        count := count + 1;
        mine := mine + {r};
      }
    }
    SpansAll(held, c, earliest, latest);
  }

  lemma NoLocksBesides(held: map<Resource, LockInfo>, c: Client)
    ensures LocksBesides(held, c, held.Keys) == {} && LocksBesides(held, c, {}) == LocksOf(held, c)
  {
  }

  ghost function LocksBesides(held: map<Resource, LockInfo>, c: Client, rest: set<Resource>): set<Resource> {
    LocksOf(held, c) - rest
  }

  lemma LocksStep(held: map<Resource, LockInfo>, c: Client, rest: set<Resource>, r: Resource)
    requires r in rest && rest <= held.Keys
    ensures r !in LocksBesides(held, c, rest) && LocksBesides(held, c, rest - {r}) ==
      if held[r].client == c then LocksBesides(held, c, rest) + {r} else LocksBesides(held, c, rest)
  {
  }

  lemma SpansAll(held: map<Resource, LockInfo>, c: Client, earliest: Instant, latest: Instant)
    requires LocksOf(held, c) == {} || Spans(held, LocksOf(held, c), earliest, latest)
    ensures |LocksOf(held, c)| > 0 ==> IsEarliest(held, c, earliest) && IsLatest(held, c, latest)
  {
  }

  datatype Candidate = Candidate(client: Client, count: nat, earliest: Instant, latest: Instant)

  ghost predicate Tallied(held: map<Resource, LockInfo>, a: Candidate) {
    && a.count == |LocksOf(held, a.client)| > 0
    && IsEarliest(held, a.client, a.earliest) && IsLatest(held, a.client, a.latest)
  }

  /** How a strategy compares two candidates. */
  predicate Better(strategy: VictimStrategy, a: Candidate, b: Candidate) {
    match strategy
    case Youngest => a.latest >= b.latest
    case Oldest => a.earliest <= b.earliest
    case FewestLocks => a.count < b.count || (a.count == b.count && a.latest >= b.latest)
  }

  /** The strategy prefers releasing `a` over releasing `b`, read off the held locks. */
  ghost predicate Preferred(strategy: VictimStrategy, held: map<Resource, LockInfo>, a: Client, b: Client) {
    match strategy
    case Youngest => exists s, t :: IsLatest(held, a, s) && IsLatest(held, b, t) && s >= t
    case Oldest => exists s, t :: IsEarliest(held, a, s) && IsEarliest(held, b, t) && s <= t
    case FewestLocks =>
      || |LocksOf(held, a)| < |LocksOf(held, b)|
      || (|LocksOf(held, a)| == |LocksOf(held, b)| && exists s, t :: IsLatest(held, a, s) && IsLatest(held, b, t) && s >= t)
  }

  lemma TalliedPrefers(strategy: VictimStrategy, held: map<Resource, LockInfo>, a: Candidate, b: Candidate)
    requires Tallied(held, a) && Tallied(held, b) && Better(strategy, a, b)
    ensures Preferred(strategy, held, a.client, b.client)
  {
  }

  /** `max_by_key` keeps the last of equals, `min_by_key` and `min_by` the first. */
  method PickVictim(strategy: VictimStrategy, candidates: seq<Candidate>) returns (best: nat)
    requires candidates != []
    ensures best < |candidates|
    ensures forall k :: 0 <= k < |candidates| ==> Better(strategy, candidates[best], candidates[k])
    ensures forall k :: (if strategy.Youngest? then best < k < |candidates| else 0 <= k < best) ==>
      !Better(strategy, candidates[k], candidates[best])
  {
    best := 0;
    for i := 1 to |candidates|
      invariant best < i
      invariant forall k :: 0 <= k < i ==> Better(strategy, candidates[best], candidates[k])
      invariant forall k :: (if strategy.Youngest? then best < k < i else 0 <= k < best) ==>
        !Better(strategy, candidates[k], candidates[best])
    {
      if strategy.Youngest? {
        if Better(strategy, candidates[i], candidates[best]) { best := i; }
      } else {
        if !Better(strategy, candidates[best], candidates[i]) { best := i; }
      }
    }
  }

  /** Where every edge names the real holder, a reported lasso names a client with a lock. */
  lemma LassoHolder(held: map<Resource, LockInfo>, waiting: map<Client, seq<LockInfo>>, graph: seq<WaitEdge>,
                    cycle: seq<Client>, resources: seq<Resource>)
    requires Sound(ViewOf(held, waiting, graph)) && Lasso(EdgesOf(graph), cycle, resources)
    ensures exists c :: c in cycle && LocksOf(held, c) != {}
  {
    var back: nat :| IsLasso(EdgesOf(graph), cycle, resources, back);
    var whole := cycle + [cycle[back]];
    var n := |resources| - 1;
    assert Edge(whole[n], resources[n], whole[n + 1]) in EdgesOf(graph);
    assert resources[n] in LocksOf(held, cycle[back]);
    assert cycle[back] in cycle;
  }

  lemma SubMap(a: map<Resource, LockInfo>, b: map<Resource, LockInfo>)
    requires a.Keys <= b.Keys
    ensures |a| <= |b|
  {
    assert |a.Keys| + |b.Keys - a.Keys| == |b.Keys|;
  }

  lemma StrictSubMap(a: map<Resource, LockInfo>, b: map<Resource, LockInfo>, c: Client)
    requires LocksOf(b, c) != {} && a.Keys == b.Keys - LocksOf(b, c)
    ensures |a| < |b|
  {
    var r :| r in LocksOf(b, c);
    assert |a.Keys| + |b.Keys - a.Keys| == |b.Keys|;
    assert r in b.Keys - a.Keys;
  }

  /** The edges and waits that a forced release leaves. */
  function KeptEdges(graph: seq<WaitEdge>, c: Client, released: set<Resource>): seq<WaitEdge> {
    Retain(graph, (e: WaitEdge) => e.waiter != c && e.holder != c && e.resource !in released)
  }

  function KeptWaits(waiting: map<Client, seq<LockInfo>>, c: Client, released: set<Resource>): map<Client, seq<LockInfo>> {
    RetainWaits(waiting - {c}, (info: LockInfo) => info.resource !in released)
  }

  lemma ForceReleasedEdges(v: View, graph: seq<WaitEdge>, c: Client, released: set<Resource>)
    requires v.edges == EdgesOf(graph) && forall r :: r in released <==> Holds(v, c, r)
    ensures EdgesOf(KeptEdges(graph, c, released)) == ForceReleased(v, c).edges
    ensures forall e :: e in KeptEdges(graph, c, released) ==> e in graph && e.waiter != c && e.resource !in released
  {
    EdgesOfRetain(graph, (e: WaitEdge) => e.waiter != c && e.holder != c && e.resource !in released,
                  (e: Edge) => e.waiter != c && e.holder != c && e.resource !in released);
  }

  lemma ForceReleasedWaits(v: View, waiting: map<Client, seq<LockInfo>>, c: Client, released: set<Resource>)
    requires v.waits == WaitsOf(waiting) && forall r :: r in released <==> Holds(v, c, r)
    ensures WaitsOf(KeptWaits(waiting, c, released)) == ForceReleased(v, c).waits
    ensures forall d, info :: Waits(KeptWaits(waiting, c, released), d, info) <==>
      Waits(waiting, d, info) && d != c && info.resource !in released
  {
    var keep := (info: LockInfo) => info.resource !in released;
    WaitsOfDrop(waiting, c);
    WaitsOfRetain(waiting - {c}, keep, (r: Resource) => r !in released);
    RetainedWaits(waiting - {c}, keep);
  }

  class Detector {
    var held: map<Resource, LockInfo>
    var waiting: map<Client, seq<LockInfo>>
    var graph: seq<WaitEdge>
    const maxWait: nat
    const autoResolve: bool
    const strategy: VictimStrategy

    constructor (maxWait: nat, autoResolve: bool, strategy: VictimStrategy)
      ensures Abs() == EMPTY && held == map[] && waiting == map[] && graph == []
      ensures this.maxWait == maxWait && this.autoResolve == autoResolve && this.strategy == strategy
    {
      held, waiting, graph := map[], map[], [];
      this.maxWait, this.autoResolve, this.strategy := maxWait, autoResolve, strategy;
    }

    ghost function Abs(): View
      reads this
    {
      ViewOf(held, waiting, graph)
    }

    method RecordLockReleased(r: Resource, c: Client)
      modifies this
      ensures Abs() == Next(old(Abs()), Release(r, c)) && (Keyed(old(held)) ==> Keyed(held))
      ensures held == if r in old(held) && old(held)[r].client == c then old(held) - {r} else old(held)
      ensures waiting == old(waiting) && forall e :: e in graph ==> e in old(graph)
    {
      if r in held && held[r].client == c {
        var keep := (e: WaitEdge) => !(e.resource == r && e.holder == c);
        EdgesOfRetain(graph, keep, (e: Edge) => !(e.resource == r && e.holder == c));
        held := held - {r};
        graph := Retain(graph, keep);
      }
    }

    method RecordLockWait(r: Resource, c: Client, ttl: nat, now: Instant)
      modifies this
      ensures Abs() == Next(old(Abs()), StartWait(r, c)) && (Keyed(old(held)) ==> Keyed(held))
      ensures held == old(held)
      ensures forall d, info :: Waits(waiting, d, info) <==>
        Waits(old(waiting), d, info) || (d == c && info == LockInfo(r, c, now, ttl))
      ensures Stamped(old(graph), old(waiting)) ==> Stamped(graph, waiting)
    {
      var info := LockInfo(r, c, now, ttl);
      var known := if c in waiting then waiting[c] else [];
      WaitsOfPush(waiting, c, info);
      waiting := waiting[c := known + [info]];
      assert waiting[c][|known|] == info;
      assert forall d, i :: Waits(old(waiting), d, i) ==> Waits(waiting, d, i);
      if r in held {
        var e := WaitEdge(c, held[r].client, r, now);
        StampOne(e, waiting, |known|);
        EdgesOfAppend(graph, e);
        graph := graph + [e];
      }
    }

    method RemoveFromWaiting(c: Client)
      modifies this
      ensures Abs() == Next(old(Abs()), GiveUp(c)) && (Keyed(old(held)) ==> Keyed(held))
      ensures held == old(held)
      ensures forall d, info :: Waits(waiting, d, info) <==> Waits(old(waiting), d, info) && d != c
      ensures forall e :: e in graph ==> e in old(graph) && e.waiter != c
    {
      WaitsOfDrop(waiting, c);
      var keep := (e: WaitEdge) => e.waiter != c;
      EdgesOfRetain(graph, keep, (e: Edge) => e.waiter != c);
      waiting := waiting - {c};
      graph := Retain(graph, keep);
    }

    /** record_lock_acquired. */
    method RecordLockAcquired(r: Resource, c: Client, ttl: nat, now: Instant)
      modifies this
      ensures Abs() == Next(old(Abs()), Acquire(r, c)) && (Keyed(old(held)) ==> Keyed(held))
      ensures held == old(held)[r := LockInfo(r, c, now, ttl)]
      ensures forall d, info :: Waits(waiting, d, info) <==> Waits(old(waiting), d, info) && !(d == c && info.resource == r)
      ensures Stamped(old(graph), old(waiting)) ==> Stamped(graph, waiting)
    {
      hide Stamp, Rewritten, Waits, DropWait;
      held := held[r := LockInfo(r, c, now, ttl)];
      WaitsOfDropWait(waiting, c, r);
      DroppedWaits(waiting, c, r);
      waiting := DropWait(waiting, c, r);
      var rewritten, seen := Redirect(graph, r, c);
      graph, seen := Relink(waiting, rewritten, seen, r, c);
      if Stamped(old(graph), old(waiting)) { AcquiredStamped(old(graph), old(waiting), rewritten, graph, r, c); }
    }

    /** release_client_locks. Returns the names released. */
    method ReleaseClientLocks(c: Client) returns (released: set<Resource>)
      modifies this
      ensures Abs() == Next(old(Abs()), ForceRelease(c)) && (Keyed(old(held)) ==> Keyed(held))
      ensures released == set r | r in old(held) && old(held)[r].client == c
      ensures held == map r | r in old(held) && old(held)[r].client != c :: old(held)[r]
      ensures forall d, info :: Waits(waiting, d, info) <==>
        Waits(old(waiting), d, info) && d != c && info.resource !in released
      ensures forall e :: e in graph ==> e in old(graph) && e.waiter != c && e.resource !in released
    {
      hide EdgesOf, WaitsOf, KeptEdges, KeptWaits, Waits;
      released := set r | r in held && held[r].client == c;
      ForceReleasedEdges(Abs(), graph, c, released);
      ForceReleasedWaits(Abs(), waiting, c, released);
      held := map r | r in held && held[r].client != c :: held[r];
      graph := KeptEdges(graph, c, released);
      waiting := KeptWaits(waiting, c, released);
    }

    /** cleanup_expired_into: expired holds go with every edge and wait on them; edges also go
        after the maximum wait, waits after their own TTL. */
    method CleanupExpired(now: Instant)
      modifies this
      ensures held == map r | r in old(held) && !Expired(old(held)[r], now) :: old(held)[r]
      ensures forall e :: e in graph <==>
        && e in old(graph) && !(e.resource in old(held) && Expired(old(held)[e.resource], now))
        && Elapsed(e.timestamp, now) < maxWait * NANOS_PER_MS
      ensures forall c, info :: Waits(waiting, c, info) <==>
        && Waits(old(waiting), c, info) && !Expired(info, now)
        && !(info.resource in old(held) && Expired(old(held)[info.resource], now))
      ensures Abs().waits <= old(Abs()).waits
      ensures Sound(old(Abs())) ==> Sound(Abs())
      ensures Keyed(old(held)) ==> Keyed(held)
    {
      var expired := set r | r in held && Expired(held[r], now);
      held := map r | r in held && !Expired(held[r], now) :: held[r];
      graph := Retain(graph, (e: WaitEdge) =>
        e.resource !in expired && Elapsed(e.timestamp, now) < maxWait * NANOS_PER_MS);
      var keep := (info: LockInfo) => !Expired(info, now) && info.resource !in expired;
      RetainedWaits(waiting, keep);
      waiting := RetainWaits(waiting, keep);
    }

    /** detect_deadlock: clean up, then search what is left. */
    method DetectDeadlock(now: Instant) returns (status: DeadlockStatus)
      modifies this
      ensures status.Deadlock? <==> HasCycle(Abs().edges)
      ensures status.Deadlock? ==> Lasso(Abs().edges, status.cycle, status.resources)
      ensures Sound(old(Abs())) ==> Sound(Abs())
      ensures held == map r | r in old(held) && !Expired(old(held)[r], now) :: old(held)[r]
      ensures forall e :: e in graph <==>
        && e in old(graph) && !(e.resource in old(held) && Expired(old(held)[e.resource], now))
        && Elapsed(e.timestamp, now) < maxWait * NANOS_PER_MS
      ensures forall c, info :: Waits(waiting, c, info) <==>
        && Waits(old(waiting), c, info) && !Expired(info, now)
        && !(info.resource in old(held) && Expired(old(held)[info.resource], now))
      ensures Keyed(old(held)) ==> Keyed(held)
    {
      CleanupExpired(now);
      status := DetectFromGraph(graph);
    }

    /** resolve_deadlock: a client of the list that holds a lock and that the strategy prefers
        over every other one; nobody exactly when there is no such client or nothing may be
        resolved. */
    method ResolveDeadlock(cycle: seq<Client>) returns (victim: Option<Client>)
      ensures victim.None? <==> !autoResolve || forall c :: c in cycle ==> LocksOf(held, c) == {}
      ensures victim.Some? ==> victim.value in cycle && LocksOf(held, victim.value) != {}
      ensures victim.Some? ==> forall c :: c in cycle && LocksOf(held, c) != {} ==> Preferred(strategy, held, victim.value, c)
    {
      if cycle == [] || !autoResolve {
        return None;
      }
      var candidates: seq<Candidate> := [];
      for i := 0 to |cycle|
        invariant forall k :: 0 <= k < |candidates| ==> candidates[k].client in cycle && Tallied(held, candidates[k])
        invariant forall c :: c in cycle[..i] && LocksOf(held, c) != {} ==>
          exists k :: 0 <= k < |candidates| && candidates[k].client == c
      {
        ghost var before := candidates;
        var count, earliest, latest := Tally(held, cycle[i]);
        if count > 0 {
          candidates := candidates + [Candidate(cycle[i], count, earliest, latest)];
        }
        forall c | c in cycle[..i + 1] && LocksOf(held, c) != {}
          ensures exists k :: 0 <= k < |candidates| && candidates[k].client == c
        {
          if c in cycle[..i] {
            var k :| 0 <= k < |before| && before[k].client == c;
            assert candidates[k].client == c;
          } else {
            assert candidates[|candidates| - 1].client == c;
          }
        }
      }
      assert cycle[..|cycle|] == cycle;
      if candidates == [] {
        return None;
      }
      var best := PickVictim(strategy, candidates);
      forall c | c in cycle && LocksOf(held, c) != {} ensures Preferred(strategy, held, candidates[best].client, c) {
        var k :| 0 <= k < |candidates| && candidates[k].client == c;
        TalliedPrefers(strategy, held, candidates[best], candidates[k]);
      }
      return Some(candidates[best].client);
    }

    /** The monitor's loop with auto-resolve on: detect, pick a victim, release it, at whatever
        instants the clock shows. Every detected deadlock has a victim, and the graph is acyclic
        after at most as many rounds as locks were held. */
    method ResolveAll() returns (rounds: nat)
      requires autoResolve && Sound(Abs())
      modifies this
      ensures !HasCycle(Abs().edges) && Sound(Abs())
      ensures rounds + |held| <= |old(held)|
    {
      rounds := 0;
      while true
        invariant Sound(Abs()) && rounds + |held| <= |old(held)|
        decreases |held|
      {
        var now: Instant :| now >= 0;
        ghost var before := held;
        var status := DetectDeadlock(now);
        assert |held| <= |before| by { SubMap(held, before); }
        if status.NoDeadlock? {
          return;
        }
        LassoHolder(held, waiting, graph, status.cycle, status.resources);
        var victim := ResolveDeadlock(status.cycle);
        ghost var found := held;
        NextKeepsSound(Abs(), ForceRelease(victim.value));
        var released := ReleaseClientLocks(victim.value);
        StrictSubMap(held, found, victim.value);
        rounds := rounds + 1;
      }
    }

    /** collect_consistent_view without cleanup: the status of the graph as it stands. */
    method CurrentStatus() returns (status: DeadlockStatus)
      ensures status.Deadlock? <==> HasCycle(Abs().edges)
      ensures Indexed(Abs()) ==> (status.Deadlock? <==> CircularWait(Abs()))
    {
      status := DetectFromGraph(graph);
      if Indexed(Abs()) { IndexedCycles(Abs()); }
    }

    method Do(step: Step, ttl: nat, now: Instant)
      modifies this
      ensures Abs() == Next(old(Abs()), step) && (Keyed(old(held)) ==> Keyed(held))
    {
      match step
      case Acquire(r, c) => RecordLockAcquired(r, c, ttl, now);
      case Release(r, c) => RecordLockReleased(r, c);
      case StartWait(r, c) => RecordLockWait(r, c, ttl, now);
      case GiveUp(c) => RemoveFromWaiting(c);
      case ForceRelease(c) => var _ := ReleaseClientLocks(c);
    }

    /** Any run of local steps, then a look at the graph: Deadlock is reported exactly when the
        two plain maps have a circular wait. */
    method RunThenDetect(steps: seq<Step>, ttl: nat, clock: seq<Instant>) returns (status: DeadlockStatus)
      requires Indexed(Abs()) && |clock| == |steps|
      modifies this
      ensures Abs() == Run(old(Abs()), steps) && Indexed(Abs())
      ensures status.Deadlock? <==> CircularWait(Abs())
    {
      RunIsIndexed(Abs(), steps);
      for i := 0 to |steps|
        invariant Run(Abs(), steps[i..]) == Run(old(Abs()), steps)
      {
        assert steps[i..][1..] == steps[i + 1..];
        Do(steps[i], ttl, clock[i]);
      }
      status := CurrentStatus();
    }

    /** export_snapshot: everything this process knows, provided its holds have TTL left. */
    method ExportSnapshot(now: Instant) returns (s: Snapshot)
      requires Keyed(held)
      ensures RemoteOf(s).edges == Exported(Abs()).edges && RemoteOf(s).orphans == Exported(Abs()).orphans
      ensures (forall r :: r in held ==> Live(held[r], now)) ==> RemoteOf(s) == Exported(Abs())
      ensures forall h :: h in s.held ==> h.resource in held && HeldAs(h, held[h.resource], now)
      ensures forall e :: e in s.waits ==> WaitedAs(e, graph, now)
      ensures forall o :: o in s.orphans ==> OrphanedAs(o, waiting, now)
    {
      var holds := ExportHeld(held, now);
      var waits := ExportEdges(graph, now);
      var orphans := ExportOrphans(waiting, graph, now);
      s := Snapshot(holds, waits, orphans);
    }

    /** merge_snapshot. */
    method MergeSnapshot(s: Snapshot, now: Instant)
      modifies this
      ensures Abs() == Merged(old(Abs()), RemoteOf(s)) && (Keyed(old(held)) ==> Keyed(held))
      ensures forall r :: r in held ==>
        (r in old(held) && held[r] == old(held)[r]) || (r !in old(held) && Imported(held[r], r, s.held, now))
      ensures forall c, i :: Waits(old(waiting), c, i) ==> Waits(waiting, c, i)
      ensures forall c, i :: Waits(waiting, c, i) ==> Waits(old(waiting), c, i) || ToldWait(c, i, Told(s), now, maxWait)
      ensures forall x :: x in graph ==> Kept(x, old(graph)) || ToldEdge(x, Told(s), now) || OfWait(x, waiting)
    {
      hide Fixed, Join, EdgesOf, WaitsOf, LiveHolds, SnapshotEdges, SnapshotOrphans, UnheldOf, WaitsBehind, HoldersOf,
           Waits, Told, ToldWait, ToldEdge, OfWait, Kept, Imported;
      ToldBoth(s, now, maxWait);
      held := MergeHolds(held, s.held, now);
      graph := Reconcile(graph, held);
      graph, waiting := UnionEdges(graph, waiting, held, s.waits, now, maxWait);
      graph, waiting := LinkOrphans(graph, waiting, held, s.orphans, now, maxWait);
      graph := RelinkAll(graph, waiting, held);
    }
  }

  lemma ToldBoth(s: Snapshot, now: Instant, maxWait: nat)
    ensures forall x :: ToldEdge(x, EdgesTold(s.waits), now) || ToldEdge(x, OrphansTold(s.orphans), now) ==> ToldEdge(x, Told(s), now)
    ensures forall c, i :: ToldWait(c, i, EdgesTold(s.waits), now, maxWait) ==> ToldWait(c, i, Told(s), now, maxWait)
    ensures forall c, i :: ToldWait(c, i, OrphansTold(s.orphans), now, maxWait) ==> ToldWait(c, i, Told(s), now, maxWait)
  {
  }

  /** Two processes with local histories whose holds agree and are live: each exports, then each
      merges the other's snapshot. Both end with the same holders and edges, and both see a cycle
      exactly when a circular wait spans the two. */
  method ExchangeSnapshots(a: Detector, b: Detector, exportTime: Instant, mergeA: Instant, mergeB: Instant)
    requires a != b && Keyed(a.held) && Keyed(b.held)
    requires Indexed(a.Abs()) && Indexed(b.Abs()) && HoldsAgree(a.Abs(), b.Abs())
    requires forall r :: r in a.held ==> Live(a.held[r], exportTime)
    requires forall r :: r in b.held ==> Live(b.held[r], exportTime)
    modifies a, b
    ensures a.Abs().holder == b.Abs().holder && a.Abs().edges == b.Abs().edges
    ensures HasCycle(a.Abs().edges) <==>
      exists clients, resources :: SpanningWait(old(a.Abs()), old(b.Abs()), clients, resources)
    ensures forall r :: r in a.held && r in old(a.held) ==> a.held[r] == old(a.held)[r]
    ensures forall r :: r in a.held - old(a.held).Keys ==>
      r in old(b.held) && HandedOver(a.held[r], old(b.held)[r], exportTime, mergeA)
    ensures forall r :: r in b.held && r in old(b.held) ==> b.held[r] == old(b.held)[r]
    ensures forall r :: r in b.held - old(b.held).Keys ==>
      r in old(a.held) && HandedOver(b.held[r], old(a.held)[r], exportTime, mergeB)
    ensures forall c, i :: Waits(a.waiting, c, i) ==>
      Waits(old(a.waiting), c, i) || WaitOver(c, i, old(b.graph), old(b.waiting), exportTime, mergeA)
    ensures forall c, i :: Waits(b.waiting, c, i) ==>
      Waits(old(b.waiting), c, i) || WaitOver(c, i, old(a.graph), old(a.waiting), exportTime, mergeB)
  {
    hide Merged, Indexed, HoldsAgree, HandedOver, WaitOver, Imported, Told, ToldWait, Waits, WaitedAs, OrphanedAs, HeldAs,
         ToldEdge, Kept, OfWait;
    var fromA := a.ExportSnapshot(exportTime);
    var fromB := b.ExportSnapshot(exportTime);
    ghost var va, vb := a.Abs(), b.Abs();
    MutualMergeAgrees(va, vb);
    SpanningCycles(va, vb);
    a.MergeSnapshot(fromB, mergeA);
    b.MergeSnapshot(fromA, mergeB);
    HandOver(old(b.held), old(b.graph), old(b.waiting), fromB, exportTime, mergeA, a.maxWait);
    HandOver(old(a.held), old(a.graph), old(a.waiting), fromA, exportTime, mergeB, b.maxWait);
  }

  lemma HandOver(held: map<Resource, LockInfo>, graph: seq<WaitEdge>, waiting: map<Client, seq<LockInfo>>, s: Snapshot,
                 exported: Instant, merged: Instant, maxWait: nat)
    requires Keyed(held)
    requires forall h :: h in s.held ==> h.resource in held && HeldAs(h, held[h.resource], exported)
    requires forall e :: e in s.waits ==> WaitedAs(e, graph, exported)
    requires forall o :: o in s.orphans ==> OrphanedAs(o, waiting, exported)
    ensures forall info, r :: Imported(info, r, s.held, merged) ==> r in held && HandedOver(info, held[r], exported, merged)
    ensures forall c, i :: ToldWait(c, i, Told(s), merged, maxWait) ==> WaitOver(c, i, graph, waiting, exported, merged)
  {
    hide HandedOver, WaitOver, Imported, Told, ToldWait, Waits, WaitedAs, OrphanedAs, HeldAs;
    forall info, r | Imported(info, r, s.held, merged) ensures r in held && HandedOver(info, held[r], exported, merged) {
      HoldHandedOver(held, s.held, r, info, exported, merged);
    }
    forall c, i | ToldWait(c, i, Told(s), merged, maxWait) ensures WaitOver(c, i, graph, waiting, exported, merged) {
      WaitHandedOver(graph, waiting, s, c, i, exported, merged, maxWait);
    }
  }

  /** A list with a stem, as the search returns it after a run of the detector: "a" waits for a
      deadlock between "b" and "c" that it has no part in, and a search from "a" reports all three. */
  method StemIsReported(now: Instant, ttl: nat) returns (status: DeadlockStatus, ghost edges: set<Edge>)
    ensures status == Deadlock(["a", "b", "c"], ["x", "y", "z"])
    ensures IsLasso(edges, status.cycle, status.resources, 1) && !OnCycle(edges, "a")
  {
    hide Next, StemEdges, EdgesOf;
    StemRun();
    var d := new Detector(1000, true, Youngest);
    d.RecordLockAcquired("x", "b", ttl, now);
    d.RecordLockAcquired("y", "c", ttl, now);
    d.RecordLockAcquired("z", "b", ttl, now);
    d.RecordLockWait("x", "a", ttl, now);
    d.RecordLockWait("y", "b", ttl, now);
    d.RecordLockWait("z", "c", ttl, now);
    edges := d.Abs().edges;
    var adjacency := BuildAdjacency(d.graph);
    status := FindCycle("a", adjacency, edges);
    StemSearch(status);
  }

  ghost function StemEdges(): set<Edge> {
    {Edge("a", "x", "b"), Edge("b", "y", "c"), Edge("c", "z", "b")}
  }

  lemma StemRun()
    ensures
      var held := Next(Next(Next(EMPTY, Acquire("x", "b")), Acquire("y", "c")), Acquire("z", "b"));
      Next(Next(Next(held, StartWait("x", "a")), StartWait("y", "b")), StartWait("z", "c")).edges == StemEdges()
  {
    hide Next;
    var v0: View := EMPTY;
    AcquireQuietly(v0, "x", "b");
    var v1 := Next(v0, Acquire("x", "b"));
    AcquireQuietly(v1, "y", "c");
    var v2 := Next(v1, Acquire("y", "c"));
    AcquireQuietly(v2, "z", "b");
    var v3 := Next(v2, Acquire("z", "b"));
    WaitForHolder(v3, "x", "a");
    var v4 := Next(v3, StartWait("x", "a"));
    WaitForHolder(v4, "y", "b");
    var v5 := Next(v4, StartWait("y", "b"));
    WaitForHolder(v5, "z", "c");
  }

  lemma AcquireQuietly(v: View, r: Resource, c: Client)
    requires v.waits == {} && v.edges == {}
    ensures Next(v, Acquire(r, c)) == View(v.holder[r := c], {}, {})
  {
  }

  lemma WaitForHolder(v: View, r: Resource, c: Client)
    requires r in v.holder
    ensures Next(v, StartWait(r, c)) == View(v.holder, v.waits + {Wait(c, r)}, v.edges + {Edge(c, r, v.holder[r])})
  {
  }

  lemma StemSearch(status: DeadlockStatus)
    requires status.NoDeadlock? ==>
      forall clients, resources :: IsWalk(StemEdges(), clients, resources) && clients[0] == "a" ==> Unique(clients)
    requires status.Deadlock? ==>
      Lasso(StemEdges(), status.cycle, status.resources) && Unique(status.cycle) && status.cycle[0] == "a"
    ensures status == Deadlock(["a", "b", "c"], ["x", "y", "z"])
    ensures IsLasso(StemEdges(), status.cycle, status.resources, 1) && !OnCycle(StemEdges(), "a")
  {
    var edges := StemEdges();
    assert IsWalk(edges, ["a", "b", "c", "b"], ["x", "y", "z"]);
    assert !Unique(["a", "b", "c", "b"]) by { assert ["a", "b", "c", "b"][1] == ["a", "b", "c", "b"][3]; }
    StemLasso(status.cycle, status.resources);
    forall cs: seq<Client>, rs: seq<Resource> | IsCycle(edges, cs, rs) ensures cs[0] != "a" {
      assert Edge(cs[|rs| - 1], rs[|rs| - 1], cs[|rs|]) in edges;
    }
  }

  /** From "a" the edges leave no choice. */
  lemma StemLasso(clients: seq<Client>, resources: seq<Resource>)
    requires Lasso(StemEdges(), clients, resources) && Unique(clients) && clients[0] == "a"
    ensures clients == ["a", "b", "c"] && resources == ["x", "y", "z"]
    ensures IsLasso(StemEdges(), clients, resources, 1)
  {
    var edges := StemEdges();
    var back: nat :| IsLasso(edges, clients, resources, back);
    var whole := clients + [clients[back]];
    assert Edge(whole[0], resources[0], whole[1]) in edges;
    assert |clients| > 1 by { assert whole[1] == "b"; }
    assert Edge(whole[1], resources[1], whole[2]) in edges;
    assert |clients| > 2 by { assert whole[2] == "c" && clients[1] == "b"; }
    assert Edge(whole[2], resources[2], whole[3]) in edges;
    assert whole[3] == "b" && clients[1] == "b";
  }
}
