/** The portable snapshot of src/deadlock.rs and the loops of export and merge. */
module DeadlockSnapshots {
  import opened WaitForGraph
  import opened LockRecords
  import opened SnapshotMerge

  datatype HeldSnapshot = HeldSnapshot(resource: Resource, client: Client, ttl: nat, heldFor: nat)
  datatype EdgeSnapshot = EdgeSnapshot(waiter: Client, holder: Client, resource: Resource, elapsed: nat)
  datatype OrphanSnapshot = OrphanSnapshot(waiter: Client, resource: Resource, elapsed: nat)
  datatype Snapshot = Snapshot(held: seq<HeldSnapshot>, waits: seq<EdgeSnapshot>, orphans: seq<OrphanSnapshot>)

  // ----- what a snapshot says -----------------------------------------------------------------

  /** Holds with TTL left; for a resource listed twice the first live entry counts. */
  ghost function LiveHolds(held: seq<HeldSnapshot>): map<Resource, Client> {
    if held == [] then map[]
    else
      var known, h := LiveHolds(held[..|held| - 1]), held[|held| - 1];
      if h.resource in known || h.ttl <= h.heldFor then known else known[h.resource := h.client]
  }

  ghost function SnapshotEdge(e: EdgeSnapshot): Edge {
    Edge(e.waiter, e.resource, e.holder)
  }

  ghost function SnapshotEdges(waits: seq<EdgeSnapshot>): set<Edge> {
    set e | e in waits :: SnapshotEdge(e)
  }

  ghost function SnapshotOrphans(orphans: seq<OrphanSnapshot>): set<Wait> {
    set o | o in orphans :: Wait(o.waiter, o.resource)
  }

  ghost function RemoteOf(s: Snapshot): Remote {
    Remote(LiveHolds(s.held), SnapshotEdges(s.waits), SnapshotOrphans(s.orphans))
  }

  // ----- what it says of time -------------------------------------------------------------------

  /** Whole milliseconds from one instant to a later one. */
  predicate Millis(ms: nat, since: Instant, now: Instant) {
    if since <= now then ms * 1_000_000 <= now - since < (ms + 1) * 1_000_000 else ms == 0
  }

  lemma ElapsedMillis(since: Instant, now: Instant)
    ensures Millis(ElapsedMs(since, now), since, now)
  {
  }

  /** That many milliseconds ago, or now where the clock does not reach back as far. */
  predicate Ago(since: Instant, now: Instant, ms: nat) {
    if ms * 1_000_000 <= now then since + ms * 1_000_000 == now else since == now
  }

  /** Who has been waiting for what, and how long. */
  type Ages = set<(Client, Resource, nat)>

  ghost function EdgesTold(waits: seq<EdgeSnapshot>): Ages {
    set e | e in waits :: (e.waiter, e.resource, e.elapsed)
  }

  ghost function OrphansTold(orphans: seq<OrphanSnapshot>): Ages {
    set o | o in orphans :: (o.waiter, o.resource, o.elapsed)
  }

  ghost predicate ToldEdge(e: WaitEdge, told: Ages, now: Instant) {
    exists ms: nat :: (e.waiter, e.resource, ms) in told && Ago(e.timestamp, now, ms)
  }

  ghost predicate ToldWait(c: Client, info: LockInfo, told: Ages, now: Instant, maxWait: nat) {
    info.client == c && info.ttl == maxWait && exists ms: nat :: (c, info.resource, ms) in told && Ago(info.timestamp, now, ms)
  }

  ghost function Told(s: Snapshot): Ages {
    EdgesTold(s.waits) + OrphansTold(s.orphans)
  }

  /** An edge of one list, perhaps to another holder. */
  ghost predicate Kept(x: WaitEdge, graph: seq<WaitEdge>) {
    exists e :: e in graph && e.waiter == x.waiter && e.resource == x.resource && e.timestamp == x.timestamp
  }

  /** An edge as old as a wait it belongs to. */
  ghost predicate OfWait(x: WaitEdge, waiting: map<Client, seq<LockInfo>>) {
    exists info :: Waits(waiting, x.waiter, info) && info.resource == x.resource && info.timestamp == x.timestamp
  }

  // ----- export ---------------------------------------------------------------------------------

  ghost predicate Keyed(held: map<Resource, LockInfo>) {
    forall r :: r in held ==> held[r].resource == r
  }

  predicate Live(info: LockInfo, now: Instant) {
    ElapsedMs(info.timestamp, now) < info.ttl
  }

  method ExportHeld(held: map<Resource, LockInfo>, now: Instant) returns (out: seq<HeldSnapshot>)
    requires Keyed(held)
    ensures LiveHolds(out) == map r | r in held && Live(held[r], now) :: held[r].client
    ensures forall h :: h in out ==> h.resource in held && HeldAs(h, held[h.resource], now)
  {
    hide HeldAs;
    out := [];
    var rest := held.Keys;
    while rest != {}
      invariant rest <= held.Keys
      invariant forall h :: h in out ==> h.resource in held && HeldAs(h, held[h.resource], now)
      invariant LiveHolds(out) == map r | r in held && r !in rest && Live(held[r], now) :: held[r].client
      decreases rest
    {
      var r :| r in rest;
      rest := rest - {r};
      var h := HeldSnapshot(held[r].resource, held[r].client, held[r].ttl, ElapsedMs(held[r].timestamp, now));
      assert (out + [h])[..|out|] == out;
      HeldOne(h, held[r], now);
      out := out + [h];
    }
  }

  ghost predicate HeldAs(h: HeldSnapshot, info: LockInfo, now: Instant) {
    h.client == info.client && h.ttl == info.ttl && Millis(h.heldFor, info.timestamp, now)
  }

  lemma HeldOne(h: HeldSnapshot, info: LockInfo, now: Instant)
    requires h == HeldSnapshot(h.resource, info.client, info.ttl, ElapsedMs(info.timestamp, now))
    ensures HeldAs(h, info, now)
  {
    ElapsedMillis(info.timestamp, now);
  }

  ghost predicate WaitedAs(e: EdgeSnapshot, graph: seq<WaitEdge>, now: Instant) {
    exists x :: x in graph && x.waiter == e.waiter && x.holder == e.holder && x.resource == e.resource && Millis(e.elapsed, x.timestamp, now)
  }

  lemma WaitedOne(s: EdgeSnapshot, graph: seq<WaitEdge>, e: WaitEdge, now: Instant)
    requires e in graph && s == EdgeSnapshot(e.waiter, e.holder, e.resource, ElapsedMs(e.timestamp, now))
    ensures WaitedAs(s, graph, now)
  {
    ElapsedMillis(e.timestamp, now);
  }

  ghost predicate OrphanedAs(o: OrphanSnapshot, waiting: map<Client, seq<LockInfo>>, now: Instant) {
    exists info :: Waits(waiting, o.waiter, info) && info.resource == o.resource && Millis(o.elapsed, info.timestamp, now)
  }

  method ExportEdges(graph: seq<WaitEdge>, now: Instant) returns (out: seq<EdgeSnapshot>)
    ensures SnapshotEdges(out) == EdgesOf(graph)
    ensures forall s :: s in out ==> WaitedAs(s, graph, now)
  {
    hide WaitedAs;
    out := [];
    for i := 0 to |graph|
      invariant SnapshotEdges(out) == EdgesOf(graph[..i])
      invariant forall s :: s in out ==> WaitedAs(s, graph, now)
    {
      var e := graph[i];
      EdgesOfAppend(graph[..i], e);
      assert graph[..i + 1] == graph[..i] + [e];
      var s := EdgeSnapshot(e.waiter, e.holder, e.resource, ElapsedMs(e.timestamp, now));
      SnapshotEdgesAppend(out, s);
      WaitedOne(s, graph, e, now);
      out := out + [s];
    }
    assert graph[..|graph|] == graph;
  }

  lemma SnapshotEdgesAppend(waits: seq<EdgeSnapshot>, s: EdgeSnapshot)
    ensures SnapshotEdges(waits + [s]) == SnapshotEdges(waits) + {SnapshotEdge(s)}
  {
    forall x | x in SnapshotEdges(waits) + {SnapshotEdge(s)} ensures x in SnapshotEdges(waits + [s]) {
      if x == SnapshotEdge(s) {
        assert s in waits + [s];
      } else {
        var e :| e in waits && SnapshotEdge(e) == x;
        assert e in waits + [s];
      }
    }
  }

  lemma SnapshotOrphansAppend(orphans: seq<OrphanSnapshot>, s: OrphanSnapshot)
    ensures SnapshotOrphans(orphans + [s]) == SnapshotOrphans(orphans) + {Wait(s.waiter, s.resource)}
  {
    forall x | x in SnapshotOrphans(orphans) + {Wait(s.waiter, s.resource)} ensures x in SnapshotOrphans(orphans + [s]) {
      if x == Wait(s.waiter, s.resource) {
        assert s in orphans + [s];
      } else {
        var o :| o in orphans && Wait(o.waiter, o.resource) == x;
        assert o in orphans + [s];
      }
    }
  }

  ghost function OrphansAmong(waits: set<Wait>, edges: set<Edge>): set<Wait> {
    set w | w in waits && !HasEdge(edges, w)
  }

  method ExportOrphans(waiting: map<Client, seq<LockInfo>>, graph: seq<WaitEdge>, now: Instant) returns (out: seq<OrphanSnapshot>)
    ensures SnapshotOrphans(out) == OrphansAmong(WaitsOf(waiting), EdgesOf(graph))
    ensures forall s :: s in out ==> OrphanedAs(s, waiting, now)
  {
    hide OrphanedAs;
    out := [];
    var rest := waiting.Keys;
    ghost var walked: set<Wait> := {};
    while rest != {}
      invariant rest <= waiting.Keys
      invariant walked == set w | w in WaitsOf(waiting) && w.waiter !in rest
      invariant SnapshotOrphans(out) == OrphansAmong(walked, EdgesOf(graph))
      invariant forall s :: s in out ==> OrphanedAs(s, waiting, now)
      decreases rest
    {
      var w :| w in rest;
      rest := rest - {w};
      ghost var before := walked;
      for k := 0 to |waiting[w]|
        invariant walked == before + set info | info in waiting[w][..k] :: Wait(w, info.resource)
        invariant SnapshotOrphans(out) == OrphansAmong(walked, EdgesOf(graph))
        invariant forall s :: s in out ==> OrphanedAs(s, waiting, now)
      {
        var info := waiting[w][k];
        assert waiting[w][..k + 1] == waiting[w][..k] + [info];
        walked := walked + {Wait(w, info.resource)};
        var known := AnyEdge(graph, w, info.resource);
        if !known {
          var s := OrphanSnapshot(w, info.resource, ElapsedMs(info.timestamp, now));
          SnapshotOrphansAppend(out, s);
          OrphanedOne(s, waiting, info, now);
          out := out + [s];
        }
      }
      assert waiting[w][..|waiting[w]|] == waiting[w];
    }
    assert walked == WaitsOf(waiting);
  }

  lemma OrphanedOne(s: OrphanSnapshot, waiting: map<Client, seq<LockInfo>>, info: LockInfo, now: Instant)
    requires Waits(waiting, s.waiter, info) && s == OrphanSnapshot(s.waiter, info.resource, ElapsedMs(info.timestamp, now))
    ensures OrphanedAs(s, waiting, now)
  {
    ElapsedMillis(info.timestamp, now);
  }

  method AnyEdge(graph: seq<WaitEdge>, w: Client, r: Resource) returns (found: bool)
    ensures found <==> HasEdge(EdgesOf(graph), Wait(w, r))
  {
    for i := 0 to |graph|
      invariant forall k :: 0 <= k < i ==> graph[k].waiter != w || graph[k].resource != r
    {
      if graph[i].waiter == w && graph[i].resource == r {
        assert EdgeOf(graph[i]) in EdgesOf(graph);
        return true;
      }
    }
    return false;
  }

  // ----- merge ------------------------------------------------------------------------------------

  /** Step 1: import holds that are live and not held locally, with the remaining TTL. */
  method MergeHolds(held0: map<Resource, LockInfo>, remote: seq<HeldSnapshot>, now: Instant) returns (held: map<Resource, LockInfo>)
    ensures HoldersOf(held) == LiveHolds(remote) + HoldersOf(held0)
    ensures Keyed(held0) ==> Keyed(held)
    ensures forall r :: r in held ==> (r in held0 && held[r] == held0[r]) || (r !in held0 && Imported(held[r], r, remote, now))
  {
    hide Imported;
    held := held0;
    for i := 0 to |remote|
      invariant forall r :: r in held ==> (r in held0 && held[r] == held0[r]) || (r !in held0 && Imported(held[r], r, remote, now))
      invariant forall r :: r in held <==> r in LiveHolds(remote[..i]) || r in held0
      invariant forall r :: r in held ==> held[r].client == if r in held0 then held0[r].client else LiveHolds(remote[..i])[r]
      invariant Keyed(held0) ==> Keyed(held)
    {
      var h := remote[i];
      assert remote[..i + 1][..i] == remote[..i];
      if h.resource in held {
        continue;
      }
      var remaining := if h.heldFor <= h.ttl then h.ttl - h.heldFor else 0;
      if remaining == 0 {
        continue;
      }
      ImportedOne(h, remote, now);
      held := held[h.resource := LockInfo(h.resource, h.client, now, remaining)];
    }
    assert remote[..|remote|] == remote;
  }

  lemma ImportedOne(h: HeldSnapshot, remote: seq<HeldSnapshot>, now: Instant)
    requires h in remote && h.heldFor < h.ttl
    ensures Imported(LockInfo(h.resource, h.client, now, h.ttl - h.heldFor), h.resource, remote, now)
  {
  }

  /** A hold taken over at an instant, for the rest of its time to live. */
  ghost predicate Imported(info: LockInfo, r: Resource, remote: seq<HeldSnapshot>, now: Instant) {
    exists h :: h in remote && h.resource == r && h.heldFor < h.ttl && info == LockInfo(r, h.client, now, h.ttl - h.heldFor)
  }

  lemma FixedAdd(holder: map<Resource, Client>, edges: set<Edge>, e: Edge)
    ensures Fixed(holder, edges + {e}) ==
      if Fix(holder, e).holder != e.waiter then Fixed(holder, edges) + {Fix(holder, e)} else Fixed(holder, edges)
  {
    forall x | x in Fixed(holder, edges) ensures x in Fixed(holder, edges + {e}) {
      var f :| f in edges && Fix(holder, f).holder != f.waiter && x == Fix(holder, f);
      assert f in edges + {e};
    }
    if Fix(holder, e).holder != e.waiter { assert e in edges + {e}; }
  }

  /** Step 2: correct, prune and deduplicate the local edges. */
  method Reconcile(graph0: seq<WaitEdge>, held: map<Resource, LockInfo>) returns (graph: seq<WaitEdge>)
    ensures EdgesOf(graph) == Fixed(HoldersOf(held), EdgesOf(graph0))
    ensures forall x :: x in graph ==> Kept(x, graph0)
  {
    hide Kept;
    graph := [];
    var seen: set<Edge> := {};
    ghost var holder := HoldersOf(held);
    for i := 0 to |graph0|
      invariant EdgesOf(graph) == seen == Fixed(holder, EdgesOf(graph0[..i]))
      invariant forall x :: x in graph ==> Kept(x, graph0)
    {
      var e := graph0[i];
      EdgesOfAppend(graph0[..i], e);
      assert graph0[..i + 1] == graph0[..i] + [e];
      FixedAdd(holder, EdgesOf(graph0[..i]), EdgeOf(e));
      if e.resource in held {
        e := e.(holder := held[e.resource].client);
      }
      assert EdgeOf(e) == Fix(holder, EdgeOf(graph0[i]));
      KeptOne(e, graph0[i], graph0);
      if e.holder == e.waiter {
        continue;
      }
      if EdgeOf(e) !in seen {
        EdgesOfAppend(graph, e);
        seen := seen + {EdgeOf(e)};
        graph := graph + [e];
      }
    }
    assert graph0[..|graph0|] == graph0;
  }

  lemma KeptOne(x: WaitEdge, e: WaitEdge, graph: seq<WaitEdge>)
    requires e in graph && x == e.(holder := x.holder)
    ensures Kept(x, graph)
  {
  }

  /** ensure_waiting. */
  method EnsureWaiting(waiting0: map<Client, seq<LockInfo>>, w: Client, r: Resource, timestamp: Instant, maxWait: nat)
    returns (waiting: map<Client, seq<LockInfo>>)
    ensures WaitsOf(waiting) == WaitsOf(waiting0) + {Wait(w, r)}
    ensures forall c, i :: Waits(waiting, c, i) ==> Waits(waiting0, c, i) || (c == w && i == LockInfo(r, w, timestamp, maxWait))
    ensures forall c, i :: Waits(waiting0, c, i) ==> Waits(waiting, c, i)
  {
    waiting := waiting0;
    var known := if w in waiting0 then waiting0[w] else [];
    for k := 0 to |known|
      invariant forall j :: 0 <= j < k ==> known[j].resource != r
    {
      if known[k].resource == r {
        assert known[k] in waiting0[w];
        assert Wait(w, r) in WaitsOf(waiting0);
        return;
      }
    }
    var info := LockInfo(r, w, timestamp, maxWait);
    WaitsOfPush(waiting0, w, info);
    waiting := waiting0[w := known + [info]];
  }

  method EdgeExists(graph: seq<WaitEdge>, e: Edge) returns (found: bool)
    ensures found <==> e in EdgesOf(graph)
  {
    for i := 0 to |graph|
      invariant forall k :: 0 <= k < i ==> EdgeOf(graph[k]) != e
    {
      if EdgeOf(graph[i]) == e {
        return true;
      }
    }
    return false;
  }

  /** `Instant::now().checked_sub(elapsed)`, or now. */
  function Backdated(now: Instant, elapsed: nat): Instant {
    if elapsed * NANOS_PER_MS <= now then now - elapsed * NANOS_PER_MS else now
  }

  lemma BackdatedAgo(now: Instant, elapsed: nat)
    ensures Ago(Backdated(now, elapsed), now, elapsed)
  {
  }

  /** Push an edge that is not known yet, together with its wait. */
  method AddEdge(graph0: seq<WaitEdge>, waiting0: map<Client, seq<LockInfo>>, e: Edge, timestamp: Instant, maxWait: nat)
    returns (graph: seq<WaitEdge>, waiting: map<Client, seq<LockInfo>>)
    ensures EdgesOf(graph) == EdgesOf(graph0) + {e}
    ensures WaitsOf(waiting) ==
      if e in EdgesOf(graph0) then WaitsOf(waiting0) else WaitsOf(waiting0) + {Wait(e.waiter, e.resource)}
    ensures forall x :: x in graph ==> x in graph0 || x == WaitEdge(e.waiter, e.holder, e.resource, timestamp)
    ensures forall c, i :: Waits(waiting, c, i) ==>
      Waits(waiting0, c, i) || (c == e.waiter && i == LockInfo(e.resource, e.waiter, timestamp, maxWait))
    ensures forall c, i :: Waits(waiting0, c, i) ==> Waits(waiting, c, i)
  {
    hide Waits;
    graph, waiting := graph0, waiting0;
    var found := EdgeExists(graph0, e);
    if !found {
      waiting := EnsureWaiting(waiting0, e.waiter, e.resource, timestamp, maxWait);
      EdgesOfAppend(graph0, WaitEdge(e.waiter, e.holder, e.resource, timestamp));
      graph := graph0 + [WaitEdge(e.waiter, e.holder, e.resource, timestamp)];
    }
  }

  lemma NothingToMerge(holder: map<Resource, Client>)
    ensures SnapshotEdges([]) == {} && SnapshotOrphans([]) == {}
    ensures Fixed(holder, {}) == {} && Join(holder, {}) == {} && WaitsBehind({}) == {}
  {
  }

  /** Step 3: union with the remote edges, corrected to the known holders. */
  method UnionEdges(graph0: seq<WaitEdge>, waiting0: map<Client, seq<LockInfo>>, held: map<Resource, LockInfo>,
                    remote: seq<EdgeSnapshot>, now: Instant, maxWait: nat)
    returns (graph: seq<WaitEdge>, waiting: map<Client, seq<LockInfo>>)
    ensures EdgesOf(graph) == EdgesOf(graph0) + Fixed(HoldersOf(held), SnapshotEdges(remote))
    ensures WaitsOf(waiting) == WaitsOf(waiting0)
      + WaitsBehind(Fixed(HoldersOf(held), SnapshotEdges(remote)) - EdgesOf(graph0))
    ensures forall x :: x in graph ==> x in graph0 || ToldEdge(x, EdgesTold(remote), now)
    ensures forall c, i :: Waits(waiting, c, i) ==> Waits(waiting0, c, i) || ToldWait(c, i, EdgesTold(remote), now, maxWait)
    ensures forall c, i :: Waits(waiting0, c, i) ==> Waits(waiting, c, i)
  {
    hide EdgesOf, WaitsOf, Fixed, WaitsBehind, SnapshotEdges, Waits, ToldEdge, ToldWait;
    graph, waiting := graph0, waiting0;
    ghost var holder, known := HoldersOf(held), EdgesOf(graph0);
    NothingToMerge(holder);
    assert remote[..0] == [] && {} - known == {};
    for i := 0 to |remote|
      invariant EdgesOf(graph) == known + Fixed(holder, SnapshotEdges(remote[..i]))
      invariant WaitsOf(waiting) == WaitsOf(waiting0) + WaitsBehind(Fixed(holder, SnapshotEdges(remote[..i])) - known)
      invariant forall x :: x in graph ==> x in graph0 || ToldEdge(x, EdgesTold(remote), now)
      invariant forall c, i :: Waits(waiting, c, i) ==> Waits(waiting0, c, i) || ToldWait(c, i, EdgesTold(remote), now, maxWait)
      invariant forall c, i :: Waits(waiting0, c, i) ==> Waits(waiting, c, i)
    {
      var s := remote[i];
      SnapshotEdgesAppend(remote[..i], s);
      assert remote[..i + 1] == remote[..i] + [s];
      ghost var before := Fixed(holder, SnapshotEdges(remote[..i]));
      FixedAdd(holder, SnapshotEdges(remote[..i]), SnapshotEdge(s));
      var e := Edge(s.waiter, s.resource, if s.resource in held then held[s.resource].client else s.holder);
      assert e == Fix(holder, SnapshotEdge(s));
      if e.holder == e.waiter {
        continue;
      }
      WaitsBehindAdd(before, known, e);
      ToldOne(e, EdgesTold(remote), Backdated(now, s.elapsed), now, s.elapsed, maxWait);
      graph, waiting := AddEdge(graph, waiting, e, Backdated(now, s.elapsed), maxWait);
    }
    assert remote[..|remote|] == remote;
  }

  lemma ToldOne(e: Edge, told: Ages, since: Instant, now: Instant, ms: nat, maxWait: nat)
    requires (e.waiter, e.resource, ms) in told && since == Backdated(now, ms)
    ensures ToldEdge(WaitEdge(e.waiter, e.holder, e.resource, since), told, now)
    ensures ToldWait(e.waiter, LockInfo(e.resource, e.waiter, since, maxWait), told, now, maxWait)
  {
    BackdatedAgo(now, ms);
  }

  lemma WaitsBehindAdd(edges: set<Edge>, known: set<Edge>, e: Edge)
    ensures WaitsBehind((edges + {e}) - known) ==
      if e in known + edges then WaitsBehind(edges - known) else WaitsBehind(edges - known) + {Wait(e.waiter, e.resource)}
  {
    var more := (edges + {e}) - known;
    forall w | w in WaitsBehind(edges - known) ensures w in WaitsBehind(more) {
      var f :| f in edges - known && w == Wait(f.waiter, f.resource);
      assert f in more;
    }
    if e !in known + edges { assert e in more; }
  }

  lemma JoinAdd(holder: map<Resource, Client>, waits: set<Wait>, w: Wait)
    ensures Join(holder, waits + {w}) ==
      if w.resource in holder && holder[w.resource] != w.waiter
      then Join(holder, waits) + {Edge(w.waiter, w.resource, holder[w.resource])} else Join(holder, waits)
  {
    JoinUnion(holder, waits, {w});
  }

  /** Step 4: link remote orphan waits whose holder is known; keep the others as waits. */
  method LinkOrphans(graph0: seq<WaitEdge>, waiting0: map<Client, seq<LockInfo>>, held: map<Resource, LockInfo>,
                     remote: seq<OrphanSnapshot>, now: Instant, maxWait: nat)
    returns (graph: seq<WaitEdge>, waiting: map<Client, seq<LockInfo>>)
    ensures EdgesOf(graph) == EdgesOf(graph0) + Join(HoldersOf(held), SnapshotOrphans(remote))
    ensures WaitsOf(waiting) == WaitsOf(waiting0)
      + WaitsBehind(Join(HoldersOf(held), SnapshotOrphans(remote)) - EdgesOf(graph0))
      + UnheldOf(HoldersOf(held), SnapshotOrphans(remote))
    ensures forall x :: x in graph ==> x in graph0 || ToldEdge(x, OrphansTold(remote), now)
    ensures forall c, i :: Waits(waiting, c, i) ==> Waits(waiting0, c, i) || ToldWait(c, i, OrphansTold(remote), now, maxWait)
    ensures forall c, i :: Waits(waiting0, c, i) ==> Waits(waiting, c, i)
  {
    hide EdgesOf, WaitsOf, Join, WaitsBehind, SnapshotOrphans, Waits, ToldEdge, ToldWait;
    graph, waiting := graph0, waiting0;
    ghost var holder, known := HoldersOf(held), EdgesOf(graph0);
    NothingToMerge(holder);
    assert remote[..0] == [] && {} - known == {};
    for i := 0 to |remote|
      invariant EdgesOf(graph) == known + Join(holder, SnapshotOrphans(remote[..i]))
      invariant WaitsOf(waiting) == WaitsOf(waiting0)
        + WaitsBehind(Join(holder, SnapshotOrphans(remote[..i])) - known)
        + UnheldOf(holder, SnapshotOrphans(remote[..i]))
      invariant forall x :: x in graph ==> x in graph0 || ToldEdge(x, OrphansTold(remote), now)
      invariant forall c, i :: Waits(waiting, c, i) ==> Waits(waiting0, c, i) || ToldWait(c, i, OrphansTold(remote), now, maxWait)
      invariant forall c, i :: Waits(waiting0, c, i) ==> Waits(waiting, c, i)
    {
      var o := remote[i];
      SnapshotOrphansAppend(remote[..i], o);
      assert remote[..i + 1] == remote[..i] + [o];
      ghost var before := Join(holder, SnapshotOrphans(remote[..i]));
      JoinAdd(holder, SnapshotOrphans(remote[..i]), Wait(o.waiter, o.resource));
      ToldOne(Edge(o.waiter, o.resource, o.waiter), OrphansTold(remote), Backdated(now, o.elapsed), now, o.elapsed, maxWait);
      if o.resource !in held {
        waiting := EnsureWaiting(waiting, o.waiter, o.resource, Backdated(now, o.elapsed), maxWait);
        continue;
      }
      var e := Edge(o.waiter, o.resource, held[o.resource].client);
      if e.holder == e.waiter {
        continue;
      }
      WaitsBehindAdd(before, known, e);
      ToldOne(e, OrphansTold(remote), Backdated(now, o.elapsed), now, o.elapsed, maxWait);
      graph, waiting := AddEdge(graph, waiting, e, Backdated(now, o.elapsed), maxWait);
    }
    assert remote[..|remote|] == remote;
  }

  /** Step 5: give every wait for a held resource its edge. */
  method RelinkAll(graph0: seq<WaitEdge>, waiting: map<Client, seq<LockInfo>>, held: map<Resource, LockInfo>)
    returns (graph: seq<WaitEdge>)
    ensures EdgesOf(graph) == EdgesOf(graph0) + Join(HoldersOf(held), WaitsOf(waiting))
    ensures forall x :: x in graph ==> x in graph0 || OfWait(x, waiting)
  {
    hide EdgesOf, Join, OfWait;
    graph := graph0;
    ghost var holder := HoldersOf(held);
    NothingToMerge(holder);
    var rest := waiting.Keys;
    ghost var walked: set<Wait> := {};
    while rest != {}
      invariant rest <= waiting.Keys
      invariant walked == set w | w in WaitsOf(waiting) && w.waiter !in rest
      invariant EdgesOf(graph) == EdgesOf(graph0) + Join(holder, walked)
      invariant forall x :: x in graph ==> x in graph0 || OfWait(x, waiting)
      decreases rest
    {
      var w :| w in rest;
      rest := rest - {w};
      ghost var before := walked;
      for k := 0 to |waiting[w]|
        invariant walked == before + set info | info in waiting[w][..k] :: Wait(w, info.resource)
        invariant EdgesOf(graph) == EdgesOf(graph0) + Join(holder, walked)
        invariant forall x :: x in graph ==> x in graph0 || OfWait(x, waiting)
      {
        var info := waiting[w][k];
        assert waiting[w][..k + 1] == waiting[w][..k] + [info];
        JoinAdd(holder, walked, Wait(w, info.resource));
        walked := walked + {Wait(w, info.resource)};
        if info.resource !in held || held[info.resource].client == w {
          continue;
        }
        var e := WaitEdge(w, held[info.resource].client, info.resource, info.timestamp);
        var found := EdgeExists(graph, EdgeOf(e));
        if !found {
          EdgesOfAppend(graph, e);
          OfWaitOne(e, waiting, info);
          graph := graph + [e];
        }
      }
      assert waiting[w][..|waiting[w]|] == waiting[w];
    }
    assert walked == WaitsOf(waiting);
  }

  lemma OfWaitOne(x: WaitEdge, waiting: map<Client, seq<LockInfo>>, info: LockInfo)
    requires Waits(waiting, x.waiter, info) && x == WaitEdge(x.waiter, x.holder, info.resource, info.timestamp)
    ensures OfWait(x, waiting)
  {
  }

  // ----- from one process to another ------------------------------------------------------------

  /** A hold of one process as another takes it over: what is left of its time to live, from now. */
  ghost predicate HandedOver(info: LockInfo, was: LockInfo, exported: Instant, merged: Instant) {
    exists ms: nat :: Millis(ms, was.timestamp, exported) && ms < was.ttl
      && info == LockInfo(was.resource, was.client, merged, was.ttl - ms)
  }

  /** A wait of one process as another takes it over: as old as it was when exported. */
  ghost predicate WaitOver(c: Client, info: LockInfo, graph: seq<WaitEdge>, waiting: map<Client, seq<LockInfo>>,
                           exported: Instant, merged: Instant) {
    exists since, ms: nat :: Began(graph, waiting, c, info.resource, since) && Millis(ms, since, exported) && Ago(info.timestamp, merged, ms)
  }

  ghost predicate Began(graph: seq<WaitEdge>, waiting: map<Client, seq<LockInfo>>, c: Client, r: Resource, since: Instant) {
    || (exists e :: e in graph && e.waiter == c && e.resource == r && e.timestamp == since)
    || (exists i :: Waits(waiting, c, i) && i.resource == r && i.timestamp == since)
  }

  lemma HoldHandedOver(held: map<Resource, LockInfo>, out: seq<HeldSnapshot>, r: Resource, info: LockInfo, exported: Instant, merged: Instant)
    requires Keyed(held) && Imported(info, r, out, merged)
    requires forall h :: h in out ==> h.resource in held && HeldAs(h, held[h.resource], exported)
    ensures r in held && HandedOver(info, held[r], exported, merged)
  {
    var h :| h in out && h.resource == r && h.heldFor < h.ttl && info == LockInfo(r, h.client, merged, h.ttl - h.heldFor);
    assert HeldAs(h, held[r], exported);
  }

  lemma WaitHandedOver(graph: seq<WaitEdge>, waiting: map<Client, seq<LockInfo>>, s: Snapshot, c: Client, info: LockInfo,
                       exported: Instant, merged: Instant, maxWait: nat)
    requires forall e :: e in s.waits ==> WaitedAs(e, graph, exported)
    requires forall o :: o in s.orphans ==> OrphanedAs(o, waiting, exported)
    requires ToldWait(c, info, Told(s), merged, maxWait)
    ensures WaitOver(c, info, graph, waiting, exported, merged)
  {
    var ms: nat :| (c, info.resource, ms) in Told(s) && Ago(info.timestamp, merged, ms);
    if (c, info.resource, ms) in EdgesTold(s.waits) {
      var e :| e in s.waits && (e.waiter, e.resource, e.elapsed) == (c, info.resource, ms);
      assert WaitedAs(e, graph, exported);
      var x :| x in graph && x.waiter == c && x.resource == info.resource && Millis(ms, x.timestamp, exported);
      assert Began(graph, waiting, c, info.resource, x.timestamp);
    } else {
      var o :| o in s.orphans && (o.waiter, o.resource, o.elapsed) == (c, info.resource, ms);
      assert OrphanedAs(o, waiting, exported);
      var i :| Waits(waiting, c, i) && i.resource == info.resource && Millis(ms, i.timestamp, exported);
      assert Began(graph, waiting, c, info.resource, i.timestamp);
    }
  }
}
