/** Cycle detection of src/deadlock.rs: a depth-first search from every waiting client, each
    with its own visited set. */
module CycleSearch {
  import opened WaitForGraph
  import opened LockRecords

  type Adjacency = map<Client, seq<(Client, Resource)>>

  datatype DeadlockStatus =
    | NoDeadlock
    | Deadlock(cycle: seq<Client>, resources: seq<Resource>)

  /** The adjacency lists hold exactly the edges, and no empty list. */
  ghost predicate Lists(adjacency: Adjacency, edges: set<Edge>) {
    && (forall w, p :: w in adjacency && p in adjacency[w] ==> Edge(w, p.1, p.0) in edges)
    && (forall e :: e in edges ==> e.waiter in adjacency && (e.holder, e.resource) in adjacency[e.waiter])
  }

  /** A client's edges in the order of the edge list. */
  function Listed(graph: seq<WaitEdge>, w: Client): seq<(Client, Resource)> {
    if graph == [] then []
    else
      var e := graph[|graph| - 1];
      Listed(graph[..|graph| - 1], w) + if e.waiter == w then [(e.holder, e.resource)] else []
  }

  ghost predicate Grouped(adjacency: Adjacency, graph: seq<WaitEdge>) {
    forall w :: if w in adjacency then adjacency[w] == Listed(graph, w) != [] else Listed(graph, w) == []
  }

  lemma GroupedNext(adjacency: Adjacency, graph: seq<WaitEdge>, e: WaitEdge)
    requires Grouped(adjacency, graph)
    ensures var known := if e.waiter in adjacency then adjacency[e.waiter] else [];
      Grouped(adjacency[e.waiter := known + [(e.holder, e.resource)]], graph + [e])
  {
    assert (graph + [e])[..|graph|] == graph;
  }

  lemma {:induction false} ListedIff(graph: seq<WaitEdge>, w: Client, p: (Client, Resource))
    ensures p in Listed(graph, w) <==> Edge(w, p.1, p.0) in EdgesOf(graph)
  {
    hide EdgesOf;
    if graph == [] {
      assert EdgesOf([]) == {} by { NoEdges(); }
    } else {
      var front, e := graph[..|graph| - 1], graph[|graph| - 1];
      ListedIff(front, w, p);
      assert graph == front + [e];
      EdgesOfAppend(front, e);
    }
  }

  lemma NoEdges()
    ensures EdgesOf([]) == {}
  {
  }

  lemma GroupedLists(adjacency: Adjacency, graph: seq<WaitEdge>)
    requires Grouped(adjacency, graph)
    ensures Lists(adjacency, EdgesOf(graph))
  {
    hide EdgesOf, Listed;
    forall w, p | w in adjacency && p in adjacency[w] ensures Edge(w, p.1, p.0) in EdgesOf(graph) {
      ListedIff(graph, w, p);
    }
    forall e | e in EdgesOf(graph) ensures e.waiter in adjacency && (e.holder, e.resource) in adjacency[e.waiter] {
      ListedIff(graph, e.waiter, (e.holder, e.resource));
    }
  }

  /** The adjacency lists hold exactly the edges, in the order of the edge list. */
  method BuildAdjacency(graph: seq<WaitEdge>) returns (adjacency: Adjacency)
    ensures Grouped(adjacency, graph) && Lists(adjacency, EdgesOf(graph))
  {
    hide Grouped, Lists, EdgesOf;
    adjacency := map[];
    assert Grouped(adjacency, []) by { NothingGrouped(); }
    for i := 0 to |graph|
      invariant Grouped(adjacency, graph[..i])
    {
      var e := graph[i];
      GroupedNext(adjacency, graph[..i], e);
      var known := if e.waiter in adjacency then adjacency[e.waiter] else [];
      adjacency := adjacency[e.waiter := known + [(e.holder, e.resource)]];
      assert graph[..i + 1] == graph[..i] + [e];
    }
    assert graph[..|graph|] == graph;
    GroupedLists(adjacency, graph);
  }

  lemma NothingGrouped()
    ensures Grouped(map[], [])
  {
  }

  // ----- a list that the search follows --------------------------------------------------------------------

  /** Whom the `i`-th client of a list waits for. */
  function After(clients: seq<Client>, back: nat, i: nat): Client
    requires i < |clients| && back < |clients|
  {
    if i + 1 < |clients| then clients[i + 1] else clients[back]
  }

  /** Each client's first edge leads on along the list. */
  ghost predicate Steered(adjacency: Adjacency, clients: seq<Client>, resources: seq<Resource>, back: nat) {
    && |clients| == |resources| > back && Unique(clients)
    && forall i :: 0 <= i < |clients| ==>
      clients[i] in adjacency && adjacency[clients[i]] != [] && adjacency[clients[i]][0] == (After(clients, back, i), resources[i])
  }

  /** The search has come to `node` by following the list. */
  ghost predicate OnCourse(adjacency: Adjacency, clients: seq<Client>, resources: seq<Resource>, back: nat,
                           path: seq<Client>, node: Client, labels: seq<Resource>)
  {
    && Steered(adjacency, clients, resources, back)
    && |path| < |clients| && path + [node] == clients[..|path| + 1] && labels == resources[..|path|]
  }

  ghost predicate OffCourse(adjacency: Adjacency, path: seq<Client>, node: Client, labels: seq<Resource>) {
    forall clients, resources, back :: !OnCourse(adjacency, clients, resources, back, path, node, labels)
  }

  /** Whatever list the search was following is the one returned. */
  ghost predicate Arrives(adjacency: Adjacency, path: seq<Client>, node: Client, labels: seq<Resource>,
                          path': seq<Client>, labels': seq<Resource>)
  {
    forall clients, resources, back :: OnCourse(adjacency, clients, resources, back, path, node, labels) ==>
      path' == clients && labels' == resources
  }

  lemma OffArrives(adjacency: Adjacency, path: seq<Client>, node: Client, labels: seq<Resource>,
                   path': seq<Client>, labels': seq<Resource>)
    requires OffCourse(adjacency, path, node, labels)
    ensures Arrives(adjacency, path, node, labels, path', labels')
  {
  }

  lemma EndOff(adjacency: Adjacency, path: seq<Client>, node: Client, labels: seq<Resource>)
    requires node !in adjacency || adjacency[node] == []
    ensures OffCourse(adjacency, path, node, labels)
  {
    forall clients: seq<Client>, resources: seq<Resource>, back: nat
      ensures !OnCourse(adjacency, clients, resources, back, path, node, labels)
    {
      var k := |path|;
      assert k < |clients| && path + [node] == clients[..k + 1] ==> (path + [node])[k] == clients[k];
    }
  }

  lemma CourseStep(adjacency: Adjacency, clients: seq<Client>, resources: seq<Resource>, back: nat,
                   path: seq<Client>, node: Client, labels: seq<Resource>, next: Client, r: Resource)
    requires OnCourse(adjacency, clients, resources, back, path, node, labels)
    requires node in adjacency && adjacency[node] != [] && adjacency[node][0] == (next, r)
    ensures next !in path + [node] ==> OnCourse(adjacency, clients, resources, back, path + [node], next, labels + [r])
    ensures next in path + [node] ==> path + [node] == clients && labels + [r] == resources
  {
    var k := |path|;
    assert (path + [node])[k] == clients[k];
    assert next == After(clients, back, k) && r == resources[k];
    if k + 1 < |clients| {
      assert next == clients[k + 1];
      assert next !in clients[..k + 1];
    } else {
      assert clients[..k + 1] == clients;
      assert next in clients;
    }
  }

  /** Going on to a client off the path keeps to the list. */
  lemma StepOn(adjacency: Adjacency, path: seq<Client>, node: Client, labels: seq<Resource>, next: Client, r: Resource)
    requires node in adjacency && adjacency[node] != [] && adjacency[node][0] == (next, r) && next !in path + [node]
    ensures OffCourse(adjacency, path + [node], next, labels + [r]) ==> OffCourse(adjacency, path, node, labels)
    ensures forall path', labels' :: Arrives(adjacency, path + [node], next, labels + [r], path', labels') ==>
      Arrives(adjacency, path, node, labels, path', labels')
  {
    hide OnCourse;
    forall clients: seq<Client>, resources: seq<Resource>, back: nat | OnCourse(adjacency, clients, resources, back, path, node, labels)
      ensures OnCourse(adjacency, clients, resources, back, path + [node], next, labels + [r])
    {
      CourseStep(adjacency, clients, resources, back, path, node, labels, next, r);
    }
  }

  lemma StepBack(adjacency: Adjacency, path: seq<Client>, node: Client, labels: seq<Resource>, next: Client, r: Resource)
    requires node in adjacency && adjacency[node] != [] && adjacency[node][0] == (next, r) && next in path + [node]
    ensures Arrives(adjacency, path, node, labels, path + [node], labels + [r])
  {
    hide OnCourse;
    forall clients: seq<Client>, resources: seq<Resource>, back: nat | OnCourse(adjacency, clients, resources, back, path, node, labels)
      ensures path + [node] == clients && labels + [r] == resources
    {
      CourseStep(adjacency, clients, resources, back, path, node, labels, next, r);
    }
  }

  // ----- the search ----------------------------------------------------------------------------------------

  ghost function Elements(s: seq<Client>): set<Client> {
    set x | x in s
  }

  /** State of the search on entry to `node`: the path, with the edge just followed to `node`,
      is a walk of clients that are all still on the stack; every other visited client is
      finished. */
  ghost predicate Searching(edges: set<Edge>, node: Client, visited: set<Client>, stack: set<Client>,
                            path: seq<Client>, labels: seq<Resource>, done: seq<Client>)
  {
    && IsWalk(edges, path + [node], labels)
    && stack == Elements(path)
    && visited == stack + Elements(done) && stack !! Elements(done)
    && Finished(edges, done)
  }

  lemma WalkPrefix(edges: set<Edge>, clients: seq<Client>, resources: seq<Resource>, next: Client, resource: Resource)
    requires clients != [] && IsWalk(edges, clients, resources) && Edge(clients[|clients| - 1], resource, next) in edges
    ensures IsWalk(edges, clients + [next], resources + [resource])
  {
  }

  lemma FinishedAppend(edges: set<Edge>, done: seq<Client>, node: Client)
    requires Finished(edges, done) && forall e :: e in edges && e.waiter == node ==> e.holder in done
    ensures Finished(edges, done + [node])
  {
    var done' := done + [node];
    forall e, i | e in edges && 0 <= i < |done'| && done'[i] == e.waiter ensures e.holder in done'[..i] {
      if i < |done| { assert done'[..i] == done[..i]; } else { assert done'[..i] == done; }
    }
  }

  /** dfs_visit. It reports true with a walk that bites its own tail, or finishes `node` and
      everything reachable from it, restoring the path and the stack. A list it was following from
      the start is the one it returns. Terminates because every nested call visits one more client. */
  method DfsVisit(node: Client, adjacency: Adjacency, visited0: set<Client>, stack0: set<Client>,
                  path0: seq<Client>, labels0: seq<Resource>,
                  ghost edges: set<Edge>, ghost all: set<Client>, ghost done0: seq<Client>)
    returns (found: bool, visited: set<Client>, stack: set<Client>, path: seq<Client>, labels: seq<Resource>, ghost done: seq<Client>)
    requires Lists(adjacency, edges) && (forall e :: e in edges ==> e.waiter in all && e.holder in all)
    requires node in all && node !in visited0
    requires Searching(edges, node, visited0, stack0, path0, labels0, done0) && Unique(path0)
    ensures found ==> Lasso(edges, path, labels) && path0 + [node] <= path && Unique(path)
    ensures !found ==> path == path0 && labels == labels0 && stack == stack0
    ensures !found ==> visited0 + {node} <= visited && node in done && done0 <= done
    ensures !found ==> visited == stack + Elements(done) && stack !! Elements(done) && Finished(edges, done)
    ensures done0 == [] ==>
      if found then Arrives(adjacency, path0, node, labels0, path, labels) else OffCourse(adjacency, path0, node, labels0)
    decreases all - visited0
  {
    hide Arrives, OffCourse;
    visited, stack, path, labels, done := visited0 + {node}, stack0 + {node}, path0 + [node], labels0, done0;
    if node in adjacency {
      var neighbors := adjacency[node];
      for i := 0 to |neighbors|
        invariant path == path0 + [node] && labels == labels0 && stack == stack0 + {node}
        invariant visited0 + {node} <= visited && visited == stack + Elements(done) && stack !! Elements(done)
        invariant Finished(edges, done) && done0 <= done
        invariant forall k :: 0 <= k < i ==> neighbors[k].0 in done
        invariant i == 0 ==> done == done0
        invariant i > 0 && done0 == [] ==> OffCourse(adjacency, path0, node, labels0)
      {
        var (neighbor, resource) := neighbors[i];
        assert Edge(node, resource, neighbor) in edges by { assert neighbors[i] in adjacency[node]; }
        WalkPrefix(edges, path, labels, neighbor, resource);
        if neighbor !in visited {
          if i == 0 {
            StepOn(adjacency, path0, node, labels0, neighbor, resource);
          }
          labels := labels + [resource];
          assert stack == Elements(path);
          found, visited, stack, path, labels, done :=
            DfsVisit(neighbor, adjacency, visited, stack, path, labels, edges, all, done);
          if found {
            if i > 0 && done0 == [] { OffArrives(adjacency, path0, node, labels0, path, labels); }
            return;
          }
          labels := labels[..|labels| - 1];
        } else if neighbor in stack {
          labels := labels + [resource];
          assert neighbor in path;
          ghost var back :| 0 <= back < |path| && path[back] == neighbor;
          assert IsLasso(edges, path, labels, back);
          found := true;
          if i == 0 {
            StepBack(adjacency, path0, node, labels0, neighbor, resource);
          } else if done0 == [] {
            OffArrives(adjacency, path0, node, labels0, path, labels);
          }
          return;
        } else {
          assert neighbor in done;
        }
      }
      forall e | e in edges && e.waiter == node ensures e.holder in done {
        assert (e.holder, e.resource) in neighbors;
      }
    }
    if node !in adjacency || adjacency[node] == [] { EndOff(adjacency, path0, node, labels0); }
    FinishedAppend(edges, done, node);
    done := done + [node];
    stack := stack - {node};
    path := path[..|path| - 1];
    found := false;
  }

  /** Clients named by the edges. */
  ghost function ClientsOf(edges: set<Edge>): set<Client> {
    (set e | e in edges :: e.waiter) + (set e | e in edges :: e.holder)
  }

  method PositionOf(s: seq<Client>, c: Client) returns (i: nat)
    requires c in s
    ensures i < |s| && s[i] == c && c !in s[..i]
  {
    i := 0;
    while s[i] != c
      invariant i < |s| && c !in s[..i] && c in s[i..]
      decreases |s| - i
    {
      i := i + 1;
    }
  }

  /** find_cycle_dfs. The reported list starts at `start`, stem included. A list that the first edge of
      each client follows is the one reported. */
  method FindCycle(start: Client, adjacency: Adjacency, ghost edges: set<Edge>) returns (status: DeadlockStatus)
    requires Lists(adjacency, edges)
    ensures status.Deadlock? ==> Lasso(edges, status.cycle, status.resources)
    ensures status.Deadlock? ==> Unique(status.cycle) && status.cycle[0] == start
    ensures status.NoDeadlock? ==>
      forall clients, resources :: IsWalk(edges, clients, resources) && clients[0] == start ==> Unique(clients)
    ensures forall clients, resources, back :: Steered(adjacency, clients, resources, back) && clients[0] == start ==>
      status == Deadlock(clients, resources)
  {
    ghost var all := ClientsOf(edges) + {start};
    assert [] + [start] == [start];
    SteeredStarts(adjacency, start);
    var found, _, _, path, labels, done := DfsVisit(start, adjacency, {}, {}, [], [], edges, all, []);
    if found {
      assert path[0] == start;
      var cycleStart := PositionOf(path, start);
      assert cycleStart == 0;
      assert path[0..] == path && labels[0..] == labels;
      return Deadlock(path[cycleStart..], labels[cycleStart..]);
    }
    ghost var i :| 0 <= i < |done| && done[i] == start;
    forall clients: seq<Client>, resources: seq<Resource> | IsWalk(edges, clients, resources) && clients[0] == start
      ensures Unique(clients)
    {
      FinishedWalksOnce(edges, done, i, clients, resources);
    }
    return NoDeadlock;
  }

  lemma SteeredStarts(adjacency: Adjacency, start: Client)
    ensures forall clients, resources, back :: Steered(adjacency, clients, resources, back) && clients[0] == start ==>
      OnCourse(adjacency, clients, resources, back, [], start, [])
  {
    forall clients, resources, back | Steered(adjacency, clients, resources, back) && clients[0] == start
      ensures OnCourse(adjacency, clients, resources, back, [], start, [])
    {
      assert clients[..1] == [start];
    }
  }

  /** detect_from_graph: Deadlock is reported exactly when the graph has a directed cycle, and
      what is reported is a labelled walk of distinct clients whose last edge returns to it. */
  method DetectFromGraph(graph: seq<WaitEdge>) returns (status: DeadlockStatus)
    ensures status.Deadlock? <==> HasCycle(EdgesOf(graph))
    ensures status.Deadlock? ==> Lasso(EdgesOf(graph), status.cycle, status.resources) && Unique(status.cycle)
  {
    var adjacency := BuildAdjacency(graph);
    ghost var edges := EdgesOf(graph);
    var rest := adjacency.Keys;
    while rest != {}
      invariant rest <= adjacency.Keys
      invariant forall clients, resources :: IsCycle(edges, clients, resources) ==> clients[0] in rest || clients[0] !in adjacency
      decreases rest
    {
      var start :| start in rest;
      status := FindCycle(start, adjacency, edges);
      if status.Deadlock? {
        ghost var back :| IsLasso(edges, status.cycle, status.resources, back);
        LassoHasCycle(edges, status.cycle, status.resources, back);
        return;
      }
      rest := rest - {start};
    }
    forall clients: seq<Client>, resources: seq<Resource> ensures !IsCycle(edges, clients, resources) {
      if IsWalk(edges, clients, resources) && |resources| > 0 {
        assert Edge(clients[0], resources[0], clients[1]) in edges;
      }
    }
    return NoDeadlock;
  }
}
