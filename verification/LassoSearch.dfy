/** Which lists the search of src/deadlock.rs can report: every list of distinct clients that bites its
    own tail, in some order of the edge list. */
module LassoSearch {
  import opened WaitForGraph
  import opened LockRecords
  import opened CycleSearch

  /** The edge list begins with the first `k` edges of the list. */
  ghost predicate Leading(graph: seq<WaitEdge>, clients: seq<Client>, resources: seq<Resource>, back: nat, k: nat)
    requires |clients| == |resources| > back && k <= |clients|
  {
    && k <= |graph|
    && forall i :: 0 <= i < k ==> EdgeOf(graph[i]) == Edge(clients[i], resources[i], After(clients, back, i))
  }

  function Swapped(graph: seq<WaitEdge>, i: nat, j: nat): seq<WaitEdge>
    requires i <= j < |graph|
  {
    graph[i := graph[j]][j := graph[i]]
  }

  lemma SwappedKeeps(graph: seq<WaitEdge>, i: nat, j: nat)
    requires i <= j < |graph|
    ensures multiset(Swapped(graph, i, j)) == multiset(graph)
  {
  }

  lemma SameEdges(graph: seq<WaitEdge>, graph': seq<WaitEdge>)
    requires multiset(graph) == multiset(graph')
    ensures EdgesOf(graph) == EdgesOf(graph')
  {
    forall e ensures e in graph <==> e in graph' {
      assert e in multiset(graph) <==> e in multiset(graph');
    }
  }

  /** The edges of any list of distinct clients that bites its own tail can be brought to the front. */
  lemma {:induction false} BringForward(graph: seq<WaitEdge>, clients: seq<Client>, resources: seq<Resource>, back: nat, k: nat)
    returns (graph': seq<WaitEdge>)
    requires Unique(clients) && IsLasso(EdgesOf(graph), clients, resources, back) && k <= |clients|
    ensures multiset(graph') == multiset(graph) && Leading(graph', clients, resources, back, k)
    decreases k
  {
    if k == 0 {
      return graph;
    }
    var before := BringForward(graph, clients, resources, back, k - 1);
    SameEdges(graph, before);
    var e := Edge(clients[k - 1], resources[k - 1], After(clients, back, k - 1));
    assert e in EdgesOf(before) by {
      var whole := clients + [clients[back]];
      assert Edge(whole[k - 1], resources[k - 1], whole[k]) in EdgesOf(before);
    }
    var j := PlaceOf(before, clients, resources, back, k - 1, e);
    graph' := Swapped(before, k - 1, j);
    SwappedKeeps(before, k - 1, j);
  }

  lemma PlaceOf(graph: seq<WaitEdge>, clients: seq<Client>, resources: seq<Resource>, back: nat, k: nat, e: Edge)
    returns (j: nat)
    requires |clients| == |resources| > back && k < |clients| && Unique(clients)
    requires Leading(graph, clients, resources, back, k) && e in EdgesOf(graph) && e.waiter == clients[k]
    ensures k <= j < |graph| && EdgeOf(graph[j]) == e
  {
    var x :| x in graph && EdgeOf(x) == e;
    j :| 0 <= j < |graph| && graph[j] == x;
    assert forall i :: 0 <= i < k ==> EdgeOf(graph[i]).waiter == clients[i] != clients[k];
  }

  /** A client's first edge in the list is the first in its adjacency list. */
  lemma {:induction false} ListedFirst(graph: seq<WaitEdge>, i: nat)
    requires i < |graph| && forall j :: 0 <= j < i ==> graph[j].waiter != graph[i].waiter
    ensures Listed(graph, graph[i].waiter) != [] && Listed(graph, graph[i].waiter)[0] == (graph[i].holder, graph[i].resource)
    decreases |graph|
  {
    var front := graph[..|graph| - 1];
    if i < |front| {
      ListedFirst(front, i);
    } else {
      ListedNone(front, graph[i].waiter);
    }
  }

  lemma {:induction false} ListedNone(graph: seq<WaitEdge>, w: Client)
    requires forall j :: 0 <= j < |graph| ==> graph[j].waiter != w
    ensures Listed(graph, w) == []
    decreases |graph|
  {
    if graph != [] { ListedNone(graph[..|graph| - 1], w); }
  }

  lemma LeadingSteers(graph: seq<WaitEdge>, adjacency: Adjacency, clients: seq<Client>, resources: seq<Resource>, back: nat)
    requires |clients| == |resources| > back && Unique(clients)
    requires Leading(graph, clients, resources, back, |clients|) && Grouped(adjacency, graph)
    ensures Steered(adjacency, clients, resources, back)
  {
    hide Listed;
    forall i | 0 <= i < |clients|
      ensures clients[i] in adjacency && adjacency[clients[i]] != [] && adjacency[clients[i]][0] == (After(clients, back, i), resources[i])
    {
      assert forall j :: 0 <= j < i ==> graph[j].waiter == clients[j] != clients[i];
      ListedFirst(graph, i);
    }
  }

  /** With the edges of a list in front, the search from its first client reports that list. */
  method SearchLeading(graph: seq<WaitEdge>, ghost clients: seq<Client>, ghost resources: seq<Resource>, ghost back: nat)
    returns (status: DeadlockStatus)
    requires |clients| == |resources| > back && Unique(clients) && Leading(graph, clients, resources, back, |clients|)
    ensures status == Deadlock(clients, resources)
  {
    var adjacency := BuildAdjacency(graph);
    LeadingSteers(graph, adjacency, clients, resources, back);
    assert EdgeOf(graph[0]).waiter == clients[0];
    status := FindCycle(graph[0].waiter, adjacency, EdgesOf(graph));
  }
}
