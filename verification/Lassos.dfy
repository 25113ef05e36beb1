/** When the list that the depth-first search of src/deadlock.rs reports is the cycle it is
    documented to be, and what that means for the choice of a victim. */
module Lassos {
  import opened WaitForGraph

  ghost predicate OnCycle(edges: set<Edge>, c: Client) {
    exists clients, resources :: IsCycle(edges, clients, resources) && clients[0] == c
  }

  /** Whoever waits for something the client holds is one and the same. */
  ghost predicate OneWaiter(edges: set<Edge>, c: Client) {
    forall e, f :: e in edges && f in edges && e.holder == f.holder == c ==> e.waiter == f.waiter
  }

  /** Cutting out what lies between two visits to a client leaves a shorter cycle. */
  lemma Shortcut(edges: set<Edge>, clients: seq<Client>, resources: seq<Resource>, i: nat, j: nat)
    requires IsCycle(edges, clients, resources) && i < j < |resources| && clients[i] == clients[j]
    ensures IsCycle(edges, clients[..i + 1] + clients[j + 1..], resources[..i] + resources[j..])
  {
    var cs, rs := clients[..i + 1] + clients[j + 1..], resources[..i] + resources[j..];
    forall k | 0 <= k < |rs| ensures Edge(cs[k], rs[k], cs[k + 1]) in edges {
      var m := if k < i then k else k + (j - i);
      assert Edge(clients[m], resources[m], clients[m + 1]) in edges;
    }
  }

  lemma {:induction false} SimpleCycle(edges: set<Edge>, clients: seq<Client>, resources: seq<Resource>)
    returns (cs: seq<Client>, rs: seq<Resource>)
    requires IsCycle(edges, clients, resources)
    ensures Unique(cs) && IsLasso(edges, cs, rs, 0) && cs[0] == clients[0]
    decreases |resources|
  {
    var n := |resources|;
    cs, rs := clients[..n], resources;
    if Unique(cs) {
      assert cs + [cs[0]] == clients;
    } else {
      var i, j :| 0 <= i < j < n && cs[i] == cs[j];
      Shortcut(edges, clients, resources, i, j);
      cs, rs := SimpleCycle(edges, clients[..i + 1] + clients[j + 1..], resources[..i] + resources[j..]);
    }
  }

  /** A waiter from outside a cycle makes a list with a stem. */
  lemma OuterStem(edges: set<Edge>, cs: seq<Client>, rs: seq<Resource>, x: Client, r: Resource)
    requires Unique(cs) && IsLasso(edges, cs, rs, 0) && x !in cs && Edge(x, r, cs[0]) in edges
    ensures Unique([x] + cs) && IsLasso(edges, [x] + cs, [r] + rs, 1)
  {
    var clients, resources := [x] + cs, [r] + rs;
    var whole, cycle := clients + [clients[1]], cs + [cs[0]];
    forall i | 0 <= i < |resources| ensures Edge(whole[i], resources[i], whole[i + 1]) in edges {
      if i > 0 { assert Edge(cycle[i - 1], rs[i - 1], cycle[i]) in edges; }
    }
  }

  /** So does a second way back from within it. */
  lemma InnerStem(edges: set<Edge>, cs: seq<Client>, rs: seq<Resource>, k: nat, r: Resource)
    requires Unique(cs) && IsLasso(edges, cs, rs, 0) && k + 1 < |cs| && Edge(cs[k], r, cs[0]) in edges
    ensures Unique(cs[k + 1..] + cs[..k + 1])
    ensures IsLasso(edges, cs[k + 1..] + cs[..k + 1], rs[k + 1..] + rs[..k] + [r], |cs| - (k + 1))
  {
    var clients, resources, back := cs[k + 1..] + cs[..k + 1], rs[k + 1..] + rs[..k] + [r], |cs| - (k + 1);
    var whole, cycle := clients + [clients[back]], cs + [cs[0]];
    forall i | 0 <= i < |resources| ensures Edge(whole[i], resources[i], whole[i + 1]) in edges {
      if i < back {
        assert Edge(cycle[k + 1 + i], rs[k + 1 + i], cycle[k + 2 + i]) in edges;
      } else if i < |cs| - 1 {
        assert Edge(cycle[i - back], rs[i - back], cycle[i - back + 1]) in edges;
      }
    }
  }

  /** The list is documented as the clients of the cycle. Every list that a search may report is
      that, exactly when each client on a cycle is waited for by one client only. */
  lemma LassoIsCycleIff(edges: set<Edge>)
    ensures (forall clients, resources, back :: Unique(clients) && IsLasso(edges, clients, resources, back) ==> back == 0)
       <==> (forall c :: OnCycle(edges, c) ==> OneWaiter(edges, c))
  {
    if forall c :: OnCycle(edges, c) ==> OneWaiter(edges, c) {
      forall clients: seq<Client>, resources: seq<Resource>, back: nat
        | Unique(clients) && IsLasso(edges, clients, resources, back)
        ensures back == 0
      {
        StemHasTwoWaiters(edges, clients, resources, back);
      }
    } else {
      var c :| OnCycle(edges, c) && !OneWaiter(edges, c);
      var _, _, back := TwoWaitersMakeStem(edges, c);
    }
  }

  lemma StemHasTwoWaiters(edges: set<Edge>, clients: seq<Client>, resources: seq<Resource>, back: nat)
    requires Unique(clients) && IsLasso(edges, clients, resources, back)
    ensures OnCycle(edges, clients[back])
    ensures back > 0 ==> !OneWaiter(edges, clients[back])
  {
    LassoHasCycle(edges, clients, resources, back);
    assert (clients[back..] + [clients[back]])[0] == clients[back];
    if back > 0 {
      var whole, n := clients + [clients[back]], |clients|;
      assert Edge(whole[back - 1], resources[back - 1], whole[back]) in edges;
      assert Edge(whole[n - 1], resources[n - 1], whole[n]) in edges;
    }
  }

  lemma TwoWaitersMakeStem(edges: set<Edge>, c: Client)
    returns (clients: seq<Client>, resources: seq<Resource>, back: nat)
    requires OnCycle(edges, c) && !OneWaiter(edges, c)
    ensures back > 0 && Unique(clients) && IsLasso(edges, clients, resources, back)
  {
    var cs0, rs0 :| IsCycle(edges, cs0, rs0) && cs0[0] == c;
    var cs, rs := SimpleCycle(edges, cs0, rs0);
    var e, f :| e in edges && f in edges && e.holder == f.holder == c && e.waiter != f.waiter;
    var d := if e.waiter == cs[|cs| - 1] then f else e;
    assert d == Edge(d.waiter, d.resource, cs[0]);
    if d.waiter in cs {
      var k :| 0 <= k < |cs| && cs[k] == d.waiter;
      InnerStem(edges, cs, rs, k, d.resource);
      return cs[k + 1..] + cs[..k + 1], rs[k + 1..] + rs[..k] + [d.resource], |cs| - (k + 1);
    } else {
      OuterStem(edges, cs, rs, d.waiter, d.resource);
      return [d.waiter] + cs, [d.resource] + rs, 1;
    }
  }

  // ----- victims -------------------------------------------------------------------------------

  /** Releasing a client of the stem leaves the reported cycle standing. */
  lemma StemVictimLeavesCycle(v: View, clients: seq<Client>, resources: seq<Resource>, back: nat, k: nat)
    requires Sound(v) && Unique(clients) && IsLasso(v.edges, clients, resources, back) && k < back
    ensures IsCycle(ForceReleased(v, clients[k]).edges, clients[back..] + [clients[back]], resources[back..])
  {
    LassoHasCycle(v.edges, clients, resources, back);
    var loop, labels := clients[back..] + [clients[back]], resources[back..];
    forall i | 0 <= i < |labels| ensures Edge(loop[i], labels[i], loop[i + 1]) in ForceReleased(v, clients[k]).edges {
      var e := Edge(loop[i], labels[i], loop[i + 1]);
      assert e in v.edges && Holds(v, e.holder, e.resource);
      assert loop[i] in clients[back..] && loop[i + 1] in clients[back..];
    }
  }

  /** Releasing a client of the cycle breaks it. */
  lemma CycleVictimBreaksCycle(v: View, clients: seq<Client>, resources: seq<Resource>, k: nat)
    requires IsCycle(v.edges, clients, resources) && k < |resources|
    ensures !IsCycle(ForceReleased(v, clients[k]).edges, clients, resources)
  {
    var e := Edge(clients[k], resources[k], clients[k + 1]);
    assert e.waiter == clients[k];
  }
}
