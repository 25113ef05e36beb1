/** Cross-process snapshots of src/deadlock.rs at the level of sets: what a peer learns from an
    export, what a merge makes of it, and why two processes that exchange snapshots agree. */
module SnapshotMerge {
  import opened WaitForGraph

  /** A peer's snapshot: its live holds, its edges, and its waits without an edge. */
  datatype Remote = Remote(holds: map<Resource, Client>, edges: set<Edge>, orphans: set<Wait>)

  ghost predicate HasEdge(edges: set<Edge>, w: Wait) {
    exists e :: e in edges && e.waiter == w.waiter && e.resource == w.resource
  }

  /** export_from_maps. */
  ghost function Exported(v: View): Remote {
    Remote(v.holder, v.edges, set w | w in v.waits && !HasEdge(v.edges, w))
  }

  /** The edge with its holder corrected to the known one. */
  function Fix(holder: map<Resource, Client>, e: Edge): Edge {
    if e.resource in holder then Edge(e.waiter, e.resource, holder[e.resource]) else e
  }

  ghost function Fixed(holder: map<Resource, Client>, edges: set<Edge>): set<Edge> {
    set e | e in edges && Fix(holder, e).holder != e.waiter :: Fix(holder, e)
  }

  /** Waits joined with holders, self-waits left out. */
  ghost function Join(holder: map<Resource, Client>, waits: set<Wait>): set<Edge> {
    set w | w in waits && w.resource in holder && holder[w.resource] != w.waiter
      :: Edge(w.waiter, w.resource, holder[w.resource])
  }

  ghost function WaitsBehind(edges: set<Edge>): set<Wait> {
    set e | e in edges :: Wait(e.waiter, e.resource)
  }

  ghost function UnheldOf(holder: map<Resource, Client>, waits: set<Wait>): set<Wait> {
    set w | w in waits && w.resource !in holder
  }

  /** Steps 3 and 4 of merge_snapshot: the wait entries added for edges not known before. */
  ghost function MergedWaits(holder: map<Resource, Client>, v: View, s: Remote): set<Wait> {
    v.waits
    + WaitsBehind(Fixed(holder, s.edges) - Fixed(holder, v.edges))
    + WaitsBehind(Join(holder, s.orphans) - (Fixed(holder, v.edges) + Fixed(holder, s.edges)))
    + UnheldOf(holder, s.orphans)
  }

  /** merge_snapshot: local ownership wins, every edge is corrected to the known holder,
      self-waits go, and every wait for a held resource has its edge. */
  ghost function Merged(v: View, s: Remote): View {
    var holder := s.holds + v.holder;
    var waits := MergedWaits(holder, v, s);
    View(holder, waits,
         Fixed(holder, v.edges) + Fixed(holder, s.edges) + Join(holder, s.orphans) + Join(holder, waits))
  }

  // ----- merging twice ------------------------------------------------------------------------

  ghost predicate Settled(holder: map<Resource, Client>, edges: set<Edge>) {
    forall e :: e in edges ==> Fix(holder, e) == e && e.holder != e.waiter
  }

  lemma SettledIsFixed(holder: map<Resource, Client>, edges: set<Edge>)
    requires Settled(holder, edges)
    ensures Fixed(holder, edges) == edges
  {
  }

  lemma MergedIsSettled(v: View, s: Remote)
    ensures Settled(Merged(v, s).holder, Merged(v, s).edges)
  {
  }

  /** Merging the same snapshot again changes nothing, from any state and for any snapshot. */
  lemma MergeIdempotent(v: View, s: Remote)
    ensures Merged(Merged(v, s), s) == Merged(v, s)
  {
    var m := Merged(v, s);
    var holder := s.holds + m.holder;
    assert holder == m.holder;
    MergedIsSettled(v, s);
    SettledIsFixed(holder, m.edges);
    assert WaitsBehind(Fixed(holder, s.edges) - m.edges) == {};
    assert WaitsBehind(Join(holder, s.orphans) - (m.edges + Fixed(holder, s.edges))) == {};
    assert MergedWaits(holder, m, s) == m.waits;
    assert Merged(m, s).edges == m.edges;
  }

  // ----- two processes ------------------------------------------------------------------------

  ghost predicate HoldsAgree(v1: View, v2: View) {
    forall r :: r in v1.holder && r in v2.holder ==> v1.holder[r] == v2.holder[r]
  }

  ghost function JointHolder(v1: View, v2: View): map<Resource, Client> {
    v1.holder + v2.holder
  }

  /** An indexed view's edges and orphans together carry all its waits. */
  lemma ExportCarriesWaits(v: View, holder: map<Resource, Client>)
    requires Indexed(v) && forall r :: r in v.holder ==> r in holder && holder[r] == v.holder[r]
    ensures Fixed(holder, v.edges) + Join(holder, Exported(v).orphans) == Join(holder, v.waits)
  {
    var both := Fixed(holder, v.edges) + Join(holder, Exported(v).orphans);
    forall x | x in Join(holder, v.waits) ensures x in both {
      var w :| w in v.waits && w.resource in holder && holder[w.resource] != w.waiter
        && x == Edge(w.waiter, w.resource, holder[w.resource]);
      if HasEdge(v.edges, w) {
        var e :| e in v.edges && e.waiter == w.waiter && e.resource == w.resource;
        assert Fix(holder, e) == x;
      }
    }
    forall x | x in both ensures x in Join(holder, v.waits) {
      if x in Fixed(holder, v.edges) {
        var e :| e in v.edges && Fix(holder, e).holder != e.waiter && x == Fix(holder, e);
        assert Wait(e.waiter, e.resource) in v.waits;
      }
    }
  }

  lemma JoinUnion(holder: map<Resource, Client>, a: set<Wait>, b: set<Wait>)
    ensures Join(holder, a + b) == Join(holder, a) + Join(holder, b)
  {
    forall x | x in Join(holder, a) + Join(holder, b) ensures x in Join(holder, a + b) {
      var w :| (w in a || w in b) && w.resource in holder && holder[w.resource] != w.waiter
        && x == Edge(w.waiter, w.resource, holder[w.resource]);
      assert w in a + b;
    }
  }

  /** What a merge adds to the waits joins to nothing but edges it already has. */
  lemma MergedWaitsJoin(holder: map<Resource, Client>, v: View, s: Remote)
    requires forall r :: r in s.holds ==> r in holder
    requires forall e :: e in s.edges ==> e.resource in s.holds
    ensures Join(holder, MergedWaits(holder, v, s))
         <= Join(holder, v.waits) + Fixed(holder, s.edges) + Join(holder, s.orphans)
    ensures Join(holder, v.waits) <= Join(holder, MergedWaits(holder, v, s))
  {
    forall x | x in Join(holder, v.waits) ensures x in Join(holder, MergedWaits(holder, v, s)) {
      var w :| w in v.waits && w.resource in holder && holder[w.resource] != w.waiter
        && x == Edge(w.waiter, w.resource, holder[w.resource]);
      assert w in MergedWaits(holder, v, s);
    }
  }

  /** Merging the export of an indexed peer into an indexed view yields the join of everything
      the two know. */
  lemma MergeJoins(v1: View, v2: View)
    requires Indexed(v1) && Indexed(v2) && HoldsAgree(v1, v2)
    ensures Merged(v1, Exported(v2)).holder == JointHolder(v1, v2)
    ensures Merged(v1, Exported(v2)).edges == Join(JointHolder(v1, v2), v1.waits + v2.waits)
  {
    var s := Exported(v2);
    var holder := s.holds + v1.holder;
    assert holder == JointHolder(v1, v2);
    ExportCarriesWaits(v1, holder);
    ExportCarriesWaits(v2, holder);
    JoinUnion(holder, v1.waits, v2.waits);
    assert forall e :: e in v2.edges ==> Holds(v2, e.holder, e.resource);
    MergedWaitsJoin(holder, v1, s);
  }

  /** Two processes that export first and then merge each other's snapshot end with the same
      holders and the same edges. */
  lemma MutualMergeAgrees(v1: View, v2: View)
    requires Indexed(v1) && Indexed(v2) && HoldsAgree(v1, v2)
    ensures Merged(v1, Exported(v2)).holder == Merged(v2, Exported(v1)).holder
    ensures Merged(v1, Exported(v2)).edges == Merged(v2, Exported(v1)).edges
  {
    MergeJoins(v1, v2);
    MergeJoins(v2, v1);
    assert JointHolder(v1, v2) == JointHolder(v2, v1);
    assert v1.waits + v2.waits == v2.waits + v1.waits;
  }

  /** A circular wait over the two processes' maps taken together, in which nobody waits for
      itself. */
  ghost predicate SpanningWait(v1: View, v2: View, clients: seq<Client>, resources: seq<Resource>) {
    && IsCircularWait(View(JointHolder(v1, v2), v1.waits + v2.waits, {}), clients, resources)
    && forall i :: 0 <= i < |resources| ==> clients[i] != clients[i + 1]
  }

  /** After the exchange both processes see a cycle exactly when one spans them. */
  lemma SpanningCycles(v1: View, v2: View)
    requires Indexed(v1) && Indexed(v2) && HoldsAgree(v1, v2)
    ensures HasCycle(Merged(v1, Exported(v2)).edges)
       <==> exists clients, resources :: SpanningWait(v1, v2, clients, resources)
  {
    MergeJoins(v1, v2);
    var edges := Merged(v1, Exported(v2)).edges;
    var joint := View(JointHolder(v1, v2), v1.waits + v2.waits, {});
    forall clients: seq<Client>, resources: seq<Resource>
      ensures IsCycle(edges, clients, resources) <==> SpanningWait(v1, v2, clients, resources)
    {
      if SpanningWait(v1, v2, clients, resources) {
        forall i | 0 <= i < |resources| ensures Edge(clients[i], resources[i], clients[i + 1]) in edges {
          assert Wait(clients[i], resources[i]) in joint.waits;
        }
      }
      if IsCycle(edges, clients, resources) {
        forall i | 0 <= i < |resources|
          ensures Wait(clients[i], resources[i]) in joint.waits && Holds(joint, clients[i + 1], resources[i])
          ensures clients[i] != clients[i + 1]
        {
          assert Edge(clients[i], resources[i], clients[i + 1]) in edges;
        }
      }
    }
  }
}
