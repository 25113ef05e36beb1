/** The wait-for graph of src/deadlock.rs at the level of sets: who holds what, who waits for
    what, and the edges kept as an index over the two. */
module WaitForGraph {

  type Client = string
  type Resource = string

  datatype Wait = Wait(waiter: Client, resource: Resource)
  datatype Edge = Edge(waiter: Client, resource: Resource, holder: Client)

  datatype View = View(holder: map<Resource, Client>, waits: set<Wait>, edges: set<Edge>)

  const EMPTY := View(map[], {}, {})

  // ----- the local steps ----------------------------------------------------------------

  /** record_lock_acquired: the acquirer holds the resource and no longer waits for it; every
      other waiter for it, known by an edge or by the waiting map, now waits for the acquirer. */
  ghost function Acquired(v: View, r: Resource, c: Client): View {
    var waits := v.waits - {Wait(c, r)};
    View(v.holder[r := c], waits,
         (set e | e in v.edges && e.resource != r)
         + (set e | e in v.edges && e.resource == r && e.waiter != c :: Edge(e.waiter, r, c))
         + (set w | w in waits && w.resource == r && w.waiter != c :: Edge(w.waiter, r, c)))
  }

  /** record_lock_released: nothing happens unless the caller is the current holder. */
  ghost function Released(v: View, r: Resource, c: Client): View {
    if r in v.holder && v.holder[r] == c
    then View(v.holder - {r}, v.waits, set e | e in v.edges && !(e.resource == r && e.holder == c))
    else v
  }

  ghost function Waited(v: View, r: Resource, c: Client): View {
    View(v.holder, v.waits + {Wait(c, r)},
         if r in v.holder then v.edges + {Edge(c, r, v.holder[r])} else v.edges)
  }

  ghost function GaveUp(v: View, c: Client): View {
    View(v.holder, set w | w in v.waits && w.waiter != c, set e | e in v.edges && e.waiter != c)
  }

  /** release_client_locks: the victim loses every lock and every wait, and the waits for what
      it held go too. */
  ghost function ForceReleased(v: View, c: Client): View {
    View(map r | r in v.holder && v.holder[r] != c :: v.holder[r],
         set w | w in v.waits && w.waiter != c && !Holds(v, c, w.resource),
         set e | e in v.edges && e.waiter != c && e.holder != c && !Holds(v, c, e.resource))
  }

  predicate Holds(v: View, c: Client, r: Resource) {
    r in v.holder && v.holder[r] == c
  }

  datatype Step =
    | Acquire(resource: Resource, client: Client)
    | Release(resource: Resource, client: Client)
    | StartWait(resource: Resource, client: Client)
    | GiveUp(client: Client)
    | ForceRelease(client: Client)

  ghost function Next(v: View, step: Step): View {
    match step
    case Acquire(r, c) => Acquired(v, r, c)
    case Release(r, c) => Released(v, r, c)
    case StartWait(r, c) => Waited(v, r, c)
    case GiveUp(c) => GaveUp(v, c)
    case ForceRelease(c) => ForceReleased(v, c)
  }

  ghost function Run(v: View, steps: seq<Step>): View
    decreases |steps|
  {
    if steps == [] then v else Run(Next(v, steps[0]), steps[1..])
  }

  // ----- the index invariant -------------------------------------------------------------

  /** The edges are exactly the join of the waits with the holders. */
  ghost predicate Indexed(v: View) {
    forall e :: e in v.edges <==> Wait(e.waiter, e.resource) in v.waits && Holds(v, e.holder, e.resource)
  }

  /** Every edge names the client that really holds the resource. */
  ghost predicate Sound(v: View) {
    forall e :: e in v.edges ==> Holds(v, e.holder, e.resource)
  }

  lemma NextKeepsIndexed(v: View, step: Step)
    requires Indexed(v)
    ensures Indexed(Next(v, step))
  {
    match step
    case Acquire(r, c) => AcquiredKeepsIndexed(v, r, c);
    case Release(r, c) =>
    case StartWait(r, c) =>
    case GiveUp(c) =>
    case ForceRelease(c) =>
  }

  lemma AcquiredKeepsIndexed(v: View, r: Resource, c: Client)
    requires Indexed(v)
    ensures Indexed(Acquired(v, r, c))
  {
    var v' := Acquired(v, r, c);
    forall e ensures e in v'.edges <==> Wait(e.waiter, e.resource) in v'.waits && Holds(v', e.holder, e.resource) {
      if e.resource == r {
        if Wait(e.waiter, r) in v'.waits && e.holder == c {
          assert Edge(Wait(e.waiter, r).waiter, r, c) in v'.edges;
        }
      }
    }
  }

  lemma NextKeepsSound(v: View, step: Step)
    requires Sound(v)
    ensures Sound(Next(v, step))
  {
  }

  /** In every run of local steps from an empty detector the incrementally kept edges are
      exactly the join of the two plain maps. */
  lemma {:induction false} RunIsIndexed(v: View, steps: seq<Step>)
    requires Indexed(v)
    ensures Indexed(Run(v, steps))
    decreases |steps|
  {
    if steps != [] {
      NextKeepsIndexed(v, steps[0]);
      RunIsIndexed(Next(v, steps[0]), steps[1..]);
    }
  }

  // ----- cycles -----------------------------------------------------------------------------

  /** `clients[i]` waits for `resources[i]`, held by `clients[i + 1]`. */
  ghost predicate IsWalk(edges: set<Edge>, clients: seq<Client>, resources: seq<Resource>) {
    && |clients| == |resources| + 1
    && forall i :: 0 <= i < |resources| ==> Edge(clients[i], resources[i], clients[i + 1]) in edges
  }

  ghost predicate IsCycle(edges: set<Edge>, clients: seq<Client>, resources: seq<Resource>) {
    IsWalk(edges, clients, resources) && |resources| > 0 && clients[0] == clients[|resources|]
  }

  ghost predicate Unique(clients: seq<Client>) {
    forall i, j :: 0 <= i < j < |clients| ==> clients[i] != clients[j]
  }

  ghost predicate HasCycle(edges: set<Edge>) {
    exists clients, resources :: IsCycle(edges, clients, resources)
  }

  /** A circular wait read off the two plain maps, with no graph in sight. */
  ghost predicate IsCircularWait(v: View, clients: seq<Client>, resources: seq<Resource>) {
    && |clients| == |resources| + 1 && |resources| > 0 && clients[0] == clients[|resources|]
    && forall i :: 0 <= i < |resources| ==>
      Wait(clients[i], resources[i]) in v.waits && Holds(v, clients[i + 1], resources[i])
  }

  ghost predicate CircularWait(v: View) {
    exists clients, resources :: IsCircularWait(v, clients, resources)
  }

  lemma IndexedCycles(v: View)
    requires Indexed(v)
    ensures HasCycle(v.edges) <==> CircularWait(v)
  {
    forall clients: seq<Client>, resources: seq<Resource>
      ensures IsCycle(v.edges, clients, resources) <==> IsCircularWait(v, clients, resources)
    {
      if IsCycle(v.edges, clients, resources) {
        forall i | 0 <= i < |resources|
          ensures Wait(clients[i], resources[i]) in v.waits && Holds(v, clients[i + 1], resources[i])
        {
          assert Edge(clients[i], resources[i], clients[i + 1]) in v.edges;
        }
      }
    }
  }

  /** What the depth-first search reports: a walk whose last edge comes back to a client that is
      already on it. The clients before `back` are a stem and need not be on any cycle. */
  ghost predicate IsLasso(edges: set<Edge>, clients: seq<Client>, resources: seq<Resource>, back: nat) {
    && |clients| == |resources| > back
    && IsWalk(edges, clients + [clients[back]], resources)
  }

  ghost predicate Lasso(edges: set<Edge>, clients: seq<Client>, resources: seq<Resource>) {
    exists back :: IsLasso(edges, clients, resources, back)
  }

  lemma LassoHasCycle(edges: set<Edge>, clients: seq<Client>, resources: seq<Resource>, back: nat)
    requires IsLasso(edges, clients, resources, back)
    ensures IsCycle(edges, clients[back..] + [clients[back]], resources[back..])
    ensures HasCycle(edges)
  {
    var loop, labels := clients[back..] + [clients[back]], resources[back..];
    var whole := clients + [clients[back]];
    forall i | 0 <= i < |labels| ensures Edge(loop[i], labels[i], loop[i + 1]) in edges {
      assert loop[i] == whole[back + i] && loop[i + 1] == whole[back + i + 1];
      assert Edge(whole[back + i], resources[back + i], whole[back + i + 1]) in edges;
    }
    assert IsCycle(edges, loop, labels);
  }

  /** Every client waits for one resource at most. */
  ghost predicate SingleWait(edges: set<Edge>) {
    forall e, f :: e in edges && f in edges && e.waiter == f.waiter ==> e == f
  }

  function LassoIndex(n: nat, back: nat, k: nat): (p: nat)
    requires back < n
    ensures p < n && (k > 0 && back > 0 ==> p > 0)
  {
    if k == 0 then 0
    else var p := LassoIndex(n, back, k - 1); if p + 1 < n then p + 1 else back
  }

  lemma {:induction false} WalkFollowsLasso(edges: set<Edge>, clients: seq<Client>, resources: seq<Resource>, back: nat,
                                            cs: seq<Client>, rs: seq<Resource>, k: nat)
    requires SingleWait(edges) && IsLasso(edges, clients, resources, back)
    requires IsWalk(edges, cs, rs) && k <= |rs| && cs[0] == clients[0]
    ensures cs[k] == clients[LassoIndex(|clients|, back, k)]
  {
    if k > 0 {
      WalkFollowsLasso(edges, clients, resources, back, cs, rs, k - 1);
      var p := LassoIndex(|clients|, back, k - 1);
      var whole := clients + [clients[back]];
      assert Edge(whole[p], resources[p], whole[p + 1]) in edges;
      assert Edge(cs[k - 1], rs[k - 1], cs[k]) in edges;
    }
  }

  /** When every client waits for one resource at most, the reported list is the cycle exactly when
      the search started on one. */
  lemma SingleWaitLasso(edges: set<Edge>, clients: seq<Client>, resources: seq<Resource>, back: nat)
    requires SingleWait(edges) && IsLasso(edges, clients, resources, back) && Unique(clients)
    ensures back == 0 <==> exists cs, rs :: IsCycle(edges, cs, rs) && cs[0] == clients[0]
  {
    if back == 0 {
      LassoHasCycle(edges, clients, resources, back);
      assert clients[0..] == clients;
    } else {
      forall cs: seq<Client>, rs: seq<Resource> | IsCycle(edges, cs, rs) && cs[0] == clients[0] ensures false {
        WalkFollowsLasso(edges, clients, resources, back, cs, rs, |rs|);
      }
    }
  }

  // ----- finishing orders ------------------------------------------------------------------

  /** Every edge out of a listed client leads to one listed before it. */
  ghost predicate Finished(edges: set<Edge>, done: seq<Client>) {
    forall e, i {:trigger e in edges, done[i]} :: e in edges && 0 <= i < |done| && done[i] == e.waiter
      ==> e.holder in done[..i]
  }

  lemma {:induction false} WalkDescends(edges: set<Edge>, done: seq<Client>, i: nat, clients: seq<Client>, resources: seq<Resource>)
    requires Finished(edges, done) && i < |done| && IsWalk(edges, clients, resources)
    requires |resources| > 0 && clients[0] == done[i]
    ensures exists j :: 0 <= j < i && done[j] == clients[|resources|]
    decreases |resources|
  {
    assert Edge(clients[0], resources[0], clients[1]) in edges;
    var j :| 0 <= j < i && done[j] == clients[1];
    if |resources| > 1 {
      var rest, labels := clients[1..], resources[1..];
      forall k | 0 <= k < |labels| ensures Edge(rest[k], labels[k], rest[k + 1]) in edges {
        assert Edge(clients[k + 1], resources[k + 1], clients[k + 2]) in edges;
      }
      WalkDescends(edges, done, j, rest, labels);
    }
  }

  /** A client in a finishing order is on no cycle. */
  lemma {:induction false} FinishedIsAcyclic(edges: set<Edge>, done: seq<Client>, i: nat, clients: seq<Client>, resources: seq<Resource>)
    requires Finished(edges, done) && i < |done| && clients != [] && clients[0] == done[i]
    ensures !IsCycle(edges, clients, resources)
    decreases i
  {
    if IsCycle(edges, clients, resources) {
      WalkDescends(edges, done, i, clients, resources);
      var j :| 0 <= j < i && done[j] == clients[|resources|];
      FinishedIsAcyclic(edges, done, j, clients, resources);
    }
  }

  lemma WalkSegment(edges: set<Edge>, clients: seq<Client>, resources: seq<Resource>, a: nat, b: nat)
    requires IsWalk(edges, clients, resources) && a <= b <= |resources|
    ensures IsWalk(edges, clients[a..b + 1], resources[a..b])
  {
    var cs, rs := clients[a..b + 1], resources[a..b];
    forall i | 0 <= i < |rs| ensures Edge(cs[i], rs[i], cs[i + 1]) in edges {
      assert Edge(clients[a + i], resources[a + i], clients[a + i + 1]) in edges;
    }
  }

  /** No walk from a finished client visits any client twice: no cycle can be reached from it. */
  lemma FinishedWalksOnce(edges: set<Edge>, done: seq<Client>, i: nat, clients: seq<Client>, resources: seq<Resource>)
    requires Finished(edges, done) && i < |done| && IsWalk(edges, clients, resources) && clients[0] == done[i]
    ensures Unique(clients)
  {
    forall a: nat, b: nat | a < b < |clients| ensures clients[a] != clients[b] {
      if clients[a] == clients[b] {
        var j := i;
        if a > 0 {
          WalkSegment(edges, clients, resources, 0, a);
          WalkDescends(edges, done, i, clients[..a + 1], resources[..a]);
          j :| 0 <= j < i && done[j] == clients[a];
        }
        WalkSegment(edges, clients, resources, a, b);
        FinishedIsAcyclic(edges, done, j, clients[a..b + 1], resources[a..b]);
        assert false;
      }
    }
  }
}
