/** The records of src/deadlock.rs: held and awaited locks, and the edge list. Instants are
    nanoseconds, TTLs are milliseconds. */
module LockRecords {
  import opened WaitForGraph

  const NANOS_PER_MS: nat := 1_000_000

  type Instant = nat

  datatype LockInfo = LockInfo(resource: Resource, client: Client, timestamp: Instant, ttl: nat)

  datatype WaitEdge = WaitEdge(waiter: Client, holder: Client, resource: Resource, timestamp: Instant)

  /** Elapsed time; an instant in the future has not elapsed at all. */
  function Elapsed(since: Instant, now: Instant): nat {
    if now >= since then now - since else 0
  }

  function ElapsedMs(since: Instant, now: Instant): nat {
    Elapsed(since, now) / NANOS_PER_MS
  }

  predicate Expired(info: LockInfo, now: Instant) {
    Elapsed(info.timestamp, now) > info.ttl * NANOS_PER_MS
  }

  function EdgeOf(e: WaitEdge): Edge {
    Edge(e.waiter, e.resource, e.holder)
  }

  ghost function EdgesOf(graph: seq<WaitEdge>): set<Edge> {
    set e | e in graph :: EdgeOf(e)
  }

  ghost function WaitsOf(waiting: map<Client, seq<LockInfo>>): set<Wait> {
    set w, info | w in waiting && info in waiting[w] :: Wait(w, info.resource)
  }

  predicate Waits(waiting: map<Client, seq<LockInfo>>, c: Client, info: LockInfo) {
    c in waiting && info in waiting[c]
  }

  ghost function HoldersOf(held: map<Resource, LockInfo>): map<Resource, Client> {
    map r | r in held :: held[r].client
  }

  ghost function ViewOf(held: map<Resource, LockInfo>, waiting: map<Client, seq<LockInfo>>, graph: seq<WaitEdge>): View {
    View(HoldersOf(held), WaitsOf(waiting), EdgesOf(graph))
  }

  /** `retain`. */
  function Retain<T(!new)>(s: seq<T>, keep: T -> bool): (r: seq<T>)
    ensures forall x :: x in r <==> x in s && keep(x)
    ensures |r| <= |s|
  {
    if s == [] then []
    else
      assert s == [s[0]] + s[1..];
      (if keep(s[0]) then [s[0]] else []) + Retain(s[1..], keep)
  }

  lemma EdgesOfAppend(graph: seq<WaitEdge>, e: WaitEdge)
    ensures EdgesOf(graph + [e]) == EdgesOf(graph) + {EdgeOf(e)}
  {
    forall x | x in EdgesOf(graph) + {EdgeOf(e)} ensures x in EdgesOf(graph + [e]) {
      if x == EdgeOf(e) {
        assert e in graph + [e];
      } else {
        var f :| f in graph && EdgeOf(f) == x;
        assert f in graph + [e];
      }
    }
  }

  lemma WaitsOfPush(waiting: map<Client, seq<LockInfo>>, c: Client, info: LockInfo)
    ensures
      var known := if c in waiting then waiting[c] else [];
      WaitsOf(waiting[c := known + [info]]) == WaitsOf(waiting) + {Wait(c, info.resource)}
  {
    var known := if c in waiting then waiting[c] else [];
    var after := waiting[c := known + [info]];
    forall w | w in WaitsOf(waiting) + {Wait(c, info.resource)} ensures w in WaitsOf(after) {
      if w == Wait(c, info.resource) {
        assert info in after[c];
      } else {
        var i :| i in waiting[w.waiter] && i.resource == w.resource;
        assert i in after[w.waiter];
      }
    }
  }
}
