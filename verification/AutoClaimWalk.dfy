/** The claiming walk of XAUTOCLAIM in src/stream_type.rs, on one group. */
module AutoClaimWalks {
  import opened Basics
  import opened StreamIds
  import opened ConsumerGroups

  /** The fixed arguments of a scan. */
  datatype Scan = Scan(consumer: Name, minIdle: nat, count: nat, justId: bool, now: nat)

  function Opts(p: Scan): ClaimOpts {
    ClaimOpts(p.minIdle, false, p.now, -1, p.justId)
  }

  datatype Result = Result(group: Group, next: Id, claimed: seq<Id>, deleted: seq<Id>)

  /** Pending IDs from the cursor on that are orphaned or have been idle long enough. */
  function Candidates(g: Group, live: set<Id>, p: Scan, start: Id): set<Id> {
    set id | id in g.pending && AtMost(start, id) && (id !in live || Idle(p.now, g.pending[id].time) >= p.minIdle)
  }

  /** State of the claiming loop. */
  datatype Walk = Walk(group: Group, claimed: seq<Id>, deleted: seq<Id>, last: Option<Id>)

  /** The rest of the claiming loop over the candidates still to be seen. */
  function Walked(w: Walk, live: set<Id>, p: Scan, ids: seq<Id>): Walk
    decreases |ids|
  {
    if ids == [] then w
    else
      var id, rest := ids[0], ids[1..];
      if id !in live then
        var deleted := if id in w.group.pending then w.deleted + [id] else w.deleted;
        Walked(Walk(DropPending(w.group, id), w.claimed, deleted, Some(id)), live, p, rest)
      else if |w.claimed| >= p.count then w.(last := Some(id))
      else
        var claimed := if Claimable(w.group, true, id, p.now, Opts(p)) then w.claimed + [id] else w.claimed;
        var w' := Walk(ClaimOne(w.group, true, p.consumer, id, p.now, Opts(p)), claimed, w.deleted, Some(id));
        if |claimed| >= p.count then w' else Walked(w', live, p, rest)
  }

  /** The first pending ID after the last one examined, or zero. */
  function CursorAfter(g: Group, last: Option<Id>): Id {
    if last.None? then ZERO
    else
      var ahead := From(g.pending.Keys, NextId(last.value));
      if ahead == {} then ZERO else Least(ahead)
  }

  function Claimed(g: Group, live: set<Id>, p: Scan, start: Id): Result {
    var w := Walked(Walk(g, [], [], None), live, p, InOrder(Candidates(g, live, p, start)));
    Result(w.group, CursorAfter(w.group, w.last), w.claimed, w.deleted)
  }

  /** A call keeps the group's invariant and its counters, orphans or not. */
  lemma {:induction false} WalkedKeeps(live: set<Id>, w: Walk, p: Scan, ids: seq<Id>)
    requires Registered(w.group)
    ensures Registered(Walked(w, live, p, ids).group)
    ensures Counted(w.group) ==> Counted(Walked(w, live, p, ids).group)
    ensures w.group.pending.Keys <= live ==> Walked(w, live, p, ids).group.pending.Keys <= live
    decreases |ids|
  {
    hide Counted, Registered;
    if ids != [] {
      var id, rest := ids[0], ids[1..];
      DropPendingCounts(w.group, id);
      ClaimOneCounts(w.group, true, p.consumer, id, p.now, Opts(p));
      if id !in live {
        var deleted := if id in w.group.pending then w.deleted + [id] else w.deleted;
        WalkedKeeps(live, Walk(DropPending(w.group, id), w.claimed, deleted, Some(id)), p, rest);
      } else {
        var claimed := if Claimable(w.group, true, id, p.now, Opts(p)) then w.claimed + [id] else w.claimed;
        WalkedKeeps(live, Walk(ClaimOne(w.group, true, p.consumer, id, p.now, Opts(p)), claimed, w.deleted, Some(id)), p, rest);
      }
    }
  }

  /** A call does not move the group's cursor. */
  lemma {:induction false} WalkedCursor(w: Walk, live: set<Id>, p: Scan, ids: seq<Id>)
    ensures Walked(w, live, p, ids).group.last == w.group.last
    decreases |ids|
  {
    if ids != [] {
      var id, rest := ids[0], ids[1..];
      if id !in live {
        var deleted := if id in w.group.pending then w.deleted + [id] else w.deleted;
        WalkedCursor(Walk(DropPending(w.group, id), w.claimed, deleted, Some(id)), live, p, rest);
      } else {
        var claimed := if Claimable(w.group, true, id, p.now, Opts(p)) then w.claimed + [id] else w.claimed;
        WalkedCursor(Walk(ClaimOne(w.group, true, p.consumer, id, p.now, Opts(p)), claimed, w.deleted, Some(id)), live, p, rest);
      }
    }
  }
}
