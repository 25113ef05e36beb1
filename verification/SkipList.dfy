/** The span skiplist of src/sorted_set.rs: an arena of nodes with a free list, per-level
    forward links, and spans that count level-0 steps. */
module SkipLists {
  import opened Basics
  import opened ScoreOrder
  import opened SkipLevels

  const MAX_LEVEL: nat := 32

  datatype SkipNode = SkipNode(key: Option<ScoreKey>, forward: seq<Option<nat>>, span: seq<nat>)

  function NewNode(key: Option<ScoreKey>, level: nat): SkipNode {
    SkipNode(key, seq(level, i => None), seq(level, i => 0))
  }

  ghost function CellOf(node: SkipNode, i: nat): Cell {
    if i < |node.forward| && i < |node.span| then Cell(true, node.forward[i], node.span[i]) else Cell(false, None, 0)
  }

  ghost predicate InArena(nodes: seq<SkipNode>, order: seq<nat>) {
    forall j :: 0 <= j < |order| ==> order[j] < |nodes|
  }

  ghost function View(nodes: seq<SkipNode>, order: seq<nat>, i: nat): (view: seq<Cell>)
    requires InArena(nodes, order)
    ensures |view| == |order|
    ensures forall j :: 0 <= j < |view| ==> view[j] == CellOf(nodes[order[j]], i)
  {
    seq(|order|, j requires 0 <= j < |order| => CellOf(nodes[order[j]], i))
  }

  ghost predicate Distinct(s: seq<nat>) {
    forall j, k :: 0 <= j < k < |s| ==> s[j] != s[k]
  }

  ghost predicate Disjoint(s: seq<nat>, t: seq<nat>) {
    forall j, k :: 0 <= j < |s| && 0 <= k < |t| ==> s[j] != t[k]
  }

  /** Every arena slot is either listed or free, and no slot is both or twice: nothing leaks
      and nothing is reused while still linked. */
  ghost predicate Arena(nodes: seq<SkipNode>, order: seq<nat>, free: seq<nat>) {
    && |order| >= 1 && order[0] == 0
    && InArena(nodes, order) && InArena(nodes, free)
    && Distinct(order) && Distinct(free) && Disjoint(order, free)
    && |order| + |free| == |nodes|
  }

  ghost predicate Tower(node: SkipNode, low: nat, high: nat) {
    low <= |node.forward| == |node.span| <= high
  }

  /** The head has every level; other nodes stay at or below the list's top level, above which
      the head links to nothing. */
  ghost predicate Grounded(nodes: seq<SkipNode>, order: seq<nat>, level: nat)
    requires |order| >= 1 && order[0] == 0 && InArena(nodes, order)
  {
    && level < MAX_LEVEL
    && Tower(nodes[0], MAX_LEVEL, MAX_LEVEL)
    && (forall j :: 1 <= j < |order| ==> Tower(nodes[order[j]], 1, level + 1))
    && (forall i :: level < i < MAX_LEVEL ==> nodes[0].forward[i] == None)
  }

  ghost predicate Towers(nodes: seq<SkipNode>, order: seq<nat>, level: nat)
    requires |order| >= 1 && order[0] == 0 && InArena(nodes, order)
  {
    Grounded(nodes, order, level) && (level > 0 ==> nodes[0].forward[level].Some?)
  }

  ghost predicate Levels(nodes: seq<SkipNode>, order: seq<nat>, level: nat)
    requires InArena(nodes, order)
  {
    forall i :: 0 <= i <= level ==> LevelOk(order, View(nodes, order, i))
  }

  ghost predicate ExactLevels(nodes: seq<SkipNode>, order: seq<nat>, level: nat)
    requires InArena(nodes, order)
  {
    forall i :: 0 <= i <= level ==> ExactLevel(View(nodes, order, i))
  }

  ghost predicate Keyed(nodes: seq<SkipNode>, order: seq<nat>, keys: seq<ScoreKey>)
    requires InArena(nodes, order)
  {
    && |keys| + 1 == |order|
    && nodes[order[0]].key == None
    && forall j :: 1 <= j < |order| ==> nodes[order[j]].key == Some(keys[j - 1])
  }

  function WithLink(nodes: seq<SkipNode>, x: nat, i: nat, next: Option<nat>, span: nat): (r: seq<SkipNode>)
    requires x < |nodes| && i < |nodes[x].forward| && i < |nodes[x].span|
    ensures |r| == |nodes|
  {
    nodes[x := nodes[x].(forward := nodes[x].forward[i := next], span := nodes[x].span[i := span])]
  }

  /** Writing one link changes one cell of one level. */
  lemma ViewWithLink(nodes: seq<SkipNode>, order: seq<nat>, x: nat, i: nat, next: Option<nat>, span: nat, l: nat)
    requires InArena(nodes, order) && x < |nodes| && i < |nodes[x].forward| == |nodes[x].span|
    ensures InArena(WithLink(nodes, x, i, next, span), order)
    ensures l != i || x !in order ==>
      View(WithLink(nodes, x, i, next, span), order, l) == View(nodes, order, l)
  {
  }

  lemma ViewWithLinkAt(nodes: seq<SkipNode>, order: seq<nat>, r: nat, i: nat, next: Option<nat>, span: nat)
    requires InArena(nodes, order) && Distinct(order) && r < |order|
    requires i < |nodes[order[r]].forward| == |nodes[order[r]].span|
    ensures InArena(WithLink(nodes, order[r], i, next, span), order)
    ensures View(WithLink(nodes, order[r], i, next, span), order, i)
         == View(nodes, order, i)[r := Cell(true, next, span)]
  {
  }

  lemma ViewSplice(nodes: seq<SkipNode>, order: seq<nat>, p: nat, idx: nat, l: nat)
    requires InArena(nodes, order) && p < |order| && idx < |nodes|
    ensures InArena(nodes, Splice(order, p, idx))
    ensures View(nodes, Splice(order, p, idx), l) == Splice(View(nodes, order, l), p, CellOf(nodes[idx], l))
  {
  }

  lemma ViewCut(nodes: seq<SkipNode>, order: seq<nat>, t: nat, l: nat)
    requires InArena(nodes, order) && t < |order|
    ensures InArena(nodes, Cut(order, t))
    ensures View(nodes, Cut(order, t), l) == Cut(View(nodes, order, l), t)
  {
  }

  /** `update[i]` is the last node at or before position `p` that reaches level `i`, and
      `rank[i]` is its position. */
  ghost predicate PathAt(view: seq<Cell>, order: seq<nat>, x: nat, r: nat, p: nat)
    requires |view| == |order|
  {
    r <= p < |view| && order[r] == x && view[r].reaches && Gap(view, r, p + 1)
  }

  ghost predicate PathOk(nodes: seq<SkipNode>, order: seq<nat>, update: seq<nat>, rank: seq<nat>, p: nat, from: nat, level: nat)
    requires InArena(nodes, order)
  {
    && |update| == |rank| == MAX_LEVEL && level < MAX_LEVEL
    && forall l: nat :: from <= l <= level ==> PathAt(View(nodes, order, l), order, update[l], rank[l], p)
  }

  lemma ReachesBelow(nodes: seq<SkipNode>, order: seq<nat>, r: nat, i: nat)
    requires InArena(nodes, order) && r < |order| && View(nodes, order, i + 1)[r].reaches
    ensures View(nodes, order, i)[r].reaches
  {
  }

  /** On level 0 every node counts, so the descent ends exactly at the insertion point. */
  lemma PathReachesGround(nodes: seq<SkipNode>, order: seq<nat>, level: nat, x: nat, r: nat, p: nat)
    requires |order| >= 1 && order[0] == 0 && InArena(nodes, order) && Grounded(nodes, order, level)
    requires PathAt(View(nodes, order, 0), order, x, r, p)
    ensures r == p
  {
    if p > 0 { assert View(nodes, order, 0)[p].reaches; }
  }

  /** Only the head's spans on the levels from `level + 1` up to `to` were written. */
  ghost predicate RaisedHead(nodes0: seq<SkipNode>, nodes: seq<SkipNode>, level: nat, to: nat, length: nat)
    requires |nodes0| > 0 && Tower(nodes0[0], MAX_LEVEL, MAX_LEVEL)
  {
    && |nodes| == |nodes0| && nodes[1..] == nodes0[1..]
    && nodes[0].key == nodes0[0].key && nodes[0].forward == nodes0[0].forward && |nodes[0].span| == MAX_LEVEL
    && forall l :: 0 <= l < MAX_LEVEL ==> nodes[0].span[l] == if level < l < to then length else nodes0[0].span[l]
  }

  lemma RaisedLevels(nodes0: seq<SkipNode>, nodes: seq<SkipNode>, order: seq<nat>, level: nat, lvl: nat,
                     update0: seq<nat>, rank0: seq<nat>, update: seq<nat>, rank: seq<nat>, p: nat)
    requires |order| >= 1 && order[0] == 0 && InArena(nodes0, order) && p < |order|
    requires Grounded(nodes0, order, level) && Levels(nodes0, order, level) && level + 1 < lvl <= MAX_LEVEL
    requires PathOk(nodes0, order, update0, rank0, p, 0, level)
    requires RaisedHead(nodes0, nodes, level, lvl, |order| - 1)
    requires Distinct(order)
    requires |update| == |rank| == MAX_LEVEL
    requires update[..level + 1] == update0[..level + 1] && rank[..level + 1] == rank0[..level + 1]
    requires forall l :: level < l < lvl ==> rank[l] == 0 && update[l] == 0
    ensures InArena(nodes, order) && Grounded(nodes, order, lvl - 1) && Levels(nodes, order, lvl - 1)
    ensures PathOk(nodes, order, update, rank, p, 0, lvl - 1)
    ensures ExactLevels(nodes0, order, level) ==> ExactLevels(nodes, order, lvl - 1)
    ensures View(nodes, order, 0) == View(nodes0, order, 0)
  {
    assert forall x :: 0 < x < |nodes| ==> nodes[x] == nodes[1..][x - 1] == nodes0[x];
    forall l: nat | l <= level
      ensures View(nodes, order, l) == View(nodes0, order, l) && update[l] == update0[l] && rank[l] == rank0[l]
    {
      assert update[l] == update[..level + 1][l] && rank[l] == rank[..level + 1][l];
    }
    forall l: nat | level < l < lvl
      ensures LevelOk(order, View(nodes, order, l)) && ExactLevel(View(nodes, order, l))
      ensures PathAt(View(nodes, order, l), order, update[l], rank[l], p)
    {
      var view := View(nodes, order, l);
      assert forall j :: 1 <= j < |view| ==> !view[j].reaches;
      assert LinkOk(order, view, 0);
    }
  }

  ghost predicate SameShape(nodes0: seq<SkipNode>, nodes: seq<SkipNode>) {
    && |nodes| == |nodes0|
    && forall x :: 0 <= x < |nodes| ==>
      && nodes[x].key == nodes0[x].key
      && |nodes[x].forward| == |nodes0[x].forward| && |nodes[x].span| == |nodes0[x].span|
  }

  /** Level `l` once a node of height `lvl` in slot `idx` has been spliced in after `p`. */
  ghost function InsertedView(nodes: seq<SkipNode>, order: seq<nat>, u: nat, p: nat, idx: nat, lvl: nat, l: nat): seq<Cell>
    requires InArena(nodes, order) && idx < |nodes| && u <= p < |order|
    requires l < lvl ==> p - u <= View(nodes, order, l)[u].span
  {
    if l < lvl then Linked(View(nodes, order, l), u, p, idx)
    else Bumped(View(nodes, order, l), u, p, CellOf(nodes[idx], l))
  }

  ghost predicate Spliceable(nodes: seq<SkipNode>, order: seq<nat>, level: nat, rank: seq<nat>, p: nat, idx: nat) {
    && InArena(nodes, order) && Distinct(order) && p < |order|
    && idx < |nodes| && idx !in order
    && level < MAX_LEVEL == |rank|
  }

  /** What the arena, the path and the new node satisfy before the linking loops. */
  ghost predicate ReadyToLink(nodes: seq<SkipNode>, order: seq<nat>, level: nat,
                              update: seq<nat>, rank: seq<nat>, p: nat, idx: nat, lvl: nat)
  {
    && Spliceable(nodes, order, level, rank, p, idx)
    && Levels(nodes, order, level) && PathOk(nodes, order, update, rank, p, 0, level)
    && Tower(nodes[idx], lvl, lvl) && 1 <= lvl <= level + 1
    && (forall j :: 0 <= j < |order| ==> |nodes[order[j]].forward| == |nodes[order[j]].span|)
  }

  lemma PathSpanCovers(nodes: seq<SkipNode>, order: seq<nat>, level: nat,
                       update: seq<nat>, rank: seq<nat>, p: nat, l: nat)
    requires InArena(nodes, order) && p < |order| && l <= level
    requires Levels(nodes, order, level) && PathOk(nodes, order, update, rank, p, 0, level)
    ensures rank[l] <= p && p - rank[l] <= View(nodes, order, l)[rank[l]].span
  {
    SpanCovers(order, View(nodes, order, l), rank[l], p);
  }

  /** State of the two linking loops before turn `i`: the levels below `i` show the new node,
      the others are untouched. */
  ghost predicate LinkedUpTo(nodes0: seq<SkipNode>, nodes: seq<SkipNode>, order: seq<nat>, level: nat,
                             rank: seq<nat>, p: nat, idx: nat, lvl: nat, i: nat)
    requires Spliceable(nodes0, order, level, rank, p, idx)
  {
    && SameShape(nodes0, nodes)
    && (forall l: nat :: i <= l ==> View(nodes, order, l) == View(nodes0, order, l))
    && (forall l: nat :: l < i && l <= level ==>
      && rank[l] <= p && p - rank[l] <= View(nodes0, order, l)[rank[l]].span
      && View(nodes, Splice(order, p, idx), l) == InsertedView(nodes0, order, rank[l], p, idx, lvl, l))
  }

  lemma LinkedNone(nodes: seq<SkipNode>, order: seq<nat>, level: nat, rank: seq<nat>, p: nat, idx: nat, lvl: nat)
    requires Spliceable(nodes, order, level, rank, p, idx)
    ensures LinkedUpTo(nodes, nodes, order, level, rank, p, idx, lvl, 0)
  {
  }

  /** One turn of the linking loop: read the update node's link, give it to the new node, and
      point the update node at the new one. */
  function LinkBoth(nodes: seq<SkipNode>, u: nat, idx: nat, i: nat, d: nat): (r: seq<SkipNode>)
    requires u < |nodes| && i < |nodes[u].forward| == |nodes[u].span| && d <= nodes[u].span[i]
    requires idx < |nodes| && i < |nodes[idx].forward| == |nodes[idx].span| && u != idx
  {
    WithLink(WithLink(nodes, idx, i, nodes[u].forward[i], nodes[u].span[i] - d), u, i, Some(idx), d + 1)
  }

  lemma LinkBothOtherLevel(nodes: seq<SkipNode>, order: seq<nat>, u: nat, idx: nat, i: nat, d: nat, l: nat)
    requires u < |nodes| && i < |nodes[u].forward| == |nodes[u].span| && d <= nodes[u].span[i]
    requires idx < |nodes| && i < |nodes[idx].forward| == |nodes[idx].span| && u != idx
    requires InArena(nodes, order) && l != i
    ensures InArena(LinkBoth(nodes, u, idx, i, d), order)
    ensures View(LinkBoth(nodes, u, idx, i, d), order, l) == View(nodes, order, l)
  {
    ViewWithLink(nodes, order, idx, i, nodes[u].forward[i], nodes[u].span[i] - d, l);
    ViewWithLink(WithLink(nodes, idx, i, nodes[u].forward[i], nodes[u].span[i] - d), order, u, i, Some(idx), d + 1, l);
  }

  lemma LinkBothSameLevel(nodes: seq<SkipNode>, order: seq<nat>, r: nat, p: nat, idx: nat, i: nat)
    requires InArena(nodes, order) && Distinct(order) && r <= p < |order|
    requires i < |nodes[order[r]].forward| == |nodes[order[r]].span| && p - r <= nodes[order[r]].span[i]
    requires idx < |nodes| && idx !in order && i < |nodes[idx].forward| == |nodes[idx].span|
    ensures InArena(LinkBoth(nodes, order[r], idx, i, p - r), Splice(order, p, idx))
    ensures View(LinkBoth(nodes, order[r], idx, i, p - r), Splice(order, p, idx), i)
         == Linked(View(nodes, order, i), r, p, idx)
  {
    hide Distinct, View, Splice, WithLink, CellOf;
    var u, d := order[r], p - r;
    var nodes1 := WithLink(nodes, idx, i, nodes[u].forward[i], nodes[u].span[i] - d);
    LinkBothCells(nodes, u, idx, i, d);
    assert View(nodes, order, i)[r] == CellOf(nodes[u], i);
    ViewWithLink(nodes, order, idx, i, nodes[u].forward[i], nodes[u].span[i] - d, i);
    ViewWithLinkAt(nodes1, order, r, i, Some(idx), d + 1);
    ViewSplice(LinkBoth(nodes, u, idx, i, d), order, p, idx, i);
  }

  lemma LinkBothCells(nodes: seq<SkipNode>, u: nat, idx: nat, i: nat, d: nat)
    requires u < |nodes| && i < |nodes[u].forward| == |nodes[u].span| && d <= nodes[u].span[i]
    requires idx < |nodes| && i < |nodes[idx].forward| == |nodes[idx].span| && u != idx
    ensures CellOf(nodes[u], i) == Cell(true, nodes[u].forward[i], nodes[u].span[i])
    ensures CellOf(LinkBoth(nodes, u, idx, i, d)[idx], i) == Cell(true, nodes[u].forward[i], nodes[u].span[i] - d)
    ensures var nodes1 := WithLink(nodes, idx, i, nodes[u].forward[i], nodes[u].span[i] - d);
      nodes1[u] == nodes[u] && |LinkBoth(nodes, u, idx, i, d)| == |nodes|
  {
  }

  lemma LinkStepGuard(nodes0: seq<SkipNode>, nodes: seq<SkipNode>, order: seq<nat>, level: nat,
                      update: seq<nat>, rank: seq<nat>, p: nat, idx: nat, lvl: nat, i: nat)
    requires ReadyToLink(nodes0, order, level, update, rank, p, idx, lvl)
    requires LinkedUpTo(nodes0, nodes, order, level, rank, p, idx, lvl, i)
    requires i <= level
    ensures rank[i] <= p && update[i] == order[rank[i]] && update[i] < |nodes| && update[i] != idx
    ensures i < |nodes[update[i]].forward| == |nodes[update[i]].span|
    ensures p - rank[i] <= nodes[update[i]].span[i]
    ensures idx < |nodes| && |nodes[idx].forward| == |nodes[idx].span| == lvl
  {
    assert PathAt(View(nodes0, order, i), order, update[i], rank[i], p);
    PathSpanCovers(nodes0, order, level, update, rank, p, i);
    assert View(nodes, order, i)[rank[i]] == CellOf(nodes[update[i]], i);
  }

  lemma LinkStep(nodes0: seq<SkipNode>, nodes: seq<SkipNode>, order: seq<nat>, level: nat,
                 update: seq<nat>, rank: seq<nat>, p: nat, idx: nat, lvl: nat, i: nat)
    requires Spliceable(nodes0, order, level, rank, p, idx) && |update| == MAX_LEVEL
    requires LinkedUpTo(nodes0, nodes, order, level, rank, p, idx, lvl, i)
    requires i < lvl <= level + 1
    requires rank[i] <= p && update[i] == order[rank[i]] && update[i] < |nodes| && update[i] != idx
    requires i < |nodes[update[i]].forward| == |nodes[update[i]].span|
    requires p - rank[i] <= nodes[update[i]].span[i]
    requires |nodes[idx].forward| == |nodes[idx].span| == lvl
    ensures LinkedUpTo(nodes0, LinkBoth(nodes, update[i], idx, i, p - rank[i]), order, level, rank, p, idx, lvl, i + 1)
  {
    var nodes2 := LinkBoth(nodes, update[i], idx, i, p - rank[i]);
    assert SameShape(nodes0, nodes2);
    assert View(nodes, order, i)[rank[i]] == CellOf(nodes[update[i]], i);
    hide Distinct, SameShape, WithLink, LinkBoth, View;
    LinkBothSameLevel(nodes, order, rank[i], p, idx, i);
    forall l: nat | i < l ensures View(nodes2, order, l) == View(nodes, order, l) {
      LinkBothOtherLevel(nodes, order, update[i], idx, i, p - rank[i], l);
    }
    forall l: nat | l < i ensures View(nodes2, Splice(order, p, idx), l) == View(nodes, Splice(order, p, idx), l) {
      LinkBothOtherLevel(nodes, Splice(order, p, idx), update[i], idx, i, p - rank[i], l);
    }
  }

  function BumpSpan(nodes: seq<SkipNode>, u: nat, i: nat): (r: seq<SkipNode>)
    requires u < |nodes| && i < |nodes[u].forward| == |nodes[u].span|
  {
    WithLink(nodes, u, i, nodes[u].forward[i], nodes[u].span[i] + 1)
  }

  lemma BumpSameLevel(nodes: seq<SkipNode>, order: seq<nat>, r: nat, p: nat, idx: nat, i: nat)
    requires InArena(nodes, order) && Distinct(order) && r <= p < |order|
    requires i < |nodes[order[r]].forward| == |nodes[order[r]].span|
    requires idx < |nodes| && idx !in order
    ensures InArena(BumpSpan(nodes, order[r], i), Splice(order, p, idx))
    ensures View(BumpSpan(nodes, order[r], i), Splice(order, p, idx), i)
         == Bumped(View(nodes, order, i), r, p, CellOf(nodes[idx], i))
  {
    ViewWithLinkAt(nodes, order, r, i, nodes[order[r]].forward[i], nodes[order[r]].span[i] + 1);
    ViewSplice(BumpSpan(nodes, order[r], i), order, p, idx, i);
  }

  lemma BumpStep(nodes0: seq<SkipNode>, nodes: seq<SkipNode>, order: seq<nat>, level: nat,
                 update: seq<nat>, rank: seq<nat>, p: nat, idx: nat, lvl: nat, i: nat)
    requires Spliceable(nodes0, order, level, rank, p, idx) && |update| == MAX_LEVEL
    requires LinkedUpTo(nodes0, nodes, order, level, rank, p, idx, lvl, i)
    requires lvl <= i <= level
    requires rank[i] <= p && update[i] == order[rank[i]] && update[i] < |nodes| && update[i] != idx
    requires i < |nodes[update[i]].forward| == |nodes[update[i]].span|
    requires p - rank[i] <= nodes[update[i]].span[i]
    requires |nodes[idx].forward| == |nodes[idx].span| == lvl
    ensures LinkedUpTo(nodes0, BumpSpan(nodes, update[i], i), order, level, rank, p, idx, lvl, i + 1)
  {
    var nodes2 := BumpSpan(nodes, update[i], i);
    assert CellOf(nodes[idx], i) == CellOf(nodes0[idx], i);
    assert SameShape(nodes0, nodes2);
    assert View(nodes, order, i)[rank[i]] == CellOf(nodes[update[i]], i);
    hide Distinct, SameShape, WithLink, View;
    BumpSameLevel(nodes, order, rank[i], p, idx, i);
    forall l: nat | i < l ensures View(nodes2, order, l) == View(nodes, order, l) {
      ViewWithLink(nodes, order, update[i], i, nodes[update[i]].forward[i], nodes[update[i]].span[i] + 1, l);
    }
    forall l: nat | l < i ensures View(nodes2, Splice(order, p, idx), l) == View(nodes, Splice(order, p, idx), l) {
      ViewWithLink(nodes, Splice(order, p, idx), update[i], i, nodes[update[i]].forward[i], nodes[update[i]].span[i] + 1, l);
    }
  }

  /** After both loops every level is well formed again, with the new node in place. */
  lemma LinkedLevels(nodes0: seq<SkipNode>, nodes: seq<SkipNode>, order: seq<nat>, level: nat,
                     update: seq<nat>, rank: seq<nat>, p: nat, idx: nat, lvl: nat)
    requires ReadyToLink(nodes0, order, level, update, rank, p, idx, lvl)
    requires LinkedUpTo(nodes0, nodes, order, level, rank, p, idx, lvl, level + 1)
    ensures InArena(nodes, Splice(order, p, idx)) && Levels(nodes, Splice(order, p, idx), level)
    ensures ExactLevels(nodes0, order, level) ==> ExactLevels(nodes, Splice(order, p, idx), level)
    ensures ExactLevel(View(nodes, Splice(order, p, idx), 0)) <==> ExactLevel(View(nodes0, order, 0))
  {
    forall l: nat | l <= level
      ensures LevelOk(Splice(order, p, idx), View(nodes, Splice(order, p, idx), l))
      ensures ExactLevel(View(nodes0, order, l)) ==> ExactLevel(View(nodes, Splice(order, p, idx), l))
      ensures l < lvl ==> (ExactLevel(View(nodes, Splice(order, p, idx), l)) <==> ExactLevel(View(nodes0, order, l)))
    {
      var view := View(nodes0, order, l);
      assert PathAt(view, order, update[l], rank[l], p);
      if l < lvl {
        LinkedOk(order, view, rank[l], p, idx);
        LinkedExact(order, view, rank[l], p, idx);
      } else {
        BumpedOk(order, view, rank[l], p, idx, CellOf(nodes0[idx], l));
      }
    }
  }

  /** The arena once the path is known, the list is tall enough and the node is allocated. */
  ghost predicate Prepared(nodes: seq<SkipNode>, order: seq<nat>, free: seq<nat>, level: nat, keys: seq<ScoreKey>,
                           update: seq<nat>, rank: seq<nat>, idx: nat, lvl: nat, key: ScoreKey)
  {
    && |order| >= 1 && order[0] == 0
    && ReadyToLink(nodes, order, level, update, rank, Position(keys, key), idx, lvl)
    && rank[0] == Position(keys, key)
    && Grounded(nodes, order, level) && Keyed(nodes, order, keys)
    && (lvl <= level ==> nodes[0].forward[level].Some?)
    && nodes[idx].key == Some(key) && idx !in free
    && InArena(nodes, free) && Distinct(free) && Disjoint(order, free)
    && |nodes| == |order| + |free| + 1
  }

  /** Allocating the node disturbs nothing that is linked. */
  lemma GrownPrepared(raised: seq<SkipNode>, nodes: seq<SkipNode>, order: seq<nat>, free: seq<nat>, level: nat,
                      keys: seq<ScoreKey>, update: seq<nat>, rank: seq<nat>, idx: nat, lvl: nat, key: ScoreKey)
    requires |order| >= 1 && order[0] == 0 && InArena(raised, order) && Distinct(order)
    requires Grounded(raised, order, level) && Levels(raised, order, level) && Keyed(raised, order, keys)
    requires PathOk(raised, order, update, rank, Position(keys, key), 0, level) && rank[0] == Position(keys, key)
    requires lvl <= level ==> raised[0].forward[level].Some?
    requires |raised| <= |nodes| && 1 <= lvl <= level + 1
    requires forall x :: 0 <= x < |raised| && x != idx ==> nodes[x] == raised[x]
    requires idx < |nodes| && idx !in order && idx !in free && nodes[idx] == NewNode(Some(key), lvl)
    requires InArena(nodes, free) && Distinct(free) && Disjoint(order, free) && |nodes| == |order| + |free| + 1
    ensures Prepared(nodes, order, free, level, keys, update, rank, idx, lvl, key)
    ensures ExactLevels(raised, order, level) ==> ExactLevels(nodes, order, level)
    ensures View(nodes, order, 0) == View(raised, order, 0)
  {
    forall l: nat | l <= level ensures View(nodes, order, l) == View(raised, order, l) {}
  }

  /** The top level of the grown list is not empty. */
  lemma TopLinked(nodes0: seq<SkipNode>, nodes: seq<SkipNode>, order: seq<nat>, free: seq<nat>, level: nat,
                  keys: seq<ScoreKey>, update: seq<nat>, rank: seq<nat>, idx: nat, lvl: nat, key: ScoreKey)
    requires Prepared(nodes0, order, free, level, keys, update, rank, idx, lvl, key)
    requires LinkedUpTo(nodes0, nodes, order, level, rank, rank[0], idx, lvl, level + 1)
    requires InArena(nodes, Splice(order, rank[0], idx)) && Levels(nodes, Splice(order, rank[0], idx), level)
    ensures level < |nodes[0].forward| && nodes[0].forward[level].Some?
  {
    var order2 := Splice(order, rank[0], idx);
    var view2 := View(nodes, order2, level);
    assert view2[0] == CellOf(nodes[0], level);
    if lvl <= level {
      assert view2[0].next == View(nodes0, order, level)[0].next;
    } else {
      assert view2[rank[0] + 1].reaches;
      assert LinkOk(order2, view2, 0);
    }
  }

  lemma InsertKeyed(nodes0: seq<SkipNode>, nodes: seq<SkipNode>, order: seq<nat>,
                    keys: seq<ScoreKey>, p: nat, idx: nat, key: ScoreKey)
    requires InArena(nodes0, order) && SameShape(nodes0, nodes) && Keyed(nodes0, order, keys)
    requires idx < |nodes0| && nodes0[idx].key == Some(key) && p == Position(keys, key)
    ensures InArena(nodes, Splice(order, p, idx))
    ensures Keyed(nodes, Splice(order, p, idx), Inserted(keys, key))
  {
  }

  lemma InsertGrounded(nodes0: seq<SkipNode>, nodes: seq<SkipNode>, order: seq<nat>, level: nat,
                       rank: seq<nat>, p: nat, idx: nat, lvl: nat)
    requires Spliceable(nodes0, order, level, rank, p, idx) && order[0] == 0
    requires Grounded(nodes0, order, level) && Tower(nodes0[idx], lvl, lvl) && 1 <= lvl <= level + 1
    requires LinkedUpTo(nodes0, nodes, order, level, rank, p, idx, lvl, level + 1)
    ensures InArena(nodes, Splice(order, p, idx))
    ensures Grounded(nodes, Splice(order, p, idx), level)
  {
    forall i | level < i < MAX_LEVEL ensures nodes[0].forward[i] == None {
      assert View(nodes, order, i)[0] == View(nodes0, order, i)[0];
    }
  }

  lemma InsertDone(nodes0: seq<SkipNode>, nodes: seq<SkipNode>, order: seq<nat>, free: seq<nat>, level: nat,
                   keys: seq<ScoreKey>, update: seq<nat>, rank: seq<nat>, idx: nat, lvl: nat, key: ScoreKey)
    requires Prepared(nodes0, order, free, level, keys, update, rank, idx, lvl, key)
    requires LinkedUpTo(nodes0, nodes, order, level, rank, rank[0], idx, lvl, level + 1)
    ensures Arena(nodes, Splice(order, rank[0], idx), free)
    ensures Towers(nodes, Splice(order, rank[0], idx), level)
    ensures Levels(nodes, Splice(order, rank[0], idx), level)
    ensures Keyed(nodes, Splice(order, rank[0], idx), Inserted(keys, key))
    ensures ExactLevels(nodes0, order, level) ==> ExactLevels(nodes, Splice(order, rank[0], idx), level)
    ensures ExactLevel(View(nodes, Splice(order, rank[0], idx), 0)) <==> ExactLevel(View(nodes0, order, 0))
  {
    hide Levels, PathOk, Grounded, ExactLevels, ExactLevel;
    InsertKeyed(nodes0, nodes, order, keys, rank[0], idx, key);
    InsertGrounded(nodes0, nodes, order, level, rank, rank[0], idx, lvl);
    LinkedLevels(nodes0, nodes, order, level, update, rank, rank[0], idx, lvl);
    TopLinked(nodes0, nodes, order, free, level, keys, update, rank, idx, lvl, key);
  }

  // ----- removal --------------------------------------------------------------------

  /** On level 0 the update node links to the next position. */
  lemma GroundLink(nodes: seq<SkipNode>, order: seq<nat>, level: nat, p: nat)
    requires |order| >= 1 && order[0] == 0 && InArena(nodes, order) && p < |order|
    requires Grounded(nodes, order, level) && LevelOk(order, View(nodes, order, 0))
    ensures |nodes[order[p]].forward| > 0
    ensures nodes[order[p]].forward[0] == if p + 1 < |order| then Some(order[p + 1]) else None
  {
    var view := View(nodes, order, 0);
    assert forall j :: 0 <= j < |order| ==> view[j].reaches;
    assert LinkOk(order, view, p);
  }

  /** State of the unlinking loop before turn `i`; `t` is the position of the target. */
  ghost predicate UnlinkedUpTo(nodes0: seq<SkipNode>, nodes: seq<SkipNode>, order: seq<nat>, level: nat,
                               rank: seq<nat>, t: nat, i: nat)
    requires InArena(nodes0, order) && t < |order| && level < |rank|
    requires forall l :: 0 <= l <= level ==> rank[l] < t
  {
    && SameShape(nodes0, nodes)
    && (forall l: nat :: i <= l ==> View(nodes, order, l) == View(nodes0, order, l))
    && (forall l: nat :: l < i && l <= level ==>
      View(nodes, order, l) == View(nodes0, order, l)[rank[l] := Bypass(View(nodes0, order, l), rank[l], t)])
  }

  ghost predicate ReadyToUnlink(nodes: seq<SkipNode>, order: seq<nat>, level: nat,
                                update: seq<nat>, rank: seq<nat>, t: nat)
  {
    && InArena(nodes, order) && Distinct(order) && 1 <= t < |order|
    && (forall j :: 0 <= j < |order| ==> |nodes[order[j]].forward| == |nodes[order[j]].span|)
    && Levels(nodes, order, level) && PathOk(nodes, order, update, rank, t - 1, 0, level)
    && (forall l :: 0 <= l <= level ==> rank[l] < t)
  }

  /** One turn of the unlinking loop. */
  function UnlinkOne(nodes: seq<SkipNode>, u: nat, target: nat, i: nat): (r: seq<SkipNode>)
    requires u < |nodes| && i < |nodes[u].forward| == |nodes[u].span|
    requires target < |nodes| && (nodes[u].forward[i] == Some(target) ==> i < |nodes[target].forward| == |nodes[target].span|)
  {
    if nodes[u].forward[i] == Some(target) then
      WithLink(nodes, u, i, nodes[target].forward[i], nodes[u].span[i] + SaturatingPred(nodes[target].span[i]))
    else
      WithLink(nodes, u, i, nodes[u].forward[i], SaturatingPred(nodes[u].span[i]))
  }

  lemma UnlinkGuard(nodes0: seq<SkipNode>, nodes: seq<SkipNode>, order: seq<nat>, level: nat,
                    update: seq<nat>, rank: seq<nat>, t: nat, i: nat)
    requires ReadyToUnlink(nodes0, order, level, update, rank, t) && i <= level
    requires UnlinkedUpTo(nodes0, nodes, order, level, rank, t, i)
    ensures rank[i] < t && update[i] == order[rank[i]] && update[i] < |nodes|
    ensures i < |nodes[update[i]].forward| == |nodes[update[i]].span|
    ensures |nodes[order[t]].forward| == |nodes[order[t]].span|
    ensures nodes[update[i]].forward[i] == Some(order[t]) <==> View(nodes0, order, i)[t].reaches
    ensures View(nodes0, order, i)[t].reaches <==> i < |nodes[order[t]].forward|
  {
    var view := View(nodes0, order, i);
    assert PathAt(view, order, update[i], rank[i], t - 1);
    assert view == View(nodes, order, i);
    assert view[rank[i]] == CellOf(nodes[update[i]], i);
    assert view[t] == CellOf(nodes[order[t]], i);
    assert LinkOk(order, view, rank[i]);
    LinkAtCut(order, view, rank[i], t);
  }

  lemma UnlinkStep(nodes0: seq<SkipNode>, nodes: seq<SkipNode>, order: seq<nat>, level: nat,
                   rank: seq<nat>, t: nat, i: nat)
    requires InArena(nodes0, order) && Distinct(order) && 1 <= t < |order| && i <= level < |rank|
    requires forall l :: 0 <= l <= level ==> rank[l] < t
    requires UnlinkedUpTo(nodes0, nodes, order, level, rank, t, i)
    requires i < |nodes[order[rank[i]]].forward| == |nodes[order[rank[i]]].span|
    requires |nodes[order[t]].forward| == |nodes[order[t]].span|
    requires nodes[order[rank[i]]].forward[i] == Some(order[t]) <==> View(nodes0, order, i)[t].reaches
    requires View(nodes0, order, i)[t].reaches <==> i < |nodes[order[t]].forward|
    ensures UnlinkedUpTo(nodes0, UnlinkOne(nodes, order[rank[i]], order[t], i), order, level, rank, t, i + 1)
  {
    var view, u := View(nodes, order, i), order[rank[i]];
    var nodes2 := UnlinkOne(nodes, u, order[t], i);
    assert view == View(nodes0, order, i);
    assert view[t] == CellOf(nodes[order[t]], i) && view[rank[i]] == CellOf(nodes[u], i);
    var c := Bypass(view, rank[i], t);
    assert nodes2 == WithLink(nodes, u, i, c.next, c.span);
    ViewWithLinkAt(nodes, order, rank[i], i, c.next, c.span);
    hide Distinct;
    forall l: nat | l != i ensures View(nodes2, order, l) == View(nodes, order, l) {
      ViewWithLink(nodes, order, u, i, c.next, c.span, l);
    }
  }

  /** The slot freed at the end of remove no longer occurs in the list. */
  lemma FreedLevels(nodes0: seq<SkipNode>, nodes: seq<SkipNode>, order: seq<nat>, level: nat,
                    update: seq<nat>, rank: seq<nat>, t: nat, blank: SkipNode)
    requires ReadyToUnlink(nodes0, order, level, update, rank, t)
    requires UnlinkedUpTo(nodes0, nodes, order, level, rank, t, level + 1)
    ensures
      var nodes2 := nodes[order[t] := blank];
      && InArena(nodes2, Cut(order, t)) && Levels(nodes2, Cut(order, t), level)
      && (ExactLevels(nodes0, order, level) && t < |order| - 1 ==> ExactLevels(nodes2, Cut(order, t), level))
      && (ExactLevel(View(nodes2, Cut(order, t), 0)) <==>
          ExactLevel(View(nodes0, order, 0)) && !(t == |order| - 1 && View(nodes0, order, 0)[t].reaches))
  {
    var nodes2, order2 := nodes[order[t] := blank], Cut(order, t);
    forall l: nat | l <= level
      ensures LevelOk(order2, View(nodes2, order2, l))
      ensures View(nodes2, order2, l) == Unlinked(View(nodes0, order, l), rank[l], t)
      ensures ExactLevel(View(nodes2, order2, l)) <==>
        ExactLevel(View(nodes0, order, l)) && !(t == |order| - 1 && View(nodes0, order, l)[t].reaches)
    {
      FreedLevel(nodes0, nodes, order, level, update, rank, t, blank, l);
    }
  }

  lemma FreedLevel(nodes0: seq<SkipNode>, nodes: seq<SkipNode>, order: seq<nat>, level: nat,
                   update: seq<nat>, rank: seq<nat>, t: nat, blank: SkipNode, l: nat)
    requires ReadyToUnlink(nodes0, order, level, update, rank, t) && l <= level
    requires UnlinkedUpTo(nodes0, nodes, order, level, rank, t, level + 1)
    ensures InArena(nodes[order[t] := blank], Cut(order, t))
    ensures View(nodes[order[t] := blank], Cut(order, t), l) == Unlinked(View(nodes0, order, l), rank[l], t)
    ensures LevelOk(Cut(order, t), Unlinked(View(nodes0, order, l), rank[l], t))
    ensures ExactLevel(Unlinked(View(nodes0, order, l), rank[l], t)) <==>
      ExactLevel(View(nodes0, order, l)) && !(t == |order| - 1 && View(nodes0, order, l)[t].reaches)
  {
    var view := View(nodes0, order, l);
    assert PathAt(view, order, update[l], rank[l], t - 1);
    ViewCut(nodes, order, t, l);
    assert View(nodes[order[t] := blank], Cut(order, t), l) == View(nodes, Cut(order, t), l);
    UnlinkedOk(order, view, rank[l], t);
    UnlinkedExact(order, view, rank[l], t);
  }

  lemma FreedTowers(nodes0: seq<SkipNode>, nodes: seq<SkipNode>, order: seq<nat>, free: seq<nat>, level: nat,
                    rank: seq<nat>, t: nat, keys: seq<ScoreKey>)
    requires Arena(nodes0, order, free) && Grounded(nodes0, order, level) && Keyed(nodes0, order, keys)
    requires 1 <= t < |order| && level < |rank| && forall l :: 0 <= l <= level ==> rank[l] < t
    requires UnlinkedUpTo(nodes0, nodes, order, level, rank, t, level + 1)
    ensures
      var nodes2, order2 := nodes[order[t] := NewNode(None, 1)], Cut(order, t);
      && Arena(nodes2, order2, free + [order[t]])
      && Grounded(nodes2, order2, level)
      && Keyed(nodes2, order2, Without(keys, t - 1))
  {
    var nodes2, order2 := nodes[order[t] := NewNode(None, 1)], Cut(order, t);
    forall i | level < i < MAX_LEVEL ensures nodes2[0].forward[i] == None {
      assert View(nodes, order, i)[0] == View(nodes0, order, i)[0];
    }
    assert forall j :: 0 <= j < |order2| ==> order2[j] != order[t];
  }

  lemma PathBelow(nodes: seq<SkipNode>, order: seq<nat>, update: seq<nat>, rank: seq<nat>, level: nat)
    requires InArena(nodes, order) && |rank| > 0
    requires PathOk(nodes, order, update, rank, rank[0], 0, level)
    ensures forall l :: 0 <= l <= level ==> rank[l] < rank[0] + 1
  {
    forall l: nat | l <= level ensures rank[l] <= rank[0] {
      assert PathAt(View(nodes, order, l), order, update[l], rank[l], rank[0]);
    }
  }

  lemma RemoveDone(nodes0: seq<SkipNode>, nodes: seq<SkipNode>, order: seq<nat>, free: seq<nat>, level: nat,
                   update: seq<nat>, rank: seq<nat>, t: nat, keys: seq<ScoreKey>)
    requires Arena(nodes0, order, free) && Grounded(nodes0, order, level) && Keyed(nodes0, order, keys)
    requires ReadyToUnlink(nodes0, order, level, update, rank, t)
    requires UnlinkedUpTo(nodes0, nodes, order, level, rank, t, level + 1)
    ensures
      var nodes2, order2 := nodes[order[t] := NewNode(None, 1)], Cut(order, t);
      && Arena(nodes2, order2, free + [order[t]])
      && Grounded(nodes2, order2, level) && Levels(nodes2, order2, level)
      && Keyed(nodes2, order2, Without(keys, t - 1))
      && (ExactLevels(nodes0, order, level) && t < |order| - 1 ==> ExactLevels(nodes2, order2, level))
      && (ExactLevel(View(nodes2, order2, 0)) <==> ExactLevel(View(nodes0, order, 0)) && t < |order| - 1)
  {
    assert View(nodes0, order, 0)[t].reaches;
    hide Levels, ExactLevels, Distinct, Disjoint, UnlinkedUpTo, Keyed, ExactLevel;
    FreedLevels(nodes0, nodes, order, level, update, rank, t, NewNode(None, 1));
    FreedTowers(nodes0, nodes, order, free, level, rank, t, keys);
  }

  lemma NotExact(nodes: seq<SkipNode>, order: seq<nat>, level: nat)
    requires InArena(nodes, order) && !ExactLevel(View(nodes, order, 0))
    ensures !ExactLevels(nodes, order, level)
  {
  }

  /** A top level the head does not link on is empty, so the list may be lowered. */
  lemma LowerStep(nodes: seq<SkipNode>, order: seq<nat>, level: nat)
    requires |order| >= 1 && order[0] == 0 && InArena(nodes, order) && level > 0
    requires Grounded(nodes, order, level) && Levels(nodes, order, level) && nodes[0].forward[level] == None
    ensures Grounded(nodes, order, level - 1) && Levels(nodes, order, level - 1)
    ensures ExactLevels(nodes, order, level) ==> ExactLevels(nodes, order, level - 1)
  {
    var view := View(nodes, order, level);
    assert view[0].reaches;
    assert LinkOk(order, view, 0);
    assert forall j :: 1 <= j < |order| ==> !view[j].reaches;
  }

  // ----- runs ----------------------------------------------------------------------

  datatype Op = Put(key: ScoreKey, height: nat) | Take(key: ScoreKey)

  ghost function KeysNext(keys: seq<ScoreKey>, op: Op): seq<ScoreKey> {
    match op
    case Put(key, _) => Inserted(keys, key)
    case Take(key) => Deleted(keys, key)
  }

  ghost function KeysAfter(keys: seq<ScoreKey>, ops: seq<Op>): seq<ScoreKey> {
    if ops == [] then keys else KeysNext(KeysAfter(keys, ops[..|ops| - 1]), ops[|ops| - 1])
  }

  predicate TakesLast(keys: seq<ScoreKey>, op: Op) {
    op.Take? && keys != [] && op.key == keys[|keys| - 1]
  }

  ghost predicate NeverTakesLast(keys: seq<ScoreKey>, ops: seq<Op>) {
    ops != [] ==>
      var front := ops[..|ops| - 1];
      NeverTakesLast(keys, front) && !TakesLast(KeysAfter(keys, front), ops[|ops| - 1])
  }

  /** Insert is called for keys that are not there, with a height that random_level can draw. */
  ghost predicate Playable(keys: seq<ScoreKey>, ops: seq<Op>) {
    forall i :: 0 <= i < |ops| && ops[i].Put? ==>
      1 <= ops[i].height <= MAX_LEVEL && ops[i].key !in KeysAfter(keys, ops[..i])
  }

  lemma RunSnoc(keys: seq<ScoreKey>, ops: seq<Op>, i: nat)
    requires i < |ops|
    ensures KeysAfter(keys, ops[..i + 1]) == KeysNext(KeysAfter(keys, ops[..i]), ops[i])
    ensures NeverTakesLast(keys, ops[..i + 1]) <==> NeverTakesLast(keys, ops[..i]) && !TakesLast(KeysAfter(keys, ops[..i]), ops[i])
  {
    hide KeysNext, TakesLast;
    assert ops[..i + 1][..i] == ops[..i];
  }

  lemma RunStarts(keys: seq<ScoreKey>)
    ensures KeysAfter(keys, []) == keys && NeverTakesLast(keys, [])
  {
  }

  lemma LastPosition(keys: seq<ScoreKey>, key: ScoreKey)
    requires Sorted(keys)
    ensures key !in keys || Position(keys, key) < |keys| - 1 <==> !TakesLast(keys, Take(key))
  {
    hide Less, Position, Sorted;
    PositionFinds(keys, key);
  }

  class SkipList {
    var nodes: seq<SkipNode>
    var free: seq<nat>
    var level: nat
    var length: nat
    ghost var order: seq<nat>
    ghost var keys: seq<ScoreKey>

    ghost predicate Valid()
      reads this
    {
      && Arena(nodes, order, free)
      && Towers(nodes, order, level)
      && Levels(nodes, order, level)
      && Keyed(nodes, order, keys)
      && Sorted(keys)
      && length == |keys|
    }

    /** Whether every span, end-of-level ones included, is exact. */
    ghost predicate Exact()
      reads this
      requires Valid()
    {
      ExactLevels(nodes, order, level)
    }

    /** Whether the last node, or the head of an empty list, spans nothing on level 0. */
    ghost predicate Snug()
      reads this
      requires Valid()
    {
      ExactLevel(View(nodes, order, 0))
    }

    constructor ()
      ensures Valid() && keys == [] && Exact()
    {
      nodes := [NewNode(None, MAX_LEVEL)];
      free := [];
      level := 0;
      length := 0;
      order := [0];
      keys := [];
    }

    predicate NodeLess(idx: nat, key: ScoreKey)
      reads this
      requires idx < |nodes|
    {
      nodes[idx].key.None? || Less(nodes[idx].key.value, key)
    }

    /** The inner loop that insert, remove and rank_of share: run along level `i` while the
        next node is below `key`. `r` is the position of `x`. */
    method Walk(i: nat, x0: nat, r0: nat, key: ScoreKey) returns (x: nat, r: nat)
      requires Valid() && i <= level
      requires r0 <= Position(keys, key) && order[r0] == x0 && View(nodes, order, i)[r0].reaches
      ensures PathAt(View(nodes, order, i), order, x, r, Position(keys, key))
    {
      ghost var view := View(nodes, order, i);
      ghost var p := Position(keys, key);
      PositionSplits(keys, key);
      x, r := x0, r0;
      while nodes[x].forward[i].Some? && NodeLess(nodes[x].forward[i].value, key)
        invariant r <= p && order[r] == x && view[r].reaches && LinkOk(order, view, r)
        decreases p - r
      {
        r := r + nodes[x].span[i];
        x := nodes[x].forward[i].value;
        assert nodes[order[r]].key == Some(keys[r - 1]);
        assert LinkOk(order, view, r);
      }
      if nodes[x].forward[i].Some? {
        ghost var q := r + view[r].span;
        assert nodes[order[q]].key == Some(keys[q - 1]);
      }
    }

    /** The descent of insert and remove, from the top level to level 0. */
    method FindPath(key: ScoreKey) returns (update: seq<nat>, rank: seq<nat>)
      requires Valid()
      ensures PathOk(nodes, order, update, rank, Position(keys, key), 0, level)
      ensures rank[0] == Position(keys, key)
    {
      ghost var p := Position(keys, key);
      update, rank := seq(MAX_LEVEL, _ => 0), seq(MAX_LEVEL, _ => 0);
      var x, r: nat := 0, 0;
      var i: nat := level + 1;
      while i > 0
        invariant i <= level + 1
        invariant PathOk(nodes, order, update, rank, p, i, level)
        invariant if i <= level then r == rank[i] && x == update[i] else r == 0 && x == 0
      {
        if i <= level { ReachesBelow(nodes, order, r, i - 1); }
        i := i - 1;
        r := if i == level then 0 else rank[i + 1];
        x, r := Walk(i, x, r, key);
        update, rank := update[i := x], rank[i := r];
      }
      PathReachesGround(nodes, order, level, x, r, p);
    }

    /** alloc_node: reuse the last freed slot, or grow the arena. */
    method Alloc(key: ScoreKey, lvl: nat) returns (idx: nat)
      requires Arena(nodes, order, free)
      modifies this`nodes, this`free
      ensures idx < |nodes| && idx !in order && idx !in free
      ensures old(|nodes|) <= |nodes| == |order| + |free| + 1
      ensures nodes[idx] == NewNode(Some(key), lvl)
      ensures forall x :: 0 <= x < old(|nodes|) && x != idx ==> nodes[x] == old(nodes[x])
      ensures InArena(nodes, free) && Distinct(free) && Disjoint(order, free)
    {
      if |free| > 0 {
        idx := free[|free| - 1];
        free := free[..|free| - 1];
        nodes := nodes[idx := NewNode(Some(key), lvl)];
      } else {
        idx := |nodes|;
        nodes := nodes + [NewNode(Some(key), lvl)];
      }
    }

    /** Raise the list to hold a node of height `lvl`: the head spans the whole list on every
        new level. */
    method Raise(lvl: nat, update0: seq<nat>, rank0: seq<nat>, ghost p: nat) returns (update: seq<nat>, rank: seq<nat>)
      requires Valid() && 1 <= lvl <= MAX_LEVEL && p < |order|
      requires PathOk(nodes, order, update0, rank0, p, 0, level)
      modifies this`nodes, this`level
      ensures level == if lvl - 1 > old(level) then lvl - 1 else old(level)
      ensures |nodes| == old(|nodes|)
      ensures Grounded(nodes, order, level) && Levels(nodes, order, level) && Keyed(nodes, order, keys)
      ensures PathOk(nodes, order, update, rank, p, 0, level) && rank[0] == rank0[0]
      ensures lvl <= level ==> nodes[0].forward[level].Some?
      ensures old(Exact()) ==> ExactLevels(nodes, order, level)
      ensures View(nodes, order, 0) == old(View(nodes, order, 0))
    {
      update, rank := update0, rank0;
      if lvl - 1 > level {
        ghost var nodes0 := nodes;
        for i := level + 1 to lvl
          invariant level == old(level)
          invariant |update| == |rank| == MAX_LEVEL && RaisedHead(nodes0, nodes, level, i, length)
          invariant update[..level + 1] == update0[..level + 1] && rank[..level + 1] == rank0[..level + 1]
          invariant forall l :: level < l < i ==> rank[l] == 0 && update[l] == 0
        {
          rank, update := rank[i := 0], update[i := 0];
          nodes := nodes[0 := nodes[0].(span := nodes[0].span[i := length])];
        }
        RaisedLevels(nodes0, nodes, order, level, lvl, update0, rank0, update, rank, p);
        level := lvl - 1;
      }
    }

    method Prepare(key: ScoreKey, lvl: nat) returns (update: seq<nat>, rank: seq<nat>, idx: nat)
      requires Valid() && 1 <= lvl <= MAX_LEVEL
      modifies this`nodes, this`free, this`level
      ensures Prepared(nodes, order, free, level, keys, update, rank, idx, lvl, key)
      ensures old(Exact()) ==> ExactLevels(nodes, order, level)
      ensures View(nodes, order, 0) == old(View(nodes, order, 0))
    {
      update, rank := FindPath(key);
      update, rank := Raise(lvl, update, rank, Position(keys, key));
      ghost var raised := nodes;
      idx := Alloc(key, lvl);
      GrownPrepared(raised, nodes, order, free, level, keys, update, rank, idx, lvl, key);
    }

    /** The two linking loops of insert. */
    method LinkIn(idx: nat, lvl: nat, update: seq<nat>, rank: seq<nat>)
      requires |rank| > 0 && ReadyToLink(nodes, order, level, update, rank, rank[0], idx, lvl)
      modifies this`nodes
      ensures LinkedUpTo(old(nodes), nodes, order, level, rank, rank[0], idx, lvl, level + 1)
    {
      hide LinkedUpTo;
      LinkLevels(idx, lvl, update, rank);
      BumpLevels(idx, lvl, update, rank, old(nodes));
    }

    method LinkLevels(idx: nat, lvl: nat, update: seq<nat>, rank: seq<nat>)
      requires |rank| > 0 && ReadyToLink(nodes, order, level, update, rank, rank[0], idx, lvl)
      modifies this`nodes
      ensures LinkedUpTo(old(nodes), nodes, order, level, rank, rank[0], idx, lvl, lvl)
    {
      hide LinkedUpTo, Levels, Distinct, LinkBoth;
      LinkedNone(nodes, order, level, rank, rank[0], idx, lvl);
      for i := 0 to lvl
        invariant LinkedUpTo(old(nodes), nodes, order, level, rank, rank[0], idx, lvl, i)
      {
        LinkStepGuard(old(nodes), nodes, order, level, update, rank, rank[0], idx, lvl, i);
        LinkStep(old(nodes), nodes, order, level, update, rank, rank[0], idx, lvl, i);
        nodes := LinkBoth(nodes, update[i], idx, i, rank[0] - rank[i]);
      }
    }

    method BumpLevels(idx: nat, lvl: nat, update: seq<nat>, rank: seq<nat>, ghost nodes0: seq<SkipNode>)
      requires |rank| > 0 && ReadyToLink(nodes0, order, level, update, rank, rank[0], idx, lvl)
      requires LinkedUpTo(nodes0, nodes, order, level, rank, rank[0], idx, lvl, lvl)
      modifies this`nodes
      ensures LinkedUpTo(nodes0, nodes, order, level, rank, rank[0], idx, lvl, level + 1)
    {
      hide LinkedUpTo, Levels, Distinct, BumpSpan;
      for i := lvl to level + 1
        invariant LinkedUpTo(nodes0, nodes, order, level, rank, rank[0], idx, lvl, i)
      {
        LinkStepGuard(nodes0, nodes, order, level, update, rank, rank[0], idx, lvl, i);
        BumpStep(nodes0, nodes, order, level, update, rank, rank[0], idx, lvl, i);
        nodes := BumpSpan(nodes, update[i], i);
      }
    }

    /** insert: `lvl` is whatever height random_level drew. */
    method Insert(key: ScoreKey, lvl: nat)
      requires Valid() && 1 <= lvl <= MAX_LEVEL && key !in keys
      modifies this
      ensures Valid() && keys == Inserted(old(keys), key)
      ensures old(Exact()) ==> Exact()
      ensures Snug() <==> old(Snug())
    {
      hide LinkedUpTo, Levels, Towers, Arena, Grounded, ExactLevels, ExactLevel, Distinct, Disjoint;
      InsertedSorted(keys, key);
      var update, rank, idx := Prepare(key, lvl);
      ghost var nodes0 := nodes;
      LinkIn(idx, lvl, update, rank);
      InsertDone(nodes0, nodes, order, free, level, keys, update, rank, idx, lvl, key);
      order := Splice(order, rank[0], idx);
      keys := Inserted(keys, key);
      length := length + 1;
    }

    /** An empty list is exact exactly when the head spans nothing on level 0. */
    lemma GroundSpan()
      requires Valid() && keys == []
      ensures nodes[0].span[0] <= 1
      ensures Exact() <==> nodes[0].span[0] == 0
    {
      var view := View(nodes, order, 0);
      assert view[0].reaches && LinkOk(order, view, 0);
      var top := View(nodes, order, level);
      assert top[0].reaches && LinkOk(order, top, 0);
      assert level == 0;
    }

    lemma ExactIsSnug()
      requires Valid()
      ensures Exact() ==> Snug()
    {
    }

    /** The unlinking loop of remove. */
    method Unlink(target: nat, update: seq<nat>, rank: seq<nat>, ghost t: nat)
      requires ReadyToUnlink(nodes, order, level, update, rank, t) && target == order[t]
      modifies this`nodes
      ensures UnlinkedUpTo(old(nodes), nodes, order, level, rank, t, level + 1) && |nodes| == |old(nodes)|
    {
      hide Levels, Distinct, UnlinkOne, LinkOk, PathAt;
      for i := 0 to level + 1
        invariant UnlinkedUpTo(old(nodes), nodes, order, level, rank, t, i)
      {
        UnlinkGuard(old(nodes), nodes, order, level, update, rank, t, i);
        UnlinkStep(old(nodes), nodes, order, level, rank, t, i);
        nodes := UnlinkOne(nodes, update[i], target, i);
      }
    }

    method Lower()
      requires Arena(nodes, order, free) && Grounded(nodes, order, level) && Levels(nodes, order, level)
      modifies this`level
      ensures Towers(nodes, order, level) && Levels(nodes, order, level)
      ensures ExactLevels(nodes, order, old(level)) ==> ExactLevels(nodes, order, level)
    {
      while level > 0 && nodes[0].forward[level].None?
        invariant Grounded(nodes, order, level) && Levels(nodes, order, level)
        invariant ExactLevels(nodes, order, old(level)) ==> ExactLevels(nodes, order, level)
        decreases level
      {
        LowerStep(nodes, order, level);
        level := level - 1;
      }
    }

    /** remove: true exactly when the key was present. Spans that were all exact stay exact
        unless it was the last key that went. */
    method Remove(key: ScoreKey) returns (removed: bool)
      requires Valid()
      modifies this
      ensures Valid() && removed == (key in old(keys))
      ensures keys == Deleted(old(keys), key)
      ensures old(Exact()) ==> (Exact() <==> !removed || Position(old(keys), key) < |old(keys)| - 1)
      ensures Snug() <==> old(Snug()) && (!removed || Position(old(keys), key) < |old(keys)| - 1)
    {
      ghost var p := Position(keys, key);
      PositionFinds(keys, key);
      var update, rank := FindPath(key);
      GroundLink(nodes, order, level, p);
      assert PathAt(View(nodes, order, 0), order, update[0], rank[0], p);
      var next := nodes[update[0]].forward[0];
      if next.None? || nodes[next.value].key != Some(key) {
        return false;
      }
      RemoveAt(next.value, update, rank);
      return true;
    }

    method Step(op: Op)
      requires Valid() && (op.Put? ==> 1 <= op.height <= MAX_LEVEL && op.key !in keys)
      modifies this
      ensures Valid() && keys == KeysNext(old(keys), op)
      ensures old(Exact()) && !TakesLast(old(keys), op) ==> Exact()
      ensures Snug() <==> old(Snug()) && !TakesLast(old(keys), op)
    {
      hide Snug, Exact, Inserted, Deleted, Position;
      match op {
        case Put(key, height) => Insert(key, height);
        case Take(key) =>
          LastPosition(keys, key);
          var _ := Remove(key);
      }
    }

    /** Over every run the spans stay exact exactly until a removal takes the last key. */
    method Run(ops: seq<Op>)
      requires Valid() && Playable(keys, ops)
      modifies this
      ensures Valid() && keys == KeysAfter(old(keys), ops)
      ensures old(Exact()) ==> (Exact() <==> NeverTakesLast(old(keys), ops))
    {
      hide Valid, Snug, Exact, KeysNext, KeysAfter, TakesLast, NeverTakesLast;
      if Exact() { ExactIsSnug(); }
      assert ops[..0] == [];
      RunStarts(keys);
      for i := 0 to |ops|
        invariant Valid() && keys == KeysAfter(old(keys), ops[..i])
        invariant old(Exact()) && NeverTakesLast(old(keys), ops[..i]) ==> Exact()
        invariant old(Exact()) ==> (Snug() <==> NeverTakesLast(old(keys), ops[..i]))
      {
        RunSnoc(old(keys), ops, i);
        Step(ops[i]);
      }
      assert ops[..|ops|] == ops;
      ExactIsSnug();
    }

    method RemoveAt(target: nat, update: seq<nat>, rank: seq<nat>)
      requires Valid()
      requires |rank| > 0 && rank[0] + 1 < |order| && target == order[rank[0] + 1]
      requires PathOk(nodes, order, update, rank, rank[0], 0, level)
      modifies this
      ensures Valid() && keys == Without(old(keys), rank[0])
      ensures old(Exact()) ==> (Exact() <==> rank[0] < |old(keys)| - 1)
      ensures Snug() <==> old(Snug()) && rank[0] < |old(keys)| - 1
    {
      hide LinkOk, LevelOk, Levels, ExactLevels, ExactLevel, Distinct, Disjoint, UnlinkedUpTo, Sorted;
      ghost var t := rank[0] + 1;
      ghost var nodes0 := nodes;
      PathBelow(nodes, order, update, rank, level);
      WithoutSorted(keys, rank[0]);
      Unlink(target, update, rank, t);
      RemoveDone(nodes0, nodes, order, free, level, update, rank, t, keys);
      nodes := nodes[target := NewNode(None, 1)];
      free := free + [target];
      order := Cut(order, t);
      keys := Without(keys, rank[0]);
      Lower();
      if !ExactLevel(View(nodes, order, 0)) { NotExact(nodes, order, level); }
      length := SaturatingPred(length);
    }

    /** rank_of: the position of the key in the sorted sequence, if present. */
    method RankOf(key: ScoreKey) returns (rank: Option<nat>)
      requires Valid()
      ensures rank.Some? ==> rank.value < |keys| && keys[rank.value] == key
      ensures rank.None? ==> key !in keys
    {
      ghost var p := Position(keys, key);
      PositionFinds(keys, key);
      var x, r: nat := 0, 0;
      var i: nat := level + 1;
      while i > 0
        invariant i <= level + 1 && r <= p && order[r] == x
        invariant if i <= level then PathAt(View(nodes, order, i), order, x, r, p) else r == 0
      {
        if i <= level { ReachesBelow(nodes, order, r, i - 1); }
        i := i - 1;
        x, r := Walk(i, x, r, key);
      }
      PathReachesGround(nodes, order, level, x, r, p);
      GroundLink(nodes, order, level, p);
      var next := nodes[x].forward[0];
      if next.Some? && nodes[next.value].key == Some(key) {
        return Some(r);
      }
      return None;
    }

    /** The inner loop of get_by_rank: run along level `i` while the span does not overshoot. */
    method Stride(i: nat, x0: nat, r0: nat, target: nat) returns (x: nat, r: nat)
      requires Valid() && i <= level && target < |order|
      requires r0 <= target && order[r0] == x0 && View(nodes, order, i)[r0].reaches
      ensures PathAt(View(nodes, order, i), order, x, r, target)
    {
      ghost var view := View(nodes, order, i);
      x, r := x0, r0;
      while nodes[x].forward[i].Some? && r + nodes[x].span[i] <= target
        invariant r <= target && order[r] == x && view[r].reaches && LinkOk(order, view, r)
        decreases target - r
      {
        r := r + nodes[x].span[i];
        x := nodes[x].forward[i].value;
        assert LinkOk(order, view, r);
      }
    }

    /** get_by_rank: the key at a 0-based rank of the sorted sequence. */
    method GetByRank(rank: nat) returns (key: Option<ScoreKey>)
      requires Valid()
      ensures key == if rank < |keys| then Some(keys[rank]) else None
    {
      if rank >= length {
        return None;
      }
      var target := rank + 1;
      var x, r: nat := 0, 0;
      var i: nat := level + 1;
      while i > 0
        invariant i <= level + 1 && r <= target && order[r] == x
        invariant if i <= level then PathAt(View(nodes, order, i), order, x, r, target) else r == 0
      {
        if i <= level { ReachesBelow(nodes, order, r, i - 1); }
        i := i - 1;
        x, r := Stride(i, x, r, target);
      }
      PathReachesGround(nodes, order, level, x, r, target);
      return nodes[x].key;
    }
  }

  /** The span field's comment does not hold of every reachable list: one key in and out again
      leaves an empty list whose head still spans one node on level 0. */
  method OneInOneOut(key: ScoreKey, lvl: nat) returns (list: SkipList)
    requires 1 <= lvl <= MAX_LEVEL
    ensures fresh(list) && list.Valid() && list.keys == [] && !list.Exact()
    ensures list.nodes[0].span[0] == 1
  {
    list := new SkipList();
    list.Insert(key, lvl);
    assert list.keys == [key];
    LessIsStrictTotalOrder(key, key, key);
    var removed := list.Remove(key);
    list.GroundSpan();
  }
}
