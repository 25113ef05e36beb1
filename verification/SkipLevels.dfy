/** One level of a span skiplist, seen over level-0 positions: position 0 is the head, and
    `order[j]` is the arena index of the node at position `j`. */
module SkipLevels {
  import opened Basics
  import opened ScoreOrder

  /** What a node contributes to one level. The link and span only matter when it reaches the
      level. */
  datatype Cell = Cell(reaches: bool, next: Option<nat>, span: nat)

  function SaturatingPred(n: nat): nat {
    if n == 0 then 0 else n - 1
  }

  /** No node strictly after position `lo`, and before `hi`, reaches the level. */
  ghost predicate Gap(view: seq<Cell>, lo: nat, hi: nat)
    requires hi <= |view|
  {
    forall k :: lo < k < hi ==> !view[k].reaches
  }

  /** With a successor, the span is the exact level-0 distance to it and every node jumped
      over stays below the level. Without one, no later node reaches the level and the span
      is the number of remaining nodes, or one more than that. */
  ghost predicate LinkOk(order: seq<nat>, view: seq<Cell>, j: nat)
    requires |view| == |order| && j < |view|
  {
    if view[j].next.Some? then
      && 1 <= view[j].span && j + view[j].span < |view|
      && order[j + view[j].span] == view[j].next.value
      && view[j + view[j].span].reaches
      && Gap(view, j, j + view[j].span)
    else
      && Gap(view, j, |view|)
      && |view| - 1 - j <= view[j].span <= |view| - j
  }

  ghost predicate LevelOk(order: seq<nat>, view: seq<Cell>) {
    && |view| == |order|
    && forall j {:trigger LinkOk(order, view, j)} :: 0 <= j < |view| && view[j].reaches ==> LinkOk(order, view, j)
  }

  /** The stronger reading of the span field's comment: end-of-level spans are exact too. */
  ghost predicate ExactLevel(view: seq<Cell>) {
    forall j {:trigger view[j].reaches} :: 0 <= j < |view| && view[j].reaches && view[j].next.None?
      ==> view[j].span == |view| - 1 - j
  }

  function Splice<T>(s: seq<T>, p: nat, x: T): (r: seq<T>)
    requires p < |s|
    ensures |r| == |s| + 1
    ensures forall k :: 0 <= k <= p ==> r[k] == s[k]
    ensures r[p + 1] == x
    ensures forall k :: p + 1 < k < |r| ==> r[k] == s[k - 1]
  {
    s[..p + 1] + [x] + s[p + 1..]
  }

  function Cut<T>(s: seq<T>, t: nat): (r: seq<T>)
    requires t < |s|
    ensures |r| == |s| - 1
    ensures forall k :: 0 <= k < t ==> r[k] == s[k]
    ensures forall k :: t <= k < |r| ==> r[k] == s[k + 1]
  {
    s[..t] + s[t + 1..]
  }

  /** The span of the update node at `u` covers the insertion point `p`, so the subtraction of
      the insert loop cannot underflow. */
  lemma SpanCovers(order: seq<nat>, view: seq<Cell>, u: nat, p: nat)
    requires LevelOk(order, view) && u <= p < |view| && view[u].reaches && Gap(view, u, p + 1)
    ensures p - u <= view[u].span
    ensures view[u].next.Some? ==> p - u < view[u].span
  {
    assert LinkOk(order, view, u);
  }

  /** A level after one turn of the insert loop, for a node that reaches the level. */
  function Linked(view: seq<Cell>, u: nat, p: nat, idx: nat): seq<Cell>
    requires u <= p < |view| && p - u <= view[u].span
  {
    Splice(view[u := Cell(true, Some(idx), p - u + 1)], p,
           Cell(true, view[u].next, view[u].span - (p - u)))
  }

  /** A level above the new node. */
  function Bumped(view: seq<Cell>, u: nat, p: nat, low: Cell): seq<Cell>
    requires u <= p < |view|
  {
    Splice(view[u := view[u].(span := view[u].span + 1)], p, low)
  }

  /** The update node's cell once the node at `t` is unlinked from the level, where `u` is the
      last node before `t` that reaches it. */
  function Bypass(view: seq<Cell>, u: nat, t: nat): Cell
    requires u < t < |view|
  {
    if view[t].reaches
    then view[u].(next := view[t].next, span := view[u].span + SaturatingPred(view[t].span))
    else view[u].(span := SaturatingPred(view[u].span))
  }

  /** A level after the removal of the node at `t`. */
  function Unlinked(view: seq<Cell>, u: nat, t: nat): seq<Cell>
    requires u < t < |view|
  {
    Cut(view[u := Bypass(view, u, t)], t)
  }

  /** Splicing a node in after `p` leaves a link before the update node `u` as it was. */
  lemma LinkBeforeSplice(order: seq<nat>, view: seq<Cell>, u: nat, p: nat, idx: nat, fixed: Cell, added: Cell, j: nat)
    requires LevelOk(order, view) && u <= p < |view| && view[u].reaches && fixed.reaches
    requires j < u && view[j].reaches
    ensures LinkOk(Splice(order, p, idx), Splice(view[u := fixed], p, added), j)
  {
    assert LinkOk(order, view, j);
  }

  /** It shifts a link after `p` by one. */
  lemma LinkAfterSplice(order: seq<nat>, view: seq<Cell>, u: nat, p: nat, idx: nat, fixed: Cell, added: Cell, j: nat)
    requires LevelOk(order, view) && u <= p < |view|
    requires p < j < |view| && view[j].reaches
    ensures LinkOk(Splice(order, p, idx), Splice(view[u := fixed], p, added), j + 1)
  {
    assert LinkOk(order, view, j);
  }

  lemma LinkedOk(order: seq<nat>, view: seq<Cell>, u: nat, p: nat, idx: nat)
    requires LevelOk(order, view) && u <= p < |view| && view[u].reaches && Gap(view, u, p + 1)
    ensures p - u <= view[u].span
    ensures LevelOk(Splice(order, p, idx), Linked(view, u, p, idx))
  {
    SpanCovers(order, view, u, p);
    var fixed, added := Cell(true, Some(idx), p - u + 1), Cell(true, view[u].next, view[u].span - (p - u));
    var view2 := Linked(view, u, p, idx);
    forall j | 0 <= j < |view2| && view2[j].reaches ensures LinkOk(Splice(order, p, idx), view2, j) {
      if j < u {
        LinkBeforeSplice(order, view, u, p, idx, fixed, added, j);
      } else if j == u || j == p + 1 {
        assert LinkOk(order, view, u);
      } else {
        LinkAfterSplice(order, view, u, p, idx, fixed, added, j - 1);
      }
    }
  }

  /** Where a link has no successor, nothing after it reaches the level. */
  lemma LinkStays(order: seq<nat>, view: seq<Cell>, j: nat, k: nat)
    requires LevelOk(order, view) && j < |view| && k < |view| && view[j].reaches && view[j].next.None?
    ensures j < k ==> !view[k].reaches
  {
    assert LinkOk(order, view, j);
  }

  /** Linking neither makes nor removes slack at the end of the level. */
  lemma LinkedExact(order: seq<nat>, view: seq<Cell>, u: nat, p: nat, idx: nat)
    requires LevelOk(order, view) && u <= p < |view| && view[u].reaches && Gap(view, u, p + 1)
    requires p - u <= view[u].span
    ensures ExactLevel(Linked(view, u, p, idx)) <==> ExactLevel(view)
  {
    assert LinkOk(order, view, u);
    var view2 := Linked(view, u, p, idx);
    assert view2[p + 1] == Cell(true, view[u].next, view[u].span - (p - u)) && view2[u].next.Some?;
    if ExactLevel(view) {
      forall j | 0 <= j < |view2| && view2[j].reaches && view2[j].next.None? ensures view2[j].span == |view2| - 1 - j {
        if j < u { LinkStays(order, view, j, u); }
        if j > p + 1 { assert view[j - 1].reaches; }
      }
    }
    if ExactLevel(view2) {
      forall j | 0 <= j < |view| && view[j].reaches && view[j].next.None? ensures view[j].span == |view| - 1 - j {
        if j <= p { LinkStays(order, view, j, u); }
        if j > p { assert view2[j + 1].reaches; }
      }
    }
  }

  lemma BumpedOk(order: seq<nat>, view: seq<Cell>, u: nat, p: nat, idx: nat, low: Cell)
    requires LevelOk(order, view) && u <= p < |view| && view[u].reaches && Gap(view, u, p + 1)
    requires !low.reaches
    ensures LevelOk(Splice(order, p, idx), Bumped(view, u, p, low))
    ensures ExactLevel(view) ==> ExactLevel(Bumped(view, u, p, low))
  {
    SpanCovers(order, view, u, p);
    var fixed := view[u].(span := view[u].span + 1);
    var view2 := Bumped(view, u, p, low);
    forall j | 0 <= j < |view2| && view2[j].reaches ensures LinkOk(Splice(order, p, idx), view2, j) {
      if j < u {
        LinkBeforeSplice(order, view, u, p, idx, fixed, low, j);
      } else if j == u {
        assert LinkOk(order, view, u);
      } else {
        LinkAfterSplice(order, view, u, p, idx, fixed, low, j - 1);
      }
    }
  }

  /** Cutting the node at `t` out leaves a link before the update node as it was. */
  lemma LinkBeforeCut(order: seq<nat>, view: seq<Cell>, u: nat, t: nat, fixed: Cell, j: nat)
    requires LevelOk(order, view) && u < t < |view| && view[u].reaches && fixed.reaches
    requires j < u && view[j].reaches
    ensures LinkOk(Cut(order, t), Cut(view[u := fixed], t), j)
  {
    assert LinkOk(order, view, j);
  }

  /** It shifts a link after `t` back by one. */
  lemma LinkAfterCut(order: seq<nat>, view: seq<Cell>, u: nat, t: nat, fixed: Cell, j: nat)
    requires LevelOk(order, view) && u < t < j < |view| && view[j].reaches
    ensures LinkOk(Cut(order, t), Cut(view[u := fixed], t), j - 1)
  {
    assert LinkOk(order, view, j);
  }

  /** The link of the update node over the removed one. */
  lemma LinkAtCut(order: seq<nat>, view: seq<Cell>, u: nat, t: nat)
    requires LevelOk(order, view) && u < t < |view| && view[u].reaches && Gap(view, u, t)
    ensures LinkOk(Cut(order, t), Unlinked(view, u, t), u)
    ensures view[t].reaches <==> view[u].next.Some? && view[u].span == t - u
    ensures view[t].reaches ==> view[u].next == Some(order[t])
  {
    assert LinkOk(order, view, u);
    if view[t].reaches { assert LinkOk(order, view, t); }
  }

  /** Removal keeps the level, and keeps its spans exact except when the last node goes and it
      reaches the level: then the update node ends up one too large. */
  lemma UnlinkedOk(order: seq<nat>, view: seq<Cell>, u: nat, t: nat)
    requires LevelOk(order, view) && u < t < |view| && view[u].reaches && Gap(view, u, t)
    ensures LevelOk(Cut(order, t), Unlinked(view, u, t))
  {
    var view2 := Unlinked(view, u, t);
    forall j | 0 <= j < |view2| && view2[j].reaches ensures LinkOk(Cut(order, t), view2, j) {
      if j < u {
        LinkBeforeCut(order, view, u, t, view2[u], j);
      } else if j == u {
        LinkAtCut(order, view, u, t);
      } else {
        assert view[j + 1].reaches;
        LinkAfterCut(order, view, u, t, view2[u], j + 1);
      }
    }
  }

  lemma UnlinkedExact(order: seq<nat>, view: seq<Cell>, u: nat, t: nat)
    requires LevelOk(order, view) && u < t < |view| && view[u].reaches && Gap(view, u, t)
    ensures ExactLevel(Unlinked(view, u, t)) <==> ExactLevel(view) && !(t == |view| - 1 && view[t].reaches)
  {
    LinkAtCut(order, view, u, t);
    assert LinkOk(order, view, u);
    assert view[t].reaches ==> LinkOk(order, view, t);
    var view2 := Unlinked(view, u, t);
    assert view2[u].reaches;
    forall j | 0 <= j < u && view[j].reaches ensures view[j].next.Some? {
      assert LinkOk(order, view, j);
    }
    if ExactLevel(view) {
      forall j | u < j < |view2| && view2[j].reaches && view2[j].next.None?
        ensures view2[j].span == |view2| - 1 - j
      {
        assert view[j + 1].reaches;
      }
    }
    if ExactLevel(view2) {
      forall j | t < j < |view| && view[j].reaches && view[j].next.None? ensures view[j].span == |view| - 1 - j {
        assert view2[j - 1].reaches;
      }
    }
  }
}
