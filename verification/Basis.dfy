/** The basis of the network simplex: a spanning tree of basic arcs, one per node other
    than the root, with the flow of that arc and the size of the subtree of the node.
    `up` is the `orientation` field: UP (true) when the basic arc leaves the node. */
module Basis {
  import opened Trees
  import opened Flows

  const UP := true
  const DOWN := false

  /** What a node stores about the link to its father: the basic arc, its orientation and
      flow, and in `depth` the size of the subtree cut off by that link. */
  datatype Basic = Basic(arc: int, up: bool, flow: int, depth: int)

  datatype Basis = Basis(pred: seq<int>, at: seq<Basic>)

  predicate Sized(b: Basis) {
    |b.pred| == |b.at| > 0
  }

  /** Arc e runs between u and q, and leaves u exactly when `up` says so. */
  predicate Joins(g: Graph, e: int, u: int, q: int, up: bool)
    requires |g.tail| == |g.head|
  {
    && 0 <= e < |g.tail|
    && g.tail[e] == (if up then u else q)
    && g.head[e] == (if up then q else u)
  }

  /** The basic arcs run along the father links of a tree. */
  ghost predicate Spanning(g: Graph, b: Basis) {
    && Sized(b)
    && IsGraph(g, |b.pred|)
    && IsTree(b.pred)
    && forall v {:trigger b.at[v]} :: 0 < v < |b.pred| ==> Joins(g, b.at[v].arc, v, b.pred[v], b.at[v].up)
  }

  /** Field `depth` holds the size of the subtree. */
  ghost predicate DepthIsSize(b: Basis)
    requires Sized(b) && IsTree(b.pred)
  {
    forall v {:trigger b.at[v]} :: 0 <= v < |b.at| ==> b.at[v].depth == |Sub(b.pred, v)|
  }

  ghost predicate IsBasicArc(b: Basis, e: int)
    requires Sized(b)
  {
    exists v :: 0 < v < |b.pred| && b.at[v].arc == e
  }

  /** Two nodes never share a basic arc: a tree has no two-node cycle. */
  lemma ArcsDistinct(g: Graph, b: Basis, u: int, v: int)
    requires Spanning(g, b) && 0 < u < |b.pred| && 0 < v < |b.pred| && b.at[u].arc == b.at[v].arc
    ensures u == v
  {
    Step(b.pred, u);
    Step(b.pred, v);
    AncRange(b.pred, u);
    AncRange(b.pred, v);
  }

  /** The nodes from u up to but not including w. */
  ghost function Path(p: seq<int>, u: int, w: int): set<int>
    requires IsTree(p) && 0 <= u < |p| && 0 <= w < |p|
  {
    Anc(p, u) - Anc(p, w)
  }

  /** One link up a path to w. */
  lemma PathStep(p: seq<int>, start: int, temp: int, w: int)
    requires IsTree(p) && 0 <= start < |p| && 0 <= temp < |p| && temp in Anc(p, start)
    requires 0 <= w < |p| && w in Anc(p, temp) && temp != w
    ensures 0 < temp && 0 <= p[temp] < |p| && w in Anc(p, p[temp]) && p[temp] in Anc(p, start)
    ensures temp in Path(p, start, w)
    ensures Path(p, start, p[temp]) == Path(p, start, temp) + {temp} && temp !in Path(p, start, temp)
    ensures |Anc(p, p[temp])| < |Anc(p, temp)|
  {
    Root(p);
    AncRange(p, temp);
    Step(p, temp);
    AncTrans(p, temp, start);
    AncRange(p, p[temp]);
    if temp in Anc(p, w) { AncAntisym(p, temp, w); }
  }

  // ----- reversing the stem

  /** What the flow of a basic arc becomes when d units are sent from its node to the father. */
  function Sent(up: bool, flow: int, d: int): int {
    if up then flow + d else flow - d
  }

  /** The same link seen from the father once the stem is reversed: d units less run up
      through it, and it cuts off what it did not cut off before. */
  function Flipped(c: Basic, d: int, size: int): Basic {
    Basic(c.arc, !c.up, Sent(c.up, c.flow, -d), size - c.depth)
  }

  function Hang(b: Basis, u: int, q: int, c: Basic): Basis
    requires Sized(b) && 0 <= u < |b.pred|
  {
    Basis(b.pred[u := q], b.at[u := c])
  }

  /** u lies at or below stop and q does not. */
  ghost predicate OnStem(p: seq<int>, u: int, q: int, stop: int) {
    && IsTree(p) && 0 < u < |p| && 0 <= q < |p| && 0 < stop < |p|
    && stop in Anc(p, u) && stop !in Anc(p, q)
  }

  /** One step of the reversal keeps a tree, and the rest of the stem stays where it was. */
  lemma StemStep(p: seq<int>, u: int, q: int, stop: int)
    requires OnStem(p, u, q, stop)
    ensures u !in Anc(p, q) && IsTree(p[u := q])
    ensures forall v {:trigger Anc(p[u := q], v)} :: 0 <= v < |p| ==> Anc(p[u := q], v) == MovedAnc(p, u, q, v)
    ensures u != stop ==> OnStem(p[u := q], p[u], u, stop)
    ensures u != stop ==> |Anc(p[u := q], p[u])| < |Anc(p, u)|
  {
    Root(p);
    Step(p, u);
    AncRange(p, u);
    assert u !in Anc(p, q) by {
      if u in Anc(p, q) { AncTrans(p, u, q); }
    }
    MoveSubtree(p, u, q);
    var r := p[u := q];
    assert Anc(r, p[u]) == MovedAnc(p, u, q, p[u]);
    assert Anc(r, u) == MovedAnc(p, u, q, u);
  }

  /** Reversal of the tree path from u up to stop: u is hung under q with link c, the old
      father of u under u with the old link of u flipped, and so on until stop is hung. */
  ghost function Reverse(b: Basis, u: int, q: int, c: Basic, stop: int, d: int, size: int): Basis
    requires Sized(b) && OnStem(b.pred, u, q, stop)
    decreases |Anc(b.pred, u)|
  {
    var b1 := Hang(b, u, q, c);
    if u == stop then b1
    else
      StemStep(b.pred, u, q, stop);
      Reverse(b1, b.pred[u], u, Flipped(b.at[u], d, size), stop, d, size)
  }

  /** The reversed tree spans the same nodes. */
  lemma {:induction false} ReverseSpanning(g: Graph, b: Basis, u: int, q: int, c: Basic, stop: int, d: int, size: int)
    requires Spanning(g, b) && OnStem(b.pred, u, q, stop) && Joins(g, c.arc, u, q, c.up)
    ensures Spanning(g, Reverse(b, u, q, c, stop, d, size))
    ensures |Reverse(b, u, q, c, stop, d, size).pred| == |b.pred|
    decreases |Anc(b.pred, u)|
  {
    StemStep(b.pred, u, q, stop);
    if u != stop {
      HangSpanning(g, b, u, q, c);
      ReverseSpanning(g, Hang(b, u, q, c), b.pred[u], u, Flipped(b.at[u], d, size), stop, d, size);
    }
  }

  lemma HangSpanning(g: Graph, b: Basis, u: int, q: int, c: Basic)
    requires Spanning(g, b) && 0 < u < |b.pred| && 0 <= q < |b.pred| && u !in Anc(b.pred, q)
      && Joins(g, c.arc, u, q, c.up)
    ensures Spanning(g, Hang(b, u, q, c))
  {
    MoveSubtree(b.pred, u, q);
  }

  /** The stem: the nodes of the path from u up to and including stop. */
  ghost function Stem(p: seq<int>, u: int, stop: int): set<int>
    requires IsTree(p) && 0 <= u < |p|
  {
    set t | t in Anc(p, u) && 0 <= t < |p| && stop in Anc(p, t)
  }

  lemma StemUnfold(p: seq<int>, u: int, q: int, stop: int)
    requires OnStem(p, u, q, stop)
    ensures u in Stem(p, u, stop)
    ensures u == stop ==> Stem(p, u, stop) == {u}
    ensures u != stop ==> IsTree(p[u := q]) && 0 < p[u] < |p| && u !in Stem(p[u := q], p[u], stop)
                          && Stem(p, u, stop) == {u} + Stem(p[u := q], p[u], stop)
  {
    StemStep(p, u, q, stop);
    Step(p, u);
    AncRange(p, u);
    if u == stop {
      forall t | t in Stem(p, u, stop) ensures t == u { AncAntisym(p, t, u); }
    } else {
      var r := p[u := q];
      assert Anc(r, p[u]) == MovedAnc(p, u, q, p[u]);
      forall t | 0 <= t < |p| && t in Anc(p, p[u]) ensures Anc(r, t) == Anc(p, t) {
        assert Anc(r, t) == MovedAnc(p, u, q, t);
        if u in Anc(p, t) { AncTrans(p, t, p[u]); }
      }
    }
  }

  /** What the reversal has done to each node, in terms of the tree before it. */
  ghost predicate Reversed(b: Basis, b': Basis, u: int, q: int, c: Basic, stop: int, d: int, size: int)
    requires Sized(b) && IsTree(b.pred) && 0 < u < |b.pred|
  {
    && Sized(b') && |b'.pred| == |b.pred|
    && b'.pred[u] == q && b'.at[u] == c
    && (forall v {:trigger b.pred[v]} :: v in Stem(b.pred, u, stop) && v != stop ==>
         && 0 < v < |b.pred| && 0 < b.pred[v] < |b.pred|
         && b'.pred[b.pred[v]] == v
         && b'.at[b.pred[v]] == Flipped(b.at[v], d, size))
    && (forall v {:trigger b'.pred[v]} {:trigger b'.at[v]} :: 0 <= v < |b.pred| && v !in Stem(b.pred, u, stop) ==>
         b'.pred[v] == b.pred[v] && b'.at[v] == b.at[v])
  }

  lemma {:induction false} ReverseEffect(b: Basis, u: int, q: int, c: Basic, stop: int, d: int, size: int)
    requires Sized(b) && OnStem(b.pred, u, q, stop)
    ensures Reversed(b, Reverse(b, u, q, c, stop, d, size), u, q, c, stop, d, size)
    decreases |Anc(b.pred, u)|
  {
    StemUnfold(b.pred, u, q, stop);
    if u != stop {
      StemStep(b.pred, u, q, stop);
      var b1, c1 := Hang(b, u, q, c), Flipped(b.at[u], d, size);
      ReverseEffect(b1, b.pred[u], u, c1, stop, d, size);
      EffectStep(b, Reverse(b1, b.pred[u], u, c1, stop, d, size), u, q, c, stop, d, size);
    }
  }

  lemma EffectStep(b: Basis, b': Basis, u: int, q: int, c: Basic, stop: int, d: int, size: int)
    requires Sized(b) && OnStem(b.pred, u, q, stop) && u != stop && IsTree(b.pred[u := q])
    requires 0 < b.pred[u] < |b.pred| && u !in Stem(b.pred[u := q], b.pred[u], stop)
    requires Stem(b.pred, u, stop) == {u} + Stem(b.pred[u := q], b.pred[u], stop)
    requires Reversed(Hang(b, u, q, c), b', b.pred[u], u, Flipped(b.at[u], d, size), stop, d, size)
    ensures Reversed(b, b', u, q, c, stop, d, size)
  {
    var b1 := Hang(b, u, q, c);
    var st := Stem(b1.pred, b.pred[u], stop);
    assert b'.pred[u] == b1.pred[u] && b'.at[u] == b1.at[u];
    forall v | v in st && v != stop
      ensures 0 < v < |b.pred| && 0 < b.pred[v] < |b.pred| && b'.pred[b.pred[v]] == v
              && b'.at[b.pred[v]] == Flipped(b.at[v], d, size)
    {
      assert b1.pred[v] == b.pred[v];
    }
  }

  // ----- subtrees after the reversal

  /** Every subtree of the reversed tree in terms of the subtrees before. */
  ghost predicate SubsReversed(p: seq<int>, r: seq<int>, u: int, q: int, stop: int)
    requires IsTree(p) && IsTree(r) && |p| == |r| && 0 < u < |p| && 0 <= q < |p|
  {
    var s := Sub(p, stop);
    && Sub(r, u) == s
    && (forall v {:trigger p[v]} :: v in Stem(p, u, stop) && v != stop ==> Sub(r, p[v]) == s - Sub(p, v))
    && (forall a {:trigger Sub(r, a)} :: a in s && a !in Stem(p, u, stop) ==> Sub(r, a) == Sub(p, a))
    && (forall a {:trigger Sub(r, a)} :: 0 <= a < |p| && a !in s ==>
         Sub(r, a) == (Sub(p, a) - s) + if a in Anc(p, q) then s else {})
  }

  /** The subtrees after u has been moved under q. */
  ghost function MovedSub(p: seq<int>, u: int, q: int, a: int): set<int>
    requires IsTree(p) && 0 < u < |p| && 0 <= q < |p| && 0 <= a < |p|
  {
    if a in Anc(p, q) then Sub(p, a) + Sub(p, u)
    else if a in Anc(p, u) && a != u then Sub(p, a) - Sub(p, u)
    else Sub(p, a)
  }

  lemma MovedSubs(p: seq<int>, u: int, q: int, a: int)
    requires IsTree(p) && 0 < u < |p| && 0 <= q < |p| && u !in Anc(p, q) && 0 <= a < |p|
    ensures IsTree(p[u := q])
    ensures Sub(p[u := q], a) == MovedSub(p, u, q, a)
  {
    MoveSubtree(p, u, q);
    var r := p[u := q];
    AncRange(p, u);
    forall v | 0 <= v < |p|
      ensures v in Sub(r, a) <==> v in MovedSub(p, u, q, a)
    {
      assert Anc(r, v) == MovedAnc(p, u, q, v);
      if u in Anc(p, v) {
        AncTrans(p, u, v);
      }
    }
  }

  lemma {:induction false} ReverseSubs(b: Basis, u: int, q: int, c: Basic, stop: int, d: int, size: int)
    requires Sized(b) && OnStem(b.pred, u, q, stop)
    ensures var r := Reverse(b, u, q, c, stop, d, size).pred;
      IsTree(r) && |r| == |b.pred| && SubsReversed(b.pred, r, u, q, stop)
    decreases |Anc(b.pred, u)|
  {
    StemStep(b.pred, u, q, stop);
    if u == stop {
      SubsOfStop(b.pred, u, q);
    } else {
      var b1, c1 := Hang(b, u, q, c), Flipped(b.at[u], d, size);
      ReverseSubs(b1, b.pred[u], u, c1, stop, d, size);
      SubsOfStem(b.pred, Reverse(b1, b.pred[u], u, c1, stop, d, size).pred, u, q, stop);
    }
  }

  lemma SubsOfStop(p: seq<int>, u: int, q: int)
    requires OnStem(p, u, q, u)
    ensures IsTree(p[u := q]) && SubsReversed(p, p[u := q], u, q, u)
  {
    StemUnfold(p, u, q, u);
    StemStep(p, u, q, u);
    AncRange(p, u);
    var s := Sub(p, u);
    MovedSubs(p, u, q, u);
    forall a | 0 <= a < |p| && a !in s
      ensures Sub(p[u := q], a) == (Sub(p, a) - s) + if a in Anc(p, q) then s else {}
    {
      MovedSubs(p, u, q, a);
      if a !in Anc(p, q) && a !in Anc(p, u) {
        DisjointSubs(p, a, u);
      }
    }
    forall a | a in s && a !in Stem(p, u, u)
      ensures Sub(p[u := q], a) == Sub(p, a)
    {
      MovedSubs(p, u, q, a);
      if a in Anc(p, q) { AncTrans(p, a, q); }
      if a in Anc(p, u) { AncAntisym(p, a, u); }
    }
  }

  /** Subtrees of incomparable nodes are disjoint. */
  lemma DisjointSubs(p: seq<int>, a: int, b: int)
    requires IsTree(p) && 0 <= a < |p| && 0 <= b < |p| && a !in Anc(p, b) && b !in Anc(p, a)
    ensures Sub(p, a) !! Sub(p, b)
  {
    forall v | v in Sub(p, a) && v in Sub(p, b) ensures false {
      AncLinear(p, a, b, v);
    }
  }

  lemma SubWithin(p: seq<int>, a: int, b: int)
    requires IsTree(p) && 0 <= b < |p| && a in Anc(p, b)
    ensures Sub(p, b) <= Sub(p, a)
  {
    forall v | v in Sub(p, b) ensures v in Sub(p, a) {
      AncTrans(p, b, v);
      AncRange(p, b);
    }
  }

  lemma SubsOfStem(p: seq<int>, r: seq<int>, u: int, q: int, stop: int)
    requires OnStem(p, u, q, stop) && u != stop
    requires IsTree(r) && |r| == |p| && IsTree(p[u := q]) && OnStem(p[u := q], p[u], u, stop)
    requires SubsReversed(p[u := q], r, p[u], u, stop)
    ensures SubsReversed(p, r, u, q, stop)
  {
    var s := Sub(p, stop);
    StemTop(p, r, u, q, stop);
    forall v | v in Stem(p, u, stop) && v != stop
      ensures Sub(r, p[v]) == s - Sub(p, v)
    {
      StemInner(p, r, u, q, stop, v);
    }
    forall a | a in s && a !in Stem(p, u, stop)
      ensures Sub(r, a) == Sub(p, a)
    {
      StemOutsider(p, r, u, q, stop, a);
    }
    forall a | 0 <= a < |p| && a !in s
      ensures Sub(r, a) == (Sub(p, a) - s) + if a in Anc(p, q) then s else {}
    {
      StemBeyond(p, r, u, q, stop, a);
    }
  }

  lemma StemTop(p: seq<int>, r: seq<int>, u: int, q: int, stop: int)
    requires OnStem(p, u, q, stop) && u != stop
    requires IsTree(r) && |r| == |p| && IsTree(p[u := q]) && OnStem(p[u := q], p[u], u, stop)
    requires SubsReversed(p[u := q], r, p[u], u, stop)
    ensures Sub(p, u) <= Sub(p, stop) && Sub(p[u := q], stop) == Sub(p, stop) - Sub(p, u)
    ensures Sub(r, u) == Sub(p, stop)
  {
    var p1 := p[u := q];
    StemStep(p, u, q, stop);
    AncRange(p, u);
    AncRange(p1, u);
    SubWithin(p, stop, u);
    MovedSubs(p, u, q, stop);
    MovedSubs(p, u, q, u);
    if u in Anc(p, stop) { AncAntisym(p, u, stop); }
  }

  lemma StemInner(p: seq<int>, r: seq<int>, u: int, q: int, stop: int, v: int)
    requires OnStem(p, u, q, stop) && u != stop
    requires IsTree(r) && |r| == |p| && IsTree(p[u := q]) && OnStem(p[u := q], p[u], u, stop)
    requires SubsReversed(p[u := q], r, p[u], u, stop)
    requires v in Stem(p, u, stop) && v != stop
    ensures Sub(r, p[v]) == Sub(p, stop) - Sub(p, v)
  {
    StemTop(p, r, u, q, stop);
    StemStep(p, u, q, stop);
    StemUnfold(p, u, q, stop);
    if v != u {
      assert p[u := q][v] == p[v] && v in Stem(p[u := q], p[u], stop);
      MovedSubs(p, u, q, v);
      if v in Anc(p, q) { AncTrans(p, v, q); }
      SubWithin(p, v, u);
    }
  }

  lemma StemBelow(p: seq<int>, u: int, q: int, stop: int, a: int)
    requires OnStem(p, u, q, stop) && u != stop && IsTree(p[u := q]) && 0 <= a < |p| && a !in Sub(p, stop)
    ensures 0 <= u < |p| && u !in Anc(p, q) && (a in Anc(p[u := q], u) <==> a in Anc(p, q))
  {
    AncRange(p, u);
    StemStep(p, u, q, stop);
    assert Anc(p[u := q], u) == MovedAnc(p, u, q, u);
  }

  lemma StemBeyond(p: seq<int>, r: seq<int>, u: int, q: int, stop: int, a: int)
    requires OnStem(p, u, q, stop) && u != stop
    requires IsTree(r) && |r| == |p| && IsTree(p[u := q]) && OnStem(p[u := q], p[u], u, stop)
    requires SubsReversed(p[u := q], r, p[u], u, stop)
    requires 0 <= a < |p| && a !in Sub(p, stop)
    ensures Sub(r, a) == (Sub(p, a) - Sub(p, stop)) + if a in Anc(p, q) then Sub(p, stop) else {}
  {
    StemTop(p, r, u, q, stop);
    AncRange(p, u);
    StemBelow(p, u, q, stop, a);
    MovedSubs(p, u, q, a);
    if a !in Anc(p, q) && a !in Anc(p, u) { DisjointSubs(p, a, u); }
    MovedBeyond(Sub(p, a), Sub(p, stop), Sub(p, u), a in Anc(p, q), a in Anc(p, u));
  }

  lemma MovedBeyond(x: set<int>, s: set<int>, su: set<int>, aboveQ: bool, aboveU: bool)
    requires su <= s && (!aboveQ && !aboveU ==> x !! su)
    ensures ((if aboveQ then x + su else if aboveU then x - su else x) - (s - su)) + (if aboveQ then s - su else {})
            == (x - s) + if aboveQ then s else {}
  {
  }

  lemma StemOutsider(p: seq<int>, r: seq<int>, u: int, q: int, stop: int, a: int)
    requires OnStem(p, u, q, stop) && u != stop
    requires IsTree(r) && |r| == |p| && IsTree(p[u := q]) && OnStem(p[u := q], p[u], u, stop)
    requires SubsReversed(p[u := q], r, p[u], u, stop)
    requires a in Sub(p, stop) && a !in Stem(p, u, stop)
    ensures Sub(r, a) == Sub(p, a)
  {
    var p1 := p[u := q];
    StemStep(p, u, q, stop);
    StemUnfold(p, u, q, stop);
    MovedSubs(p, u, q, a);
    MovedSubs(p, u, q, stop);
    SubWithin(p, stop, u);
    assert Anc(p1, u) == MovedAnc(p, u, q, u);
    if a in Anc(p, q) { AncTrans(p, a, q); }
    assert Sub(p1, a) == Sub(p, a);
    if a in Sub(p, u) {
      SubWithin(p, u, a);
    }
  }
}
