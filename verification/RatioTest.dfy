/** bench/mcf/pbla.c: the ratio test. Two pointers climb from the ends of the entering arc,
    always the one with the smaller subtree, until they meet; on the way the blocking arc
    is chosen with ties resolved by `>` on one side and `>=` on the other. */
module RatioTest {
  import opened Trees
  import opened Basis
  import opened Cycles
  import opened Network

  /** The blocking node found so far, the step it allows, and the side it lies on. */
  datatype Best = Best(iminus: int, delta: int, xchange: bool)

  /** The TEST_MIN macro; `strict` chooses between its two operators. */
  function TestMin(best: Best, nod: int, ex: bool, comp: int, strict: bool): Best {
    if (if strict then best.delta > comp else best.delta >= comp) then Best(nod, comp, ex) else best
  }

  /** The arc of v can block: all arcs can, except an arc into the root with its flow rising. */
  predicate Capped(ns: seq<Node>, v: int, falling: bool)
    requires 0 <= v < |ns|
  {
    falling || (0 <= ns[v].pred < |ns| && ns[ns[v].pred].pred != NULL)
  }

  /** How far the flow of the arc of v can move: down to 0 or up to 1. */
  function Residual(ns: seq<Node>, v: int, falling: bool): int
    requires 0 <= v < |ns|
  {
    if falling then ns[v].flow else 1 - ns[v].flow
  }

  // On the side of iplus flow runs down the tree: upward arcs lose. On the side of jplus it runs up.

  predicate CappedI(ns: seq<Node>, v: int)
    requires 0 <= v < |ns|
  {
    Capped(ns, v, ns[v].orientation)
  }

  predicate CappedJ(ns: seq<Node>, v: int)
    requires 0 <= v < |ns|
  {
    Capped(ns, v, !ns[v].orientation)
  }

  function ResI(ns: seq<Node>, v: int): int
    requires 0 <= v < |ns|
  {
    Residual(ns, v, ns[v].orientation)
  }

  function ResJ(ns: seq<Node>, v: int): int
    requires 0 <= v < |ns|
  {
    Residual(ns, v, !ns[v].orientation)
  }

  /** delta is the least residual on the two path pieces, or 1 if that is less, and found
      is the last arc that attains it: in the order of the cycle, down the piece from a to
      i and then up the piece from j to c. NULL means that nothing blocks. */
  ghost predicate Blocks(ns: seq<Node>, i: int, a: int, j: int, c: int, best: Best)
    requires IsTree(Preds(ns)) && 0 <= i < |ns| && 0 <= a < |ns| && 0 <= j < |ns| && 0 <= c < |ns|
  {
    var p := Preds(ns);
    var Best(found, delta, xchange) := best;
    && delta <= 1
    && (forall v {:trigger ResI(ns, v)} :: v in Path(p, i, a) && 0 <= v < |ns| && CappedI(ns, v) ==>
      delta <= ResI(ns, v))
    && (forall v {:trigger ResJ(ns, v)} :: v in Path(p, j, c) && 0 <= v < |ns| && CappedJ(ns, v) ==>
      delta <= ResJ(ns, v))
    && (found == NULL ==>
         && delta == 1
         && (forall v {:trigger ResJ(ns, v)} :: v in Path(p, j, c) && 0 <= v < |ns| && CappedJ(ns, v) ==>
           delta < ResJ(ns, v)))
    && (found != NULL && xchange ==>
         && found in Path(p, j, c) && 0 < found < |ns| && CappedJ(ns, found) && ResJ(ns, found) == delta
         && (forall v {:trigger ResJ(ns, v)} ::
              v in Path(p, j, c) && 0 <= v < |ns| && CappedJ(ns, v) && ResJ(ns, v) == delta ==>
                found in Anc(p, v)))
    && (found != NULL && !xchange ==>
         && found in Path(p, i, a) && 0 < found < |ns| && CappedI(ns, found) && ResI(ns, found) == delta && delta < 1
         && (forall v {:trigger ResI(ns, v)} ::
              v in Path(p, i, a) && 0 <= v < |ns| && CappedI(ns, v) && ResI(ns, v) == delta ==>
                v in Anc(p, found))
         && (forall v {:trigger ResJ(ns, v)} :: v in Path(p, j, c) && 0 <= v < |ns| && CappedJ(ns, v) ==>
           delta < ResJ(ns, v)))
  }

  /** All common ancestors of i and j are common ancestors of a and c. */
  ghost predicate Meeting(p: seq<int>, i: int, j: int, a: int, c: int)
    requires IsTree(p)
  {
    && 0 <= i < |p| && 0 <= j < |p| && 0 <= a < |p| && 0 <= c < |p|
    && a in Anc(p, i) && c in Anc(p, j)
    && forall v :: v in Anc(p, i) && v in Anc(p, j) ==> v in Anc(p, a) && v in Anc(p, c)
  }

  /** The node with the smaller subtree cannot be the meeting point, so climbing from it is safe. */
  lemma Climb(p: seq<int>, i: int, j: int, a: int, c: int)
    requires IsTree(p) && Meeting(p, i, j, a, c) && a != c && |Sub(p, a)| <= |Sub(p, c)|
    ensures 0 < a && 0 <= p[a] < |p| && Meeting(p, i, j, p[a], c)
    ensures Path(p, i, p[a]) == Path(p, i, a) + {a} && a !in Path(p, i, a)
    ensures |Anc(p, p[a])| < |Anc(p, a)|
    ensures forall v :: v in Path(p, i, a) ==> 0 <= v < |p| && a in Anc(p, v)
  {
    AncRange(p, a);
    AncRange(p, c);
    AncRange(p, i);
    AncRange(p, j);
    Root(p);
    if a in Anc(p, c) { SizeOrder(p, a, c); }
    Step(p, a);
    AncTrans(p, a, i);
    AncRange(p, p[a]);
    forall v | v in Path(p, i, a) ensures 0 <= v < |p| && a in Anc(p, v) {
      AncLinear(p, a, v, i);
    }
  }

  lemma MeetingSym(p: seq<int>, i: int, j: int, a: int, c: int)
    requires IsTree(p)
    ensures Meeting(p, i, j, a, c) <==> Meeting(p, j, i, c, a)
  {
  }

  function NextI(ns: seq<Node>, a: int, best: Best): Best
    requires 0 <= a < |ns|
  {
    if CappedI(ns, a) then TestMin(best, a, false, ResI(ns, a), true) else best
  }

  function NextJ(ns: seq<Node>, c: int, best: Best): Best
    requires 0 <= c < |ns|
  {
    if CappedJ(ns, c) then TestMin(best, c, true, ResJ(ns, c), false) else best
  }

  /** One test on the side of iplus: a strictly smaller residual takes over. */
  lemma TestI(ns: seq<Node>, i: int, a: int, j: int, c: int, best: Best)
    requires IsTree(Preds(ns)) && Meeting(Preds(ns), i, j, a, c) && a != c && |Sub(Preds(ns), a)| <= |Sub(Preds(ns), c)|
    requires Blocks(ns, i, a, j, c, best)
    ensures 0 < a && 0 <= ns[a].pred < |ns| && Meeting(Preds(ns), i, j, ns[a].pred, c)
    ensures |Anc(Preds(ns), ns[a].pred)| < |Anc(Preds(ns), a)|
    ensures Blocks(ns, i, ns[a].pred, j, c, NextI(ns, a, best))
  {
    Climb(Preds(ns), i, j, a, c);
    AncRange(Preds(ns), a);
  }

  /** One test on the side of jplus: an equal residual takes over as well. */
  lemma TestJ(ns: seq<Node>, i: int, a: int, j: int, c: int, best: Best)
    requires IsTree(Preds(ns)) && Meeting(Preds(ns), i, j, a, c) && a != c && |Sub(Preds(ns), c)| <= |Sub(Preds(ns), a)|
    requires Blocks(ns, i, a, j, c, best)
    ensures 0 < c && 0 <= ns[c].pred < |ns| && Meeting(Preds(ns), i, j, a, ns[c].pred)
    ensures |Anc(Preds(ns), ns[c].pred)| < |Anc(Preds(ns), c)|
    ensures Blocks(ns, i, a, j, ns[c].pred, NextJ(ns, c, best))
  {
    MeetingSym(Preds(ns), i, j, a, c);
    Climb(Preds(ns), j, i, c, a);
    AncRange(Preds(ns), c);
  }

  lemma BeginClimb(ns: seq<Node>, i: int, j: int)
    requires IsTree(Preds(ns)) && 0 <= i < |ns| && 0 <= j < |ns|
    ensures Meeting(Preds(ns), i, j, i, j) && Blocks(ns, i, i, j, j, Best(NULL, 1, false))
  {
    AncRange(Preds(ns), i);
    AncRange(Preds(ns), j);
  }

  /** The blocking arc and the step length for the cycle of an entering arc between iplus and jplus. */
  method PrimalIminus(nodes: array<Node>, iplus: int, jplus: int) returns (best: Best, w: int)
    requires IsTree(Preds(nodes[..])) && DepthIsSize(BasisOf(nodes[..]))
    requires 0 <= iplus < nodes.Length && 0 <= jplus < nodes.Length
    ensures IsLca(Preds(nodes[..]), iplus, jplus, w)
    ensures Blocks(nodes[..], iplus, w, jplus, w, best)
  {
    ghost var ns := nodes[..];
    best := Best(NULL, 1, false);
    var i, j := iplus, jplus;
    BeginClimb(ns, i, j);
    while i != j
      invariant Meeting(Preds(ns), iplus, jplus, i, j)
      invariant Blocks(ns, iplus, i, jplus, j, best)
      decreases |Anc(Preds(ns), i)| + |Anc(Preds(ns), j)|
    {
      assert BasisOf(ns).at[i].depth == |Sub(Preds(ns), i)| && BasisOf(ns).at[j].depth == |Sub(Preds(ns), j)|;
      if nodes[i].depth < nodes[j].depth {
        TestI(ns, iplus, i, jplus, j, best);
        ghost var next := NextI(ns, i, best);
        if nodes[i].orientation {
          best := TestMin(best, i, false, nodes[i].flow, true);
        } else if nodes[nodes[i].pred].pred != NULL {
          best := TestMin(best, i, false, 1 - nodes[i].flow, true);
        }
        assert best == next;
        i := nodes[i].pred;
      } else {
        TestJ(ns, iplus, i, jplus, j, best);
        ghost var next := NextJ(ns, j, best);
        if !nodes[j].orientation {
          best := TestMin(best, j, true, nodes[j].flow, false);
        } else if nodes[nodes[j].pred].pred != NULL {
          best := TestMin(best, j, true, 1 - nodes[j].flow, false);
        }
        assert best == next;
        j := nodes[j].pred;
      }
    }
    w := i;
    AncRange(Preds(ns), w);
  }
}
