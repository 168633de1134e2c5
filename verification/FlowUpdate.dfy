/** bench/mcf/pflowup.c: the flow update of a bound exchange, where the whole cycle moves
    from one bound to the other and the basis stays. */
module FlowUpdate {
  import opened Trees
  import opened Flows
  import opened Basis
  import opened Cycles
  import opened Network
  import opened Repivot
  import opened Pivoting

  /** The flow of a link once the path it lies on has been flipped. */
  function FlippedFlow(v: Node, falling: bool): int {
    if v.orientation == falling then 0 else 1
  }

  method FlipNode(nodes: array<Node>, at: int, falling: bool)
    requires 0 <= at < nodes.Length
    modifies nodes
    ensures nodes[..] == old(nodes[..])[at := old(nodes[at]).(flow := FlippedFlow(old(nodes[at]), falling))]
  {
    if nodes[at].orientation == falling {
      nodes[at] := nodes[at].(flow := 0);
    } else {
      nodes[at] := nodes[at].(flow := 1);
    }
  }

  /** One loop: arcs oriented `falling` drop to 0 on the path from start to w, the others rise to 1. */
  method FlipPath(nodes: array<Node>, start: int, w: int, falling: bool)
    requires IsTree(Preds(nodes[..])) && 0 <= start < nodes.Length && 0 <= w < nodes.Length
      && w in Anc(Preds(nodes[..]), start)
    modifies nodes
    ensures forall v {:trigger nodes[v]} :: 0 <= v < nodes.Length ==> nodes[v] == old(nodes[v]).(flow :=
      if v in Path(old(Preds(nodes[..])), start, w) then FlippedFlow(old(nodes[v]), falling) else old(nodes[v].flow))
  {
    ghost var p := Preds(nodes[..]);
    var at := start;
    AncRange(p, start);
    while at != w
      invariant 0 <= at < nodes.Length && at in Anc(p, start) && w in Anc(p, at)
      invariant forall v {:trigger nodes[v]} :: 0 <= v < nodes.Length ==> nodes[v] == old(nodes[v]).(flow :=
        if v in Path(p, start, at) then FlippedFlow(old(nodes[v]), falling) else old(nodes[v].flow))
      decreases |Anc(p, at)|
    {
      PathStep(p, start, at, w);
      FlipNode(nodes, at, falling);
      at := nodes[at].pred;
    }
  }

  /** Flow runs down on the side of iplus and up on the side of jplus. */
  method PrimalUpdateFlow(nodes: array<Node>, iplus: int, jplus: int, w: int)
    requires IsTree(Preds(nodes[..])) && IsLca(Preds(nodes[..]), iplus, jplus, w)
    modifies nodes
    ensures forall v {:trigger nodes[v]} :: 0 <= v < nodes.Length ==> nodes[v] == old(nodes[v]).(flow :=
      if v in Path(old(Preds(nodes[..])), iplus, w) then FlippedFlow(old(nodes[v]), UP)
      else if v in Path(old(Preds(nodes[..])), jplus, w) then FlippedFlow(old(nodes[v]), DOWN)
      else old(nodes[v].flow))
  {
    ghost var p := Preds(nodes[..]);
    FlipPath(nodes, iplus, w, UP);
    assert Preds(nodes[..]) == p;
    assert forall v :: v in Path(p, iplus, w) ==> v !in Path(p, jplus, w);
    FlipPath(nodes, jplus, w, DOWN);
  }

  // ----- the bound exchange

  /** ns', es' is ns, es after one unit has run around the cycle of e, which changes its bound. */
  ghost predicate BoundExchanged(n: nat, ns: seq<Node>, es: seq<Arc>, ns': seq<Node>, es': seq<Arc>,
                                 i: int, j: int, w: int, e: int, newIdent: Ident)
    requires TreeOk(n, ns, es)
  {
    && IsLca(BasisOf(ns).pred, i, j, w) && 0 <= e < |es|
    && |ns'| == |ns|
    && (forall v {:trigger ns'[v]} :: 0 <= v < |ns| ==> ns'[v] == ns[v].(flow := SwungFlow(BasisOf(ns), i, j, w, 1, v)))
    && es' == es[e := es[e].(ident := newIdent)]
  }

  lemma BoundTree(n: nat, ns: seq<Node>, es: seq<Arc>, ns': seq<Node>, es': seq<Arc>, i: int, j: int, w: int, e: int,
                  newIdent: Ident)
    requires TreeOk(n, ns, es) && BoundExchanged(n, ns, es, ns', es', i, j, w, e, newIdent)
    ensures GraphOf(es') == GraphOf(es) && Preds(ns') == Preds(ns) && Potentials(ns') == Potentials(ns)
    ensures LinksOf(ns') == LinksOf(ns)
    ensures TreeOk(n, ns', es')
  {
    assert LinksOf(ns').child == LinksOf(ns).child;
    assert LinksOf(ns').sibling == LinksOf(ns).sibling && LinksOf(ns').siblingPrev == LinksOf(ns).siblingPrev;
    var b, b' := BasisOf(ns), BasisOf(ns');
    assert b'.pred == b.pred;
    forall v | 0 <= v < |ns|
      ensures b'.at[v].arc == b.at[v].arc && b'.at[v].up == b.at[v].up && b'.at[v].depth == b.at[v].depth
    {
      assert ns'[v].basicArc == ns[v].basicArc;
    }
    forall v | 0 < v < |ns| ensures Joins(GraphOf(es), b'.at[v].arc, v, b'.pred[v], b'.at[v].up) {
      assert Joins(GraphOf(es), b.at[v].arc, v, b.pred[v], b.at[v].up);
    }
    forall v | 0 <= v < |ns| ensures b'.at[v].depth == |Sub(b'.pred, v)| {
      assert b.at[v].depth == |Sub(b.pred, v)|;
    }
  }

  lemma BoundIdents(n: nat, ns: seq<Node>, es: seq<Arc>, ns': seq<Node>, es': seq<Arc>, i: int, j: int, w: int, e: int,
                    newIdent: Ident)
    requires TreeOk(n, ns, es) && BoundExchanged(n, ns, es, ns', es', i, j, w, e, newIdent)
    requires IdentsOk(n, ns, es) && n <= e && es[e].ident != BASIC && newIdent != BASIC
    ensures IdentsOk(n, ns', es')
  {
    forall a | 0 <= a < |es|
      ensures (es'[a].ident == BASIC <==> IsBasicArc(BasisOf(ns'), a)) && (a < n ==> es'[a].ident != AT_UPPER)
    {
      assert es[a].ident == BASIC <==> IsBasicArc(BasisOf(ns), a);
      if IsBasicArc(BasisOf(ns), a) {
        var v :| 0 < v < |ns| && BasisOf(ns).at[v].arc == a;
        assert BasisOf(ns').at[v].arc == a;
      }
      if IsBasicArc(BasisOf(ns'), a) {
        var v :| 0 < v < |ns| && BasisOf(ns').at[v].arc == a;
        assert BasisOf(ns).at[v].arc == a;
      }
    }
  }

  lemma BoundCirculated(n: nat, ns: seq<Node>, es: seq<Arc>, ns': seq<Node>, es': seq<Arc>,
                        i: int, j: int, w: int, e: int, up: bool, newIdent: Ident)
    requires TreeOk(n, ns, es) && BoundExchanged(n, ns, es, ns', es', i, j, w, e, newIdent)
    requires IdentsOk(n, ns, es) && TreeOk(n, ns', es') && IdentsOk(n, ns', es')
    requires Joins(GraphOf(es), e, i, j, up) && es[e].ident != BASIC && newIdent != BASIC
    requires (if newIdent == AT_UPPER then 1.0 else 0.0) == FlowOf(ns, es)[e] + Signed(up, 1.0)
    ensures Circulated(GraphOf(es), BasisOf(ns), FlowOf(ns, es), FlowOf(ns', es'), i, j, w, 1.0, e, up)
  {
    var b, x, x' := BasisOf(ns), FlowOf(ns, es), FlowOf(ns', es');
    var x1 := x'[e := x[e]];
    assert !IsBasicArc(b, e) by { assert es[e].ident == BASIC <==> IsBasicArc(b, e); }
    forall t | 0 < t < |b.pred|
      ensures x1[b.at[t].arc] == x[b.at[t].arc] + Signed(b.at[t].up, Swing(b, i, j, w, 1.0, t))
    {
      BasicFlow(n, ns, es, t);
      BasicFlow(n, ns', es', t);
      assert ns'[t].basicArc == ns[t].basicArc == b.at[t].arc;
      SwungReal(b, i, j, w, 1, t);
    }
    forall a {:trigger IsBasicArc(b, a)} | 0 <= a < |x| && !IsBasicArc(b, a) ensures x1[a] == x[a] {
      assert es[a].ident == BASIC <==> IsBasicArc(b, a);
    }
  }

  /** One bound exchange: the basis stays and is consistent with the new flows. */
  lemma BoundKeeps(n: nat, ns: seq<Node>, es: seq<Arc>, ns': seq<Node>, es': seq<Arc>,
                   i: int, j: int, w: int, e: int, up: bool, newIdent: Ident)
    requires Consistent(n, ns, es) && BoundExchanged(n, ns, es, ns', es', i, j, w, e, newIdent)
    requires SwingFits(BasisOf(ns), i, j, w, 1)
    requires n <= e && Joins(GraphOf(es), e, i, j, up) && es[e].ident != BASIC && newIdent != BASIC
    requires (if newIdent == AT_UPPER then 1.0 else 0.0) == FlowOf(ns, es)[e] + Signed(up, 1.0)
    ensures GraphOf(es') == GraphOf(es) && Preds(ns') == Preds(ns)
    ensures Circulated(GraphOf(es), BasisOf(ns), FlowOf(ns, es), FlowOf(ns', es'), i, j, w, 1.0, e, up)
    ensures Consistent(n, ns', es')
  {
    BoundTree(n, ns, es, ns', es', i, j, w, e, newIdent);
    BoundIdents(n, ns, es, ns', es', i, j, w, e, newIdent);
    BoundCirculated(n, ns, es, ns', es', i, j, w, e, up, newIdent);
    assert FlowsOk(ns') by {
      forall v | 0 < v < |ns'|
        ensures (ns'[v].flow == 0 || ns'[v].flow == 1) && (ns'[v].pred == 0 ==> ns'[v].flow == 0)
      {
        assert FitsAt(BasisOf(ns), i, j, w, 1, v);
      }
    }
    assert Priced(n, ns', es') by {
      forall v | 0 < v < |ns| ensures RedCost(GraphOf(es), Potentials(ns), BasisOf(ns').at[v].arc) == 0 {
        assert BasisOf(ns').at[v].arc == BasisOf(ns).at[v].arc;
      }
    }
    CycleConserves(GraphOf(es), BasisOf(ns), FlowOf(ns, es), FlowOf(ns', es'), i, j, w, 1.0, e, up);
  }
}
