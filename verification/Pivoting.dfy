/** What one pivot of the network simplex keeps and what it gains. Both kinds of pivot,
    the basis exchange and the bound exchange, send d units around the cycle that the
    entering arc closes; the lemmas here turn that into a consistent state again. */
module Pivoting {
  import opened Trees
  import opened Links
  import opened Flows
  import opened Basis
  import opened Cycles
  import opened Network
  import opened Repivot

  // ----- d units around the cycle of the entering arc

  /** x' is x with the tree swung by d and the entering arc e, which runs between u and q,
      taking the d units back from u to q. */
  ghost predicate Circulated(g: Graph, b: Basis, x: seq<real>, x': seq<real>, u: int, q: int, w: int, d: real, e: int,
                             up: bool) {
    && Spanning(g, b) && IsLca(b.pred, u, q, w)
    && |x| == |x'| == |g.tail|
    && Joins(g, e, u, q, up) && !IsBasicArc(b, e)
    && x'[e] == x[e] + Signed(up, d)
    && Swung(g, b, x, x'[e := x[e]], u, q, w, d)
  }

  /** The cycle keeps every node balanced. */
  lemma CycleConserves(g: Graph, b: Basis, x: seq<real>, x': seq<real>, u: int, q: int, w: int, d: real, e: int,
                       up: bool)
    requires Circulated(g, b, x, x', u, q, w, d, e, up) && Conserves(g, |b.pred|, x)
    ensures Conserves(g, |b.pred|, x')
  {
    var x1 := x'[e := x[e]];
    forall v | 0 <= v < |b.pred| ensures Excess(g, x', v, |x'|) == 0.0 {
      assert Excess(g, x, v, |x|) == 0.0;
      SwingExcess(g, b, x, x1, u, q, w, d, v);
      ShiftExcess(g, x1, e, Signed(up, d), v, |x1|);
      assert x1[e := x1[e] + Signed(up, d)] == x';
    }
  }

  /** Cost accounting: the cost of the cycle is the reduced cost of the entering arc. */
  lemma CycleCost(g: Graph, b: Basis, pot: seq<int>, x: seq<real>, x': seq<real>, u: int, q: int, w: int, d: real,
                  e: int, up: bool)
    requires Circulated(g, b, x, x', u, q, w, d, e, up) && Tight(g, b, pot)
    ensures TotalCost(g, x') == TotalCost(g, x) + Times(RedCost(g, pot, e), Signed(up, d))
  {
    var x1 := x'[e := x[e]];
    SwingCost(g, b, pot, x, x1, u, q, w, d);
    ShiftCost(g, x1, e, Signed(up, d), |x1|);
    assert x1[e := x1[e] + Signed(up, d)] == x';
    EnterPrice(g.cost[e], pot[u], pot[q], up, d);
    assert CostOf(g)(x1) == TotalCost(g, x1) && CostOf(g)(x) == TotalCost(g, x);
  }

  lemma EnterPrice(c: int, a: int, q: int, up: bool, d: real)
    ensures (Times(q, d) - Times(a, d)) + Times(c, Signed(up, d))
            == Times(if up then c - a + q else c - q + a, Signed(up, d))
  {
    if up {
      ReducedPrice(c, a, q, d);
    } else {
      ReducedPrice(c, q, a, -d);
      TimesNegate(a, d);
      TimesNegate(q, d);
    }
  }

  // ----- the basis exchange

  /** A basis exchange: arc e enters at node u under q, oriented `up` and with flow f, the arc
      of stop leaves with ident newSet, d units run around the cycle through w, and the
      subtree of stop has its potentials shifted by sigma. */
  datatype Move = Move(u: int, q: int, stop: int, w: int, d: int, e: int, up: bool, f: int, newSet: Ident, sigma: int)

  /** ns', es' is ns, es after a basis exchange: arc e enters at u with flow f, the arc of
      stop leaves with ident newSet, and the subtree of stop has its potentials shifted. */
  ghost predicate Exchanged(n: nat, ns: seq<Node>, es: seq<Arc>, ns': seq<Node>, es': seq<Arc>, m: Move)
    requires TreeOk(n, ns, es)
  {
    var b := BasisOf(ns);
    && Exchange(b, m.u, m.q, m.stop, m.w)
    && 0 <= m.e < |es| && 0 <= ns[m.stop].basicArc < |es|
    && |ns'| == |ns|
    && BasisOf(ns') == Repivoted(b, m.u, m.q, Basic(m.e, m.up, m.f, ns[m.stop].depth), m.stop, m.w, m.d)
    && LinkedTree(LinksOf(ns'))
    && (forall v {:trigger ns'[v]} :: 0 <= v < |ns| ==>
         && ns'[v].potential == ns[v].potential + (if v in Sub(b.pred, m.stop) then m.sigma else 0)
         && SameLabels(ns[v], ns'[v]))
    && var es1 := es[m.e := es[m.e].(ident := BASIC)];
       var l := ns[m.stop].basicArc;
       es' == es1[l := es1[l].(ident := m.newSet)]
  }

  /** The flows fit the bounds after the swing, and so do the entering and the leaving arc. */
  ghost predicate FlowsFit(n: nat, ns: seq<Node>, es: seq<Arc>, m: Move)
    requires TreeOk(n, ns, es) && Exchange(BasisOf(ns), m.u, m.q, m.stop, m.w)
  {
    && SwingFits(BasisOf(ns), m.u, m.q, m.w, m.d)
    && (m.f == 0 || m.f == 1)
    && (m.newSet == AT_LOWER || m.newSet == AT_UPPER)
    && SwungFlow(BasisOf(ns), m.u, m.q, m.w, m.d, m.stop) == (if m.newSet == AT_UPPER then 1 else 0)
  }

  /** The entering arc is a proper nonbasic arc between u and q. */
  ghost predicate Enters(n: nat, ns: seq<Node>, es: seq<Arc>, m: Move)
    requires TreeOk(n, ns, es)
  {
    && Joins(GraphOf(es), m.e, m.u, m.q, m.up) && n <= m.e && es[m.e].ident != BASIC
    && m.f as real == FlowOf(ns, es)[m.e] + Signed(m.up, m.d as real)
  }

  lemma ExchangedGraph(n: nat, ns: seq<Node>, es: seq<Arc>, ns': seq<Node>, es': seq<Arc>, m: Move)
    requires TreeOk(n, ns, es) && Exchanged(n, ns, es, ns', es', m)
    ensures GraphOf(es') == GraphOf(es) && Dummies(n, es')
  {
  }

  /** A basis exchange leaves the network as it is. */
  lemma ExchangedSame(n: nat, ns: seq<Node>, es: seq<Arc>, ns': seq<Node>, es': seq<Arc>, m: Move)
    requires TreeOk(n, ns, es) && IdentsOk(n, ns, es) && Exchanged(n, ns, es, ns', es', m)
    requires es[m.e].ident != FIXED && m.newSet != FIXED
    ensures SameNetwork(ns, es, ns', es')
  {
    assert BasisOf(ns).at[m.stop].arc == ns[m.stop].basicArc;
    assert IsBasicArc(BasisOf(ns), ns[m.stop].basicArc);
    assert es[ns[m.stop].basicArc].ident == BASIC;
  }

  lemma ExchangedTree(n: nat, ns: seq<Node>, es: seq<Arc>, ns': seq<Node>, es': seq<Arc>, m: Move)
    requires TreeOk(n, ns, es) && Exchanged(n, ns, es, ns', es', m)
    requires Joins(GraphOf(es), m.e, m.u, m.q, m.up)
    ensures TreeOk(n, ns', es')
  {
    var c := Basic(m.e, m.up, m.f, ns[m.stop].depth);
    ExchangedGraph(n, ns, es, ns', es', m);
    RepivotedSpanning(GraphOf(es), BasisOf(ns), m.u, m.q, c, m.stop, m.w, m.d);
    assert BasisOf(ns).at[m.stop].depth == ns[m.stop].depth;
    RepivotedDepth(BasisOf(ns), m.u, m.q, c, m.stop, m.w, m.d);
  }

  /** The basic arcs change by exactly the leaving arc out and the entering arc in. */
  lemma ExchangedArcs(n: nat, ns: seq<Node>, es: seq<Arc>, ns': seq<Node>, es': seq<Arc>, m: Move, a: int)
    requires TreeOk(n, ns, es) && Exchanged(n, ns, es, ns', es', m)
    ensures IsBasicArc(BasisOf(ns'), a) <==> a == m.e || (IsBasicArc(BasisOf(ns), a) && a != ns[m.stop].basicArc)
  {
    var b, c := BasisOf(ns), Basic(m.e, m.up, m.f, ns[m.stop].depth);
    var b' := BasisOf(ns');
    if IsBasicArc(b', a) {
      var v :| 0 < v < |b.pred| && b'.at[v].arc == a;
      var t := ArcWas(b, m.u, m.q, c, m.stop, m.w, m.d, v);
      if v != m.u {
        ArcKept(b, m.u, m.q, c, m.stop, m.w, m.d, t);
        assert b.at[t].arc == a;
        if a == ns[m.stop].basicArc {
          assert b.at[m.stop].arc == a;
          ArcsDistinct(GraphOf(es), b, t, m.stop);
        }
      }
    }
    if a == m.e {
      var t := ArcWas(b, m.u, m.q, c, m.stop, m.w, m.d, m.u);
      assert b'.at[m.u].arc == a;
    } else if IsBasicArc(b, a) && a != ns[m.stop].basicArc {
      var t :| 0 < t < |b.pred| && b.at[t].arc == a;
      ArcKept(b, m.u, m.q, c, m.stop, m.w, m.d, t);
      assert b'.at[NewPlace(b, m.u, m.stop, t)].arc == a;
    }
  }

  lemma ExchangedIdents(n: nat, ns: seq<Node>, es: seq<Arc>, ns': seq<Node>, es': seq<Arc>, m: Move)
    requires TreeOk(n, ns, es) && Exchanged(n, ns, es, ns', es', m)
    requires IdentsOk(n, ns, es) && es[m.e].ident != BASIC && FlowsFit(n, ns, es, m)
    ensures IdentsOk(n, ns', es')
  {
    var l := ns[m.stop].basicArc;
    assert BasisOf(ns).at[m.stop].arc == l;
    assert IsBasicArc(BasisOf(ns), l) && es[l].ident == BASIC;
    assert FitsAt(BasisOf(ns), m.u, m.q, m.w, m.d, m.stop);
    RootLink(n, ns, es, m.stop);
    forall a | 0 <= a < |es|
      ensures (es'[a].ident == BASIC <==> IsBasicArc(BasisOf(ns'), a)) && (a < n ==> es'[a].ident != AT_UPPER)
    {
      ExchangedArcs(n, ns, es, ns', es', m, a);
      assert es[a].ident == BASIC <==> IsBasicArc(BasisOf(ns), a);
    }
  }

  lemma ExchangedFlows(n: nat, ns: seq<Node>, es: seq<Arc>, ns': seq<Node>, es': seq<Arc>, m: Move)
    requires TreeOk(n, ns, es) && Exchanged(n, ns, es, ns', es', m)
    requires TreeOk(n, ns', es') && n <= m.e
    requires FlowsFit(n, ns, es, m)
    ensures FlowsOk(ns')
  {
    var b, c := BasisOf(ns), Basic(m.e, m.up, m.f, ns[m.stop].depth);
    forall v | 0 < v < |ns'|
      ensures (ns'[v].flow == 0 || ns'[v].flow == 1) && (ns'[v].pred == 0 ==> ns'[v].flow == 0)
    {
      var t := ArcWas(b, m.u, m.q, c, m.stop, m.w, m.d, v);
      assert BasisOf(ns').at[v] == BasicOf(ns'[v]);
      RootLink(n, ns', es', v);
      if v != m.u {
        ArcKept(b, m.u, m.q, c, m.stop, m.w, m.d, t);
        assert b.at[t] == BasicOf(ns[t]) && FitsAt(b, m.u, m.q, m.w, m.d, t);
        RootLink(n, ns, es, t);
      }
    }
  }

  /** Old basic arcs carry the swung flow, the leaving one by its new ident. */
  lemma ExchangedOld(n: nat, ns: seq<Node>, es: seq<Arc>, ns': seq<Node>, es': seq<Arc>, m: Move, t: int)
    requires TreeOk(n, ns, es) && Exchanged(n, ns, es, ns', es', m)
    requires TreeOk(n, ns', es') && IdentsOk(n, ns', es') && FlowsFit(n, ns, es, m)
    requires 0 < t <= n
    ensures 0 <= ns[t].basicArc < |es|
    ensures FlowOf(ns', es')[ns[t].basicArc] == SwungFlow(BasisOf(ns), m.u, m.q, m.w, m.d, t) as real
  {
    var b, c := BasisOf(ns), Basic(m.e, m.up, m.f, ns[m.stop].depth);
    OwnerIs(n, ns, es, t);
    if t == m.stop {
      assert es'[ns[m.stop].basicArc].ident == m.newSet;
    } else {
      ArcKept(b, m.u, m.q, c, m.stop, m.w, m.d, t);
      var v := NewPlace(b, m.u, m.stop, t);
      BasicFlow(n, ns', es', v);
      assert BasisOf(ns').at[v] == BasicOf(ns'[v]) && b.at[t] == BasicOf(ns[t]);
    }
  }

  /** The entering arc carries its new flow. */
  lemma ExchangedNew(n: nat, ns: seq<Node>, es: seq<Arc>, ns': seq<Node>, es': seq<Arc>, m: Move)
    requires TreeOk(n, ns, es) && Exchanged(n, ns, es, ns', es', m)
    requires TreeOk(n, ns', es') && IdentsOk(n, ns', es')
    ensures FlowOf(ns', es')[m.e] == m.f as real
  {
    var t := ArcWas(BasisOf(ns), m.u, m.q, Basic(m.e, m.up, m.f, ns[m.stop].depth), m.stop, m.w, m.d, m.u);
    assert BasisOf(ns').at[m.u] == BasicOf(ns'[m.u]);
    BasicFlow(n, ns', es', m.u);
  }

  /** Every other arc keeps its flow. */
  lemma ExchangedRest(n: nat, ns: seq<Node>, es: seq<Arc>, ns': seq<Node>, es': seq<Arc>, m: Move, a: int)
    requires TreeOk(n, ns, es) && Exchanged(n, ns, es, ns', es', m)
    requires IdentsOk(n, ns, es) && IdentsOk(n, ns', es') && |es'| == |es|
    requires 0 <= a < |es| && a != m.e && !IsBasicArc(BasisOf(ns), a)
    ensures FlowOf(ns', es')[a] == FlowOf(ns, es)[a]
  {
    ExchangedArcs(n, ns, es, ns', es', m, a);
    assert BasisOf(ns).at[m.stop].arc == ns[m.stop].basicArc;
    assert es[a].ident != BASIC && es'[a].ident == es[a].ident;
  }

  lemma ExchangedSwing(n: nat, ns: seq<Node>, es: seq<Arc>, ns': seq<Node>, es': seq<Arc>, m: Move, t: int)
    requires TreeOk(n, ns, es) && Exchanged(n, ns, es, ns', es', m)
    requires TreeOk(n, ns', es') && IdentsOk(n, ns, es) && IdentsOk(n, ns', es')
    requires FlowsFit(n, ns, es, m) && 0 < t <= n
    ensures 0 <= ns[t].basicArc < |es| && IsBasicArc(BasisOf(ns), ns[t].basicArc)
    ensures FlowOf(ns', es')[ns[t].basicArc] == FlowOf(ns, es)[ns[t].basicArc]
            + Signed(ns[t].orientation, Swing(BasisOf(ns), m.u, m.q, m.w, m.d as real, t))
  {
    ExchangedOld(n, ns, es, ns', es', m, t);
    BasicFlow(n, ns, es, t);
    SwungReal(BasisOf(ns), m.u, m.q, m.w, m.d, t);
    assert BasisOf(ns).at[t] == BasicOf(ns[t]);
  }

  /** The represented flow is the old one with d units around the cycle. */
  lemma ExchangedCirculated(n: nat, ns: seq<Node>, es: seq<Arc>, ns': seq<Node>, es': seq<Arc>, m: Move)
    requires TreeOk(n, ns, es) && Exchanged(n, ns, es, ns', es', m)
    requires TreeOk(n, ns', es') && IdentsOk(n, ns, es) && IdentsOk(n, ns', es')
    requires Enters(n, ns, es, m) && FlowsFit(n, ns, es, m)
    ensures Circulated(GraphOf(es), BasisOf(ns), FlowOf(ns, es), FlowOf(ns', es'),
                       m.u, m.q, m.w, m.d as real, m.e, m.up)
  {
    var b, x, x' := BasisOf(ns), FlowOf(ns, es), FlowOf(ns', es');
    ExchangedNew(n, ns, es, ns', es', m);
    assert !IsBasicArc(b, m.e) by {
      assert es[m.e].ident == BASIC <==> IsBasicArc(b, m.e);
    }
    ExchangedSwung(n, ns, es, ns', es', m, x'[m.e := x[m.e]]);
  }

  lemma ExchangedSwung(n: nat, ns: seq<Node>, es: seq<Arc>, ns': seq<Node>, es': seq<Arc>, m: Move, x1: seq<real>)
    requires TreeOk(n, ns, es) && Exchanged(n, ns, es, ns', es', m)
    requires TreeOk(n, ns', es') && IdentsOk(n, ns, es) && IdentsOk(n, ns', es')
    requires FlowsFit(n, ns, es, m) && !IsBasicArc(BasisOf(ns), m.e)
    requires x1 == FlowOf(ns', es')[m.e := FlowOf(ns, es)[m.e]]
    ensures Swung(GraphOf(es), BasisOf(ns), FlowOf(ns, es), x1, m.u, m.q, m.w, m.d as real)
  {
    var b, x := BasisOf(ns), FlowOf(ns, es);
    forall t {:trigger b.at[t]} | 0 < t < |b.pred|
      ensures x1[b.at[t].arc] == x[b.at[t].arc] + Signed(b.at[t].up, Swing(b, m.u, m.q, m.w, m.d as real, t))
    {
      ExchangedSwing(n, ns, es, ns', es', m, t);
      assert b.at[t] == BasicOf(ns[t]);
    }
    forall a {:trigger IsBasicArc(b, a)} | 0 <= a < |x| && !IsBasicArc(b, a) ensures x1[a] == x[a] {
      if a != m.e {
        ExchangedRest(n, ns, es, ns', es', m, a);
      }
    }
  }

  /** The shift moves the reduced cost of an arc by sigma at each end inside the subtree. */
  lemma ShiftedPrice(n: nat, ns: seq<Node>, es: seq<Arc>, ns': seq<Node>, es': seq<Arc>, m: Move, a: int, v: int,
                     p: int, up: bool)
    requires TreeOk(n, ns, es) && Exchanged(n, ns, es, ns', es', m)
    requires 0 <= v < |ns| && 0 <= p < |ns| && Joins(GraphOf(es), a, v, p, up)
    ensures var below := Sub(Preds(ns), m.stop);
            var d := (if p in below then m.sigma else 0) - (if v in below then m.sigma else 0);
            RedCost(GraphOf(es), Potentials(ns'), a) == RedCost(GraphOf(es), Potentials(ns), a) + if up then d else -d
  {
    assert Potentials(ns')[v] == ns'[v].potential && Potentials(ns')[p] == ns'[p].potential;
    assert Potentials(ns)[v] == ns[v].potential && Potentials(ns)[p] == ns[p].potential;
  }

  /** Only the link of stop crosses the border of its subtree, so the other links stay tight. */
  lemma KeptPrice(n: nat, ns: seq<Node>, es: seq<Arc>, ns': seq<Node>, es': seq<Arc>, m: Move, t: int)
    requires TreeOk(n, ns, es) && Exchanged(n, ns, es, ns', es', m) && Priced(n, ns, es)
    requires 0 < t < |ns| && t != m.stop
    ensures 0 <= ns[t].basicArc < |es| && RedCost(GraphOf(es), Potentials(ns'), ns[t].basicArc) == 0
  {
    var b := BasisOf(ns);
    assert b.at[t] == BasicOf(ns[t]);
    assert Joins(GraphOf(es), b.at[t].arc, t, b.pred[t], b.at[t].up);
    assert RedCost(GraphOf(es), Potentials(ns), b.at[t].arc) == 0;
    SameSide(b.pred, m.stop, t);
    ShiftedPrice(n, ns, es, ns', es', m, ns[t].basicArc, t, b.pred[t], ns[t].orientation);
  }

  /** Shifting the subtree by the reduced cost makes the entering arc tight and keeps the others. */
  lemma ExchangedPriced(n: nat, ns: seq<Node>, es: seq<Arc>, ns': seq<Node>, es': seq<Arc>, m: Move)
    requires TreeOk(n, ns, es) && Exchanged(n, ns, es, ns', es', m)
    requires TreeOk(n, ns', es') && Priced(n, ns, es) && Joins(GraphOf(es), m.e, m.u, m.q, m.up)
    requires var r := RedCost(GraphOf(es), Potentials(ns), m.e); m.sigma == if m.up then r else -r
    ensures Priced(n, ns', es')
  {
    var g, b, c := GraphOf(es), BasisOf(ns), Basic(m.e, m.up, m.f, ns[m.stop].depth);
    ExchangedGraph(n, ns, es, ns', es', m);
    AncRange(b.pred, m.u);
    ShiftedPrice(n, ns, es, ns', es', m, m.e, m.u, m.q, m.up);
    forall v | 0 < v < |b.pred| ensures RedCost(g, Potentials(ns'), BasisOf(ns').at[v].arc) == 0 {
      var t := ArcWas(b, m.u, m.q, c, m.stop, m.w, m.d, v);
      if v != m.u {
        ArcKept(b, m.u, m.q, c, m.stop, m.w, m.d, t);
        KeptPrice(n, ns, es, ns', es', m, t);
        assert b.at[t] == BasicOf(ns[t]);
      }
    }
    RootStays(b.pred, m.stop);
  }

  lemma RootStays(p: seq<int>, stop: int)
    requires IsTree(p) && 0 < stop < |p|
    ensures 0 !in Sub(p, stop)
  {
    Root(p);
  }

  /** Only the link of stop crosses the border of its subtree. */
  lemma SameSide(p: seq<int>, stop: int, t: int)
    requires IsTree(p) && 0 < t < |p| && t != stop
    ensures 0 <= p[t] < |p| && (t in Sub(p, stop) <==> p[t] in Sub(p, stop))
  {
    Step(p, t);
  }

  /** One basis exchange: a consistent basis becomes a consistent basis of the same graph. */
  lemma ExchangeKeeps(n: nat, ns: seq<Node>, es: seq<Arc>, ns': seq<Node>, es': seq<Arc>, m: Move)
    requires Consistent(n, ns, es) && Exchanged(n, ns, es, ns', es', m)
    requires Enters(n, ns, es, m) && FlowsFit(n, ns, es, m)
    requires var r := RedCost(GraphOf(es), Potentials(ns), m.e); m.sigma == if m.up then r else -r
    ensures GraphOf(es') == GraphOf(es) && TreeOk(n, ns', es') && IdentsOk(n, ns', es')
    ensures Circulated(GraphOf(es), BasisOf(ns), FlowOf(ns, es), FlowOf(ns', es'),
                       m.u, m.q, m.w, m.d as real, m.e, m.up)
    ensures Consistent(n, ns', es')
  {
    ExchangedGraph(n, ns, es, ns', es', m);
    ExchangedTree(n, ns, es, ns', es', m);
    ExchangedIdents(n, ns, es, ns', es', m);
    ExchangedFlows(n, ns, es, ns', es', m);
    ExchangedPriced(n, ns, es, ns', es', m);
    ExchangedCirculated(n, ns, es, ns', es', m);
    CycleConserves(GraphOf(es), BasisOf(ns), FlowOf(ns, es), FlowOf(ns', es'), m.u, m.q, m.w, m.d as real, m.e, m.up);
  }
}
