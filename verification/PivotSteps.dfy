/** The two branches of a pivot in bench/mcf/psimplex.c, each with the state it leaves. */
module PivotSteps {
  import opened Trees
  import opened Links
  import opened Flows
  import opened Basis
  import opened Cycles
  import opened Network
  import opened Repivot
  import opened Pivoting
  import opened RatioTest
  import opened PivotRules
  import opened TreeUp
  import opened FlowUpdate
  import opened PricingRun

  /** bea is an infeasible arc proper with reduced cost redCost, and i, j are its ends in the
      order in which the pivot pushes flow down and up the tree. */
  ghost predicate Entering(n: nat, ns: seq<Node>, es: seq<Arc>, bea: int, redCost: int, i: int, j: int)
    requires TreeOk(n, ns, es)
  {
    && n <= bea < |es|
    && redCost == RedCost(GraphOf(es), Potentials(ns), bea)
    && IsDualInfeasible(es[bea].ident, redCost)
    && i == (if redCost > 0 then es[bea].head else es[bea].tail)
    && j == (if redCost > 0 then es[bea].tail else es[bea].head)
  }

  /** The exchange that the code performs after the ratio test. */
  ghost function MoveFor(ns: seq<Node>, es: seq<Arc>, bea: int, redCost: int, i: int, j: int, w: int, best: Best): Move
    requires 0 <= bea < |es| && 0 <= best.iminus < |ns|
  {
    var (u, q) := if best.xchange then (j, i) else (i, j);
    Move(u, q, best.iminus, w, if best.xchange then -best.delta else best.delta, bea, es[bea].tail == u,
         if redCost > 0 then 1 - best.delta else best.delta,
         NewSet(best.xchange, ns[best.iminus].orientation), Shift(es[bea].tail, u, q, redCost))
  }

  lemma SameEnd(p: seq<int>, i: int, w: int)
    requires IsTree(p) && IsLca(p, i, i, w)
    ensures w == i
  {
    AncRange(p, i);
    AncAntisym(p, w, i);
  }

  lemma EndsDiffer(n: nat, ns: seq<Node>, es: seq<Arc>, i: int, j: int, w: int, best: Best)
    requires Tested(n, ns, es, i, j, w, best) && best.iminus != NULL
    ensures i != j
  {
    if i == j {
      SameEnd(Preds(ns), i, w);
    }
  }

  /** The move is legal: its arc enters with a fitting flow and all flows stay within bounds. */
  lemma MoveLegal(n: nat, ns: seq<Node>, es: seq<Arc>, bea: int, redCost: int, i: int, j: int, w: int, best: Best)
    requires Tested(n, ns, es, i, j, w, best) && best.iminus != NULL && Entering(n, ns, es, bea, redCost, i, j)
    ensures 0 < best.iminus <= n && i != j
    ensures var m := MoveFor(ns, es, bea, redCost, i, j, w, best);
      && Exchange(BasisOf(ns), m.u, m.q, m.stop, m.w)
      && Enters(n, ns, es, m) && FlowsFit(n, ns, es, m)
      && m.sigma == (if m.up then redCost else -redCost)
      && Signed(m.up, m.d as real) == Signed(redCost < 0, best.delta as real)
  {
    EndsDiffer(n, ns, es, i, j, w, best);
    BlockingSide(n, ns, es, i, j, w, best);
    LeavingBound(n, ns, es, i, j, w, best);
    StepIsBit(n, ns, es, i, j, w, best);
    var m := MoveFor(ns, es, bea, redCost, i, j, w, best);
    SwingFitsMove(n, ns, es, i, j, w, best);
    SwungSwap(BasisOf(ns), i, j, w, best.delta, m.stop);
    ShiftIs(es[bea].tail, m.u, m.q, redCost);
  }

  lemma SwingFitsMove(n: nat, ns: seq<Node>, es: seq<Arc>, i: int, j: int, w: int, best: Best)
    requires Tested(n, ns, es, i, j, w, best)
    ensures SwingFits(BasisOf(ns), i, j, w, best.delta)
    ensures IsLca(BasisOf(ns).pred, j, i, w) && SwingFits(BasisOf(ns), j, i, w, -best.delta)
  {
    forall t | 0 < t <= n ensures FitsAt(BasisOf(ns), i, j, w, best.delta, t) {
      StepFits(n, ns, es, i, j, w, best, t);
    }
    var d := -best.delta;
    forall t | 0 < t <= n ensures FitsAt(BasisOf(ns), j, i, w, d, t) {
      StepFits(n, ns, es, i, j, w, best, t);
      SwungSwap(BasisOf(ns), i, j, w, best.delta, t);
    }
  }

  /** The arcs after arc `enter` has become basic and arc `leave` has gone to a bound. */
  function WithIdents(es: seq<Arc>, enter: int, leave: int, newSet: Ident): seq<Arc>
    requires 0 <= enter < |es| && 0 <= leave < |es|
  {
    var es1 := es[enter := es[enter].(ident := BASIC)];
    es1[leave := es1[leave].(ident := newSet)]
  }

  method ExchangeIdents(arcs: array<Arc>, stop: nat, bea: int, bla: int, newSet: Ident)
    requires stop <= arcs.Length && 0 <= bea < stop && 0 <= bla < stop
    modifies arcs
    ensures arcs[..stop] == WithIdents(old(arcs[..stop]), bea, bla, newSet)
    ensures forall e :: stop <= e < arcs.Length ==> arcs[e] == old(arcs[e])
  {
    arcs[bea] := arcs[bea].(ident := BASIC);
    arcs[bla] := arcs[bla].(ident := newSet);
  }

  /** What update_tree leaves, for the exchange m. */
  ghost predicate TreeMoved(n: nat, ns: seq<Node>, es: seq<Arc>, ns': seq<Node>, m: Move)
    requires TreeOk(n, ns, es)
  {
    && Exchange(BasisOf(ns), m.u, m.q, m.stop, m.w)
    && LinkedTree(LinksOf(ns'))
    && BasisOf(ns') == Repivoted(BasisOf(ns), m.u, m.q, Basic(m.e, m.up, m.f, ns[m.stop].depth), m.stop, m.w, m.d)
    && Shifted(ns, ns', Sub(Preds(ns), m.stop), m.sigma)
  }

  lemma MovedBy(n: nat, ns: seq<Node>, es: seq<Arc>, ns': seq<Node>, m: Move, c: Basic, d: int, sigma: int)
    requires TreeOk(n, ns, es) && Exchange(BasisOf(ns), m.u, m.q, m.stop, m.w)
    requires c == Basic(m.e, m.up, m.f, ns[m.stop].depth) && d == m.d && sigma == m.sigma
    requires LinkedTree(LinksOf(ns')) && BasisOf(ns') == Repivoted(BasisOf(ns), m.u, m.q, c, m.stop, m.w, d)
    requires Shifted(ns, ns', Sub(Preds(ns), m.stop), sigma)
    ensures TreeMoved(n, ns, es, ns', m)
  {
  }

  lemma MovedIsExchanged(n: nat, ns: seq<Node>, es: seq<Arc>, ns': seq<Node>, es': seq<Arc>, m: Move)
    requires TreeOk(n, ns, es) && TreeMoved(n, ns, es, ns', m)
    requires 0 <= m.e < |es| && 0 <= ns[m.stop].basicArc < |es|
    requires es' == WithIdents(es, m.e, ns[m.stop].basicArc, m.newSet)
    ensures Exchanged(n, ns, es, ns', es', m)
  {
  }

  /** The local variables of the branch and the call of update_tree. */
  method MoveTree(nodes: array<Node>, arcs: array<Arc>, ghost n: nat, ghost stop: nat, bea: int, redCost: int,
                  i: int, j: int, w: int, best: Best) returns (bla: int, newSet: Ident)
    requires nodes.Length == n + 1 && stop <= arcs.Length
    requires Tested(n, nodes[..], arcs[..stop], i, j, w, best) && best.iminus != NULL
    requires Entering(n, nodes[..], arcs[..stop], bea, redCost, i, j)
    modifies nodes
    ensures 0 < best.iminus <= n && 0 <= bla < stop && bla == old(nodes[best.iminus].basicArc)
    ensures TreeMoved(n, old(nodes[..]), arcs[..stop], nodes[..],
                      MoveFor(old(nodes[..]), arcs[..stop], bea, redCost, i, j, w, best))
    ensures newSet == NewSet(best.xchange, old(nodes[best.iminus].orientation))
  {
    ghost var ns, es := nodes[..], arcs[..stop];
    MoveLegal(n, ns, es, bea, redCost, i, j, w, best);
    OwnerIs(n, ns, es, best.iminus);
    var iplus, jplus := i, j;
    if best.xchange {
      iplus, jplus := j, i;
    }
    var jminus := nodes[best.iminus].pred;
    bla := nodes[best.iminus].basicArc;
    newSet := if best.xchange != nodes[best.iminus].orientation then AT_LOWER else AT_UPPER;
    var cycleOri := !best.xchange;
    var newFlow := if redCost > 0 then 1 - best.delta else best.delta;
    var newOrientation := if arcs[bea].tail == iplus then UP else DOWN;
    StepIsBit(n, ns, es, i, j, w, best);
    ghost var mv := MoveFor(ns, es, bea, redCost, i, j, w, best);
    ghost var c := Basic(bea, newOrientation, newFlow, ns[best.iminus].depth);
    ghost var d, sigma := if cycleOri then best.delta else -best.delta, Shift(arcs[bea].tail, iplus, jplus, redCost);
    assert mv.u == iplus && mv.q == jplus && mv.stop == best.iminus && mv.w == w;
    assert c == Basic(mv.e, mv.up, mv.f, ns[mv.stop].depth) && d == mv.d && sigma == mv.sigma;
    UpdateTree(nodes, arcs, cycleOri, newOrientation, best.delta, newFlow, iplus, jplus, best.iminus, jminus, w,
               bea, redCost);
    MovedBy(n, ns, es, nodes[..], mv, c, d, sigma);
  }

  /** psimplex.c, the branch with a leaving arc. */
  method ExchangeBasis(nodes: array<Node>, arcs: array<Arc>, n: nat, stop: nat, bea: int, redCost: int,
                       i: int, j: int, w: int, best: Best)
    requires nodes.Length == n + 1 && stop <= arcs.Length
    requires Tested(n, nodes[..], arcs[..stop], i, j, w, best) && best.iminus != NULL
    requires Entering(n, nodes[..], arcs[..stop], bea, redCost, i, j)
    modifies nodes, arcs
    ensures 0 < best.iminus <= n
    ensures Exchanged(n, old(nodes[..]), old(arcs[..stop]), nodes[..], arcs[..stop],
                      MoveFor(old(nodes[..]), old(arcs[..stop]), bea, redCost, i, j, w, best))
    ensures forall e :: stop <= e < arcs.Length ==> arcs[e] == old(arcs[e])
  {
    ghost var ns, es := nodes[..], arcs[..stop];
    var bla, newSet := MoveTree(nodes, arcs, n, stop, bea, redCost, i, j, w, best);
    ExchangeIdents(arcs, stop, bea, bla, newSet);
    MovedIsExchanged(n, ns, es, nodes[..], arcs[..stop], MoveFor(ns, es, bea, redCost, i, j, w, best));
  }

  // ----- the branch without a leaving arc

  /** What primal_update_flow leaves at node v. */
  ghost function FlipFlow(ns: seq<Node>, i: int, j: int, w: int, v: int): int
    requires IsTree(Preds(ns)) && 0 <= i < |ns| && 0 <= j < |ns| && 0 <= w < |ns| && 0 <= v < |ns|
  {
    if v in Path(Preds(ns), i, w) then FlippedFlow(ns[v], UP)
    else if v in Path(Preds(ns), j, w) then FlippedFlow(ns[v], DOWN)
    else ns[v].flow
  }

  lemma NoBlockFits(n: nat, ns: seq<Node>, es: seq<Arc>, i: int, j: int, w: int, best: Best)
    requires Tested(n, ns, es, i, j, w, best) && best.iminus == NULL
    ensures best.delta == 1 && SwingFits(BasisOf(ns), i, j, w, 1)
    ensures forall v {:trigger FlipFlow(ns, i, j, w, v)} :: 0 <= v <= n ==>
      SwungFlow(BasisOf(ns), i, j, w, 1, v) == FlipFlow(ns, i, j, w, v)
  {
    NothingBlocks(n, ns, es, i, j, w, best);
    SwingFitsMove(n, ns, es, i, j, w, best);
    forall v {:trigger FlipFlow(ns, i, j, w, v)} | 0 <= v <= n
      ensures SwungFlow(BasisOf(ns), i, j, w, 1, v) == FlipFlow(ns, i, j, w, v)
    {
      assert BasisOf(ns).at[v] == BasicOf(ns[v]);
      if v in Path(Preds(ns), i, w) {
        CappedOnPath(n, ns, es, i, w, v);
        assert 1 <= ResI(ns, v);
      }
    }
  }

  /** psimplex.c, the branch without a leaving arc: the entering arc changes its bound. */
  method ExchangeBound(nodes: array<Node>, arcs: array<Arc>, n: nat, stop: nat, bea: int, redCost: int,
                       i: int, j: int, w: int, best: Best)
    requires nodes.Length == n + 1 && stop <= arcs.Length
    requires Tested(n, nodes[..], arcs[..stop], i, j, w, best) && best.iminus == NULL
    requires Entering(n, nodes[..], arcs[..stop], bea, redCost, i, j)
    modifies nodes, arcs
    ensures BoundExchanged(n, old(nodes[..]), old(arcs[..stop]), nodes[..], arcs[..stop], i, j, w, bea,
                           if redCost > 0 then AT_LOWER else AT_UPPER)
    ensures SwingFits(BasisOf(old(nodes[..])), i, j, w, 1)
    ensures forall e :: stop <= e < arcs.Length ==> arcs[e] == old(arcs[e])
  {
    ghost var ns, es := nodes[..], arcs[..stop];
    NoBlockFits(n, ns, es, i, j, w, best);
    if arcs[bea].ident == AT_UPPER {
      arcs[bea] := arcs[bea].(ident := AT_LOWER);
    } else {
      arcs[bea] := arcs[bea].(ident := AT_UPPER);
    }
    if best.delta != 0 {
      PrimalUpdateFlow(nodes, i, j, w);
    }
    assert forall v {:trigger nodes[..][v]} :: 0 <= v <= n ==> nodes[..][v] == ns[v].(flow := FlipFlow(ns, i, j, w, v));
  }
}
