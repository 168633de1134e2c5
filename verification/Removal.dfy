/** What suspend_impl (bench/mcf/implicit.c) means for the circulation that a basis stands for: between two
    rounds of global_opt (bench/mcf/mcf.c) an optimal basis stays optimal, with the dropped arcs and without. */
module Removal {
  import opened Flows
  import opened Network
  import opened Compaction
  import opened Progress
  import opened PricingRun
  import opened Suspend
  import opened Simplex

  lemma EndsOfAll(n: nat, ns: seq<Node>, es: seq<Arc>)
    requires TreeOk(n, ns, es)
    ensures EndsInRange(ns, es, 0, |es|)
  {
  }

  // ----- suspend_impl and the optimum

  /** A flow on what is left, taken as a flow on all arcs: nothing on those that are gone. */
  function Extended(keep: seq<bool>, y': seq<real>): (y: seq<real>)
    requires |y'| == Rank(keep, |keep|)
    ensures |y| == |keep|
    ensures forall e {:trigger y[e]} :: 0 <= e < |keep| ==>
      y[e] == if keep[e] && Rank(keep, e) < |y'| then y'[Rank(keep, e)] else 0.0
  {
    seq(|keep|, e requires 0 <= e < |keep| =>
      if keep[e] && Rank(keep, e) < |y'| then y'[Rank(keep, e)] else 0.0)
  }

  /** A kept arc is the same arc at its new place, but for the list links. */
  lemma KeptArc(n: nat, ns: seq<Node>, es: seq<Arc>, keep: seq<bool>, ns': seq<Node>, es': seq<Arc>, e: nat)
    requires Removed(n, ns, es, keep, ns', es') && e < |es| && keep[e]
    ensures Rank(keep, e) < |es'| == Rank(keep, |keep|)
    ensures var a := es'[Rank(keep, e)]; a == es[e].(nextout := a.nextout, nextin := a.nextin)
  {
    SqueezedAt(es, keep, |es|, e);
  }

  /** It costs the same, and conserves if the other does. */
  lemma ExtendedSame(n: nat, ns: seq<Node>, es: seq<Arc>, keep: seq<bool>, ns': seq<Node>, es': seq<Arc>, y': seq<real>)
    requires Removed(n, ns, es, keep, ns', es') && |y'| == |es'| && IsGraph(GraphOf(es), n + 1)
    ensures |y'| == Rank(keep, |keep|)
    ensures TotalCost(GraphOf(es), Extended(keep, y')) == TotalCost(GraphOf(es'), y')
    ensures Conserves(GraphOf(es'), n + 1, y') ==> Conserves(GraphOf(es), n + 1, Extended(keep, y'))
  {
    var g, g', y := GraphOf(es), GraphOf(es'), Extended(keep, y');
    assert Compacts(g, y, g', y', keep) by {
      forall e {:trigger keep[e]} | 0 <= e < |keep| && keep[e]
        ensures Rank(keep, e) < |es'|
        ensures var r := Rank(keep, e);
          es'[r].tail == es[e].tail && es'[r].head == es[e].head && es'[r].cost == es[e].cost && y'[r] == y[e]
      {
        KeptArc(n, ns, es, keep, ns', es', e);
      }
    }
    SameCost(g, y, g', y', keep, |y|);
    if Conserves(g', n + 1, y') {
      forall v {:trigger Excess(g, y, v, |y|)} | 0 <= v < n + 1 ensures Excess(g, y, v, |y|) == 0.0 {
        SameExcess(g, y, g', y', keep, v, |y|);
        assert Excess(g', y', v, |y'|) == 0.0;
      }
    }
  }

  lemma ExtendedFeasible(n: nat, ns: seq<Node>, es: seq<Arc>, keep: seq<bool>, ns': seq<Node>, es': seq<Arc>,
                         y': seq<real>)
    requires Removed(n, ns, es, keep, ns', es') && Harmless(n, es, keep) && IsGraph(GraphOf(es), n + 1)
    requires Feasible(n, es', y')
    ensures |y'| == Rank(keep, |keep|) && Feasible(n, es, Extended(keep, y'))
    ensures TotalCost(GraphOf(es), Extended(keep, y')) == TotalCost(GraphOf(es'), y')
  {
    ExtendedSame(n, ns, es, keep, ns', es', y');
    var y := Extended(keep, y');
    forall e: nat | e < |y| ensures 0.0 <= y[e] <= 1.0 && (es[e].ident == FIXED ==> y[e] == 0.0) {
      if keep[e] {
        KeptArc(n, ns, es, keep, ns', es', e);
        assert y[e] == y'[Rank(keep, e)];
      }
    }
  }

  /** A basis that is optimal before the removal is optimal after it. */
  lemma DroppedOptimal(n: nat, ns: seq<Node>, es: seq<Arc>, first: nat, threshold: int, ns': seq<Node>, es': seq<Arc>)
    requires Consistent(n, ns, es) && n <= first <= |es| && threshold >= -2
    requires EndsInRange(ns, es, 0, |es|) && Removed(n, ns, es, Keeps(ns, es, first, threshold), ns', es')
    requires CostsLeast(n, es, BasisCost(ns, es))
    ensures CostsLeast(n, es', BasisCost(ns', es'))
  {
    var keep := Keeps(ns, es, first, threshold);
    ThresholdHarmless(n, ns, es, first, threshold);
    SuspensionKeeps(n, ns, es, first, threshold, ns', es');
    forall y' {:trigger Feasible(n, es', y')} | Feasible(n, es', y')
      ensures BasisCost(ns', es') <= TotalCost(GraphOf(es'), y')
    {
      ExtendedFeasible(n, ns, es, keep, ns', es', y');
      assert BasisCost(ns, es) <= TotalCost(GraphOf(es), Extended(keep, y'));
    }
  }

  /** A kept arc is dual infeasible exactly if it was. */
  lemma KeptInfeasible(n: nat, ns: seq<Node>, es: seq<Arc>, keep: seq<bool>, ns': seq<Node>, es': seq<Arc>, e: nat)
    requires Removed(n, ns, es, keep, ns', es') && Harmless(n, es, keep) && n <= e < |es| && keep[e]
    requires EndsInRange(ns, es, n, |es|) && EndsInRange(ns', es', n, |es'|) && Potentials(ns') == Potentials(ns)
    ensures n <= Rank(keep, e) < |es'|
    ensures Infeasible(ns', es', n, |es'|, Rank(keep, e)) <==> Infeasible(ns, es, n, |es|, e)
  {
    KeptArc(n, ns, es, keep, ns', es', e);
    RankSame(keep, n, n);
    RankMono(keep, n, e);
    assert Potentials(ns')[es[e].tail] == Potentials(ns)[es[e].tail];
    assert Potentials(ns')[es[e].head] == Potentials(ns)[es[e].head];
  }

  /** With a threshold of at least -1 no arc that goes is dual infeasible, so the removal changes nothing
      about whether there is an infeasible arc. */
  lemma DroppedPriced(n: nat, ns: seq<Node>, es: seq<Arc>, first: nat, threshold: int, ns': seq<Node>, es': seq<Arc>)
    requires Consistent(n, ns, es) && n <= first <= |es| && threshold >= -1
    requires EndsInRange(ns, es, 0, |es|) && Removed(n, ns, es, Keeps(ns, es, first, threshold), ns', es')
    ensures EndsInRange(ns, es, n, |es|)
    ensures forall e {:trigger Infeasible(ns, es, n, |es|, e)} ::
      Infeasible(ns, es, n, |es|, e) ==> !Goes(ns, es, first, threshold, e)
    ensures PricedOut(n, ns', es') <==> PricedOut(n, ns, es)
  {
    var keep := Keeps(ns, es, first, threshold);
    ThresholdHarmless(n, ns, es, first, threshold);
    SuspensionKeeps(n, ns, es, first, threshold, ns', es');
    EndsOfTree(n, ns', es');
    EndsOfTree(n, ns, es);
    forall e | Infeasible(ns, es, n, |es|, e)
      ensures keep[e] && n <= Rank(keep, e) < |es'| && Infeasible(ns', es', n, |es'|, Rank(keep, e))
    {
      KeptInfeasible(n, ns, es, keep, ns', es', e);
    }
    forall r | Infeasible(ns', es', n, |es'|, r) ensures exists e :: Infeasible(ns, es, n, |es|, e) {
      var e := CameFrom(keep, |keep|, r);
      KeptInfeasible(n, ns, es, keep, ns', es', e);
    }
  }

  /** While no arc is dual infeasible, the basis is the cheapest also with the dropped arcs put back. */
  lemma StillOptimal(n: nat, ns: seq<Node>, es: seq<Arc>, first: nat, threshold: int, ns': seq<Node>, es': seq<Arc>)
    requires Consistent(n, ns, es) && n <= first <= |es| && threshold >= -1
    requires EndsInRange(ns, es, 0, |es|) && Removed(n, ns, es, Keeps(ns, es, first, threshold), ns', es')
    requires PricedOut(n, ns', es')
    ensures CostsLeast(n, es, BasisCost(ns', es'))
  {
    DroppedPriced(n, ns, es, first, threshold, ns', es');
    SuspensionKeeps(n, ns, es, first, threshold, ns', es');
    PricedOutIsOptimal(n, ns, es);
  }

  lemma Dropped(n: nat, ns: seq<Node>, es: seq<Arc>, first: nat, threshold: int, ns': seq<Node>, es': seq<Arc>)
    requires Consistent(n, ns, es) && StronglyFeasible(ns) && n <= first <= |es| && threshold >= -2
    requires EndsInRange(ns, es, 0, |es|) && Removed(n, ns, es, Keeps(ns, es, first, threshold), ns', es')
    ensures Consistent(n, ns', es') && StronglyFeasible(ns') && Potentials(ns') == Potentials(ns)
    ensures BasisCost(ns', es') == BasisCost(ns, es)
    ensures CostsLeast(n, es, BasisCost(ns, es)) ==> CostsLeast(n, es', BasisCost(ns', es'))
    ensures threshold >= -1 ==> (PricedOut(n, ns', es') <==> PricedOut(n, ns, es))
    ensures threshold >= -1 && PricedOut(n, ns', es') ==> CostsLeast(n, es, BasisCost(ns', es'))
  {
    SuspensionKeeps(n, ns, es, first, threshold, ns', es');
    if CostsLeast(n, es, BasisCost(ns, es)) {
      DroppedOptimal(n, ns, es, first, threshold, ns', es');
    }
    if threshold >= -1 {
      DroppedPriced(n, ns, es, first, threshold, ns', es');
      if PricedOut(n, ns', es') {
        StillOptimal(n, ns, es, first, threshold, ns', es');
      }
    }
  }

  /** suspend_impl between two rounds, with the threshold that global_opt uses or any harmless one: the
      next round starts from a consistent basis of the same cost. */
  method DropArcs(net: Net, threshold: int) returns (susp: nat)
    requires net.Shape() && net.mImpl <= net.m && threshold >= -2
    requires Consistent(net.n, net.nodes[..], net.Es()) && StronglyFeasible(net.nodes[..])
    modifies net`m, net`mImpl, net`maxResidualNewM, net.nodes, net.arcs
    ensures net.Shape() && susp <= old(net.mImpl) && net.m == old(net.m) - susp && net.mImpl == old(net.mImpl) - susp
    ensures Consistent(net.n, net.nodes[..], net.Es()) && StronglyFeasible(net.nodes[..])
    ensures BasisCost(net.nodes[..], net.Es()) == old(BasisCost(net.nodes[..], net.Es()))
    ensures Potentials(net.nodes[..]) == old(Potentials(net.nodes[..]))
    // an optimal basis stays one; with the threshold of global_opt nothing infeasible goes, and a basis
    // without infeasible arcs is also a cheapest one of the network that still had the dropped arcs
    ensures old(net.IsOptimal()) ==> net.IsOptimal()
    ensures threshold >= -1 ==>
      (PricedOut(net.n, net.nodes[..], net.Es()) <==> PricedOut(net.n, old(net.nodes[..]), old(net.Es())))
    ensures threshold >= -1 && PricedOut(net.n, net.nodes[..], net.Es()) ==>
      CostsLeast(net.n, old(net.Es()), BasisCost(net.nodes[..], net.Es()))
  {
    ghost var ns, es, first := net.nodes[..], net.Es(), net.FirstImplicit();
    BasisOwned(net.n, ns, es);
    EndsOfAll(net.n, ns, es);
    susp := net.SuspendImpl(threshold);
    ghost var ns', es' := net.nodes[..], net.Es();
    Dropped(net.n, ns, es, first, threshold, ns', es');
  }
}
