/** bench/mcf/psimplex.c: the primal network simplex method on the network structure. */
module Simplex {
  import opened Trees
  import opened Flows
  import opened Basis
  import opened Cycles
  import opened Network
  import opened Repivot
  import opened Pivoting
  import opened RatioTest
  import opened PivotRules
  import opened FlowUpdate
  import opened PricingRun
  import opened Pricing
  import opened PivotSteps
  import opened Progress
  import opened McfUtil
  import opened Start
  import opened Suspend

  // ----- optimality

  /** y is a circulation with flows in [0,1] that uses no fixed arc. */
  ghost predicate Feasible(n: nat, es: seq<Arc>, y: seq<real>) {
    && Conserves(GraphOf(es), n + 1, y)
    && forall e {:trigger y[e]} :: 0 <= e < |y| ==>
         && 0.0 <= y[e] <= 1.0
         && (es[e].ident == FIXED ==> y[e] == 0.0)
  }

  /** No such circulation costs less than c. */
  ghost predicate CostsLeast(n: nat, es: seq<Arc>, c: real) {
    forall y {:trigger Feasible(n, es, y)} :: Feasible(n, es, y) ==> c <= TotalCost(GraphOf(es), y)
  }

  /** No arc proper is dual infeasible. */
  ghost predicate PricedOut(n: nat, ns: seq<Node>, es: seq<Arc>) {
    EndsInRange(ns, es, n, |es|) && NoneInfeasible(ns, es, n, |es|)
  }

  /** The flow of a consistent basis is itself such a circulation. */
  lemma BasisFeasible(n: nat, ns: seq<Node>, es: seq<Arc>)
    requires Consistent(n, ns, es)
    ensures Feasible(n, es, FlowOf(ns, es))
  {
    forall e | 0 <= e < |es|
      ensures var f := FlowOf(ns, es)[e]; 0.0 <= f <= 1.0 && (es[e].ident == FIXED ==> f == 0.0)
    {
      FlowBounds(n, ns, es, e);
    }
  }

  /** The root can only take flow in, so what it takes in bounds the flow of every dummy arc. */
  lemma {:induction false} RootTakesIn(n: nat, es: seq<Arc>, y: seq<real>, e: int, k: nat)
    requires Dummies(n, es) && |y| == |es| && k <= |y| && 0 <= e < n
    requires forall a :: 0 <= a < |y| ==> 0.0 <= y[a]
    ensures Excess(GraphOf(es), y, 0, k) <= if e < k then -y[e] else 0.0
  {
    if k > 0 {
      RootTakesIn(n, es, y, e, k - 1);
    }
  }

  /** No circulation with flows in [0,1] uses a dummy arc. */
  lemma DummiesUnused(n: nat, es: seq<Arc>, y: seq<real>, e: int)
    requires Dummies(n, es) && Feasible(n, es, y) && 0 <= e < n
    ensures y[e] == 0.0
  {
    RootTakesIn(n, es, y, e, |y|);
    assert Excess(GraphOf(es), y, 0, |y|) == 0.0;
  }

  lemma BasicIsTight(n: nat, ns: seq<Node>, es: seq<Arc>, e: int)
    requires Consistent(n, ns, es) && 0 <= e < |es| && es[e].ident == BASIC
    ensures RedCost(GraphOf(es), Potentials(ns), e) == 0
  {
    assert IsBasicArc(BasisOf(ns), e);
    var v :| 0 < v < |ns| && BasisOf(ns).at[v].arc == e;
    assert RedCost(GraphOf(es), Potentials(ns), BasisOf(ns).at[v].arc) == 0;
  }

  lemma EndsOfTree(n: nat, ns: seq<Node>, es: seq<Arc>)
    requires TreeOk(n, ns, es)
    ensures EndsInRange(ns, es, n, |es|)
    ensures forall e :: n <= e < |es| ==>
      EndsInRange(ns, es, n, |es|) && ReducedCost(ns, es[e]) == RedCost(GraphOf(es), Potentials(ns), e)
  {
  }

  /** When no arc is dual infeasible the represented flow is a cheapest feasible circulation. */
  lemma Optimal(n: nat, ns: seq<Node>, es: seq<Arc>, y: seq<real>)
    requires Consistent(n, ns, es) && Feasible(n, es, y)
    requires EndsInRange(ns, es, n, |es|) && forall e :: n <= e < |es| ==> !Infeasible(ns, es, n, |es|, e)
    ensures BasisCost(ns, es) <= TotalCost(GraphOf(es), y)
  {
    var g, pot, x := GraphOf(es), Potentials(ns), FlowOf(ns, es);
    EndsOfTree(n, ns, es);
    forall e | 0 <= e < |es|
      ensures y[e] == x[e]
        || (0.0 <= y[e] <= 1.0 && (RedCost(g, pot, e) > 0 ==> x[e] == 0.0) && (RedCost(g, pot, e) < 0 ==> x[e] == 1.0))
    {
      if e < n {
        FlowBounds(n, ns, es, e);
        DummiesUnused(n, es, y, e);
      } else {
        assert !Infeasible(ns, es, n, |es|, e);
        if es[e].ident == BASIC { BasicIsTight(n, ns, es, e); }
      }
    }
    Cheapest(g, pot, x, y);
  }

  lemma PricedOutIsOptimal(n: nat, ns: seq<Node>, es: seq<Arc>)
    requires Consistent(n, ns, es) && PricedOut(n, ns, es)
    ensures CostsLeast(n, es, BasisCost(ns, es))
  {
    forall y {:trigger Feasible(n, es, y)} | Feasible(n, es, y) ensures BasisCost(ns, es) <= TotalCost(GraphOf(es), y) {
      Optimal(n, ns, es, y);
    }
  }

  // ----- one pivot, seen from outside

  lemma CostStep(redCost: int, delta: int)
    requires delta == 0 || delta == 1
    ensures Times(redCost, Signed(redCost < 0, delta as real)) == -((delta * Abs(redCost)) as real)
  {
    TimesUnit(redCost);
    TimesNegate(redCost, delta as real);
  }

  /** The cost of a pivot, freed from the direction in which the entering arc is used. */
  lemma PivotCost(g: Graph, b: Basis, pot: seq<int>, x: seq<real>, x': seq<real>, u: int, q: int, w: int, d: int,
                  e: int, up: bool, redCost: int, delta: int)
    requires Circulated(g, b, x, x', u, q, w, d as real, e, up) && Tight(g, b, pot)
    requires redCost == RedCost(g, pot, e) && (delta == 0 || delta == 1)
    requires Signed(up, d as real) == Signed(redCost < 0, delta as real)
    ensures TotalCost(g, x') == TotalCost(g, x) - (delta * Abs(redCost)) as real
  {
    CycleCost(g, b, pot, x, x', u, q, w, d as real, e, up);
    CostStep(redCost, delta);
  }

  lemma ExchangeOutcome(n: nat, ns: seq<Node>, es: seq<Arc>, ns': seq<Node>, es': seq<Arc>,
                        bea: int, redCost: int, i: int, j: int, w: int, best: Best)
    requires Consistent(n, ns, es) && Tested(n, ns, es, i, j, w, best) && Entering(n, ns, es, bea, redCost, i, j)
    requires best.iminus != NULL && 0 < best.iminus <= n
    requires Exchanged(n, ns, es, ns', es', MoveFor(ns, es, bea, redCost, i, j, w, best))
    ensures Consistent(n, ns', es') && GraphOf(es') == GraphOf(es)
    ensures SameNetwork(ns, es, ns', es') && (best.delta == 0 || best.delta == 1)
    ensures BasisCost(ns', es') == BasisCost(ns, es) - (best.delta * Abs(redCost)) as real
  {
    var m := MoveFor(ns, es, bea, redCost, i, j, w, best);
    MoveLegal(n, ns, es, bea, redCost, i, j, w, best);
    StepIsBit(n, ns, es, i, j, w, best);
    ExchangedSame(n, ns, es, ns', es', m);
    ExchangeKeeps(n, ns, es, ns', es', m);
    PivotCost(GraphOf(es), BasisOf(ns), Potentials(ns), FlowOf(ns, es), FlowOf(ns', es'), m.u, m.q, m.w, m.d, m.e, m.up,
              redCost, best.delta);
  }

  /** On a strongly feasible basis a pivot without a step lowers the sum of the potentials. */
  lemma ExchangeProgress(n: nat, ns: seq<Node>, es: seq<Arc>, ns': seq<Node>, es': seq<Arc>,
                         bea: int, redCost: int, i: int, j: int, w: int, best: Best)
    requires Tested(n, ns, es, i, j, w, best) && Entering(n, ns, es, bea, redCost, i, j)
    requires best.iminus != NULL && 0 < best.iminus <= n && StronglyFeasible(ns)
    requires Exchanged(n, ns, es, ns', es', MoveFor(ns, es, bea, redCost, i, j, w, best))
    ensures StronglyFeasible(ns')
    ensures best.delta == 1 || PotentialSum(ns', |ns'|) < PotentialSum(ns, |ns|)
  {
    ExchangeStrong(n, ns, es, ns', es', bea, redCost, i, j, w, best);
    if i != w {
      var m := MoveFor(ns, es, bea, redCost, i, j, w, best);
      MoveLegal(n, ns, es, bea, redCost, i, j, w, best);
      AncRange(Preds(ns), i);
      var s := Sub(Preds(ns), m.stop);
      assert i in s;
      ShiftLowersSum(ns, ns', s, m.sigma, |ns|);
    }
  }

  lemma BoundOutcome(n: nat, ns: seq<Node>, es: seq<Arc>, ns': seq<Node>, es': seq<Arc>,
                     bea: int, redCost: int, i: int, j: int, w: int)
    requires Consistent(n, ns, es) && Entering(n, ns, es, bea, redCost, i, j)
    requires BoundExchanged(n, ns, es, ns', es', i, j, w, bea, if redCost > 0 then AT_LOWER else AT_UPPER)
    requires SwingFits(BasisOf(ns), i, j, w, 1)
    ensures Consistent(n, ns', es') && GraphOf(es') == GraphOf(es) && SameNetwork(ns, es, ns', es')
    ensures BasisCost(ns', es') == BasisCost(ns, es) - Abs(redCost) as real
  {
    var newIdent := if redCost > 0 then AT_LOWER else AT_UPPER;
    var up := redCost < 0;
    BoundKeeps(n, ns, es, ns', es', i, j, w, bea, up, newIdent);
    PivotCost(GraphOf(es), BasisOf(ns), Potentials(ns), FlowOf(ns, es), FlowOf(ns', es'), i, j, w, 1, bea, up,
      redCost, 1);
  }

  lemma EnteringEnds(n: nat, ns: seq<Node>, es: seq<Arc>, bea: int, redCost: int)
    requires TreeOk(n, ns, es) && n <= bea < |es|
    requires redCost == RedCost(GraphOf(es), Potentials(ns), bea) && IsDualInfeasible(es[bea].ident, redCost)
    ensures 0 < es[bea].tail <= n && 0 < es[bea].head <= n
    ensures Entering(n, ns, es, bea, redCost, if redCost > 0 then es[bea].head else es[bea].tail,
                     if redCost > 0 then es[bea].tail else es[bea].head)
  {
  }

  /** The measure of the pivot loop cannot fall below these bounds. */
  lemma MeasureBounded(n: nat, ns: seq<Node>, es: seq<Arc>)
    requires Consistent(n, ns, es)
    ensures BasisCost(ns, es) >= NegativeCosts(GraphOf(es), |es|) as real
    ensures PotentialSum(ns, |ns|) >= SumFloor(n, GraphOf(es), |ns|)
  {
    forall e | 0 <= e < |es| ensures 0.0 <= FlowOf(ns, es)[e] <= 1.0 {
      FlowBounds(n, ns, es, e);
    }
    CostBounded(GraphOf(es), FlowOf(ns, es), |es|);
    SumBounded(n, ns, es, |ns|);
  }

  /** What one pivot achieves: a consistent basis of the same network again, the cost down by delta times the size
      of the reduced cost; and strong feasibility is kept, with the potentials falling in total
      when no unit moved. */
  ghost predicate Pivoted(n: nat, ns: seq<Node>, es: seq<Arc>, ns': seq<Node>, es': seq<Arc>, redCost: int,
                          delta: int) {
    && Consistent(n, ns', es') && GraphOf(es') == GraphOf(es) && SameNetwork(ns, es, ns', es')
    && (delta == 0 || delta == 1)
    && BasisCost(ns', es') == BasisCost(ns, es) - (delta * Abs(redCost)) as real
    && (StronglyFeasible(ns) ==>
         && StronglyFeasible(ns')
         && (delta == 0 ==> PotentialSum(ns', |ns'|) < PotentialSum(ns, |ns|)))
  }

  /** A better basis of the same network: the cost has fallen by at least one, or it has stayed and
      the potentials have fallen. */
  ghost predicate Improved(n: nat, ns: seq<Node>, es: seq<Arc>, ns': seq<Node>, es': seq<Arc>) {
    && Consistent(n, ns', es') && StronglyFeasible(ns')
    && GraphOf(es') == GraphOf(es) && SameNetwork(ns, es, ns', es')
    && (BasisCost(ns', es') <= BasisCost(ns, es) - 1.0
        || (BasisCost(ns', es') == BasisCost(ns, es) && PotentialSum(ns', |ns'|) < PotentialSum(ns, |ns|)))
  }

  lemma PivotFalls(n: nat, ns: seq<Node>, es: seq<Arc>, ns': seq<Node>, es': seq<Arc>, redCost: int, delta: int)
    requires Pivoted(n, ns, es, ns', es', redCost, delta) && StronglyFeasible(ns) && redCost != 0
    ensures Improved(n, ns, es, ns', es')
  {
    CostFalls(BasisCost(ns, es), BasisCost(ns', es'), redCost, delta);
  }

  lemma CostFalls(c: real, c': real, redCost: int, delta: int)
    requires redCost != 0 && (delta == 0 || delta == 1) && c' == c - (delta * Abs(redCost)) as real
    ensures if delta == 0 then c' == c else c' <= c - 1.0
  {
  }

  lemma SameTrans(ns: seq<Node>, es: seq<Arc>, ns1: seq<Node>, es1: seq<Arc>, ns2: seq<Node>, es2: seq<Arc>)
    requires SameNetwork(ns, es, ns1, es1) && SameNetwork(ns1, es1, ns2, es2)
    ensures SameNetwork(ns, es, ns2, es2)
  {
  }

  /** Arc e has gone to its other bound. */
  function Turned(es: seq<Arc>, e: int, redCost: int): seq<Arc>
    requires 0 <= e < |es|
  {
    es[e := es[e].(ident := if redCost > 0 then AT_LOWER else AT_UPPER)]
  }

  /** What the branch taken for `best` achieves. On a strongly feasible basis the self-loops change their
      bound, no other arc does, and then nothing else changes. */
  ghost predicate Branched(n: nat, ns: seq<Node>, es: seq<Arc>, ns': seq<Node>, es': seq<Arc>, bea: int, redCost: int,
                           i: int, j: int, best: Best)
    requires 0 <= bea < |es|
  {
    && Pivoted(n, ns, es, ns', es', redCost, best.delta)
    && (StronglyFeasible(ns) ==>
         && (best.iminus == NULL <==> i == j)
         && (i == j ==> ns' == ns && es' == Turned(es, bea, redCost)))
  }

  lemma ExchangeBranched(n: nat, ns: seq<Node>, es: seq<Arc>, ns': seq<Node>, es': seq<Arc>,
                         bea: int, redCost: int, i: int, j: int, w: int, best: Best)
    requires Consistent(n, ns, es) && Tested(n, ns, es, i, j, w, best) && Entering(n, ns, es, bea, redCost, i, j)
    requires best.iminus != NULL && 0 < best.iminus <= n
    requires Exchanged(n, ns, es, ns', es', MoveFor(ns, es, bea, redCost, i, j, w, best))
    ensures Branched(n, ns, es, ns', es', bea, redCost, i, j, best)
  {
    EndsDiffer(n, ns, es, i, j, w, best);
    ExchangeOutcome(n, ns, es, ns', es', bea, redCost, i, j, w, best);
    if StronglyFeasible(ns) {
      ExchangeProgress(n, ns, es, ns', es', bea, redCost, i, j, w, best);
    }
  }

  lemma BoundTurned(n: nat, ns: seq<Node>, es: seq<Arc>, ns': seq<Node>, es': seq<Arc>,
                    bea: int, redCost: int, i: int, j: int, w: int, best: Best)
    requires Tested(n, ns, es, i, j, w, best) && best.iminus == NULL && StronglyFeasible(ns) && 0 <= bea < |es|
    requires BoundExchanged(n, ns, es, ns', es', i, j, w, bea, if redCost > 0 then AT_LOWER else AT_UPPER)
    ensures i == j && ns' == ns && es' == Turned(es, bea, redCost)
  {
    BoundStrong(n, ns, es, ns', es', i, j, w, best, bea, if redCost > 0 then AT_LOWER else AT_UPPER);
  }

  lemma BoundBranched(n: nat, ns: seq<Node>, es: seq<Arc>, ns': seq<Node>, es': seq<Arc>,
                      bea: int, redCost: int, i: int, j: int, w: int, best: Best)
    requires Consistent(n, ns, es) && Tested(n, ns, es, i, j, w, best) && Entering(n, ns, es, bea, redCost, i, j)
    requires best.iminus == NULL && SwingFits(BasisOf(ns), i, j, w, 1)
    requires BoundExchanged(n, ns, es, ns', es', i, j, w, bea, if redCost > 0 then AT_LOWER else AT_UPPER)
    ensures Branched(n, ns, es, ns', es', bea, redCost, i, j, best)
  {
    NothingBlocks(n, ns, es, i, j, w, best);
    BoundOutcome(n, ns, es, ns', es', bea, redCost, i, j, w);
    if StronglyFeasible(ns) {
      BoundTurned(n, ns, es, ns', es', bea, redCost, i, j, w, best);
    }
  }

  // ----- the network structure and the pivot loop

  /** network_t: n nodes besides the root, the dummy arcs at index 0 .. n-1 and the m arcs
      proper from index n on. */
  class Net {
    const n: nat
    const nodes: array<Node>
    const arcs: array<Arc>
    var m: nat
    var mImpl: nat
    var maxResidualNewM: int
    var iterations: int
    var boundExchanges: int
    var checksum: int

    ghost predicate Shape()
      reads `m
    {
      n > 0 && nodes.Length == n + 1 && n + m <= arcs.Length
    }

    ghost function Es(): seq<Arc>
      reads `m, arcs
      requires Shape()
    {
      arcs[..n + m]
    }

    constructor (n: nat, nodes: array<Node>, arcs: array<Arc>, m: nat, mImpl: nat, maxResidualNewM: int)
      requires n > 0 && nodes.Length == n + 1 && n + m <= arcs.Length
      ensures Shape() && this.n == n && this.nodes == nodes && this.arcs == arcs && this.m == m
      ensures this.mImpl == mImpl && this.maxResidualNewM == maxResidualNewM
      ensures iterations == boundExchanges == checksum == 0
    {
      this.n, this.nodes, this.arcs, this.m := n, nodes, arcs, m;
      this.mImpl, this.maxResidualNewM := mImpl, maxResidualNewM;
      iterations, boundExchanges, checksum := 0, 0, 0;
    }

    /** primal_start_artificial on this network. */
    method StartArtificial()
      requires Shape()
      requires forall e :: n <= e < n + m ==> 0 < arcs[e].tail <= n && 0 < arcs[e].head <= n
      modifies nodes, arcs
      ensures Consistent(n, nodes[..], Es()) && StronglyFeasible(nodes[..])
      ensures forall e :: n <= e < n + m ==> arcs[e] == Released(old(arcs[e]))
    {
      PrimalStartArtificial(nodes, arcs, n, m);
      StarConsistent(n, nodes[..], arcs[..n + m]);
    }

    /** The branch of the loop body that exchanges an arc of the basis. */
    method PivotBasis(bea: int, redCost: int, i: int, j: int, w: int, best: Best)
      requires Shape() && Consistent(n, nodes[..], Es())
      requires Tested(n, nodes[..], Es(), i, j, w, best) && best.iminus != NULL
      requires Entering(n, nodes[..], Es(), bea, redCost, i, j)
      modifies nodes, arcs
      ensures Branched(n, old(nodes[..]), old(Es()), nodes[..], Es(), bea, redCost, i, j, best)
    {
      ghost var ns, es := nodes[..], Es();
      ExchangeBasis(nodes, arcs, n, n + m, bea, redCost, i, j, w, best);
      ExchangeBranched(n, ns, es, nodes[..], Es(), bea, redCost, i, j, w, best);
    }

    /** A call of refresh_potential on a consistent basis: nothing but the checksum changes. */
    method RefreshQuietly()
      requires Shape() && Consistent(n, nodes[..], Es())
      modifies this`checksum, nodes
      ensures nodes[..] == old(nodes[..])
      ensures checksum == old(checksum) + |DownNodes(nodes[..])|
    {
      ghost var ns, es := nodes[..], Es();
      ArcsOfTree(n, ns, es, arcs[..]);
      var down := RefreshPotential(nodes, arcs);
      SamePrices(ns, nodes[..], es, arcs[..]);
      RefreshIdempotent(n, ns, nodes[..], es);
      checksum := checksum + down;
    }

    /** The branch of the loop body in which the entering arc goes to its other bound. */
    method PivotBound(bea: int, redCost: int, i: int, j: int, w: int, best: Best)
      requires Shape() && Consistent(n, nodes[..], Es())
      requires Tested(n, nodes[..], Es(), i, j, w, best) && best.iminus == NULL
      requires Entering(n, nodes[..], Es(), bea, redCost, i, j)
      modifies nodes, arcs
      ensures Branched(n, old(nodes[..]), old(Es()), nodes[..], Es(), bea, redCost, i, j, best)
    {
      ghost var ns, es := nodes[..], Es();
      ExchangeBound(nodes, arcs, n, n + m, bea, redCost, i, j, w, best);
      BoundBranched(n, ns, es, nodes[..], Es(), bea, redCost, i, j, w, best);
    }

    /** The two branches, after the ratio test. */
    method PivotTested(bea: int, redCost: int, i: int, j: int, w: int, best: Best)
      requires Shape() && Consistent(n, nodes[..], Es())
      requires Tested(n, nodes[..], Es(), i, j, w, best) && Entering(n, nodes[..], Es(), bea, redCost, i, j)
      modifies nodes, arcs
      ensures Branched(n, old(nodes[..]), old(Es()), nodes[..], Es(), bea, redCost, i, j, best)
    {
      if best.iminus == NULL {
        PivotBound(bea, redCost, i, j, w, best);
      } else {
        PivotBasis(bea, redCost, i, j, w, best);
      }
    }

    /** The counters of the loop body; every 200th pivot that changes the basis refreshes the potentials. */
    method Count(best: Best)
      requires Shape() && Consistent(n, nodes[..], Es())
      modifies `iterations, `boundExchanges, `checksum, nodes
      ensures nodes[..] == old(nodes[..]) && iterations == old(iterations) + 1
      ensures boundExchanges == old(boundExchanges) + if best.iminus == NULL then 1 else 0
      ensures checksum == old(checksum)
        + if best.iminus != NULL && old(iterations) % 200 == 0 then |DownNodes(nodes[..])| else 0
    {
      iterations := iterations + 1;
      if best.iminus == NULL {
        boundExchanges := boundExchanges + 1;
      } else if (iterations - 1) % 200 == 0 {
        RefreshQuietly();
      }
    }

    /** The direction of the cycle, and the ratio test. */
    method Test(bea: int, redCost: int) returns (iplus: int, jplus: int, w: int, best: Best)
      requires Shape() && Consistent(n, nodes[..], Es()) && n <= bea < n + m
      requires redCost == RedCost(GraphOf(Es()), Potentials(nodes[..]), bea)
        && IsDualInfeasible(arcs[bea].ident, redCost)
      ensures Tested(n, nodes[..], Es(), iplus, jplus, w, best)
      ensures Entering(n, nodes[..], Es(), bea, redCost, iplus, jplus)
      ensures iplus == jplus <==> arcs[bea].tail == arcs[bea].head
    {
      EnteringEnds(n, nodes[..], Es(), bea, redCost);
      iplus, jplus := arcs[bea].tail, arcs[bea].head;
      if redCost > 0 {
        iplus, jplus := arcs[bea].head, arcs[bea].tail;
      }
      best, w := PrimalIminus(nodes, iplus, jplus);
    }

    /** The loop body for an entering arc, from any consistent basis. */
    method Pivot(bea: int, redCost: int) returns (delta: int)
      requires Shape() && Consistent(n, nodes[..], Es()) && n <= bea < n + m
      requires redCost == RedCost(GraphOf(Es()), Potentials(nodes[..]), bea)
        && IsDualInfeasible(arcs[bea].ident, redCost)
      modifies `iterations, `boundExchanges, `checksum, nodes, arcs
      ensures Pivoted(n, old(nodes[..]), old(Es()), nodes[..], Es(), redCost, delta)
      ensures iterations == old(iterations) + 1 && old(boundExchanges) <= boundExchanges <= old(boundExchanges) + 1
      // every 200th pivot that changes the basis refreshes the potentials
      ensures checksum == old(checksum) + if boundExchanges == old(boundExchanges) && old(iterations) % 200 == 0
                                          then |DownNodes(nodes[..])| else 0
      // on a strongly feasible basis the self-loops change their bound, no other arc does, and then
      // nothing else changes
      ensures old(StronglyFeasible(nodes[..])) ==>
        (boundExchanges != old(boundExchanges) <==> old(arcs[bea].tail == arcs[bea].head))
      ensures old(StronglyFeasible(nodes[..]) && arcs[bea].tail == arcs[bea].head) ==>
        nodes[..] == old(nodes[..]) && Es() == Turned(old(Es()), bea, redCost)
    {
      var iplus, jplus, w, best := Test(bea, redCost);
      delta := best.delta;
      PivotTested(bea, redCost, iplus, jplus, w, best);
      Count(best);
    }

    /** No circulation is cheaper than the one the basis stands for. */
    ghost predicate IsOptimal()
      reads `m, nodes, arcs
      requires Shape()
    {
      CostsLeast(n, Es(), BasisCost(nodes[..], Es()))
    }

    /** The loop body when pricing finds no entering arc. */
    lemma NothingToPrice(stop: int)
      requires Shape() && TreeOk(n, nodes[..], Es()) && stop == n + m
      requires EndsInRange(nodes[..], arcs[..], n, stop)
      requires NoneInfeasible(nodes[..], arcs[..], n, stop)
      ensures PricedOut(n, nodes[..], Es())
    {
      var ns, es := nodes[..], Es();
      EndsOfTree(n, ns, es);
      forall e | n <= e < |es| ensures !Infeasible(ns, es, n, |es|, e) {
        assert !Infeasible(ns, arcs[..], n, stop, e);
      }
    }

    /** The loop: pivots until no arc is dual infeasible. It ends because every pivot lowers the cost
        or, at equal cost, the sum of the potentials. */
    method PivotAll(pricer: Pricer)
      requires Shape() && Consistent(n, nodes[..], Es()) && StronglyFeasible(nodes[..])
      requires pricer.Valid() && pricer.initialize
      modifies `iterations, `boundExchanges, `checksum, nodes, arcs
      modifies pricer, pricer.basket, pricer.perm
      ensures Consistent(n, nodes[..], Es()) && StronglyFeasible(nodes[..]) && PricedOut(n, nodes[..], Es())
      ensures GraphOf(Es()) == old(GraphOf(Es())) && SameNetwork(old(nodes[..]), old(Es()), nodes[..], Es())
      ensures pricer.Valid() && pricer.initialize
      ensures 0 <= boundExchanges - old(boundExchanges) <= iterations - old(iterations) && checksum >= old(checksum)
      ensures iterations == old(iterations) ==>
        nodes[..] == old(nodes[..]) && Es() == old(Es()) && checksum == old(checksum)
    {
      ghost var g := GraphOf(Es());
      ghost var cost, sum := BasisCost(nodes[..], Es()), PotentialSum(nodes[..], nodes.Length);
      ghost var leastCost, leastSum := NegativeCosts(g, |g.cost|) as real, SumFloor(n, g, n + 1);
      var opt := false;
      MeasureBounded(n, nodes[..], Es());
      while !opt
        invariant Consistent(n, nodes[..], Es()) && StronglyFeasible(nodes[..]) && GraphOf(Es()) == g
        invariant SameNetwork(old(nodes[..]), old(Es()), nodes[..], Es())
        invariant cost == BasisCost(nodes[..], Es()) && sum == PotentialSum(nodes[..], nodes.Length)
        invariant leastCost <= cost && leastSum <= sum
        invariant pricer.Valid() && (!pricer.initialize ==> pricer.first == n && pricer.last == n + m)
        invariant opt ==> pricer.initialize && PricedOut(n, nodes[..], Es())
        invariant 0 <= boundExchanges - old(boundExchanges) <= iterations - old(iterations)
        invariant checksum >= old(checksum)
        invariant iterations == old(iterations) ==>
          nodes[..] == old(nodes[..]) && Es() == old(Es()) && checksum == old(checksum)
        decreases !opt, cost - leastCost, sum - leastSum
      {
        ghost var ns, es := nodes[..], Es();
        opt := Iterate(pricer);
        if !opt {
          SameTrans(old(nodes[..]), old(Es()), ns, es, nodes[..], Es());
        }
        cost, sum := BasisCost(nodes[..], Es()), PotentialSum(nodes[..], nodes.Length);
        MeasureBounded(n, nodes[..], Es());
      }
    }

    /** primal_net_simplex. */
    method PrimalNetSimplex(pricer: Pricer)
      requires Shape() && Consistent(n, nodes[..], Es()) && StronglyFeasible(nodes[..])
      requires pricer.Valid() && pricer.initialize
      modifies `iterations, `boundExchanges, `checksum, nodes, arcs
      modifies pricer, pricer.basket, pricer.perm
      ensures Consistent(n, nodes[..], Es()) && StronglyFeasible(nodes[..])
      ensures GraphOf(Es()) == old(GraphOf(Es())) && SameNetwork(old(nodes[..]), old(Es()), nodes[..], Es())
      ensures Feasible(n, Es(), FlowOf(nodes[..], Es())) && IsOptimal() && PricedOut(n, nodes[..], Es())
      ensures pricer.Valid() && pricer.initialize
      // the last refresh counts the DOWN nodes of the final basis, on top of those counted on the way
      ensures 0 <= boundExchanges - old(boundExchanges) <= iterations - old(iterations)
      ensures checksum >= old(checksum) + |DownNodes(nodes[..])|
      ensures iterations == old(iterations) ==>
        nodes[..] == old(nodes[..]) && Es() == old(Es()) && checksum == old(checksum) + |DownNodes(nodes[..])|
    {
      PivotAll(pricer);
      RefreshQuietly();
      PricedOutIsOptimal(n, nodes[..], Es());
      BasisFeasible(n, nodes[..], Es());
    }

    /** The arcs that pricing looks at. */
    lemma ArcsProper()
      requires Shape() && TreeOk(n, nodes[..], Es())
      ensures EndsInRange(nodes[..], arcs[..], n, n + m)
    {
      EndsOfTree(n, nodes[..], Es());
    }

    lemma FoundArc(bea: int)
      requires Shape() && TreeOk(n, nodes[..], Es()) && n <= bea < n + m
      ensures EndsInRange(nodes[..], arcs[..], n, n + m)
      ensures ReducedCost(nodes[..], arcs[bea]) == RedCost(GraphOf(Es()), Potentials(nodes[..]), bea)
    {
      EndsOfTree(n, nodes[..], Es());
      assert arcs[bea] == Es()[bea];
    }

    /** Pricing: NULL means that no arc is dual infeasible. */
    method Price(pricer: Pricer) returns (bea: int, redCost: int)
      requires Shape() && Consistent(n, nodes[..], Es())
      requires pricer.Valid() && (!pricer.initialize ==> pricer.first == n && pricer.last == n + m)
      modifies pricer, pricer.basket, pricer.perm
      ensures pricer.Valid() && (!pricer.initialize ==> pricer.first == n && pricer.last == n + m)
      ensures bea == NULL ==> pricer.initialize && PricedOut(n, nodes[..], Es())
      ensures bea != NULL ==>
        && n <= bea < n + m && IsDualInfeasible(arcs[bea].ident, redCost)
        && redCost == RedCost(GraphOf(Es()), Potentials(nodes[..]), bea)
    {
      ghost var kept, added;
      ArcsProper();
      bea, redCost, kept, added := pricer.PrimalBeaMpp(nodes, arcs, n, n + m);
      if bea == NULL {
        NothingToPrice(n + m);
      } else {
        FoundArc(bea);
      }
    }

    /** The loop body for an arc that pricing has found. */
    method PivotFurther(bea: int, redCost: int)
      requires Shape() && Consistent(n, nodes[..], Es()) && StronglyFeasible(nodes[..]) && n <= bea < n + m
      requires redCost == RedCost(GraphOf(Es()), Potentials(nodes[..]), bea)
        && IsDualInfeasible(arcs[bea].ident, redCost)
      modifies `iterations, `boundExchanges, `checksum, nodes, arcs
      ensures Improved(n, old(nodes[..]), old(Es()), nodes[..], Es())
      ensures iterations == old(iterations) + 1 && old(boundExchanges) <= boundExchanges <= old(boundExchanges) + 1
      ensures checksum >= old(checksum)
    {
      ghost var ns, es := nodes[..], Es();
      var delta := Pivot(bea, redCost);
      PivotFalls(n, ns, es, nodes[..], Es(), redCost, delta);
    }

    /** One round of the loop. */
    method Iterate(pricer: Pricer) returns (opt: bool)
      requires Shape() && Consistent(n, nodes[..], Es()) && StronglyFeasible(nodes[..])
      requires pricer.Valid() && (!pricer.initialize ==> pricer.first == n && pricer.last == n + m)
      modifies `iterations, `boundExchanges, `checksum, nodes, arcs
      modifies pricer, pricer.basket, pricer.perm
      ensures pricer.Valid() && (!pricer.initialize ==> pricer.first == n && pricer.last == n + m)
      ensures opt ==> nodes[..] == old(nodes[..]) && Es() == old(Es())
      ensures opt ==> pricer.initialize && PricedOut(n, nodes[..], Es())
      ensures !opt ==> Improved(n, old(nodes[..]), old(Es()), nodes[..], Es())
      ensures iterations == old(iterations) + if opt then 0 else 1
      ensures old(boundExchanges) <= boundExchanges <= old(boundExchanges) + if opt then 0 else 1
      ensures checksum >= old(checksum) && (opt ==> checksum == old(checksum))
    {
      var bea, redCost := Price(pricer);
      opt := bea == NULL;
      if !opt {
        PivotFurther(bea, redCost);
      }
    }

    /** Where the implicit arcs start, and where the arcs end. */
    function FirstImplicit(): (first: nat)
      reads `m, `mImpl
      requires mImpl <= m
      ensures n <= first && first + mImpl == StopArcs()
    {
      n + m - mImpl
    }

    function StopArcs(): (stop: nat)
      reads `m
      ensures stop == n + m
    {
      n + m
    }

    /** implicit.c, suspend_impl for the implicit arcs, the last mImpl of the network. A consistent
        basis is Owned, by BasisOwned, and SuspensionKeeps says what the outcome means for it. */
    method SuspendImpl(threshold: int) returns (susp: nat)
      requires Shape() && mImpl <= m && Owned(nodes[..], Es(), n)
      modifies `m, `mImpl, `maxResidualNewM, nodes, arcs
      ensures Shape() && susp <= old(mImpl) <= old(m)
      ensures m == old(m) - susp && mImpl == old(mImpl) - susp && maxResidualNewM == old(maxResidualNewM) + susp
      ensures Removed(n, old(nodes[..]), old(Es()), Keeps(old(nodes[..]), old(Es()), old(FirstImplicit()), threshold),
                      nodes[..], Es())
    {
      var newStop;
      assert Es() == arcs[..StopArcs()];
      newStop, susp := RemoveArcs(nodes, arcs, n, FirstImplicit(), StopArcs(), threshold);
      m, mImpl, maxResidualNewM := m - susp, mImpl - susp, maxResidualNewM + susp;
      assert StopArcs() == newStop;
      assert Es() == arcs[..newStop];
    }
  }

  lemma ArcsOfTree(n: nat, ns: seq<Node>, es: seq<Arc>, all: seq<Arc>)
    requires TreeOk(n, ns, es) && es <= all
    ensures BasicArcsInRange(ns, all) && BasicArcsInRange(ns, es)
  {
    forall v {:trigger ns[v].basicArc} | 0 < v < |ns| ensures 0 <= ns[v].basicArc < |es| {
      RootLink(n, ns, es, v);
    }
  }

  lemma SamePrices(ns: seq<Node>, ns': seq<Node>, es: seq<Arc>, all: seq<Arc>)
    requires PotentialsDiffer(ns, ns') && BasicArcsInRange(ns, es) && es <= all && AllPriced(ns', all)
    ensures AllPriced(ns', es)
  {
    forall v | 0 < v < |ns'| ensures PricedAt(ns', es, v) {
      assert PricedAt(ns', all, v);
      assert ns'[v].basicArc == ns[v].basicArc;
    }
  }
}
