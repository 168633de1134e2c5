/** What a pivot does to strong feasibility and to the two parts of the termination measure,
    the cost and the sum of the potentials. */
module Progress {
  import opened Trees
  import opened Flows
  import opened Basis
  import opened Network
  import opened Repivot
  import opened Pivoting
  import opened RatioTest
  import opened PivotRules
  import opened TreeUp
  import opened FlowUpdate
  import opened PivotSteps

  ghost function BasisCost(ns: seq<Node>, es: seq<Arc>): real {
    TotalCost(GraphOf(es), FlowOf(ns, es))
  }

  // ----- strong feasibility

  /** A link is strongly feasible when it could carry one more unit upwards. */
  predicate StrongLink(c: Basic) {
    c.flow == if c.up == UP then 0 else 1
  }

  /** An exchange that hangs i itself, with no step, keeps every other link. */
  lemma ShortExchangeStrong(b: Basis, q: int, c: Basic, u: int, w: int)
    requires Exchange(b, u, q, u, w) && StrongLink(c)
    requires forall v :: 0 < v < |b.pred| ==> StrongLink(b.at[v])
    ensures forall v :: 0 < v < |b.pred| ==> StrongLink(Repivoted(b, u, q, c, u, w, 0).at[v])
  {
    ReverseEffect(b, u, q, c, u, 0, c.depth);
    StemUnfold(b.pred, u, q, u);
    var b' := Repivoted(b, u, q, c, u, w, 0);
    forall v | 0 < v < |b.pred| ensures StrongLink(b'.at[v]) {
      assert StrongLink(b.at[v]);
    }
  }

  /** An exchange whose stem is one whole side of the cycle, with a unit running up it: every
      link is flipped together with its flow. */
  lemma FullExchangeStrong(b: Basis, u: int, q: int, c: Basic, stop: int)
    requires Exchange(b, u, q, stop, q) && b.pred[stop] == q && StrongLink(c)
    requires forall v :: 0 < v < |b.pred| ==> StrongLink(b.at[v])
    ensures forall v :: 0 < v < |b.pred| ==> StrongLink(Repivoted(b, u, q, c, stop, q, -1).at[v])
  {
    ReverseEffect(b, u, q, c, stop, -1, c.depth);
    StemUnfold(b.pred, u, q, stop);
    var r, b' := Reverse(b, u, q, c, stop, -1, c.depth), Repivoted(b, u, q, c, stop, q, -1);
    forall v | 0 < v < |b.pred| ensures StrongLink(b'.at[v]) {
      assert b'.at[v] == r.at[v];
      if v in Stem(b.pred, u, stop) && v != u {
        var t := StemChild(b.pred, u, stop, v);
        assert StrongLink(b.at[t]) && r.at[v] == Flipped(b.at[t], -1, c.depth);
      } else if v != u {
        assert StrongLink(b.at[v]);
      }
    }
  }

  lemma StrongLinks(ns: seq<Node>)
    ensures StronglyFeasible(ns) <==> forall v :: 0 < v < |ns| ==> StrongLink(BasisOf(ns).at[v])
  {
    if forall v :: 0 < v < |ns| ==> StrongLink(BasisOf(ns).at[v]) {
      forall v | 0 < v < |ns| ensures ns[v].flow == if ns[v].orientation == UP then 0 else 1 {
        assert StrongLink(BasisOf(ns).at[v]);
      }
    }
  }

  /** The tie-breaking of the ratio test keeps the basis strongly feasible. */
  lemma ExchangeStrong(n: nat, ns: seq<Node>, es: seq<Arc>, ns': seq<Node>, es': seq<Arc>,
                       bea: int, redCost: int, i: int, j: int, w: int, best: Best)
    requires Tested(n, ns, es, i, j, w, best) && best.iminus != NULL && Entering(n, ns, es, bea, redCost, i, j)
    requires 0 < best.iminus <= n
    requires Exchanged(n, ns, es, ns', es', MoveFor(ns, es, bea, redCost, i, j, w, best))
    requires StronglyFeasible(ns)
    ensures StronglyFeasible(ns')
    ensures i != w ==> best.delta == 0 && best.iminus == i && !best.xchange
    ensures i == w ==> best.delta == 1
  {
    var m, b := MoveFor(ns, es, bea, redCost, i, j, w, best), BasisOf(ns);
    StrongTest(n, ns, es, i, j, w, best);
    EndsDiffer(n, ns, es, i, j, w, best);
    StrongLinks(ns);
    StrongLinks(ns');
    var c := Basic(m.e, m.up, m.f, ns[m.stop].depth);
    if i != w {
      ShortExchangeStrong(b, m.q, c, m.u, w);
    } else {
      FullExchangeStrong(b, m.u, m.q, c, m.stop);
    }
  }

  /** A bound exchange on a strongly feasible basis belongs to a self-loop and moves no flow on
      the tree. */
  lemma BoundStrong(n: nat, ns: seq<Node>, es: seq<Arc>, ns': seq<Node>, es': seq<Arc>,
                    i: int, j: int, w: int, best: Best, bea: int, newIdent: Ident)
    requires Tested(n, ns, es, i, j, w, best) && best.iminus == NULL && StronglyFeasible(ns)
    requires BoundExchanged(n, ns, es, ns', es', i, j, w, bea, newIdent)
    ensures i == j && ns' == ns
  {
    StrongTest(n, ns, es, i, j, w, best);
    forall v | 0 <= v < |ns| ensures ns'[v] == ns[v] {
      assert BasisOf(ns).at[v] == BasicOf(ns[v]);
    }
  }

  // ----- the sum of the potentials

  ghost function PotentialSum(ns: seq<Node>, k: nat): int
    requires k <= |ns|
  {
    if k == 0 then 0 else PotentialSum(ns, k - 1) + ns[k - 1].potential
  }

  lemma {:induction false} ShiftLowersSum(ns: seq<Node>, ns': seq<Node>, s: set<int>, sigma: int, k: nat)
    requires Shifted(ns, ns', s, sigma) && sigma < 0 && k <= |ns|
    ensures PotentialSum(ns', k) <= PotentialSum(ns, k)
    ensures (exists v :: v in s && 0 <= v < k) ==> PotentialSum(ns', k) < PotentialSum(ns, k)
  {
    if k > 0 {
      ShiftLowersSum(ns, ns', s, sigma, k - 1);
      assert ns'[k - 1].potential == ns[k - 1].potential + if k - 1 in s then sigma else 0;
    }
  }

  /** No arc costs more than all of them together. */
  ghost function AbsCosts(g: Graph, k: nat): (c: int)
    requires k <= |g.cost|
    ensures c >= 0
  {
    if k == 0 then 0 else AbsCosts(g, k - 1) + if g.cost[k - 1] < 0 then -g.cost[k - 1] else g.cost[k - 1]
  }

  lemma {:induction false} CostWithin(g: Graph, e: int, k: nat)
    requires 0 <= e < k <= |g.cost|
    ensures -AbsCosts(g, k) <= g.cost[e] <= AbsCosts(g, k)
  {
    if e < k - 1 {
      CostWithin(g, e, k - 1);
    }
  }

  /** The least potential a node k links away from the root can have. */
  ghost function Lowest(k: nat, c: int): int {
    if k == 0 then -MAX_ART_COST else Lowest(k - 1, c) - c
  }

  lemma {:induction false} LowestFalls(k: nat, k': nat, c: int)
    requires k <= k' && c >= 0
    ensures Lowest(k', c) <= Lowest(k, c)
  {
    if k < k' {
      LowestFalls(k, k' - 1, c);
    }
  }

  lemma {:induction false} PotentialBounded(n: nat, ns: seq<Node>, es: seq<Arc>, v: int)
    requires TreeOk(n, ns, es) && Priced(n, ns, es) && 0 <= v <= n
    ensures ns[v].potential >= Lowest(|Anc(Preds(ns), v)|, AbsCosts(GraphOf(es), |es|))
    decreases |Anc(Preds(ns), v)|
  {
    var g, p := GraphOf(es), Preds(ns);
    var c := AbsCosts(g, |es|);
    Root(p);
    if v == 0 {
      assert Lowest(|Anc(p, 0)|, c) <= -MAX_ART_COST by { LowestFalls(0, |Anc(p, 0)|, c); }
    } else {
      Step(p, v);
      PotentialBounded(n, ns, es, p[v]);
      assert Joins(g, BasisOf(ns).at[v].arc, v, p[v], BasisOf(ns).at[v].up);
      assert RedCost(g, Potentials(ns), BasisOf(ns).at[v].arc) == 0;
      CostWithin(g, BasisOf(ns).at[v].arc, |es|);
      LowestFalls(|Anc(p, p[v])| + 1, |Anc(p, v)|, c);
      assert |Anc(p, v)| == |Anc(p, p[v])| + 1;
    }
  }

  /** A bound for the sum of k potentials that no pivot can cross. */
  ghost function SumFloor(n: nat, g: Graph, k: nat): int {
    if k == 0 then 0 else SumFloor(n, g, k - 1) + Lowest(n + 1, AbsCosts(g, |g.cost|))
  }

  lemma {:induction false} SumBounded(n: nat, ns: seq<Node>, es: seq<Arc>, k: nat)
    requires TreeOk(n, ns, es) && Priced(n, ns, es) && k <= n + 1
    ensures PotentialSum(ns, k) >= SumFloor(n, GraphOf(es), k)
  {
    if k > 0 {
      SumBounded(n, ns, es, k - 1);
      PotentialBounded(n, ns, es, k - 1);
      AncCount(Preds(ns), k - 1);
      LowestFalls(|Anc(Preds(ns), k - 1)|, n + 1, AbsCosts(GraphOf(es), |es|));
    }
  }

  lemma AncCount(p: seq<int>, v: int)
    requires IsTree(p) && 0 <= v < |p|
    ensures |Anc(p, v)| <= |p|
  {
    AncRange(p, v);
    var all := set u | 0 <= u < |p| && p[u] == p[u];
    RangeCount(p, |p|);
    assert Anc(p, v) <= all;
    SubsetCard(Anc(p, v), all);
  }

  lemma {:induction false} RangeCount(p: seq<int>, k: nat)
    requires k <= |p|
    ensures |set u | 0 <= u < k && p[u] == p[u]| == k
  {
    var s := set u | 0 <= u < k && p[u] == p[u];
    if k > 0 {
      RangeCount(p, k - 1);
      assert s == (set u | 0 <= u < k - 1 && p[u] == p[u]) + {k - 1};
    } else {
      assert s == {};
    }
  }

  lemma SubsetCard(a: set<int>, b: set<int>)
    requires a <= b
    ensures |a| <= |b|
  {
    assert b == a + (b - a);
  }
}
