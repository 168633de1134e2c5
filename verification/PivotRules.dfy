/** Why the ratio test leads to a legal exchange, and why its tie-breaking keeps the basis
    strongly feasible: the facts that connect RatioTest with Pivoting. */
module PivotRules {
  import opened Trees
  import opened Basis
  import opened Cycles
  import opened Network
  import opened Repivot
  import opened RatioTest

  /** The result of the ratio test on a consistent basis, between two nodes other than the root. */
  ghost predicate Tested(n: nat, ns: seq<Node>, es: seq<Arc>, i: int, j: int, w: int, best: Best) {
    && TreeOk(n, ns, es) && FlowsOk(ns)
    && 0 < i <= n && 0 < j <= n
    && IsLca(Preds(ns), i, j, w)
    && Blocks(ns, i, w, j, w, best)
  }

  /** Every link on the two paths can block, but for an upward link into the root on the side of j. */
  lemma CappedOnPath(n: nat, ns: seq<Node>, es: seq<Arc>, start: int, w: int, t: int)
    requires TreeOk(n, ns, es) && 0 <= start <= n && 0 <= w <= n && t in Path(Preds(ns), start, w)
    ensures 0 < t <= n && 0 <= ns[t].pred <= n
    ensures CappedI(ns, t)
    ensures ns[t].pred != 0 ==> CappedJ(ns, t)
    ensures ns[t].pred == 0 ==> ns[t].orientation == UP
  {
    var p := Preds(ns);
    AncRange(p, start);
    AncRange(p, w);
    Step(p, t);
    RootLink(n, ns, es, t);
    if ns[t].pred != 0 {
      Step(p, p[t]);
    }
  }

  /** The top of the path from i to the root. */
  lemma {:induction false} TopLink(p: seq<int>, i: int) returns (a: int)
    requires IsTree(p) && 0 < i < |p|
    ensures 0 < a < |p| && a in Anc(p, i) && p[a] == 0
    decreases |Anc(p, i)|
  {
    Step(p, i);
    AncRange(p, i);
    if p[i] == 0 {
      a := i;
    } else {
      a := TopLink(p, p[i]);
    }
  }

  /** A cycle through the root is blocked: the dummy arc on the side of iplus is empty. */
  lemma RootBlocks(n: nat, ns: seq<Node>, es: seq<Arc>, i: int, j: int, w: int, best: Best)
    requires Tested(n, ns, es, i, j, w, best) && w == 0
    ensures best.delta <= 0
  {
    Root(Preds(ns));
    var a := TopLink(Preds(ns), i);
    assert a in Path(Preds(ns), i, w);
    CappedOnPath(n, ns, es, i, w, a);
    assert best.delta <= ResI(ns, a);
  }

  /** When a whole unit can run, the cycle does not go through the root. */
  lemma UnitAvoidsRoot(n: nat, ns: seq<Node>, es: seq<Arc>, i: int, j: int, w: int, best: Best)
    requires Tested(n, ns, es, i, j, w, best) && best.delta == 1
    ensures w != 0
    ensures forall t :: t in Path(Preds(ns), i, w) || t in Path(Preds(ns), j, w) ==> 0 < t <= n && ns[t].pred != 0
  {
    var p := Preds(ns);
    Root(p);
    if w == 0 {
      RootBlocks(n, ns, es, i, j, w, best);
    }
    forall t | t in Path(p, i, w) || t in Path(p, j, w) ensures 0 < t <= n && ns[t].pred != 0 {
      PathBelow(p, if t in Path(p, i, w) then i else j, w, t);
    }
  }

  /** Below a node other than the root nobody is a child of the root. */
  lemma PathBelow(p: seq<int>, i: int, w: int, t: int)
    requires IsTree(p) && 0 <= i < |p| && 0 < w < |p| && w in Anc(p, i) && t in Path(p, i, w)
    ensures 0 < t < |p| && p[t] != 0 && w in Anc(p, p[t]) && 0 <= p[t] < |p|
  {
    AncRange(p, i);
    AncRange(p, w);
    AncLinear(p, w, t, i);
    Step(p, t);
    Root(p);
  }

  /** The step is 0 or 1, and after it every flow is 0 or 1 and the dummy arcs carry nothing. */
  lemma StepFits(n: nat, ns: seq<Node>, es: seq<Arc>, i: int, j: int, w: int, best: Best, t: int)
    requires Tested(n, ns, es, i, j, w, best) && 0 < t <= n
    ensures best.delta == 0 || best.delta == 1
    ensures FitsAt(BasisOf(ns), i, j, w, best.delta, t)
  {
    StepIsBit(n, ns, es, i, j, w, best);
    assert BasisOf(ns).at[t] == BasicOf(ns[t]);
    if best.delta == 1 {
      UnitAvoidsRoot(n, ns, es, i, j, w, best);
      if t in Path(Preds(ns), i, w) {
        CappedOnPath(n, ns, es, i, w, t);
        assert best.delta <= ResI(ns, t);
      } else if t in Path(Preds(ns), j, w) {
        CappedOnPath(n, ns, es, j, w, t);
        assert best.delta <= ResJ(ns, t);
      }
    }
  }

  lemma StepIsBit(n: nat, ns: seq<Node>, es: seq<Arc>, i: int, j: int, w: int, best: Best)
    requires Tested(n, ns, es, i, j, w, best)
    ensures best.delta == 0 || best.delta == 1
  {
    if best.iminus != NULL {
      assert ns[best.iminus].flow == 0 || ns[best.iminus].flow == 1;
    }
  }

  /** The bound the leaving arc goes to. */
  function NewSet(xchange: bool, orientation: bool): Ident {
    if xchange != orientation then AT_LOWER else AT_UPPER
  }

  /** The leaving arc reaches the bound that its new ident names. */
  lemma LeavingBound(n: nat, ns: seq<Node>, es: seq<Arc>, i: int, j: int, w: int, best: Best)
    requires Tested(n, ns, es, i, j, w, best) && best.iminus != NULL
    ensures 0 < best.iminus <= n
    ensures SwungFlow(BasisOf(ns), i, j, w, best.delta, best.iminus)
            == if NewSet(best.xchange, ns[best.iminus].orientation) == AT_UPPER then 1 else 0
  {
    assert BasisOf(ns).at[best.iminus] == BasicOf(ns[best.iminus]);
  }

  /** With the ends exchanged and the step negated the cycle is the same. */
  lemma SwungSwap(b: Basis, i: int, j: int, w: int, d: int, t: int)
    requires Sized(b) && IsTree(b.pred) && IsLca(b.pred, i, j, w) && 0 <= t < |b.pred|
    ensures IsLca(b.pred, j, i, w)
    ensures SwungFlow(b, j, i, w, -d, t) == SwungFlow(b, i, j, w, d, t)
  {
  }

  /** The blocking node splits one side of the cycle. */
  lemma BlockingSide(n: nat, ns: seq<Node>, es: seq<Arc>, i: int, j: int, w: int, best: Best)
    requires Tested(n, ns, es, i, j, w, best) && best.iminus != NULL
    ensures var (u, q) := if best.xchange then (j, i) else (i, j);
      Exchange(BasisOf(ns), u, q, best.iminus, w)
  {
    var p := Preds(ns);
    if best.xchange {
      assert best.iminus in Anc(p, j) && best.iminus !in Anc(p, w);
    } else {
      assert best.iminus in Anc(p, i) && best.iminus !in Anc(p, w);
    }
  }

  // ----- no blocking arc

  lemma EndBlocks(n: nat, ns: seq<Node>, es: seq<Arc>, i: int, j: int, w: int, best: Best)
    requires Tested(n, ns, es, i, j, w, best) && j != w && ns[j].pred != 0
    ensures best.iminus != NULL || best.delta < 1
  {
    var p := Preds(ns);
    AncRange(p, j);
    assert j in Path(p, j, w) by {
      if j in Anc(p, w) { AncAntisym(p, j, w); }
    }
    CappedOnPath(n, ns, es, j, w, j);
    assert ResJ(ns, j) <= 1 by { assert ns[j].flow == 0 || ns[j].flow == 1; }
  }

  /** Without a blocking arc the cycle is a path down from jplus and a whole unit fits. */
  lemma NothingBlocks(n: nat, ns: seq<Node>, es: seq<Arc>, i: int, j: int, w: int, best: Best)
    requires Tested(n, ns, es, i, j, w, best) && best.iminus == NULL
    ensures best.delta == 1 && j == w
  {
    var p := Preds(ns);
    UnitAvoidsRoot(n, ns, es, i, j, w, best);
    if j != w {
      assert j in Path(p, j, w) by {
        AncRange(p, j);
        if j in Anc(p, w) { AncAntisym(p, j, w); }
      }
      EndBlocks(n, ns, es, i, j, w, best);
    }
  }

  // ----- strong feasibility

  /** On a strongly feasible basis the side of iplus is blocked everywhere and the side of
      jplus nowhere before a whole unit. */
  lemma StrongTest(n: nat, ns: seq<Node>, es: seq<Arc>, i: int, j: int, w: int, best: Best)
    requires Tested(n, ns, es, i, j, w, best) && StronglyFeasible(ns)
    ensures i != w ==> best == Best(i, 0, false)
    ensures i == w && j != w ==> best.iminus != NULL && best.delta == 1 && best.xchange
    ensures i == w && j != w ==> 0 < best.iminus <= n && ns[best.iminus].pred == w
    ensures i == w && j == w ==> best.iminus == NULL && best.delta == 1
  {
    var p := Preds(ns);
    AncRange(p, i);
    AncRange(p, j);
    if i != w {
      StrongDown(n, ns, es, i, j, w, best);
    } else if j != w {
      StrongUp(n, ns, es, i, j, w, best);
    }
  }

  lemma StrongResidual(ns: seq<Node>, t: int)
    requires StronglyFeasible(ns) && 0 < t < |ns|
    ensures ResI(ns, t) == 0 && ResJ(ns, t) == 1
  {
  }

  lemma StrongDown(n: nat, ns: seq<Node>, es: seq<Arc>, i: int, j: int, w: int, best: Best)
    requires Tested(n, ns, es, i, j, w, best) && StronglyFeasible(ns) && i != w
    ensures best == Best(i, 0, false)
  {
    var p := Preds(ns);
    AncRange(p, i);
    assert i in Path(p, i, w) by {
      if i in Anc(p, w) { AncAntisym(p, i, w); }
    }
    CappedOnPath(n, ns, es, i, w, i);
    StrongResidual(ns, i);
    var a := best.iminus;
    assert best.delta <= ResI(ns, i);
    if a != NULL { StrongResidual(ns, a); }
    assert a != NULL && !best.xchange;
    assert i in Anc(p, a);
    AncAntisym(p, a, i);
  }

  lemma StrongUp(n: nat, ns: seq<Node>, es: seq<Arc>, i: int, j: int, w: int, best: Best)
    requires Tested(n, ns, es, i, j, w, best) && StronglyFeasible(ns) && i == w && j != w
    ensures best.iminus != NULL && best.delta == 1 && best.xchange
    ensures 0 < best.iminus <= n && ns[best.iminus].pred == w
  {
    var p := Preds(ns);
    AncRange(p, j);
    var t := ChildOnPath(p, j, w);
    CappedOnPath(n, ns, es, j, w, t);
    assert t in Path(p, j, w) && ns[t].pred == w;
    assert ResJ(ns, t) == 1;
    assert best.iminus != NULL && best.xchange;
    assert ResJ(ns, best.iminus) == 1;
    assert best.iminus in Anc(p, t);
    Step(p, t);
    assert best.iminus == t;
  }

  /** The last node on the path from j before its ancestor w. */
  lemma {:induction false} ChildOnPath(p: seq<int>, j: int, w: int) returns (t: int)
    requires IsTree(p) && 0 <= j < |p| && 0 <= w < |p| && w in Anc(p, j) && j != w
    ensures 0 < t < |p| && t in Path(p, j, w) && p[t] == w
    decreases |Anc(p, j)|
  {
    Root(p);
    Step(p, j);
    AncRange(p, j);
    if p[j] == w {
      t := j;
    } else {
      t := ChildOnPath(p, p[j], w);
    }
  }
}
