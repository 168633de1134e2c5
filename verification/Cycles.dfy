/** Sending flow around the fundamental cycle of an entering arc: along the tree path on
    one side, back along the other. Excess at a node and cost are both linear in the flow,
    so one lemma, `SwingLinear`, gives conservation and cost accounting at once. */
module Cycles {
  import opened Trees
  import opened Flows
  import opened Basis

  function Signed(up: bool, d: real): real {
    if up then d else -d
  }

  /** Send d units from u up the tree to its ancestor w. */
  ghost function PushUp(g: Graph, b: Basis, x: seq<real>, u: int, w: int, d: real): (x': seq<real>)
    requires Spanning(g, b) && |x| == |g.tail| && 0 <= u < |b.pred| && w in Anc(b.pred, u)
    ensures |x'| == |x|
    decreases |Anc(b.pred, u)|
  {
    if u == w then x
    else
      Root(b.pred);
      Step(b.pred, u);
      var e := b.at[u].arc;
      PushUp(g, b, x[e := x[e] + Signed(b.at[u].up, d)], b.pred[u], w, d)
  }

  /** f is a quantity that d units more through the basic arc of v, upwards, change by the
      difference of a node weight; excess and cost are of this kind. */
  ghost predicate Gains(g: Graph, b: Basis, f: seq<real> -> real, weight: seq<real>, d: real)
    requires Spanning(g, b)
  {
    && |weight| == |b.pred|
    && forall v, x {:trigger GainsAt(g, b, f, weight, d, v, x)} :: 0 < v < |b.pred| && |x| == |g.tail| ==>
         GainsAt(g, b, f, weight, d, v, x)
  }

  ghost predicate GainsAt(g: Graph, b: Basis, f: seq<real> -> real, weight: seq<real>, d: real, v: int, x: seq<real>)
    requires Spanning(g, b) && |weight| == |b.pred| && 0 < v < |b.pred| && |x| == |g.tail|
  {
    0 <= b.pred[v] < |b.pred|
    && f(x[b.at[v].arc := x[b.at[v].arc] + Signed(b.at[v].up, d)]) == f(x) + weight[v] - weight[b.pred[v]]
  }

  lemma PushUpStep(g: Graph, b: Basis, x: seq<real>, x1: seq<real>, u: int, v: int, w: int, d: real)
    requires Spanning(g, b) && |x| == |g.tail| && 0 < u < |b.pred| && w in Anc(b.pred, u) && u != w
    requires v == b.pred[u] && x1 == x[b.at[u].arc := x[b.at[u].arc] + Signed(b.at[u].up, d)]
    ensures 0 <= v < |b.pred| && w in Anc(b.pred, v) && |Anc(b.pred, v)| < |Anc(b.pred, u)|
    ensures PushUp(g, b, x, u, w, d) == PushUp(g, b, x1, v, w, d)
  {
    Step(b.pred, u);
  }

  lemma GainOne(g: Graph, b: Basis, f: seq<real> -> real, weight: seq<real>, x: seq<real>, x1: seq<real>, u: int,
                v: int, d: real)
    requires Spanning(g, b) && |x| == |g.tail| && 0 < u < |b.pred| && Gains(g, b, f, weight, d)
    requires v == b.pred[u] && x1 == x[b.at[u].arc := x[b.at[u].arc] + Signed(b.at[u].up, d)]
    ensures 0 <= v < |b.pred| == |weight| && f(x1) == f(x) + weight[u] - weight[v]
  {
    assert GainsAt(g, b, f, weight, d, u, x);
  }

  lemma {:induction false} PushLinear(g: Graph, b: Basis, f: seq<real> -> real, weight: seq<real>,
                                      x: seq<real>, u: int, w: int, d: real)
    requires Spanning(g, b) && |x| == |g.tail| && 0 <= u < |b.pred| && w in Anc(b.pred, u)
    requires Gains(g, b, f, weight, d)
    ensures 0 <= w < |weight|
    ensures f(PushUp(g, b, x, u, w, d)) == f(x) + weight[u] - weight[w]
    decreases |Anc(b.pred, u)|
  {
    AncRange(b.pred, u);
    if u != w {
      Root(b.pred);
      var e, v := b.at[u].arc, b.pred[u];
      var x1 := x[e := x[e] + Signed(b.at[u].up, d)];
      PushUpStep(g, b, x, x1, u, v, w, d);
      GainOne(g, b, f, weight, x, x1, u, v, d);
      PushLinear(g, b, f, weight, x1, v, w, d);
    }
  }

  lemma {:induction false} PushArcs(g: Graph, b: Basis, x: seq<real>, u: int, w: int, d: real)
    requires Spanning(g, b) && |x| == |g.tail| && 0 <= u < |b.pred| && w in Anc(b.pred, u) && 0 <= w < |b.pred|
    ensures forall v {:trigger b.at[v]} :: 0 < v < |b.pred| ==>
      PushUp(g, b, x, u, w, d)[b.at[v].arc]
      == x[b.at[v].arc] + if v in Path(b.pred, u, w) then Signed(b.at[v].up, d) else 0.0
    ensures forall e {:trigger IsBasicArc(b, e)} :: 0 <= e < |x| && !IsBasicArc(b, e) ==>
      PushUp(g, b, x, u, w, d)[e] == x[e]
    decreases |Anc(b.pred, u)|
  {
    AncRange(b.pred, u);
    if u != w {
      Root(b.pred);
      Step(b.pred, u);
      var e, q := b.at[u].arc, b.pred[u];
      var x1 := x[e := x[e] + Signed(b.at[u].up, d)];
      PushArcs(g, b, x1, q, w, d);
      var x2 := PushUp(g, b, x1, q, w, d);
      assert x2 == PushUp(g, b, x, u, w, d);
      forall v | 0 < v < |b.pred|
        ensures x2[b.at[v].arc] == x[b.at[v].arc] + if v in Path(b.pred, u, w) then Signed(b.at[v].up, d) else 0.0
      {
        PathUnfold(b.pred, u, w);
        if b.at[v].arc == e { ArcsDistinct(g, b, u, v); }
      }
      forall e' | 0 <= e' < |x| && !IsBasicArc(b, e')
        ensures x2[e'] == x[e']
      {
        assert e' != e;
      }
    }
  }

  lemma PathUnfold(p: seq<int>, u: int, w: int)
    requires IsTree(p) && 0 < u < |p| && 0 <= w < |p| && w in Anc(p, u) && u != w
    ensures 0 <= p[u] < |p| && Path(p, u, w) == {u} + Path(p, p[u], w) && u !in Path(p, p[u], w)
  {
    Step(p, u);
    AncRange(p, u);
    if u in Anc(p, w) { AncTrans(p, w, p[u]); }
  }

  // ----- the whole cycle

  /** w is the lowest common ancestor of i and j. */
  ghost predicate IsLca(p: seq<int>, i: int, j: int, w: int)
    requires IsTree(p)
  {
    && 0 <= i < |p| && 0 <= j < |p| && 0 <= w < |p|
    && w in Anc(p, i) && w in Anc(p, j)
    && forall a :: a in Anc(p, i) && a in Anc(p, j) ==> a in Anc(p, w)
  }

  /** What the cycle i -> w -> j does to the flow of the basic arc of v: d units less upwards
      on the side of i, d more on the side of j. */
  ghost function Swing(b: Basis, i: int, j: int, w: int, d: real, v: int): real
    requires Sized(b) && IsTree(b.pred) && IsLca(b.pred, i, j, w) && 0 <= v < |b.pred|
  {
    if v in Path(b.pred, i, w) then -d else if v in Path(b.pred, j, w) then d else 0.0
  }

  /** x' is x after the tree paths have swung by d units. */
  ghost predicate Swung(g: Graph, b: Basis, x: seq<real>, x': seq<real>, i: int, j: int, w: int, d: real)
    requires Spanning(g, b) && IsLca(b.pred, i, j, w)
  {
    && |x| == |x'| == |g.tail|
    && (forall v {:trigger b.at[v]} :: 0 < v < |b.pred| ==>
         x'[b.at[v].arc] == x[b.at[v].arc] + Signed(b.at[v].up, Swing(b, i, j, w, d, v)))
    && (forall e {:trigger IsBasicArc(b, e)} :: 0 <= e < |x| && !IsBasicArc(b, e) ==> x'[e] == x[e])
  }

  lemma SwungIsPush(g: Graph, b: Basis, x: seq<real>, x': seq<real>, i: int, j: int, w: int, d: real)
    requires Spanning(g, b) && IsLca(b.pred, i, j, w) && Swung(g, b, x, x', i, j, w, d)
    ensures x' == PushUp(g, b, PushUp(g, b, x, i, w, -d), j, w, d)
  {
    PushArcs(g, b, x, i, w, -d);
    var x1 := PushUp(g, b, x, i, w, -d);
    PushArcs(g, b, x1, j, w, d);
    var x2 := PushUp(g, b, x1, j, w, d);
    forall e | 0 <= e < |x| ensures x'[e] == x2[e] {
      if IsBasicArc(b, e) {
        var v :| 0 < v < |b.pred| && b.at[v].arc == e;
        assert x2[b.at[v].arc] == x1[b.at[v].arc] + if v in Path(b.pred, j, w) then Signed(b.at[v].up, d) else 0.0;
      }
    }
  }

  ghost function Negated(s: seq<real>): (r: seq<real>)
    ensures |r| == |s| && forall i :: 0 <= i < |s| ==> r[i] == -s[i]
  {
    seq(|s|, i requires 0 <= i < |s| => -s[i])
  }

  /** A quantity that gains with both signs changes by the difference of weights across the cycle. */
  lemma SwingLinear(g: Graph, b: Basis, f: seq<real> -> real, weight: seq<real>,
                    x: seq<real>, x': seq<real>, i: int, j: int, w: int, d: real)
    requires Spanning(g, b) && IsLca(b.pred, i, j, w) && Swung(g, b, x, x', i, j, w, d)
    requires Gains(g, b, f, weight, d) && Gains(g, b, f, Negated(weight), -d)
    ensures f(x') == f(x) + weight[j] - weight[i]
  {
    SwungIsPush(g, b, x, x', i, j, w, d);
    PushLinear(g, b, f, Negated(weight), x, i, w, -d);
    PushLinear(g, b, f, weight, PushUp(g, b, x, i, w, -d), j, w, d);
  }

  // ----- excess

  ghost function ExcessAt(g: Graph, v: int): seq<real> -> real
    requires |g.tail| == |g.head|
  {
    x => if |x| == |g.tail| then Excess(g, x, v, |x|) else 0.0
  }

  ghost function OnlyAt(n: nat, v: int, d: real): (s: seq<real>)
    ensures |s| == n && forall u :: 0 <= u < n ==> s[u] == if u == v then d else 0.0
  {
    seq(n, u => if u == v then d else 0.0)
  }

  lemma NegatedOnly(n: nat, v: int, d: real)
    ensures Negated(OnlyAt(n, v, d)) == OnlyAt(n, v, -d)
  {
  }

  lemma ExcessAtIs(g: Graph, v: int, x: seq<real>)
    requires |x| == |g.tail| == |g.head|
    ensures ExcessAt(g, v)(x) == Excess(g, x, v, |x|)
  {
  }

  lemma ExcessGains(g: Graph, b: Basis, v: int, d: real)
    requires Spanning(g, b)
    ensures Gains(g, b, ExcessAt(g, v), OnlyAt(|b.pred|, v, d), d)
  {
    var f, wt := ExcessAt(g, v), OnlyAt(|b.pred|, v, d);
    forall u, x | 0 < u < |b.pred| && |x| == |g.tail| ensures GainsAt(g, b, f, wt, d, u, x) {
      Step(b.pred, u);
      ShiftExcess(g, x, b.at[u].arc, Signed(b.at[u].up, d), v, |x|);
    }
  }

  lemma SwingExcessAt(g: Graph, b: Basis, x: seq<real>, x': seq<real>, i: int, j: int, w: int, d: real, v: int)
    requires Spanning(g, b) && IsLca(b.pred, i, j, w) && Swung(g, b, x, x', i, j, w, d)
    ensures ExcessAt(g, v)(x') == ExcessAt(g, v)(x) + OnlyAt(|b.pred|, v, d)[j] - OnlyAt(|b.pred|, v, d)[i]
  {
    ExcessGains(g, b, v, d);
    ExcessGains(g, b, v, -d);
    NegatedOnly(|b.pred|, v, d);
    SwingLinear(g, b, ExcessAt(g, v), OnlyAt(|b.pred|, v, d), x, x', i, j, w, d);
  }

  /** The swing moves d units of excess from i to j and keeps every other node balanced. */
  lemma SwingExcess(g: Graph, b: Basis, x: seq<real>, x': seq<real>, i: int, j: int, w: int, d: real, v: int)
    requires Spanning(g, b) && IsLca(b.pred, i, j, w) && Swung(g, b, x, x', i, j, w, d)
    ensures Excess(g, x', v, |x|) == Excess(g, x, v, |x|) - (if v == i then d else 0.0) + (if v == j then d else 0.0)
  {
    SwingExcessAt(g, b, x, x', i, j, w, d, v);
    ExcessAtIs(g, v, x);
    ExcessAtIs(g, v, x');
  }

  // ----- cost

  /** Every basic arc has reduced cost zero. */
  ghost predicate Tight(g: Graph, b: Basis, pot: seq<int>)
    requires Spanning(g, b)
  {
    |pot| == |b.pred| && forall v {:trigger b.at[v]} :: 0 < v < |b.pred| ==> RedCost(g, pot, b.at[v].arc) == 0
  }

  ghost function CostOf(g: Graph): seq<real> -> real {
    x => if |x| == |g.cost| then TotalCost(g, x) else 0.0
  }

  ghost function Scaled(pot: seq<int>, d: real): seq<real> {
    seq(|pot|, v requires 0 <= v < |pot| => Times(pot[v], d))
  }

  lemma NegatedScaled(pot: seq<int>, d: real)
    ensures Negated(Scaled(pot, d)) == Scaled(pot, -d)
  {
    forall v | 0 <= v < |pot| ensures -Scaled(pot, d)[v] == Scaled(pot, -d)[v] {
      TimesNegate(pot[v], d);
    }
  }

  lemma CostGains(g: Graph, b: Basis, pot: seq<int>, d: real)
    requires Spanning(g, b) && Tight(g, b, pot)
    ensures Gains(g, b, CostOf(g), Scaled(pot, d), d)
  {
    var f, wt := CostOf(g), Scaled(pot, d);
    forall v, x | 0 < v < |b.pred| && |x| == |g.tail| ensures GainsAt(g, b, f, wt, d, v, x) {
      Step(b.pred, v);
      CostGainsAt(g, b, pot, d, v, x);
    }
  }

  lemma CostGainsAt(g: Graph, b: Basis, pot: seq<int>, d: real, v: int, x: seq<real>)
    requires Spanning(g, b) && Tight(g, b, pot) && 0 < v < |b.pred| && |x| == |g.tail| && 0 <= b.pred[v] < |b.pred|
    ensures CostOf(g)(x[b.at[v].arc := x[b.at[v].arc] + Signed(b.at[v].up, d)])
            == CostOf(g)(x) + Scaled(pot, d)[v] - Scaled(pot, d)[b.pred[v]]
  {
    var e, s := b.at[v].arc, Signed(b.at[v].up, d);
    var x1 := x[e := x[e] + s];
    CostOfIs(g, x);
    CostOfIs(g, x1);
    ShiftCost(g, x, e, s, |x|);
    assert RedCost(g, pot, e) == 0;
    LinkPrice(g.cost[e], pot[v], pot[b.pred[v]], b.at[v].up, d);
  }

  lemma CostOfIs(g: Graph, x: seq<real>)
    requires |x| == |g.cost|
    ensures CostOf(g)(x) == Cost(g, x, |x|)
  {
  }

  lemma TimesSum(s: int, a: int, b: int, d: real)
    requires s == a + b
    ensures Times(s, d) == Times(a, d) + Times(b, d)
  {
    TimesPlus(a, b, d);
  }

  lemma LinkPrice(c: int, a: int, q: int, up: bool, d: real)
    requires c == if up then a - q else q - a
    ensures Times(c, Signed(up, d)) == Times(a, d) - Times(q, d)
  {
    if up {
      TimesSum(a, c, q, d);
    } else {
      TimesSum(q, c, a, d);
      TimesNegate(c, d);
    }
  }

  /** The signed cost of the tree part of the cycle is d times the difference of potentials. */
  lemma SwingCost(g: Graph, b: Basis, pot: seq<int>, x: seq<real>, x': seq<real>, i: int, j: int, w: int, d: real)
    requires Spanning(g, b) && Tight(g, b, pot) && IsLca(b.pred, i, j, w) && Swung(g, b, x, x', i, j, w, d)
    ensures CostOf(g)(x') == CostOf(g)(x) + Scaled(pot, d)[j] - Scaled(pot, d)[i]
  {
    CostGains(g, b, pot, d);
    CostGains(g, b, pot, -d);
    NegatedScaled(pot, d);
    SwingLinear(g, b, CostOf(g), Scaled(pot, d), x, x', i, j, w, d);
  }
}
