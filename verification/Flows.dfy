/** Flows on a directed graph: conservation, cost, and why a circulation that is
    complementary to some node potentials is a cheapest one. */
module Flows {
  datatype Graph = Graph(tail: seq<int>, head: seq<int>, cost: seq<int>)

  /** A graph on the nodes 0 .. n-1. */
  predicate IsGraph(g: Graph, n: nat) {
    && |g.tail| == |g.head| == |g.cost|
    && (forall e :: 0 <= e < |g.tail| ==> 0 <= g.tail[e] < n)
    && (forall e :: 0 <= e < |g.head| ==> 0 <= g.head[e] < n)
  }

  /** What v sends out minus what it takes in, over the first k arcs. */
  function Excess(g: Graph, x: seq<real>, v: int, k: nat): real
    requires |g.tail| == |g.head| && k <= |x| && k <= |g.tail|
  {
    if k == 0 then 0.0
    else Excess(g, x, v, k - 1)
         + (if g.tail[k - 1] == v then x[k - 1] else 0.0)
         - (if g.head[k - 1] == v then x[k - 1] else 0.0)
  }

  ghost predicate Conserves(g: Graph, n: nat, x: seq<real>) {
    && IsGraph(g, n)
    && |x| == |g.tail|
    && forall v {:trigger Excess(g, x, v, |x|)} :: 0 <= v < n ==> Excess(g, x, v, |x|) == 0.0
  }

  /** a * f by repeated addition; `TimesIs` says that it is the product. Sums of such products
      then need linear reasoning only. */
  function Times(a: int, f: real): real
    decreases if a < 0 then -a else a
  {
    if a == 0 then 0.0 else if a > 0 then Times(a - 1, f) + f else Times(a + 1, f) - f
  }

  lemma {:induction false} TimesIs(a: int, f: real)
    ensures Times(a, f) == a as real * f
    decreases if a < 0 then -a else a
  {
    if a > 0 {
      TimesIs(a - 1, f);
      assert (a - 1) as real == a as real - 1.0;
    } else if a < 0 {
      TimesIs(a + 1, f);
      assert (a + 1) as real == a as real + 1.0;
    }
  }

  lemma {:induction false} TimesAdd(a: int, f: real, h: real)
    ensures Times(a, f + h) == Times(a, f) + Times(a, h)
    ensures Times(a, f - h) == Times(a, f) - Times(a, h)
    decreases if a < 0 then -a else a
  {
    if a > 0 {
      TimesAdd(a - 1, f, h);
    } else if a < 0 {
      TimesAdd(a + 1, f, h);
    }
  }

  lemma {:induction false} TimesPlus(a: int, b: int, f: real)
    ensures Times(a + b, f) == Times(a, f) + Times(b, f)
    decreases if b < 0 then -b else b
  {
    if b > 0 {
      TimesPlus(a + 1, b - 1, f);
    } else if b < 0 {
      TimesPlus(a - 1, b + 1, f);
    }
  }

  lemma {:induction false} TimesNegate(a: int, f: real)
    ensures Times(-a, f) == -Times(a, f) && Times(a, -f) == -Times(a, f)
    decreases if a < 0 then -a else a
  {
    if a > 0 {
      TimesNegate(a - 1, f);
      TimesPlus(-a + 1, -1, f);
    } else if a < 0 {
      TimesNegate(a + 1, f);
      TimesPlus(-a - 1, 1, f);
    }
  }

  lemma {:induction false} TimesUnit(a: int)
    ensures Times(a, 0.0) == 0.0 && Times(a, 1.0) == a as real
    decreases if a < 0 then -a else a
  {
    if a > 0 {
      TimesUnit(a - 1);
    } else if a < 0 {
      TimesUnit(a + 1);
    }
  }

  /** Monotone in the flow for positive factors. */
  lemma {:induction false} TimesMono(a: int, f: real, h: real)
    requires a >= 0 && f <= h
    ensures Times(a, f) <= Times(a, h)
  {
    if a > 0 {
      TimesMono(a - 1, f, h);
    }
  }

  function Cost(g: Graph, x: seq<real>, k: nat): real
    requires k <= |x| && k <= |g.cost|
  {
    if k == 0 then 0.0 else Cost(g, x, k - 1) + Times(g.cost[k - 1], x[k - 1])
  }

  function TotalCost(g: Graph, x: seq<real>): real
    requires |x| == |g.cost|
  {
    Cost(g, x, |x|)
  }

  function RedCost(g: Graph, pot: seq<int>, e: int): int
    requires IsGraph(g, |pot|) && 0 <= e < |g.tail|
  {
    g.cost[e] - pot[g.tail[e]] + pot[g.head[e]]
  }

  // ----- one arc changes

  lemma {:induction false} ShiftExcess(g: Graph, x: seq<real>, e: int, d: real, v: int, k: nat)
    requires |g.tail| == |g.head| && 0 <= e < |x| == |g.tail| && k <= |x|
    ensures Excess(g, x[e := x[e] + d], v, k) == Excess(g, x, v, k)
            + (if e < k && g.tail[e] == v then d else 0.0) - (if e < k && g.head[e] == v then d else 0.0)
  {
    if k > 0 {
      ShiftExcess(g, x, e, d, v, k - 1);
    }
  }

  lemma {:induction false} ShiftCost(g: Graph, x: seq<real>, e: int, d: real, k: nat)
    requires 0 <= e < |x| == |g.cost| && k <= |x|
    ensures Cost(g, x[e := x[e] + d], k) == Cost(g, x, k) + if e < k then Times(g.cost[e], d) else 0.0
  {
    if k > 0 {
      ShiftCost(g, x, e, d, k - 1);
      if e == k - 1 {
        TimesAdd(g.cost[e], x[e], d);
      }
    }
  }

  // ----- cost against potentials

  /** Total of reduced cost times flow over the first k arcs. */
  function Reduced(g: Graph, pot: seq<int>, x: seq<real>, k: nat): real
    requires IsGraph(g, |pot|) && k <= |x| && k <= |g.tail|
  {
    if k == 0 then 0.0 else Reduced(g, pot, x, k - 1) + Times(RedCost(g, pot, k - 1), x[k - 1])
  }

  /** Potential times excess of node v over the first k arcs, collected arc by arc. */
  function Weighted(g: Graph, pot: seq<int>, x: seq<real>, v: int, k: nat): real
    requires IsGraph(g, |pot|) && k <= |x| && k <= |g.tail| && 0 <= v < |pot|
  {
    if k == 0 then 0.0
    else Weighted(g, pot, x, v, k - 1)
         + (if g.tail[k - 1] == v then Times(pot[g.tail[k - 1]], x[k - 1]) else 0.0)
         - (if g.head[k - 1] == v then Times(pot[g.head[k - 1]], x[k - 1]) else 0.0)
  }

  lemma {:induction false} WeightedIs(g: Graph, pot: seq<int>, x: seq<real>, v: int, k: nat)
    requires IsGraph(g, |pot|) && k <= |x| && k <= |g.tail| && 0 <= v < |pot|
    ensures Weighted(g, pot, x, v, k) == Times(pot[v], Excess(g, x, v, k))
  {
    TimesUnit(pot[v]);
    if k > 0 {
      WeightedIs(g, pot, x, v, k - 1);
      var q, f := Excess(g, x, v, k - 1), x[k - 1];
      TimesAdd(pot[v], q, f);
      TimesAdd(pot[v], q + f, f);
      assert q + f - f == q;
    }
  }

  /** Total of potential times excess over the first j nodes. */
  function PotExcess(g: Graph, pot: seq<int>, x: seq<real>, k: nat, j: nat): real
    requires IsGraph(g, |pot|) && k <= |x| && k <= |g.tail| && j <= |pot|
  {
    if j == 0 then 0.0 else PotExcess(g, pot, x, k, j - 1) + Weighted(g, pot, x, j - 1, k)
  }

  lemma {:induction false} PotExcessStep(g: Graph, pot: seq<int>, x: seq<real>, k: nat, j: nat)
    requires IsGraph(g, |pot|) && 0 < k <= |x| && k <= |g.tail| && j <= |pot|
    ensures PotExcess(g, pot, x, k, j) == PotExcess(g, pot, x, k - 1, j)
            + (if g.tail[k - 1] < j then Times(pot[g.tail[k - 1]], x[k - 1]) else 0.0)
            - (if g.head[k - 1] < j then Times(pot[g.head[k - 1]], x[k - 1]) else 0.0)
  {
    if j > 0 {
      PotExcessStep(g, pot, x, k, j - 1);
    }
  }

  lemma {:induction false} ReducedIsCost(g: Graph, pot: seq<int>, x: seq<real>, k: nat)
    requires IsGraph(g, |pot|) && k <= |x| && k <= |g.tail|
    ensures Reduced(g, pot, x, k) == Cost(g, x, k) - PotExcess(g, pot, x, k, |pot|)
  {
    if k == 0 {
      NoExcess(g, pot, x, |pot|);
    } else {
      ReducedIsCost(g, pot, x, k - 1);
      PotExcessStep(g, pot, x, k, |pot|);
      ReducedPrice(g.cost[k - 1], pot[g.tail[k - 1]], pot[g.head[k - 1]], x[k - 1]);
    }
  }

  lemma ReducedPrice(c: int, t: int, h: int, f: real)
    ensures Times(c - t + h, f) == Times(c, f) - Times(t, f) + Times(h, f)
  {
    TimesPlus(c - t, t, f);
    TimesPlus(c - t, h, f);
  }

  lemma {:induction false} NoExcess(g: Graph, pot: seq<int>, x: seq<real>, j: nat)
    requires IsGraph(g, |pot|) && j <= |pot|
    ensures PotExcess(g, pot, x, 0, j) == 0.0
  {
    if j > 0 {
      NoExcess(g, pot, x, j - 1);
    }
  }

  lemma {:induction false} ConservedPotExcess(g: Graph, pot: seq<int>, x: seq<real>, j: nat)
    requires Conserves(g, |pot|, x) && j <= |pot|
    ensures PotExcess(g, pot, x, |x|, j) == 0.0
  {
    if j > 0 {
      ConservedPotExcess(g, pot, x, j - 1);
      WeightedIs(g, pot, x, j - 1, |x|);
      assert Excess(g, x, j - 1, |x|) == 0.0;
      TimesUnit(pot[j - 1]);
    }
  }

  /** A circulation costs as much at its reduced costs as at its costs. */
  lemma CirculationReduced(g: Graph, pot: seq<int>, x: seq<real>)
    requires Conserves(g, |pot|, x)
    ensures Reduced(g, pot, x, |x|) == TotalCost(g, x)
  {
    ReducedIsCost(g, pot, x, |x|);
    ConservedPotExcess(g, pot, x, |pot|);
  }

  // ----- optimality

  /** On every arc either y agrees with x, or y stays in [0,1] and x sits on the bound
      that the sign of the reduced cost asks for. */
  ghost predicate Complementary(g: Graph, pot: seq<int>, x: seq<real>, y: seq<real>) {
    && IsGraph(g, |pot|)
    && |x| == |y| == |g.tail|
    && forall e {:trigger x[e]} {:trigger y[e]} :: 0 <= e < |x| ==>
         || y[e] == x[e]
         || (&& 0.0 <= y[e] <= 1.0
             && (RedCost(g, pot, e) > 0 ==> x[e] == 0.0)
             && (RedCost(g, pot, e) < 0 ==> x[e] == 1.0))
  }

  lemma {:induction false} ReducedBelow(g: Graph, pot: seq<int>, x: seq<real>, y: seq<real>, k: nat)
    requires Complementary(g, pot, x, y) && k <= |x|
    ensures Reduced(g, pot, x, k) <= Reduced(g, pot, y, k)
  {
    if k > 0 {
      ReducedBelow(g, pot, x, y, k - 1);
      var r := RedCost(g, pot, k - 1);
      if r > 0 {
        TimesMono(r, x[k - 1], y[k - 1]);
      } else if r < 0 {
        TimesMono(-r, y[k - 1], x[k - 1]);
        TimesNegate(r, x[k - 1]);
        TimesNegate(r, y[k - 1]);
      }
    }
  }

  /** Complementary slackness: the circulation x is no dearer than the circulation y. */
  lemma Cheapest(g: Graph, pot: seq<int>, x: seq<real>, y: seq<real>)
    requires Conserves(g, |pot|, x) && Conserves(g, |pot|, y) && Complementary(g, pot, x, y)
    ensures TotalCost(g, x) <= TotalCost(g, y)
  {
    CirculationReduced(g, pot, x);
    CirculationReduced(g, pot, y);
    ReducedBelow(g, pot, x, y, |x|);
  }

  /** Flows in [0,1] cannot cost less than all negative costs together. */
  function NegativeCosts(g: Graph, k: nat): int
    requires k <= |g.cost|
  {
    if k == 0 then 0 else NegativeCosts(g, k - 1) + if g.cost[k - 1] < 0 then g.cost[k - 1] else 0
  }

  lemma {:induction false} CostBounded(g: Graph, x: seq<real>, k: nat)
    requires k <= |x| == |g.cost| && forall e :: 0 <= e < |x| ==> 0.0 <= x[e] <= 1.0
    ensures NegativeCosts(g, k) as real <= Cost(g, x, k)
  {
    if k > 0 {
      CostBounded(g, x, k - 1);
      var c := g.cost[k - 1];
      TimesUnit(c);
      if c < 0 {
        TimesUnit(-c);
        TimesMono(-c, x[k - 1], 1.0);
        TimesNegate(c, x[k - 1]);
      } else {
        TimesMono(c, 0.0, x[k - 1]);
      }
    }
  }
}
