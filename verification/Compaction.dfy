/** Stable removal of elements from a sequence, and what it does to positions and to sums over
    the arcs of a graph. */
module Compaction {
  import opened Flows

  /** How many of the first k elements are kept: the position that element k moves to. */
  function Rank(keep: seq<bool>, k: nat): (r: nat)
    requires k <= |keep|
    ensures r <= k
  {
    if k == 0 then 0 else Rank(keep, k - 1) + if keep[k - 1] then 1 else 0
  }

  /** The kept ones among the first k elements, in their order. */
  function Squeeze<T>(s: seq<T>, keep: seq<bool>, k: nat): (r: seq<T>)
    requires k <= |s| == |keep|
    ensures |r| == Rank(keep, k)
  {
    if k == 0 then [] else Squeeze(s, keep, k - 1) + if keep[k - 1] then [s[k - 1]] else []
  }

  lemma {:induction false} RankMono(keep: seq<bool>, a: nat, b: nat)
    requires a <= b <= |keep|
    ensures Rank(keep, a) <= Rank(keep, b) && Rank(keep, b) - Rank(keep, a) <= b - a
    ensures a < b && keep[a] ==> Rank(keep, a) < Rank(keep, b)
  {
    if a < b {
      if a < b - 1 { RankMono(keep, a, b - 1); }
    }
  }

  lemma {:induction false} RankSame(keep: seq<bool>, first: nat, k: nat)
    requires k <= first <= |keep| && forall e :: 0 <= e < first ==> keep[e]
    ensures Rank(keep, k) == k
  {
    if k > 0 {
      RankSame(keep, first, k - 1);
    }
  }

  lemma {:induction false} SqueezedAt<T>(s: seq<T>, keep: seq<bool>, k: nat, e: nat)
    requires e < k <= |s| == |keep| && keep[e]
    ensures Rank(keep, e) < Rank(keep, k) && Squeeze(s, keep, k)[Rank(keep, e)] == s[e]
  {
    if e < k - 1 {
      SqueezedAt(s, keep, k - 1, e);
    }
  }

  /** Every position of the result is taken by exactly one kept element. */
  lemma {:induction false} CameFrom(keep: seq<bool>, k: nat, r: nat) returns (e: nat)
    requires k <= |keep| && r < Rank(keep, k)
    ensures e < k && keep[e] && Rank(keep, e) == r
  {
    if keep[k - 1] && r == Rank(keep, k - 1) {
      e := k - 1;
    } else {
      e := CameFrom(keep, k - 1, r);
    }
  }

  // ----- a graph without the arcs that carry nothing

  /** g', x' are g, x without the arcs that are not kept, and those carry no flow. */
  ghost predicate Compacts(g: Graph, x: seq<real>, g': Graph, x': seq<real>, keep: seq<bool>) {
    && |g.tail| == |g.head| == |g.cost| == |x| == |keep|
    && |g'.tail| == |g'.head| == |g'.cost| == |x'| == Rank(keep, |keep|)
    && forall e {:trigger keep[e]} :: 0 <= e < |keep| ==>
         if keep[e] then
           var r := Rank(keep, e);
           && r < |x'| && g'.tail[r] == g.tail[e] && g'.head[r] == g.head[e] && g'.cost[r] == g.cost[e] && x'[r] == x[e]
         else x[e] == 0.0
  }

  lemma {:induction false} SameExcess(g: Graph, x: seq<real>, g': Graph, x': seq<real>, keep: seq<bool>, v: int, k: nat)
    requires Compacts(g, x, g', x', keep) && k <= |x|
    ensures Rank(keep, k) <= |x'| && Excess(g', x', v, Rank(keep, k)) == Excess(g, x, v, k)
  {
    RankMono(keep, k, |keep|);
    if k > 0 {
      SameExcess(g, x, g', x', keep, v, k - 1);
      assert keep[k - 1] || x[k - 1] == 0.0;
    }
  }

  lemma {:induction false} SameCost(g: Graph, x: seq<real>, g': Graph, x': seq<real>, keep: seq<bool>, k: nat)
    requires Compacts(g, x, g', x', keep) && k <= |x|
    ensures Rank(keep, k) <= |x'| && Cost(g', x', Rank(keep, k)) == Cost(g, x, k)
  {
    RankMono(keep, k, |keep|);
    if k > 0 {
      SameCost(g, x, g', x', keep, k - 1);
      assert keep[k - 1] || x[k - 1] == 0.0;
      TimesUnit(g.cost[k - 1]);
    }
  }
}
