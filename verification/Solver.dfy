/** bench/mcf/mcf.c: the artificial start, the first round of global_opt and the report of its
    objective value. */
module Solver {
  import opened Flows
  import opened Network
  import opened FlowCost
  import opened Pricing
  import opened Simplex

  /** The same arcs but for the flow fields. */
  ghost predicate OnlyFlows(es: seq<Arc>, es2: seq<Arc>) {
    |es2| == |es| && forall e {:trigger es2[e]} :: 0 <= e < |es| ==> es2[e] == es[e].(flow := es2[e].flow)
  }

  lemma SameGraph(es: seq<Arc>, es2: seq<Arc>)
    requires OnlyFlows(es, es2)
    ensures GraphOf(es2) == GraphOf(es)
  {
    assert GraphOf(es2).tail == GraphOf(es).tail && GraphOf(es2).head == GraphOf(es).head;
    assert GraphOf(es2).cost == GraphOf(es).cost;
  }

  lemma {:induction false} SameFreeCost(ns: seq<Node>, es: seq<Arc>, es2: seq<Arc>, x: seq<real>, k: nat)
    requires OnlyFlows(es, es2) && EndsInRange(ns, es, 0, |es|) && k <= |x| == |es|
    ensures EndsInRange(ns, es2, 0, |es2|) && FreeCost(ns, es2, x, k) == FreeCost(ns, es, x, k)
  {
    if k > 0 {
      SameFreeCost(ns, es, es2, x, k - 1);
      assert es2[k - 1] == es[k - 1].(flow := es2[k - 1].flow);
    }
  }

  lemma SameFeasible(n: nat, es: seq<Arc>, es2: seq<Arc>, y: seq<real>)
    requires OnlyFlows(es, es2)
    ensures Feasible(n, es2, y) <==> Feasible(n, es, y)
  {
    SameGraph(es, es2);
    forall e | 0 <= e < |es| ensures es2[e].ident == es[e].ident {
      assert es2[e] == es[e].(flow := es2[e].flow);
    }
  }

  /** No feasible circulation costs less than x. */
  ghost predicate Least(n: nat, es: seq<Arc>, x: seq<real>) {
    Feasible(n, es, x) && |x| == |es| && CostsLeast(n, es, TotalCost(GraphOf(es), x))
  }

  lemma SameLeast(n: nat, es: seq<Arc>, es2: seq<Arc>, x: seq<real>)
    requires OnlyFlows(es, es2) && Least(n, es, x)
    ensures Least(n, es2, x)
  {
    SameGraph(es, es2);
    SameFeasible(n, es, es2, x);
    forall y {:trigger Feasible(n, es2, y)} | Feasible(n, es2, y)
      ensures TotalCost(GraphOf(es2), x) <= TotalCost(GraphOf(es2), y)
    {
      SameFeasible(n, es, es2, y);
    }
  }

  /** The arcs of the problem: what they cost and join, and which are fixed. */
  ghost predicate SameArcs(n: nat, es: seq<Arc>, es2: seq<Arc>) {
    |es2| == |es| && forall e {:trigger es2[e]} :: n <= e < |es| ==>
      && es2[e].cost == es[e].cost && es2[e].tail == es[e].tail && es2[e].head == es[e].head
      && (es2[e].ident == FIXED <==> es[e].ident == FIXED)
  }

  /** Start and simplex loop, on a network given by its arcs alone. */
  method Optimise(net: Net, pricer: Pricer)
    requires net.Shape() && pricer.Valid() && pricer.initialize
    requires forall e :: net.n <= e < net.n + net.m ==> 0 < net.arcs[e].tail <= net.n && 0 < net.arcs[e].head <= net.n
    modifies net`iterations, net`boundExchanges, net`checksum, net.nodes, net.arcs
    modifies pricer, pricer.basket, pricer.perm
    ensures Consistent(net.n, net.nodes[..], net.Es()) && StronglyFeasible(net.nodes[..])
    ensures SameArcs(net.n, old(net.Es()), net.Es())
    ensures Least(net.n, net.Es(), FlowOf(net.nodes[..], net.Es()))
    ensures pricer.Valid() && pricer.initialize
  {
    ghost var es := net.Es();
    net.StartArtificial();
    assert SameArcs(net.n, es, net.Es());
    ghost var es1 := net.Es();
    net.PrimalNetSimplex(pricer);
    assert SameArcs(net.n, es1, net.Es());
  }

  /** What the flow cost writes changes nothing about the problem. */
  lemma WrittenLeast(n: nat, ns: seq<Node>, es: seq<Arc>, es2: seq<Arc>, stop: nat, x: seq<real>)
    requires Written(n, ns, es, es2, stop) && Least(n, es[..stop], x) && EndsInRange(ns, es[..stop], 0, stop)
    ensures Least(n, es2[..stop], x) && SameArcs(n, es[..stop], es2[..stop])
    ensures EndsInRange(ns, es2[..stop], 0, stop) && GraphOf(es2[..stop]) == GraphOf(es[..stop])
    ensures FreeCost(ns, es2[..stop], x, stop) == FreeCost(ns, es[..stop], x, stop)
  {
    var s, s2 := es[..stop], es2[..stop];
    forall e {:trigger s2[e]} | 0 <= e < stop ensures s2[e] == s[e].(flow := s2[e].flow) {
      assert es2[e] == es[e].(flow := es2[e].flow);
    }
    SameGraph(s, s2);
    SameFreeCost(ns, s, s2, x, stop);
    SameLeast(n, s, s2, x);
  }

  /** flow_cost on an optimal basis. */
  method Report(net: Net, bigM: int) returns (total: real, ghost x: seq<real>)
    requires net.Shape() && Consistent(net.n, net.nodes[..], net.Es())
    requires Least(net.n, net.Es(), FlowOf(net.nodes[..], net.Es()))
    modifies net.arcs
    ensures SameArcs(net.n, old(net.Es()), net.Es()) && Least(net.n, net.Es(), x)
    ensures forall e {:trigger net.arcs[e].flow} :: net.n <= e < net.n + net.m ==> net.arcs[e].flow as real == x[e]
    ensures EndsInRange(net.nodes[..], net.Es(), 0, |net.Es()|)
    ensures total == TotalCost(GraphOf(net.Es()), x) - FreeCost(net.nodes[..], net.Es(), x, |x|)
  {
    ghost var n, stop, ns, es := net.n, net.n + net.m, net.nodes[..], net.arcs[..];
    assert es[..stop] == net.Es();
    x := FlowOf(ns, es[..stop]);
    total := FlowCost.FlowCost(net.nodes, net.arcs, net.n, net.n + net.m, bigM);
    ghost var es2 := net.arcs[..];
    assert es2[..stop] == net.Es();
    WrittenLeast(n, ns, es, es2, stop, x);
    forall e | n <= e < stop ensures es2[e].flow as real == x[e] {
    }
  }

  /** The number reported is the least cost of a circulation, and the flow fields of the arcs proper
      hold one of that cost; free arcs are left out of the number. */
  method Solve(net: Net, pricer: Pricer, bigM: int) returns (total: real, ghost x: seq<real>)
    requires net.Shape() && pricer.Valid() && pricer.initialize
    requires forall e :: net.n <= e < net.n + net.m ==> 0 < net.arcs[e].tail <= net.n && 0 < net.arcs[e].head <= net.n
    modifies net`iterations, net`boundExchanges, net`checksum, net.nodes, net.arcs
    modifies pricer, pricer.basket, pricer.perm
    ensures SameArcs(net.n, old(net.Es()), net.Es()) && Least(net.n, net.Es(), x)
    ensures forall e {:trigger net.arcs[e].flow} :: net.n <= e < net.n + net.m ==> net.arcs[e].flow as real == x[e]
    ensures EndsInRange(net.nodes[..], net.Es(), 0, |net.Es()|)
    ensures total == TotalCost(GraphOf(net.Es()), x) - FreeCost(net.nodes[..], net.Es(), x, |x|)
    ensures AllCharged(net.nodes[..], net.Es()) ==> total == TotalCost(GraphOf(net.Es()), x)
  {
    Optimise(net, pricer);
    total, x := Report(net, bigM);
    if AllCharged(net.nodes[..], net.Es()) {
      NothingFree(net.nodes[..], net.Es(), x, |x|);
    }
  }
}
