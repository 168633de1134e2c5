/** bench/mcf/pstart.c: the artificial start. Every node hangs on the root by its dummy arc,
    which is expensive and carries nothing. */
module Start {
  import opened Trees
  import opened Links
  import opened Flows
  import opened Basis
  import opened Network

  /** The star around the root. */
  ghost predicate Star(n: nat, ns: seq<Node>, es: seq<Arc>) {
    && n > 0 && |ns| == n + 1 && Dummies(n, es)
    && ns[0].pred == ns[0].sibling == ns[0].siblingPrev == NULL && ns[0].child == 1
    && ns[0].depth == n + 1 && ns[0].potential == -MAX_ART_COST
    && (forall v {:trigger ns[v]} :: 0 < v <= n ==>
         && ns[v].pred == 0 && ns[v].child == NULL
         && ns[v].sibling == (if v == n then NULL else v + 1)
         && ns[v].siblingPrev == (if v == 1 then NULL else v - 1)
         && ns[v].basicArc == v - 1 && ns[v].orientation == UP
         && ns[v].flow == 0 && ns[v].depth == 1 && ns[v].potential == 0)
    && (forall e {:trigger es[e]} :: 0 <= e < n ==> es[e].cost == MAX_ART_COST && es[e].ident == BASIC)
    && (forall e {:trigger es[e]} :: n <= e < |es| ==> es[e].ident == FIXED || es[e].ident == AT_LOWER)
  }

  lemma StarTree(n: nat, ns: seq<Node>, es: seq<Arc>)
    requires Star(n, ns, es)
    ensures IsTree(Preds(ns)) && Linked(LinksOf(ns))
    ensures forall v :: 0 < v <= n ==> Anc(Preds(ns), v) == {0, v}
  {
    var p, anc := Preds(ns), seq(n + 1, v => {0, v});
    assert AncestorMap(p, anc) by {
      assert anc[0] == {0};
      forall v | 0 < v < |p| ensures p[v] == 0 && v !in anc[p[v]] && anc[v] == {v} + anc[p[v]] {
      }
    }
    var ord := seq(n + 1, v => v);
    assert LinkOrder(LinksOf(ns), ord);
    forall v | 0 < v <= n ensures Anc(p, v) == {0, v} {
      AncUnique(p, anc, v);
    }
  }

  lemma StarSizes(n: nat, ns: seq<Node>, es: seq<Arc>)
    requires Star(n, ns, es)
    ensures IsTree(Preds(ns)) && DepthIsSize(BasisOf(ns))
  {
    StarTree(n, ns, es);
    var p := Preds(ns);
    Root(p);
    forall v | 0 <= v < |ns| ensures BasisOf(ns).at[v].depth == |Sub(p, v)| {
      assert BasisOf(ns).at[v] == BasicOf(ns[v]);
      if v == 0 {
        AllBelowRoot(p, n + 1);
      } else {
        assert Sub(p, v) == {v};
      }
    }
  }

  lemma {:induction false} AllBelowRoot(p: seq<int>, k: nat)
    requires IsTree(p) && k <= |p|
    ensures |set v | 0 <= v < k && v < |p| && 0 in Anc(p, v)| == k
    ensures k == |p| ==> |Sub(p, 0)| == k
  {
    var s := set v | 0 <= v < k && v < |p| && 0 in Anc(p, v);
    if k > 0 {
      AllBelowRoot(p, k - 1);
      AncRange(p, k - 1);
      var t := set v | 0 <= v < k - 1 && v < |p| && 0 in Anc(p, v);
      assert s == t + {k - 1};
    } else {
      assert s == {};
    }
    if k == |p| {
      assert s == Sub(p, 0);
    }
  }

  lemma {:induction false} NoFlowNoExcess(g: Graph, x: seq<real>, v: int, k: nat)
    requires |g.tail| == |g.head| && k <= |x| && k <= |g.tail| && forall e :: 0 <= e < |x| ==> x[e] == 0.0
    ensures Excess(g, x, v, k) == 0.0
  {
    if k > 0 {
      NoFlowNoExcess(g, x, v, k - 1);
    }
  }

  lemma StarSpans(n: nat, ns: seq<Node>, es: seq<Arc>)
    requires Star(n, ns, es)
    ensures TreeOk(n, ns, es)
    ensures forall v {:trigger BasisOf(ns).at[v]} :: 0 < v <= n ==> BasisOf(ns).at[v].arc == v - 1
  {
    StarTree(n, ns, es);
    StarSizes(n, ns, es);
    var g, b := GraphOf(es), BasisOf(ns);
    assert IsGraph(g, n + 1);
    forall v | 0 < v < |ns|
      ensures Joins(g, b.at[v].arc, v, b.pred[v], b.at[v].up) && b.at[v].arc == v - 1
    {
      assert b.at[v] == BasicOf(ns[v]);
      assert es[v - 1].tail == v;
    }
  }

  lemma StarFlow(n: nat, ns: seq<Node>, es: seq<Arc>)
    requires Star(n, ns, es) && IsGraph(GraphOf(es), n + 1)
    ensures Conserves(GraphOf(es), n + 1, FlowOf(ns, es))
  {
    var g, x := GraphOf(es), FlowOf(ns, es);
    forall e | 0 <= e < |x| ensures x[e] == 0.0 {
      if e < n {
        assert es[e].tail == e + 1 && ns[e + 1].basicArc == e;
      }
    }
    forall v | 0 <= v < n + 1 ensures Excess(g, x, v, |x|) == 0.0 {
      NoFlowNoExcess(g, x, v, |x|);
    }
  }

  /** The star is a consistent and strongly feasible basis. */
  lemma StarConsistent(n: nat, ns: seq<Node>, es: seq<Arc>)
    requires Star(n, ns, es)
    ensures Consistent(n, ns, es) && StronglyFeasible(ns)
  {
    StarSpans(n, ns, es);
    StarFlow(n, ns, es);
    var g, b := GraphOf(es), BasisOf(ns);
    forall e | 0 <= e < |es| ensures es[e].ident == BASIC <==> IsBasicArc(b, e) {
      if e < n {
        assert b.at[e + 1].arc == e;
      }
    }
    forall v | 0 < v < |ns| ensures RedCost(g, Potentials(ns), b.at[v].arc) == 0 {
      assert ns[v].potential == 0;
      assert es[v - 1].cost == MAX_ART_COST;
    }
  }

  /** An arc proper as the start leaves it. */
  function Released(a: Arc): Arc {
    a.(ident := if a.ident == FIXED then FIXED else AT_LOWER)
  }

  method ReleaseArcs(arcs: array<Arc>, n: nat, stop: nat)
    requires n <= stop <= arcs.Length
    modifies arcs
    ensures forall e :: 0 <= e < arcs.Length ==>
      arcs[e] == if n <= e < stop then Released(old(arcs[e])) else old(arcs[e])
  {
    var arc := n;
    while arc != stop
      invariant n <= arc <= stop
      invariant forall e :: 0 <= e < arcs.Length ==>
        arcs[e] == if n <= e < arc then Released(old(arcs[e])) else old(arcs[e])
    {
      if arcs[arc].ident != FIXED {
        arcs[arc] := arcs[arc].(ident := AT_LOWER);
      }
      arc := arc + 1;
    }
  }

  /** primal_start_artificial: n nodes besides the root, m arcs proper from index n on. */
  method PrimalStartArtificial(nodes: array<Node>, arcs: array<Arc>, n: nat, m: nat)
    requires n > 0 && nodes.Length == n + 1 && n + m <= arcs.Length
    requires forall e :: n <= e < n + m ==> 0 < arcs[e].tail <= n && 0 < arcs[e].head <= n
    modifies nodes, arcs
    ensures Star(n, nodes[..], arcs[..n + m])
    ensures forall e :: n <= e < n + m ==> arcs[e] == Released(old(arcs[e]))
  {
    nodes[0] := nodes[0].(basicArc := NULL, pred := NULL, child := 1, sibling := NULL, siblingPrev := NULL,
                          depth := n + 1, orientation := DOWN, potential := -MAX_ART_COST, flow := 0);
    ghost var root := nodes[0];
    ReleaseArcs(arcs, n, n + m);
    ghost var released := arcs[..];
    var node, arc := 1, 0;
    while node != n + 1
      invariant 1 <= node <= n + 1 && arc == node - 1
      invariant nodes[0] == root
      invariant forall v {:trigger nodes[v]} :: 1 <= v < node ==>
        && nodes[v].pred == 0 && nodes[v].child == NULL && nodes[v].sibling == v + 1 && nodes[v].siblingPrev == v - 1
        && nodes[v].basicArc == v - 1 && nodes[v].orientation == UP
        && nodes[v].flow == 0 && nodes[v].depth == 1 && nodes[v].potential == 0
      invariant forall e {:trigger arcs[e]} :: 0 <= e < arc ==>
        arcs[e].tail == e + 1 && arcs[e].head == 0 && arcs[e].cost == MAX_ART_COST && arcs[e].ident == BASIC
      invariant forall e {:trigger arcs[e]} :: n <= e < arcs.Length ==> arcs[e] == released[e]
    {
      nodes[node] := nodes[node].(basicArc := arc, pred := 0, child := NULL, sibling := node
        + 1, siblingPrev := node - 1,
                                  depth := 1, orientation := UP, potential := 0, flow := 0);
      arcs[arc] := arcs[arc].(cost := MAX_ART_COST, ident := BASIC, tail := node, head := 0);
      node, arc := node + 1, arc + 1;
    }
    node := node - 1;
    nodes[node] := nodes[node].(sibling := NULL);
    nodes[1] := nodes[1].(siblingPrev := NULL);
    assert Dummies(n, arcs[..n + m]);
  }
}
