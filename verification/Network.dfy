/** The node and arc records of bench/mcf/defines.h and the views of them that the other
    modules reason about. Nodes and arcs live in arrays and point to each other by index.
    The dummy arcs come first in the arc array: the one of node v has index v - 1, and the
    arcs proper follow from index n on. */
module Network {
  import opened Trees
  import opened Links
  import opened Flows
  import opened Basis
  import opened Cycles

  const MAX_ART_COST := 100000000

  datatype Ident = FIXED | BASIC | AT_LOWER | AT_UPPER

  datatype Node = Node(potential: int, orientation: bool, child: int, pred: int, sibling: int, siblingPrev: int,
                       basicArc: int, firstout: int, firstin: int, flow: int, depth: int, number: int)

  datatype Arc = Arc(cost: int, tail: int, head: int, ident: Ident, nextout: int, nextin: int, flow: int)

  // ----- views

  function Preds(ns: seq<Node>): (p: seq<int>)
    ensures |p| == |ns| && forall v {:trigger p[v]} :: 0 <= v < |ns| ==> p[v] == ns[v].pred
  {
    seq(|ns|, v requires 0 <= v < |ns| => ns[v].pred)
  }

  function LinksOf(ns: seq<Node>): (l: Links)
    ensures SameSize(l) && l.pred == Preds(ns)
    ensures forall v {:trigger l.child[v]} :: 0 <= v < |ns| ==> l.child[v] == ns[v].child
    ensures forall v {:trigger l.sibling[v]} :: 0 <= v < |ns| ==> l.sibling[v] == ns[v].sibling
    ensures forall v {:trigger l.siblingPrev[v]} :: 0 <= v < |ns| ==> l.siblingPrev[v] == ns[v].siblingPrev
  {
    Links(Preds(ns),
          seq(|ns|, v requires 0 <= v < |ns| => ns[v].child),
          seq(|ns|, v requires 0 <= v < |ns| => ns[v].sibling),
          seq(|ns|, v requires 0 <= v < |ns| => ns[v].siblingPrev))
  }

  function BasicOf(v: Node): Basic {
    Basic(v.basicArc, v.orientation, v.flow, v.depth)
  }

  function BasisOf(ns: seq<Node>): (b: Basis)
    ensures b.pred == Preds(ns) && |b.at| == |ns|
    ensures forall v {:trigger b.at[v]} :: 0 <= v < |ns| ==> b.at[v] == BasicOf(ns[v])
  {
    Basis(Preds(ns), seq(|ns|, v requires 0 <= v < |ns| => BasicOf(ns[v])))
  }

  function Potentials(ns: seq<Node>): (pot: seq<int>)
    ensures |pot| == |ns| && forall v {:trigger pot[v]} :: 0 <= v < |ns| ==> pot[v] == ns[v].potential
  {
    seq(|ns|, v requires 0 <= v < |ns| => ns[v].potential)
  }

  function GraphOf(es: seq<Arc>): (g: Graph)
    ensures |g.tail| == |g.head| == |g.cost| == |es|
    ensures forall e {:trigger g.tail[e]} :: 0 <= e < |es| ==> g.tail[e] == es[e].tail
    ensures forall e {:trigger g.head[e]} :: 0 <= e < |es| ==> g.head[e] == es[e].head
    ensures forall e {:trigger g.cost[e]} :: 0 <= e < |es| ==> g.cost[e] == es[e].cost
  {
    Graph(seq(|es|, e requires 0 <= e < |es| => es[e].tail),
          seq(|es|, e requires 0 <= e < |es| => es[e].head),
          seq(|es|, e requires 0 <= e < |es| => es[e].cost))
  }

  /** The ends of the arcs lo .. hi-1 are nodes. */
  predicate EndsInRange(ns: seq<Node>, es: seq<Arc>, lo: int, hi: int) {
    && 0 <= lo <= hi <= |es|
    && forall e {:trigger es[e]} :: lo <= e < hi ==> 0 <= es[e].tail < |ns| && 0 <= es[e].head < |ns|
  }

  // ----- the flow a basis stands for

  /** The node whose basic arc e is, decided the way suspend_impl decides it. */
  function Owner(ns: seq<Node>, a: Arc, e: int): int {
    if 0 <= a.tail < |ns| && a.tail != 0 && ns[a.tail].basicArc == e then a.tail else a.head
  }

  /** Basic arcs carry the flow stored at their node, arcs at the upper bound 1, others 0. */
  function FlowOn(ns: seq<Node>, es: seq<Arc>, e: int): real
    requires 0 <= e < |es|
  {
    if es[e].ident == BASIC then
      var v := Owner(ns, es[e], e);
      if 0 <= v < |ns| then ns[v].flow as real else 0.0
    else if es[e].ident == AT_UPPER then 1.0 else 0.0
  }

  function FlowOf(ns: seq<Node>, es: seq<Arc>): (x: seq<real>)
    ensures |x| == |es| && forall e {:trigger x[e]} :: 0 <= e < |es| ==> x[e] == FlowOn(ns, es, e)
  {
    seq(|es|, e requires 0 <= e < |es| => FlowOn(ns, es, e))
  }

  // ----- consistency of a basis

  /** Dummy arcs run from their node to the root; no other arc touches the root. */
  ghost predicate Dummies(n: nat, es: seq<Arc>) {
    && n <= |es|
    && (forall e {:trigger es[e]} :: 0 <= e < n ==> es[e].tail == e + 1 && es[e].head == 0)
    && (forall e {:trigger es[e]} :: n <= e < |es| ==> 0 < es[e].tail <= n && 0 < es[e].head <= n)
  }

  /** The tree: child lists, basic arcs along the father links, subtree sizes. */
  ghost predicate TreeOk(n: nat, ns: seq<Node>, es: seq<Arc>) {
    && n > 0 && |ns| == n + 1
    && Dummies(n, es)
    && LinkedTree(LinksOf(ns))
    && Spanning(GraphOf(es), BasisOf(ns))
    && DepthIsSize(BasisOf(ns))
  }

  ghost predicate IdentsOk(n: nat, ns: seq<Node>, es: seq<Arc>)
    requires |ns| > 0
  {
    && (forall e {:trigger es[e].ident} :: 0 <= e < |es| ==> (es[e].ident == BASIC <==> IsBasicArc(BasisOf(ns), e)))
    && (forall e {:trigger es[e].ident} :: 0 <= e < |es| && e < n ==> es[e].ident != AT_UPPER)
  }

  /** Flows are 0 or 1 and the arcs to the root carry nothing. */
  ghost predicate FlowsOk(ns: seq<Node>) {
    forall v {:trigger ns[v]} :: 0 < v < |ns| ==>
      && (ns[v].flow == 0 || ns[v].flow == 1)
      && (ns[v].pred == 0 ==> ns[v].flow == 0)
  }

  /** Potentials make every basic arc tight, from the fixed potential of the root on. */
  ghost predicate Priced(n: nat, ns: seq<Node>, es: seq<Arc>)
    requires TreeOk(n, ns, es)
  {
    && ns[0].potential == -MAX_ART_COST
    && Tight(GraphOf(es), BasisOf(ns), Potentials(ns))
  }

  /** A basis the simplex method can work on. */
  ghost predicate Consistent(n: nat, ns: seq<Node>, es: seq<Arc>) {
    && TreeOk(n, ns, es)
    && IdentsOk(n, ns, es)
    && FlowsOk(ns)
    && Priced(n, ns, es)
    && Conserves(GraphOf(es), n + 1, FlowOf(ns, es))
  }

  /** Strong feasibility: one more unit could run from every node to the root. */
  ghost predicate StronglyFeasible(ns: seq<Node>) {
    forall v {:trigger ns[v]} :: 0 < v < |ns| ==> ns[v].flow == if ns[v].orientation == UP then 0 else 1
  }

  /** The fields of a node that no pivot touches. */
  predicate SameLabels(v: Node, v': Node) {
    v'.firstout == v.firstout && v'.firstin == v.firstin && v'.number == v.number
  }

  /** The same network with another basis: of an arc only the ident may differ, and a FIXED arc
      stays FIXED. */
  ghost predicate SameNetwork(ns: seq<Node>, es: seq<Arc>, ns': seq<Node>, es': seq<Arc>) {
    && |ns'| == |ns| && |es'| == |es|
    && (forall v {:trigger ns'[v]} :: 0 <= v < |ns| ==> SameLabels(ns[v], ns'[v]))
    && (forall e {:trigger es'[e]} :: 0 <= e < |es| ==>
         es'[e] == es[e].(ident := es'[e].ident) && (es'[e].ident == FIXED <==> es[e].ident == FIXED))
  }

  // ----- first consequences

  /** The children of the root hang on their dummy arc, upwards. */
  lemma RootLink(n: nat, ns: seq<Node>, es: seq<Arc>, v: int)
    requires TreeOk(n, ns, es) && 0 < v <= n
    ensures 0 <= ns[v].basicArc < |es|
    ensures ns[v].pred == 0 <==> ns[v].basicArc < n
    ensures ns[v].pred == 0 ==> ns[v].orientation == UP && ns[v].basicArc == v - 1
  {
    var b := BasisOf(ns);
    assert Joins(GraphOf(es), b.at[v].arc, v, b.pred[v], b.at[v].up);
    Step(b.pred, v);
    Root(b.pred);
    var a := es[ns[v].basicArc];
  }

  lemma OwnerIs(n: nat, ns: seq<Node>, es: seq<Arc>, v: int)
    requires TreeOk(n, ns, es) && 0 < v <= n
    ensures 0 <= ns[v].basicArc < |es|
    ensures Owner(ns, es[ns[v].basicArc], ns[v].basicArc) == v
  {
    var b := BasisOf(ns);
    assert Joins(GraphOf(es), b.at[v].arc, v, b.pred[v], b.at[v].up);
    Step(b.pred, v);
    AncRange(b.pred, v);
    var t := es[ns[v].basicArc].tail;
    if t != v && t != 0 && ns[t].basicArc == ns[v].basicArc {
      assert b.at[t].arc == b.at[v].arc;
      ArcsDistinct(GraphOf(es), b, t, v);
    }
  }

  /** A basic arc carries the flow stored at its node. */
  lemma BasicFlow(n: nat, ns: seq<Node>, es: seq<Arc>, v: int)
    requires TreeOk(n, ns, es) && IdentsOk(n, ns, es) && 0 < v <= n
    ensures 0 <= ns[v].basicArc < |es| && es[ns[v].basicArc].ident == BASIC
    ensures FlowOf(ns, es)[ns[v].basicArc] == ns[v].flow as real
  {
    OwnerIs(n, ns, es, v);
    assert BasisOf(ns).at[v].arc == ns[v].basicArc;
    assert IsBasicArc(BasisOf(ns), ns[v].basicArc);
  }

  /** All represented flows are 0 or 1, and the dummy arcs carry nothing. */
  lemma FlowBounds(n: nat, ns: seq<Node>, es: seq<Arc>, e: int)
    requires TreeOk(n, ns, es) && IdentsOk(n, ns, es) && FlowsOk(ns) && 0 <= e < |es|
    ensures FlowOf(ns, es)[e] == 0.0 || FlowOf(ns, es)[e] == 1.0
    ensures e < n ==> FlowOf(ns, es)[e] == 0.0
  {
    if es[e].ident == BASIC {
      var b := BasisOf(ns);
      var v :| 0 < v < |b.pred| && b.at[v].arc == e;
      BasicFlow(n, ns, es, v);
      RootLink(n, ns, es, v);
    }
  }
}
