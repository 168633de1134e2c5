/** bench/mcf/mcfutil.c, refresh_potential: recomputing all potentials from the tree. */
module McfUtil {
  import opened Trees
  import opened Links
  import opened Walks
  import opened Flows
  import opened Basis
  import opened Network

  // ----- refresh_potential

  /** The potential that makes the basic arc of v tight, given the potential of its father. */
  function FromFather(v: Node, arcs: seq<Arc>, father: int): int
    requires 0 <= v.basicArc < |arcs|
  {
    if v.orientation == UP then arcs[v.basicArc].cost + father else father - arcs[v.basicArc].cost
  }

  ghost predicate BasicArcsInRange(ns: seq<Node>, es: seq<Arc>) {
    forall v {:trigger ns[v].basicArc} :: 0 < v < |ns| ==> 0 <= ns[v].basicArc < |es|
  }

  /** Node v has the potential that its basic arc asks for. */
  ghost predicate PricedAt(ns: seq<Node>, es: seq<Arc>, v: int)
    requires 0 < v < |ns|
  {
    && 0 <= ns[v].pred < |ns| && 0 <= ns[v].basicArc < |es|
    && ns[v].potential == FromFather(ns[v], es, ns[ns[v].pred].potential)
  }

  ghost predicate AllPriced(ns: seq<Node>, es: seq<Arc>) {
    forall v {:trigger PricedAt(ns, es, v)} :: 0 < v < |ns| ==> PricedAt(ns, es, v)
  }

  ghost function Downs(ns: seq<Node>, seen: set<int>): set<int> {
    set v | v in seen && 0 < v < |ns| && ns[v].orientation == DOWN
  }

  ghost predicate PotentialsDiffer(ns: seq<Node>, ns': seq<Node>) {
    && |ns'| == |ns|
    && forall v {:trigger ns'[v]} :: 0 <= v < |ns| ==> ns'[v] == ns[v].(potential := ns'[v].potential)
  }

  lemma DownsGrow(ns: seq<Node>, seen: set<int>, v: int)
    requires v !in seen && 0 < v < |ns|
    ensures |Downs(ns, seen + {v})| == |Downs(ns, seen)| + if ns[v].orientation == DOWN then 1 else 0
  {
    if ns[v].orientation == DOWN {
      assert Downs(ns, seen + {v}) == Downs(ns, seen) + {v};
    } else {
      assert Downs(ns, seen + {v}) == Downs(ns, seen);
    }
  }

  lemma DifferKeeps(ns: seq<Node>, ns': seq<Node>)
    requires PotentialsDiffer(ns, ns')
    ensures LinksOf(ns') == LinksOf(ns) && BasisOf(ns') == BasisOf(ns)
    ensures forall s :: Downs(ns', s) == Downs(ns, s)
  {
    assert LinksOf(ns').pred == LinksOf(ns).pred && LinksOf(ns').child == LinksOf(ns).child;
    assert LinksOf(ns').sibling == LinksOf(ns).sibling && LinksOf(ns').siblingPrev == LinksOf(ns).siblingPrev;
    assert BasisOf(ns').at == BasisOf(ns).at;
    forall s ensures Downs(ns', s) == Downs(ns, s) {
      assert forall v :: 0 < v < |ns| ==> ns'[v].orientation == ns[v].orientation;
    }
  }

  /** The state of the walk: the nodes seen are priced from their fathers. */
  ghost predicate Priming(l: Links, ns: seq<Node>, es: seq<Arc>, seen: set<int>)
    requires BasicArcsInRange(ns, es)
  {
    && |ns| > 0 && LinksOf(ns) == l && ns[0].potential == -MAX_ART_COST
    && forall v {:trigger PricedAt(ns, es, v)} :: v in seen && 0 < v < |ns| ==> PricedAt(ns, es, v)
  }

  /** node is about to be visited. */
  ghost predicate Pending(l: Links, node: int, seen: set<int>)
    requires LinkedTree(l)
  {
    && 0 < node < |l.pred| && node !in seen
    && Walk(l, 0, node, seen + {node}) && Fresh(l, node, seen + {node})
  }

  function PricedNode(ns: seq<Node>, es: seq<Arc>, v: int): Node
    requires 0 <= v < |ns| && 0 <= ns[v].pred < |ns| && 0 <= ns[v].basicArc < |es|
  {
    ns[v].(potential := FromFather(ns[v], es, ns[ns[v].pred].potential))
  }

  method PriceNode(nodes: array<Node>, arcs: array<Arc>, node: int) returns (downs: int)
    requires 0 <= node < nodes.Length && 0 <= nodes[node].pred < nodes.Length && 0 <= nodes[node].basicArc < arcs.Length
    modifies nodes
    ensures nodes[..] == old(nodes[..])[node := PricedNode(old(nodes[..]), arcs[..], node)]
    ensures downs == if old(nodes[node]).orientation == DOWN then 1 else 0
  {
    downs := 0;
    if nodes[node].orientation == UP {
      nodes[node] := nodes[node].(potential := arcs[nodes[node].basicArc].cost + nodes[nodes[node].pred].potential);
    } else {
      nodes[node] := nodes[node].(potential := nodes[nodes[node].pred].potential - arcs[nodes[node].basicArc].cost);
      downs := 1;
    }
  }

  lemma PendingFacts(l: Links, ns: seq<Node>, es: seq<Arc>, v: int, seen: set<int>)
    requires LinkedTree(l) && |l.pred| == |ns| && BasicArcsInRange(ns, es)
    requires Priming(l, ns, es, seen) && Pending(l, v, seen)
    ensures 0 <= ns[v].pred < |ns| && ns[v].pred != v && 0 <= ns[v].basicArc < |es| && v in Sub(l.pred, 0)
    ensures forall u :: u in seen && 0 < u < |ns| ==> 0 <= ns[u].pred < |ns| && ns[u].pred != v
  {
    assert l.pred[v] == ns[v].pred;
    Step(l.pred, v);
    AncRange(l.pred, v);
    AncRange(l.pred, l.pred[v]);
    assert ns[v].basicArc == ns[v].basicArc;
    forall u | u in seen && 0 < u < |ns| ensures 0 <= ns[u].pred < |ns| && ns[u].pred != v {
      assert l.pred[u] == ns[u].pred;
      Step(l.pred, u);
      if ns[u].pred == v {
        FirstSeen(l, 0, v, u, seen + {v});
      }
    }
  }

  /** Pricing a pending node from its father keeps all nodes seen before priced. */
  lemma PriceOne(l: Links, ns: seq<Node>, es: seq<Arc>, v: int, seen: set<int>)
    requires LinkedTree(l) && |l.pred| == |ns| && BasicArcsInRange(ns, es)
    requires Priming(l, ns, es, seen) && Pending(l, v, seen)
    ensures 0 <= ns[v].pred < |ns| && 0 <= ns[v].basicArc < |es| && v in Sub(l.pred, 0)
    ensures var ns' := ns[v := PricedNode(ns, es, v)];
      PotentialsDiffer(ns, ns') && BasicArcsInRange(ns', es) && Priming(l, ns', es, seen + {v})
  {
    PendingFacts(l, ns, es, v, seen);
    var ns' := ns[v := PricedNode(ns, es, v)];
    DifferKeeps(ns, ns');
    forall u | u in seen + {v} && 0 < u < |ns| ensures PricedAt(ns', es, u) {
      if u != v {
        assert PricedAt(ns, es, u);
      }
    }
  }

  /** Where the walk stands: the nodes in `seen` are priced and their DOWN links counted. */
  ghost predicate Walked(l: Links, ns: seq<Node>, now: seq<Node>, es: seq<Arc>, seen: set<int>, downs: int)
    requires LinkedTree(l)
  {
    && PotentialsDiffer(ns, now) && BasicArcsInRange(now, es)
    && Priming(l, now, es, seen) && seen <= Sub(l.pred, 0)
    && downs == |Downs(ns, seen)|
  }

  lemma WalkedStep(l: Links, ns: seq<Node>, now: seq<Node>, es: seq<Arc>, v: int, seen: set<int>, downs: int)
    requires LinkedTree(l) && |l.pred| == |now| && Walked(l, ns, now, es, seen, downs) && Pending(l, v, seen)
    ensures 0 <= now[v].pred < |now| && 0 <= now[v].basicArc < |es|
    ensures Walked(l, ns, now[v := PricedNode(now, es, v)], es, seen + {v},
                   downs + if now[v].orientation == DOWN then 1 else 0)
    ensures |Sub(l.pred, 0) - (seen + {v})| < |Sub(l.pred, 0) - seen|
  {
    PriceOne(l, now, es, v, seen);
    DownsGrow(ns, seen, v);
    ProperSubsetCard(Sub(l.pred, 0) - (seen + {v}), Sub(l.pred, 0) - seen);
  }

  /** One round of the inner loop: price a node and move to its first child. */
  method Visit(nodes: array<Node>, arcs: array<Arc>, node: int, checksum: int, ghost l: Links, ghost ns: seq<Node>,
               ghost seen: set<int>)
    returns (child: int, sum: int)
    requires LinkedTree(l) && |l.pred| == nodes.Length
    requires Walked(l, ns, nodes[..], arcs[..], seen, checksum) && Pending(l, node, seen)
    modifies nodes
    ensures Walked(l, ns, nodes[..], arcs[..], seen + {node}, sum)
    ensures |Sub(l.pred, 0) - (seen + {node})| < |Sub(l.pred, 0) - seen|
    ensures child != NULL ==> Pending(l, child, seen + {node})
    ensures child == NULL ==> Walk(l, 0, node, seen + {node}) && Done(l, node, seen + {node})
  {
    WalkedStep(l, ns, nodes[..], arcs[..], node, seen, checksum);
    var down := PriceNode(nodes, arcs, node);
    sum := checksum + down;
    child := nodes[node].child;
    assert LinksOf(nodes[..]).child[node] == child;
    if child != NULL {
      Descend(l, 0, node, seen + {node});
    }
  }

  /** The inner loop: down along first children, pricing each node from its father. */
  method PriceDown(nodes: array<Node>, arcs: array<Arc>, start: int, checksum: int,
                   ghost l: Links, ghost ns: seq<Node>, ghost before: set<int>)
    returns (last: int, sum: int, ghost seen: set<int>)
    requires LinkedTree(l) && |l.pred| == nodes.Length
    requires Walked(l, ns, nodes[..], arcs[..], before, checksum) && Pending(l, start, before)
    modifies nodes
    ensures Walked(l, ns, nodes[..], arcs[..], seen, sum)
    ensures |Sub(l.pred, 0) - seen| < |Sub(l.pred, 0) - before|
    ensures Walk(l, 0, last, seen) && Done(l, last, seen)
  {
    var node := start;
    last, sum, seen := start, checksum, before;
    while node != NULL
      invariant Walked(l, ns, nodes[..], arcs[..], seen, sum)
      invariant (seen == before && node != NULL) || |Sub(l.pred, 0) - seen| < |Sub(l.pred, 0) - before|
      invariant node != NULL ==> Pending(l, node, seen)
      invariant node == NULL ==> Walk(l, 0, last, seen) && Done(l, last, seen)
      decreases |Sub(l.pred, 0) - seen|
    {
      var tmp := node;
      node, sum := Visit(nodes, arcs, tmp, sum, l, ns, seen);
      last, seen := tmp, seen + {tmp};
    }
  }

  /** The seek loop: up until some node has a further sibling, or to the root. */
  method SeekSibling(nodes: array<Node>, start: int, ghost l: Links, ghost seen: set<int>) returns (node: int)
    requires LinkedTree(l) && LinksOf(nodes[..]) == l
    requires Walk(l, 0, start, seen) && Done(l, start, seen)
    ensures node == 0 ==> seen == Sub(l.pred, 0)
    ensures node != 0 ==> Pending(l, node, seen)
  {
    node := start;
    var seekSibling := true;
    Root(l.pred);
    while nodes[node].pred != NULL && seekSibling
      invariant 0 <= node < nodes.Length
      invariant seekSibling ==> Walk(l, 0, node, seen) && Done(l, node, seen)
      invariant !seekSibling ==> Pending(l, node, seen)
      decreases seekSibling, |Anc(l.pred, node)|
    {
      var tmp := nodes[node].sibling;
      if tmp != NULL {
        Across(l, 0, node, seen);
        node := tmp;
        seekSibling := false;
      } else {
        Ascend(l, 0, node, seen);
        node := nodes[node].pred;
      }
    }
    if seekSibling {
      assert node == 0 by {
        if node != 0 { Step(l.pred, node); }
      }
      Finish(l, 0, seen);
    }
  }

  lemma {:induction false} RootHasChild(l: Links, v: int)
    requires LinkedTree(l) && 0 < v < |l.pred|
    ensures l.child[0] != NULL
    decreases |Anc(l.pred, v)|
  {
    Step(l.pred, v);
    if l.pred[v] == 0 {
      HasFirstChild(l, v);
    } else {
      RootHasChild(l, l.pred[v]);
    }
  }

  /** The nodes whose link points down. */
  ghost function DownNodes(ns: seq<Node>): set<int> {
    set v | 0 < v < |ns| && ns[v].orientation == DOWN
  }

  lemma WalkedBegin(l: Links, ns: seq<Node>, es: seq<Arc>)
    requires LinkedTree(l) && LinksOf(ns) == l && BasicArcsInRange(ns, es) && |ns| > 1
    ensures Walked(l, ns, ns[0 := ns[0].(potential := -MAX_ART_COST)], es, {0}, 0)
    ensures ns[0].child != NULL && Pending(l, ns[0].child, {0})
  {
    Root(l.pred);
    Begin(l, 0);
    DifferKeeps(ns, ns[0 := ns[0].(potential := -MAX_ART_COST)]);
    assert Downs(ns, {0}) == {};
    RootHasChild(l, 1);
    Descend(l, 0, 0, {0});
    assert l.child[0] == ns[0].child;
    assert ({0} + {l.child[0]}) - {l.child[0]} == {0};
  }

  lemma WalkedAll(l: Links, ns: seq<Node>, now: seq<Node>, es: seq<Arc>, downs: int)
    requires LinkedTree(l) && Walked(l, ns, now, es, Sub(l.pred, 0), downs)
    ensures AllPriced(now, es)
    ensures downs == |DownNodes(now)|
  {
    forall v | 0 < v < |now| ensures v in Sub(l.pred, 0) {
      AncRange(l.pred, v);
    }
    assert Downs(ns, Sub(l.pred, 0)) == DownNodes(now);
  }

  /** refresh_potential: every potential is recomputed from the root down; the result counts
      the DOWN links. Nothing but potentials changes. */
  method RefreshPotential(nodes: array<Node>, arcs: array<Arc>) returns (checksum: int)
    requires LinkedTree(LinksOf(nodes[..])) && BasicArcsInRange(nodes[..], arcs[..]) && nodes.Length > 1
    modifies nodes
    ensures PotentialsDiffer(old(nodes[..]), nodes[..]) && BasicArcsInRange(nodes[..], arcs[..])
    ensures nodes[0].potential == -MAX_ART_COST
    ensures AllPriced(nodes[..], arcs[..])
    ensures checksum == |DownNodes(nodes[..])|
  {
    ghost var ns, l := nodes[..], LinksOf(nodes[..]);
    ghost var seen := {0};
    WalkedBegin(l, ns, arcs[..]);
    nodes[0] := nodes[0].(potential := -MAX_ART_COST);
    assert nodes[..] == ns[0 := ns[0].(potential := -MAX_ART_COST)];
    var node := nodes[0].child;
    checksum := 0;
    while node != 0
      invariant Walked(l, ns, nodes[..], arcs[..], seen, checksum)
      invariant node != 0 ==> Pending(l, node, seen)
      invariant node == 0 ==> seen == Sub(l.pred, 0)
      decreases |Sub(l.pred, 0) - seen|, node != 0
    {
      var tmp;
      tmp, checksum, seen := PriceDown(nodes, arcs, node, checksum, l, ns, seen);
      node := SeekSibling(nodes, tmp, l, seen);
    }
    WalkedAll(l, ns, nodes[..], arcs[..], checksum);
  }

  // ----- refreshing changes nothing when the basis is priced already

  /** Potentials are determined by the tree: two pricings of it agree. */
  lemma {:induction false} PricingUnique(ns: seq<Node>, ns': seq<Node>, es: seq<Arc>, v: int)
    requires IsTree(Preds(ns)) && PotentialsDiffer(ns, ns')
    requires ns[0].potential == ns'[0].potential
    requires AllPriced(ns, es) && AllPriced(ns', es)
    requires 0 <= v < |ns|
    ensures ns'[v].potential == ns[v].potential
    decreases |Anc(Preds(ns), v)|
  {
    if v != 0 {
      Step(Preds(ns), v);
      assert PricedAt(ns, es, v) && PricedAt(ns', es, v);
      PricingUnique(ns, ns', es, Preds(ns)[v]);
    }
  }

  lemma TightIsPriced(n: nat, ns: seq<Node>, es: seq<Arc>, v: int)
    requires TreeOk(n, ns, es) && 0 < v <= n
    ensures 0 <= ns[v].basicArc < |es|
    ensures RedCost(GraphOf(es), Potentials(ns), ns[v].basicArc) == 0 <==> PricedAt(ns, es, v)
  {
    assert BasisOf(ns).at[v] == BasicOf(ns[v]);
    assert Joins(GraphOf(es), ns[v].basicArc, v, Preds(ns)[v], ns[v].orientation);
    Step(Preds(ns), v);
  }

  /** On a priced basis the incremental potentials are what a recomputation gives. */
  lemma RefreshIdempotent(n: nat, ns: seq<Node>, ns': seq<Node>, es: seq<Arc>)
    requires TreeOk(n, ns, es) && Priced(n, ns, es)
    requires PotentialsDiffer(ns, ns') && ns'[0].potential == -MAX_ART_COST && AllPriced(ns', es)
    ensures ns' == ns
  {
    forall v | 0 < v <= n ensures PricedAt(ns, es, v) {
      TightIsPriced(n, ns, es, v);
      assert BasisOf(ns).at[v].arc == ns[v].basicArc;
    }
    forall v | 0 <= v < |ns| ensures ns'[v] == ns[v] {
      PricingUnique(ns, ns', es, v);
    }
  }
}
