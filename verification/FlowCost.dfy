/** bench/mcf/mcfutil.c, flow_cost: the flow that the basis stands for is written into the arcs,
    and its cost is added up. */
module FlowCost {
  import opened Flows
  import opened Basis
  import opened Network
  import opened Progress

  // ----- writing the flow out

  function Preset(a: Arc): Arc {
    a.(flow := if a.ident == AT_UPPER then 1 else 0)
  }

  method PresetFlow(arcs: array<Arc>, n: nat, stop: nat)
    requires n <= stop <= arcs.Length
    modifies arcs
    ensures forall e {:trigger arcs[e]} :: 0 <= e < arcs.Length ==>
      arcs[e] == if n <= e < stop then Preset(old(arcs[e])) else old(arcs[e])
  {
    var arc := n;
    while arc != stop
      invariant n <= arc <= stop
      invariant forall e {:trigger arcs[e]} :: 0 <= e < arcs.Length ==>
        arcs[e] == if n <= e < arc then Preset(old(arcs[e])) else old(arcs[e])
    {
      if arcs[arc].ident == AT_UPPER {
        arcs[arc] := arcs[arc].(flow := 1);
      } else {
        arcs[arc] := arcs[arc].(flow := 0);
      }
      arc := arc + 1;
    }
  }

  /** es is es1 with the flows of the nodes 1 .. k-1 stored at their basic arcs. */
  ghost predicate StoredTo(ns: seq<Node>, k: nat, es1: seq<Arc>, es: seq<Arc>) {
    && |es| == |es1|
    && (forall e {:trigger es[e]} :: 0 <= e < |es| ==> es[e] == es1[e].(flow := es[e].flow))
    && (forall v {:trigger ns[v].basicArc} :: 0 < v < k && v < |ns| && 0 <= ns[v].basicArc < |es| ==>
         es[ns[v].basicArc].flow == ns[v].flow)
    && (forall e {:trigger es[e]} :: 0 <= e < |es| && (forall v :: 0 < v < k && v < |ns| ==> ns[v].basicArc != e) ==>
         es[e] == es1[e])
  }

  ghost predicate OwnArcs(ns: seq<Node>, m: int) {
    && (forall v {:trigger ns[v].basicArc} :: 0 < v < |ns| ==> 0 <= ns[v].basicArc < m)
    && (forall u, v :: 0 < u < |ns| && 0 < v < |ns| && ns[u].basicArc == ns[v].basicArc ==> u == v)
  }

  method StoreFlow(nodes: array<Node>, arcs: array<Arc>, ghost stop: nat)
    requires nodes.Length > 0 && stop <= arcs.Length && OwnArcs(nodes[..], stop)
    modifies arcs
    ensures StoredTo(nodes[..], nodes.Length, old(arcs[..]), arcs[..])
  {
    ghost var ns, es1 := nodes[..], arcs[..];
    var node := 1;
    while node != nodes.Length
      invariant 1 <= node <= nodes.Length
      invariant StoredTo(ns, node, es1, arcs[..])
    {
      ghost var es := arcs[..];
      assert ns[node] == nodes[node];
      var b := nodes[node].basicArc;
      arcs[b] := arcs[b].(flow := nodes[node].flow);
      assert arcs[..] == es[b := es[b].(flow := ns[node].flow)];
      StoreOne(ns, node, stop, es1, es, arcs[..]);
      node := node + 1;
    }
  }

  lemma StoreOne(ns: seq<Node>, k: nat, m: nat, es1: seq<Arc>, es: seq<Arc>, es': seq<Arc>)
    requires 0 < k < |ns| && m <= |es| && OwnArcs(ns, m) && StoredTo(ns, k, es1, es)
    requires es' == es[ns[k].basicArc := es[ns[k].basicArc].(flow := ns[k].flow)]
    ensures StoredTo(ns, k + 1, es1, es')
  {
    forall e | 0 <= e < |es'| && (forall v :: 0 < v < k + 1 && v < |ns| ==> ns[v].basicArc != e)
      ensures es'[e] == es1[e]
    {
      assert ns[k].basicArc != e;
      assert es[e] == es1[e];
    }
  }

  lemma BasisOwns(n: nat, ns: seq<Node>, es: seq<Arc>)
    requires TreeOk(n, ns, es)
    ensures OwnArcs(ns, |es|)
  {
    var b := BasisOf(ns);
    forall u, v | 0 < u < |ns| && 0 < v < |ns| && ns[u].basicArc == ns[v].basicArc ensures u == v {
      assert b.at[u].arc == b.at[v].arc;
      ArcsDistinct(GraphOf(es), b, u, v);
    }
    forall v | 0 < v < |ns| ensures 0 <= ns[v].basicArc < |es| {
      OwnerIs(n, ns, es, v);
    }
  }

  /** What the stores leave in an arc proper is the flow it has in the basis. */
  lemma StoredIsFlow(n: nat, ns: seq<Node>, es: seq<Arc>, es1: seq<Arc>, es2: seq<Arc>, e: int)
    requires TreeOk(n, ns, es) && IdentsOk(n, ns, es) && |es1| == |es| && n <= e < |es|
    requires es1[e] == Preset(es[e])
    requires StoredTo(ns, n + 1, es1, es2)
    ensures es2[e].flow as real == FlowOf(ns, es)[e]
  {
    var b := BasisOf(ns);
    if es[e].ident == BASIC {
      assert IsBasicArc(b, e);
      var v :| 0 < v < |b.pred| && b.at[v].arc == e;
      assert b.at[v] == BasicOf(ns[v]);
      BasicFlow(n, ns, es, v);
      assert es2[ns[v].basicArc].flow == ns[v].flow;
    } else {
      assert !IsBasicArc(b, e);
      forall v | 0 < v < n + 1 && v < |ns| ensures ns[v].basicArc != e {
        assert b.at[v] == BasicOf(ns[v]);
      }
    }
  }

  /** es2 is es with the represented flow in the arcs proper of a network that ends at `stop`. */
  ghost predicate Written(n: nat, ns: seq<Node>, es: seq<Arc>, es2: seq<Arc>, stop: nat) {
    && n <= stop <= |es| == |es2|
    && (forall e {:trigger es2[e]} :: 0 <= e < stop ==> es2[e] == es[e].(flow := es2[e].flow))
    && (forall e {:trigger es2[e]} :: n <= e < stop ==> es2[e].flow as real == FlowOf(ns, es[..stop])[e])
    && (forall e {:trigger es2[e]} :: stop <= e < |es| ==> es2[e] == es[e])
  }

  /** The stores reach no arc behind the network. */
  lemma StoredWithin(ns: seq<Node>, k: nat, m: nat, es1: seq<Arc>, es2: seq<Arc>)
    requires m <= |es1| && OwnArcs(ns, m) && StoredTo(ns, k, es1, es2)
    ensures StoredTo(ns, k, es1[..m], es2[..m]) && forall e :: m <= e < |es1| ==> es2[e] == es1[e]
  {
    forall e | 0 <= e < m ensures es2[..m][e] == es1[..m][e].(flow := es2[..m][e].flow) {
      assert es2[e] == es1[e].(flow := es2[e].flow);
    }
  }

  lemma StoredIsWritten(n: nat, ns: seq<Node>, es: seq<Arc>, es1: seq<Arc>, es2: seq<Arc>, stop: nat)
    requires n <= stop <= |es| == |es1| == |es2| && TreeOk(n, ns, es[..stop]) && IdentsOk(n, ns, es[..stop])
    requires forall e {:trigger es1[e]} :: 0 <= e < |es| ==>
      es1[e] == if n <= e < stop then Preset(es[e]) else es[e]
    requires OwnArcs(ns, stop) && StoredTo(ns, n + 1, es1, es2)
    ensures Written(n, ns, es, es2, stop)
  {
    StoredWithin(ns, n + 1, stop, es1, es2);
    forall e {:trigger es2[e]} | 0 <= e < stop ensures es2[e] == es[e].(flow := es2[e].flow) {
      assert es2[e] == es1[e].(flow := es2[e].flow);
    }
    forall e {:trigger es2[e]} | n <= e < stop ensures es2[e].flow as real == FlowOf(ns, es[..stop])[e] {
      StoredIsFlow(n, ns, es[..stop], es1[..stop], es2[..stop], e);
    }
  }

  /** The first two loops. */
  method WriteFlow(nodes: array<Node>, arcs: array<Arc>, n: nat, stop: nat)
    requires nodes.Length == n + 1 && n <= stop <= arcs.Length
    requires TreeOk(n, nodes[..], arcs[..stop]) && IdentsOk(n, nodes[..], arcs[..stop])
    modifies arcs
    ensures Written(n, nodes[..], old(arcs[..]), arcs[..], stop)
  {
    ghost var ns, es := nodes[..], arcs[..];
    assert es[..stop] == arcs[..stop];
    BasisOwns(n, ns, es[..stop]);
    PresetFlow(arcs, n, stop);
    ghost var es1 := arcs[..];
    StoreFlow(nodes, arcs, stop);
    StoredIsWritten(n, ns, es, es1, arcs[..], stop);
  }

  // ----- adding the cost up

  /** Arcs from a node with a negative to one with a positive number are free of charge. */
  predicate Charged(ns: seq<Node>, a: Arc)
    requires 0 <= a.tail < |ns| && 0 <= a.head < |ns|
  {
    !(ns[a.tail].number < 0 && ns[a.head].number > 0)
  }

  /** The cost of the charged arcs proper among the first k that carry flow. */
  function Bill(ns: seq<Node>, es: seq<Arc>, n: nat, k: nat): int
    requires n <= |es| && k <= |es| && EndsInRange(ns, es, n, |es|)
  {
    if k <= n then 0
    else Bill(ns, es, n, k - 1) + if es[k - 1].flow != 0 && Charged(ns, es[k - 1]) then es[k - 1].cost else 0
  }

  /** The loop takes bigM off every vehicle arc and counts these arcs; the result puts it back. */
  method AddCosts(nodes: array<Node>, arcs: array<Arc>, n: nat, stop: nat, bigM: int)
    returns (fleet: int, operationalCost: int)
    requires n <= stop <= arcs.Length && EndsInRange(nodes[..], arcs[..stop], n, stop)
    ensures fleet >= 0 && fleet * bigM + operationalCost == Bill(nodes[..], arcs[..stop], n, stop)
  {
    fleet, operationalCost := 0, 0;
    ghost var ns, es := nodes[..], arcs[..stop];
    var arc := n;
    while arc != stop
      invariant n <= arc <= stop && fleet >= 0
      invariant fleet * bigM + operationalCost == Bill(ns, es, n, arc)
    {
      assert es[arc] == arcs[arc];
      if arcs[arc].flow != 0 {
        if !(nodes[arcs[arc].tail].number < 0 && nodes[arcs[arc].head].number > 0) {
          if nodes[arcs[arc].tail].number == 0 {
            operationalCost := operationalCost + (arcs[arc].cost - bigM);
            assert (fleet + 1) * bigM == fleet * bigM + bigM;
            fleet := fleet + 1;
          } else {
            operationalCost := operationalCost + arcs[arc].cost;
          }
        }
      }
      arc := arc + 1;
    }
  }

  /** What the arcs from a negative to a positive number cost, among the first k. */
  function FreeCost(ns: seq<Node>, es: seq<Arc>, x: seq<real>, k: nat): real
    requires EndsInRange(ns, es, 0, |es|) && k <= |x| == |es|
  {
    if k == 0 then 0.0
    else
      var a := es[k - 1];
      FreeCost(ns, es, x, k - 1)
      + if ns[a.tail].number < 0 && ns[a.head].number > 0 then Times(a.cost, x[k - 1]) else 0.0
  }

  /** The bill is the cost of the represented flow without that of the free arcs. */
  lemma {:induction false} BillIsCost(n: nat, ns: seq<Node>, es: seq<Arc>, es2: seq<Arc>, k: nat)
    requires TreeOk(n, ns, es) && IdentsOk(n, ns, es) && FlowsOk(ns) && k <= |es| == |es2|
    requires forall e {:trigger es2[e]} :: 0 <= e < |es| ==> es2[e] == es[e].(flow := es2[e].flow)
    requires forall e {:trigger es2[e]} :: n <= e < |es| ==> es2[e].flow as real == FlowOf(ns, es)[e]
    ensures EndsInRange(ns, es, 0, |es|) && EndsInRange(ns, es2, n, |es2|)
    ensures Bill(ns, es2, n, k) as real
         == Cost(GraphOf(es), FlowOf(ns, es), k) - FreeCost(ns, es, FlowOf(ns, es), k)
  {
    if k > 0 {
      BillIsCost(n, ns, es, es2, k - 1);
      FlowBounds(n, ns, es, k - 1);
      TimesUnit(es[k - 1].cost);
      if k > n {
        assert es2[k - 1].flow as real == FlowOf(ns, es)[k - 1];
      }
    }
  }

  /** No arc is free of charge. */
  predicate AllCharged(ns: seq<Node>, es: seq<Arc>)
    requires EndsInRange(ns, es, 0, |es|)
  {
    forall e {:trigger es[e]} :: 0 <= e < |es| ==> !(ns[es[e].tail].number < 0 && ns[es[e].head].number > 0)
  }

  lemma {:induction false} NothingFree(ns: seq<Node>, es: seq<Arc>, x: seq<real>, k: nat)
    requires EndsInRange(ns, es, 0, |es|) && AllCharged(ns, es) && k <= |x| == |es|
    ensures FreeCost(ns, es, x, k) == 0.0
  {
    if k > 0 {
      NothingFree(ns, es, x, k - 1);
    }
  }

  lemma BillOfWritten(n: nat, ns: seq<Node>, es: seq<Arc>, es2: seq<Arc>, stop: nat)
    requires Written(n, ns, es, es2, stop) && TreeOk(n, ns, es[..stop]) && IdentsOk(n, ns, es[..stop]) && FlowsOk(ns)
    ensures EndsInRange(ns, es[..stop], 0, stop) && EndsInRange(ns, es2[..stop], n, stop)
    ensures Bill(ns, es2[..stop], n, stop) as real
         == BasisCost(ns, es[..stop]) - FreeCost(ns, es[..stop], FlowOf(ns, es[..stop]), stop)
  {
    BillIsCost(n, ns, es[..stop], es2[..stop], stop);
  }

  /** flow_cost: afterwards every arc proper holds its flow, nothing else has changed outside the
      flow fields, and the result is the cost of that flow less that of the free arcs; without free arcs
      it is the cost that the simplex method minimises. Behind `stop` the arc array may have spare places. */
  method FlowCost(nodes: array<Node>, arcs: array<Arc>, n: nat, stop: nat, bigM: int) returns (total: real)
    requires nodes.Length == n + 1 && n <= stop <= arcs.Length
    requires TreeOk(n, nodes[..], arcs[..stop]) && IdentsOk(n, nodes[..], arcs[..stop]) && FlowsOk(nodes[..])
    modifies arcs
    ensures Written(n, nodes[..], old(arcs[..]), arcs[..], stop)
    ensures EndsInRange(nodes[..], old(arcs[..stop]), 0, stop)
    ensures total == BasisCost(nodes[..], old(arcs[..stop]))
                   - FreeCost(nodes[..], old(arcs[..stop]), FlowOf(nodes[..], old(arcs[..stop])), stop)
    ensures AllCharged(nodes[..], old(arcs[..stop])) ==> total == BasisCost(nodes[..], old(arcs[..stop]))
  {
    ghost var ns, es := nodes[..], arcs[..];
    assert es[..stop] == arcs[..stop];
    WriteFlow(nodes, arcs, n, stop);
    BillOfWritten(n, ns, es, arcs[..], stop);
    assert arcs[..stop] == arcs[..][..stop];
    var fleet, operationalCost := AddCosts(nodes, arcs, n, stop, bigM);
    if AllCharged(ns, es[..stop]) {
      NothingFree(ns, es[..stop], FlowOf(ns, es[..stop]), stop);
    }
    total := (fleet * bigM) as real + operationalCost as real;
  }
}
