/** Two rounds of the simplex loop (bench/mcf/psimplex.c with bench/mcf/pbeampp.c) on a network of one
    node with loops. The first pricing fills the basket with arcs of reduced cost -1000; the second
    returns an arc of reduced cost -1 with 49 of them still in the basket, where their keys are
    negative now. */
module PricingWitness {
  import opened Network
  import opened BasketSort
  import opened PricingRun
  import opened Pricing
  import opened Simplex

  const ARCS := B * 6 + 1
  const STOP := ARCS + 1

  /** The cost of the arc at this place among the arcs proper. There are two groups: the even places
      and the odd ones. */
  function CostAt(x: int): int {
    if x % 2 == 0 && x < 2 * B then -1000 else if x == 1 then -1 else 0
  }

  /** All arcs proper are loops at node 1, at their lower bound except for the arc `out`. */
  ghost predicate Example(ns: seq<Node>, es: seq<Arc>, out: int) {
    && |ns| == 2 && |es| == STOP
    && forall e {:trigger es[e]} :: 1 <= e < STOP ==>
         && es[e].cost == CostAt(e - 1) && es[e].tail == 1 && es[e].head == 1
         && es[e].ident == if e == out then AT_UPPER else AT_LOWER
  }

  /** `out` is no arc proper or one of the arcs of cost -1000. */
  predicate IsOut(out: int) {
    1 <= out < STOP ==> CostAt(out - 1) == -1000
  }

  lemma Priced(ns: seq<Node>, es: seq<Arc>, out: int)
    requires Example(ns, es, out) && IsOut(out)
    ensures EndsInRange(ns, es, 1, STOP)
    ensures forall e {:trigger es[e]} :: 1 <= e < STOP ==> ReducedCost(ns, es[e]) == CostAt(e - 1)
    ensures forall e {:trigger Infeasible(ns, es, 1, STOP, e)} :: 1 <= e < STOP ==>
      (Infeasible(ns, es, 1, STOP, e) <==> CostAt(e - 1) < 0 && e != out)
  {
    assert forall e {:trigger es[e]} :: 1 <= e < STOP ==> ReducedCost(ns, es[e]) == CostAt(e - 1);
  }

  // ----- what the two calls price

  /** No infeasible arc follows in the group of this arc. */
  predicate Quiet(arc: int) {
    arc > 2 * B || (arc >= 4 && arc % 2 == 0)
  }

  lemma {:induction false} NoneLeft(ns: seq<Node>, es: seq<Arc>, out: int, guarded: bool, arc: int, size: int)
    requires Example(ns, es, out) && IsOut(out) && EndsInRange(ns, es, 1, STOP) && Quiet(arc)
    ensures GroupRun(ns, es, 1, STOP, 2, guarded, arc, size) == []
    decreases STOP - arc
  {
    Priced(ns, es, out);
    if arc < STOP {
      assert !Infeasible(ns, es, 1, STOP, arc);
      NoneLeft(ns, es, out, guarded, arc + 2, size);
    }
  }

  /** The arcs of cost -1000 from the k-th on. */
  function Cheap(k: nat): seq<int>
    requires k <= B
  {
    seq(B - k, i requires 0 <= i < B - k => 2 * (k + i) + 1)
  }

  lemma {:induction false} FirstGroup(ns: seq<Node>, es: seq<Arc>, guarded: bool, k: nat)
    requires Example(ns, es, 0) && EndsInRange(ns, es, 1, STOP) && k <= B
    ensures GroupRun(ns, es, 1, STOP, 2, guarded, 2 * k + 1, k) == Cheap(k)
    decreases B - k
  {
    Priced(ns, es, 0);
    if k == B {
      NoneLeft(ns, es, 0, guarded, 2 * k + 1, k);
    } else {
      assert Infeasible(ns, es, 1, STOP, 2 * k + 1);
      FirstGroup(ns, es, guarded, k + 1);
      assert Cheap(k) == [2 * k + 1] + Cheap(k + 1);
    }
  }

  lemma FirstRun(ns: seq<Node>, es: seq<Arc>, guarded: bool)
    requires Example(ns, es, 0) && EndsInRange(ns, es, 1, STOP)
    ensures GroupsRun(ns, es, 1, STOP, 2, guarded, 0, 0, false, 0) == (Cheap(0), 1)
  {
    FirstGroup(ns, es, guarded, 0);
  }

  lemma SecondRun(ns: seq<Node>, es: seq<Arc>, out: int, guarded: bool)
    requires Example(ns, es, out) && IsOut(out) && EndsInRange(ns, es, 1, STOP)
    ensures GroupsRun(ns, es, 1, STOP, 2, guarded, 1, 1, false, B - 1) == ([2], 0)
  {
    Priced(ns, es, out);
    assert Infeasible(ns, es, 1, STOP, 2);
    NoneLeft(ns, es, out, guarded, 4, B);
    assert GroupRun(ns, es, 1, STOP, 2, guarded, 2, B - 1) == [2];
  }

  // ----- what the second call keeps

  lemma {:induction false} AllSurvive(ns: seq<Node>, es: seq<Arc>, n: int, stop: int, s: seq<int>)
    requires EndsInRange(ns, es, n, stop) && AllInfeasible(ns, es, n, stop, s)
    ensures Survivors(ns, es, n, stop, s) == s
  {
    if s != [] {
      var init, last := s[..|s| - 1], s[|s| - 1];
      forall i {:trigger init[i]} | 0 <= i < |init| ensures Infeasible(ns, es, n, stop, init[i]) {
        assert init[i] == s[i];
      }
      AllSurvive(ns, es, n, stop, init);
      assert s == init + [last];
      SurvivorsMore(ns, es, n, stop, init, last);
    }
  }

  /** These are the entries of the arcs of cost -1000, in some order. */
  ghost predicate CheapList(l: seq<Entry>) {
    && (forall i {:trigger l[i]} :: 0 <= i < |l| ==> 1 <= l[i].a < STOP && CostAt(l[i].a - 1) == -1000)
    && (forall i, j :: 0 <= i < j < |l| ==> l[i].a != l[j].a)
  }

  lemma FirstPlace(ns: seq<Node>, es: seq<Arc>, l: seq<Entry>, i: nat)
    requires Example(ns, es, 0) && EndsInRange(ns, es, 1, STOP) && i < |l|
    requires AllInfeasible(ns, es, 1, STOP, []) && AllInfeasible(ns, es, 1, STOP, Cheap(0))
    requires multiset(l) == multiset(Entries(ns, es, 1, STOP, [], Cheap(0)))
    ensures 1 <= l[i].a < STOP && CostAt(l[i].a - 1) == -1000 && l[i] == NewEntry(ns, es, 1, STOP, l[i].a)
  {
    assert l[i] in multiset(l);
    EntryOrigin(ns, es, 1, STOP, [], Cheap(0), l[i]);
  }

  lemma CheapDiffer(ns: seq<Node>, es: seq<Arc>, i: nat, j: nat)
    requires Example(ns, es, 0) && EndsInRange(ns, es, 1, STOP) && i < j < B
    requires AllInfeasible(ns, es, 1, STOP, Cheap(0))
    ensures NewEntries(ns, es, 1, STOP, Cheap(0))[i].a != NewEntries(ns, es, 1, STOP, Cheap(0))[j].a
  {
    assert Cheap(0)[i] != Cheap(0)[j];
  }

  lemma PlacesDiffer(ns: seq<Node>, es: seq<Arc>, l: seq<Entry>, i: nat, j: nat)
    requires Example(ns, es, 0) && EndsInRange(ns, es, 1, STOP) && i < j < |l|
    requires AllInfeasible(ns, es, 1, STOP, []) && AllInfeasible(ns, es, 1, STOP, Cheap(0))
    requires multiset(l) == multiset(NewEntries(ns, es, 1, STOP, Cheap(0)))
    ensures l[i] != l[j]
  {
    var entries := NewEntries(ns, es, 1, STOP, Cheap(0));
    forall a, b | 0 <= a < b < |entries| ensures entries[a] != entries[b] {
      CheapDiffer(ns, es, a, b);
    }
    DistinctKept(entries, l, i, j);
  }

  /** After the first call every place holds one of them, each another one. */
  lemma FirstList(ns: seq<Node>, es: seq<Arc>, l: seq<Entry>)
    requires Example(ns, es, 0) && EndsInRange(ns, es, 1, STOP)
    requires AllInfeasible(ns, es, 1, STOP, []) && AllInfeasible(ns, es, 1, STOP, Cheap(0))
    requires multiset(l) == multiset(Entries(ns, es, 1, STOP, [], Cheap(0)))
    ensures CheapList(l)
  {
    forall i {:trigger l[i]} | 0 <= i < |l| ensures 1 <= l[i].a < STOP && CostAt(l[i].a - 1) == -1000 {
      FirstPlace(ns, es, l, i);
    }
    assert Entries(ns, es, 1, STOP, [], Cheap(0)) == NewEntries(ns, es, 1, STOP, Cheap(0));
    forall i, j | 0 <= i < j < |l| ensures l[i].a != l[j].a {
      PlacesDiffer(ns, es, l, i, j);
      FirstPlace(ns, es, l, i);
      FirstPlace(ns, es, l, j);
    }
  }

  /** So the second call keeps all arcs of the places 2 .. B. */
  lemma AllKept(ns: seq<Node>, es: seq<Arc>, bs: seq<Entry>, p: seq<int>)
    requires |p| == |bs| > B && Pointers(p) && CheapList(Listed(bs, p, B))
    requires Example(ns, es, bs[p[1]].a) && EndsInRange(ns, es, 1, STOP)
    ensures var kept := Survivors(ns, es, 1, STOP, ArcsAt(bs, p, 2, B + 1));
      |kept| == B - 1 && AllCheap(kept)
  {
    var s, l, out := ArcsAt(bs, p, 2, B + 1), Listed(bs, p, B), bs[p[1]].a;
    assert l[0].a == out;
    Priced(ns, es, out);
    forall i {:trigger s[i]} | 0 <= i < |s|
      ensures 1 <= s[i] < STOP && CostAt(s[i] - 1) == -1000 && Infeasible(ns, es, 1, STOP, s[i])
    {
      assert s[i] == l[i + 1].a && l[0].a != l[i + 1].a;
    }
    AllSurvive(ns, es, 1, STOP, s);
  }

  ghost predicate AllCheap(s: seq<int>) {
    forall i {:trigger s[i]} :: 0 <= i < |s| ==> 1 <= s[i] < STOP && CostAt(s[i] - 1) == -1000
  }

  /** The entry at the front is that of arc 2, and one of the kept arcs is behind it. */
  lemma TwoInFront(ns: seq<Node>, es: seq<Arc>, out: int, kept: seq<int>, l: seq<Entry>, best: Entry)
    requires Example(ns, es, out) && IsOut(out) && EndsInRange(ns, es, 1, STOP) && |kept| > 0 && AllCheap(kept)
    requires AllInfeasible(ns, es, 1, STOP, kept) && AllInfeasible(ns, es, 1, STOP, [2])
    requires multiset(l) == multiset(Entries(ns, es, 1, STOP, kept, [2])) && Front(l, best)
    ensures best.a == 2 && best.cost == -1 && exists x :: x in l && x.cost == -1000
  {
    Priced(ns, es, out);
    var entries := Entries(ns, es, 1, STOP, kept, [2]);
    forall x ensures x in l <==> x in entries {
      assert x in multiset(l) <==> x in multiset(entries);
    }
    TrueKeyEntry(ns, es, 1, STOP, kept, [2], 2);
    Keys(ns, es, 1, STOP, kept, [2], best);
    KeptIn(ns, es, 1, STOP, kept, [2], kept[0]);
    assert KeptEntry(ns, es, 1, STOP, kept[0]) in l;
  }

  // ----- the two rounds

  /** Where the first call ends: the basket is full of arcs of cost -1000, and the odd places are next. */
  ghost predicate Filled(pricer: Pricer)
    reads pricer, pricer.basket, pricer.perm
  {
    && pricer.Valid() && !pricer.initialize && pricer.first == 1 && pricer.last == STOP && pricer.basketSize == B
    && pricer.basket[0].cost == 2 && pricer.basket[0].absCost == 1 && CheapList(pricer.List())
  }

  lemma FirstMeans(pricer: Pricer, ns: seq<Node>, es: seq<Arc>)
    requires pricer.Valid() && pricer.initialize && Example(ns, es, 0) && EndsInRange(ns, es, 1, STOP)
    ensures pricer.Groups(1, STOP) == 2 && pricer.KeptArcs(ns, es, 1, STOP) == []
    ensures pricer.Priced(ns, es, 1, STOP) == (Cheap(0), 1)
  {
    FirstRun(ns, es, pricer.guarded);
  }

  method FirstCall(pricer: Pricer, nodes: array<Node>, arcs: array<Arc>) returns (bea: int, redCost: int)
    requires pricer.Valid() && pricer.initialize
    requires Example(nodes[..], arcs[..], 0) && EndsInRange(nodes[..], arcs[..], 1, STOP)
    modifies pricer, pricer.basket, pricer.perm
    ensures Filled(pricer) && bea == pricer.basket[pricer.perm[1]].a && 1 <= bea < STOP
    ensures redCost == ReducedCost(nodes[..], arcs[bea]) && IsDualInfeasible(arcs[bea].ident, redCost) && IsOut(bea)
  {
    ghost var ns, es := nodes[..], arcs[..];
    FirstMeans(pricer, ns, es);
    ghost var kept, added;
    bea, redCost, kept, added := pricer.PrimalBeaMpp(nodes, arcs, 1, STOP);
    FirstList(ns, es, pricer.List());
    assert pricer.List()[0].a == bea;
  }

  lemma SecondMeans(pricer: Pricer, ns: seq<Node>, es: seq<Arc>)
    requires Filled(pricer) && EndsInRange(ns, es, 1, STOP)
    requires Example(ns, es, pricer.basket[pricer.perm[1]].a)
    ensures IsOut(pricer.basket[pricer.perm[1]].a)
    ensures pricer.Priced(ns, es, 1, STOP).0 == [2]
    ensures |pricer.KeptArcs(ns, es, 1, STOP)| == B - 1 && AllCheap(pricer.KeptArcs(ns, es, 1, STOP))
  {
    AllKept(ns, es, pricer.basket[..], pricer.perm[..]);
    assert pricer.List()[0].a == pricer.basket[pricer.perm[1]].a;
    SecondRun(ns, es, pricer.basket[pricer.perm[1]].a, pricer.guarded);
  }

  method SecondCall(pricer: Pricer, nodes: array<Node>, arcs: array<Arc>) returns (bea: int, redCost: int)
    requires Filled(pricer) && EndsInRange(nodes[..], arcs[..], 1, STOP)
    requires Example(nodes[..], arcs[..], pricer.basket[pricer.perm[1]].a)
    modifies pricer, pricer.basket, pricer.perm
    ensures bea == 2 && redCost == -1 && pricer.Open() && exists x :: x in pricer.List() && x.cost == -1000
  {
    ghost var ns, es, out := nodes[..], arcs[..], pricer.basket[pricer.perm[1]].a;
    SecondMeans(pricer, ns, es);
    ghost var kept, added;
    bea, redCost, kept, added := pricer.PrimalBeaMpp(nodes, arcs, 1, STOP);
    TwoInFront(ns, es, out, kept, pricer.List(), pricer.basket[pricer.perm[1]]);
  }

  /** A network in the state in which the simplex loop starts. */
  method Started() returns (net: Net)
    ensures net.Shape() && net.n == 1 && net.m == ARCS && net.arcs.Length == STOP
    ensures fresh(net) && fresh(net.nodes) && fresh(net.arcs)
    ensures Consistent(1, net.nodes[..], net.Es()) && StronglyFeasible(net.nodes[..])
    ensures Example(net.nodes[..], net.arcs[..], 0) && EndsInRange(net.nodes[..], net.arcs[..], 1, STOP)
  {
    var nodes := new Node[2](_ => Node(0, false, 0, 0, 0, 0, 0, 0, 0, 0, 0, 0));
    var arcs := new Arc[STOP](e => Arc(CostAt(e as int - 1), 1, 1, AT_LOWER, 0, 0, 0));
    net := new Net(1, nodes, arcs, ARCS, 0, 0);
    net.StartArtificial();
    Priced(net.nodes[..], net.arcs[..], 0);
  }

  /** The pivot on one of the loops moves it to its upper bound and changes nothing else. */
  method PivotLoop(net: Net, bea: int, redCost: int)
    requires net.Shape() && net.n == 1 && net.m == ARCS && net.arcs.Length == STOP
    requires Consistent(1, net.nodes[..], net.Es()) && StronglyFeasible(net.nodes[..])
    requires Example(net.nodes[..], net.arcs[..], 0) && 1 <= bea < STOP && IsOut(bea)
    requires redCost == ReducedCost(net.nodes[..], net.arcs[bea]) && IsDualInfeasible(net.arcs[bea].ident, redCost)
    modifies net`iterations, net`boundExchanges, net`checksum, net.nodes, net.arcs
    ensures Consistent(1, net.nodes[..], net.Es()) && StronglyFeasible(net.nodes[..])
    ensures Example(net.nodes[..], net.arcs[..], bea) && EndsInRange(net.nodes[..], net.arcs[..], 1, STOP)
  {
    assert net.arcs[..] == net.Es();
    net.FoundArc(bea);
    var delta := net.Pivot(bea, redCost);
    assert net.arcs[..] == net.Es();
    Priced(net.nodes[..], net.arcs[..], bea);
  }

  method Overlooked(guarded: bool) returns (net: Net, pricer: Pricer, bea: int, redCost: int)
    ensures net.Shape() && net.n == 1 && net.m == ARCS && pricer.guarded == guarded
    ensures Consistent(1, net.nodes[..], net.Es()) && StronglyFeasible(net.nodes[..])
    ensures bea == 2 && redCost == -1 && pricer.Open() && exists x :: x in pricer.List() && x.cost == -1000
  {
    net := Started();
    pricer := new Pricer(guarded);
    bea, redCost := FirstCall(pricer, net.nodes, net.arcs);
    PivotLoop(net, bea, redCost);
    bea, redCost := SecondCall(pricer, net.nodes, net.arcs);
  }
}
