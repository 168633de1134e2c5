/** bench/mcf/treeup.c: the tree update of one basis exchange, in place on the node array. */
module TreeUp {
  import opened Trees
  import opened Links
  import opened Walks
  import opened Basis
  import opened Network
  import opened Repivot

  /** The potential shift: the reduced cost with the sign that makes the entering arc tight. */
  function Shift(tail: int, iplus: int, jplus: int, sigma: int): int {
    var keep := (tail == jplus && sigma < 0) || (tail == iplus && sigma > 0);
    var size := if sigma < 0 then -sigma else sigma;
    if keep then size else -size
  }

  lemma ShiftIs(tail: int, iplus: int, jplus: int, sigma: int)
    requires iplus != jplus && (tail == iplus || tail == jplus)
    ensures Shift(tail, iplus, jplus, sigma) == if tail == iplus then sigma else -sigma
  {
  }

  /** From a node just visited to the next one: its first child (label RECURSION), else the
      next sibling of the nearest node on the way up that has one (label TEST), else none. */
  method NextOfWalk(nodes: array<Node>, top: int, at: int, ghost l: Links, ghost seen: set<int>) returns (temp: int)
    requires LinkedTree(l) && LinksOf(nodes[..]) == l
    requires Walk(l, top, at, seen) && Fresh(l, at, seen)
    ensures temp == NULL ==> seen == Sub(l.pred, top)
    ensures temp != NULL ==> 0 < temp < nodes.Length && temp !in seen && temp in Sub(l.pred, top)
    ensures temp != NULL ==> Walk(l, top, temp, seen + {temp}) && Fresh(l, temp, seen + {temp})
  {
    temp := nodes[at].child;
    if temp != NULL {
      Descend(l, top, at, seen);
      return;
    }
    var father := at;
    while father != top && nodes[father].sibling == NULL
      invariant Walk(l, top, father, seen) && Done(l, father, seen)
      decreases |Anc(l.pred, father)|
    {
      Ascend(l, top, father, seen);
      father := nodes[father].pred;
    }
    if father == top {
      Finish(l, top, seen);
    } else {
      Across(l, top, father, seen);
      temp := nodes[father].sibling;
    }
  }

  /** now is ns with the potentials of the nodes in s shifted by sigma, and nothing else changed. */
  ghost predicate ShiftedOnly(ns: seq<Node>, now: seq<Node>, s: set<int>, sigma: int) {
    && |now| == |ns|
    && forall v {:trigger now[v]} :: 0 <= v < |ns| ==>
         now[v] == ns[v].(potential := ns[v].potential + if v in s then sigma else 0)
  }

  lemma ShiftOne(ns: seq<Node>, now: seq<Node>, s: set<int>, sigma: int, v: int)
    requires ShiftedOnly(ns, now, s, sigma) && 0 <= v < |ns| && v !in s
    ensures ShiftedOnly(ns, now[v := now[v].(potential := now[v].potential + sigma)], s + {v}, sigma)
  {
  }

  lemma ShiftedKeeps(ns: seq<Node>, now: seq<Node>, s: set<int>, sigma: int)
    requires ShiftedOnly(ns, now, s, sigma)
    ensures LinksOf(now) == LinksOf(ns) && BasisOf(now) == BasisOf(ns)
  {
    assert LinksOf(now).pred == LinksOf(ns).pred && LinksOf(now).child == LinksOf(ns).child;
    assert LinksOf(now).sibling == LinksOf(ns).sibling && LinksOf(now).siblingPrev == LinksOf(ns).siblingPrev;
    assert BasisOf(now).at == BasisOf(ns).at;
  }

  method AddPotential(nodes: array<Node>, v: int, sigma: int, ghost ns: seq<Node>, ghost seen: set<int>)
    requires 0 <= v < nodes.Length && v !in seen && ShiftedOnly(ns, nodes[..], seen, sigma)
    modifies nodes
    ensures ShiftedOnly(ns, nodes[..], seen + {v}, sigma)
  {
    ghost var now := nodes[..];
    ShiftOne(ns, now, seen, sigma, v);
    nodes[v] := nodes[v].(potential := nodes[v].potential + sigma);
    assert nodes[..] == now[v := now[v].(potential := now[v].potential + sigma)];
  }

  /** The walk over the subtree of iminus: every potential in it is shifted exactly once,
      and nothing else changes. */
  method ShiftPotentials(nodes: array<Node>, iminus: int, sigma: int)
    requires LinkedTree(LinksOf(nodes[..])) && 0 <= iminus < nodes.Length
    modifies nodes
    ensures ShiftedOnly(old(nodes[..]), nodes[..], Sub(old(Preds(nodes[..])), iminus), sigma)
  {
    ghost var ns, l := nodes[..], LinksOf(nodes[..]);
    Begin(l, iminus);
    var father := iminus;
    AddPotential(nodes, father, sigma, ns, {});
    ghost var seen := {} + {iminus};
    while true
      invariant ShiftedOnly(ns, nodes[..], seen, sigma)
      invariant Walk(l, iminus, father, seen) && Fresh(l, father, seen)
      decreases |Sub(l.pred, iminus) - seen|
    {
      ShiftedKeeps(ns, nodes[..], seen, sigma);
      var temp := NextOfWalk(nodes, iminus, father, l, seen);
      if temp == NULL {
        break;
      }
      ProperSubsetCard(Sub(l.pred, iminus) - (seen + {temp}), Sub(l.pred, iminus) - seen);
      AddPotential(nodes, temp, sigma, ns, seen);
      father, seen := temp, seen + {temp};
    }
  }

  /** Everything the tree surgery leaves alone. */
  ghost predicate SameRest(v: Node, v': Node) {
    v'.potential == v.potential && SameLabels(v, v')
  }

  /** ns' differs from ns in the link fields only. */
  ghost predicate LinksOnly(ns: seq<Node>, ns': seq<Node>) {
    && |ns'| == |ns|
    && forall v {:trigger ns'[v]} :: 0 <= v < |ns| ==> ns'[v] == ns[v].(pred := ns'[v].pred,
         child := ns'[v].child, sibling := ns'[v].sibling, siblingPrev := ns'[v].siblingPrev)
  }

  lemma SetPrevLinks(ns: seq<Node>, x: int, p: int)
    requires 0 <= x < |ns|
    ensures var ns' := ns[x := ns[x].(siblingPrev := p)];
      LinksOnly(ns, ns') && LinksOf(ns') == LinksOf(ns).(siblingPrev := LinksOf(ns).siblingPrev[x := p])
  {
    var ns' := ns[x := ns[x].(siblingPrev := p)];
    assert Preds(ns') == Preds(ns) && LinksOf(ns').child == LinksOf(ns).child
      && LinksOf(ns').sibling == LinksOf(ns).sibling;
    assert LinksOf(ns').siblingPrev == LinksOf(ns).siblingPrev[x := p];
  }

  lemma SetSiblingLinks(ns: seq<Node>, x: int, s: int)
    requires 0 <= x < |ns|
    ensures var ns' := ns[x := ns[x].(sibling := s)];
      LinksOnly(ns, ns') && LinksOf(ns') == LinksOf(ns).(sibling := LinksOf(ns).sibling[x := s])
  {
    var ns' := ns[x := ns[x].(sibling := s)];
    assert Preds(ns') == Preds(ns) && LinksOf(ns').child == LinksOf(ns).child
      && LinksOf(ns').siblingPrev == LinksOf(ns).siblingPrev;
    assert LinksOf(ns').sibling == LinksOf(ns).sibling[x := s];
  }

  lemma SetChildLinks(ns: seq<Node>, x: int, c: int)
    requires 0 <= x < |ns|
    ensures var ns' := ns[x := ns[x].(child := c)];
      LinksOnly(ns, ns') && LinksOf(ns') == LinksOf(ns).(child := LinksOf(ns).child[x := c])
  {
    var ns' := ns[x := ns[x].(child := c)];
    assert Preds(ns') == Preds(ns) && LinksOf(ns').sibling == LinksOf(ns).sibling
      && LinksOf(ns').siblingPrev == LinksOf(ns).siblingPrev;
    assert LinksOf(ns').child == LinksOf(ns).child[x := c];
  }

  lemma SetPredLinks(ns: seq<Node>, x: int, p: int)
    requires 0 <= x < |ns|
    ensures var ns' := ns[x := ns[x].(pred := p)];
      LinksOnly(ns, ns') && LinksOf(ns') == LinksOf(ns).(pred := LinksOf(ns).pred[x := p])
  {
    var ns' := ns[x := ns[x].(pred := p)];
    assert LinksOf(ns').child == LinksOf(ns).child && LinksOf(ns').sibling == LinksOf(ns).sibling
      && LinksOf(ns').siblingPrev == LinksOf(ns).siblingPrev;
    assert Preds(ns') == Preds(ns)[x := p];
  }

  lemma LinksOnlyTrans(ns: seq<Node>, ns1: seq<Node>, ns2: seq<Node>)
    requires LinksOnly(ns, ns1) && LinksOnly(ns1, ns2)
    ensures LinksOnly(ns, ns2)
  {
  }

  method SetPrev(nodes: array<Node>, x: int, p: int)
    requires 0 <= x < nodes.Length
    modifies nodes
    ensures LinksOnly(old(nodes[..]), nodes[..])
    ensures var l := old(LinksOf(nodes[..])); LinksOf(nodes[..]) == l.(siblingPrev := l.siblingPrev[x := p])
  {
    ghost var ns := nodes[..];
    nodes[x] := nodes[x].(siblingPrev := p);
    SetPrevLinks(ns, x, p);
    assert nodes[..] == ns[x := ns[x].(siblingPrev := p)];
  }

  method SetSibling(nodes: array<Node>, x: int, s: int)
    requires 0 <= x < nodes.Length
    modifies nodes
    ensures LinksOnly(old(nodes[..]), nodes[..])
    ensures var l := old(LinksOf(nodes[..])); LinksOf(nodes[..]) == l.(sibling := l.sibling[x := s])
  {
    ghost var ns := nodes[..];
    nodes[x] := nodes[x].(sibling := s);
    SetSiblingLinks(ns, x, s);
    assert nodes[..] == ns[x := ns[x].(sibling := s)];
  }

  method SetChild(nodes: array<Node>, x: int, c: int)
    requires 0 <= x < nodes.Length
    modifies nodes
    ensures LinksOnly(old(nodes[..]), nodes[..])
    ensures var l := old(LinksOf(nodes[..])); LinksOf(nodes[..]) == l.(child := l.child[x := c])
  {
    ghost var ns := nodes[..];
    nodes[x] := nodes[x].(child := c);
    SetChildLinks(ns, x, c);
    assert nodes[..] == ns[x := ns[x].(child := c)];
  }

  method SetPred(nodes: array<Node>, x: int, p: int)
    requires 0 <= x < nodes.Length
    modifies nodes
    ensures LinksOnly(old(nodes[..]), nodes[..])
    ensures var l := old(LinksOf(nodes[..])); LinksOf(nodes[..]) == l.(pred := l.pred[x := p])
  {
    ghost var ns := nodes[..];
    nodes[x] := nodes[x].(pred := p);
    SetPredLinks(ns, x, p);
    assert nodes[..] == ns[x := ns[x].(pred := p)];
  }

  /** Cutting temp out of its father's child list. */
  method CutOut(nodes: array<Node>, temp: int, father: int)
    requires LinkedTree(LinksOf(nodes[..])) && 0 < temp < nodes.Length && father == nodes[temp].pred
    modifies nodes
    ensures LinksOf(nodes[..]) == Unlink(old(LinksOf(nodes[..])), temp)
    ensures LinksOnly(old(nodes[..]), nodes[..])
  {
    ghost var ns, l := nodes[..], LinksOf(nodes[..]);
    LinkFacts(l, temp);
    var next, prev := nodes[temp].sibling, nodes[temp].siblingPrev;
    assert l.pred[temp] == father;
    if next != NULL {
      SetPrev(nodes, next, prev);
    }
    ghost var ns1 := nodes[..];
    if prev != NULL {
      SetSibling(nodes, prev, next);
    } else {
      SetChild(nodes, father, next);
    }
    LinksOnlyTrans(ns, ns1, nodes[..]);
  }

  /** Pushing temp in front of the children of newPred. */
  method HangFront(nodes: array<Node>, temp: int, newPred: int)
    requires 0 < temp < nodes.Length && 0 <= newPred < nodes.Length && IsLink(nodes[newPred].child, nodes.Length)
    modifies nodes
    ensures LinksOf(nodes[..]) == PushFront(old(LinksOf(nodes[..])), temp, newPred)
    ensures LinksOnly(old(nodes[..]), nodes[..])
  {
    ghost var ns := nodes[..];
    var first := nodes[newPred].child;
    assert LinksOf(ns).child[newPred] == first;
    SetPred(nodes, temp, newPred);
    ghost var ns1 := nodes[..];
    SetSibling(nodes, temp, first);
    LinksOnlyTrans(ns, ns1, nodes[..]);
    ghost var ns2 := nodes[..];
    if first != NULL {
      SetPrev(nodes, first, temp);
    }
    LinksOnlyTrans(ns, ns2, nodes[..]);
    ghost var ns3 := nodes[..];
    SetChild(nodes, newPred, temp);
    LinksOnlyTrans(ns, ns3, nodes[..]);
    ghost var ns4 := nodes[..];
    SetPrev(nodes, temp, NULL);
    LinksOnlyTrans(ns, ns4, nodes[..]);
  }

  /** Moving temp from its father to newPred, the link part of one round of the stem loop. */
  method Rehang(nodes: array<Node>, temp: int, father: int, newPred: int)
    requires LinkedTree(LinksOf(nodes[..]))
    requires 0 < temp < nodes.Length && 0 <= newPred < nodes.Length && father == nodes[temp].pred
    modifies nodes
    ensures LinksOf(nodes[..]) == Rehung(old(LinksOf(nodes[..])), temp, newPred)
    ensures BasisOf(nodes[..]).at == old(BasisOf(nodes[..])).at
    ensures forall v {:trigger nodes[v]} :: 0 <= v < nodes.Length ==> SameRest(old(nodes[v]), nodes[v])
  {
    LinkFacts(LinksOf(nodes[..]), temp);
    ghost var ns := nodes[..];
    CutOut(nodes, temp, father);
    OnlyLinks(ns, nodes[..]);
    ghost var ns1 := nodes[..];
    assert LinksOf(ns1).child[newPred] == nodes[newPred].child;
    HangFront(nodes, temp, newPred);
    OnlyLinks(ns1, nodes[..]);
  }

  lemma OnlyLinks(ns: seq<Node>, ns': seq<Node>)
    requires LinksOnly(ns, ns')
    ensures BasisOf(ns').at == BasisOf(ns).at
    ensures forall v {:trigger ns'[v]} :: 0 <= v < |ns| ==> SameRest(ns[v], ns'[v])
  {
  }

  lemma LinkFacts(l: Links, u: int)
    requires LinkedTree(l) && 0 < u < |l.pred|
    ensures IsLink(l.sibling[u], |l.pred|) && IsLink(l.siblingPrev[u], |l.pred|) && 0 <= l.pred[u] < |l.pred|
    ensures l.sibling[u] != u && l.siblingPrev[u] != u
    ensures l.sibling[u] != NULL ==> l.sibling[u] != l.siblingPrev[u]
    ensures forall q :: 0 <= q < |l.pred| ==> IsLink(Unlink(l, u).child[q], |l.pred|)
  {
    var ord :| LinkOrder(l, ord);
  }

  lemma StemNotFather(p: seq<int>, u: int, q: int, stop: int)
    requires OnStem(p, u, q, stop)
    ensures 0 <= p[stop] < |p| && u != p[stop] && u != q && 0 <= p[u] < |p|
  {
    Step(p, stop);
    Step(p, u);
    AncRange(p, q);
  }

  function WithBasic(v: Node, c: Basic): Node {
    v.(basicArc := c.arc, orientation := c.up, flow := c.flow, depth := c.depth)
  }

  lemma SetBasic(ns: seq<Node>, t: int, c: Basic)
    requires 0 <= t < |ns|
    ensures LinksOf(ns[t := WithBasic(ns[t], c)]) == LinksOf(ns)
    ensures BasisOf(ns[t := WithBasic(ns[t], c)]) == Basis(Preds(ns), BasisOf(ns).at[t := c])
  {
    var ns' := ns[t := WithBasic(ns[t], c)];
    assert LinksOf(ns').pred == LinksOf(ns).pred && LinksOf(ns').child == LinksOf(ns).child;
    assert LinksOf(ns').sibling == LinksOf(ns).sibling && LinksOf(ns').siblingPrev == LinksOf(ns).siblingPrev;
    assert BasisOf(ns').at == BasisOf(ns).at[t := c];
  }

  /** temp exchanges what it stores about its link for what it is handed. */
  method TakeOver(nodes: array<Node>, temp: int, carried: Basic, cycleOri: bool, delta: int, depthIminus: int)
    returns (handedOn: Basic)
    requires 0 <= temp < nodes.Length
    modifies nodes
    ensures nodes[..] == old(nodes[..])[temp := WithBasic(old(nodes[temp]), carried)]
    ensures handedOn == Flipped(old(BasicOf(nodes[temp])), if cycleOri then delta else -delta, depthIminus)
  {
    var orientationTemp := !nodes[temp].orientation;
    var flowTemp := if orientationTemp == cycleOri then nodes[temp].flow + delta else nodes[temp].flow - delta;
    handedOn := Basic(nodes[temp].basicArc, orientationTemp, flowTemp, depthIminus - nodes[temp].depth);
    nodes[temp] := WithBasic(nodes[temp], carried);
  }

  /** One round of the stem loop: temp is hung under newPred and takes over the carried link. */
  method HangNext(nodes: array<Node>, temp: int, father: int, newPred: int, carried: Basic,
                  cycleOri: bool, delta: int, depthIminus: int) returns (handedOn: Basic)
    requires LinkedTree(LinksOf(nodes[..]))
    requires 0 < temp < nodes.Length && 0 <= newPred < nodes.Length && temp != newPred
    requires father == nodes[temp].pred
    modifies nodes
    ensures LinksOf(nodes[..]) == Rehung(old(LinksOf(nodes[..])), temp, newPred)
    ensures BasisOf(nodes[..]) == Hang(old(BasisOf(nodes[..])), temp, newPred, carried)
    ensures handedOn == Flipped(old(BasisOf(nodes[..])).at[temp], if cycleOri then delta else -delta, depthIminus)
    ensures forall v {:trigger nodes[v]} :: 0 <= v < nodes.Length ==> SameRest(old(nodes[v]), nodes[v])
  {
    RehungLinked(LinksOf(nodes[..]), temp, newPred);
    Rehang(nodes, temp, father, newPred);
    ghost var ns := nodes[..];
    assert BasisOf(ns).at[temp] == BasicOf(nodes[temp]);
    handedOn := TakeOver(nodes, temp, carried, cycleOri, delta, depthIminus);
    SetBasic(ns, temp, carried);
  }

  /** The stem loop: each node takes over what the one before it hands on. */
  method ReverseStem(nodes: array<Node>, iplus: int, jplus: int, iminus: int, jminus: int,
                     cycleOri: bool, delta: int, first: Basic)
    requires LinkedTree(LinksOf(nodes[..]))
    requires OnStem(Preds(nodes[..]), iplus, jplus, iminus) && jminus == nodes[iminus].pred
    modifies nodes
    ensures LinkedTree(LinksOf(nodes[..]))
    ensures BasisOf(nodes[..]) == Reverse(old(BasisOf(nodes[..])), iplus, jplus, first, iminus,
                                          if cycleOri then delta else -delta, first.depth)
    ensures forall v {:trigger nodes[v]} :: 0 <= v < nodes.Length ==> SameRest(old(nodes[v]), nodes[v])
  {
    ghost var d := if cycleOri then delta else -delta;
    ghost var goal := Reverse(BasisOf(nodes[..]), iplus, jplus, first, iminus, d, first.depth);
    var depthIminus := first.depth;
    var temp, newPred, carried := iplus, jplus, first;
    StemNotFather(Preds(nodes[..]), temp, newPred, iminus);
    var father := nodes[temp].pred;
    while temp != jminus
      invariant 0 <= temp < nodes.Length && 0 <= jminus < nodes.Length && LinkedTree(LinksOf(nodes[..]))
      invariant father == nodes[temp].pred
      invariant temp == jminus ==> BasisOf(nodes[..]) == goal
      invariant temp != jminus ==>
        && OnStem(Preds(nodes[..]), temp, newPred, iminus) && jminus == Preds(nodes[..])[iminus]
        && Reverse(BasisOf(nodes[..]), temp, newPred, carried, iminus, d, depthIminus) == goal
      invariant forall v {:trigger nodes[v]} :: 0 <= v < nodes.Length ==> SameRest(old(nodes[v]), nodes[v])
      decreases temp != jminus, if temp != jminus then |Anc(Preds(nodes[..]), temp)| else 0
    {
      ghost var b, l := BasisOf(nodes[..]), LinksOf(nodes[..]);
      StemStep(b.pred, temp, newPred, iminus);
      StemNotFather(b.pred, temp, newPred, iminus);
      RehungLinked(l, temp, newPred);
      var handedOn := HangNext(nodes, temp, father, newPred, carried, cycleOri, delta, depthIminus);
      assert Preds(nodes[..]) == b.pred[temp := newPred];
      if temp != iminus {
        StemNotFather(Preds(nodes[..]), father, temp, iminus);
      }
      newPred, carried, temp := temp, handedOn, father;
      father := nodes[temp].pred;
    }
  }

  /** One of the two loops up to the meeting point: sizes change by depthShift, and an arc
      whose orientation is `gains` carries delta more, the others delta less. */
  method SettlePath(nodes: array<Node>, start: int, w: int, gains: bool, delta: int, depthShift: int, ghost p: seq<int>)
    requires IsTree(p) && |p| == nodes.Length && 0 <= start < |p| && 0 <= w < |p| && w in Anc(p, start)
    requires forall v :: v in Path(p, start, w) && 0 <= v < |p| ==> nodes[v].pred == p[v]
    modifies nodes
    ensures forall v {:trigger nodes[v]} :: 0 <= v < nodes.Length ==>
      nodes[v] == if v in Path(p, start, w) then Settled(old(nodes[v]), gains, delta, depthShift) else old(nodes[v])
  {
    var temp := start;
    AncRange(p, start);
    while temp != w
      invariant 0 <= temp < |p| && w in Anc(p, temp) && temp in Anc(p, start)
      invariant forall v {:trigger nodes[v]} :: 0 <= v < nodes.Length ==>
        nodes[v] == if v in Path(p, start, temp) then Settled(old(nodes[v]), gains, delta,
          depthShift) else old(nodes[v])
      decreases |Anc(p, temp)|
    {
      PathStep(p, start, temp, w);
      nodes[temp] := Settled(nodes[temp], gains, delta, depthShift);
      temp := nodes[temp].pred;
    }
  }

  function Settled(v: Node, gains: bool, delta: int, depthShift: int): Node {
    v.(depth := v.depth + depthShift, flow := if v.orientation == gains then v.flow + delta else v.flow - delta)
  }

  // ----- the whole update

  /** The two settled paths lie off the stem, so their father links are the old ones. */
  lemma OffStem(b: Basis, u: int, q: int, c: Basic, stop: int, w: int, d: int)
    requires Exchange(b, u, q, stop, w)
    ensures 0 <= b.pred[stop] < |b.pred| && w in Anc(b.pred, b.pred[stop])
    ensures var r := Reverse(b, u, q, c, stop, d, c.depth);
      |r.pred| == |b.pred|
      && (forall v :: v in Path(b.pred, b.pred[stop], w) && 0 <= v < |b.pred| ==> r.pred[v] == b.pred[v])
      && (forall v :: v in Path(b.pred, q, w) && 0 <= v < |b.pred| ==> r.pred[v] == b.pred[v])
    ensures forall v :: v in Path(b.pred, b.pred[stop], w) ==> v !in Path(b.pred, q, w)
  {
    CycleParts(b, u, q, stop, w);
    ReverseEffect(b, u, q, c, stop, d, c.depth);
  }

  /** ns2 is ns1 after the loops over the paths from jminus and from jplus up to w. */
  ghost predicate BothSettled(p: seq<int>, ns1: seq<Node>, ns2: seq<Node>, jminus: int, jplus: int, w: int,
                              cycleOri: bool, delta: int, size: int)
    requires IsTree(p) && 0 <= jminus < |p| && 0 <= jplus < |p| && 0 <= w < |p|
  {
    && |ns1| == |ns2| == |p|
    && forall v {:trigger ns2[v]} :: 0 <= v < |p| ==>
         ns2[v] == (
         if v in Path(p, jminus, w) then Settled(ns1[v], !cycleOri, delta, -size)
         else if v in Path(p, jplus, w) then Settled(ns1[v], cycleOri, delta, size)
         else ns1[v])
  }

  /** The smallest step that counts as one; the network is created with 0 here. */
  const FEAS_TOL := 0

  method SettleBoth(nodes: array<Node>, jminus: int, jplus: int, w: int, cycleOri: bool, delta: int, depthIminus: int,
                    ghost p: seq<int>)
    requires IsTree(p) && |p| == nodes.Length && 0 <= jminus < |p| && 0 <= jplus < |p| && 0 <= w < |p|
    requires w in Anc(p, jminus) && w in Anc(p, jplus) && delta >= 0
    requires forall v :: v in Path(p, jminus, w) && 0 <= v < |p| ==> nodes[v].pred == p[v]
    requires forall v :: v in Path(p, jplus, w) && 0 <= v < |p| ==> nodes[v].pred == p[v]
    requires forall v :: v in Path(p, jminus, w) ==> v !in Path(p, jplus, w)
    modifies nodes
    ensures BothSettled(p, old(nodes[..]), nodes[..], jminus, jplus, w, cycleOri, delta, depthIminus)
  {
    if delta > FEAS_TOL {
      SettlePath(nodes, jminus, w, !cycleOri, delta, -depthIminus, p);
      SettlePath(nodes, jplus, w, cycleOri, delta, depthIminus, p);
    } else {
      SettlePath(nodes, jminus, w, !cycleOri, 0, -depthIminus, p);
      SettlePath(nodes, jplus, w, cycleOri, 0, depthIminus, p);
    }
  }

  /** Settling both paths turns the reversed basis into the basis after the exchange. */
  lemma SettledIs(b: Basis, ns1: seq<Node>, ns2: seq<Node>, u: int, q: int, c: Basic, stop: int, w: int,
                  cycleOri: bool, delta: int)
    requires Exchange(b, u, q, stop, w) && |ns1| == |ns2| == |b.pred| && 0 <= b.pred[stop] < |b.pred|
    requires BasisOf(ns1) == Reverse(b, u, q, c, stop, if cycleOri then delta else -delta, c.depth)
    requires BothSettled(b.pred, ns1, ns2, b.pred[stop], q, w, cycleOri, delta, c.depth)
    ensures BasisOf(ns2) == Repivoted(b, u, q, c, stop, w, if cycleOri then delta else -delta)
    ensures LinksOf(ns2) == LinksOf(ns1)
  {
    var d := if cycleOri then delta else -delta;
    var b2 := Repivoted(b, u, q, c, stop, w, d);
    forall v | 0 <= v < |ns1| ensures BasisOf(ns2).at[v] == b2.at[v] {
      assert BasisOf(ns1).at[v] == BasicOf(ns1[v]);
    }
    assert BasisOf(ns2).pred == BasisOf(ns1).pred;
    assert LinksOf(ns2).child == LinksOf(ns1).child;
    assert LinksOf(ns2).sibling == LinksOf(ns1).sibling && LinksOf(ns2).siblingPrev == LinksOf(ns1).siblingPrev;
  }

  /** ns' has the potentials of ns, shifted by sigma on the set s, and the labels of ns. */
  ghost predicate Shifted(ns: seq<Node>, ns': seq<Node>, s: set<int>, sigma: int) {
    && |ns| == |ns'|
    && forall v {:trigger ns'[v]} :: 0 <= v < |ns| ==>
         && ns'[v].potential == ns[v].potential + (if v in s then sigma else 0)
         && SameLabels(ns[v], ns'[v])
  }

  /** The surgery after the walk leaves the shifted potentials alone. */
  lemma ShiftSurvives(ns: seq<Node>, ns0: seq<Node>, ns1: seq<Node>, ns2: seq<Node>, s: set<int>, sigma: int,
                      p: seq<int>,
                      jminus: int, jplus: int, w: int, cycleOri: bool, delta: int, size: int)
    requires ShiftedOnly(ns, ns0, s, sigma) && |ns1| == |ns0|
    requires forall v {:trigger ns1[v]} :: 0 <= v < |ns1| ==> SameRest(ns0[v], ns1[v])
    requires IsTree(p) && 0 <= jminus < |p| && 0 <= jplus < |p| && 0 <= w < |p|
    requires BothSettled(p, ns1, ns2, jminus, jplus, w, cycleOri, delta, size)
    ensures Shifted(ns, ns2, s, sigma)
  {
    forall v | 0 <= v < |ns|
      ensures ns2[v].potential == ns[v].potential + (if v in s then sigma else 0) && SameLabels(ns[v], ns2[v])
    {
      assert SameRest(ns0[v], ns1[v]);
    }
  }

  method UpdateTree(nodes: array<Node>, arcs: array<Arc>, cycleOri: bool, newOrientation: bool, delta: int,
                    newFlow: int,
                    iplus: int, jplus: int, iminus: int, jminus: int, w: int, bea: int, sigma: int)
    requires LinkedTree(LinksOf(nodes[..]))
    requires Exchange(BasisOf(nodes[..]), iplus, jplus, iminus, w) && jminus == nodes[iminus].pred
    requires 0 <= bea < arcs.Length && delta >= 0
    modifies nodes
    ensures LinkedTree(LinksOf(nodes[..]))
    ensures BasisOf(nodes[..]) ==
      Repivoted(old(BasisOf(nodes[..])), iplus, jplus, Basic(bea, newOrientation, newFlow, old(nodes[iminus].depth)),
                iminus, w, if cycleOri then delta else -delta)
    ensures Shifted(old(nodes[..]), nodes[..], Sub(old(Preds(nodes[..])), iminus),
      Shift(arcs[bea].tail, iplus, jplus, sigma))
  {
    ghost var b, ns := BasisOf(nodes[..]), nodes[..];
    ghost var s := Sub(b.pred, iminus);
    var shift := Shift(arcs[bea].tail, iplus, jplus, sigma);
    ShiftPotentials(nodes, iminus, shift);
    ShiftedKeeps(ns, nodes[..], s, shift);
    ghost var ns0 := nodes[..];
    var depthIminus := nodes[iminus].depth;
    assert depthIminus == ns[iminus].depth;
    var first := Basic(bea, newOrientation, newFlow, depthIminus);
    OffStem(b, iplus, jplus, first, iminus, w, if cycleOri then delta else -delta);
    ReverseStem(nodes, iplus, jplus, iminus, jminus, cycleOri, delta, first);
    ghost var ns1 := nodes[..];
    SettleBoth(nodes, jminus, jplus, w, cycleOri, delta, depthIminus, b.pred);
    SettledIs(b, ns1, nodes[..], iplus, jplus, first, iminus, w, cycleOri, delta);
    ShiftSurvives(ns, ns0, ns1, nodes[..], s, shift, b.pred, jminus, jplus, w, cycleOri, delta, depthIminus);
  }
}
