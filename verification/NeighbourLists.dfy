/** bench/mcf/mcfutil.c, refresh_neighbour_lists: two lists of arcs per node, linked through
    the arcs, are rebuilt from scratch. */
module NeighbourLists {
  import opened Trees
  import opened Network

  /** The last of the positions lo .. k-1 at which ends has v. */
  function Latest(ends: seq<int>, lo: nat, k: nat, v: int): int
    requires k <= |ends|
  {
    if k <= lo then NULL else if ends[k - 1] == v then k - 1 else Latest(ends, lo, k - 1, v)
  }

  function Tails(es: seq<Arc>): (t: seq<int>)
    ensures |t| == |es| && forall e {:trigger t[e]} :: 0 <= e < |es| ==> t[e] == es[e].tail
  {
    seq(|es|, e requires 0 <= e < |es| => es[e].tail)
  }

  function Heads(es: seq<Arc>): (h: seq<int>)
    ensures |h| == |es| && forall e {:trigger h[e]} :: 0 <= e < |es| ==> h[e] == es[e].head
  {
    seq(|es|, e requires 0 <= e < |es| => es[e].head)
  }

  /** Every node points to its last arc, every arc to the one before it at the same node. */
  ghost predicate Neighbours(n: nat, ns: seq<Node>, es: seq<Arc>) {
    && (forall v {:trigger ns[v]} :: 0 <= v < |ns| ==>
         && ns[v].firstout == Latest(Tails(es), n, |es|, v)
         && ns[v].firstin == Latest(Heads(es), n, |es|, v))
    && (forall e {:trigger es[e]} :: n <= e < |es| ==>
         && es[e].nextout == Latest(Tails(es), n, e, es[e].tail)
         && es[e].nextin == Latest(Heads(es), n, e, es[e].head))
  }

  /** Nothing but the list links may change. */
  ghost predicate OnlyLists(ns: seq<Node>, es: seq<Arc>, ns': seq<Node>, es': seq<Arc>) {
    && |ns'| == |ns| && |es'| == |es|
    && (forall v {:trigger ns'[v]} :: 0 <= v < |ns| ==>
         ns'[v] == ns[v].(firstout := ns'[v].firstout, firstin := ns'[v].firstin))
    && (forall e {:trigger es'[e]} :: 0 <= e < |es| ==>
         es'[e] == es[e].(nextout := es'[e].nextout, nextin := es'[e].nextin))
  }

  method ClearLists(nodes: array<Node>)
    modifies nodes
    ensures forall v {:trigger nodes[v]} :: 0 <= v < nodes.Length ==>
      nodes[v] == old(nodes[v]).(firstin := NULL, firstout := NULL)
  {
    var node := 0;
    while node < nodes.Length
      invariant 0 <= node <= nodes.Length
      invariant forall v {:trigger nodes[v]} :: 0 <= v < nodes.Length ==>
        nodes[v] == if v < node then old(nodes[v]).(firstin := NULL, firstout := NULL) else old(nodes[v])
    {
      nodes[node] := nodes[node].(firstin := NULL, firstout := NULL);
      node := node + 1;
    }
  }

  /** Arc k is put in front of the lists of its two ends. */
  ghost predicate PutInFront(ns: seq<Node>, es: seq<Arc>, ns': seq<Node>, es': seq<Arc>, k: nat)
    requires k < |es| && 0 <= es[k].tail < |ns| && 0 <= es[k].head < |ns|
  {
    && |ns'| == |ns|
    && es' == es[k := es[k].(nextout := ns[es[k].tail].firstout, nextin := ns[es[k].head].firstin)]
    && (forall v {:trigger ns'[v]} :: 0 <= v < |ns| ==>
         ns'[v] == ns[v].(firstout := if v == es[k].tail then k else ns[v].firstout,
                          firstin := if v == es[k].head then k else ns[v].firstin))
  }

  method Enlist(nodes: array<Node>, arcs: array<Arc>, arc: nat)
    requires arc < arcs.Length && 0 <= arcs[arc].tail < nodes.Length && 0 <= arcs[arc].head < nodes.Length
    modifies nodes, arcs
    ensures PutInFront(old(nodes[..]), old(arcs[..]), nodes[..], arcs[..], arc)
  {
    ghost var es := arcs[..];
    arcs[arc] := arcs[arc].(nextout := nodes[arcs[arc].tail].firstout);
    nodes[arcs[arc].tail] := nodes[arcs[arc].tail].(firstout := arc);
    arcs[arc] := arcs[arc].(nextin := nodes[arcs[arc].head].firstin);
    nodes[arcs[arc].head] := nodes[arcs[arc].head].(firstin := arc);
    assert arcs[..] == es[arc := arcs[arc]];
  }

  /** ns, es are ns0, es0 with the arcs n .. k-1 put into the lists. */
  ghost predicate Enlisted(n: nat, k: nat, ns0: seq<Node>, es0: seq<Arc>, ns: seq<Node>, es: seq<Arc>)
  {
    && |ns| == |ns0| && k <= |es| == |es0|
    && (forall e {:trigger es[e]} :: 0 <= e < |es| ==>
         es[e] == if n <= e < k then es0[e].(nextout := Latest(Tails(es0), n, e, es0[e].tail),
                                             nextin := Latest(Heads(es0), n, e, es0[e].head))
                  else es0[e])
    && (forall v {:trigger ns[v]} :: 0 <= v < |ns| ==>
         ns[v] == ns0[v].(firstout := Latest(Tails(es0), n, k, v), firstin := Latest(Heads(es0), n, k, v)))
  }

  lemma EnlistedMore(n: nat, k: nat, ns0: seq<Node>, es0: seq<Arc>, ns: seq<Node>, es: seq<Arc>, ns': seq<Node>,
                     es': seq<Arc>)
    requires n <= k < |es0| <= |es| && Enlisted(n, k, ns0, es0, ns, es[..|es0|])
    requires 0 <= es0[k].tail < |ns0| && 0 <= es0[k].head < |ns0|
    requires es[k] == es0[k] && PutInFront(ns, es, ns', es', k)
    ensures Enlisted(n, k + 1, ns0, es0, ns', es'[..|es0|])
  {
  }

  lemma EnlistedAll(n: nat, ns0: seq<Node>, es0: seq<Arc>, ns: seq<Node>, es: seq<Arc>)
    requires Enlisted(n, |es0|, ns0, es0, ns, es)
    ensures Neighbours(n, ns, es) && OnlyLists(ns0, es0, ns, es)
  {
    assert Tails(es) == Tails(es0) && Heads(es) == Heads(es0);
  }

  /** The body of the second loop. */
  method EnlistNext(nodes: array<Node>, arcs: array<Arc>, n: nat, arc: nat, stop: nat,
                    ghost ns0: seq<Node>, ghost es0: seq<Arc>, ghost rest: seq<Arc>)
    requires n <= arc < stop == |es0| <= arcs.Length
    requires 0 <= es0[arc].tail < |ns0| && 0 <= es0[arc].head < |ns0|
    requires Enlisted(n, arc, ns0, es0, nodes[..], arcs[..stop]) && arcs[stop..] == rest
    modifies nodes, arcs
    ensures Enlisted(n, arc + 1, ns0, es0, nodes[..], arcs[..stop]) && arcs[stop..] == rest
  {
    ghost var ns, es := nodes[..], arcs[..];
    assert es[..stop] == arcs[..stop] && es[stop..] == rest;
    assert es[arc] == es[..stop][arc] == es0[arc];
    Enlist(nodes, arcs, arc);
    ghost var es' := arcs[..];
    EnlistedMore(n, arc, ns0, es0, ns, es, nodes[..], es');
    assert es'[..stop] == arcs[..stop];
    assert es'[stop..] == es[stop..] && arcs[stop..] == es'[stop..];
  }

  method RefreshNeighbourLists(nodes: array<Node>, arcs: array<Arc>, n: nat, stop: nat)
    requires n <= stop <= arcs.Length
    requires forall e :: n <= e < stop ==> 0 <= arcs[e].tail < nodes.Length && 0 <= arcs[e].head < nodes.Length
    modifies nodes, arcs
    ensures Neighbours(n, nodes[..], arcs[..stop])
    ensures OnlyLists(old(nodes[..]), old(arcs[..stop]), nodes[..], arcs[..stop])
    ensures arcs[..n] == old(arcs[..n]) && arcs[stop..] == old(arcs[stop..])
  {
    ghost var ns0, es0, rest := nodes[..], arcs[..stop], arcs[stop..];
    ClearLists(nodes);
    var arc := n;
    while arc < stop
      invariant n <= arc <= stop
      invariant Enlisted(n, arc, ns0, es0, nodes[..], arcs[..stop]) && arcs[stop..] == rest
    {
      EnlistNext(nodes, arcs, n, arc, stop, ns0, es0, rest);
      arc := arc + 1;
    }
    EnlistedAll(n, ns0, es0, nodes[..], arcs[..stop]);
    FirstSame(n, stop, ns0, es0, nodes[..], arcs[..stop]);
    assert arcs[..n] == arcs[..stop][..n] && es0[..n] == old(arcs[..n]);
  }

  lemma FirstSame(n: nat, k: nat, ns0: seq<Node>, es0: seq<Arc>, ns: seq<Node>, es: seq<Arc>)
    requires Enlisted(n, k, ns0, es0, ns, es) && n <= |es|
    ensures es[..n] == es0[..n]
  {
  }

  // ----- what a reader of the lists finds

  /** The arcs met when the links `next` are followed from e until the null pointer. */
  function Chain(next: seq<int>, e: int): seq<int>
    decreases e
  {
    if 0 <= e < |next| then
      if next[e] < e then [e] + Chain(next, next[e]) else [e]
    else []
  }

  lemma {:induction false} LatestIs(ends: seq<int>, lo: nat, k: nat, v: int)
    requires k <= |ends|
    ensures var e := Latest(ends, lo, k, v);
      && e < k && (e == NULL || (lo <= e && ends[e] == v))
      && forall a :: lo <= a < k && ends[a] == v ==> a <= e
  {
    if k > lo && ends[k - 1] != v {
      LatestIs(ends, lo, k - 1, v);
    }
  }

  /** The chain from the latest such position below k holds all of them, last first. */
  lemma {:induction false} ChainIsList(ends: seq<int>, next: seq<int>, lo: nat, k: nat, v: int)
    requires k <= |ends| == |next|
    requires forall e {:trigger next[e]} :: lo <= e < |next| ==> next[e] == Latest(ends, lo, e, ends[e])
    ensures var c := Chain(next, Latest(ends, lo, k, v));
      && (forall a :: a in c <==> lo <= a < k && ends[a] == v)
      && (forall i, j :: 0 <= i < j < |c| ==> c[i] > c[j])
    decreases k
  {
    LatestIs(ends, lo, k, v);
    var e := Latest(ends, lo, k, v);
    if e != NULL {
      LatestIs(ends, lo, e, v);
      ChainIsList(ends, next, lo, e, v);
      var c, rest := Chain(next, e), Chain(next, next[e]);
      assert c == [e] + rest;
      forall i, j | 0 <= i < j < |c| ensures c[i] > c[j] {
        assert c[j] in rest && c[j] == rest[j - 1];
      }
    }
  }

  function NextOuts(es: seq<Arc>): (s: seq<int>)
    ensures |s| == |es| && forall e {:trigger s[e]} :: 0 <= e < |es| ==> s[e] == es[e].nextout
  {
    seq(|es|, e requires 0 <= e < |es| => es[e].nextout)
  }

  function NextIns(es: seq<Arc>): (s: seq<int>)
    ensures |s| == |es| && forall e {:trigger s[e]} :: 0 <= e < |es| ==> s[e] == es[e].nextin
  {
    seq(|es|, e requires 0 <= e < |es| => es[e].nextin)
  }

  /** After the refresh the out-list of v holds every arc proper that leaves v exactly once, and
      the in-list every one that enters v, both from the last to the first. */
  lemma ListsAreNeighbours(n: nat, ns: seq<Node>, es: seq<Arc>, v: int)
    requires Neighbours(n, ns, es) && 0 <= v < |ns|
    ensures var outs := Chain(NextOuts(es), ns[v].firstout);
      && (forall e :: e in outs <==> n <= e < |es| && es[e].tail == v)
      && (forall i, j :: 0 <= i < j < |outs| ==> outs[i] > outs[j])
    ensures var ins := Chain(NextIns(es), ns[v].firstin);
      && (forall e :: e in ins <==> n <= e < |es| && es[e].head == v)
      && (forall i, j :: 0 <= i < j < |ins| ==> ins[i] > ins[j])
  {
    ChainIsList(Tails(es), NextOuts(es), n, |es|, v);
    ChainIsList(Heads(es), NextIns(es), n, |es|, v);
  }
}
