/** bench/mcf/implicit.c, suspend_impl without the flag `all`: implicit arcs that are too
    expensive are squeezed out of the arc array, and the nodes follow their basic arcs. */
module Suspend {
  import opened Trees
  import opened Flows
  import opened Basis
  import opened Network
  import opened Compaction
  import opened NeighbourLists

  // ----- which arcs stay

  /** The number that is compared with the threshold. */
  function SuspendCost(ns: seq<Node>, a: Arc): int
    requires 0 <= a.tail < |ns| && 0 <= a.head < |ns|
  {
    if a.ident == AT_LOWER then a.cost - ns[a.tail].potential + ns[a.head].potential else -2
  }

  /** Arcs before `first` are not implicit and stay; the others stay up to the threshold. */
  function Keeps(ns: seq<Node>, es: seq<Arc>, first: nat, threshold: int): (keep: seq<bool>)
    requires EndsInRange(ns, es, 0, |es|)
    ensures |keep| == |es| && IsGraph(GraphOf(es), |Potentials(ns)|)
    ensures forall e {:trigger keep[e]} :: 0 <= e < |es| ==> (keep[e] <==>
      e < first || (if es[e].ident == AT_LOWER then RedCost(GraphOf(es), Potentials(ns), e) else -2) <= threshold)
  {
    seq(|es|, e requires 0 <= e < |es| => e < first || SuspendCost(ns, es[e]) <= threshold)
  }

  lemma CostIsReduced(ns: seq<Node>, es: seq<Arc>, e: nat)
    requires EndsInRange(ns, es, 0, |es|) && e < |es|
    ensures IsGraph(GraphOf(es), |Potentials(ns)|)
    ensures SuspendCost(ns, es[e]) == if es[e].ident == AT_LOWER then RedCost(GraphOf(es), Potentials(ns), e) else -2
  {
  }

  /** Arcs in the basis or at the upper bound stay exactly if no such implicit arc exists or the
      threshold is at least -2. */
  lemma BasisStays(ns: seq<Node>, es: seq<Arc>, first: nat, threshold: int)
    requires EndsInRange(ns, es, 0, |es|)
    ensures (forall e :: 0 <= e < |es| && !Keeps(ns, es, first, threshold)[e] ==> es[e].ident == AT_LOWER)
            <==> threshold >= -2 || forall e :: first <= e < |es| ==> es[e].ident == AT_LOWER
  {
    var keep := Keeps(ns, es, first, threshold);
    if e :| first <= e < |es| && es[e].ident != AT_LOWER {
      assert keep[e] <==> -2 <= threshold;
    }
  }

  /** ns with the basic arcs among the first k arcs of the array redirected to where they move. */
  ghost predicate Redirected(ns: seq<Node>, ns': seq<Node>, keep: seq<bool>, k: nat)
    requires k <= |keep|
  {
    && |ns'| == |ns|
    && forall v {:trigger ns'[v]} :: 0 <= v < |ns| ==>
         ns'[v] == ns[v].(basicArc := if 0 < v
           && 0 <= ns[v].basicArc < k then Rank(keep, ns[v].basicArc) else ns[v].basicArc)
  }

  /** The arcs that are kept, in their order. */
  function Remaining(es: seq<Arc>, keep: seq<bool>): (es': seq<Arc>)
    requires |keep| == |es|
    ensures |es'| == Rank(keep, |keep|)
  {
    Squeeze(es, keep, |es|)
  }

  /** Every node follows its basic arc. */
  function Following(ns: seq<Node>, keep: seq<bool>): (ns': seq<Node>)
    ensures Redirected(ns, ns', keep, |keep|)
  {
    seq(|ns|, v requires 0 <= v < |ns| =>
      ns[v].(basicArc := if 0 < v && 0 <= ns[v].basicArc < |keep| then Rank(keep, ns[v].basicArc) else ns[v].basicArc))
  }

  ghost predicate Suspended(ns: seq<Node>, es: seq<Arc>, keep: seq<bool>, ns': seq<Node>, es': seq<Arc>) {
    && |keep| == |es|
    && es' == Remaining(es, keep)
    && Redirected(ns, ns', keep, |es|)
  }

  // ----- the loop

  /** The nodes after the body of the loop has looked at arc a, which is arc number k. */
  function Followed(ns: seq<Node>, a: Arc, k: nat, newArc: nat): seq<Node>
    requires 0 <= a.tail < |ns| && 0 <= a.head < |ns|
  {
    if a.ident == BASIC then
      var v := if ns[a.tail].basicArc == k then a.tail else a.head;
      ns[v := ns[v].(basicArc := newArc)]
    else ns
  }

  /** The number of arc a, and its node is made to follow it if it is basic. */
  method Appraise(nodes: array<Node>, a: Arc, arc: nat, newArc: nat) returns (redCost: int)
    requires 0 <= a.tail < nodes.Length && 0 <= a.head < nodes.Length
    modifies nodes
    ensures redCost == SuspendCost(old(nodes[..]), a)
    ensures nodes[..] == Followed(old(nodes[..]), a, arc, newArc)
  {
    if a.ident == AT_LOWER {
      redCost := a.cost - nodes[a.tail].potential + nodes[a.head].potential;
    } else {
      redCost := -2;
      if a.ident == BASIC {
        if nodes[a.tail].basicArc == arc {
          nodes[a.tail] := nodes[a.tail].(basicArc := newArc);
        } else {
          nodes[a.head] := nodes[a.head].(basicArc := newArc);
        }
      }
    }
  }

  /** Arc k is the basic arc of the one node that the code picks, or of no node. */
  ghost predicate OwnedAt(ns: seq<Node>, es: seq<Arc>, k: int)
    requires EndsInRange(ns, es, 0, |es|) && 0 <= k < |es|
  {
    if es[k].ident == BASIC then
      var v := if ns[es[k].tail].basicArc == k then es[k].tail else es[k].head;
      0 < v && ns[v].basicArc == k && forall u :: 0 < u < |ns| && ns[u].basicArc == k ==> u == v
    else
      forall u :: 0 < u < |ns| ==> ns[u].basicArc != k
  }

  ghost predicate Owned(ns: seq<Node>, es: seq<Arc>, first: nat) {
    && EndsInRange(ns, es, 0, |es|)
    && (forall e {:trigger es[e]} :: first <= e < |es| ==> 0 < es[e].tail && 0 < es[e].head)
    && forall k {:trigger OwnedAt(ns, es, k)} :: first <= k < |es| ==> OwnedAt(ns, es, k)
  }

  lemma BasisOwned(n: nat, ns: seq<Node>, es: seq<Arc>)
    requires TreeOk(n, ns, es) && IdentsOk(n, ns, es)
    ensures Owned(ns, es, n)
  {
    var b := BasisOf(ns);
    forall k | n <= k < |es| ensures OwnedAt(ns, es, k) {
      assert es[k].ident == BASIC <==> IsBasicArc(b, k);
      if es[k].ident == BASIC {
        var v :| 0 < v < |b.pred| && b.at[v].arc == k;
        assert b.at[v] == BasicOf(ns[v]);
        OwnerIs(n, ns, es, v);
        forall u | 0 < u < |ns| && ns[u].basicArc == k ensures u == v {
          assert b.at[u] == BasicOf(ns[u]);
          ArcsDistinct(GraphOf(es), b, u, v);
        }
      } else {
        forall u | 0 < u < |ns| ensures ns[u].basicArc != k {
          assert b.at[u] == BasicOf(ns[u]);
        }
      }
    }
  }

  /** The redirected pointers do not hide the owner of arc k. */
  lemma RedirectStep(ns: seq<Node>, es: seq<Arc>, first: nat, keep: seq<bool>, k: nat, ns1: seq<Node>, ns2: seq<Node>)
    requires first <= k < |es| == |keep| && Owned(ns, es, first) && Redirected(ns, ns1, keep, k)
    requires ns2 == Followed(ns1, es[k], k, Rank(keep, k))
    ensures Redirected(ns, ns2, keep, k + 1)
  {
    assert OwnedAt(ns, es, k);
    var t := es[k].tail;
    assert ns1[t].basicArc == k <==> ns[t].basicArc == k;
  }

  /** now is es while its first k elements are being squeezed in place. */
  ghost predicate Squeezing(es: seq<Arc>, keep: seq<bool>, k: nat, now: seq<Arc>) {
    && |now| == |es| == |keep| && k <= |es|
    && now[..Rank(keep, k)] == Squeeze(es, keep, k)
    && now[k..] == es[k..]
  }

  lemma SqueezingStep(es: seq<Arc>, keep: seq<bool>, k: nat, now: seq<Arc>, now': seq<Arc>)
    requires Squeezing(es, keep, k, now) && k < |es|
    requires now' == if keep[k] then now[Rank(keep, k) := es[k]] else now
    ensures Squeezing(es, keep, k + 1, now')
  {
    var r := Rank(keep, k);
    assert now'[..r] == now[..r];
    if keep[k] {
      assert now'[..r + 1] == now'[..r] + [es[k]];
    }
    assert now'[k + 1..] == now[k..][1..];
  }

  method PutArc(arcs: array<Arc>, at: nat, from: nat, stop: nat)
    requires at <= from < stop <= arcs.Length
    modifies arcs
    ensures arcs[..stop] == old(arcs[..stop])[at := old(arcs[from])]
  {
    arcs[at] := arcs[from];
  }

  /** The state of the loop before arc k: the arcs before k are squeezed and followed by their nodes. */
  ghost predicate Suspending(ns: seq<Node>, es: seq<Arc>, keep: seq<bool>, k: nat, ns1: seq<Node>, now: seq<Arc>) {
    Squeezing(es, keep, k, now) && Redirected(ns, ns1, keep, k)
  }

  /** The body of the loop, for one arc. */
  method SuspendOne(nodes: array<Node>, arcs: array<Arc>, arc: nat, newArc: nat, stop: nat, threshold: int,
                    ghost ns: seq<Node>, ghost es: seq<Arc>, ghost first: nat,
                      ghost keep: seq<bool>) returns (kept: bool)
    requires first <= arc < stop <= arcs.Length && stop == |es| == |keep| && newArc == Rank(keep, arc)
    requires Owned(ns, es, first) && keep[arc] == (SuspendCost(ns, es[arc]) <= threshold)
    requires Suspending(ns, es, keep, arc, nodes[..], arcs[..stop])
    modifies nodes, arcs
    ensures kept == keep[arc] && Suspending(ns, es, keep, arc + 1, nodes[..], arcs[..stop])
  {
    ghost var ns1, now := nodes[..], arcs[..stop];
    assert arcs[arc] == es[arc] by { assert arcs[arc] == now[arc..][0]; }
    SameAppraisal(ns, ns1, keep, arc, es[arc]);
    var redCost := Appraise(nodes, arcs[arc], arc, newArc);
    RedirectStep(ns, es, first, keep, arc, ns1, nodes[..]);
    kept := redCost <= threshold;
    if kept {
      PutArc(arcs, newArc, arc, stop);
    }
    SqueezingStep(es, keep, arc, now, arcs[..stop]);
  }

  /** The loop of suspend_impl over the arcs first .. stop-1. */
  method SuspendAll(nodes: array<Node>, arcs: array<Arc>, first: nat, stop: nat, threshold: int,
                    ghost ns: seq<Node>, ghost es: seq<Arc>, ghost keep: seq<bool>) returns (newArc: nat, susp: nat)
    requires first <= stop == |es| == |keep| && stop <= arcs.Length && Owned(ns, es, first)
    requires forall k {:trigger keep[k]} :: first <= k < stop ==> (keep[k] <==> SuspendCost(ns, es[k]) <= threshold)
    requires Rank(keep, first) == first && Suspending(ns, es, keep, first, nodes[..], arcs[..stop])
    modifies nodes, arcs
    ensures newArc == Rank(keep, stop) && susp == stop - newArc <= stop - first
    ensures Suspending(ns, es, keep, stop, nodes[..], arcs[..stop])
  {
    var arc := first;
    newArc, susp := first, 0;
    while arc < stop
      invariant first <= newArc <= arc <= stop && susp == arc - newArc && newArc == Rank(keep, arc)
      invariant Suspending(ns, es, keep, arc, nodes[..], arcs[..stop])
    {
      var kept := SuspendOne(nodes, arcs, arc, newArc, stop, threshold, ns, es, first, keep);
      if kept {
        newArc := newArc + 1;
      } else {
        susp := susp + 1;
      }
      arc := arc + 1;
    }
  }

  /** The arcs before newStop are what is left. */
  method CompactArcs(nodes: array<Node>, arcs: array<Arc>, first: nat, stop: nat, threshold: int)
    returns (newStop: nat, susp: nat)
    requires first <= stop <= arcs.Length && Owned(nodes[..], arcs[..stop], first)
    modifies nodes, arcs
    ensures newStop <= stop && susp == stop - newStop <= stop - first
    ensures Suspended(old(nodes[..]), old(arcs[..stop]), Keeps(old(nodes[..]), old(arcs[..stop]), first, threshold),
                      nodes[..], arcs[..newStop])
    ensures nodes[..] == Following(old(nodes[..]), Keeps(old(nodes[..]), old(arcs[..stop]), first, threshold))
  {
    ghost var ns, es := nodes[..], arcs[..stop];
    ghost var keep := Keeps(ns, es, first, threshold);
    forall e | 0 <= e < stop ensures keep[e] <==> e < first || SuspendCost(ns, es[e]) <= threshold {
      CostIsReduced(ns, es, e);
    }
    SuspendingStarts(ns, es, keep, first);
    newStop, susp := SuspendAll(nodes, arcs, first, stop, threshold, ns, es, keep);
    SuspendingEnds(ns, es, keep, nodes[..], arcs[..stop]);
    assert arcs[..stop][..newStop] == arcs[..newStop];
  }

  lemma SuspendingStarts(ns: seq<Node>, es: seq<Arc>, keep: seq<bool>, first: nat)
    requires first <= |keep| == |es| && forall e :: 0 <= e < first ==> keep[e]
    ensures Rank(keep, first) == first && Suspending(ns, es, keep, first, ns, es)
  {
    RankSame(keep, first, first);
    SqueezeSame(es, keep, first, first);
    NoneRedirected(ns, keep, first);
  }

  lemma SuspendingEnds(ns: seq<Node>, es: seq<Arc>, keep: seq<bool>, ns': seq<Node>, now: seq<Arc>)
    requires |keep| == |es| && Suspending(ns, es, keep, |es|, ns', now)
    ensures Suspended(ns, es, keep, ns', now[..Rank(keep, |es|)]) && ns' == Following(ns, keep)
  {
  }

  lemma SameAppraisal(ns: seq<Node>, ns1: seq<Node>, keep: seq<bool>, k: nat, a: Arc)
    requires k <= |keep| && Redirected(ns, ns1, keep, k) && 0 <= a.tail < |ns| && 0 <= a.head < |ns|
    ensures SuspendCost(ns1, a) == SuspendCost(ns, a)
  {
    assert ns1[a.tail].potential == ns[a.tail].potential && ns1[a.head].potential == ns[a.head].potential;
  }

  lemma NoneRedirected(ns: seq<Node>, keep: seq<bool>, first: nat)
    requires first <= |keep| && forall e :: 0 <= e < first ==> keep[e]
    ensures Redirected(ns, ns, keep, first)
  {
    forall v | 0 <= v < |ns| && 0 <= ns[v].basicArc < first ensures Rank(keep, ns[v].basicArc) == ns[v].basicArc {
      RankSame(keep, first, ns[v].basicArc);
    }
  }

  lemma {:induction false} SqueezeSame<T>(s: seq<T>, keep: seq<bool>, first: nat, k: nat)
    requires k <= first <= |keep| == |s| && forall e :: 0 <= e < first ==> keep[e]
    ensures Squeeze(s, keep, k) == s[..k]
  {
    if k > 0 {
      SqueezeSame(s, keep, first, k - 1);
    }
  }

  lemma SuspendedInRange(ns: seq<Node>, es: seq<Arc>, keep: seq<bool>, ns': seq<Node>, es': seq<Arc>)
    requires EndsInRange(ns, es, 0, |es|) && Suspended(ns, es, keep, ns', es')
    ensures EndsInRange(ns', es', 0, |es'|)
  {
    forall r | 0 <= r < |es'| ensures 0 <= es'[r].tail < |ns'| && 0 <= es'[r].head < |ns'| {
      var e := CameFrom(keep, |keep|, r);
      SqueezedAt(es, keep, |es|, e);
      assert es'[r] == es[e];
    }
  }

  /** The places of the arcs that stay. */
  function Places(keep: seq<bool>): (at: seq<int>)
    ensures |at| == Rank(keep, |keep|)
  {
    Squeeze(seq(|keep|, e => e), keep, |keep|)
  }

  lemma PlacesAre(keep: seq<bool>)
    ensures forall r, q :: 0 <= r < q < |Places(keep)| ==> Places(keep)[r] < Places(keep)[q]
    ensures forall r {:trigger Places(keep)[r]} :: 0 <= r < |Places(keep)| ==>
      var e := Places(keep)[r]; 0 <= e < |keep| && keep[e] && Rank(keep, e) == r
    ensures forall e {:trigger keep[e]} :: 0 <= e < |keep| ==> (e in Places(keep) <==> keep[e])
  {
    var all, at := seq(|keep|, e => e), Places(keep);
    forall e: nat | e < |keep| && keep[e] ensures Rank(keep, e) < |at| && at[Rank(keep, e)] == e {
      SqueezedAt(all, keep, |keep|, e);
    }
    forall r {:trigger at[r]} | 0 <= r < |at|
      ensures 0 <= at[r] < |keep| && keep[at[r]] && Rank(keep, at[r]) == r
    {
      var e := CameFrom(keep, |keep|, r);
      SqueezedAt(all, keep, |keep|, e);
    }
    forall r, q | 0 <= r < q < |at| ensures at[r] < at[q] {
      if at[q] <= at[r] {
        RankMono(keep, at[q], at[r]);
      }
    }
  }

  // ----- the basis after the removal

  /** What the removal needs: dummy arcs stay and so does every arc that is not at its lower bound. */
  ghost predicate Harmless(n: nat, es: seq<Arc>, keep: seq<bool>) {
    && |keep| == |es| && n <= |es|
    && (forall e {:trigger keep[e]} :: 0 <= e < n ==> keep[e])
    && (forall e {:trigger keep[e]} :: 0 <= e < |es| && !keep[e] ==> es[e].ident == AT_LOWER)
  }

  lemma SuspendedArc(ns: seq<Node>, es: seq<Arc>, keep: seq<bool>, ns': seq<Node>, es': seq<Arc>, e: nat)
    requires Suspended(ns, es, keep, ns', es') && e < |es| && keep[e]
    ensures Rank(keep, e) < |es'| && es'[Rank(keep, e)] == es[e]
  {
    SqueezedAt(es, keep, |es|, e);
  }

  lemma SuspendedDummies(n: nat, ns: seq<Node>, es: seq<Arc>, keep: seq<bool>, ns': seq<Node>, es': seq<Arc>)
    requires Dummies(n, es) && Suspended(ns, es, keep, ns', es') && Harmless(n, es, keep)
    ensures Dummies(n, es')
  {
    RankSame(keep, n, n);
    RankMono(keep, n, |keep|);
    forall r | 0 <= r < |es'| ensures if r < n then es'[r] == es[r] else 0 < es'[r].tail <= n && 0 < es'[r].head <= n {
      var e := CameFrom(keep, |keep|, r);
      SuspendedArc(ns, es, keep, ns', es', e);
      if e < n {
        RankSame(keep, n, e);
      } else {
        RankMono(keep, n, e);
        assert 0 < es[e].tail <= n && 0 < es[e].head <= n;
      }
    }
  }

  /** The arc of node v stays and moves with the node's pointer. */
  lemma SuspendedBasic(n: nat, ns: seq<Node>, es: seq<Arc>, keep: seq<bool>, ns': seq<Node>, es': seq<Arc>, v: int)
    requires TreeOk(n, ns, es) && IdentsOk(n, ns, es) && Suspended(ns, es, keep, ns', es') && Harmless(n, es, keep)
    requires 0 < v <= n
    ensures 0 <= ns[v].basicArc < |es| && keep[ns[v].basicArc] && ns'[v].basicArc == Rank(keep, ns[v].basicArc)
    ensures ns'[v].basicArc < |es'| && es'[ns'[v].basicArc] == es[ns[v].basicArc]
  {
    BasicFlow(n, ns, es, v);
    SuspendedArc(ns, es, keep, ns', es', ns[v].basicArc);
  }

  /** The tree stays the same. */
  lemma SuspendedTree(n: nat, ns: seq<Node>, es: seq<Arc>, keep: seq<bool>, ns': seq<Node>, es': seq<Arc>)
    requires TreeOk(n, ns, es) && IdentsOk(n, ns, es) && Suspended(ns, es, keep, ns', es') && Harmless(n, es, keep)
    ensures LinksOf(ns') == LinksOf(ns) && Potentials(ns') == Potentials(ns) && TreeOk(n, ns', es')
  {
    SuspendedDummies(n, ns, es, keep, ns', es');
    assert Preds(ns') == Preds(ns);
    var b, b', g' := BasisOf(ns), BasisOf(ns'), GraphOf(es');
    forall v | 0 < v < |b'.pred| ensures Joins(g', b'.at[v].arc, v, b'.pred[v], b'.at[v].up) {
      SuspendedBasic(n, ns, es, keep, ns', es', v);
      assert b.at[v] == BasicOf(ns[v]) && b'.at[v] == BasicOf(ns'[v]);
      assert Joins(GraphOf(es), b.at[v].arc, v, b.pred[v], b.at[v].up);
    }
    forall v | 0 <= v < |b'.at| ensures b'.at[v].depth == |Sub(b'.pred, v)| {
      assert b.at[v] == BasicOf(ns[v]) && b'.at[v] == BasicOf(ns'[v]);
    }
  }

  /** A kept arc is basic exactly if the arc in its new position is. */
  lemma SuspendedIsBasic(n: nat, ns: seq<Node>, es: seq<Arc>, keep: seq<bool>, ns': seq<Node>, es': seq<Arc>, e: nat)
    requires TreeOk(n, ns, es) && IdentsOk(n, ns, es) && Suspended(ns, es, keep, ns', es') && Harmless(n, es, keep)
    requires e < |es| && keep[e]
    ensures |ns'| == |ns| && (IsBasicArc(BasisOf(ns'), Rank(keep, e)) <==> IsBasicArc(BasisOf(ns), e))
  {
    var b, b' := BasisOf(ns), BasisOf(ns');
    if IsBasicArc(b, e) {
      var v :| 0 < v < |b.pred| && b.at[v].arc == e;
      SuspendedBasic(n, ns, es, keep, ns', es', v);
      assert b.at[v] == BasicOf(ns[v]);
      assert b'.at[v].arc == Rank(keep, e);
    }
    if IsBasicArc(b', Rank(keep, e)) {
      var v :| 0 < v < |b'.pred| && b'.at[v].arc == Rank(keep, e);
      SuspendedBasic(n, ns, es, keep, ns', es', v);
      assert b'.at[v] == BasicOf(ns'[v]);
      var a := ns[v].basicArc;
      if a < e { RankMono(keep, a, e); } else if e < a { RankMono(keep, e, a); }
      assert b.at[v].arc == e;
    }
  }

  lemma SuspendedIdents(n: nat, ns: seq<Node>, es: seq<Arc>, keep: seq<bool>, ns': seq<Node>, es': seq<Arc>)
    requires TreeOk(n, ns, es) && IdentsOk(n, ns, es) && Suspended(ns, es, keep, ns', es') && Harmless(n, es, keep)
    ensures |ns'| == |ns| && IdentsOk(n, ns', es')
  {
    forall r | 0 <= r < |es'|
      ensures (es'[r].ident == BASIC <==> IsBasicArc(BasisOf(ns'), r)) && (r < n ==> es'[r].ident != AT_UPPER)
    {
      var e := CameFrom(keep, |keep|, r);
      SuspendedArc(ns, es, keep, ns', es', e);
      SuspendedIsBasic(n, ns, es, keep, ns', es', e);
      assert es[e].ident == BASIC <==> IsBasicArc(BasisOf(ns), e);
      if n <= e {
        RankSame(keep, n, n);
        RankMono(keep, n, e);
      }
    }
  }

  /** A kept arc carries the same flow as before. */
  lemma SuspendedFlow(n: nat, ns: seq<Node>, es: seq<Arc>, keep: seq<bool>, ns': seq<Node>, es': seq<Arc>, e: nat)
    requires TreeOk(n, ns, es) && IdentsOk(n, ns, es) && Suspended(ns, es, keep, ns', es') && Harmless(n, es, keep)
    requires TreeOk(n, ns', es') && IdentsOk(n, ns', es')
    requires e < |es| && keep[e]
    ensures Rank(keep, e) < |es'| && FlowOf(ns', es')[Rank(keep, e)] == FlowOf(ns, es)[e]
  {
    SuspendedArc(ns, es, keep, ns', es', e);
    if es[e].ident == BASIC {
      var b := BasisOf(ns);
      assert IsBasicArc(b, e);
      var v :| 0 < v < |b.pred| && b.at[v].arc == e;
      assert b.at[v] == BasicOf(ns[v]);
      SuspendedBasic(n, ns, es, keep, ns', es', v);
      BasicFlow(n, ns, es, v);
      BasicFlow(n, ns', es', v);
    }
  }

  lemma SuspendedCompacts(n: nat, ns: seq<Node>, es: seq<Arc>, keep: seq<bool>, ns': seq<Node>, es': seq<Arc>)
    requires TreeOk(n, ns, es) && IdentsOk(n, ns, es) && Suspended(ns, es, keep, ns', es') && Harmless(n, es, keep)
    requires TreeOk(n, ns', es') && IdentsOk(n, ns', es')
    ensures Compacts(GraphOf(es), FlowOf(ns, es), GraphOf(es'), FlowOf(ns', es'), keep)
  {
    forall e | 0 <= e < |keep|
      ensures if keep[e] then
                var r := Rank(keep, e);
                && r < |es'| && es'[r] == es[e] && FlowOf(ns', es')[r] == FlowOf(ns, es)[e]
              else FlowOf(ns, es)[e] == 0.0
    {
      if keep[e] {
        SuspendedArc(ns, es, keep, ns', es', e);
        SuspendedFlow(n, ns, es, keep, ns', es', e);
      }
    }
  }

  lemma SuspendedPriced(n: nat, ns: seq<Node>, es: seq<Arc>, keep: seq<bool>, ns': seq<Node>, es': seq<Arc>)
    requires TreeOk(n, ns, es) && IdentsOk(n, ns, es) && Suspended(ns, es, keep, ns', es') && Harmless(n, es, keep)
    requires TreeOk(n, ns', es') && Priced(n, ns, es)
    ensures Priced(n, ns', es')
  {
    var b, b', g' := BasisOf(ns), BasisOf(ns'), GraphOf(es');
    forall v | 0 < v < |b'.pred| ensures RedCost(g', Potentials(ns'), b'.at[v].arc) == 0 {
      SuspendedBasic(n, ns, es, keep, ns', es', v);
      assert b.at[v] == BasicOf(ns[v]) && b'.at[v] == BasicOf(ns'[v]);
      assert RedCost(GraphOf(es), Potentials(ns), b.at[v].arc) == 0;
    }
  }

  /** Removing arcs that carry nothing leaves tree, circulation and cost as they are. */
  lemma SuspendKeeps(n: nat, ns: seq<Node>, es: seq<Arc>, keep: seq<bool>, ns': seq<Node>, es': seq<Arc>)
    requires Consistent(n, ns, es) && Suspended(ns, es, keep, ns', es') && Harmless(n, es, keep)
    ensures LinksOf(ns') == LinksOf(ns) && Potentials(ns') == Potentials(ns)
    ensures Consistent(n, ns', es')
    ensures TotalCost(GraphOf(es'), FlowOf(ns', es')) == TotalCost(GraphOf(es), FlowOf(ns, es))
    ensures StronglyFeasible(ns) ==> StronglyFeasible(ns')
  {
    SuspendedTree(n, ns, es, keep, ns', es');
    SuspendedIdents(n, ns, es, keep, ns', es');
    SuspendedPriced(n, ns, es, keep, ns', es');
    SuspendedCompacts(n, ns, es, keep, ns', es');
    var g, x, g', x' := GraphOf(es), FlowOf(ns, es), GraphOf(es'), FlowOf(ns', es');
    SameCost(g, x, g', x', keep, |x|);
    forall v | 0 <= v < n + 1 ensures Excess(g', x', v, |x'|) == 0.0 {
      SameExcess(g, x, g', x', keep, v, |x|);
      assert Excess(g, x, v, |x|) == 0.0;
    }
  }

  // ----- the neighbour lists do not matter for the basis

  lemma ListsKeep(n: nat, ns: seq<Node>, es: seq<Arc>, ns': seq<Node>, es': seq<Arc>)
    requires Consistent(n, ns, es) && OnlyLists(ns, es, ns', es')
    ensures LinksOf(ns') == LinksOf(ns) && Potentials(ns') == Potentials(ns) && BasisOf(ns') == BasisOf(ns)
    ensures GraphOf(es') == GraphOf(es) && FlowOf(ns', es') == FlowOf(ns, es)
    ensures Consistent(n, ns', es') && (StronglyFeasible(ns) ==> StronglyFeasible(ns'))
  {
    assert LinksOf(ns') == LinksOf(ns);
    assert BasisOf(ns') == BasisOf(ns) by {
      assert BasisOf(ns').at == BasisOf(ns).at;
    }
    assert GraphOf(es') == GraphOf(es) by {
      assert GraphOf(es').tail == GraphOf(es).tail && GraphOf(es').head == GraphOf(es).head;
      assert GraphOf(es').cost == GraphOf(es).cost;
    }
    assert FlowOf(ns', es') == FlowOf(ns, es);
    assert Potentials(ns') == Potentials(ns);
  }

  // ----- the whole call

  /** ns', es' are what suspend_impl leaves of ns, es: the kept arcs in their order, every node
      pointing to its own arc, and fresh lists if any arc is gone. */
  ghost predicate Removed(n: nat, ns: seq<Node>, es: seq<Arc>, keep: seq<bool>, ns': seq<Node>, es': seq<Arc>) {
    && |keep| == |es|
    && OnlyLists(Following(ns, keep), Remaining(es, keep), ns', es')
    && (if |es'| < |es| then Neighbours(n, ns', es') else ns' == ns && es' == es)
  }

  lemma AllStay(ns: seq<Node>, es: seq<Arc>, keep: seq<bool>)
    requires |keep| == |es| && Rank(keep, |es|) == |es|
    ensures Remaining(es, keep) == es && Following(ns, keep) == ns
  {
    forall e | 0 <= e < |es| ensures keep[e] {
      RankMono(keep, e + 1, |es|);
    }
    SqueezeSame(es, keep, |es|, |es|);
    NoneRedirected(ns, keep, |es|);
  }

  lemma SuspendedIsRemoved(n: nat, ns: seq<Node>, es: seq<Arc>, keep: seq<bool>, ns1: seq<Node>, es1: seq<Arc>,
                           ns': seq<Node>, es': seq<Arc>)
    requires Suspended(ns, es, keep, ns1, es1) && ns1 == Following(ns, keep)
    requires if |es1| < |es| then OnlyLists(ns1, es1, ns', es') && Neighbours(n, ns', es') else ns' == ns1 && es' == es1
    ensures Removed(n, ns, es, keep, ns', es')
  {
    if |es1| == |es| {
      AllStay(ns, es, keep);
    }
  }

  /** The arcs first .. stop-1 are gone through, and the lists are rebuilt if one goes. */
  method RemoveArcs(nodes: array<Node>, arcs: array<Arc>, n: nat, first: nat, stop: nat, threshold: int)
    returns (newStop: nat, susp: nat)
    requires n <= first <= stop <= arcs.Length && Owned(nodes[..], arcs[..stop], first)
    modifies nodes, arcs
    ensures newStop <= stop && susp == stop - newStop <= stop - first
    ensures Removed(n, old(nodes[..]), old(arcs[..stop]), Keeps(old(nodes[..]), old(arcs[..stop]), first, threshold),
                    nodes[..], arcs[..newStop])
  {
    ghost var ns, es := nodes[..], arcs[..stop];
    newStop, susp := CompactArcs(nodes, arcs, first, stop, threshold);
    ghost var keep := Keeps(ns, es, first, threshold);
    ghost var ns1, es1 := nodes[..], arcs[..newStop];
    if susp > 0 {
      SuspendedInRange(ns, es, keep, ns1, es1);
      assert forall e :: n <= e < newStop ==> arcs[e] == es1[e];
      RefreshNeighbourLists(nodes, arcs, n, newStop);
    }
    SuspendedIsRemoved(n, ns, es, keep, ns1, es1, nodes[..], arcs[..newStop]);
  }

  /** The dummy arcs and the arcs that carry flow stay if the threshold is at least -2. */
  lemma ThresholdHarmless(n: nat, ns: seq<Node>, es: seq<Arc>, first: nat, threshold: int)
    requires TreeOk(n, ns, es) && n <= first <= |es| && EndsInRange(ns, es, 0, |es|)
    requires threshold >= -2
    ensures Harmless(n, es, Keeps(ns, es, first, threshold))
  {
    BasisStays(ns, es, first, threshold);
  }

  /** Tree, potentials, circulation and cost survive the removal. */
  lemma RemovedKeeps(n: nat, ns: seq<Node>, es: seq<Arc>, keep: seq<bool>, ns': seq<Node>, es': seq<Arc>)
    requires Consistent(n, ns, es) && Removed(n, ns, es, keep, ns', es') && Harmless(n, es, keep)
    ensures LinksOf(ns') == LinksOf(ns) && Potentials(ns') == Potentials(ns)
    ensures Consistent(n, ns', es') && (StronglyFeasible(ns) ==> StronglyFeasible(ns'))
    ensures TotalCost(GraphOf(es'), FlowOf(ns', es')) == TotalCost(GraphOf(es), FlowOf(ns, es))
  {
    var ns1, es1 := Following(ns, keep), Remaining(es, keep);
    SuspendKeeps(n, ns, es, keep, ns1, es1);
    ListsKeep(n, ns1, es1, ns', es');
  }

  /** suspend_impl with a threshold of at least -2 leaves a consistent basis as good as it was. */
  lemma SuspensionKeeps(n: nat, ns: seq<Node>, es: seq<Arc>, first: nat, threshold: int, ns': seq<Node>, es': seq<Arc>)
    requires Consistent(n, ns, es) && n <= first <= |es| && EndsInRange(ns, es, 0, |es|) && threshold >= -2
    requires Removed(n, ns, es, Keeps(ns, es, first, threshold), ns', es')
    ensures LinksOf(ns') == LinksOf(ns) && Potentials(ns') == Potentials(ns)
    ensures Consistent(n, ns', es') && (StronglyFeasible(ns) ==> StronglyFeasible(ns'))
    ensures TotalCost(GraphOf(es'), FlowOf(ns', es')) == TotalCost(GraphOf(es), FlowOf(ns, es))
  {
    ThresholdHarmless(n, ns, es, first, threshold);
    RemovedKeeps(n, ns, es, Keeps(ns, es, first, threshold), ns', es');
  }

  /** An arc goes if it is implicit and at its lower bound, and its reduced cost is over the threshold. */
  ghost predicate Goes(ns: seq<Node>, es: seq<Arc>, first: nat, threshold: int, e: int)
    requires IsGraph(GraphOf(es), |Potentials(ns)|) && 0 <= e < |es|
  {
    first <= e && es[e].ident == AT_LOWER && RedCost(GraphOf(es), Potentials(ns), e) > threshold
  }

  /** Arc by arc: what is left are, in their order and unchanged up to the list links, the arcs that do not go. */
  lemma RemovedExactly(n: nat, ns: seq<Node>, es: seq<Arc>, first: nat, threshold: int, ns': seq<Node>, es': seq<Arc>)
    returns (at: seq<int>)
    requires EndsInRange(ns, es, 0, |es|) && first <= |es| && threshold >= -2
    requires Removed(n, ns, es, Keeps(ns, es, first, threshold), ns', es')
    ensures |at| == |es'| && IsGraph(GraphOf(es), |Potentials(ns)|)
    ensures forall r, q :: 0 <= r < q < |at| ==> at[r] < at[q]
    ensures forall r {:trigger es'[r]} :: 0 <= r < |at| ==>
      0 <= at[r] < |es| && es'[r] == es[at[r]].(nextout := es'[r].nextout, nextin := es'[r].nextin)
    ensures forall e {:trigger Goes(ns, es, first, threshold, e)} :: 0 <= e < |es| ==>
      (e in at <==> !Goes(ns, es, first, threshold, e))
  {
    var keep, left := Keeps(ns, es, first, threshold), Remaining(es, Keeps(ns, es, first, threshold));
    at := Places(keep);
    PlacesAre(keep);
    forall r {:trigger es'[r]} | 0 <= r < |at| ensures left[r] == es[at[r]] {
      SqueezedAt(es, keep, |es|, at[r]);
    }
    forall e {:trigger Goes(ns, es, first, threshold, e)} | 0 <= e < |es|
      ensures e in at <==> !Goes(ns, es, first, threshold, e)
    {
      assert e in at <==> keep[e];
    }
  }

  /** The arc under a node's pointer is the same arc as before, up to its list links. */
  lemma RemovedBasicArc(n: nat, ns: seq<Node>, es: seq<Arc>, keep: seq<bool>, ns': seq<Node>, es': seq<Arc>, v: int)
    requires Consistent(n, ns, es) && Removed(n, ns, es, keep, ns', es') && Harmless(n, es, keep) && 0 < v <= n
    ensures |ns'| == |ns| && 0 <= ns[v].basicArc < |es| && 0 <= ns'[v].basicArc < |es'|
    ensures var a := es'[ns'[v].basicArc]; a == es[ns[v].basicArc].(nextout := a.nextout, nextin := a.nextin)
  {
    SuspendedBasic(n, ns, es, keep, Following(ns, keep), Remaining(es, keep), v);
  }
}
