/** bench/mcf/pbeampp.c, primal_bea_mpp, with the two ways of filling the basket: `remote` of
    bench/mcf/main_wrapper.c, which stops at B entries, and `remote1` of
    runtime/affinity_mcf.cpp, which does not. Static variables are fields of Pricer. */
module Pricing {
  import opened Trees
  import opened Network
  import opened BasketSort
  import opened PricingRun

  /** The places 1 .. of p point to distinct entries other than entry 0. */
  ghost predicate Pointers(p: seq<int>) {
    && (forall i :: 1 <= i < |p| ==> 1 <= p[i] < |p|)
    && (forall i, j :: 1 <= i < j < |p| ==> p[i] != p[j])
  }

  /** The entries at places 1 .. size. */
  ghost function Listed(bs: seq<Entry>, p: seq<int>, size: int): (l: seq<Entry>)
    requires 0 <= size < |p| == |bs| && Pointers(p)
    ensures |l| == size && forall i {:trigger l[i]} :: 0 <= i < size ==> l[i] == bs[p[i + 1]]
  {
    seq(size, i requires 0 <= i < size => bs[p[i + 1]])
  }

  /** One more entry, and nothing else, at the place after the last. */
  lemma Appended(bs: seq<Entry>, bs': seq<Entry>, p: seq<int>, size: int)
    requires 1 <= size < |p| == |bs| == |bs'| && Pointers(p) && bs' == bs[p[size] := bs'[p[size]]]
    ensures Listed(bs', p, size) == Listed(bs, p, size - 1) + [bs'[p[size]]]
  {
    var l, l' := Listed(bs, p, size - 1), Listed(bs', p, size);
    forall i {:trigger l'[i]} | 0 <= i < size - 1 ensures l'[i] == l[i] {
      assert p[i + 1] != p[size];
    }
    assert l' == l + [bs'[p[size]]];
  }

  // ----- sorting the pointers

  ghost predicate Occurs(p: seq<int>, size: int, x: int) {
    exists k :: 1 <= k <= size && k < |p| && p[k] == x
  }

  /** Sorting permutes distinct pointers: they stay distinct. */
  lemma SortKeeps(p: seq<int>, q: seq<int>, size: int)
    requires Rearranged(p, q, 1, size) && 1 <= size < |p| && Pointers(p)
    ensures Pointers(q)
  {
    var s, t := p[1..size + 1], q[1..size + 1];
    SamePlaces(p, q, 1, size);
    forall i {:trigger q[i]} | 1 <= i <= size ensures Occurs(p, size, q[i]) {
      assert q[i] == t[i - 1] && t[i - 1] in multiset(t) && t[i - 1] in multiset(s);
      var k :| 0 <= k < |s| && s[k] == q[i];
      assert p[k + 1] == q[i];
    }
    forall i, j | 1 <= i < j < |q| ensures q[i] != q[j] {
      if j <= size {
        DistinctKept(s, t, i - 1, j - 1);
        assert t[i - 1] == q[i] && t[j - 1] == q[j];
      }
    }
  }

  lemma DistinctKept<T>(s: seq<T>, t: seq<T>, i: int, j: int)
    requires multiset(s) == multiset(t) && 0 <= i < j < |t|
    requires forall a, b :: 0 <= a < b < |s| ==> s[a] != s[b]
    ensures t[i] != t[j]
  {
    OnceEach(s, t[i]);
    assert t == t[..j] + t[j..];
    assert multiset(t) == multiset(t[..j]) + multiset(t[j..]);
    assert t[i] in t[..j] && t[j] in t[j..];
  }

  lemma {:induction false} OnceEach<T>(s: seq<T>, x: T)
    requires forall a, b :: 0 <= a < b < |s| ==> s[a] != s[b]
    ensures multiset(s)[x] <= 1
  {
    if s != [] {
      OnceEach(s[1..], x);
      assert s == [s[0]] + s[1..];
      if s[0] == x {
        assert x !in s[1..];
      }
    }
  }

  /** The entries that the pointers s point to. */
  ghost function Looked(bs: seq<Entry>, s: seq<int>): (l: seq<Entry>)
    requires forall i :: 0 <= i < |s| ==> 0 <= s[i] < |bs|
    ensures |l| == |s| && forall i {:trigger l[i]} :: 0 <= i < |s| ==> l[i] == bs[s[i]]
  {
    seq(|s|, i requires 0 <= i < |s| => bs[s[i]])
  }

  /** Permuted pointers point to permuted entries. */
  lemma {:induction false} LookedPermutes(bs: seq<Entry>, s: seq<int>, t: seq<int>)
    requires forall i :: 0 <= i < |s| ==> 0 <= s[i] < |bs|
    requires forall i :: 0 <= i < |t| ==> 0 <= t[i] < |bs|
    requires multiset(s) == multiset(t)
    ensures multiset(Looked(bs, s)) == multiset(Looked(bs, t))
  {
    if s == [] {
      assert |t| == |multiset(t)| == 0;
    } else {
      assert s[0] in multiset(t);
      var j :| 0 <= j < |t| && t[j] == s[0];
      var s', t' := Without(s, 0), Without(t, j);
      Cancel(multiset(s'), multiset(t'), s[0]);
      LookedPermutes(bs, s', t');
      LookedWithout(bs, s, 0);
      LookedWithout(bs, t, j);
    }
  }

  lemma Cancel(a: multiset<int>, b: multiset<int>, x: int)
    requires a + multiset{x} == b + multiset{x}
    ensures a == b
  {
    assert a == (a + multiset{x}) - multiset{x};
    assert b == (b + multiset{x}) - multiset{x};
  }

  function Without<T>(t: seq<T>, j: nat): (r: seq<T>)
    requires j < |t|
    ensures |r| == |t| - 1 && multiset(t) == multiset(r) + multiset{t[j]}
    ensures forall i {:trigger r[i]} :: 0 <= i < |r| ==> r[i] == t[if i < j then i else i + 1]
  {
    assert t == t[..j] + [t[j]] + t[j + 1..];
    t[..j] + t[j + 1..]
  }

  lemma LookedWithout(bs: seq<Entry>, t: seq<int>, j: nat)
    requires j < |t| && forall i :: 0 <= i < |t| ==> 0 <= t[i] < |bs|
    ensures multiset(Looked(bs, t)) == multiset(Looked(bs, Without(t, j))) + multiset{bs[t[j]]}
  {
    assert Looked(bs, Without(t, j)) == Without(Looked(bs, t), j);
  }

  lemma SortKeepsEntries(bs: seq<Entry>, p: seq<int>, q: seq<int>, size: int)
    requires Rearranged(p, q, 1, size) && 1 <= size < |p| == |bs| && Pointers(p) && Pointers(q)
    ensures multiset(Listed(bs, q, size)) == multiset(Listed(bs, p, size))
  {
    LookedPermutes(bs, p[1..size + 1], q[1..size + 1]);
    assert Listed(bs, p, size) == Looked(bs, p[1..size + 1]);
    assert Listed(bs, q, size) == Looked(bs, q[1..size + 1]);
  }

  /** After sorting, the first place has the largest key. */
  lemma SortedFront(bs: seq<Entry>, q: seq<int>, size: int)
    requires 1 <= size < |q| == |bs| && Pointers(q) && TopSorted(bs, q, 1, size)
    ensures Front(Listed(bs, q, size), bs[q[1]])
  {
    var l := Listed(bs, q, size);
    assert l[0] == bs[q[1]];
    forall x {:trigger x in l} | x in l ensures x.absCost <= bs[q[1]].absCost {
      var i :| 0 <= i < |l| && l[i] == x;
      if i > 0 { assert Key(bs, q[1]) >= Key(bs, q[i + 1]); }
    }
  }

  // ----- rechecking the basket

  /** The arcs of the entries at places lo .. hi-1. */
  ghost function ArcsAt(bs: seq<Entry>, p: seq<int>, lo: int, hi: int): (s: seq<int>)
    requires 0 <= lo <= hi <= |p| && forall i :: lo <= i < hi ==> 0 <= p[i] < |bs|
    ensures |s| == hi - lo && forall i {:trigger s[i]} :: 0 <= i < hi - lo ==> s[i] == bs[p[lo + i]].a
  {
    seq(hi - lo, i requires 0 <= i < hi - lo => bs[p[lo + i]].a)
  }

  lemma ListMore(bs: seq<Entry>, p: seq<int>, lo: int, hi: int)
    requires 1 <= lo <= hi < |p| == |bs| && Pointers(p)
    ensures ArcsAt(bs, p, lo, hi + 1) == ArcsAt(bs, p, lo, hi) + [bs[p[hi]].a]
  {
  }

  /** The places 1 .. next hold the entries of the kept arcs. */
  ghost predicate HoldsKept(ns: seq<Node>, es: seq<Arc>, n: int, stop: int, now: seq<Entry>, p: seq<int>,
                            kept: seq<int>)
    requires EndsInRange(ns, es, n, stop) && AllInfeasible(ns, es, n, stop, kept)
  {
    |kept| < |p| == |now| && Pointers(p) && Listed(now, p, |kept|) == KeptEntries(ns, es, n, stop, kept)
  }

  /** Of the entries bs, those before place i have been gone through, and the infeasible ones are
      repriced at the places up to next. */
  ghost predicate Rechecked(ns: seq<Node>, es: seq<Arc>, n: int, stop: int, bs: seq<Entry>, now: seq<Entry>,
                            p: seq<int>, i: int, next: int)
    requires EndsInRange(ns, es, n, stop)
  {
    && |bs| == |now| == |p| && Pointers(p) && 0 <= next < i - 1 && 2 <= i <= |p|
    && now[0] == bs[0]
    && (forall k {:trigger p[k]} :: i <= k < |p| ==> now[p[k]] == bs[p[k]])
    && next == |Survivors(ns, es, n, stop, ArcsAt(bs, p, 2, i))|
    && HoldsKept(ns, es, n, stop, now, p, Survivors(ns, es, n, stop, ArcsAt(bs, p, 2, i)))
  }

  lemma RecheckStart(ns: seq<Node>, es: seq<Arc>, n: int, stop: int, bs: seq<Entry>, p: seq<int>)
    requires EndsInRange(ns, es, n, stop) && 2 <= |p| == |bs| && Pointers(p)
    ensures Rechecked(ns, es, n, stop, bs, bs, p, 2, 0)
  {
  }

  /** Place i is not infeasible any more. */
  lemma DropOne(ns: seq<Node>, es: seq<Arc>, n: int, stop: int, bs: seq<Entry>, now: seq<Entry>, p: seq<int>, i: int,
                next: int)
    requires EndsInRange(ns, es, n, stop) && Rechecked(ns, es, n, stop, bs, now, p, i, next) && i < |p|
    requires !Infeasible(ns, es, n, stop, now[p[i]].a)
    ensures Rechecked(ns, es, n, stop, bs, now, p, i + 1, next)
  {
    ListMore(bs, p, 2, i);
    SurvivorsMore(ns, es, n, stop, ArcsAt(bs, p, 2, i), now[p[i]].a);
  }

  lemma KeepMore(ns: seq<Node>, es: seq<Arc>, n: int, stop: int, now: seq<Entry>, now': seq<Entry>, p: seq<int>,
                 kept: seq<int>, arc: int)
    requires EndsInRange(ns, es, n, stop) && AllInfeasible(ns, es, n, stop, kept) && Infeasible(ns, es, n, stop, arc)
    requires HoldsKept(ns, es, n, stop, now, p, kept) && |kept| + 1 < |p| && |now'| == |now|
    requires now' == now[p[|kept| + 1] := KeptEntry(ns, es, n, stop, arc)]
    ensures HoldsKept(ns, es, n, stop, now', p, kept + [arc])
  {
    Appended(now, now', p, |kept| + 1);
  }

  /** Place i is still infeasible and goes, repriced, to the place after next. */
  lemma KeepOne(ns: seq<Node>, es: seq<Arc>, n: int, stop: int, bs: seq<Entry>, now: seq<Entry>, now': seq<Entry>,
                p: seq<int>, i: int, next: int)
    requires EndsInRange(ns, es, n, stop) && Rechecked(ns, es, n, stop, bs, now, p, i, next) && i < |p|
    requires Infeasible(ns, es, n, stop, now[p[i]].a) && |now'| == |now|
    requires now' == now[p[next + 1] := KeptEntry(ns, es, n, stop, now[p[i]].a)]
    ensures Rechecked(ns, es, n, stop, bs, now', p, i + 1, next + 1)
  {
    ListMore(bs, p, 2, i);
    SurvivorsMore(ns, es, n, stop, ArcsAt(bs, p, 2, i), now[p[i]].a);
    KeepMore(ns, es, n, stop, now, now', p, Survivors(ns, es, n, stop, ArcsAt(bs, p, 2, i)), now[p[i]].a);
    forall k {:trigger p[k]} | i + 1 <= k < |p| ensures now'[p[k]] == bs[p[k]] {
      assert p[next + 1] != p[k];
    }
  }

  // ----- the call as a whole

  /** The entries of a call, in any order, are of infeasible arcs and have their reduced costs. */
  lemma ListedTruly(ns: seq<Node>, es: seq<Arc>, n: int, stop: int, kept: seq<int>, added: seq<int>, l: seq<Entry>,
                    x: Entry)
    requires EndsInRange(ns, es, n, stop) && AllInfeasible(ns, es, n, stop, kept)
      && AllInfeasible(ns, es, n, stop, added)
    requires multiset(l) == multiset(Entries(ns, es, n, stop, kept, added)) && x in l
    ensures x in Entries(ns, es, n, stop, kept, added)
    ensures Infeasible(ns, es, n, stop, x.a) && x.cost == ReducedCost(ns, es[x.a])
  {
    assert x in multiset(l);
    Keys(ns, es, n, stop, kept, added, x);
  }

  lemma PlacesInBounds(ns: seq<Node>, es: seq<Arc>, n: int, stop: int, kept: seq<int>, added: seq<int>,
                       bs: seq<Entry>, p: seq<int>, size: int)
    requires EndsInRange(ns, es, n, stop) && AllInfeasible(ns, es, n, stop, kept)
      && AllInfeasible(ns, es, n, stop, added)
    requires 0 <= size < |p| == |bs| && Pointers(p)
    requires multiset(Listed(bs, p, size)) == multiset(Entries(ns, es, n, stop, kept, added))
    ensures forall i :: 1 <= i <= size ==> n <= bs[p[i]].a < stop
  {
    var l := Listed(bs, p, size);
    forall i | 1 <= i <= size ensures n <= bs[p[i]].a < stop {
      assert l[i - 1] in l;
      ListedTruly(ns, es, n, stop, kept, added, l, l[i - 1]);
    }
  }

  /** Nothing kept and nothing priced: nothing is infeasible. */
  lemma NothingInfeasible(ns: seq<Node>, es: seq<Arc>, n: int, stop: int, nr: int, guarded: bool, pos: int)
    requires EndsInRange(ns, es, n, stop) && 0 <= pos < nr
    requires GroupsRun(ns, es, n, stop, nr, guarded, pos, pos, false, 0).0 == []
    ensures NoneInfeasible(ns, es, n, stop)
  {
    forall e | n <= e < stop ensures !Infeasible(ns, es, n, stop, e) {
      if Infeasible(ns, es, n, stop, e) {
        GroupsRunAll(ns, es, n, stop, nr, guarded, pos, pos, false, 0, e);
      }
    }
  }

  // ----- the largest reduced cost

  /** The entry with the largest key has the largest absolute reduced cost in the basket exactly if
      no arc kept at its lower bound is hidden by its key. */
  lemma ListLargestIff(ns: seq<Node>, es: seq<Arc>, n: int, stop: int, kept: seq<int>, added: seq<int>,
                       l: seq<Entry>, best: Entry)
    requires EndsInRange(ns, es, n, stop) && AllInfeasible(ns, es, n, stop, kept)
      && AllInfeasible(ns, es, n, stop, added)
    requires multiset(l) == multiset(Entries(ns, es, n, stop, kept, added)) && Front(l, best)
    ensures Largest(l, best) <==> NoneHidden(ns, es, n, stop, kept, added)
  {
    var entries := Entries(ns, es, n, stop, kept, added);
    forall x ensures x in l <==> x in entries {
      assert x in multiset(l) <==> x in multiset(entries);
    }
    LargestIff(ns, es, n, stop, kept, added, best);
  }

  /** If the basket has not been filled, it is the largest of all arcs, whatever has been kept. */
  lemma UnfilledIsLargest(ns: seq<Node>, es: seq<Arc>, n: int, stop: int, nr: int, guarded: bool, pos: int,
                          kept: seq<int>, added: seq<int>, l: seq<Entry>, best: Entry)
    requires EndsInRange(ns, es, n, stop) && 0 <= pos < nr && AllInfeasible(ns, es, n, stop, kept)
    requires added == GroupsRun(ns, es, n, stop, nr, guarded, pos, pos, false, |kept|).0 && |kept| + |added| < B
    requires multiset(l) == multiset(Entries(ns, es, n, stop, kept, added)) && Front(l, best)
    ensures LargestOfAll(ns, es, n, stop, best.cost)
  {
    ListedTruly(ns, es, n, stop, kept, added, l, best);
    Keys(ns, es, n, stop, kept, added, best);
    forall e | Infeasible(ns, es, n, stop, e) ensures Abs(ReducedCost(ns, es[e])) <= Abs(best.cost) {
      GroupsRunAll(ns, es, n, stop, nr, guarded, pos, pos, false, |kept|, e);
      NoLarger(ns, es, n, stop, kept, added, l, best, e);
    }
  }

  lemma NoLarger(ns: seq<Node>, es: seq<Arc>, n: int, stop: int, kept: seq<int>, added: seq<int>,
                 l: seq<Entry>, best: Entry, e: int)
    requires EndsInRange(ns, es, n, stop) && AllInfeasible(ns, es, n, stop, kept)
      && AllInfeasible(ns, es, n, stop, added)
    requires multiset(l) == multiset(Entries(ns, es, n, stop, kept, added)) && Front(l, best)
    requires e in added && n <= e < stop && best.absCost <= Abs(best.cost)
    ensures Abs(ReducedCost(ns, es[e])) <= Abs(best.cost)
  {
    var x := NewEntry(ns, es, n, stop, e);
    TrueKeyEntry(ns, es, n, stop, kept, added, e);
    assert x in multiset(Entries(ns, es, n, stop, kept, added));
    assert x in multiset(l);
    assert x in l;
  }

  class Pricer {
    const guarded: bool
    const basket: array<Entry>
    const perm: array<int>
    var basketSize: int
    var initialize: bool
    // the range of arcs that the entries left in the basket come from
    ghost var first: int
    ghost var last: int

    /** The static state is only meaningful once `initialize` has been cleared. */
    ghost predicate Valid()
      reads this, basket, perm
    {
      && basket.Length == perm.Length == B + K + 1
      && (!initialize ==> Open() && InBounds() && GroupsOk())
    }

    /** The places 1 .. basketSize hold the entries. */
    ghost predicate Open()
      reads `basketSize, perm
    {
      basket.Length == perm.Length == B + K + 1 && Pointers(perm[..]) && 0 <= basketSize < B + K
    }

    /** The entries, in the order of their places. */
    ghost function List(): seq<Entry>
      reads `basketSize, basket, perm
      requires Open()
    {
      Listed(basket[..], perm[..], basketSize)
    }

    ghost predicate InBounds()
      reads this, basket, perm
      requires Open()
    {
      forall i :: 1 <= i <= basketSize ==> first <= basket[perm[i]].a < last
    }

    /** Entry 0 holds the number of groups and the next group. */
    ghost predicate GroupsOk()
      reads this, basket
      requires basket.Length > 0
    {
      && 0 < basket[0].cost && 0 <= basket[0].absCost < basket[0].cost
      && Spread(last - first, basket[0].cost)
    }

    constructor (guarded: bool)
      ensures Valid() && initialize && this.guarded == guarded && fresh(basket) && fresh(perm)
    {
      this.guarded := guarded;
      basket := new Entry[B + K + 1](_ => Entry(0, 0, 0));
      perm := new int[B + K + 1](_ => NULL);
      basketSize, initialize := 0, true;
    }

    // ----- what a call will do, from the state before it

    /** The arcs of the places 2 .. B that are still infeasible, unless the basket is set up anew. */
    ghost function KeptArcs(ns: seq<Node>, es: seq<Arc>, n: int, stop: int): (s: seq<int>)
      reads this, basket, perm
      requires Valid() && EndsInRange(ns, es, n, stop)
      ensures |s| < B && AllInfeasible(ns, es, n, stop, s) && (initialize ==> s == [])
    {
      if initialize then [] else Survivors(ns, es, n, stop, ArcsAt(basket[..], perm[..], 2, RecheckEnd()))
    }

    /** Those are all the infeasible arcs of these places, and no others. */
    lemma KeptExactly(ns: seq<Node>, es: seq<Arc>, n: int, stop: int, a: int)
      requires Valid() && EndsInRange(ns, es, n, stop) && !initialize
      ensures a in KeptArcs(ns, es, n, stop) <==>
        && Infeasible(ns, es, n, stop, a)
        && exists k {:trigger perm[k]} :: 2 <= k <= B && k <= basketSize && basket[perm[k]].a == a
    {
      var s := ArcsAt(basket[..], perm[..], 2, RecheckEnd());
      SurvivorsAre(ns, es, n, stop, s, a);
      if a in s {
        var i :| 0 <= i < |s| && s[i] == a;
        assert basket[perm[2 + i]].a == a;
      }
      if k :| 2 <= k <= B && k <= basketSize && basket[perm[k]].a == a {
        assert s[k - 2] == a;
      }
    }

    ghost function Groups(n: int, stop: int): (nr: int)
      reads this, basket
      requires basket.Length > 0 && n <= stop
      ensures if initialize then Spread(stop - n, nr) && (nr == 1 || !Spread(stop - n, nr - 1))
              else nr == basket[0].cost
    {
      if initialize then GroupsFor(stop - n) else basket[0].cost
    }

    ghost function Position(): int
      reads this, basket
      requires basket.Length > 0
    {
      if initialize then 0 else basket[0].absCost
    }

    /** The arcs that are priced and appended, and the position after that. */
    ghost function Priced(ns: seq<Node>, es: seq<Arc>, n: int, stop: int): (r: (seq<int>, int))
      reads this, basket, perm
      requires Valid() && EndsInRange(ns, es, n, stop)
      ensures AllInfeasible(ns, es, n, stop, r.0)
    {
      GroupsRun(ns, es, n, stop, Groups(n, stop), guarded, Position(), Position(), false, |KeptArcs(ns, es, n, stop)|)
    }

    /** One past the last place that Recheck looks at. */
    ghost function RecheckEnd(): int
      reads this
    {
      if basketSize < 2 then 2 else if basketSize <= B then basketSize + 1 else B + 1
    }

    // ----- keeping

    /** First call: the pointers are set up and the basket is empty. */
    method SetUp()
      requires Valid()
      modifies this, basket, perm
      ensures Open() && basketSize == 0 && !initialize && basket[0].cost == 0
    {
      var i := 1;
      while i < K + B + 1
        invariant 1 <= i <= K + B + 1
        invariant forall k :: 1 <= k < i ==> perm[k] == k
      {
        perm[i] := i;
        i := i + 1;
      }
      basketSize := 0;
      initialize := false;
      basket[0] := basket[0].(cost := 0, absCost := 0);
    }

    /** Later calls: of the entries 2 .. B those still infeasible are kept, moved to the front
        and repriced. */
    method Recheck(nodes: array<Node>, arcs: array<Arc>, n: int, stop: int)
      requires Valid() && !initialize && first == n && last == stop
      requires EndsInRange(nodes[..], arcs[..], n, stop)
      modifies this`basketSize, basket
      ensures Open() && basketSize < B && basket[0] == old(basket[0])
      ensures List() == KeptEntries(nodes[..], arcs[..], n, stop, old(KeptArcs(nodes[..], arcs[..], n, stop)))
    {
      RecheckStart(nodes[..], arcs[..], n, stop, basket[..], perm[..]);
      basketSize := RecheckAll(nodes, arcs, n, stop, RecheckEnd(), basket[..]);
    }

    /** The loop, up to the end that its two conditions set. */
    method RecheckAll(nodes: array<Node>, arcs: array<Arc>, n: int, stop: int, ghost end: int, ghost bs: seq<Entry>)
      returns (next: int)
      requires EndsInRange(nodes[..], arcs[..], n, stop) && basket.Length == perm.Length == B + K + 1
        && end == RecheckEnd()
      requires Rechecked(nodes[..], arcs[..], n, stop, bs, basket[..], perm[..], 2, 0)
      requires forall k {:trigger perm[k]} :: 2 <= k < end ==> n <= bs[perm[k]].a < stop
      modifies basket
      ensures next < B && Rechecked(nodes[..], arcs[..], n, stop, bs, basket[..], perm[..], end, next)
    {
      ghost var ns, es := nodes[..], arcs[..];
      var i := 2;
      next := 0;
      while i <= B && i <= basketSize
        invariant 2 <= i <= end && next < B
        invariant Rechecked(ns, es, n, stop, bs, basket[..], perm[..], i, next)
        decreases B - i
      {
        assert basket[perm[i]] == bs[perm[i]];
        i, next := RecheckOne(nodes, arcs, n, stop, i, next, bs, ns, es);
      }
    }

    /** An entry that is still infeasible goes to the place after next. */
    method Keep(ghost ns: seq<Node>, ghost es: seq<Arc>, ghost n: int, ghost stop: int, ghost bs: seq<Entry>,
                i: int, next: int, arc: int, redCost: int)
      requires EndsInRange(ns, es, n, stop) && basket.Length == perm.Length && i < perm.Length
      requires Rechecked(ns, es, n, stop, bs, basket[..], perm[..], i, next)
      requires arc == basket[perm[i]].a && Infeasible(ns, es, n, stop, arc) && redCost == ReducedCost(ns, es[arc])
      modifies basket
      ensures Rechecked(ns, es, n, stop, bs, basket[..], perm[..], i + 1, next + 1)
    {
      ghost var now := basket[..];
      basket[perm[next + 1]] := Entry(arc, redCost, redCost);
      KeepOne(ns, es, n, stop, bs, now, basket[..], perm[..], i, next);
    }

    /** The body of the loop. */
    method RecheckOne(nodes: array<Node>, arcs: array<Arc>, n: int, stop: int, i: int, next: int, ghost bs: seq<Entry>,
                      ghost ns: seq<Node>, ghost es: seq<Arc>)
      returns (i': int, next': int)
      requires ns == nodes[..] && es == arcs[..] && basket.Length == perm.Length && i < perm.Length
      requires EndsInRange(ns, es, n, stop) && Rechecked(ns, es, n, stop, bs, basket[..], perm[..], i, next)
      requires n <= basket[perm[i]].a < stop
      modifies basket
      ensures i' == i + 1 && next <= next' <= next + 1
      ensures Rechecked(ns, es, n, stop, bs, basket[..], perm[..], i', next')
    {
      var arc := basket[perm[i]].a;
      var redCost := arcs[arc].cost - nodes[arcs[arc].tail].potential + nodes[arcs[arc].head].potential;
      assert redCost == ReducedCost(ns, es[arc]);
      if IsDualInfeasible(arcs[arc].ident, redCost) {
        Keep(ns, es, n, stop, bs, i, next, arc, redCost);
        i', next' := i + 1, next + 1;
      } else {
        DropOne(ns, es, n, stop, bs, basket[..], perm[..], i, next);
        i', next' := i + 1, next;
      }
    }

    // ----- pricing

    /** remote and remote1: append the arc when it is infeasible and, if guarded, there is room. */
    method Remote(nodes: array<Node>, arcs: array<Arc>, n: int, stop: int, arc: int)
      requires Open() && basketSize < B + K - 1
      requires EndsInRange(nodes[..], arcs[..], n, stop) && n <= arc < stop
      modifies this`basketSize, basket
      ensures Open() && basket[0] == old(basket[0])
      ensures List() == old(List())
        + if Infeasible(nodes[..], arcs[..], n, stop, arc) && Room(guarded, old(basketSize))
          then [NewEntry(nodes[..], arcs[..], n, stop, arc)] else []
    {
      var redCost := arcs[arc].cost - nodes[arcs[arc].tail].potential + nodes[arcs[arc].head].potential;
      if IsDualInfeasible(arcs[arc].ident, redCost) {
        if !guarded || basketSize < B {
          Append(arc, redCost);
        }
      }
    }

    method Append(arc: int, redCost: int)
      requires Open() && basketSize < B + K - 1
      modifies this`basketSize, basket
      ensures Open() && basket[0] == old(basket[0])
      ensures List() == old(List()) + [Entry(arc, redCost, Abs(redCost))]
    {
      ghost var bs := basket[..];
      basketSize := basketSize + 1;
      basket[perm[basketSize]] := Entry(arc, redCost, if redCost >= 0 then redCost else -redCost);
      Appended(bs, basket[..], perm[..], basketSize);
    }

    /** These arcs have been added to the list l0. */
    ghost predicate Grown(ns: seq<Node>, es: seq<Arc>, n: int, stop: int, size0: int, l0: seq<Entry>, added: seq<int>)
      reads `basketSize, basket, perm
      requires EndsInRange(ns, es, n, stop) && Open()
    {
      && AllInfeasible(ns, es, n, stop, added) && basketSize == size0 + |added|
      && List() == l0 + NewEntries(ns, es, n, stop, added)
    }

    /** One arc of a group. */
    method PriceArc(nodes: array<Node>, arcs: array<Arc>, n: int, stop: int, arc: int, ghost nr: int,
                    ghost size0: int, ghost l0: seq<Entry>, ghost added: seq<int>, ghost run: seq<int>,
                    ghost ns: seq<Node>, ghost es: seq<Arc>)
      returns (next: int, ghost added': seq<int>)
      requires Open() && basketSize < B + K - 1 && ns == nodes[..] && es == arcs[..]
      requires EndsInRange(ns, es, n, stop) && n <= arc < stop && 0 < nr == basket[0].cost
      requires Grown(ns, es, n, stop, size0, l0, added)
      requires InGroup(ns, es, n, stop, nr, guarded, arc, basketSize, added, run)
      modifies this`basketSize, basket
      ensures Open() && basket[0] == old(basket[0]) && next == arc + nr
      ensures |added'| <= |added| + 1 && Grown(ns, es, n, stop, size0, l0, added')
      ensures InGroup(ns, es, n, stop, nr, guarded, next, basketSize, added', run)
    {
      ghost var size := basketSize;
      ghost var more := if Infeasible(ns, es, n, stop, arc) && Room(guarded, size) then [arc] else [];
      Remote(nodes, arcs, n, stop, arc);
      next, added' := arc + basket[0].cost, added + more;
      NewEntriesMore(ns, es, n, stop, added, more);
      GroupRunStep(ns, es, n, stop, nr, guarded, arc, size, added, more, next, basketSize, run);
    }

    /** The inner loop: price the arcs of the group at the current position. */
    method PriceGroup(nodes: array<Node>, arcs: array<Arc>, n: int, stop: int) returns (ghost added: seq<int>)
      requires Open() && GroupsOk() && first == n && last == stop && basketSize < B
      requires EndsInRange(nodes[..], arcs[..], n, stop)
      modifies this`basketSize, basket
      ensures Open() && basket[0] == old(basket[0])
      ensures added == GroupRun(nodes[..], arcs[..], n, stop, basket[0].cost, guarded,
                                n + basket[0].absCost, old(basketSize))
      ensures Grown(nodes[..], arcs[..], n, stop, old(basketSize), old(List()), added)
    {
      ghost var ns, es := nodes[..], arcs[..];
      ghost var nr, pos, size0, l0 := basket[0].cost, basket[0].absCost, basketSize, List();
      added := [];
      ghost var run := GroupRun(ns, es, n, stop, nr, guarded, n + pos, size0);
      ghost var t: nat := 0;
      assert Spread(stop - n, nr);
      var arc := n + basket[0].absCost;
      assert l0 + NewEntries(ns, es, n, stop, []) == l0 && [] + run == run;
      while arc < stop
        invariant n <= arc && arc - n == pos + Strides(t, nr) && |added| <= t
        invariant Open() && basket[0] == old(basket[0])
        invariant Grown(ns, es, n, stop, size0, l0, added)
        invariant InGroup(ns, es, n, stop, nr, guarded, arc, basketSize, added, run)
        decreases stop - arc
      {
        GroupSize(n, stop, nr, pos, t, arc, arc + nr);
        arc, added := PriceArc(nodes, arcs, n, stop, arc, nr, size0, l0, added, run, ns, es);
        t := t + 1;
      }
      GroupRunDone(ns, es, n, stop, nr, guarded, arc, basketSize, added, run);
    }

    /** The position goes on to the next group, around the end. */
    method NextGroup()
      requires Open() && GroupsOk()
      modifies basket
      ensures GroupsOk() && basket[0].cost == old(basket[0].cost)
      ensures basket[0].absCost == NextPos(old(basket[0].absCost), basket[0].cost) && List() == old(List())
    {
      basket[0] := basket[0].(absCost := basket[0].absCost + 1);
      if basket[0].absCost == basket[0].cost {
        basket[0] := basket[0].(absCost := 0);
      }
    }

    /** One round of the do-while loop. */
    method PriceAndMove(nodes: array<Node>, arcs: array<Arc>, n: int, stop: int,
                        ghost size0: int, ghost l0: seq<Entry>, ghost added: seq<int>) returns (ghost more: seq<int>)
      requires Open() && GroupsOk() && first == n && last == stop && basketSize < B
      requires EndsInRange(nodes[..], arcs[..], n, stop) && Grown(nodes[..], arcs[..], n, stop, size0, l0, added)
      modifies this`basketSize, basket
      ensures Open() && GroupsOk() && basket[0].cost == old(basket[0].cost)
      ensures basket[0].absCost == NextPos(old(basket[0].absCost), basket[0].cost)
      ensures more == GroupRun(nodes[..], arcs[..], n, stop, basket[0].cost, guarded,
                               n + old(basket[0].absCost), old(basketSize))
      ensures guarded ==> basketSize <= B
      ensures basketSize == old(basketSize) + |more| && Grown(nodes[..], arcs[..], n, stop, size0, l0, added + more)
    {
      ghost var ns, es := nodes[..], arcs[..];
      more := PriceGroup(nodes, arcs, n, stop);
      NewEntriesMore(ns, es, n, stop, added, more);
      NextGroup();
    }

    /** The do-while loop over the groups: until the basket holds B entries or every group has
        had its turn. */
    method PriceGroups(nodes: array<Node>, arcs: array<Arc>, n: int, stop: int)
      requires Open() && GroupsOk() && first == n && last == stop && basketSize < B
      requires EndsInRange(nodes[..], arcs[..], n, stop)
      modifies this`basketSize, basket
      ensures Open() && GroupsOk() && basket[0].cost == old(basket[0].cost) && (guarded ==> basketSize <= B)
      ensures var run := GroupsRun(nodes[..], arcs[..], n, stop, basket[0].cost, guarded,
                                   old(basket[0].absCost), old(basket[0].absCost), false, old(basketSize));
        List() == old(List()) + NewEntries(nodes[..], arcs[..], n, stop, run.0) && basket[0].absCost == run.1
    {
      var oldGroupPos := basket[0].absCost;
      ghost var ns, es, nr, size0, l0 := nodes[..], arcs[..], basket[0].cost, basketSize, List();
      ghost var run := GroupsRun(ns, es, n, stop, nr, guarded, oldGroupPos, oldGroupPos, false, size0);
      ghost var added: seq<int>, wrapped := [], false;
      assert l0 + NewEntries(ns, es, n, stop, added) == l0;
      assert ToCome(ns, es, n, stop, nr, guarded, oldGroupPos, oldGroupPos, wrapped, size0, added, run) by {
        assert added + run.0 == run.0;
      }
      while true
        invariant Open() && GroupsOk() && basket[0].cost == nr && basketSize < B
        invariant Ahead(oldGroupPos, basket[0].absCost, wrapped, nr)
        invariant Grown(ns, es, n, stop, size0, l0, added)
        invariant ToCome(ns, es, n, stop, nr, guarded, oldGroupPos, basket[0].absCost, wrapped, basketSize, added, run)
        decreases if wrapped then oldGroupPos - basket[0].absCost else nr - basket[0].absCost + oldGroupPos
      {
        ghost var pos, size := basket[0].absCost, basketSize;
        ghost var more := PriceAndMove(nodes, arcs, n, stop, size0, l0, added);
        ToComeStep(ns, es, n, stop, nr, guarded, oldGroupPos, pos, wrapped, size, added, run, more, basketSize);
        added, wrapped := added + more, wrapped || pos + 1 == nr;
        if !(basketSize < B && basket[0].absCost != oldGroupPos) {
          break;
        }
      }
    }

    // ----- the call

    /** Sorting the basket brings an entry with the largest key to the front. */
    method BestEntry() returns (best: Entry)
      requires Open() && 1 <= basketSize
      modifies perm
      ensures Open() && multiset(List()) == old(multiset(List())) && best == basket[perm[1]] && Front(List(), best)
    {
      ghost var p := perm[..];
      SortBasket(basket, perm, 1, basketSize);
      SortKeeps(p, perm[..], basketSize);
      SortKeepsEntries(basket[..], p, perm[..], basketSize);
      SortedFront(basket[..], perm[..], basketSize);
      best := basket[perm[1]];
    }

    /** The number of groups for the arcs n .. stop-1, unless it is set already. */
    method SetGroups(n: int, stop: int)
      requires Open() && 0 <= n <= stop && first == n && last == stop
      requires basket[0].cost == 0 || GroupsOk()
      modifies basket
      ensures GroupsOk() && List() == old(List())
      ensures basket[0].cost == (if old(basket[0].cost) == 0 then GroupsFor(stop - n) else old(basket[0].cost))
      ensures basket[0].absCost == (if old(basket[0].cost) == 0 then 0 else old(basket[0].absCost))
    {
      if basket[0].cost == 0 {
        var m := stop - n;
        var groups := if m == 0 then 1 else (m - 1) / K + 1;
        assert groups == GroupsFor(m);
        basket[0] := basket[0].(cost := groups, absCost := 0);
      }
    }

    /** The part of a call before the pricing loop. */
    method Prepare(nodes: array<Node>, arcs: array<Arc>, n: int, stop: int)
      requires Valid() && EndsInRange(nodes[..], arcs[..], n, stop)
      requires !initialize ==> first == n && last == stop
      modifies this, basket, perm
      ensures Open() && GroupsOk() && !initialize && first == n && last == stop && basketSize < B
      ensures List() == KeptEntries(nodes[..], arcs[..], n, stop, old(KeptArcs(nodes[..], arcs[..], n, stop)))
      ensures basket[0].cost == old(Groups(n, stop)) && basket[0].absCost == old(Position())
    {
      if initialize {
        SetUp();
        first, last := n, stop;
      } else {
        Recheck(nodes, arcs, n, stop);
      }
      SetGroups(n, stop);
    }

    /** Everything up to the sorting. */
    method Fill(nodes: array<Node>, arcs: array<Arc>, n: int, stop: int)
      requires Valid() && EndsInRange(nodes[..], arcs[..], n, stop)
      requires !initialize ==> first == n && last == stop
      modifies this, basket, perm
      ensures Open() && GroupsOk() && !initialize && first == n && last == stop && (guarded ==> basketSize <= B)
      ensures var kept, run := old(KeptArcs(nodes[..], arcs[..], n, stop)), old(Priced(nodes[..], arcs[..], n, stop));
        List() == Entries(nodes[..], arcs[..], n, stop, kept, run.0) && basket[0].absCost == run.1
      ensures basket[0].cost == old(Groups(n, stop))
    {
      Prepare(nodes, arcs, n, stop);
      PriceGroups(nodes, arcs, n, stop);
    }

    /** The basket holds what was kept and what was added. The arc at the front is infeasible,
        and its reduced cost is the largest in the basket exactly if no kept arc is hidden by its key. */
    ghost predicate Chosen(ns: seq<Node>, es: seq<Arc>, n: int, stop: int, kept: seq<int>, added: seq<int>, bea: int,
                           redCost: int)
      reads `basketSize, basket, perm
      requires EndsInRange(ns, es, n, stop) && AllInfeasible(ns, es, n, stop, kept)
        && AllInfeasible(ns, es, n, stop, added)
    {
      && Open() && basketSize == |kept| + |added| && basketSize > 0
      && multiset(List()) == multiset(Entries(ns, es, n, stop, kept, added)) && Front(List(), basket[perm[1]])
      && bea == basket[perm[1]].a && redCost == basket[perm[1]].cost
      && Infeasible(ns, es, n, stop, bea) && redCost == ReducedCost(ns, es[bea])
      && (Largest(List(), basket[perm[1]]) <==> NoneHidden(ns, es, n, stop, kept, added))
    }

    /** From the sorting on. */
    method Choose(ghost ns: seq<Node>, ghost es: seq<Arc>, ghost n: int, ghost stop: int, ghost kept: seq<int>,
                  ghost added: seq<int>)
      returns (bea: int, redCost: int)
      requires EndsInRange(ns, es, n, stop) && AllInfeasible(ns, es, n, stop, kept)
        && AllInfeasible(ns, es, n, stop, added)
      requires Open() && basketSize > 0 && List() == Entries(ns, es, n, stop, kept, added)
      modifies perm
      ensures Chosen(ns, es, n, stop, kept, added, bea, redCost)
      ensures forall i :: 1 <= i <= basketSize ==> n <= basket[perm[i]].a < stop
    {
      var best := BestEntry();
      ListedTruly(ns, es, n, stop, kept, added, List(), best);
      PlacesInBounds(ns, es, n, stop, kept, added, basket[..], perm[..], basketSize);
      ListLargestIff(ns, es, n, stop, kept, added, List(), best);
      bea, redCost := best.a, best.cost;
    }

    /** primal_bea_mpp: the basket holds what was kept and what was priced, and the entry with the
        largest key is returned; or NULL when there is none, and then no arc is infeasible. In a
        first call its reduced cost is the largest in the basket, and in a call that does not fill
        the basket the largest of all. */
    method PrimalBeaMpp(nodes: array<Node>, arcs: array<Arc>, n: int, stop: int)
      returns (bea: int, redCost: int, ghost kept: seq<int>, ghost added: seq<int>)
      requires Valid() && EndsInRange(nodes[..], arcs[..], n, stop)
      requires !initialize ==> first == n && last == stop
      modifies this, basket, perm
      ensures Valid() && (initialize <==> bea == NULL)
      ensures kept == old(KeptArcs(nodes[..], arcs[..], n, stop))
        && added == old(Priced(nodes[..], arcs[..], n, stop)).0
      ensures bea == NULL <==> kept + added == []
      ensures bea == NULL ==> redCost == 0 && NoneInfeasible(nodes[..], arcs[..], n, stop)
      ensures bea != NULL ==> Chosen(nodes[..], arcs[..], n, stop, kept, added, bea, redCost)
      ensures bea != NULL ==>
        && first == n && last == stop && (guarded ==> basketSize <= B)
        && basket[0].cost == old(Groups(n, stop)) && basket[0].absCost == old(Priced(nodes[..], arcs[..], n, stop)).1
      ensures bea != NULL && old(initialize) ==> kept == [] && Largest(List(), basket[perm[1]])
      ensures bea != NULL && basketSize < B ==> LargestOfAll(nodes[..], arcs[..], n, stop, redCost)
    {
      ghost var ns, es, pos, nr := nodes[..], arcs[..], Position(), Groups(n, stop);
      kept, added := KeptArcs(ns, es, n, stop), Priced(ns, es, n, stop).0;
      Fill(nodes, arcs, n, stop);
      if basketSize == 0 {
        NothingInfeasible(ns, es, n, stop, nr, guarded, pos);
        initialize := true;
        return NULL, 0, kept, added;
      }
      bea, redCost := Choose(ns, es, n, stop, kept, added);
      if basketSize < B {
        UnfilledIsLargest(ns, es, n, stop, nr, guarded, pos, kept, added, List(), basket[perm[1]]);
      }
    }
  }
}
