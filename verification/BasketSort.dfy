/** bench/mcf/pbeampp.c, sort_basket: a quicksort of the basket pointers by falling key that
    leaves alone whatever lies beyond the first B places. The key is the field `abs_cost`. */
module BasketSort {
  const K := 300
  const B := 50

  datatype Entry = Entry(a: int, cost: int, absCost: int)

  /** The places lo .. hi of perm point into the basket. */
  ghost predicate PointsIn(basket: seq<Entry>, perm: seq<int>, lo: int, hi: int) {
    0 <= lo && hi < |perm| && forall i :: lo <= i <= hi ==> 0 <= perm[i] < |basket|
  }

  function Key(basket: seq<Entry>, i: int): int
    requires 0 <= i < |basket|
  {
    basket[i].absCost
  }

  ghost predicate AllAtLeast(basket: seq<Entry>, s: seq<int>, cut: int) {
    forall i :: 0 <= i < |s| ==> 0 <= s[i] < |basket| && Key(basket, s[i]) >= cut
  }

  ghost predicate AllAtMost(basket: seq<Entry>, s: seq<int>, cut: int) {
    forall i :: 0 <= i < |s| ==> 0 <= s[i] < |basket| && Key(basket, s[i]) <= cut
  }

  /** Every place up to B holds a key no smaller than all keys behind it. */
  ghost predicate TopSorted(basket: seq<Entry>, perm: seq<int>, lo: int, hi: int)
    requires PointsIn(basket, perm, lo, hi)
  {
    forall i, j :: lo <= i < j <= hi && i <= B ==> Key(basket, perm[i]) >= Key(basket, perm[j])
  }

  /** s and t hold the same elements, and agree outside lo .. hi. */
  ghost predicate Rearranged(s: seq<int>, t: seq<int>, lo: int, hi: int) {
    && |s| == |t| && 0 <= lo <= hi + 1 <= |s|
    && s[..lo] == t[..lo] && s[hi + 1..] == t[hi + 1..]
    && multiset(s[lo..hi + 1]) == multiset(t[lo..hi + 1])
  }

  lemma PermutedAtLeast(basket: seq<Entry>, s: seq<int>, t: seq<int>, cut: int)
    requires multiset(s) == multiset(t) && AllAtLeast(basket, s, cut)
    ensures AllAtLeast(basket, t, cut)
  {
    forall i | 0 <= i < |t| ensures 0 <= t[i] < |basket| && Key(basket, t[i]) >= cut {
      assert t[i] in multiset(t);
      assert t[i] in multiset(s);
    }
  }

  lemma PermutedAtMost(basket: seq<Entry>, s: seq<int>, t: seq<int>, cut: int)
    requires multiset(s) == multiset(t) && AllAtMost(basket, s, cut)
    ensures AllAtMost(basket, t, cut)
  {
    forall i | 0 <= i < |t| ensures 0 <= t[i] < |basket| && Key(basket, t[i]) <= cut {
      assert t[i] in multiset(t);
      assert t[i] in multiset(s);
    }
  }

  lemma SliceSplit(s: seq<int>, lo: int, a: int, b: int, hi: int)
    requires 0 <= lo <= a <= b + 1 <= hi + 1 <= |s|
    ensures s[lo..hi + 1] == s[lo..a] + s[a..b + 1] + s[b + 1..hi + 1]
  {
  }

  /** Rearranging a part rearranges the whole range. */
  lemma RearrangedWithin(s: seq<int>, t: seq<int>, a: int, b: int, lo: int, hi: int)
    requires Rearranged(s, t, a, b) && 0 <= lo <= a && b <= hi < |s|
    ensures Rearranged(s, t, lo, hi)
  {
    SliceSplit(s, lo, a, b, hi);
    SliceSplit(t, lo, a, b, hi);
    assert s[lo..a] == s[..a][lo..] && t[lo..a] == t[..a][lo..];
    assert s[b + 1..hi + 1] == s[b + 1..][..hi - b] && t[b + 1..hi + 1] == t[b + 1..][..hi - b];
    assert s[..lo] == s[..a][..lo] && t[..lo] == t[..a][..lo];
    assert s[hi + 1..] == s[b + 1..][hi - b..] && t[hi + 1..] == t[b + 1..][hi - b..];
  }

  lemma RearrangedTrans(s: seq<int>, t: seq<int>, u: seq<int>, lo: int, hi: int)
    requires Rearranged(s, t, lo, hi) && Rearranged(t, u, lo, hi)
    ensures Rearranged(s, u, lo, hi)
  {
  }

  lemma Unmoved(s: seq<int>, lo: int, hi: int)
    requires 0 <= lo <= hi + 1 <= |s|
    ensures Rearranged(s, s, lo, hi)
  {
  }

  lemma SwapSame(u: seq<int>, a: int, b: int)
    requires 0 <= a < b < |u|
    ensures multiset(u[a := u[b]][b := u[a]]) == multiset(u)
  {
  }

  lemma SwapRearranges(s: seq<int>, i: int, j: int, lo: int, hi: int)
    requires 0 <= lo <= i < j <= hi < |s|
    ensures Rearranged(s, s[i := s[j]][j := s[i]], lo, hi)
  {
    var t, u, a, b := s[i := s[j]][j := s[i]], s[lo..hi + 1], i - lo, j - lo;
    var v, w := u[a := u[b]][b := u[a]], t[lo..hi + 1];
    forall k {:trigger w[k]} | 0 <= k < |w| ensures w[k] == v[k] {
      assert w[k] == t[lo + k];
    }
    assert w == v;
    SwapSame(u, a, b);
  }

  ghost predicate KeysAtLeast(basket: seq<Entry>, perm: seq<int>, lo: int, hi: int, cut: int) {
    0 <= lo && hi <= |perm| && forall k :: lo <= k < hi ==> 0 <= perm[k] < |basket| && Key(basket, perm[k]) >= cut
  }

  ghost predicate KeysAtMost(basket: seq<Entry>, perm: seq<int>, lo: int, hi: int, cut: int) {
    0 <= lo && hi <= |perm| && forall k :: lo <= k < hi ==> 0 <= perm[k] < |basket| && Key(basket, perm[k]) <= cut
  }

  /** The first inner loop; `stop` is a place it cannot run past. */
  method ScanUp(basket: array<Entry>, perm: array<int>, from: int, cut: int, ghost min: int, ghost max: int,
                ghost stop: int)
    returns (l: int)
    requires 0 <= min <= from <= stop <= max && PointsIn(basket[..], perm[..], min, max)
    requires KeysAtLeast(basket[..], perm[..], min, from, cut) && Key(basket[..], perm[stop]) <= cut
    ensures from <= l <= stop && KeysAtLeast(basket[..], perm[..], min, l, cut) && Key(basket[..], perm[l]) <= cut
  {
    l := from;
    while basket[perm[l]].absCost > cut
      invariant from <= l <= stop && KeysAtLeast(basket[..], perm[..], min, l, cut)
      decreases stop - l
    {
      l := l + 1;
    }
  }

  /** The second inner loop. */
  method ScanDown(basket: array<Entry>, perm: array<int>, from: int, cut: int, ghost min: int, ghost max: int,
                  ghost stop: int)
    returns (r: int)
    requires 0 <= min <= stop <= from <= max && PointsIn(basket[..], perm[..], min, max)
    requires KeysAtMost(basket[..], perm[..], from + 1, max + 1, cut) && Key(basket[..], perm[stop]) >= cut
    ensures stop <= r <= from && KeysAtMost(basket[..], perm[..], r + 1, max + 1, cut)
      && Key(basket[..], perm[r]) >= cut
  {
    r := from;
    while cut > basket[perm[r]].absCost
      invariant stop <= r <= from && KeysAtMost(basket[..], perm[..], r + 1, max + 1, cut)
      decreases r - stop
    {
      r := r - 1;
    }
  }

  /** What the do-while loop knows between two rounds: both scans still have a place to stop. */
  ghost predicate Scanning(basket: seq<Entry>, perm: seq<int>, min: int, max: int, l: int, r: int, cut: int,
                           stopL: int, stopR: int) {
    && 0 <= min <= l <= stopL <= max && min <= stopR <= r <= max && PointsIn(basket, perm, min, max)
    && KeysAtLeast(basket, perm, min, l, cut) && KeysAtMost(basket, perm, r + 1, max + 1, cut)
    && Key(basket, perm[stopL]) <= cut && Key(basket, perm[stopR]) >= cut
  }

  /** The do-while loop: everything before l is at least the cut, everything after r at most. */
  method Partition(basket: array<Entry>, perm: array<int>, min: int, max: int) returns (l: int, r: int, ghost cut: int)
    requires 0 <= min <= max && PointsIn(basket[..], perm[..], min, max)
    modifies perm
    ensures Rearranged(old(perm[..]), perm[..], min, max) && PointsIn(basket[..], perm[..], min, max)
    ensures min < l <= max + 1 && min - 1 <= r < max && r < l
    ensures KeysAtLeast(basket[..], perm[..], min, l, cut) && KeysAtMost(basket[..], perm[..], r + 1, max + 1, cut)
  {
    l, r := min, max;
    var c := basket[perm[(l + r) / 2]].absCost;
    cut := c;
    ghost var first, stopL, stopR := true, (l + r) / 2, (l + r) / 2;
    ghost var start := perm[..];
    Unmoved(start, min, max);
    while true
      invariant Rearranged(start, perm[..], min, max)
      invariant Scanning(basket[..], perm[..], min, max, l, r, c, stopL, stopR)
      invariant if first then stopL == stopR && l <= stopL <= r else min < l <= r < max
      decreases r - l
    {
      ghost var was := perm[..];
      l, r, stopL, stopR := Round(basket, perm, min, max, l, r, c, stopL, stopR);
      RearrangedTrans(start, was, perm[..], min, max);
      first := false;
      if !(l <= r) {
        break;
      }
    }
  }

  /** One round of the do-while loop: scan from both sides, exchange, step. */
  method Round(basket: array<Entry>, perm: array<int>, min: int, max: int, from: int, to: int, cut: int,
               ghost stop1: int, ghost stop2: int)
    returns (l: int, r: int, ghost stopL: int, ghost stopR: int)
    requires Scanning(basket[..], perm[..], min, max, from, to, cut, stop1, stop2)
    requires stop1 <= stop2 || (min < from <= to < max)
    modifies perm
    ensures Rearranged(old(perm[..]), perm[..], min, max) && PointsIn(basket[..], perm[..], min, max)
    ensures from <= l && r <= to && (l <= r ==> r - l < to - from)
    ensures min < l <= max + 1 && min - 1 <= r < max
    ensures KeysAtLeast(basket[..], perm[..], min, l, cut) && KeysAtMost(basket[..], perm[..], r + 1, max + 1, cut)
    ensures l <= r ==> Scanning(basket[..], perm[..], min, max, l, r, cut, stopL, stopR)
  {
    l := ScanUp(basket, perm, from, cut, min, max, stop1);
    r := ScanDown(basket, perm, to, cut, min, max, stop2);
    stopL, stopR := r, l;
    ghost var was := perm[..];
    Unmoved(was, min, max);
    if l < r {
      SwapRearranges(was, l, r, min, max);
      perm[l], perm[r] := perm[r], perm[l];
    }
    if l <= r {
      assert perm[..] == was[l := was[r]][r := was[l]];
      SwapKeeps(basket[..], was, perm[..], min, max, l, r, cut);
      l, r := l + 1, r - 1;
    }
  }

  lemma SwapKeeps(basket: seq<Entry>, s: seq<int>, t: seq<int>, min: int, max: int, l: int, r: int, cut: int)
    requires 0 <= min <= l <= r <= max && PointsIn(basket, s, min, max)
    requires t == s[l := s[r]][r := s[l]]
    requires KeysAtLeast(basket, s, min, l, cut) && KeysAtMost(basket, s, r + 1, max + 1, cut)
    requires Key(basket, s[l]) <= cut && Key(basket, s[r]) >= cut
    ensures PointsIn(basket, t, min, max)
    ensures KeysAtLeast(basket, t, min, l + 1, cut) && KeysAtMost(basket, t, r, max + 1, cut)
  {
  }

  // ----- putting the two halves together

  lemma RearrangedAtLeast(basket: seq<Entry>, s: seq<int>, t: seq<int>, lo: int, hi: int, cut: int)
    requires Rearranged(s, t, lo, hi) && KeysAtLeast(basket, s, lo, hi + 1, cut)
    ensures KeysAtLeast(basket, t, lo, hi + 1, cut)
  {
    assert AllAtLeast(basket, s[lo..hi + 1], cut);
    PermutedAtLeast(basket, s[lo..hi + 1], t[lo..hi + 1], cut);
    forall k | lo <= k < hi + 1 ensures 0 <= t[k] < |basket| && Key(basket, t[k]) >= cut {
      assert t[k] == t[lo..hi + 1][k - lo];
    }
  }

  lemma RearrangedAtMost(basket: seq<Entry>, s: seq<int>, t: seq<int>, lo: int, hi: int, cut: int)
    requires Rearranged(s, t, lo, hi) && KeysAtMost(basket, s, lo, hi + 1, cut)
    ensures KeysAtMost(basket, t, lo, hi + 1, cut)
  {
    assert AllAtMost(basket, s[lo..hi + 1], cut);
    PermutedAtMost(basket, s[lo..hi + 1], t[lo..hi + 1], cut);
    forall k | lo <= k < hi + 1 ensures 0 <= t[k] < |basket| && Key(basket, t[k]) <= cut {
      assert t[k] == t[lo..hi + 1][k - lo];
    }
  }

  lemma SamePlaces(s: seq<int>, t: seq<int>, lo: int, hi: int)
    requires Rearranged(s, t, lo, hi)
    ensures forall k :: 0 <= k < lo ==> t[k] == s[k]
    ensures forall k :: hi < k < |s| ==> t[k] == s[k]
  {
    forall k | 0 <= k < lo ensures t[k] == s[k] { assert s[..lo][k] == t[..lo][k]; }
    forall k | hi < k < |s| ensures t[k] == s[k] { assert s[hi + 1..][k - hi - 1] == t[hi + 1..][k - hi - 1]; }
  }

  /** p1 is partitioned, p2 has the left part sorted, p3 the right part if it starts within B. */
  lemma HalvesSorted(basket: seq<Entry>, p1: seq<int>, p2: seq<int>, p3: seq<int>, min: int, max: int, l: int, r: int,
                     cut: int)
    requires 0 <= min < l <= max + 1 && min - 1 <= r < max && r < l && PointsIn(basket, p1, min, max)
    requires KeysAtLeast(basket, p1, min, l, cut) && KeysAtMost(basket, p1, r + 1, max + 1, cut)
    requires Rearranged(p1, p2, min, r) && PointsIn(basket, p2, min, r) && TopSorted(basket, p2, min, r)
    requires Rearranged(p2, p3, l, max) && PointsIn(basket, p3, l, max) && (l <= B ==> TopSorted(basket, p3, l, max))
    ensures PointsIn(basket, p3, min, max) && TopSorted(basket, p3, min, max)
  {
    RearrangedWithin(p1, p2, min, r, min, l - 1);
    RearrangedAtLeast(basket, p1, p2, min, l - 1, cut);
    SamePlaces(p1, p2, min, r);
    assert KeysAtMost(basket, p2, r + 1, max + 1, cut);
    RearrangedWithin(p2, p3, l, max, r + 1, max);
    RearrangedAtMost(basket, p2, p3, r + 1, max, cut);
    SamePlaces(p2, p3, l, max);
    assert KeysAtLeast(basket, p3, min, l, cut);
  }

  /** sort_basket(min, max). */
  method SortBasket(basket: array<Entry>, perm: array<int>, min: int, max: int)
    requires 0 <= min <= max && PointsIn(basket[..], perm[..], min, max)
    modifies perm
    ensures Rearranged(old(perm[..]), perm[..], min, max)
    ensures PointsIn(basket[..], perm[..], min, max) && TopSorted(basket[..], perm[..], min, max)
    decreases max - min
  {
    var l, r;
    ghost var cut;
    l, r, cut := Partition(basket, perm, min, max);
    ghost var p1 := perm[..];
    Unmoved(p1, min, r);
    if min < r {
      SortBasket(basket, perm, min, r);
    }
    ghost var p2 := perm[..];
    SamePlaces(p1, p2, min, r);
    Unmoved(p2, l, max);
    if l < max && l <= B {
      SortBasket(basket, perm, l, max);
    }
    HalvesSorted(basket[..], p1, p2, perm[..], min, max, l, r, cut);
    RearrangedWithin(p1, p2, min, r, min, max);
    RearrangedWithin(p2, perm[..], l, max, min, max);
    RearrangedTrans(old(perm[..]), p1, p2, min, max);
    RearrangedTrans(old(perm[..]), p2, perm[..], min, max);
  }
}
