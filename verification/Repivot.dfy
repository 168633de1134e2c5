/** The basis after one basis exchange: the stem is reversed onto the entering arc, then
    sizes and flows are corrected on the two paths up to the lowest common ancestor. */
module Repivot {
  import opened Trees
  import opened Flows
  import opened Basis
  import opened Cycles

  /** The exchange in which u is hung under q by link c and the arc of stop leaves: u is at
      or below stop, q is not, and w is where the paths from u and q meet. */
  ghost predicate Exchange(b: Basis, u: int, q: int, stop: int, w: int) {
    && Sized(b)
    && OnStem(b.pred, u, q, stop)
    && IsLca(b.pred, u, q, w)
  }

  ghost function Resettled(b: Basis, r: Basis, q: int, stop: int, w: int, d: int, size: int, v: int): Basic
    requires Sized(b) && Sized(r) && |r.pred| == |b.pred| && IsTree(b.pred)
    requires 0 < stop < |b.pred| && 0 <= b.pred[stop] < |b.pred| && 0 <= q < |b.pred| && 0 <= w < |b.pred|
      && 0 <= v < |b.pred|
  {
    var c := r.at[v];
    if v in Path(b.pred, b.pred[stop], w) then Basic(c.arc, c.up, Sent(c.up, c.flow, -d), c.depth - size)
    else if v in Path(b.pred, q, w) then Basic(c.arc, c.up, Sent(c.up, c.flow, d), c.depth + size)
    else c
  }

  ghost function Repivoted(b: Basis, u: int, q: int, c: Basic, stop: int, w: int, d: int): (b': Basis)
    requires Exchange(b, u, q, stop, w)
    ensures Sized(b') && |b'.pred| == |b.pred|
  {
    ReverseEffect(b, u, q, c, stop, d, c.depth);
    Step(b.pred, stop);
    var r := Reverse(b, u, q, c, stop, d, c.depth);
    Basis(r.pred, seq(|r.at|, v requires 0 <= v < |r.at| => Resettled(b, r, q, stop, w, d, c.depth, v)))
  }

  // ----- where the three parts of the cycle lie

  lemma CycleParts(b: Basis, u: int, q: int, stop: int, w: int)
    requires Exchange(b, u, q, stop, w)
    ensures 0 <= b.pred[stop] < |b.pred| && stop !in Anc(b.pred, w) && w in Anc(b.pred, b.pred[stop])
    ensures forall v :: v in Stem(b.pred, u, stop) ==>
      v in Sub(b.pred, stop) && v !in Anc(b.pred, q) && v !in Anc(b.pred, b.pred[stop]) && v in Path(b.pred, u, w)
    ensures forall v :: v in Path(b.pred, u, w) ==> v in Stem(b.pred, u, stop) || v in Path(b.pred, b.pred[stop], w)
    ensures forall v :: v in Path(b.pred, b.pred[stop], w) ==>
      v in Path(b.pred, u, w) && v !in Stem(b.pred, u, stop) && v !in Anc(b.pred, q)
  {
    var p := b.pred;
    Step(p, stop);
    AncRange(p, u);
    AncRange(p, stop);
    AncTrans(p, stop, u);
    if stop in Anc(p, w) { AncTrans(p, w, q); }
    if w != p[stop] {
      AncLinear(p, w, stop, u);
    }
    forall v | v in Stem(p, u, stop)
      ensures v in Sub(p, stop) && v !in Anc(p, q) && v !in Anc(p, p[stop]) && v in Path(p, u, w)
    {
      if v in Anc(p, q) { AncTrans(p, v, q); }
      if v in Anc(p, p[stop]) { AncTrans(p, v, p[stop]); }
      if v in Anc(p, w) { AncTrans(p, v, w); }
    }
    forall v | v in Path(p, u, w)
      ensures v in Stem(p, u, stop) || v in Path(p, p[stop], w)
    {
      AncLinear(p, v, stop, u);
    }
    forall v | v in Path(p, p[stop], w)
      ensures v in Path(p, u, w) && v !in Stem(p, u, stop) && v !in Anc(p, q)
    {
      assert v in Anc(p, stop) && v in Anc(p, u);
      if stop in Anc(p, v) { AncAntisym(p, stop, v); }
    }
  }

  // ----- the new tree

  lemma RepivotedSpanning(g: Graph, b: Basis, u: int, q: int, c: Basic, stop: int, w: int, d: int)
    requires Spanning(g, b) && Exchange(b, u, q, stop, w) && Joins(g, c.arc, u, q, c.up)
    ensures Spanning(g, Repivoted(b, u, q, c, stop, w, d))
  {
    ReverseSpanning(g, b, u, q, c, stop, d, c.depth);
    var r, b' := Reverse(b, u, q, c, stop, d, c.depth), Repivoted(b, u, q, c, stop, w, d);
    forall v | 0 < v < |b.pred| ensures Joins(g, b'.at[v].arc, v, b'.pred[v], b'.at[v].up) {
      assert Joins(g, r.at[v].arc, v, r.pred[v], r.at[v].up);
    }
  }

  lemma SizeOfUnion(a: set<int>, s: set<int>)
    ensures s <= a ==> |a - s| == |a| - |s|
    ensures a !! s ==> |a + s| == |a| + |s| && a - s == a
    ensures s <= a ==> (a - s) + s == a
  {
    if s <= a {
      assert (a - s) + s == a;
    }
  }

  /** After the exchange every `depth` is again the size of the new subtree. */
  lemma RepivotedDepth(b: Basis, u: int, q: int, c: Basic, stop: int, w: int, d: int)
    requires Exchange(b, u, q, stop, w) && DepthIsSize(b) && c.depth == b.at[stop].depth
    ensures IsTree(Repivoted(b, u, q, c, stop, w, d).pred)
    ensures DepthIsSize(Repivoted(b, u, q, c, stop, w, d))
  {
    ReverseSubs(b, u, q, c, stop, d, c.depth);
    var b' := Repivoted(b, u, q, c, stop, w, d);
    forall v | 0 <= v < |b.pred| ensures b'.at[v].depth == |Sub(b'.pred, v)| {
      if v in Sub(b.pred, stop) {
        DepthInside(b, u, q, c, stop, w, d, v);
      } else {
        DepthOutside(b, u, q, c, stop, w, d, v);
      }
    }
  }

  lemma DepthInside(b: Basis, u: int, q: int, c: Basic, stop: int, w: int, d: int, v: int)
    requires Exchange(b, u, q, stop, w) && DepthIsSize(b) && c.depth == b.at[stop].depth
    requires IsTree(Repivoted(b, u, q, c, stop, w, d).pred)
    requires SubsReversed(b.pred, Repivoted(b, u, q, c, stop, w, d).pred, u, q, stop)
    requires v in Sub(b.pred, stop)
    ensures Repivoted(b, u, q, c, stop, w, d).at[v].depth == |Sub(Repivoted(b, u, q, c, stop, w, d).pred, v)|
  {
    var p, s := b.pred, Sub(b.pred, stop);
    CycleParts(b, u, q, stop, w);
    ReverseEffect(b, u, q, c, stop, d, c.depth);
    var r, b' := Reverse(b, u, q, c, stop, d, c.depth), Repivoted(b, u, q, c, stop, w, d);
    if v in Anc(p, q) { AncTrans(p, v, q); }
    Step(p, stop);
    if v in Anc(p, p[stop]) { AncTrans(p, v, p[stop]); }
    assert b'.at[v] == r.at[v];
    if v in Stem(p, u, stop) && v != u {
      var t := StemChild(p, u, stop, v);
      assert t in Stem(p, u, stop) && t != stop && p[t] == v;
      SubWithin(p, stop, t);
      SizeOfUnion(s, Sub(p, t));
      assert b.at[t].depth == |Sub(p, t)|;
    } else if v != u {
      assert b.at[v].depth == |Sub(p, v)|;
      assert Sub(b'.pred, v) == Sub(p, v);
    } else {
      StemUnfold(p, u, q, stop);
    }
  }

  /** Every stem node except the lowest has its stem child just below. */
  lemma {:induction false} StemChild(p: seq<int>, u: int, stop: int, v: int) returns (t: int)
    requires IsTree(p) && 0 < u < |p| && v in Stem(p, u, stop) && v != u
    ensures t in Stem(p, u, stop) && 0 < t < |p| && t != stop && p[t] == v
    decreases |Anc(p, u)|
  {
    Step(p, u);
    AncRange(p, u);
    if p[u] == v {
      t := u;
      if u == stop { AncTrans(p, stop, v); }
    } else {
      Root(p);
      t := StemChild(p, p[u], stop, v);
    }
  }

  lemma DepthOutside(b: Basis, u: int, q: int, c: Basic, stop: int, w: int, d: int, v: int)
    requires Exchange(b, u, q, stop, w) && DepthIsSize(b) && c.depth == b.at[stop].depth
    requires IsTree(Repivoted(b, u, q, c, stop, w, d).pred)
    requires SubsReversed(b.pred, Repivoted(b, u, q, c, stop, w, d).pred, u, q, stop)
    requires 0 <= v < |b.pred| && v !in Sub(b.pred, stop)
    ensures Repivoted(b, u, q, c, stop, w, d).at[v].depth == |Sub(Repivoted(b, u, q, c, stop, w, d).pred, v)|
  {
    var p, s := b.pred, Sub(b.pred, stop);
    var b' := Repivoted(b, u, q, c, stop, w, d);
    assert b'.at[v].depth == b.at[v].depth
             + (if v in Path(p, p[stop], w) then -c.depth else if v in Path(p, q, w) then c.depth else 0) by {
      CycleParts(b, u, q, stop, w);
      ReverseEffect(b, u, q, c, stop, d, c.depth);
    }
    assert b.at[v].depth == |Sub(p, v)| && c.depth == |s|;
    assert Sub(b'.pred, v) == (Sub(p, v) - s) + if v in Anc(p, q) then s else {};
    SizeOfUnion(Sub(p, v), s);
    WhereOutside(b, u, q, stop, w, v);
  }

  lemma WhereOutside(b: Basis, u: int, q: int, stop: int, w: int, v: int)
    requires Exchange(b, u, q, stop, w) && 0 <= v < |b.pred| && v !in Sub(b.pred, stop)
    ensures 0 <= b.pred[stop] < |b.pred|
    ensures v in Path(b.pred, b.pred[stop], w) ==> Sub(b.pred, stop) <= Sub(b.pred, v) && v !in Anc(b.pred, q)
    ensures v !in Path(b.pred, b.pred[stop], w) && v in Path(b.pred, q, w) ==> Sub(b.pred, stop) !! Sub(b.pred, v)
    ensures v !in Path(b.pred, b.pred[stop], w) && v !in Path(b.pred, q, w) && v in Anc(b.pred, q) ==>
      Sub(b.pred, stop) <= Sub(b.pred, v)
    ensures v !in Path(b.pred, b.pred[stop], w) && v !in Path(b.pred, q, w) && v !in Anc(b.pred, q) ==>
      Sub(b.pred, stop) !! Sub(b.pred, v)
  {
    var p := b.pred;
    CycleParts(b, u, q, stop, w);
    Step(p, stop);
    AncTrans(p, w, b.pred[stop]);
    if v in Anc(p, stop) {
      SubWithin(p, v, stop);
      AncTrans(p, stop, u);
      if v in Anc(p, w) { AncTrans(p, w, q); }
    } else {
      DisjointSubs(p, stop, v);
    }
  }

  // ----- the new arcs and flows

  /** The flow of the basic arc of t after the cycle has swung by d units. */
  ghost function SwungFlow(b: Basis, u: int, q: int, w: int, d: int, t: int): int
    requires Sized(b) && IsTree(b.pred) && IsLca(b.pred, u, q, w) && 0 <= t < |b.pred|
  {
    var c := b.at[t];
    if t in Path(b.pred, u, w) then Sent(c.up, c.flow, -d)
    else if t in Path(b.pred, q, w) then Sent(c.up, c.flow, d)
    else c.flow
  }

  /** After the swing the arc of t carries 0 or 1, and 0 if it runs into the root. */
  ghost predicate FitsAt(b: Basis, u: int, q: int, w: int, d: int, t: int)
    requires Sized(b) && IsTree(b.pred) && IsLca(b.pred, u, q, w) && 0 <= t < |b.pred|
  {
    var y := SwungFlow(b, u, q, w, d, t);
    (y == 0 || y == 1) && (b.pred[t] == 0 ==> y == 0)
  }

  ghost predicate SwingFits(b: Basis, u: int, q: int, w: int, d: int)
    requires Sized(b) && IsTree(b.pred) && IsLca(b.pred, u, q, w)
  {
    forall t {:trigger FitsAt(b, u, q, w, d, t)} :: 0 < t < |b.pred| ==> FitsAt(b, u, q, w, d, t)
  }

  lemma SwungReal(b: Basis, u: int, q: int, w: int, d: int, t: int)
    requires Sized(b) && IsTree(b.pred) && IsLca(b.pred, u, q, w) && 0 <= t < |b.pred|
    ensures SwungFlow(b, u, q, w, d, t) as real == b.at[t].flow as real
      + Signed(b.at[t].up, Swing(b, u, q, w, d as real, t))
  {
  }

  /** The node at which the arc of t is stored after the exchange. */
  ghost function NewPlace(b: Basis, u: int, stop: int, t: int): int
    requires Sized(b) && IsTree(b.pred) && 0 < u < |b.pred| && 0 <= t < |b.pred|
  {
    if t in Stem(b.pred, u, stop) then b.pred[t] else t
  }

  /** The arcs of all nodes but stop stay basic, with the swung flow. */
  lemma ArcKept(b: Basis, u: int, q: int, c: Basic, stop: int, w: int, d: int, t: int)
    requires Exchange(b, u, q, stop, w) && 0 < t < |b.pred| && t != stop
    ensures var v := NewPlace(b, u, stop, t);
      0 < v < |b.pred| && v != u
      && Repivoted(b, u, q, c, stop, w, d).at[v].arc == b.at[t].arc
      && Repivoted(b, u, q, c, stop, w, d).at[v].flow == SwungFlow(b, u, q, w, d, t)
  {
    CycleParts(b, u, q, stop, w);
    ReverseEffect(b, u, q, c, stop, d, c.depth);
    StemUnfold(b.pred, u, q, stop);
    if t in Stem(b.pred, u, stop) {
      Step(b.pred, t);
      StemFather(b.pred, u, stop, t);
    }
  }

  lemma StemFather(p: seq<int>, u: int, stop: int, t: int)
    requires IsTree(p) && 0 < u < |p| && t in Stem(p, u, stop) && t != stop && 0 < t
    ensures 0 <= p[t] < |p| && p[t] in Stem(p, u, stop) && p[t] != u
  {
    Step(p, t);
    AncTrans(p, t, u);
    AncRange(p, t);
    AncRange(p, p[t]);
    if p[t] == u { AncAntisym(p, t, u); }
  }

  /** Conversely a basic arc after the exchange is the entering one or was basic before. */
  lemma ArcWas(b: Basis, u: int, q: int, c: Basic, stop: int, w: int, d: int, v: int) returns (t: int)
    requires Exchange(b, u, q, stop, w) && 0 < v < |b.pred|
    ensures v == u ==> Repivoted(b, u, q, c, stop, w, d).at[v].arc == c.arc
                       && Repivoted(b, u, q, c, stop, w, d).at[v].flow == c.flow
    ensures v != u ==> 0 < t < |b.pred| && t != stop && NewPlace(b, u, stop, t) == v
  {
    CycleParts(b, u, q, stop, w);
    ReverseEffect(b, u, q, c, stop, d, c.depth);
    StemUnfold(b.pred, u, q, stop);
    t := v;
    if v != u && v in Stem(b.pred, u, stop) {
      t := StemChild(b.pred, u, stop, v);
    } else if v != u {
      AncRange(b.pred, u);
      AncRange(b.pred, stop);
    }
  }
}
