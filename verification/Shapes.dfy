/** What `IsTree` and `Linked` mean in terms of the pointers: following `pred` leads to the root, and
    following `child` and then `sibling` meets the children of a node, each exactly once. */
module Shapes {
  import opened Trees
  import opened Links

  // ----- pred

  /** k father steps lead from v to the root, and no fewer. */
  predicate Reaches(p: seq<int>, v: int, k: nat)
    decreases k
  {
    0 <= v < |p| && (v == 0 <==> k == 0) && (k > 0 ==> Reaches(p, p[v], k - 1))
  }

  lemma {:induction false} OneHeight(p: seq<int>, v: int, j: nat, k: nat)
    requires Reaches(p, v, j) && Reaches(p, v, k)
    ensures j == k
    decreases j
  {
    if j > 0 {
      OneHeight(p, p[v], j - 1, k - 1);
    }
  }

  lemma {:induction false} TreeReaches(p: seq<int>, v: int) returns (k: nat)
    requires IsTree(p) && 0 <= v < |p|
    ensures Reaches(p, v, k)
    decreases |Anc(p, v)|
  {
    Root(p);
    if v == 0 {
      k := 0;
    } else {
      Step(p, v);
      k := TreeReaches(p, p[v]);
      k := k + 1;
    }
  }

  /** The nodes on the way. */
  ghost function Way(p: seq<int>, v: int, k: nat): set<int>
    requires Reaches(p, v, k)
    decreases k
  {
    if k == 0 then {v} else {v} + Way(p, p[v], k - 1)
  }

  lemma {:induction false} WayReaches(p: seq<int>, v: int, k: nat, u: int) returns (j: nat)
    requires Reaches(p, v, k) && u in Way(p, v, k)
    ensures j <= k && Reaches(p, u, j)
    decreases k
  {
    if u == v {
      j := k;
    } else {
      j := WayReaches(p, p[v], k - 1, u);
    }
  }

  ghost predicate HasWay(p: seq<int>, v: int) {
    exists k: nat :: Reaches(p, v, k)
  }

  ghost predicate AllReach(p: seq<int>) {
    |p| > 0 && p[0] == NULL && forall v {:trigger HasWay(p, v)} :: 0 <= v < |p| ==> HasWay(p, v)
  }

  /** A father array is a tree exactly if every node reaches the root. */
  lemma TreeIsReach(p: seq<int>)
    ensures IsTree(p) <==> AllReach(p)
  {
    if IsTree(p) {
      Root(p);
      forall v | 0 <= v < |p| ensures HasWay(p, v) {
        var k := TreeReaches(p, v);
      }
    }
    if AllReach(p) {
      var heights := Heights(p, |p|);
      var anc := seq(|p|, v requires 0 <= v < |p| => Way(p, v, heights[v]));
      forall v | 0 < v < |p| ensures 0 <= p[v] < |p| && v !in anc[p[v]] && anc[v] == {v} + anc[p[v]] {
        var k := heights[v];
        assert Reaches(p, p[v], k - 1);
        OneHeight(p, p[v], k - 1, heights[p[v]]);
        if v in anc[p[v]] {
          var j := WayReaches(p, p[v], k - 1, v);
          OneHeight(p, v, j, k);
        }
      }
      assert Reaches(p, 0, heights[0]);
      assert AncestorMap(p, anc);
    }
  }

  lemma {:induction false} Heights(p: seq<int>, n: nat) returns (hs: seq<nat>)
    requires AllReach(p) && n <= |p|
    ensures |hs| == n && forall v {:trigger hs[v]} :: 0 <= v < n ==> Reaches(p, v, hs[v])
  {
    hs := [];
    if n > 0 {
      hs := Heights(p, n - 1);
      assert HasWay(p, n - 1);
      var k: nat :| Reaches(p, n - 1, k);
      hs := hs + [k];
    }
  }

  // ----- child and sibling

  /** cs is what `sibling` leads through from c on. */
  ghost predicate SiblingList(l: Links, c: int, cs: seq<int>)
    decreases |cs|
  {
    SameSize(l) && if c == NULL then cs == [] else
      0 <= c < |l.pred| && |cs| > 0 && cs[0] == c && SiblingList(l, l.sibling[c], cs[1..])
  }

  ghost function Later(l: Links, ord: seq<int>, c: int): set<int>
    requires |ord| == |l.pred| && 0 <= c < |ord|
  {
    set v | 0 <= v < |ord| && ord[v] > ord[c]
  }

  /** From any child on the list ends; it ascends, so no node comes twice. */
  lemma {:induction false} ListFrom(l: Links, ord: seq<int>, c: int) returns (cs: seq<int>)
    requires LinkOrder(l, ord) && 0 < c < |l.pred|
    ensures SiblingList(l, c, cs)
    ensures forall i :: 0 <= i < |cs| ==> 0 < cs[i] < |l.pred| && l.pred[cs[i]] == l.pred[c] && ord[cs[i]] >= ord[c]
    ensures forall i, j :: 0 <= i < j < |cs| ==> ord[cs[i]] < ord[cs[j]]
    ensures forall i :: 0 <= i < |cs| && l.sibling[cs[i]] != NULL ==> l.sibling[cs[i]] in cs
    decreases |Later(l, ord, c)|
  {
    var s := l.sibling[c];
    if s == NULL {
      cs := [c];
    } else {
      assert Later(l, ord, s) < Later(l, ord, c) by {
        assert s in Later(l, ord, c) && s !in Later(l, ord, s);
      }
      ProperSubsetCard(Later(l, ord, s), Later(l, ord, c));
      var rest := ListFrom(l, ord, s);
      cs := [c] + rest;
      assert cs[1..] == rest;
      assert s in cs by { assert rest[0] == s; }
    }
  }

  ghost function Earlier(l: Links, ord: seq<int>, c: int): set<int>
    requires |ord| == |l.pred| && 0 <= c < |ord|
  {
    set v | 0 <= v < |ord| && ord[v] < ord[c]
  }

  /** Going back by `sibling_prev` from any child ends at the first one. */
  lemma {:induction false} InList(l: Links, ord: seq<int>, v: int, cs: seq<int>, u: int)
    requires LinkOrder(l, ord) && 0 <= v < |l.pred| && 0 < u < |l.pred| && l.pred[u] == v
    requires SiblingList(l, l.child[v], cs)
    requires forall i :: 0 <= i < |cs| ==> 0 < cs[i] < |l.pred|
    requires forall i :: 0 <= i < |cs| && l.sibling[cs[i]] != NULL ==> l.sibling[cs[i]] in cs
    ensures u in cs
    decreases |Earlier(l, ord, u)|
  {
    var q := l.siblingPrev[u];
    if q != NULL {
      assert l.sibling[q] == u;
      assert Earlier(l, ord, q) < Earlier(l, ord, u) by {
        assert q in Earlier(l, ord, u) && q !in Earlier(l, ord, q);
      }
      ProperSubsetCard(Earlier(l, ord, q), Earlier(l, ord, u));
      InList(l, ord, v, cs, q);
    }
  }

  /** The child list of v holds every node with father v exactly once and no other node. */
  lemma ChildList(l: Links, v: int) returns (cs: seq<int>)
    requires Linked(l) && 0 <= v < |l.pred|
    ensures SiblingList(l, l.child[v], cs)
    ensures forall u :: u in cs <==> 0 < u < |l.pred| && l.pred[u] == v
    ensures forall i, j :: 0 <= i < j < |cs| ==> cs[i] != cs[j]
  {
    var ord :| LinkOrder(l, ord);
    if l.child[v] == NULL {
      cs := [];
    } else {
      cs := ListFrom(l, ord, l.child[v]);
    }
    forall u | 0 < u < |l.pred| && l.pred[u] == v ensures u in cs {
      InList(l, ord, v, cs, u);
    }
  }
}
