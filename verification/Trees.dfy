/** Rooted trees given by a father array, the shape that `pred` spells in the node
    structure of bench/mcf. Node 0 is the root and its father is the null pointer.

    A tree is recognised by its ancestor sets: every node other than the root has
    exactly itself more than its father. The sets are determined by the father array,
    so descendants, lowest common ancestors and re-hanging a subtree are all stated
    with them. */
module Trees {
  const NULL := -1

  ghost predicate AncestorMap(p: seq<int>, anc: seq<set<int>>) {
    && |p| > 0
    && |anc| == |p|
    && p[0] == NULL
    && anc[0] == {0}
    && forall v {:trigger p[v]} :: 0 < v < |p| ==>
         0 <= p[v] < |p| && v !in anc[p[v]] && anc[v] == {v} + anc[p[v]]
  }

  /** Every node has a father, up to the root, and no node is its own ancestor. */
  ghost predicate IsTree(p: seq<int>) {
    exists anc :: AncestorMap(p, anc)
  }

  /** The set of nodes on the path from v to the root, both ends included. */
  ghost function Anc(p: seq<int>, v: int): set<int>
    requires IsTree(p) && 0 <= v < |p|
  {
    Ancestors(p)[v]
  }

  ghost function Ancestors(p: seq<int>): (anc: seq<set<int>>)
    requires IsTree(p)
    ensures AncestorMap(p, anc)
  {
    var anc :| AncestorMap(p, anc); anc
  }

  /** The subtree below a: all nodes that have a as an ancestor. */
  ghost function Sub(p: seq<int>, a: int): (s: set<int>)
    requires IsTree(p)
  {
    set v | 0 <= v < |p| && a in Anc(p, v)
  }

  lemma Root(p: seq<int>)
    requires IsTree(p)
    ensures |p| > 0 && p[0] == NULL && Anc(p, 0) == {0}
  {
    var anc := Ancestors(p);
  }

  lemma Step(p: seq<int>, v: int)
    requires IsTree(p) && 0 < v < |p|
    ensures 0 <= p[v] < |p| && v !in Anc(p, p[v]) && Anc(p, v) == {v} + Anc(p, p[v])
    ensures |Anc(p, p[v])| < |Anc(p, v)|
  {
    var anc := Ancestors(p);
    var u := p[v];
  }

  lemma {:induction false} AncRange(p: seq<int>, v: int)
    requires IsTree(p) && 0 <= v < |p|
    ensures v in Anc(p, v) && 0 in Anc(p, v)
    ensures forall a :: a in Anc(p, v) ==> 0 <= a < |p|
    decreases |Anc(p, v)|
  {
    Root(p);
    if v != 0 {
      Step(p, v);
      AncRange(p, p[v]);
    }
  }

  lemma {:induction false} AncTrans(p: seq<int>, a: int, v: int)
    requires IsTree(p) && 0 <= v < |p| && a in Anc(p, v)
    ensures 0 <= a < |p| && Anc(p, a) <= Anc(p, v)
    decreases |Anc(p, v)|
  {
    Root(p);
    if v != 0 && a != v {
      Step(p, v);
      AncTrans(p, a, p[v]);
    }
  }

  lemma AncAntisym(p: seq<int>, a: int, v: int)
    requires IsTree(p) && 0 <= v < |p| && 0 <= a < |p| && a in Anc(p, v) && v in Anc(p, a)
    ensures a == v
  {
    Root(p);
    if a != v && v != 0 {
      Step(p, v);
      AncTrans(p, a, p[v]);
    }
  }

  /** Two ancestors of one node are comparable. */
  lemma {:induction false} AncLinear(p: seq<int>, a: int, b: int, v: int)
    requires IsTree(p) && 0 <= v < |p| && a in Anc(p, v) && b in Anc(p, v)
    ensures 0 <= a < |p| && 0 <= b < |p| && (a in Anc(p, b) || b in Anc(p, a))
    decreases |Anc(p, v)|
  {
    AncRange(p, v);
    Root(p);
    if v != 0 && a != v && b != v {
      Step(p, v);
      AncLinear(p, a, b, p[v]);
    }
  }

  lemma {:induction false} AncUnique(p: seq<int>, anc: seq<set<int>>, v: int)
    requires IsTree(p) && AncestorMap(p, anc) && 0 <= v < |p|
    ensures Anc(p, v) == anc[v]
    decreases |Anc(p, v)|
  {
    Root(p);
    if v != 0 {
      Step(p, v);
      AncUnique(p, anc, p[v]);
    }
  }

  /** The subtree of a proper ancestor is strictly larger: sizes order every path. */
  lemma SubGrows(p: seq<int>, v: int)
    requires IsTree(p) && 0 < v < |p|
    ensures 0 <= p[v] < |p| && Sub(p, v) <= Sub(p, p[v]) && |Sub(p, v)| < |Sub(p, p[v])|
  {
    Step(p, v);
    AncRange(p, p[v]);
    forall u | u in Sub(p, v) ensures u in Sub(p, p[v]) {
      AncTrans(p, v, u);
    }
    assert p[v] in Sub(p, p[v]) && p[v] !in Sub(p, v) by {
      AncRange(p, v);
    }
    ProperSubsetCard(Sub(p, v), Sub(p, p[v]));
  }

  lemma ProperSubsetCard(a: set<int>, b: set<int>)
    requires a < b
    ensures |a| < |b|
  {
    assert b == a + (b - a);
    assert b - a != {};
  }

  lemma {:induction false} SizeOrder(p: seq<int>, a: int, v: int)
    requires IsTree(p) && 0 <= v < |p| && a in Anc(p, v) && a != v
    ensures |Sub(p, v)| < |Sub(p, a)|
    decreases |Anc(p, v)|
  {
    Root(p);
    if v != 0 {
      SubGrows(p, v);
      Step(p, v);
      if a != p[v] {
        SizeOrder(p, a, p[v]);
      }
    }
  }

  /** Hanging the subtree of u under a node q outside it gives a tree again, and says
      what every ancestor set becomes. */
  ghost function MovedAnc(p: seq<int>, u: int, q: int, v: int): set<int>
    requires IsTree(p) && 0 < u < |p| && 0 <= q < |p| && 0 <= v < |p|
  {
    if u in Anc(p, v) then (Anc(p, v) - Anc(p, u)) + {u} + Anc(p, q) else Anc(p, v)
  }

  lemma MovedStep(p: seq<int>, u: int, q: int, v: int)
    requires IsTree(p) && 0 < u < |p| && 0 <= q < |p| && u !in Anc(p, q) && 0 < v < |p|
    ensures var f := p[u := q][v];
      0 <= f < |p| && v !in MovedAnc(p, u, q, f) && MovedAnc(p, u, q, v) == {v} + MovedAnc(p, u, q, f)
  {
    Step(p, v);
    AncRange(p, v);
    if v != u && u in Anc(p, v) {
      if v in Anc(p, u) {
        AncAntisym(p, u, v);
      }
      if v in Anc(p, q) {
        AncTrans(p, v, q);
      }
    }
  }

  lemma MoveSubtree(p: seq<int>, u: int, q: int)
    requires IsTree(p) && 0 < u < |p| && 0 <= q < |p| && u !in Anc(p, q)
    ensures IsTree(p[u := q])
    ensures forall v :: 0 <= v < |p| ==> Anc(p[u := q], v) == MovedAnc(p, u, q, v)
  {
    var r := p[u := q];
    var anc := seq(|p|, v requires 0 <= v < |p| => MovedAnc(p, u, q, v));
    Root(p);
    assert anc[0] == {0};
    forall v | 0 < v < |p|
      ensures 0 <= r[v] < |p| && v !in anc[r[v]] && anc[v] == {v} + anc[r[v]]
    {
      MovedStep(p, u, q, v);
    }
    assert AncestorMap(r, anc);
    forall v | 0 <= v < |p| ensures Anc(r, v) == MovedAnc(p, u, q, v) {
      AncUnique(r, anc, v);
    }
  }
}
