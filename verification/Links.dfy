/** The intrusive child lists of bench/mcf: `child` is the first child of a node,
    `sibling` and `sibling_prev` chain the children of one father in both directions. */
module Links {
  import opened Trees

  datatype Links = Links(pred: seq<int>, child: seq<int>, sibling: seq<int>, siblingPrev: seq<int>)

  ghost predicate SameSize(l: Links) {
    |l.pred| == |l.child| == |l.sibling| == |l.siblingPrev|
  }

  ghost predicate IsLink(x: int, size: nat) {
    NULL <= x < size && x != 0
  }

  /** The four link fields agree with each other. `ord` numbers the nodes so that every
      sibling list is ascending, which is what keeps the lists free of cycles. */
  ghost predicate LinkOrder(l: Links, ord: seq<int>) {
    && SameSize(l)
    && |ord| == |l.pred| > 0
    && l.pred[0] == l.sibling[0] == l.siblingPrev[0] == NULL
    && (forall v {:trigger l.pred[v]} :: 0 < v < |l.pred| ==> 0 <= l.pred[v] < |l.pred|)
    && (forall v {:trigger l.child[v]} :: 0 <= v < |l.pred| ==>
         && IsLink(l.child[v], |l.pred|)
         && (l.child[v] != NULL ==> l.pred[l.child[v]] == v && l.siblingPrev[l.child[v]] == NULL))
    && (forall v {:trigger l.sibling[v]} :: 0 <= v < |l.pred| ==>
         && IsLink(l.sibling[v], |l.pred|)
         && (l.sibling[v] != NULL ==>
              && l.pred[l.sibling[v]] == l.pred[v]
              && l.siblingPrev[l.sibling[v]] == v
              && ord[v] < ord[l.sibling[v]]))
    && (forall v {:trigger l.siblingPrev[v]} :: 0 <= v < |l.pred| ==>
         && IsLink(l.siblingPrev[v], |l.pred|)
         && (l.siblingPrev[v] != NULL ==> l.sibling[l.siblingPrev[v]] == v)
         && (v != 0 && l.siblingPrev[v] == NULL ==> l.child[l.pred[v]] == v))
  }

  ghost predicate Linked(l: Links) {
    exists ord :: LinkOrder(l, ord)
  }

  /** A linked tree: the fathers form a tree and the child lists spell exactly it. */
  ghost predicate LinkedTree(l: Links) {
    Linked(l) && IsTree(l.pred)
  }

  // ----- cutting a node out of its child list and pushing it in front of another one

  function Unlink(l: Links, u: int): Links
    requires Linked(l) && 0 < u < |l.pred|
  {
    var s, q := l.sibling[u], l.siblingPrev[u];
    l.(siblingPrev := if s != NULL then l.siblingPrev[s := q] else l.siblingPrev,
       sibling := if q != NULL then l.sibling[q := s] else l.sibling,
       child := if q != NULL then l.child else l.child[l.pred[u] := s])
  }

  function PushFront(l: Links, u: int, q: int): Links
    requires SameSize(l) && 0 < u < |l.pred| && 0 <= q < |l.pred| && IsLink(l.child[q], |l.pred|)
  {
    var c := l.child[q];
    Links(l.pred[u := q], l.child[q := u], l.sibling[u := c],
          (if c != NULL then l.siblingPrev[c := u] else l.siblingPrev)[u := NULL])
  }

  function Rehung(l: Links, u: int, q: int): Links
    requires Linked(l) && 0 < u < |l.pred| && 0 <= q < |l.pred|
  {
    PushFront(Unlink(l, u), u, q)
  }

  // The lists are in order but for u, which is in none of them.

  ghost predicate DetachedChild(l: Links, u: int)
    requires SameSize(l)
  {
    forall v {:trigger l.child[v]} :: 0 <= v < |l.pred| ==>
      && IsLink(l.child[v], |l.pred|) && l.child[v] != u
      && (l.child[v] != NULL ==> l.pred[l.child[v]] == v && l.siblingPrev[l.child[v]] == NULL)
  }

  ghost predicate DetachedSibling(l: Links, ord: seq<int>, u: int)
    requires SameSize(l) && |ord| == |l.pred|
  {
    forall v {:trigger l.sibling[v]} :: 0 <= v < |l.pred| && v != u ==>
      && IsLink(l.sibling[v], |l.pred|) && l.sibling[v] != u
      && (l.sibling[v] != NULL ==>
           && l.pred[l.sibling[v]] == l.pred[v]
           && l.siblingPrev[l.sibling[v]] == v
           && ord[v] < ord[l.sibling[v]])
  }

  ghost predicate DetachedPrev(l: Links, u: int)
    requires SameSize(l) && forall v :: 0 < v < |l.pred| ==> 0 <= l.pred[v] < |l.pred|
  {
    forall v {:trigger l.siblingPrev[v]} :: 0 <= v < |l.pred| && v != u ==>
      && IsLink(l.siblingPrev[v], |l.pred|) && l.siblingPrev[v] != u
      && (l.siblingPrev[v] != NULL ==> l.sibling[l.siblingPrev[v]] == v)
      && (v != 0 && l.siblingPrev[v] == NULL ==> l.child[l.pred[v]] == v)
  }

  ghost predicate Detached(l: Links, ord: seq<int>, u: int) {
    && SameSize(l) && |ord| == |l.pred| && 0 < u < |l.pred|
    && l.pred[0] == l.sibling[0] == l.siblingPrev[0] == NULL
    && (forall v {:trigger l.pred[v]} :: 0 < v < |l.pred| ==> 0 <= l.pred[v] < |l.pred|)
    && DetachedChild(l, u) && DetachedSibling(l, ord, u) && DetachedPrev(l, u)
  }

  lemma UnlinkChild(l: Links, ord: seq<int>, u: int)
    requires LinkOrder(l, ord) && 0 < u < |l.pred| && Linked(l)
    ensures DetachedChild(Unlink(l, u), u)
  {
    assert l.sibling[u] != u && l.siblingPrev[u] != u;
  }

  lemma UnlinkSibling(l: Links, ord: seq<int>, u: int)
    requires LinkOrder(l, ord) && 0 < u < |l.pred| && Linked(l)
    ensures DetachedSibling(Unlink(l, u), ord, u)
  {
    assert l.sibling[u] != u && l.siblingPrev[u] != u;
  }

  lemma UnlinkPrev(l: Links, ord: seq<int>, u: int)
    requires LinkOrder(l, ord) && 0 < u < |l.pred| && Linked(l)
    ensures DetachedPrev(Unlink(l, u), u)
  {
    assert l.sibling[u] != u && l.siblingPrev[u] != u;
  }

  lemma UnlinkDetaches(l: Links, ord: seq<int>, u: int)
    requires LinkOrder(l, ord) && 0 < u < |l.pred| && Linked(l)
    ensures Detached(Unlink(l, u), ord, u)
  {
    UnlinkChild(l, ord, u);
    UnlinkSibling(l, ord, u);
    UnlinkPrev(l, ord, u);
    assert l.sibling[u] != 0 && l.siblingPrev[u] != 0;
  }

  lemma PushFrontOrders(l: Links, ord: seq<int>, u: int, q: int)
    requires Detached(l, ord, u) && 0 <= q < |l.pred| && q != u
    ensures var c := l.child[q];
      LinkOrder(PushFront(l, u, q), ord[u := if c == NULL then 0 else ord[c] - 1])
  {
  }

  lemma RehungLinked(l: Links, u: int, q: int)
    requires Linked(l) && 0 < u < |l.pred| && 0 <= q < |l.pred| && u != q
    ensures Linked(Rehung(l, u, q))
    ensures Rehung(l, u, q).pred == l.pred[u := q]
  {
    var ord :| LinkOrder(l, ord);
    UnlinkDetaches(l, ord, u);
    PushFrontOrders(Unlink(l, u), ord, u, q);
  }
}
