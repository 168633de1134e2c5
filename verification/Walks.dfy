/** Walking a linked tree without a stack: down to the first child, across to the next
    sibling, up to the father. `update_tree` walks one subtree this way and
    `refresh_potential` the whole tree. `seen` is the set of nodes visited so far and
    `at` the node the walk stands on; the lemmas say that each step visits a node not
    seen before and that a walk that is back at `top` has seen the whole subtree. */
module Walks {
  import opened Trees
  import opened Links

  ghost predicate Walk(l: Links, top: int, at: int, seen: set<int>)
    requires LinkedTree(l)
  {
    && 0 <= top < |l.pred| && 0 <= at < |l.pred|
    && top in seen && at in seen && seen <= Sub(l.pred, top)
    && (forall u {:trigger l.pred[u]} :: u in seen && u != top ==> l.pred[u] in seen)
    && (forall u {:trigger l.siblingPrev[u]} :: u in seen && u != top && l.siblingPrev[u] != NULL ==>
         l.siblingPrev[u] in seen)
    // off the current path everything below and to the right has been visited
    && (forall u {:trigger l.sibling[u]} :: u in seen && u != top && l.sibling[u] != NULL ==>
         (u in Anc(l.pred, at) <==> l.sibling[u] !in seen))
    && (forall u {:trigger l.child[u]} :: u in seen && u != at && l.child[u] != NULL ==> l.child[u] in seen)
  }

  /** Nothing below the current node has been visited yet. */
  ghost predicate Fresh(l: Links, at: int, seen: set<int>)
    requires SameSize(l) && 0 <= at < |l.pred|
  {
    l.child[at] !in seen
  }

  /** Everything below the current node has been visited. */
  ghost predicate Done(l: Links, at: int, seen: set<int>)
    requires SameSize(l) && 0 <= at < |l.pred|
  {
    l.child[at] != NULL ==> l.child[at] in seen
  }

  lemma Begin(l: Links, top: int)
    requires LinkedTree(l) && 0 <= top < |l.pred|
    ensures Walk(l, top, top, {top}) && Fresh(l, top, {top})
  {
    AncRange(l.pred, top);
    if l.child[top] == top {
      Step(l.pred, top);
      AncRange(l.pred, top);
    }
  }

  /** RECURSION with a child: the first child is new. */
  lemma Descend(l: Links, top: int, at: int, seen: set<int>)
    requires LinkedTree(l) && Walk(l, top, at, seen) && Fresh(l, at, seen) && l.child[at] != NULL
    ensures var c := l.child[at];
            0 < c < |l.pred| && l.pred[c] == at && c !in seen && c != top && c in Sub(l.pred, top)
            && Walk(l, top, c, seen + {c}) && Fresh(l, c, seen + {c})
  {
    var c := l.child[at];
    Step(l.pred, c);
    AncRange(l.pred, c);
  }

  /** ITERATION over a sibling: the next sibling is new. */
  lemma Across(l: Links, top: int, at: int, seen: set<int>)
    requires LinkedTree(l) && Walk(l, top, at, seen) && Done(l, at, seen)
    requires at != top && l.sibling[at] != NULL
    ensures var s := l.sibling[at];
            0 < s < |l.pred| && s !in seen && s != top && s in Sub(l.pred, top)
            && 0 < at && l.pred[s] == l.pred[at] && l.pred[s] in seen
            && Walk(l, top, s, seen + {s}) && Fresh(l, s, seen + {s})
  {
    var s := l.sibling[at];
    Root(l.pred);
    Step(l.pred, s);
    Step(l.pred, at);
    AncRange(l.pred, s);
    AncRange(l.pred, at);
    assert l.siblingPrev[s] == at;
    assert at !in Anc(l.pred, s);
    assert Fresh(l, s, seen + {s}) by {
      if l.child[s] != NULL {
        assert l.pred[l.child[s]] == s;
        Step(l.pred, l.child[s]);
        AncRange(l.pred, s);
      }
    }
  }

  /** Back to the father when there is no further sibling. */
  lemma Ascend(l: Links, top: int, at: int, seen: set<int>)
    requires LinkedTree(l) && Walk(l, top, at, seen) && Done(l, at, seen)
    requires at != top && l.sibling[at] == NULL
    ensures 0 < at && var f := l.pred[at];
            f in seen && 0 <= f < |l.pred| && Walk(l, top, f, seen) && Done(l, f, seen)
            && |Anc(l.pred, f)| < |Anc(l.pred, at)|
  {
    Root(l.pred);
    AncRange(l.pred, at);
    var f := l.pred[at];
    Step(l.pred, at);
    forall u | u in seen && u != top && l.sibling[u] != NULL
      ensures u in Anc(l.pred, f) <==> l.sibling[u] !in seen
    {
    }
    assert Done(l, f, seen) by {
      FirstSeen(l, top, at, at, seen);
    }
  }

  /** A visited child means the whole list before it, so the first child, is visited. */
  lemma {:induction false} FirstSeen(l: Links, top: int, at: int, u: int, seen: set<int>)
    requires LinkedTree(l) && Walk(l, top, at, seen) && u in seen && u != top && 0 < u < |l.pred|
    ensures l.child[l.pred[u]] in seen && l.child[l.pred[u]] != NULL
  {
    assert l.child[l.pred[u]] != NULL by {
      HasFirstChild(l, u);
    }
    var f := l.pred[u];
    Step(l.pred, u);
    if l.child[f] !in seen {
      var ord :| LinkOrder(l, ord);
      FirstSeenBy(l, ord, top, at, u, seen);
    }
  }

  lemma {:induction false} FirstSeenBy(l: Links, ord: seq<int>, top: int, at: int, u: int, seen: set<int>)
    requires LinkedTree(l) && LinkOrder(l, ord) && Walk(l, top, at, seen) && u in seen && u != top && 0 < u < |l.pred|
    ensures l.child[l.pred[u]] in seen
    decreases ord[u] - Least(ord)
  {
    LeastBelow(ord, u);
    var q := l.siblingPrev[u];
    if q != NULL {
      assert l.sibling[q] == u;
      LeastBelow(ord, q);
      if q == top {
        // u would be a sibling of top, so top would not be above it
        Step(l.pred, u);
        Root(l.pred);
        Step(l.pred, q);
        AncRange(l.pred, q);
      }
      FirstSeenBy(l, ord, top, at, q, seen);
    }
  }

  lemma {:induction false} HasFirstChild(l: Links, u: int)
    requires LinkedTree(l) && 0 < u < |l.pred|
    ensures 0 <= l.pred[u] < |l.pred| && l.child[l.pred[u]] != NULL
  {
    var ord :| LinkOrder(l, ord);
    HasFirstChildBy(l, ord, u);
  }

  lemma {:induction false} HasFirstChildBy(l: Links, ord: seq<int>, u: int)
    requires LinkOrder(l, ord) && 0 < u < |l.pred|
    ensures 0 <= l.pred[u] < |l.pred| && l.child[l.pred[u]] != NULL
    decreases ord[u] - Least(ord)
  {
    LeastBelow(ord, u);
    var q := l.siblingPrev[u];
    if q != NULL {
      LeastBelow(ord, q);
      assert l.sibling[q] == u;
      HasFirstChildBy(l, ord, q);
    }
  }

  ghost function Least(s: seq<int>): int
  {
    if s == [] then 0 else if s[0] <= Least(s[1..]) then s[0] else Least(s[1..])
  }

  lemma {:induction false} LeastBelow(s: seq<int>, i: int)
    requires 0 <= i < |s|
    ensures Least(s) <= s[i]
  {
    if i > 0 {
      LeastBelow(s[1..], i - 1);
    }
  }

  /** A walk that is back at its top has visited the subtree, all of it. */
  lemma Finish(l: Links, top: int, seen: set<int>)
    requires LinkedTree(l) && Walk(l, top, top, seen) && Done(l, top, seen)
    ensures seen == Sub(l.pred, top)
  {
    var ord :| LinkOrder(l, ord);
    forall v | v in Sub(l.pred, top) ensures v in seen {
      Complete(l, ord, top, seen, v);
    }
  }

  lemma {:induction false} Complete(l: Links, ord: seq<int>, top: int, seen: set<int>, v: int)
    requires LinkedTree(l) && LinkOrder(l, ord) && Walk(l, top, top, seen) && Done(l, top, seen)
    requires v in Sub(l.pred, top)
    ensures v in seen
    decreases |Anc(l.pred, v)|, ord[v] - Least(ord)
  {
    Root(l.pred);
    if v != top {
      assert v != 0;
      Step(l.pred, v);
      var q := l.siblingPrev[v];
      LeastBelow(ord, v);
      if q == NULL {
        Complete(l, ord, top, seen, l.pred[v]);
        assert l.child[l.pred[v]] == v;
      } else {
        assert l.sibling[q] == v;
        LeastBelow(ord, q);
        assert q != 0 by { assert l.sibling[0] == NULL; }
        Step(l.pred, q);
        assert q != top by {
          AncRange(l.pred, q);
        }
        Complete(l, ord, top, seen, q);
        assert q !in Anc(l.pred, top) by {
          if q in Anc(l.pred, top) { AncAntisym(l.pred, q, top); }
        }
      }
    }
  }
}
