/** What one call of primal_bea_mpp (bench/mcf/pbeampp.c) works out, on the values of nodes and arcs:
    which arcs it keeps from the basket, which it prices and appends, and what the keys of the
    entries say about their reduced costs. */
module PricingRun {
  import opened Network
  import opened BasketSort

  function ReducedCost(ns: seq<Node>, a: Arc): int
    requires 0 <= a.tail < |ns| && 0 <= a.head < |ns|
  {
    a.cost - ns[a.tail].potential + ns[a.head].potential
  }

  /** bea_is_dual_infeasible. */
  predicate IsDualInfeasible(ident: Ident, redCost: int) {
    (redCost < 0 && ident == AT_LOWER) || (redCost > 0 && ident == AT_UPPER)
  }

  predicate Infeasible(ns: seq<Node>, es: seq<Arc>, n: int, stop: int, e: int)
    requires EndsInRange(ns, es, n, stop)
  {
    n <= e < stop && IsDualInfeasible(es[e].ident, ReducedCost(ns, es[e]))
  }

  predicate AllInfeasible(ns: seq<Node>, es: seq<Arc>, n: int, stop: int, s: seq<int>)
    requires EndsInRange(ns, es, n, stop)
  {
    forall i {:trigger s[i]} :: 0 <= i < |s| ==> Infeasible(ns, es, n, stop, s[i])
  }

  ghost predicate NoneInfeasible(ns: seq<Node>, es: seq<Arc>, n: int, stop: int)
    requires EndsInRange(ns, es, n, stop)
  {
    forall e :: n <= e < stop ==> !Infeasible(ns, es, n, stop, e)
  }

  /** No infeasible arc has a larger absolute reduced cost. */
  ghost predicate LargestOfAll(ns: seq<Node>, es: seq<Arc>, n: int, stop: int, redCost: int)
    requires EndsInRange(ns, es, n, stop)
  {
    forall e {:trigger Infeasible(ns, es, n, stop, e)} ::
      Infeasible(ns, es, n, stop, e) ==> Abs(ReducedCost(ns, es[e])) <= Abs(redCost)
  }

  // ----- arithmetic of the groups

  /** The group of the x-th arc when there are nr groups. */
  ghost function Residue(x: int, nr: int): (r: int)
    requires 0 <= x && 0 < nr
    ensures 0 <= r < nr
  {
    if x < nr then x else Residue(x - nr, nr)
  }

  /** Members of one group are nr apart. */
  lemma {:induction false} GroupGap(x: int, y: int, nr: int)
    requires 0 < nr && 0 <= x < y && Residue(x, nr) == Residue(y, nr)
    ensures x + nr <= y
  {
    if x >= nr {
      GroupGap(x - nr, y - nr, nr);
    }
  }

  /** t steps of length nr. */
  ghost function Strides(t: nat, nr: int): int
    decreases t, nr
  {
    if t == 0 then 0 else Strides(t - 1, nr) + nr
  }

  lemma {:induction false} StridesIs(t: nat, nr: int)
    ensures Strides(t, nr) == t * nr
  {
    if t > 0 {
      StridesIs(t - 1, nr);
      assert (t - 1) * nr + nr == t * nr;
    }
  }

  lemma {:induction false} StridesMono(a: nat, b: nat, nr: int)
    requires a <= b && 0 < nr
    ensures Strides(a, nr) <= Strides(b, nr)
  {
    if a < b {
      StridesMono(a, b - 1, nr);
    }
  }

  /** There are so many groups that none has more than K arcs. */
  ghost predicate Spread(m: int, nr: int) {
    0 < nr && m <= Strides(K, nr)
  }

  /** The stride on from an arc of the group, which is one of at most K. */
  lemma GroupSize(n: int, stop: int, nr: int, pos: nat, t: nat, arc: int, next: int)
    requires Spread(stop - n, nr) && arc - n == pos + Strides(t, nr) && arc < stop && next == arc + nr
    ensures t < K && next - n == pos + Strides(t + 1, nr)
  {
    if t >= K {
      StridesMono(K, t, nr);
    }
  }

  /** The number of groups for m arcs: enough, and no more than needed. */
  function GroupsFor(m: int): (nr: int)
    requires 0 <= m
    ensures Spread(m, nr) && (nr == 1 || !Spread(m, nr - 1))
  {
    var nr := if m == 0 then 1 else (m - 1) / K + 1;
    StridesIs(K, nr);
    StridesIs(K, nr - 1);
    nr
  }

  // ----- the inner loop

  /** Only `remote` looks whether there is room in the basket. */
  predicate Room(guarded: bool, size: int) {
    !guarded || size < B
  }

  /** The arcs that pricing appends to a basket of this size on its way from `arc` on, nr apart. */
  function GroupRun(ns: seq<Node>, es: seq<Arc>, n: int, stop: int, nr: int, guarded: bool,
                    arc: int, size: int): (s: seq<int>)
    requires EndsInRange(ns, es, n, stop) && 0 < nr && n <= arc
    ensures AllInfeasible(ns, es, n, stop, s)
    ensures guarded && size <= B ==> size + |s| <= B
    decreases stop - arc
  {
    if arc >= stop then []
    else if Infeasible(ns, es, n, stop, arc) && Room(guarded, size) then
      [arc] + GroupRun(ns, es, n, stop, nr, guarded, arc + nr, size + 1)
    else GroupRun(ns, es, n, stop, nr, guarded, arc + nr, size)
  }

  lemma GroupRunHead(ns: seq<Node>, es: seq<Arc>, n: int, stop: int, nr: int, guarded: bool, arc: int, size: int)
    requires EndsInRange(ns, es, n, stop) && 0 < nr && n <= arc < stop
    ensures GroupRun(ns, es, n, stop, nr, guarded, arc, size)
         == if Infeasible(ns, es, n, stop, arc) && Room(guarded, size)
            then [arc] + GroupRun(ns, es, n, stop, nr, guarded, arc + nr, size + 1)
            else GroupRun(ns, es, n, stop, nr, guarded, arc + nr, size)
  {
  }

  /** These arcs have been added, and what is to come from `arc` on completes the run. */
  ghost predicate InGroup(ns: seq<Node>, es: seq<Arc>, n: int, stop: int, nr: int, guarded: bool, arc: int, size: int,
                          added: seq<int>, run: seq<int>)
    requires EndsInRange(ns, es, n, stop) && 0 < nr && n <= arc
  {
    run == added + GroupRun(ns, es, n, stop, nr, guarded, arc, size)
  }

  lemma GroupRunDone(ns: seq<Node>, es: seq<Arc>, n: int, stop: int, nr: int, guarded: bool, arc: int, size: int,
                     added: seq<int>, run: seq<int>)
    requires EndsInRange(ns, es, n, stop) && 0 < nr && n <= arc && stop <= arc
    requires InGroup(ns, es, n, stop, nr, guarded, arc, size, added, run)
    ensures added == run
  {
  }

  lemma GroupRunStep(ns: seq<Node>, es: seq<Arc>, n: int, stop: int, nr: int, guarded: bool, arc: int, size: int,
                     added: seq<int>, more: seq<int>, arc': int, size': int, run: seq<int>)
    requires EndsInRange(ns, es, n, stop) && 0 < nr && n <= arc < stop && arc' == arc + nr && size' == size + |more|
    requires InGroup(ns, es, n, stop, nr, guarded, arc, size, added, run)
    requires more == if Infeasible(ns, es, n, stop, arc) && Room(guarded, size) then [arc] else []
    ensures InGroup(ns, es, n, stop, nr, guarded, arc', size', added + more, run)
  {
    var rest := GroupRun(ns, es, n, stop, nr, guarded, arc', size');
    assert GroupRun(ns, es, n, stop, nr, guarded, arc, size) == more + rest by {
      GroupRunHead(ns, es, n, stop, nr, guarded, arc, size);
    }
    assert added + (more + rest) == added + more + rest;
  }

  /** Unless it ran out of room it has appended every infeasible arc of the group. */
  lemma {:induction false} GroupRunAll(ns: seq<Node>, es: seq<Arc>, n: int, stop: int, nr: int, guarded: bool, arc: int,
                                       size: int, e: int)
    requires EndsInRange(ns, es, n, stop) && 0 < nr && n <= arc <= e && Residue(e - n, nr) == Residue(arc - n, nr)
    requires Infeasible(ns, es, n, stop, e)
    requires !guarded || size + |GroupRun(ns, es, n, stop, nr, guarded, arc, size)| < B
    ensures e in GroupRun(ns, es, n, stop, nr, guarded, arc, size)
    decreases stop - arc
  {
    if arc < e {
      GroupGap(arc - n, e - n, nr);
      assert Residue(arc + nr - n, nr) == Residue(arc - n, nr);
      var size' := size + if Infeasible(ns, es, n, stop, arc) && Room(guarded, size) then 1 else 0;
      GroupRunAll(ns, es, n, stop, nr, guarded, arc + nr, size', e);
    }
  }

  // ----- the loop over the groups

  function NextPos(pos: int, nr: int): int {
    if pos + 1 == nr then 0 else pos + 1
  }

  /** The position has gone from `start` to `pos`, and if wrapped, around the end. */
  predicate Ahead(start: int, pos: int, wrapped: bool, nr: int) {
    0 <= start < nr && 0 <= pos < nr && if wrapped then pos < start else start <= pos
  }

  /** Group r has not had its turn. */
  predicate Due(r: int, start: int, pos: int, wrapped: bool) {
    if wrapped then pos <= r < start else pos <= r || r < start
  }

  /** The arcs appended from group `pos` on, until the basket holds B entries or every group has had
      its turn, and the position then. */
  function GroupsRun(ns: seq<Node>, es: seq<Arc>, n: int, stop: int, nr: int, guarded: bool,
                     start: int, pos: int, wrapped: bool, size: int): (r: (seq<int>, int))
    requires EndsInRange(ns, es, n, stop) && Ahead(start, pos, wrapped, nr)
    ensures AllInfeasible(ns, es, n, stop, r.0)
    ensures 0 <= r.1 < nr
    decreases if wrapped then start - pos else nr - pos + start
  {
    var s := GroupRun(ns, es, n, stop, nr, guarded, n + pos, size);
    var pos', wrapped' := NextPos(pos, nr), wrapped || pos + 1 == nr;
    if size + |s| < B && pos' != start then
      var (rest, end) := GroupsRun(ns, es, n, stop, nr, guarded, start, pos', wrapped', size + |s|);
      (s + rest, end)
    else (s, pos')
  }

  /** These arcs have been added, and what is to come from group `pos` on completes the run. */
  ghost predicate ToCome(ns: seq<Node>, es: seq<Arc>, n: int, stop: int, nr: int, guarded: bool, start: int, pos: int,
                         wrapped: bool, size: int, added: seq<int>, run: (seq<int>, int))
    requires EndsInRange(ns, es, n, stop) && Ahead(start, pos, wrapped, nr)
  {
    var r := GroupsRun(ns, es, n, stop, nr, guarded, start, pos, wrapped, size);
    run.0 == added + r.0 && run.1 == r.1
  }

  lemma ToComeStep(ns: seq<Node>, es: seq<Arc>, n: int, stop: int, nr: int, guarded: bool, start: int, pos: int,
                   wrapped: bool, size: int, added: seq<int>, run: (seq<int>, int), more: seq<int>, size': int)
    requires EndsInRange(ns, es, n, stop) && Ahead(start, pos, wrapped, nr)
    requires ToCome(ns, es, n, stop, nr, guarded, start, pos, wrapped, size, added, run)
    requires more == GroupRun(ns, es, n, stop, nr, guarded, n + pos, size) && size' == size + |more|
    ensures var pos', wrapped' := NextPos(pos, nr), wrapped || pos + 1 == nr;
      if size' < B && pos' != start then
        && Ahead(start, pos', wrapped', nr)
        && ToCome(ns, es, n, stop, nr, guarded, start, pos', wrapped', size', added + more, run)
      else run == (added + more, pos')
  {
    var pos', wrapped' := NextPos(pos, nr), wrapped || pos + 1 == nr;
    if size' < B && pos' != start {
      var rest := GroupsRun(ns, es, n, stop, nr, guarded, start, pos', wrapped', size').0;
      assert added + (more + rest) == (added + more) + rest;
    }
  }

  /** A basket that is not filled has got every infeasible arc of the groups that were due. */
  lemma {:induction false} GroupsRunAll(ns: seq<Node>, es: seq<Arc>, n: int, stop: int, nr: int, guarded: bool,
                                        start: int, pos: int, wrapped: bool, size: int, e: int)
    requires EndsInRange(ns, es, n, stop) && Ahead(start, pos, wrapped, nr)
    requires Infeasible(ns, es, n, stop, e) && Due(Residue(e - n, nr), start, pos, wrapped)
    requires size + |GroupsRun(ns, es, n, stop, nr, guarded, start, pos, wrapped, size).0| < B
    ensures e in GroupsRun(ns, es, n, stop, nr, guarded, start, pos, wrapped, size).0
    decreases if wrapped then start - pos else nr - pos + start
  {
    var s := GroupRun(ns, es, n, stop, nr, guarded, n + pos, size);
    var pos', wrapped' := NextPos(pos, nr), wrapped || pos + 1 == nr;
    if Residue(e - n, nr) == pos {
      ResidueBelow(e - n, nr);
      GroupRunAll(ns, es, n, stop, nr, guarded, n + pos, size, e);
    } else if size + |s| < B && pos' != start {
      GroupsRunAll(ns, es, n, stop, nr, guarded, start, pos', wrapped', size + |s|, e);
    }
  }

  /** A run through a group appends arcs of that group only. */
  lemma {:induction false} GroupRunOnly(ns: seq<Node>, es: seq<Arc>, n: int, stop: int, nr: int, guarded: bool,
                                        arc: int, size: int, e: int)
    requires EndsInRange(ns, es, n, stop) && 0 < nr && n <= arc
    requires e in GroupRun(ns, es, n, stop, nr, guarded, arc, size)
    ensures arc <= e && Residue(e - n, nr) == Residue(arc - n, nr)
    decreases stop - arc
  {
    if e != arc {
      assert Residue(arc + nr - n, nr) == Residue(arc - n, nr);
      var size' := size + if Infeasible(ns, es, n, stop, arc) && Room(guarded, size) then 1 else 0;
      GroupRunOnly(ns, es, n, stop, nr, guarded, arc + nr, size', e);
    }
  }

  /** Group r has its turn in a call that goes from `pos` to `end`. */
  predicate HasTurn(r: int, start: int, pos: int, wrapped: bool, end: int) {
    Due(r, start, pos, wrapped) && (end == start || !Due(r, start, end, wrapped || end <= pos))
  }

  lemma TurnStep(r: int, start: int, pos: int, wrapped: bool, end: int, nr: int)
    requires Ahead(start, pos, wrapped, nr) && 0 <= r < nr && NextPos(pos, nr) != start
    requires 0 <= end < nr
    requires end == start || (end != NextPos(pos, nr) && Due(end, start, NextPos(pos, nr), wrapped || pos + 1 == nr))
    ensures HasTurn(r, start, pos, wrapped, end)
       <==> r == pos || HasTurn(r, start, NextPos(pos, nr), wrapped || pos + 1 == nr, end)
    ensures end == start || (end != pos && Due(end, start, pos, wrapped))
  {
  }

  lemma LastTurn(r: int, start: int, pos: int, wrapped: bool, nr: int)
    requires Ahead(start, pos, wrapped, nr) && 0 <= r < nr
    ensures var end := NextPos(pos, nr);
      && (HasTurn(r, start, pos, wrapped, end) <==> r == pos)
      && (end == start || (end != pos && Due(end, start, pos, wrapped)))
  {
  }

  /** The position in the end is right behind the last group that had its turn, which are all groups or enough
      to fill the basket: what is appended comes from the groups up to it, and without the guard it is every
      infeasible arc of theirs. */
  lemma {:induction false} GroupsRunExact(ns: seq<Node>, es: seq<Arc>, n: int, stop: int, nr: int, guarded: bool,
                                          start: int, pos: int, wrapped: bool, size: int, e: int)
    requires EndsInRange(ns, es, n, stop) && Ahead(start, pos, wrapped, nr) && n <= e
    ensures var (s, end) := GroupsRun(ns, es, n, stop, nr, guarded, start, pos, wrapped, size);
      && (end == start || (end != pos && Due(end, start, pos, wrapped) && size + |s| >= B))
      && (e in s ==> Infeasible(ns, es, n, stop, e) && HasTurn(Residue(e - n, nr), start, pos, wrapped, end))
      && (!guarded && Infeasible(ns, es, n, stop, e) && HasTurn(Residue(e - n, nr), start, pos, wrapped, end) ==>
           e in s)
    decreases if wrapped then start - pos else nr - pos + start
  {
    var s := GroupRun(ns, es, n, stop, nr, guarded, n + pos, size);
    var pos', wrapped' := NextPos(pos, nr), wrapped || pos + 1 == nr;
    GroupExact(ns, es, n, stop, nr, guarded, pos, size, e);
    if size + |s| < B && pos' != start {
      GroupsRunExact(ns, es, n, stop, nr, guarded, start, pos', wrapped', size + |s|, e);
      var end := GroupsRun(ns, es, n, stop, nr, guarded, start, pos', wrapped', size + |s|).1;
      TurnStep(Residue(e - n, nr), start, pos, wrapped, end, nr);
    } else {
      LastTurn(Residue(e - n, nr), start, pos, wrapped, nr);
    }
  }

  lemma GroupExact(ns: seq<Node>, es: seq<Arc>, n: int, stop: int, nr: int, guarded: bool, pos: int, size: int, e: int)
    requires EndsInRange(ns, es, n, stop) && 0 <= pos < nr && n <= e
    ensures var s := GroupRun(ns, es, n, stop, nr, guarded, n + pos, size);
      && (e in s ==> Infeasible(ns, es, n, stop, e) && Residue(e - n, nr) == pos)
      && (!guarded && Infeasible(ns, es, n, stop, e) && Residue(e - n, nr) == pos ==> e in s)
  {
    var s := GroupRun(ns, es, n, stop, nr, guarded, n + pos, size);
    if e in s {
      GroupRunOnly(ns, es, n, stop, nr, guarded, n + pos, size, e);
    }
    if Residue(e - n, nr) == pos && !guarded && Infeasible(ns, es, n, stop, e) {
      ResidueBelow(e - n, nr);
      GroupRunAll(ns, es, n, stop, nr, guarded, n + pos, size, e);
    }
  }

  lemma {:induction false} ResidueBelow(x: int, nr: int)
    requires 0 <= x && 0 < nr
    ensures Residue(x, nr) <= x && Residue(Residue(x, nr), nr) == Residue(x, nr)
  {
    if x >= nr {
      ResidueBelow(x - nr, nr);
    }
  }

  // ----- the kept arcs

  /** The arcs of a list that are infeasible, in their order. */
  function Survivors(ns: seq<Node>, es: seq<Arc>, n: int, stop: int, s: seq<int>): (r: seq<int>)
    requires EndsInRange(ns, es, n, stop)
    ensures |r| <= |s| && AllInfeasible(ns, es, n, stop, r)
  {
    if s == [] then [] else
      Survivors(ns, es, n, stop, s[..|s| - 1])
      + if Infeasible(ns, es, n, stop, s[|s| - 1]) then [s[|s| - 1]] else []
  }

  lemma {:induction false} SurvivorsAre(ns: seq<Node>, es: seq<Arc>, n: int, stop: int, s: seq<int>, a: int)
    requires EndsInRange(ns, es, n, stop)
    ensures a in Survivors(ns, es, n, stop, s) <==> a in s && Infeasible(ns, es, n, stop, a)
  {
    if s != [] {
      assert a in s <==> a in s[..|s| - 1] || a == s[|s| - 1];
      SurvivorsAre(ns, es, n, stop, s[..|s| - 1], a);
    }
  }

  lemma SurvivorsMore(ns: seq<Node>, es: seq<Arc>, n: int, stop: int, s: seq<int>, arc: int)
    requires EndsInRange(ns, es, n, stop)
    ensures Survivors(ns, es, n, stop, s + [arc])
            == Survivors(ns, es, n, stop, s) + if Infeasible(ns, es, n, stop, arc) then [arc] else []
  {
    assert (s + [arc])[..|s|] == s;
  }

  // ----- the entries of a call

  function Abs(x: int): nat {
    if x >= 0 then x else -x
  }

  /** A kept entry has the reduced cost itself as its key. */
  function KeptEntry(ns: seq<Node>, es: seq<Arc>, n: int, stop: int, a: int): Entry
    requires EndsInRange(ns, es, n, stop) && n <= a < stop
  {
    var c := ReducedCost(ns, es[a]);
    Entry(a, c, c)
  }

  /** A new entry has its absolute value. */
  function NewEntry(ns: seq<Node>, es: seq<Arc>, n: int, stop: int, a: int): Entry
    requires EndsInRange(ns, es, n, stop) && n <= a < stop
  {
    var c := ReducedCost(ns, es[a]);
    Entry(a, c, Abs(c))
  }

  function KeptEntries(ns: seq<Node>, es: seq<Arc>, n: int, stop: int, s: seq<int>): (l: seq<Entry>)
    requires EndsInRange(ns, es, n, stop) && AllInfeasible(ns, es, n, stop, s)
    ensures |l| == |s| && forall i {:trigger l[i]} :: 0 <= i < |l| ==> l[i] == KeptEntry(ns, es, n, stop, s[i])
  {
    seq(|s|, i requires 0 <= i < |s| => KeptEntry(ns, es, n, stop, s[i]))
  }

  function NewEntries(ns: seq<Node>, es: seq<Arc>, n: int, stop: int, s: seq<int>): (l: seq<Entry>)
    requires EndsInRange(ns, es, n, stop) && AllInfeasible(ns, es, n, stop, s)
    ensures |l| == |s| && forall i {:trigger l[i]} :: 0 <= i < |l| ==> l[i] == NewEntry(ns, es, n, stop, s[i])
  {
    seq(|s|, i requires 0 <= i < |s| => NewEntry(ns, es, n, stop, s[i]))
  }

  /** The entries of a call that has kept and appended these arcs. */
  function Entries(ns: seq<Node>, es: seq<Arc>, n: int, stop: int, kept: seq<int>, added: seq<int>): seq<Entry>
    requires EndsInRange(ns, es, n, stop) && AllInfeasible(ns, es, n, stop, kept)
      && AllInfeasible(ns, es, n, stop, added)
  {
    KeptEntries(ns, es, n, stop, kept) + NewEntries(ns, es, n, stop, added)
  }

  lemma NewEntriesMore(ns: seq<Node>, es: seq<Arc>, n: int, stop: int, s: seq<int>, t: seq<int>)
    requires EndsInRange(ns, es, n, stop) && AllInfeasible(ns, es, n, stop, s) && AllInfeasible(ns, es, n, stop, t)
    ensures AllInfeasible(ns, es, n, stop, s + t)
    ensures NewEntries(ns, es, n, stop, s + t) == NewEntries(ns, es, n, stop, s) + NewEntries(ns, es, n, stop, t)
  {
  }

  // ----- what the entry with the largest key is

  /** An entry of the list that no other has a larger key than. */
  ghost predicate Front(l: seq<Entry>, best: Entry) {
    best in l && forall x {:trigger x in l} :: x in l ==> x.absCost <= best.absCost
  }

  /** Its reduced cost is the largest in absolute value. */
  ghost predicate Largest(l: seq<Entry>, best: Entry) {
    forall x {:trigger x in l} :: x in l ==> Abs(x.cost) <= Abs(best.cost)
  }

  /** Arc b is priced by its absolute reduced cost: it is new, or kept at its upper bound. */
  predicate TrueKey(es: seq<Arc>, n: int, stop: int, kept: seq<int>, added: seq<int>, b: int)
    requires 0 <= n <= stop <= |es|
  {
    n <= b < stop && (b in added || (b in kept && es[b].ident == AT_UPPER))
  }

  /** Some such arc is at least as far from feasible as arc a. */
  ghost predicate Matched(ns: seq<Node>, es: seq<Arc>, n: int, stop: int, kept: seq<int>, added: seq<int>, a: int)
    requires EndsInRange(ns, es, n, stop) && n <= a < stop
  {
    exists b :: TrueKey(es, n, stop, kept, added, b) && Abs(ReducedCost(ns, es[a])) <= Abs(ReducedCost(ns, es[b]))
  }

  /** Every arc in the basket has the reduced cost of arc a. */
  ghost predicate AllAlike(ns: seq<Node>, es: seq<Arc>, n: int, stop: int, kept: seq<int>, added: seq<int>, a: int)
    requires EndsInRange(ns, es, n, stop) && n <= a < stop
  {
    forall b {:trigger b in kept} {:trigger b in added} :: n <= b < stop && (b in kept || b in added) ==>
      ReducedCost(ns, es[b]) == ReducedCost(ns, es[a])
  }

  /** No arc kept at its lower bound is hidden by the negative key it has got. */
  ghost predicate NoneHidden(ns: seq<Node>, es: seq<Arc>, n: int, stop: int, kept: seq<int>, added: seq<int>)
    requires EndsInRange(ns, es, n, stop)
  {
    forall a {:trigger a in kept} :: a in kept && n <= a < stop && es[a].ident == AT_LOWER ==>
      Matched(ns, es, n, stop, kept, added, a) || AllAlike(ns, es, n, stop, kept, added, a)
  }

  /** Where an entry of a call comes from. */
  lemma EntryOrigin(ns: seq<Node>, es: seq<Arc>, n: int, stop: int, kept: seq<int>, added: seq<int>, x: Entry)
    requires EndsInRange(ns, es, n, stop) && AllInfeasible(ns, es, n, stop, kept)
      && AllInfeasible(ns, es, n, stop, added)
    ensures x in Entries(ns, es, n, stop, kept, added) <==>
      n <= x.a < stop && ((x.a in kept && x == KeptEntry(ns, es, n, stop, x.a))
        || (x.a in added && x == NewEntry(ns, es, n, stop, x.a)))
  {
    var l := Entries(ns, es, n, stop, kept, added);
    if x.a in kept && n <= x.a < stop && x == KeptEntry(ns, es, n, stop, x.a) {
      var i :| 0 <= i < |kept| && kept[i] == x.a;
      assert l[i] == x;
    } else if x.a in added && n <= x.a < stop && x == NewEntry(ns, es, n, stop, x.a) {
      var i :| 0 <= i < |added| && added[i] == x.a;
      assert l[|kept| + i] == x;
    }
  }

  /** A key is the absolute reduced cost, or for an arc kept at its lower bound the negative one. */
  lemma Keys(ns: seq<Node>, es: seq<Arc>, n: int, stop: int, kept: seq<int>, added: seq<int>, x: Entry)
    requires EndsInRange(ns, es, n, stop) && AllInfeasible(ns, es, n, stop, kept)
      && AllInfeasible(ns, es, n, stop, added)
    requires x in Entries(ns, es, n, stop, kept, added)
    ensures Infeasible(ns, es, n, stop, x.a) && x.cost == ReducedCost(ns, es[x.a]) != 0
    ensures x.a in kept || x.a in added
    ensures if x.absCost > 0 then x.absCost == Abs(x.cost) && TrueKey(es, n, stop, kept, added, x.a)
            else x.absCost == x.cost && x.a in kept && es[x.a].ident == AT_LOWER
  {
    EntryOrigin(ns, es, n, stop, kept, added, x);
  }

  lemma TrueKeyEntry(ns: seq<Node>, es: seq<Arc>, n: int, stop: int, kept: seq<int>, added: seq<int>, b: int)
    requires EndsInRange(ns, es, n, stop) && AllInfeasible(ns, es, n, stop, kept)
      && AllInfeasible(ns, es, n, stop, added)
    requires TrueKey(es, n, stop, kept, added, b)
    ensures NewEntry(ns, es, n, stop, b) in Entries(ns, es, n, stop, kept, added)
  {
    EntryOrigin(ns, es, n, stop, kept, added, NewEntry(ns, es, n, stop, b));
  }

  lemma KeptIn(ns: seq<Node>, es: seq<Arc>, n: int, stop: int, kept: seq<int>, added: seq<int>, a: int)
    requires EndsInRange(ns, es, n, stop) && AllInfeasible(ns, es, n, stop, kept)
      && AllInfeasible(ns, es, n, stop, added)
    requires a in kept
    ensures Infeasible(ns, es, n, stop, a) && KeptEntry(ns, es, n, stop, a) in Entries(ns, es, n, stop, kept, added)
  {
    EntryOrigin(ns, es, n, stop, kept, added, KeptEntry(ns, es, n, stop, a));
  }

  lemma LargestHidesNone(ns: seq<Node>, es: seq<Arc>, n: int, stop: int, kept: seq<int>, added: seq<int>, best: Entry)
    requires EndsInRange(ns, es, n, stop) && AllInfeasible(ns, es, n, stop, kept)
      && AllInfeasible(ns, es, n, stop, added)
    requires Front(Entries(ns, es, n, stop, kept, added), best) && Largest(Entries(ns, es, n, stop, kept, added), best)
    ensures NoneHidden(ns, es, n, stop, kept, added)
  {
    Keys(ns, es, n, stop, kept, added, best);
    forall a | a in kept && n <= a < stop && es[a].ident == AT_LOWER
      ensures Matched(ns, es, n, stop, kept, added, a) || AllAlike(ns, es, n, stop, kept, added, a)
    {
      KeptIn(ns, es, n, stop, kept, added, a);
      if best.absCost <= 0 {
        forall b | n <= b < stop && (b in kept || b in added) ensures ReducedCost(ns, es[b]) == best.cost {
          OnlyHidden(ns, es, n, stop, kept, added, best, b);
        }
      }
    }
  }

  /** If even the largest key is negative, all arcs are as far from feasible as the front one. */
  lemma OnlyHidden(ns: seq<Node>, es: seq<Arc>, n: int, stop: int, kept: seq<int>, added: seq<int>, best: Entry, b: int)
    requires EndsInRange(ns, es, n, stop) && AllInfeasible(ns, es, n, stop, kept)
      && AllInfeasible(ns, es, n, stop, added)
    requires Front(Entries(ns, es, n, stop, kept, added), best) && Largest(Entries(ns, es, n, stop, kept, added), best)
    requires best.absCost <= 0 && n <= b < stop && (b in kept || b in added)
    ensures ReducedCost(ns, es[b]) == best.cost
  {
    Keys(ns, es, n, stop, kept, added, best);
    if TrueKey(es, n, stop, kept, added, b) {
      TrueKeyEntry(ns, es, n, stop, kept, added, b);
      Keys(ns, es, n, stop, kept, added, NewEntry(ns, es, n, stop, b));
    } else {
      KeptIn(ns, es, n, stop, kept, added, b);
    }
  }

  lemma NoneHiddenLargest(ns: seq<Node>, es: seq<Arc>, n: int, stop: int, kept: seq<int>, added: seq<int>, best: Entry,
                          x: Entry)
    requires EndsInRange(ns, es, n, stop) && AllInfeasible(ns, es, n, stop, kept)
      && AllInfeasible(ns, es, n, stop, added)
    requires Front(Entries(ns, es, n, stop, kept, added), best) && NoneHidden(ns, es, n, stop, kept, added)
    requires x in Entries(ns, es, n, stop, kept, added)
    ensures Abs(x.cost) <= Abs(best.cost)
  {
    Keys(ns, es, n, stop, kept, added, best);
    Keys(ns, es, n, stop, kept, added, x);
    if x.absCost <= 0 && Matched(ns, es, n, stop, kept, added, x.a) {
      var b :| TrueKey(es, n, stop, kept, added, b) && Abs(ReducedCost(ns, es[x.a])) <= Abs(ReducedCost(ns, es[b]));
      TrueKeyEntry(ns, es, n, stop, kept, added, b);
    }
  }

  /** The entry at the front has the largest absolute reduced cost in the basket exactly if no arc
      kept at its lower bound is hidden by its key. */
  lemma LargestIff(ns: seq<Node>, es: seq<Arc>, n: int, stop: int, kept: seq<int>, added: seq<int>, best: Entry)
    requires EndsInRange(ns, es, n, stop) && AllInfeasible(ns, es, n, stop, kept)
      && AllInfeasible(ns, es, n, stop, added)
    requires Front(Entries(ns, es, n, stop, kept, added), best)
    ensures Largest(Entries(ns, es, n, stop, kept, added), best) <==> NoneHidden(ns, es, n, stop, kept, added)
  {
    if Largest(Entries(ns, es, n, stop, kept, added), best) {
      LargestHidesNone(ns, es, n, stop, kept, added, best);
    }
    if NoneHidden(ns, es, n, stop, kept, added) {
      forall x {:trigger x in Entries(ns, es, n, stop, kept, added)} | x in Entries(ns, es, n, stop, kept, added)
        ensures Abs(x.cost) <= Abs(best.cost)
      {
        NoneHiddenLargest(ns, es, n, stop, kept, added, best, x);
      }
    }
  }
}
