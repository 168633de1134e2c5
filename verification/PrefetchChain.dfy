/** run_prefetch_chain of runtime/vortex_device.cpp: the walk over a linked list in memory that gathers
    the data of its nodes in a buffer, and what it comes to when the buffer is apart from the list. */
module PrefetchChain {
  import opened CxlJob
  import opened DeviceJobs
  import opened Records

  /** A pointer in memory. */
  function LoadPointer(m: seq<int>, at: nat): int
    requires at + 8 <= |m|
  {
    Number(m, at, 8)
  }

  /** k times size by repeated addition; SpanIs says that it is the product. */
  function Span(k: nat, size: nat): nat {
    if k == 0 then 0 else Span(k - 1, size) + size
  }

  lemma {:induction false} SpanIs(k: nat, size: nat)
    ensures Span(k, size) == k * size
  {
    if k > 0 {
      SpanIs(k - 1, size);
      assert k * size == (k - 1) * size + size;
    }
  }

  lemma {:induction false} SpanMono(a: nat, b: nat, size: nat)
    requires a <= b
    ensures Span(a, size) <= Span(b, size)
  {
    if a < b {
      SpanMono(a, b - 1, size);
    }
  }

  /** The job has data copied. */
  predicate Gathers(job: Chain) {
    job.buf != 0 && job.dataSize != 0
  }

  /** Where the data of the k-th node go. */
  function Place(job: Chain, k: nat): nat {
    job.buf + Span(k, job.dataSize)
  }

  // ----- the walk, on any memory

  /** The loads and stores of one round lie in memory. */
  predicate InReach(size: nat, job: Chain, node: int, visited: nat) {
    && 0 < node && Installable(size, node, LINE) && node + job.next + 8 <= size
    && (Gathers(job) ==> Place(job, visited) + job.dataSize <= size && node + job.data + job.dataSize <= size)
  }

  /** Memory after one round. */
  function Visit(m: seq<int>, job: Chain, node: int, visited: nat): (r: seq<int>)
    requires InReach(|m|, job, node, visited)
    ensures |r| == |m|
  {
    if Gathers(job) then CopyRun(m, Place(job, visited), node + job.data, 0, job.dataSize) else m
  }

  /** The rounds from `node` on stay in memory. The pointer is read after the copy. */
  predicate Reaches(m: seq<int>, job: Chain, node: int, visited: nat)
    requires visited <= job.depth
    decreases job.depth - visited
  {
    node == 0 || visited == job.depth ||
    (&& InReach(|m|, job, node, visited)
     && (var m' := Visit(m, job, node, visited);
         Reaches(m', job, LoadPointer(m', node + job.next), visited + 1)))
  }

  /** The number of nodes visited in the end, and memory then. */
  function Walk(m: seq<int>, job: Chain, node: int, visited: nat): (r: (nat, seq<int>))
    requires visited <= job.depth && Reaches(m, job, node, visited)
    decreases job.depth - visited
  {
    if node == 0 || visited == job.depth then (visited, m)
    else
      var m' := Visit(m, job, node, visited);
      Walk(m', job, LoadPointer(m', node + job.next), visited + 1)
  }

  predicate Runnable(m: seq<int>, job: Chain) {
    job.start != 0 ==> Reaches(m, job, job.start, 0)
  }

  /** What the job comes to on memory m, and the memory it leaves. */
  function ChainRun(m: seq<int>, job: Chain): (Reply, Memory)
    requires Runnable(m, job)
  {
    if job.start == 0 then (Quiet(BAD_ARGS), m)
    else
      var (visited, after) := Walk(m, job, job.start, 0);
      (Served(job.completion, visited), after)
  }

  method NextNode(mem: array<int>, at: nat) returns (p: int)
    requires at + 8 <= mem.Length
    ensures p == LoadPointer(mem[..], at)
  {
    p := LoadPointer(mem[..], at);
  }

  /** The data of a node go to their place, if the job has data copied. */
  method GatherItem(mem: array<int>, job: Chain, dst: nat, src: nat)
    requires Gathers(job) ==> dst + job.dataSize <= mem.Length && src + job.dataSize <= mem.Length
    modifies mem
    ensures mem[..] == if Gathers(job) then CopyRun(old(mem[..]), dst, src, 0, job.dataSize) else old(mem[..])
  {
    if job.buf != 0 && job.dataSize != 0 {
      CopyBytes(mem, dst, src, job.dataSize);
    }
  }

  /** The line of a node, which memory does not show. */
  method InstallNode(mem: array<int>, node: nat)
    requires node != 0 && Installable(mem.Length, node, LINE)
    modifies mem
    ensures mem[..] == old(mem[..])
  {
    var installed := InstallRange(mem, node, LINE);
  }

  /** One round of the loop: the node's line is installed, its data copied, its pointer read. */
  method VisitNode(mem: array<int>, job: Chain, node: int, visited: nat) returns (next: int)
    requires InReach(mem.Length, job, node, visited)
    modifies mem
    ensures mem[..] == Visit(old(mem[..]), job, node, visited)
    ensures next == LoadPointer(mem[..], node + job.next)
  {
    InstallNode(mem, node);
    GatherItem(mem, job, Place(job, visited), node + job.data);
    next := NextNode(mem, node + job.next);
  }

  method RunPrefetchChain(mem: array<int>, job: Chain) returns (reply: Reply)
    requires Runnable(mem[..], job)
    modifies mem
    ensures (reply, mem[..]) == ChainRun(old(mem[..]), job)
  {
    if job.start == 0 {
      return Quiet(BAD_ARGS);
    }
    ghost var m := mem[..];
    var visited, node := 0, job.start;
    while node != 0 && visited < job.depth
      invariant visited <= job.depth && Reaches(mem[..], job, node, visited)
      invariant Walk(mem[..], job, node, visited) == Walk(m, job, job.start, 0)
      decreases job.depth - visited
    {
      node := VisitNode(mem, job, node, visited);
      visited := visited + 1;
    }
    reply := Served(job.completion, visited);
  }

  // ----- the list

  /** Node `at` can be read, and if data is copied, the buffer overlaps neither data nor pointer. */
  predicate NodeFits(m: seq<int>, job: Chain, at: int) {
    && 0 < at && Installable(|m|, at, LINE) && at + job.next + 8 <= |m|
    && (Gathers(job) ==>
         && at + job.data + job.dataSize <= |m|
         && Apart(job.buf, Span(job.depth, job.dataSize), at + job.next, 8)
         && Apart(job.buf, Span(job.depth, job.dataSize), at + job.data, job.dataSize))
  }

  /** The first k nodes of the list that starts at `at` are all fit to be read. */
  predicate ChainFits(m: seq<int>, job: Chain, at: int, k: nat)
    decreases k
  {
    at == 0 || k == 0 || (NodeFits(m, job, at) && ChainFits(m, job, LoadPointer(m, at + job.next), k - 1))
  }

  /** The addresses of the first k nodes of the list, or of all of them if it is shorter. */
  function Nodes(m: seq<int>, job: Chain, at: int, k: nat): (ns: seq<int>)
    requires ChainFits(m, job, at, k)
    ensures |ns| <= k
    decreases k
  {
    if at == 0 || k == 0 then [] else [at] + Nodes(m, job, LoadPointer(m, at + job.next), k - 1)
  }

  /** The i-th node visited is the one that the node before it points to, and the walk ends after
      depth nodes or at a null pointer. */
  lemma {:induction false} NodeAt(m: seq<int>, job: Chain, at: int, k: nat, i: nat)
    requires ChainFits(m, job, at, k) && i < |Nodes(m, job, at, k)|
    ensures var ns := Nodes(m, job, at, k);
      && ns[0] == at && NodeFits(m, job, ns[i])
      && (if i + 1 < |ns| then ns[i + 1] == LoadPointer(m, ns[i] + job.next)
          else |ns| == k || LoadPointer(m, ns[i] + job.next) == 0)
    decreases k
  {
    var next := LoadPointer(m, at + job.next);
    if i > 0 {
      NodeAt(m, job, next, k - 1, i - 1);
    } else if next != 0 && k > 1 {
      NodeAt(m, job, next, k - 1, 0);
    }
  }

  // ----- the buffer

  /** The len bytes of now from d on are those of m from s on. */
  ghost predicate Holds(now: seq<int>, d: int, m: seq<int>, s: int, len: nat) {
    && 0 <= d && d + len <= |now| && 0 <= s && s + len <= |m|
    && forall a {:trigger now[a]} :: d <= a < d + len ==> now[a] == m[s + (a - d)]
  }

  /** Place i of the buffer holds the data of node `at`. */
  ghost predicate ItemAt(m: seq<int>, job: Chain, i: nat, at: int, now: seq<int>) {
    Holds(now, Place(job, i), m, at + job.data, job.dataSize)
  }

  ghost predicate AllItems(m: seq<int>, job: Chain, ns: seq<int>, now: seq<int>) {
    forall i {:trigger ns[i]} :: 0 <= i < |ns| ==> ItemAt(m, job, i, ns[i], now)
  }

  /** Outside the first len bytes of the buffer now is m. */
  ghost predicate OnlyBuffer(m: seq<int>, buf: nat, len: nat, now: seq<int>) {
    |now| == |m| && forall a {:trigger now[a]} :: 0 <= a < |m| && !(buf <= a < buf + len) ==> now[a] == m[a]
  }

  /** now is m with the data of the nodes ns in the buffer, in this order, if data is copied. */
  ghost predicate Filled(m: seq<int>, job: Chain, ns: seq<int>, now: seq<int>) {
    if Gathers(job) then OnlyBuffer(m, job.buf, Span(|ns|, job.dataSize), now) && AllItems(m, job, ns, now)
    else now == m
  }

  /** Byte b of item j of the buffer is that of the j-th node. */
  ghost predicate ByteThere(m: seq<int>, c: Chain, ns: seq<int>, now: seq<int>, j: int, b: int)
    requires 0 <= j < |ns|
  {
    var at, from := c.buf + j * c.dataSize + b, ns[j] + c.data + b;
    0 <= at < |now| && 0 <= from < |m| && now[at] == m[from]
  }

  /** The same byte by byte: the buffer, if there is one, holds the data of the nodes one behind the
      other, and outside it nothing has changed. */
  ghost predicate Gathered(m: seq<int>, c: Chain, ns: seq<int>, now: seq<int>) {
    && |now| == |m| && (c.buf == 0 ==> now == m)
    && (c.buf != 0 ==>
         && (forall j, b {:trigger ByteThere(m, c, ns, now, j, b)} ::
              0 <= j < |ns| && 0 <= b < c.dataSize ==> ByteThere(m, c, ns, now, j, b))
         && (forall a {:trigger now[a]} :: 0 <= a < |m| && !(c.buf <= a < c.buf + |ns| * c.dataSize) ==>
              now[a] == m[a]))
  }

  lemma FilledMeans(m: seq<int>, c: Chain, ns: seq<int>, now: seq<int>)
    requires Filled(m, c, ns, now)
    ensures Gathered(m, c, ns, now)
  {
    SpanIs(|ns|, c.dataSize);
    if Gathers(c) {
      forall j, b {:trigger ByteThere(m, c, ns, now, j, b)} | 0 <= j < |ns| && 0 <= b < c.dataSize
        ensures ByteThere(m, c, ns, now, j, b)
      {
        assert ItemAt(m, c, j, ns[j], now);
        SpanIs(j, c.dataSize);
        assert now[Place(c, j) + b] == m[ns[j] + c.data + b];
      }
    }
  }

  /** There is room in memory for the data of as many nodes as the job may visit. */
  predicate Roomy(m: seq<int>, job: Chain) {
    Gathers(job) ==> Place(job, job.depth) <= |m|
  }

  /** A list with a buffer apart from it. */
  predicate ChainReady(m: seq<int>, job: Chain) {
    ChainFits(m, job, job.start, job.depth) && Roomy(m, job)
  }

  /** The job counts the nodes of the list, up to its depth, and the buffer holds their data. */
  ghost predicate ChainOutcome(m: seq<int>, job: Chain, reply: Reply, m': seq<int>)
    requires ChainReady(m, job)
  {
    if job.start == 0 then reply == Quiet(BAD_ARGS) && m' == m
    else
      var ns := Nodes(m, job, job.start, job.depth);
      reply == Served(job.completion, |ns|) && Gathered(m, job, ns, m')
  }

  // ----- one round

  /** A copy leaves what it does not reach. */
  lemma HoldsStays(now: seq<int>, d: nat, m: seq<int>, s: int, len: nat, dst: nat, src: nat)
    requires Holds(now, d, m, s, len) && d + len <= dst && dst + len <= |now| && src + len <= |now|
    ensures Holds(Copied(now, dst, src, len), d, m, s, len)
  {
  }

  /** A copy from where now is still m. */
  lemma HoldsCopy(now: seq<int>, m: seq<int>, dst: nat, src: nat, len: nat)
    requires dst + len <= |now| == |m| && src + len <= |now|
    requires forall a {:trigger now[a]} :: src <= a < src + len ==> now[a] == m[a]
    ensures Holds(Copied(now, dst, src, len), dst, m, src, len)
  {
  }

  lemma ItemStays(m: seq<int>, job: Chain, i: nat, at: int, now: seq<int>, k: nat, d: nat, src: nat)
    requires ItemAt(m, job, i, at, now) && i < k && d == Place(job, k)
    requires |now| == |m| && d + job.dataSize <= |m| && src + job.dataSize <= |m|
    ensures ItemAt(m, job, i, at, Copied(now, d, src, job.dataSize))
  {
    SpanMono(i + 1, k, job.dataSize);
    HoldsStays(now, Place(job, i), m, at + job.data, job.dataSize, d, src);
  }

  lemma MoreItems(m: seq<int>, job: Chain, ns: seq<int>, now: seq<int>, node: int, d: nat, src: nat)
    requires AllItems(m, job, ns, now) && |now| == |m| && d + job.dataSize <= |m| && src + job.dataSize <= |m|
    requires d == Place(job, |ns|) && src == node + job.data
    requires forall a {:trigger now[a]} :: src <= a < src + job.dataSize ==> now[a] == m[a]
    ensures AllItems(m, job, ns + [node], Copied(now, d, src, job.dataSize))
  {
    var now', ns' := Copied(now, d, src, job.dataSize), ns + [node];
    HoldsCopy(now, m, d, src, job.dataSize);
    forall i | 0 <= i < |ns'| ensures ItemAt(m, job, i, ns'[i], now') {
      if i < |ns| {
        assert ns'[i] == ns[i];
        ItemStays(m, job, i, ns[i], now, |ns|, d, src);
      }
    }
  }

  lemma MoreBuffer(m: seq<int>, buf: nat, len: nat, now: seq<int>, d: nat, src: nat, size: nat)
    requires OnlyBuffer(m, buf, len, now) && d == buf + len && d + size <= |m| && src + size <= |m|
    ensures OnlyBuffer(m, buf, len + size, Copied(now, d, src, size))
  {
  }

  /** The data of a node is found in memory as it was. */
  lemma DataUntouched(m: seq<int>, buf: nat, k: nat, depth: nat, size: nat, now: seq<int>, src: nat)
    requires OnlyBuffer(m, buf, Span(k, size), now) && k <= depth && src + size <= |m|
    requires Apart(buf, Span(depth, size), src, size)
    ensures forall a {:trigger now[a]} :: src <= a < src + size ==> now[a] == m[a]
  {
    SpanMono(k, depth, size);
  }

  /** There is room for the k-th item, apart from any range that is apart from the buffer. */
  lemma RoomLeft(m: seq<int>, job: Chain, k: nat, src: nat)
    requires Gathers(job) && Roomy(m, job) && k < job.depth
    requires Apart(job.buf, Span(job.depth, job.dataSize), src, job.dataSize)
    ensures Place(job, k) + job.dataSize <= |m|
    ensures Apart(Place(job, k), job.dataSize, src, job.dataSize)
  {
    SpanMono(k + 1, job.depth, job.dataSize);
  }

  lemma CopyFills(m: seq<int>, job: Chain, ns: seq<int>, now: seq<int>, node: int, d: nat, src: nat)
    requires AllItems(m, job, ns, now) && OnlyBuffer(m, job.buf, Span(|ns|, job.dataSize), now) && |ns| < job.depth
    requires d == Place(job, |ns|) && src == node + job.data && d + job.dataSize <= |m| && src + job.dataSize <= |m|
    requires Apart(job.buf, Span(job.depth, job.dataSize), src, job.dataSize)
    ensures AllItems(m, job, ns + [node], Copied(now, d, src, job.dataSize))
    ensures OnlyBuffer(m, job.buf, Span(|ns| + 1, job.dataSize), Copied(now, d, src, job.dataSize))
  {
    DataUntouched(m, job.buf, |ns|, job.depth, job.dataSize, now, src);
    MoreItems(m, job, ns, now, node, d, src);
    MoreBuffer(m, job.buf, Span(|ns|, job.dataSize), now, d, src, job.dataSize);
  }

  lemma VisitCopies(now: seq<int>, job: Chain, node: int, visited: nat)
    requires Gathers(job) && InReach(|now|, job, node, visited)
    requires Apart(Place(job, visited), job.dataSize, node + job.data, job.dataSize)
    ensures Visit(now, job, node, visited) == Copied(now, Place(job, visited), node + job.data, job.dataSize)
  {
    var d, src := Place(job, visited), node + job.data;
    assert Copied(now, d, src, 0) == now;
    CopyRunApart(now, d, src, 0, job.dataSize);
  }

  /** One round puts the data of one node more into the buffer. */
  lemma VisitFills(m: seq<int>, job: Chain, ns: seq<int>, now: seq<int>, node: int)
    requires Filled(m, job, ns, now) && NodeFits(m, job, node) && |ns| < job.depth && Roomy(m, job)
    ensures |now| == |m| && InReach(|m|, job, node, |ns|)
    ensures Filled(m, job, ns + [node], Visit(now, job, node, |ns|))
  {
    if Gathers(job) {
      RoomLeft(m, job, |ns|, node + job.data);
      VisitCopies(now, job, node, |ns|);
      CopyFills(m, job, ns, now, node, Place(job, |ns|), node + job.data);
      assert |ns + [node]| == |ns| + 1;
    }
  }

  /** A pointer is found in memory as it was, whatever has gone into the buffer. */
  lemma PointerUntouched(m: seq<int>, job: Chain, ns: seq<int>, now: seq<int>, node: int)
    requires Filled(m, job, ns, now) && NodeFits(m, job, node) && |ns| <= job.depth
    ensures |now| == |m| && LoadPointer(now, node + job.next) == LoadPointer(m, node + job.next)
  {
    SpanMono(|ns|, job.depth, job.dataSize);
    SameNumber(now, node + job.next, m, node + job.next, 8);
  }

  // ----- the whole walk

  /** How far the walk has come: what it has seen, and what is left to see from `node`. */
  predicate Walking(m: seq<int>, job: Chain, node: int, seen: seq<int>)
    requires ChainFits(m, job, job.start, job.depth)
  {
    && |seen| <= job.depth && ChainFits(m, job, node, job.depth - |seen|)
    && Nodes(m, job, job.start, job.depth) == seen + Nodes(m, job, node, job.depth - |seen|)
  }

  lemma WalkOn(m: seq<int>, job: Chain, node: int, seen: seq<int>)
    requires ChainFits(m, job, job.start, job.depth) && Walking(m, job, node, seen)
    requires node != 0 && |seen| < job.depth
    ensures NodeFits(m, job, node)
    ensures Walking(m, job, LoadPointer(m, node + job.next), seen + [node])
  {
    var rest := Nodes(m, job, LoadPointer(m, node + job.next), job.depth - |seen| - 1);
    assert seen + ([node] + rest) == (seen + [node]) + rest;
  }

  lemma {:induction false} WalkFills(m: seq<int>, job: Chain, seen: seq<int>, now: seq<int>, node: int)
    requires ChainReady(m, job) && Walking(m, job, node, seen) && Filled(m, job, seen, now)
    ensures Reaches(now, job, node, |seen|)
    ensures var (visited, after) := Walk(now, job, node, |seen|);
      visited == |Nodes(m, job, job.start, job.depth)| && Filled(m, job, Nodes(m, job, job.start, job.depth), after)
    decreases job.depth - |seen|
  {
    if node == 0 || |seen| == job.depth {
      assert Nodes(m, job, job.start, job.depth) == seen;
    } else {
      WalkOn(m, job, node, seen);
      VisitFills(m, job, seen, now, node);
      var now' := Visit(now, job, node, |seen|);
      PointerUntouched(m, job, seen + [node], now', node);
      WalkFills(m, job, seen + [node], now', LoadPointer(now', node + job.next));
    }
  }

  /** With the buffer apart from the list the walk stays in memory, counts the nodes and gathers
      their data in order. */
  lemma ChainGathers(m: seq<int>, job: Chain)
    requires ChainReady(m, job)
    ensures Runnable(m, job)
    ensures var (reply, after) := ChainRun(m, job); ChainOutcome(m, job, reply, after)
  {
    if job.start != 0 {
      assert Filled(m, job, [], m);
      WalkFills(m, job, [], m, job.start);
      FilledMeans(m, job, Nodes(m, job, job.start, job.depth), Walk(m, job, job.start, 0).1);
    }
  }
}
