/** Type2CacheControllerImpl of runtime/src/CiraRuntime.cpp: a write-back cache of host memory with
    MESI states. Memory is a row of 64-byte lines; a line is addressed by its number. */
module Type2Cache {
  const LINE_BYTES := 64

  datatype CoherencyState = INVALID | SHARED | EXCLUSIVE | MODIFIED

  datatype CacheLine = CacheLine(data: seq<int>, state: CoherencyState, dirty: bool)

  type Memory = seq<seq<int>>

  predicate AllLines(host: Memory) {
    forall l {:trigger host[l]} :: 0 <= l < |host| ==> |host[l]| == LINE_BYTES
  }

  /** The line as the device sees it. */
  function Seen(host: Memory, cache: map<int, CacheLine>, l: int): seq<int>
    requires 0 <= l < |host|
  {
    if l in cache && cache[l].state != INVALID then cache[l].data else host[l]
  }

  function Look(host: Memory, cache: map<int, CacheLine>): (view: Memory)
    ensures |view| == |host| && forall l {:trigger view[l]} :: 0 <= l < |host| ==> view[l] == Seen(host, cache, l)
  {
    seq(|host|, l requires 0 <= l < |host| => Seen(host, cache, l))
  }

  /** A dirty line is MODIFIED, and a clean valid line is what host memory holds. */
  ghost predicate LineOk(host: Memory, cache: map<int, CacheLine>, l: int)
    requires l in cache
  {
    && 0 < l < |host| && |cache[l].data| == LINE_BYTES
    && (cache[l].dirty ==> cache[l].state == MODIFIED)
    && (cache[l].state != INVALID && !cache[l].dirty ==> cache[l].data == host[l])
  }

  ghost predicate Coherent(host: Memory, cache: map<int, CacheLine>) {
    && AllLines(host)
    && (forall l {:trigger cache[l]} :: l in cache ==> LineOk(host, cache, l))
  }

  /** The first bytes of a line replaced; more than a line is cut off. */
  function Overwrite(line: seq<int>, data: seq<int>): (r: seq<int>)
    requires |line| == LINE_BYTES
    ensures |r| == LINE_BYTES
    ensures forall i {:trigger r[i]} :: 0 <= i < LINE_BYTES ==> r[i] == if i < |data| then data[i] else line[i]
  {
    var n := if |data| < LINE_BYTES then |data| else LINE_BYTES;
    data[..n] + line[n..]
  }

  function Least(a: nat, b: nat): nat {
    if a <= b then a else b
  }

  /** What a new line starts with, or one that is INVALID still holds. */
  function Stale(cache: map<int, CacheLine>, l: int): seq<int> {
    if l in cache then cache[l].data else seq(LINE_BYTES, _ => 0)
  }

  /** The n bytes of memory from byte `skew` of line l on. */
  function Source(host: Memory, l: int, skew: nat, n: nat): (s: seq<int>)
    requires 0 <= l < |host| && InMemory(host, l, skew, n) && AllLines(host)
    ensures |s| == n
    ensures forall i {:trigger s[i]} :: 0 <= i < n ==>
      s[i] == if skew + i < LINE_BYTES then host[l][skew + i] else host[l + 1][skew + i - LINE_BYTES]
  {
    if skew + n <= LINE_BYTES then host[l][skew..skew + n] else host[l][skew..] + host[l + 1][..skew + n - LINE_BYTES]
  }

  predicate InMemory(host: Memory, l: int, skew: nat, n: nat) {
    skew < LINE_BYTES && n <= LINE_BYTES && (skew + n <= LINE_BYTES || l + 1 < |host|)
  }

  /** Byte by byte: f holds what memory has from the address on, up to `size` bytes, and beyond that what
      the line held before, or zeros. */
  ghost predicate PutTogether(host: Memory, cache: map<int, CacheLine>, l: int, skew: nat, size: nat, f: seq<int>)
    requires 0 <= l < |host| && Coherent(host, cache) && InMemory(host, l, skew, Least(size, LINE_BYTES))
  {
    && |f| == LINE_BYTES
    && forall i {:trigger f[i]} :: 0 <= i < LINE_BYTES ==>
         f[i] == if i < size then
                   if skew + i < LINE_BYTES then host[l][skew + i] else host[l + 1][skew + i - LINE_BYTES]
                 else if l in cache then (assert LineOk(host, cache, l); cache[l].data[i]) else 0
  }

  /** The line after a load of `size` bytes at byte `skew` of it: those bytes come to its start. */
  function Fetched(host: Memory, cache: map<int, CacheLine>, l: int, skew: nat, size: nat): (f: seq<int>)
    requires 0 <= l < |host| && Coherent(host, cache) && InMemory(host, l, skew, Least(size, LINE_BYTES))
    ensures PutTogether(host, cache, l, skew, size, f)
  {
    var n := Least(size, LINE_BYTES);
    assert l in cache ==> LineOk(host, cache, l);
    Source(host, l, skew, n) + Stale(cache, l)[n..]
  }

  /** The bytes beyond `size` are those of memory already, or there are none. */
  predicate WholeLine(host: Memory, cache: map<int, CacheLine>, l: int, size: nat)
    requires 0 <= l < |host|
  {
    size >= LINE_BYTES || (|host[l]| == |Stale(cache, l)| == LINE_BYTES && Stale(cache, l)[size..] == host[l][size..])
  }

  /** From the start of the line on, the right bytes are fetched. */
  lemma FetchedWhole(host: Memory, cache: map<int, CacheLine>, l: int, size: nat)
    requires 0 <= l < |host| && Coherent(host, cache)
    ensures Fetched(host, cache, l, 0, size) == host[l] <==> WholeLine(host, cache, l, size)
  {
    var n, f := Least(size, LINE_BYTES), Fetched(host, cache, l, 0, size);
    assert f[..n] == host[l][..n] && f[n..] == Stale(cache, l)[n..];
    assert host[l] == host[l][..n] + host[l][n..];
  }

  class Controller {
    const memory: array<seq<int>>
    var cache: map<int, CacheLine>
    var hits: nat
    var misses: nat

    ghost predicate Valid()
      reads this, memory
    {
      Coherent(memory[..], cache)
    }

    ghost function View(): Memory
      reads this, memory
    {
      Look(memory[..], cache)
    }

    constructor (memory: array<seq<int>>)
      requires forall l {:trigger memory[l]} :: 0 <= l < memory.Length ==> |memory[l]| == LINE_BYTES
      ensures Valid() && this.memory == memory && View() == memory[..] && cache == map[]
    {
      this.memory, cache, hits, misses := memory, map[], 0, 0;
    }

    /** getCoherencyState. */
    function StateOf(l: int): CoherencyState
      reads this
    {
      if l in cache then cache[l].state else INVALID
    }

    /** cacheLoad of `size` bytes at byte `skew` of line l. A miss fetches no more than those, to the
        start of the line, and calls the line SHARED. */
    method Load(l: int, skew: nat, size: nat) returns (data: seq<int>, state: CoherencyState)
      requires Valid() && 0 < l < memory.Length && InMemory(memory[..], l, skew, Least(size, LINE_BYTES))
      modifies this
      ensures old(StateOf(l)) != INVALID ==> data == old(View())[l] && cache == old(cache)
      ensures old(StateOf(l)) == INVALID ==>
        data == Fetched(memory[..], old(cache), l, skew, size)
          && cache == old(cache)[l := CacheLine(data, SHARED, false)]
      ensures old(StateOf(l)) == INVALID ==> PutTogether(memory[..], old(cache), l, skew, size, data)
      ensures Valid() <==> old(StateOf(l)) != INVALID || Fetched(memory[..], old(cache), l, skew, size) == memory[l]
      ensures skew == 0 ==> (Valid() <==> old(StateOf(l)) != INVALID || WholeLine(memory[..], old(cache), l, size))
      ensures Valid() ==> View() == old(View()) && data == View()[l]
      ensures state == StateOf(l) == if old(StateOf(l)) == INVALID then SHARED else old(StateOf(l))
      ensures forall k :: k != l ==> StateOf(k) == old(StateOf(k))
      ensures hits == old(hits) + (if old(StateOf(l)) != INVALID then 1 else 0)
        && hits + misses == old(hits + misses) + 1
    {
      if l in cache && cache[l].state != INVALID {
        hits := hits + 1;
        return cache[l].data, cache[l].state;
      }
      misses := misses + 1;
      ghost var was := cache;
      data := Fetched(memory[..], cache, l, skew, size);
      FetchedWhole(memory[..], cache, l, size);
      cache := cache[l := CacheLine(data, SHARED, false)];
      state := SHARED;
      assert LineOk(memory[..], cache, l) <==> data == memory[l];
      assert forall k :: k in was && k != l ==> LineOk(memory[..], cache, k) by {
        assert forall k :: k in was ==> LineOk(memory[..], was, k);
      }
    }

    /** cacheStore at byte `skew` of line l: a miss fetches a line's worth of bytes from there, and the
        data go to the start of the line. */
    method Store(l: int, skew: nat, data: seq<int>)
      requires Valid() && 0 < l < memory.Length && InMemory(memory[..], l, skew, LINE_BYTES)
      modifies this
      ensures Valid() && |View()| == |old(View())| && |View()[l]| == LINE_BYTES
      ensures forall k :: 0 <= k < memory.Length && k != l ==> View()[k] == old(View())[k]
      // byte by byte, over the old line on a hit and over what memory has from the address on on a miss
      ensures forall i {:trigger View()[l][i]} :: 0 <= i < LINE_BYTES ==>
        View()[l][i] == if i < |data| then data[i]
                        else if skew == 0 || old(StateOf(l)) != INVALID then old(View())[l][i]
                        else if skew + i < LINE_BYTES then memory[l][skew + i]
                        else memory[l + 1][skew + i - LINE_BYTES]
      ensures StateOf(l) == MODIFIED && forall k :: k != l ==> StateOf(k) == old(StateOf(k))
      ensures hits == old(hits) && misses == old(misses) + if old(StateOf(l)) == INVALID then 1 else 0
    {
      ghost var view := View();
      if l !in cache || cache[l].state == INVALID {
        var fetched := Source(memory[..], l, skew, LINE_BYTES);
        assert skew == 0 ==> fetched == memory[l];
        cache := cache[l := CacheLine(fetched, EXCLUSIVE, false)];
        misses := misses + 1;
      }
      var line := cache[l];
      if line.state == SHARED {
        line := line.(state := EXCLUSIVE);
      }
      cache := cache[l := CacheLine(Overwrite(line.data, data), MODIFIED, true)];
    }

    /** cacheEvict. Without write-back the device falls back to what host memory holds. */
    method Evict(l: int, writeback: bool)
      requires Valid() && 0 < l < memory.Length
      modifies `cache, memory
      ensures Valid() && StateOf(l) == INVALID && forall k :: k != l ==> StateOf(k) == old(StateOf(k))
      ensures View() == if writeback then old(View()) else old(View())[l := old(memory[l])]
      ensures memory[..] == if writeback then old(memory[..])[l := old(View())[l]] else old(memory[..])
    {
      if l !in cache {
        return;
      }
      var line := cache[l];
      if writeback && line.dirty {
        memory[l] := line.data;
      }
      cache := cache[l := line.(state := INVALID, dirty := false)];
    }

    /** handleSnoop; a snoop must not bring a line back that is INVALID. */
    method HandleSnoop(l: int, newState: CoherencyState)
      requires Valid() && 0 < l < memory.Length
      modifies `cache, memory
      ensures Valid() <==> SnoopSafe(old(memory[..]), old(cache), l, newState)
      ensures if Valid() then View() == old(View()) else View()[l] != old(View())[l]
      ensures l in old(cache) ==> StateOf(l) == newState
      ensures forall k :: k != l || l !in old(cache) ==> StateOf(k) == old(StateOf(k))
      ensures memory[..] == old(memory[..])[l := if old(StateOf(l)) == INVALID then old(memory[l]) else old(View())[l]]
      ensures cache.Keys == old(cache).Keys && (l in cache ==> cache[l].data == old(cache)[l].data)
    {
      if l !in cache {
        return;
      }
      var line := cache[l];
      if line.state == MODIFIED && line.dirty {
        memory[l] := line.data;
        line := line.(dirty := false);
      }
      line := line.(state := newState);
      if newState == INVALID {
        line := line.(dirty := false);
      }
      cache := cache[l := line];
      assert LineOk(memory[..], cache, l) <==> SnoopSafe(old(memory[..]), old(cache), l, newState);
      assert Valid() ==> cache[l] == line && LineOk(memory[..], cache, l);
    }

    /** One round of invalidateRange. */
    method InvalidateLine(l: int)
      requires Valid()
      modifies `cache, memory
      ensures Valid() && View() == old(View())
      ensures StateOf(l) == INVALID && forall k :: k != l ==> StateOf(k) == old(StateOf(k))
      ensures 0 <= l < memory.Length ==> memory[l] == View()[l]
      ensures forall k :: 0 <= k < memory.Length && k != l ==> memory[k] == old(memory[k])
    {
      if l in cache {
        var line := cache[l];
        if line.dirty && line.state == MODIFIED {
          memory[l] := line.data;
        }
        cache := cache[l := line.(state := INVALID, dirty := false)];
      }
    }

    /** invalidateRange: every line that the bytes base .. base + size - 1 touch, and the one around
        base if base lies within a line. */
    method InvalidateRange(base: nat, size: nat)
      requires Valid()
      modifies `cache, memory
      ensures Valid() && View() == old(View())
      // the lines that end behind base and start before base + size are written back and INVALID
      ensures forall l {:trigger memory[l]} :: 0 <= l < memory.Length ==>
        LINE_BYTES * l + LINE_BYTES > base && LINE_BYTES * l < base + size ==> memory[l] == View()[l]
      ensures forall l {:trigger StateOf(l)} ::
        StateOf(l) == if LINE_BYTES * l + LINE_BYTES > base && LINE_BYTES * l < base + size then INVALID
                      else old(StateOf(l))
    {
      var l, end := base / LINE_BYTES, base + size;
      while LINE_BYTES * l < end
        invariant base / LINE_BYTES <= l && Valid() && View() == old(View())
        invariant LINE_BYTES * l < end + LINE_BYTES
        invariant forall k {:trigger memory[k]} :: base / LINE_BYTES <= k < l && k < memory.Length ==>
          memory[k] == View()[k]
        invariant forall k {:trigger StateOf(k)} ::
          StateOf(k) == if base / LINE_BYTES <= k < l then INVALID else old(StateOf(k))
        decreases end - LINE_BYTES * l
      {
        InvalidateLine(l);
        l := l + 1;
      }
    }

    /** A store by the host: the host takes the line away from the device first. */
    method HostWrite(l: int, data: seq<int>)
      requires Valid() && 0 < l < memory.Length && |data| == LINE_BYTES
      modifies `cache, memory
      ensures Valid() && View() == old(View())[l := data] && memory[l] == data
      ensures cache.Keys == old(cache).Keys
        && (l in cache ==> StateOf(l) == INVALID && cache[l].data == old(cache)[l].data)
    {
      HandleSnoop(l, INVALID);
      ghost var view := View();
      memory[l] := data;
      assert View() == view[l := data];
    }
  }

  /** After invalidateRange the line of every byte of the range is INVALID and up to date in memory. */
  method InvalidateByte(c: Controller, base: nat, size: nat, a: nat)
    requires c.Valid() && base <= a < base + size && a / LINE_BYTES < c.memory.Length
    modifies c, c.memory
    ensures c.Valid() && c.View() == old(c.View())
    ensures c.StateOf(a / LINE_BYTES) == INVALID && c.memory[a / LINE_BYTES] == c.View()[a / LINE_BYTES]
  {
    c.InvalidateRange(base, size);
  }

  /** A snoop keeps the cache coherent exactly if it does not revive an INVALID line whose bytes have
      become stale. */
  predicate SnoopSafe(host: Memory, cache: map<int, CacheLine>, l: int, newState: CoherencyState)
    requires 0 <= l < |host|
  {
    l !in cache || newState == INVALID || cache[l].state != INVALID || cache[l].data == host[l]
  }

  // ----- whole runs against flat memory

  datatype Op =
    | DeviceLoad(l: int)
    | DeviceStore(l: int, data: seq<int>)
    | EvictBack(l: int)
    | Snoop(l: int, newState: CoherencyState)
    | Invalidate(base: nat, size: nat)
    | HostStore(l: int, data: seq<int>)

  predicate OpOk(op: Op, lines: nat) {
    match op
    case Invalidate(_, _) => true
    case HostStore(l, data) => 0 < l < lines && |data| == LINE_BYTES
    case _ => 0 < op.l < lines
  }

  /** Flat memory after an operation: only stores change it. */
  function Flat(m: Memory, op: Op): (m': Memory)
    requires OpOk(op, |m|) && AllLines(m)
    ensures |m'| == |m| && AllLines(m')
    ensures op.DeviceStore? ==> forall i {:trigger m'[op.l][i]} :: 0 <= i < LINE_BYTES ==>
      m'[op.l][i] == if i < |op.data| then op.data[i] else m[op.l][i]
    ensures op.HostStore? ==> m'[op.l] == op.data
    ensures forall l {:trigger m'[l]} :: 0 <= l < |m| && !((op.DeviceStore? || op.HostStore?) && op.l == l) ==>
      m'[l] == m[l]
  {
    match op
    case DeviceStore(l, data) => m[l := Overwrite(m[l], data)]
    case HostStore(l, data) => m[l := data]
    case _ => m
  }

  /** Flat memory after a run, and what its loads return. */
  function FlatRun(m: Memory, ops: seq<Op>): (r: (Memory, seq<seq<int>>))
    requires forall op :: op in ops ==> OpOk(op, |m|)
    requires AllLines(m)
    ensures |r.0| == |m| && AllLines(r.0)
  {
    if ops == [] then (m, [])
    else
      var r := FlatRun(m, ops[..|ops| - 1]);
      var op := ops[|ops| - 1];
      (Flat(r.0, op), if op.DeviceLoad? then r.1 + [r.0[op.l]] else r.1)
  }

  /** The operation keeps the cache coherent: it is no snoop that revives stale bytes. */
  predicate Safe(host: Memory, cache: map<int, CacheLine>, op: Op)
    requires OpOk(op, |host|)
  {
    op.Snoop? ==> SnoopSafe(host, cache, op.l, op.newState)
  }

  /** One operation of a run has the effect it has on flat memory, exactly if it is safe. */
  method Perform(c: Controller, op: Op) returns (data: seq<int>)
    requires c.Valid() && OpOk(op, c.memory.Length)
    modifies c, c.memory
    ensures c.Valid() <==> Safe(old(c.memory[..]), old(c.cache), op)
    ensures c.View() == Flat(old(c.View()), op) <==> Safe(old(c.memory[..]), old(c.cache), op)
    ensures op.DeviceLoad? ==> data == old(c.View())[op.l]
  {
    data := [];
    match op
    case DeviceLoad(l) =>
      var state;
      data, state := c.Load(l, 0, LINE_BYTES);
    case DeviceStore(l, d) =>
      c.Store(l, 0, d);
      assert c.View()[l] == Flat(old(c.View()), op)[l];
    case EvictBack(l) => c.Evict(l, true);
    case Snoop(l, newState) => c.HandleSnoop(l, newState);
    case Invalidate(base, size) => c.InvalidateRange(base, size);
    case HostStore(l, d) => c.HostWrite(l, d);
  }

  /** The cache cannot be told from flat memory: the operations leave the same contents, and every load
      returns the same bytes, up to the first snoop that is not safe. There the contents differ. */
  method PerformAll(c: Controller, ops: seq<Op>) returns (loaded: seq<seq<int>>, done: nat)
    requires c.Valid() && forall op :: op in ops ==> OpOk(op, c.memory.Length)
    modifies c, c.memory
    ensures done <= |ops| && (c.Valid() ==> done == |ops|) && (!c.Valid() ==> done > 0 && ops[done - 1].Snoop?)
    ensures c.View() == FlatRun(old(c.View()), ops[..done]).0 <==> c.Valid()
    ensures loaded == FlatRun(old(c.View()), ops[..done]).1
  {
    loaded, done := [], 0;
    ghost var m := c.View();
    while done < |ops|
      invariant done <= |ops| && c.Valid()
      invariant (c.View(), loaded) == FlatRun(m, ops[..done])
    {
      assert ops[..done + 1][..done] == ops[..done];
      var op, safe := ops[done], Safe(c.memory[..], c.cache, ops[done]);
      var data := Perform(c, op);
      done := done + 1;
      if op.DeviceLoad? {
        loaded := loaded + [data];
      }
      if !safe {
        return;
      }
    }
    assert ops[..done] == ops;
  }

  // ----- where it stops being flat memory

  /** A line is loaded, the host takes it away and stores d, and a snoop to SHARED brings the old
      bytes back. */
  method Revive(memory: array<seq<int>>, d: seq<int>) returns (c: Controller)
    requires forall l {:trigger memory[l]} :: 0 <= l < memory.Length ==> |memory[l]| == LINE_BYTES
    requires memory.Length > 1 && |d| == LINE_BYTES && d != memory[1]
    modifies memory
    ensures c.memory == memory && memory[1] == d && c.View()[1] != d && !c.Valid()
  {
    c := new Controller(memory);
    var data, state := c.Load(1, 0, LINE_BYTES);
    c.HostWrite(1, d);
    c.HandleSnoop(1, SHARED);
  }

  /** After a load of 8 bytes the whole line counts as loaded. */
  method LoadShort(memory: array<seq<int>>) returns (c: Controller, data: seq<int>)
    requires forall l {:trigger memory[l]} :: 0 <= l < memory.Length ==> |memory[l]| == LINE_BYTES
    requires memory.Length > 1 && memory[1][8] != 0
    ensures c.memory == memory && c.View()[1] != memory[1] && !c.Valid()
  {
    c := new Controller(memory);
    var state;
    data, state := c.Load(1, 0, 8);
    assert data[8] == 0;
  }

  /** A load in the middle of a line gives the line the bytes from there. */
  method LoadInside(memory: array<seq<int>>) returns (c: Controller, data: seq<int>)
    requires forall l {:trigger memory[l]} :: 0 <= l < memory.Length ==> |memory[l]| == LINE_BYTES
    requires memory.Length > 2 && memory[1][8] != memory[1][0]
    ensures c.memory == memory && c.View()[1] != memory[1] && !c.Valid()
  {
    c := new Controller(memory);
    var state;
    data, state := c.Load(1, 8, LINE_BYTES);
    assert data[0] == memory[1][8];
  }
}
