/** The copy loops of both sides and the installation of a range in runtime/vortex_device.cpp.
    Memory is an array of bytes, an address is an index, and address 0 is the null pointer. */
module DeviceJobs {
  import opened CxlJob

  const LINE := 64

  // ----- copying

  /** m with the bytes at dst replaced by those of s. */
  function Blit(m: seq<int>, dst: nat, s: seq<int>): (r: seq<int>)
    requires dst + |s| <= |m|
    ensures |r| == |m|
    ensures forall i {:trigger r[i]} :: 0 <= i < |m| ==> r[i] == if dst <= i < dst + |s| then s[i - dst] else m[i]
  {
    seq(|m|, i requires 0 <= i < |m| => if dst <= i < dst + |s| then s[i - dst] else m[i])
  }

  lemma BlitMore(m: seq<int>, dst: nat, s: seq<int>, off: nat, e: nat)
    requires off <= e <= |s| && dst + |s| <= |m|
    ensures Blit(Blit(m, dst, s[..off]), dst + off, s[off..e]) == Blit(m, dst, s[..e])
  {
    assert s[..e] == s[..off] + s[off..e];
  }

  /** One store of the bytes s, all at once. */
  method Store(mem: array<int>, at: nat, s: seq<int>)
    requires at + |s| <= mem.Length
    modifies mem
    ensures mem[..] == Blit(old(mem[..]), at, s)
  {
    forall i | 0 <= i < |s| {
      mem[at + i] := s[i];
    }
  }

  /** One unit of a copy of s: the bytes before off are there already, then those before e are. */
  method StoreNext(mem: array<int>, dst: nat, s: seq<int>, off: nat, e: nat, ghost m: seq<int>)
    requires off <= e <= |s| && dst + |s| <= mem.Length == |m|
    requires mem[..] == Blit(m, dst, s[..off])
    modifies mem
    ensures mem[..] == Blit(m, dst, s[..e])
  {
    BlitMore(m, dst, s, off, e);
    Store(mem, dst + off, s[off..e]);
  }

  /** store_bytes of cira_mmio.cpp: whole words while they last, then single bytes. The units are
      those that the protocol interleaves. */
  method StoreBytes(mem: array<int>, dst: nat, src: seq<int>)
    requires dst + |src| <= mem.Length
    modifies mem
    ensures mem[..] == Blit(old(mem[..]), dst, src)
  {
    ghost var m := mem[..];
    var off := 0;
    while off + 8 <= |src|
      invariant off <= |src| && mem[..] == Blit(m, dst, src[..off])
    {
      StoreNext(mem, dst, src, off, UnitEnd(off, |src|), m);
      off := off + 8;
    }
    while off < |src|
      invariant off <= |src| < off + 8 && mem[..] == Blit(m, dst, src[..off])
    {
      StoreNext(mem, dst, src, off, UnitEnd(off, |src|), m);
      off := off + 1;
    }
    assert src[..off] == src;
  }

  predicate Apart(a: nat, len: nat, b: nat, len': nat) {
    a + len <= b || b + len' <= a
  }

  /** m after the first k bytes of a copy from src to dst. */
  function Copied(m: seq<int>, dst: nat, src: nat, k: nat): (r: seq<int>)
    requires dst + k <= |m| && src + k <= |m|
    ensures |r| == |m|
    ensures forall i {:trigger r[i]} :: 0 <= i < |m| ==> r[i] == if dst <= i < dst + k then m[src + (i - dst)] else m[i]
  {
    Blit(m, dst, m[src..src + k])
  }

  lemma CopiedMore(m: seq<int>, dst: nat, src: nat, size: nat, off: nat, e: nat, d: nat, s: nat, len: nat)
    requires dst + size <= |m| && src + size <= |m| && (dst <= src || src + size <= dst) && off <= e <= size
    requires d == dst + off && s == src + off && len == e - off
    ensures Copied(Copied(m, dst, src, off), d, s, len) == Copied(m, dst, src, e)
  {
    var c := Copied(m, dst, src, off);
    var c' := Copied(c, d, s, len);
    forall i | 0 <= i < |m| ensures c'[i] == Copied(m, dst, src, e)[i] {
      if d <= i < d + len {
        assert c'[i] == c[s + (i - d)];
      }
    }
  }

  /** One word or byte is loaded and stored. */
  method CopyUnit(mem: array<int>, dst: nat, src: nat, len: nat)
    requires dst + len <= mem.Length && src + len <= mem.Length
    modifies mem
    ensures mem[..] == Copied(old(mem[..]), dst, src, len)
  {
    ghost var m := mem[..];
    var unit := mem[src..src + len];
    assert unit == m[src..src + len];
    Store(mem, dst, unit);
  }

  /** Memory after the units of a copy from `off` on, each loaded from memory as the units before it
      have left it. */
  function CopyRun(m: seq<int>, dst: nat, src: nat, off: nat, size: nat): (r: seq<int>)
    requires dst + size <= |m| && src + size <= |m| && off <= size
    ensures |r| == |m|
    decreases size - off
  {
    if off == size then m
    else
      var e := UnitEnd(off, size);
      CopyRun(Copied(m, dst + off, src + off, e - off), dst, src, e, size)
  }

  /** copy_bytes of vortex_device.cpp, between any two ranges of memory. */
  method CopyBytes(mem: array<int>, dst: nat, src: nat, size: nat)
    requires dst + size <= mem.Length && src + size <= mem.Length
    modifies mem
    ensures mem[..] == CopyRun(old(mem[..]), dst, src, 0, size)
  {
    ghost var m := mem[..];
    var off := 0;
    while off < size
      invariant off <= size && CopyRun(mem[..], dst, src, off, size) == CopyRun(m, dst, src, 0, size)
    {
      var e := UnitEnd(off, size);
      CopyUnit(mem, dst + off, src + off, e - off);
      off := e;
    }
  }

  /** Unless the destination starts inside the source it ends up with the bytes of the source. */
  lemma {:induction false} CopyRunApart(m: seq<int>, dst: nat, src: nat, off: nat, size: nat)
    requires dst + size <= |m| && src + size <= |m| && (dst <= src || src + size <= dst) && off <= size
    ensures CopyRun(Copied(m, dst, src, off), dst, src, off, size) == Copied(m, dst, src, size)
    decreases size - off
  {
    if off < size {
      var e := UnitEnd(off, size);
      CopiedMore(m, dst, src, size, off, e, dst + off, src + off, e - off);
      CopyRunApart(m, dst, src, e, size);
    }
  }

  /** A single word is copied whole, whatever its source and destination share. */
  lemma CopyRunWord(m: seq<int>, dst: nat, src: nat)
    requires dst + 8 <= |m| && src + 8 <= |m|
    ensures CopyRun(m, dst, src, 0, 8) == Copied(m, dst, src, 8)
  {
    assert CopyRun(m, dst, src, 0, 8) == CopyRun(Copied(m, dst, src, 8), dst, src, 8, 8);
  }

  /** r is m after the first off bytes from src have been copied to dst, one by one. */
  ghost predicate Smeared(m: seq<int>, r: seq<int>, dst: nat, src: nat, off: nat)
    requires src < dst && dst + off <= |m|
  {
    && |r| == |m|
    && (forall a {:trigger r[a]} :: 0 <= a < |m| && !(dst <= a < dst + off) ==> r[a] == m[a])
    && (forall a {:trigger r[a]} :: dst <= a < dst + off ==>
         r[a] == if a - (dst - src) < dst then m[a - (dst - src)] else r[a - (dst - src)])
  }

  lemma SmearMore(m: seq<int>, r: seq<int>, r': seq<int>, dst: nat, src: nat, off: nat)
    requires src < dst && dst + off < |m| && Smeared(m, r, dst, src, off)
    requires |r'| == |m| && r' == r[dst + off := r[src + off]]
    ensures Smeared(m, r', dst, src, off + 1)
  {
    forall a {:trigger r'[a]} | dst <= a < dst + off + 1
      ensures r'[a] == if a - (dst - src) < dst then m[a - (dst - src)] else r'[a - (dst - src)]
    {
      assert a < dst + off ==> r'[a] == r[a];
    }
  }

  /** Less than a word is copied byte by byte: where the destination starts inside the source, the bytes
      in front of it repeat. */
  lemma {:induction false} CopyRunSmears(m: seq<int>, r: seq<int>, dst: nat, src: nat, off: nat, size: nat)
    requires src < dst && dst + size <= |m| && off <= size < 8 && Smeared(m, r, dst, src, off)
    ensures Smeared(m, CopyRun(r, dst, src, off, size), dst, src, size)
    decreases size - off
  {
    if off < size {
      var r' := Copied(r, dst + off, src + off, 1);
      assert r' == r[dst + off := r[src + off]];
      SmearMore(m, r, r', dst, src, off);
      CopyRunSmears(m, r', dst, src, off + 1, size);
    }
  }

  // ----- install_range

  function AlignDown(a: nat): nat {
    a - a % LINE
  }

  function AlignUp(a: nat): nat {
    AlignDown(a + LINE - 1)
  }

  /** The lines that the range touches, and whether they are all in memory. */
  predicate Installable(size: nat, addr: nat, len: nat) {
    AlignUp(addr + len) <= size
  }

  /** Every line that the range touches is read and written back: memory stays as it is. */
  method InstallRange(mem: array<int>, addr: nat, size: nat) returns (installed: nat)
    requires addr != 0 && size != 0 ==> Installable(mem.Length, addr, size)
    modifies mem
    ensures mem[..] == old(mem[..])
    ensures installed == if addr == 0 || size == 0 then 0 else (addr + size - 1) / LINE - addr / LINE + 1
  {
    installed := 0;
    if addr == 0 || size == 0 {
      return;
    }
    var begin, end := AlignDown(addr), AlignUp(addr + size);
    Aligned(addr, size);
    var line := begin;
    while line < end
      invariant begin <= line <= end && line == begin + LINE * installed
      invariant mem[..] == old(mem[..])
    {
      WholeLines(begin, end, line, installed);
      RewriteLine(mem, line);
      installed := installed + 1;
      line := line + LINE;
    }
    CountsLines(addr, size, installed);
  }

  lemma CountsLines(addr: nat, size: nat, installed: nat)
    requires addr != 0 && size != 0 && AlignDown(addr) + LINE * installed == AlignUp(addr + size)
    ensures installed == (addr + size - 1) / LINE - addr / LINE + 1
  {
  }

  lemma Aligned(addr: nat, size: nat)
    ensures AlignDown(addr) % LINE == 0 && AlignUp(addr + size) % LINE == 0
    ensures AlignDown(addr) <= addr && addr + size <= AlignUp(addr + size) < addr + size + LINE
    ensures AlignDown(addr) <= AlignUp(addr + size)
  {
  }

  lemma WholeLines(begin: nat, end: nat, line: nat, k: nat)
    requires begin % LINE == 0 && end % LINE == 0 && line == begin + LINE * k && line < end
    ensures line + LINE <= end
  {
    assert line % LINE == 0;
  }

  method RewriteLine(mem: array<int>, line: nat)
    requires line + LINE <= mem.Length
    modifies mem
    ensures mem[..] == old(mem[..])
  {
    var words: seq<seq<int>> := [];
    for i := 0 to LINE / 8
      invariant |words| == i && mem[..] == old(mem[..])
      invariant forall k :: 0 <= k < i ==> words[k] == mem[line + 8 * k..line + 8 * k + 8]
    {
      words := words + [mem[line + 8 * i..line + 8 * i + 8]];
    }
    for i := 0 to LINE / 8
      invariant mem[..] == old(mem[..])
    {
      assert words[i] == mem[line + 8 * i..line + 8 * i + 8];
      assert Blit(mem[..], line + 8 * i, words[i]) == mem[..];
      Store(mem, line + 8 * i, words[i]);
    }
  }
}
