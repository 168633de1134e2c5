/** The argument records of runtime/include/cira_cxl_job.h as bytes: fields of 8 or 4 bytes one behind
    the other, least significant byte first. Encoding and decoding are inverse to each other. */
module Records {
  import opened CxlJob

  // ----- numbers

  /** One more than the greatest number of n bytes. */
  function Limit(n: nat): nat
    decreases n, 0
  {
    if n == 0 then 1 else 0x100 * Limit(n - 1)
  }

  /** The number in n bytes, least significant byte first. */
  function Number(m: seq<int>, at: nat, n: nat): int
    requires at + n <= |m|
    decreases n, |m|
  {
    if n == 0 then 0 else m[at] + 0x100 * Number(m, at + 1, n - 1)
  }

  lemma {:induction false} SameNumber(m: seq<int>, at: nat, m': seq<int>, at': nat, n: nat)
    requires at + n <= |m| && at' + n <= |m'|
    requires forall a {:trigger m[a]} :: at <= a < at + n ==> m[a] == m'[at' + (a - at)]
    ensures Number(m, at, n) == Number(m', at', n)
    decreases n
  {
    if n > 0 {
      SameNumber(m, at + 1, m', at' + 1, n - 1);
    }
  }

  lemma {:induction false} NumberFits(m: seq<int>, at: nat, n: nat)
    requires at + n <= |m| && IsBytes(m)
    ensures 0 <= Number(m, at, n) < Limit(n)
    decreases n
  {
    if n > 0 {
      NumberFits(m, at + 1, n - 1);
    }
  }

  /** The last byte counts most. */
  lemma {:induction false} HighByteLast(m: seq<int>, at: nat, n: nat)
    requires at + n + 1 <= |m|
    ensures Number(m, at, n + 1) == Number(m, at, n) + Limit(n) * m[at + n]
    decreases n
  {
    if n == 0 {
      assert Number(m, at + 1, 0) == 0;
    } else {
      HighByteLast(m, at + 1, n - 1);
      assert 0x100 * (Limit(n - 1) * m[at + n]) == Limit(n) * m[at + n];
    }
  }

  /** An unsigned field. */
  function Field(b: seq<int>, at: nat, n: nat): (v: nat)
    requires at + n <= |b| && IsBytes(b)
    ensures v < Limit(n) && v == Number(b, at, n)
  {
    NumberFits(b, at, n);
    Number(b, at, n)
  }

  function Bytes(v: nat, n: nat): (b: seq<int>)
    ensures |b| == n && IsBytes(b)
    decreases n, v
  {
    if n == 0 then [] else [v % 0x100] + Bytes(v / 0x100, n - 1)
  }

  /** The n bytes of v, wherever they stand, are the number v. */
  lemma {:induction false} NumberOfBytes(v: nat, n: nat, m: seq<int>, at: nat)
    requires v < Limit(n) && at + n <= |m| && m[at..at + n] == Bytes(v, n)
    ensures Number(m, at, n) == v
    decreases n
  {
    if n > 0 {
      assert m[at] == m[at..at + n][0];
      assert m[at + 1..at + 1 + (n - 1)] == m[at..at + n][1..];
      NumberOfBytes(v / 0x100, n - 1, m, at + 1);
    }
  }

  lemma Digit(b: int, rest: int)
    requires 0 <= b < 0x100
    ensures (b + 0x100 * rest) % 0x100 == b && (b + 0x100 * rest) / 0x100 == rest
  {
  }

  /** And the bytes of a number are those it was read from. */
  lemma {:induction false} BytesOfNumber(m: seq<int>, at: nat, n: nat)
    requires at + n <= |m| && IsBytes(m)
    ensures Number(m, at, n) >= 0 && Bytes(Number(m, at, n), n) == m[at..at + n]
    decreases n
  {
    NumberFits(m, at, n);
    if n > 0 {
      NumberFits(m, at + 1, n - 1);
      BytesOfNumber(m, at + 1, n - 1);
      Digit(m[at], Number(m, at + 1, n - 1));
      assert m[at..at + n] == [m[at]] + m[at + 1..at + 1 + (n - 1)];
    }
  }

  // ----- fields one behind the other

  /** Where field k starts. */
  function Offset(ws: seq<nat>, k: nat): nat
    requires k <= |ws|
    decreases k, |ws|
  {
    if k == 0 then 0 else Offset(ws, k - 1) + ws[k - 1]
  }

  /** The bytes of the first k fields. */
  function Pack(vs: seq<nat>, ws: seq<nat>, k: nat): (b: seq<int>)
    requires k <= |vs| == |ws|
    ensures |b| == Offset(ws, k) && IsBytes(b)
    decreases k, |ws|
  {
    if k == 0 then [] else Pack(vs, ws, k - 1) + Bytes(vs[k - 1], ws[k - 1])
  }

  lemma {:induction false} PackedAt(vs: seq<nat>, ws: seq<nat>, n: nat, k: nat)
    requires k < n <= |vs| == |ws|
    ensures Offset(ws, k) + ws[k] <= Offset(ws, n)
    ensures Pack(vs, ws, n)[Offset(ws, k)..Offset(ws, k) + ws[k]] == Bytes(vs[k], ws[k])
    decreases n
  {
    var b, init, at := Pack(vs, ws, n), Pack(vs, ws, n - 1), Offset(ws, k);
    if k < n - 1 {
      PackedAt(vs, ws, n - 1, k);
      assert b[at..at + ws[k]] == init[at..at + ws[k]];
    } else {
      assert b[at..at + ws[k]] == Bytes(vs[k], ws[k]);
    }
  }

  /** Field k of the packed record, at its place. */
  lemma PackedField(vs: seq<nat>, ws: seq<nat>, k: nat, at: nat, w: nat, v: nat)
    requires k < |vs| == |ws| && at == Offset(ws, k) && w == ws[k] && v == vs[k] && v < Limit(w)
    ensures at + w <= |Pack(vs, ws, |ws|)| && Number(Pack(vs, ws, |ws|), at, w) == v
  {
    PackedAt(vs, ws, |ws|, k);
    NumberOfBytes(v, w, Pack(vs, ws, |ws|), at);
  }

  /** Field k of b is the value k. */
  ghost predicate HasField(b: seq<int>, vs: seq<nat>, ws: seq<nat>, k: nat)
    requires k < |vs| == |ws|
  {
    Offset(ws, k) + ws[k] <= |b| && b[Offset(ws, k)..Offset(ws, k) + ws[k]] == Bytes(vs[k], ws[k])
  }

  lemma ReadField(b: seq<int>, vs: seq<nat>, ws: seq<nat>, k: nat, at: nat, w: nat)
    requires k < |vs| == |ws| && at == Offset(ws, k) && w == ws[k]
    requires at + w <= |b| && IsBytes(b) && vs[k] == Field(b, at, w)
    ensures HasField(b, vs, ws, k)
  {
    BytesOfNumber(b, at, w);
  }

  /** A record whose fields all hold is the packed one. */
  lemma {:induction false} PackIs(b: seq<int>, vs: seq<nat>, ws: seq<nat>, k: nat)
    requires k <= |vs| == |ws| && Offset(ws, k) <= |b|
    requires forall j :: 0 <= j < k ==> HasField(b, vs, ws, j)
    ensures Pack(vs, ws, k) == b[..Offset(ws, k)]
    decreases k
  {
    if k > 0 {
      PackIs(b, vs, ws, k - 1);
      assert HasField(b, vs, ws, k - 1);
      assert b[..Offset(ws, k)] == b[..Offset(ws, k - 1)] + b[Offset(ws, k - 1)..Offset(ws, k)];
    }
  }

  /** The places of up to 8 fields. */
  lemma Offsets(ws: seq<nat>)
    requires |ws| <= 8
    ensures Offset(ws, 0) == 0
    ensures |ws| > 0 ==> Offset(ws, 1) == ws[0]
    ensures |ws| > 1 ==> Offset(ws, 2) == ws[0] + ws[1]
    ensures |ws| > 2 ==> Offset(ws, 3) == ws[0] + ws[1] + ws[2]
    ensures |ws| > 3 ==> Offset(ws, 4) == ws[0] + ws[1] + ws[2] + ws[3]
    ensures |ws| > 4 ==> Offset(ws, 5) == ws[0] + ws[1] + ws[2] + ws[3] + ws[4]
    ensures |ws| > 5 ==> Offset(ws, 6) == ws[0] + ws[1] + ws[2] + ws[3] + ws[4] + ws[5]
    ensures |ws| > 6 ==> Offset(ws, 7) == ws[0] + ws[1] + ws[2] + ws[3] + ws[4] + ws[5] + ws[6]
    ensures |ws| > 7 ==> Offset(ws, 8) == ws[0] + ws[1] + ws[2] + ws[3] + ws[4] + ws[5] + ws[6] + ws[7]
  {
    if |ws| > 1 { assert Offset(ws, 2) == Offset(ws, 1) + ws[1]; }
    if |ws| > 2 { assert Offset(ws, 3) == Offset(ws, 2) + ws[2]; }
    if |ws| > 3 { assert Offset(ws, 4) == Offset(ws, 3) + ws[3]; }
    if |ws| > 4 { assert Offset(ws, 5) == Offset(ws, 4) + ws[4]; }
    if |ws| > 5 { assert Offset(ws, 6) == Offset(ws, 5) + ws[5]; }
    if |ws| > 6 { assert Offset(ws, 7) == Offset(ws, 6) + ws[6]; }
  }

  // ----- INSTALL_CACHELINE

  /** cira_cxl_install_cacheline_job_t. */
  datatype Install = InstallRecord(addr: nat, size: nat, completion: nat, level: nat, reserved: nat)

  function InstallValues(c: Install): seq<nat> {
    [c.addr, c.size, c.completion, c.level, c.reserved]
  }

  const INSTALL_CACHELINE_WIDTHS: seq<nat> := [8, 8, 8, 4, 4]

  function EncodeInstall(c: Install): (b: seq<int>)
    ensures IsBytes(b)
  {
    Pack(InstallValues(c), INSTALL_CACHELINE_WIDTHS, 5)
  }

  function DecodeInstall(b: seq<int>): (c: Install)
    requires |b| == 32 && IsBytes(b)
    ensures TypedInstall(c)
  {
    InstallRecord(Field(b, 0, 8), Field(b, 8, 8), Field(b, 16, 8), Field(b, 24, 4), Field(b, 28, 4))
  }

  /** The fields fit into their types. */
  predicate TypedInstall(c: Install) {
    && c.addr < Limit(8) && c.size < Limit(8) && c.completion < Limit(8)
    && c.level < Limit(4) && c.reserved < Limit(4)
  }

  /** What the device decodes is what the host encoded, and that is as long as the device expects. */
  lemma InstallDecodeEncode(c: Install)
    requires TypedInstall(c)
    ensures |EncodeInstall(c)| == 32 == ArgSize(INSTALL_CACHELINE) && DecodeInstall(EncodeInstall(c)) == c
  {
    var vs, ws := InstallValues(c), INSTALL_CACHELINE_WIDTHS;
    Offsets(ws);
    PackedField(vs, ws, 0, 0, 8, c.addr);
    PackedField(vs, ws, 1, 8, 8, c.size);
    PackedField(vs, ws, 2, 16, 8, c.completion);
    PackedField(vs, ws, 3, 24, 4, c.level);
    PackedField(vs, ws, 4, 28, 4, c.reserved);
  }

  /** Every record of that length is the encoding of what it decodes to. */
  lemma InstallEncodeDecode(b: seq<int>)
    requires |b| == ArgSize(INSTALL_CACHELINE) && IsBytes(b)
    ensures TypedInstall(DecodeInstall(b)) && EncodeInstall(DecodeInstall(b)) == b
  {
    var c := DecodeInstall(b);
    var vs, ws := InstallValues(c), INSTALL_CACHELINE_WIDTHS;
    Offsets(ws);
    ReadField(b, vs, ws, 0, 0, 8);
    ReadField(b, vs, ws, 1, 8, 8);
    ReadField(b, vs, ws, 2, 16, 8);
    ReadField(b, vs, ws, 3, 24, 4);
    ReadField(b, vs, ws, 4, 28, 4);
    PackIs(b, vs, ws, 5);
  }

  // ----- PREFETCH_CHAIN

  /** cira_cxl_prefetch_chain_job_t. */
  datatype Chain = ChainRecord(start: nat, buf: nat, completion: nat, depth: nat, next: nat, data: nat, dataSize: nat)

  function ChainValues(c: Chain): seq<nat> {
    [c.start, c.buf, c.completion, c.depth, c.next, c.data, c.dataSize]
  }

  const PREFETCH_CHAIN_WIDTHS: seq<nat> := [8, 8, 8, 4, 4, 4, 4]

  function EncodeChain(c: Chain): (b: seq<int>)
    ensures IsBytes(b)
  {
    Pack(ChainValues(c), PREFETCH_CHAIN_WIDTHS, 7)
  }

  function DecodeChain(b: seq<int>): (c: Chain)
    requires |b| == 40 && IsBytes(b)
    ensures TypedChain(c)
  {
    ChainRecord(Field(b, 0, 8), Field(b, 8, 8), Field(b, 16, 8), Field(b, 24, 4), Field(b, 28, 4),
                Field(b, 32, 4), Field(b, 36, 4))
  }

  /** The fields fit into their types. */
  predicate TypedChain(c: Chain) {
    && c.start < Limit(8) && c.buf < Limit(8) && c.completion < Limit(8) && c.depth < Limit(4)
    && c.next < Limit(4) && c.data < Limit(4) && c.dataSize < Limit(4)
  }

  /** What the device decodes is what the host encoded, and that is as long as the device expects. */
  lemma ChainDecodeEncode(c: Chain)
    requires TypedChain(c)
    ensures |EncodeChain(c)| == 40 == ArgSize(PREFETCH_CHAIN) && DecodeChain(EncodeChain(c)) == c
  {
    var vs, ws := ChainValues(c), PREFETCH_CHAIN_WIDTHS;
    Offsets(ws);
    PackedField(vs, ws, 0, 0, 8, c.start);
    PackedField(vs, ws, 1, 8, 8, c.buf);
    PackedField(vs, ws, 2, 16, 8, c.completion);
    PackedField(vs, ws, 3, 24, 4, c.depth);
    PackedField(vs, ws, 4, 28, 4, c.next);
    PackedField(vs, ws, 5, 32, 4, c.data);
    PackedField(vs, ws, 6, 36, 4, c.dataSize);
  }

  /** Every record of that length is the encoding of what it decodes to. */
  lemma ChainEncodeDecode(b: seq<int>)
    requires |b| == ArgSize(PREFETCH_CHAIN) && IsBytes(b)
    ensures TypedChain(DecodeChain(b)) && EncodeChain(DecodeChain(b)) == b
  {
    var c := DecodeChain(b);
    var vs, ws := ChainValues(c), PREFETCH_CHAIN_WIDTHS;
    Offsets(ws);
    ReadField(b, vs, ws, 0, 0, 8);
    ReadField(b, vs, ws, 1, 8, 8);
    ReadField(b, vs, ws, 2, 16, 8);
    ReadField(b, vs, ws, 3, 24, 4);
    ReadField(b, vs, ws, 4, 28, 4);
    ReadField(b, vs, ws, 5, 32, 4);
    ReadField(b, vs, ws, 6, 36, 4);
    PackIs(b, vs, ws, 7);
  }

  // ----- STREAM_PREFETCH

  /** cira_cxl_stream_prefetch_job_t, with the 4 bytes that fill it up. */
  datatype Stream = StreamRecord(base: nat, buf: nat, completion: nat, count: nat,
                                 stride: nat, elemSize: nat, reserved: nat, padding: nat)

  function StreamValues(c: Stream): seq<nat> {
    [c.base, c.buf, c.completion, c.count, c.stride, c.elemSize, c.reserved, c.padding]
  }

  const STREAM_PREFETCH_WIDTHS: seq<nat> := [8, 8, 8, 8, 4, 4, 4, 4]

  function EncodeStream(c: Stream): (b: seq<int>)
    ensures IsBytes(b)
  {
    Pack(StreamValues(c), STREAM_PREFETCH_WIDTHS, 8)
  }

  function DecodeStream(b: seq<int>): (c: Stream)
    requires |b| == 48 && IsBytes(b)
    ensures TypedStream(c)
  {
    StreamRecord(Field(b, 0, 8), Field(b, 8, 8), Field(b, 16, 8), Field(b, 24, 8), Field(b, 32, 4),
                 Field(b, 36, 4), Field(b, 40, 4), Field(b, 44, 4))
  }

  /** The fields fit into their types. */
  predicate TypedStream(c: Stream) {
    && c.base < Limit(8) && c.buf < Limit(8) && c.completion < Limit(8) && c.count < Limit(8)
    && c.stride < Limit(4) && c.elemSize < Limit(4) && c.reserved < Limit(4) && c.padding < Limit(4)
  }

  /** What the device decodes is what the host encoded, and that is as long as the device expects. */
  lemma StreamDecodeEncode(c: Stream)
    requires TypedStream(c)
    ensures |EncodeStream(c)| == 48 == ArgSize(STREAM_PREFETCH) && DecodeStream(EncodeStream(c)) == c
  {
    var vs, ws := StreamValues(c), STREAM_PREFETCH_WIDTHS;
    Offsets(ws);
    PackedField(vs, ws, 0, 0, 8, c.base);
    PackedField(vs, ws, 1, 8, 8, c.buf);
    PackedField(vs, ws, 2, 16, 8, c.completion);
    PackedField(vs, ws, 3, 24, 8, c.count);
    PackedField(vs, ws, 4, 32, 4, c.stride);
    PackedField(vs, ws, 5, 36, 4, c.elemSize);
    PackedField(vs, ws, 6, 40, 4, c.reserved);
    PackedField(vs, ws, 7, 44, 4, c.padding);
  }

  /** Every record of that length is the encoding of what it decodes to. */
  lemma StreamEncodeDecode(b: seq<int>)
    requires |b| == ArgSize(STREAM_PREFETCH) && IsBytes(b)
    ensures TypedStream(DecodeStream(b)) && EncodeStream(DecodeStream(b)) == b
  {
    var c := DecodeStream(b);
    var vs, ws := StreamValues(c), STREAM_PREFETCH_WIDTHS;
    Offsets(ws);
    ReadField(b, vs, ws, 0, 0, 8);
    ReadField(b, vs, ws, 1, 8, 8);
    ReadField(b, vs, ws, 2, 16, 8);
    ReadField(b, vs, ws, 3, 24, 8);
    ReadField(b, vs, ws, 4, 32, 4);
    ReadField(b, vs, ws, 5, 36, 4);
    ReadField(b, vs, ws, 6, 40, 4);
    ReadField(b, vs, ws, 7, 44, 4);
    PackIs(b, vs, ws, 8);
  }

  // ----- CALL

  /** cira_cxl_call_job_t. */
  datatype Call = CallRecord(func: nat, operands: nat, completion: nat, numOperands: nat, reserved: nat)

  function CallValues(c: Call): seq<nat> {
    [c.func, c.operands, c.completion, c.numOperands, c.reserved]
  }

  const CALL_WIDTHS: seq<nat> := [8, 8, 8, 4, 4]

  function EncodeCall(c: Call): (b: seq<int>)
    ensures IsBytes(b)
  {
    Pack(CallValues(c), CALL_WIDTHS, 5)
  }

  function DecodeCall(b: seq<int>): (c: Call)
    requires |b| == 32 && IsBytes(b)
    ensures TypedCall(c)
  {
    CallRecord(Field(b, 0, 8), Field(b, 8, 8), Field(b, 16, 8), Field(b, 24, 4), Field(b, 28, 4))
  }

  /** The fields fit into their types. */
  predicate TypedCall(c: Call) {
    && c.func < Limit(8) && c.operands < Limit(8) && c.completion < Limit(8)
    && c.numOperands < Limit(4) && c.reserved < Limit(4)
  }

  /** What the device decodes is what the host encoded, and that is as long as the device expects. */
  lemma CallDecodeEncode(c: Call)
    requires TypedCall(c)
    ensures |EncodeCall(c)| == 32 == ArgSize(CALL) && DecodeCall(EncodeCall(c)) == c
  {
    var vs, ws := CallValues(c), CALL_WIDTHS;
    Offsets(ws);
    PackedField(vs, ws, 0, 0, 8, c.func);
    PackedField(vs, ws, 1, 8, 8, c.operands);
    PackedField(vs, ws, 2, 16, 8, c.completion);
    PackedField(vs, ws, 3, 24, 4, c.numOperands);
    PackedField(vs, ws, 4, 28, 4, c.reserved);
  }

  /** Every record of that length is the encoding of what it decodes to. */
  lemma CallEncodeDecode(b: seq<int>)
    requires |b| == ArgSize(CALL) && IsBytes(b)
    ensures TypedCall(DecodeCall(b)) && EncodeCall(DecodeCall(b)) == b
  {
    var c := DecodeCall(b);
    var vs, ws := CallValues(c), CALL_WIDTHS;
    Offsets(ws);
    ReadField(b, vs, ws, 0, 0, 8);
    ReadField(b, vs, ws, 1, 8, 8);
    ReadField(b, vs, ws, 2, 16, 8);
    ReadField(b, vs, ws, 3, 24, 4);
    ReadField(b, vs, ws, 4, 28, 4);
    PackIs(b, vs, ws, 5);
  }
}
