/** The control window of runtime/include/cira_cxl_job.h and the two programs that share it: the
    submit and wait functions of runtime/cira_mmio.cpp on the host, and the firmware loop of
    runtime/vortex_device.cpp on the device. Every step is one load or one store, of one field or
    of one 8-byte word where the program stores words; steps of the two sides interleave freely. */
module CxlJob {
  const JOB_MAGIC := 0x565843584c4a4f42
  const PACC_JOB_MAGIC := 0x4847505550414343
  const JOB_VERSION := 1
  const COMPLETION_MAGIC := 0xDEADBEEF

  const SUCCESS := 0
  const RUNNING := 1
  const BAD_VERSION := 0xffff0001
  const BAD_ARGS := 0xffff0002
  const BAD_JOB := 0xffff00ff

  const NOP := 0
  const INSTALL_CACHELINE := 1
  const PREFETCH_CHAIN := 2
  const STREAM_PREFETCH := 3
  const CALL := 4

  const PAYLOAD_BYTES := 0x400 - 32

  datatype Option<T> = None | Some(value: T)

  datatype Doorbell = Doorbell(magic: int, version: int, jobId: int, flags: int, status: int, seqNo: int)
  datatype Slot = Slot(magic: int, version: int, jobId: int, seqNo: int, argLen: int, payload: seq<int>)
  datatype Mirror = Mirror(magic: int, version: int, jobId: int, status: int, seqNo: int)
  datatype Line = Line(magic: int, status: int, result: int, cycles: int, timestamp: int)

  /** A job as the host submits it: `line` is where the host will look for its completion. */
  datatype Job = Job(id: int, flags: int, args: seq<int>, line: int)

  /** What running a job comes to: a bare status, or success with a result for a completion line;
      line 0 stands for the null address. */
  datatype Reply = Quiet(status: int) | Served(line: int, result: int)

  /** The bytes of memory outside the window. */
  type Memory = seq<int>

  /** A job the firmware has run: what it read of the arguments, how it ended, and the memory before
      and after. */
  datatype Run = Run(seqNo: int, id: int, got: Option<seq<int>>, reply: Reply, before: Memory, after: Memory)

  /** What the host has read from a completion line. */
  datatype Answer = Answer(seqNo: int, status: int, result: int)

  /** The bodies of the jobs: what a job comes to, and the memory it leaves, from its number, its id,
      its argument record and the memory of the moment. The number lets a body depend on anything else. */
  type Work = (int, int, seq<int>, Memory) -> (Reply, Memory)

  predicate ValidMagic(magic: int) {
    magic == JOB_MAGIC || magic == PACC_JOB_MAGIC
  }

  function StatusOf(r: Reply): int {
    if r.Served? then SUCCESS else r.status
  }

  predicate WritesLine(r: Reply) {
    r.Served? && r.line != 0
  }

  /** The size of the argument record of a job. */
  function ArgSize(id: int): nat {
    if id == INSTALL_CACHELINE || id == CALL then 32 else if id == STREAM_PREFETCH then 48 else 40
  }

  /** What a submitted job must come to when its body finds the memory `before`. */
  function Expected(work: Work, job: Job, seqNo: int, before: Memory): Run {
    if |job.args| >= ArgSize(job.id) then
      var got := job.args[..ArgSize(job.id)];
      var (reply, after) := work(seqNo, job.id, got, before);
      Run(seqNo, job.id, Some(got), reply, before, after)
    else Run(seqNo, job.id, None, Quiet(BAD_ARGS), before, before)
  }

  // ----- the two programs and an onlooker

  datatype Host =
    | Idle
    | Payload(off: nat)        // submit_job, storing the arguments
    | Header(word: nat)        // storing the slot header
    | Door(word: nat)          // storing the doorbell
    | Waiting                  // wait_completion or wait_seq
    | LineSeen                 // the magic has been seen in the completion line
    | StatusRead(status: int)
    | SeqSeen                  // wait_seq has read the sequence number

  datatype Firmware =
    | PollMagic | PollSeq | TakeSeq | CheckMagic
    | Copy(field: nat)
    | SetRunning | MirrorRunning(field: nat)
    | Start
    | CheckSlot(field: nat)
    | Fetch
    | Complete(field: nat)
    | SetFinal | MirrorFinal(field: nat)

  /** Another caller of wait_seq, with a sequence number of its own. */
  datatype Onlooker = Absent | Seen(want: int, observed: int) | Done(want: int, ok: bool)

  /** How the host ends a wait: only by the completion line, also by wait_seq when the job is over, or
      by any answer of wait_seq, CIRA_MMIO_EIO while the job is running included. */
  datatype Waits = ByLine | ByMirror | Hastily

  datatype State = State(
    bell: Doorbell, slots: seq<Slot>, mirror: Mirror, lines: map<int, Line>,
    host: Host, fw: Firmware, lastSeq: int, local: Doorbell, buf: seq<int>, reply: Reply,
    onlooker: Onlooker, waits: Waits, mem: Memory, touched: set<int>,
    staged: seq<Job>, ran: seq<Run>, answers: seq<Answer>)

  const NO_LINE := Line(0, 0, 0, 0, 0)

  function LineAt(s: State, a: int): Line {
    if a in s.lines then s.lines[a] else NO_LINE
  }

  /** Any window, as an earlier session may have left it, and both programs at their start; the host
      counts from 1 again. */
  ghost predicate Init(s: State) {
    && |s.slots| == CALL + 1
    && (forall i {:trigger s.slots[i]} :: 0 <= i <= CALL ==> |s.slots[i].payload| == PAYLOAD_BYTES)
    && s.host == Idle && s.fw == PollMagic
    && s.onlooker == Absent && s.staged == [] && s.ran == [] && s.answers == []
  }

  /** A window full of zeros, which is what an emulated mapping starts with. */
  ghost predicate Zeroed(s: State) {
    s.bell == Doorbell(0, 0, 0, 0, 0, 0) && s.mirror == Mirror(0, 0, 0, 0, 0) && s.lastSeq == 0
  }

  // ----- the host

  /** The end of the unit that store_bytes writes at off: a word while one fits, then single bytes. */
  function UnitEnd(off: nat, len: nat): nat {
    if off + 8 <= len then off + 8 else off + 1
  }

  predicate IsBytes(s: seq<int>) {
    forall i :: 0 <= i < |s| ==> 0 <= s[i] < 0x100
  }

  /** What submit_job accepts. */
  predicate Acceptable(job: Job) {
    NOP < job.id <= CALL && |job.args| <= PAYLOAD_BYTES && IsBytes(job.args)
  }

  /** Beside its calls the host may write memory at any time. */
  datatype HostMove = Arm(line: int) | Submit(job: Job) | Proceed | PollLine | PollMirror | Poke(at: nat, byte: int)

  /** If the job gets a completion line written, it is the one its caller will watch. */
  ghost predicate Wired(work: Work, job: Job, seqNo: int) {
    |job.args| >= ArgSize(job.id) ==>
      var got := job.args[..ArgSize(job.id)];
      forall m {:trigger work(seqNo, job.id, got, m)} ::
        work(seqNo, job.id, got, m).0.Served? ==> work(seqNo, job.id, got, m).0.line == job.line
  }

  /** How callers use the window: a job's arguments name the line its caller will watch, and that
      line has been armed. */
  ghost predicate Disciplined(work: Work, s: State, job: Job) {
    && Wired(work, job, |s.staged| + 1)
    && (job.line != 0 ==> LineAt(s, job.line).magic == 0)
  }

  function StoreUnit(p: seq<int>, off: nat, args: seq<int>): seq<int>
    requires off < |args| <= |p|
  {
    p[..off] + args[off..UnitEnd(off, |args|)] + p[UnitEnd(off, |args|)..]
  }

  function HeaderWord(slot: Slot, job: Job, seqNo: int, word: nat): Slot {
    match word
    case 0 => slot.(magic := JOB_MAGIC)
    case 1 => slot.(version := JOB_VERSION, jobId := job.id)
    case 2 => slot.(seqNo := seqNo)
    case _ => slot.(argLen := |job.args|)
  }

  function DoorWord(bell: Doorbell, job: Job, seqNo: int, word: nat): Doorbell {
    match word
    case 0 => bell.(magic := JOB_MAGIC)
    case 1 => bell.(version := JOB_VERSION, jobId := job.id)
    case 2 => bell.(flags := job.flags, status := RUNNING)
    case _ => bell.(seqNo := seqNo)
  }

  predicate HasSlot(s: State, id: int) {
    0 <= id < |s.slots| && |s.slots[id].payload| == PAYLOAD_BYTES
  }

  predicate Submitting(h: Host) {
    h.Payload? || h.Header? || h.Door?
  }

  /** submit_job, one store further: payload, slot header, doorbell. */
  function StoreStep(s: State): State {
    if |s.staged| == 0 then s
    else
      var seqNo, job := |s.staged|, s.staged[|s.staged| - 1];
      if !HasSlot(s, job.id) || |job.args| > PAYLOAD_BYTES then s
      else
        var slot := s.slots[job.id];
        match s.host
        case Payload(off) =>
          if off < |job.args| then
            s.(slots := s.slots[job.id := slot.(payload := StoreUnit(slot.payload, off, job.args))],
               host := Payload(UnitEnd(off, |job.args|)))
          else s.(host := Header(0))
        case Header(k) =>
          s.(slots := s.slots[job.id := HeaderWord(slot, job, seqNo, k)],
            host := if k < 3 then Header(k + 1) else Door(0))
        case Door(k) =>
          s.(bell := DoorWord(s.bell, job, seqNo, k), host := if k < 3 then Door(k + 1) else Waiting)
        case _ => s
  }

  /** The reads after the line or the mirror has told of the job. A job that the mirror does not show
      as running is over, with or without success; a hasty host does not look. */
  function AnswerStep(s: State): State {
    if |s.staged| == 0 then s
    else
      var seqNo, job := |s.staged|, s.staged[|s.staged| - 1];
      match s.host
      case LineSeen => s.(host := StatusRead(LineAt(s, job.line).status))
      case StatusRead(status) =>
        s.(answers := s.answers + [Answer(seqNo, status, LineAt(s, job.line).result)], host := Idle)
      case SeqSeen => s.(host := if s.mirror.status != RUNNING || s.waits == Hastily then Idle else Waiting)
      case _ => s
  }

  function Advance(s: State): State {
    if Submitting(s.host) then StoreStep(s) else AnswerStep(s)
  }

  ghost predicate HostStep(work: Work, s: State, s': State, move: HostMove) {
    match move
    case Arm(line) => s.host == Idle && s' == s.(lines := s.lines[line := NO_LINE])
    case Submit(job) =>
      && s.host == Idle && Acceptable(job) && Disciplined(work, s, job)
      && s' == s.(staged := s.staged + [job], host := Payload(0))
    case Proceed => s.host != Idle && s.host != Waiting && s' == Advance(s)
    case PollLine =>
      && s.host == Waiting && |s.staged| > 0
      && (var line := s.staged[|s.staged| - 1].line;
          s' == s.(host := if line != 0 && LineAt(s, line).magic == COMPLETION_MAGIC then LineSeen else Waiting))
    case Poke(at, byte) => at < |s.mem| && s' == s.(mem := s.mem[at := byte], touched := s.touched + {at})
    case PollMirror =>
      && s.host == Waiting && s.waits != ByLine
      && s' == s.(host := if s.mirror.seqNo >= |s.staged| then SeqSeen else Waiting)
  }

  // ----- the firmware

  function CopyField(local: Doorbell, bell: Doorbell, field: nat): Doorbell {
    match field
    case 0 => local.(magic := bell.magic)
    case 1 => local.(version := bell.version)
    case 2 => local.(jobId := bell.jobId)
    case 3 => local.(flags := bell.flags)
    case 4 => local.(status := bell.status)
    case _ => local.(seqNo := bell.seqNo)
  }

  function MirrorField(m: Mirror, jobId: int, seqNo: int, status: int, field: nat): Mirror {
    match field
    case 0 => m.(magic := JOB_MAGIC)
    case 1 => m.(version := JOB_VERSION)
    case 2 => m.(jobId := jobId)
    case 3 => m.(status := status)
    case _ => m.(seqNo := seqNo)
  }

  /** One condition of checked_arg. */
  predicate SlotField(slot: Slot, local: Doorbell, field: nat) {
    match field
    case 0 => ValidMagic(slot.magic)
    case 1 => slot.version == JOB_VERSION
    case 2 => slot.jobId == local.jobId
    case 3 => slot.seqNo == local.seqNo
    case _ => slot.argLen >= ArgSize(local.jobId)
  }

  function LineField(line: Line, result: int, field: nat): Line {
    match field
    case 0 => line.(result := result)
    case 1 => line.(cycles := 0)
    case 2 => line.(timestamp := 0)
    case 3 => line.(status := SUCCESS)
    case _ => line.(magic := COMPLETION_MAGIC)
  }

  /** The job body is over and leaves memory `after`; a completion line is written if there is one. */
  function Finish(s: State, got: Option<seq<int>>, reply: Reply, after: Memory): State {
    s.(ran := s.ran + [Run(s.local.seqNo, s.local.jobId, got, reply, s.mem, after)], reply := reply,
       mem := after, touched := {},
       fw := if WritesLine(reply) then Complete(0) else SetFinal)
  }

  /** The loop and the start of service_once: a new number in the doorbell is noticed and the
      doorbell copied. */
  function NoticeStep(s: State): State {
    match s.fw
    case PollMagic => s.(fw := if ValidMagic(s.bell.magic) then PollSeq else PollMagic)
    case PollSeq => s.(fw := if s.bell.seqNo != s.lastSeq then TakeSeq else PollMagic)
    case TakeSeq => s.(lastSeq := s.bell.seqNo, fw := CheckMagic)
    case CheckMagic => s.(fw := if ValidMagic(s.bell.magic) then Copy(0) else PollMagic)
    case Copy(k) => s.(local := CopyField(s.local, s.bell, k), fw := if k < 5 then Copy(k + 1) else SetRunning)
    case SetRunning => s.(bell := s.bell.(status := RUNNING), fw := MirrorRunning(0))
    case MirrorRunning(k) =>
      s.(mirror := MirrorField(s.mirror, s.local.jobId, s.local.seqNo, RUNNING, k),
         fw := if k < 4 then MirrorRunning(k + 1) else Start)
    case _ => s
  }

  /** run_job up to the end of the job body; the arguments are read in place, byte by byte. */
  function RunStep(work: Work, s: State): State {
    match s.fw
    case Start =>
      if s.local.version != JOB_VERSION then Finish(s, None, Quiet(BAD_VERSION), s.mem)
      else if s.local.jobId == NOP then Finish(s, None, Quiet(SUCCESS), s.mem)
      else if !HasSlot(s, s.local.jobId) then Finish(s, None, Quiet(BAD_JOB), s.mem)
      else s.(fw := CheckSlot(0))
    case CheckSlot(k) =>
      if !HasSlot(s, s.local.jobId) || !SlotField(s.slots[s.local.jobId], s.local, k) then
        Finish(s, None, Quiet(BAD_ARGS), s.mem)
      else if k < 4 then s.(fw := CheckSlot(k + 1)) else s.(fw := Fetch, buf := [])
    case Fetch =>
      if !HasSlot(s, s.local.jobId) || |s.buf| >= ArgSize(s.local.jobId) then
        var (reply, after) := work(s.local.seqNo, s.local.jobId, s.buf, s.mem);
        Finish(s, Some(s.buf), reply, after)
      else s.(buf := s.buf + [s.slots[s.local.jobId].payload[|s.buf|]])
    case _ => s
  }

  /** write_completion, and the end of service_once. */
  function ReportStep(s: State): State {
    match s.fw
    case Complete(k) =>
      if s.reply.Served? then
        s.(lines := s.lines[s.reply.line := LineField(LineAt(s, s.reply.line), s.reply.result, k)],
           fw := if k < 4 then Complete(k + 1) else SetFinal)
      else s.(fw := SetFinal)
    case SetFinal => s.(bell := s.bell.(status := StatusOf(s.reply)), fw := MirrorFinal(0))
    case MirrorFinal(k) =>
      s.(mirror := MirrorField(s.mirror, s.local.jobId, s.local.seqNo, StatusOf(s.reply), k),
         fw := if k < 4 then MirrorFinal(k + 1) else PollMagic)
    case _ => s
  }

  predicate Running(f: Firmware) {
    f.Start? || f.CheckSlot? || f.Fetch?
  }

  predicate Reporting(f: Firmware) {
    f.Complete? || f.SetFinal? || f.MirrorFinal?
  }

  /** The firmware is a deterministic program. */
  function FirmwareStep(work: Work, s: State): State {
    if Running(s.fw) then RunStep(work, s) else if Reporting(s.fw) then ReportStep(s) else NoticeStep(s)
  }

  // ----- the onlooker

  /** wait_seq: a load of the sequence number, then one of the status. */
  ghost predicate OnlookerStep(s: State, s': State, want: int) {
    match s.onlooker
    case Seen(w, o) => s' == s.(onlooker := Done(w, s.mirror.status == SUCCESS))
    case _ => s' == s.(onlooker := if s.mirror.seqNo >= want then Seen(want, s.mirror.seqNo) else Absent)
  }

  ghost predicate Step(work: Work, s: State, s': State) {
    || (exists move :: HostStep(work, s, s', move))
    || s' == FirmwareStep(work, s)
    || (exists want :: OnlookerStep(s, s', want))
  }

  ghost predicate Follows(work: Work, run: seq<State>, i: int)
    requires 0 < i < |run|
  {
    Step(work, run[i - 1], run[i])
  }

  ghost predicate IsPath(work: Work, path: seq<State>) {
    |path| > 0 && forall i {:trigger Follows(work, path, i)} :: 0 < i < |path| ==> Follows(work, path, i)
  }

  /** A run of the system from some window. */
  ghost predicate IsRun(work: Work, run: seq<State>) {
    IsPath(work, run) && Init(run[0])
  }
}
