/** service_once and run_job of runtime/vortex_device.cpp on their own, on any doorbell and any slots:
    which job is run on which bytes, with which status each other doorbell ends, and what is written. */
module CxlFirmware {
  import opened CxlJob
  import opened CxlPromises

  /** The firmware alone comes from s to e. */
  ghost predicate Reaches(work: Work, s: State, e: State) {
    exists n: nat {:trigger Alone(work, s, n)} :: Alone(work, s, n) == e
  }

  lemma ReachesSelf(work: Work, s: State)
    ensures Reaches(work, s, s)
  {
    assert Alone(work, s, 0) == s;
  }

  lemma ReachesOn(work: Work, s: State, e: State)
    requires Reaches(work, FirmwareStep(work, s), e)
    ensures Reaches(work, s, e)
  {
    var n: nat :| Alone(work, FirmwareStep(work, s), n) == e;
    assert Alone(work, s, n + 1) == e;
  }

  // ----- the doorbell is noticed and copied, and the job shown as running

  /** The first k fields of the local copy are those of the doorbell. */
  predicate CopiedTo(local: Doorbell, bell: Doorbell, k: nat) {
    && (k > 0 ==> local.magic == bell.magic) && (k > 1 ==> local.version == bell.version)
    && (k > 2 ==> local.jobId == bell.jobId) && (k > 3 ==> local.flags == bell.flags)
    && (k > 4 ==> local.status == bell.status) && (k > 5 ==> local.seqNo == bell.seqNo)
  }

  lemma {:induction false} CopiesBell(work: Work, s: State, k: nat, e: State)
    requires s.fw == Copy(k) && k < 6 && CopiedTo(s.local, s.bell, k)
    requires Reaches(work, s.(local := s.bell, fw := SetRunning), e)
    ensures Reaches(work, s, e)
    decreases 6 - k
  {
    var s1 := FirmwareStep(work, s);
    assert s1 == s.(local := s1.local, fw := s1.fw) && CopiedTo(s1.local, s1.bell, k + 1);
    if k < 5 {
      CopiesBell(work, s1, k + 1, e);
    } else {
      assert s1.local == s.bell;
    }
    ReachesOn(work, s, e);
  }

  /** The first k fields of the mirror are those of the job. */
  predicate MirroredTo(m: Mirror, id: int, status: int, seqNo: int, k: nat) {
    && (k > 0 ==> m.magic == JOB_MAGIC) && (k > 1 ==> m.version == JOB_VERSION)
    && (k > 2 ==> m.jobId == id) && (k > 3 ==> m.status == status) && (k > 4 ==> m.seqNo == seqNo)
  }

  lemma {:induction false} MirrorsRunning(work: Work, s: State, k: nat, e: State)
    requires s.fw == MirrorRunning(k) && k < 5 && MirroredTo(s.mirror, s.local.jobId, RUNNING, s.local.seqNo, k)
    requires Reaches(work,
      s.(mirror := Mirror(JOB_MAGIC, JOB_VERSION, s.local.jobId, RUNNING, s.local.seqNo), fw := Start), e)
    ensures Reaches(work, s, e)
    decreases 5 - k
  {
    var s1 := FirmwareStep(work, s);
    assert s1 == s.(mirror := s1.mirror, fw := s1.fw);
    assert MirroredTo(s1.mirror, s.local.jobId, RUNNING, s.local.seqNo, k + 1);
    if k < 4 {
      MirrorsRunning(work, s1, k + 1, e);
    } else {
      assert s1.mirror == Mirror(JOB_MAGIC, JOB_VERSION, s.local.jobId, RUNNING, s.local.seqNo);
    }
    ReachesOn(work, s, e);
  }

  /** A doorbell with a valid magic and a number that is not the last one is noticed. */
  function Noticed(s: State): State {
    s.(lastSeq := s.bell.seqNo, local := s.bell, bell := s.bell.(status := RUNNING),
       mirror := Mirror(JOB_MAGIC, JOB_VERSION, s.bell.jobId, RUNNING, s.bell.seqNo), fw := Start)
  }

  /** The tests before the copy. */
  lemma TakesNumber(work: Work, s: State, e: State)
    requires s.fw == PollMagic && ValidMagic(s.bell.magic) && s.bell.seqNo != s.lastSeq
    requires Reaches(work, s.(lastSeq := s.bell.seqNo, fw := Copy(0)), e)
    ensures Reaches(work, s, e)
  {
    var s1, s2 := s.(fw := PollSeq), s.(fw := TakeSeq);
    var s3 := s.(lastSeq := s.bell.seqNo, fw := CheckMagic);
    OneStep(work, s3, s.(lastSeq := s.bell.seqNo, fw := Copy(0)), e);
    OneStep(work, s2, s3, e);
    OneStep(work, s1, s2, e);
    OneStep(work, s, s1, e);
  }

  lemma Notices(work: Work, s: State, e: State)
    requires s.fw == PollMagic && ValidMagic(s.bell.magic) && s.bell.seqNo != s.lastSeq
    requires Reaches(work, Noticed(s), e)
    ensures Reaches(work, s, e)
  {
    var s4 := s.(lastSeq := s.bell.seqNo, fw := Copy(0));
    var s5 := s4.(local := s.bell, fw := SetRunning);
    var s6 := s5.(bell := s.bell.(status := RUNNING), fw := MirrorRunning(0));
    MirrorsRunning(work, s6, 0, e);
    OneStep(work, s5, s6, e);
    CopiesBell(work, s4, 0, e);
    TakesNumber(work, s, e);
  }

  lemma OneStep(work: Work, s: State, s1: State, e: State)
    requires FirmwareStep(work, s) == s1 && Reaches(work, s1, e)
    ensures Reaches(work, s, e)
  {
    ReachesOn(work, s, e);
  }

  // ----- the job is run

  datatype Outcome = Outcome(got: Option<seq<int>>, reply: Reply, after: Memory)

  /** What run_job does with the doorbell it has copied: the version, the id and the five conditions on
      the slot, in one. */
  function JobOutcome(work: Work, bell: Doorbell, slots: seq<Slot>, m: Memory): Outcome
    requires |slots| == CALL + 1
    requires forall i {:trigger slots[i]} :: 0 <= i <= CALL ==> |slots[i].payload| == PAYLOAD_BYTES
  {
    if bell.version != 1 then Outcome(None, Quiet(0xffff0001), m)
    else if bell.jobId == 0 then Outcome(None, Quiet(0), m)
    else if !(1 <= bell.jobId <= 4) then Outcome(None, Quiet(0xffff00ff), m)
    else
      var slot, size := slots[bell.jobId], if bell.jobId == 2 then 40 else if bell.jobId == 3 then 48 else 32;
      if (slot.magic == JOB_MAGIC || slot.magic == PACC_JOB_MAGIC) && slot.version == 1 && slot.jobId == bell.jobId
         && slot.seqNo == bell.seqNo && slot.argLen >= size
      then
        var (reply, after) := work(bell.seqNo, bell.jobId, slot.payload[..size], m);
        Outcome(Some(slot.payload[..size]), reply, after)
      else Outcome(None, Quiet(0xffff0002), m)
  }

  predicate Slotted(s: State) {
    |s.slots| == CALL + 1 && forall i {:trigger s.slots[i]} :: 0 <= i <= CALL ==> |s.slots[i].payload| == PAYLOAD_BYTES
  }

  /** The state in which a job has just been run to this outcome. */
  function Ended(s: State, o: Outcome): State {
    s.(ran := s.ran + [Run(s.local.seqNo, s.local.jobId, o.got, o.reply, s.mem, o.after)], reply := o.reply,
       mem := o.after, touched := {}, buf := if o.got.Some? then o.got.value else s.buf,
       fw := if WritesLine(o.reply) then Complete(0) else SetFinal)
  }

  /** The payload is read byte by byte. */
  lemma {:induction false} Fetches(work: Work, s: State, size: nat, e: State)
    requires s.fw == Fetch && HasSlot(s, s.local.jobId) && size == ArgSize(s.local.jobId) <= PAYLOAD_BYTES
    requires |s.buf| <= size && s.buf == s.slots[s.local.jobId].payload[..|s.buf|]
    requires var p := s.slots[s.local.jobId].payload[..size];
      var (reply, after) := work(s.local.seqNo, s.local.jobId, p, s.mem);
      Reaches(work, Ended(s, Outcome(Some(p), reply, after)), e)
    ensures Reaches(work, s, e)
    decreases size - |s.buf|
  {
    var payload := s.slots[s.local.jobId].payload;
    if |s.buf| < size {
      var s1 := s.(buf := s.buf + [payload[|s.buf|]]);
      assert FirmwareStep(work, s) == s1;
      assert s1.buf == payload[..|s1.buf|];
      Fetches(work, s1, size, e);
    }
    ReachesOn(work, s, e);
  }

  /** The conditions from k on. */
  predicate PassesFrom(slot: Slot, bell: Doorbell, size: nat, k: nat) {
    && (k <= 0 ==> slot.magic == JOB_MAGIC || slot.magic == PACC_JOB_MAGIC) && (k <= 1 ==> slot.version == 1)
    && (k <= 2 ==> slot.jobId == bell.jobId) && (k <= 3 ==> slot.seqNo == bell.seqNo) && slot.argLen >= size
  }

  /** checked_arg from its condition k on, and the body if all conditions hold. */
  function CheckedFrom(work: Work, bell: Doorbell, slot: Slot, m: Memory, size: nat, k: nat): Outcome
    requires size <= |slot.payload|
  {
    if PassesFrom(slot, bell, size, k) then
      var (reply, after) := work(bell.seqNo, bell.jobId, slot.payload[..size], m);
      Outcome(Some(slot.payload[..size]), reply, after)
    else Outcome(None, Quiet(0xffff0002), m)
  }

  lemma {:induction false} Checks(work: Work, s: State, size: nat, k: nat, e: State)
    requires s.fw == CheckSlot(k) && k < 5 && HasSlot(s, s.local.jobId)
    requires size == ArgSize(s.local.jobId) <= PAYLOAD_BYTES
    requires Reaches(work, Ended(s, CheckedFrom(work, s.local, s.slots[s.local.jobId], s.mem, size, k)), e)
    ensures Reaches(work, s, e)
    decreases 5 - k
  {
    var slot, s1 := s.slots[s.local.jobId], FirmwareStep(work, s);
    if SlotField(slot, s.local, k) {
      if k < 4 {
        assert s1 == s.(fw := CheckSlot(k + 1));
        Checks(work, s1, size, k + 1, e);
      } else {
        assert s1 == s.(fw := Fetch, buf := []);
        Fetches(work, s1, size, e);
      }
    }
    ReachesOn(work, s, e);
  }

  lemma RunsJob(work: Work, s: State, e: State)
    requires s.fw == Start && Slotted(s) && Reaches(work, Ended(s, JobOutcome(work, s.local, s.slots, s.mem)), e)
    ensures Reaches(work, s, e)
  {
    if s.local.version == JOB_VERSION && 1 <= s.local.jobId <= 4 {
      var s1 := s.(fw := CheckSlot(0));
      Checks(work, s1, ArgSize(s.local.jobId), 0, e);
    }
    ReachesOn(work, s, e);
  }

  // ----- the outcome is written

  /** The first k fields of the line are written. */
  predicate LinedTo(line: Line, result: int, k: nat) {
    && (k > 0 ==> line.result == result) && (k > 1 ==> line.cycles == 0) && (k > 2 ==> line.timestamp == 0)
    && (k > 3 ==> line.status == SUCCESS) && (k > 4 ==> line.magic == COMPLETION_MAGIC)
  }

  lemma {:induction false} WritesCompletion(work: Work, s: State, k: nat, e: State)
    requires s.fw == Complete(k) && k < 5 && s.reply.Served? && LinedTo(LineAt(s, s.reply.line), s.reply.result, k)
    requires Reaches(work,
      s.(lines := s.lines[s.reply.line := Line(COMPLETION_MAGIC, 0, s.reply.result, 0, 0)], fw := SetFinal), e)
    ensures Reaches(work, s, e)
    decreases 5 - k
  {
    var at := s.reply.line;
    var s1, line := FirmwareStep(work, s), LineField(LineAt(s, at), s.reply.result, k);
    assert s1.lines == s.lines[at := line] && LinedTo(line, s.reply.result, k + 1);
    var last := Line(COMPLETION_MAGIC, 0, s.reply.result, 0, 0);
    if k < 4 {
      assert s1.lines[at := last] == s.lines[at := last];
      WritesCompletion(work, s1, k + 1, e);
    } else {
      assert line == last;
    }
    ReachesOn(work, s, e);
  }

  lemma {:induction false} MirrorsFinal(work: Work, s: State, k: nat, e: State)
    requires s.fw == MirrorFinal(k) && k < 5
    requires MirroredTo(s.mirror, s.local.jobId, StatusOf(s.reply), s.local.seqNo, k)
    requires Reaches(work,
      s.(mirror := Mirror(JOB_MAGIC, JOB_VERSION, s.local.jobId, StatusOf(s.reply), s.local.seqNo), fw := PollMagic), e)
    ensures Reaches(work, s, e)
    decreases 5 - k
  {
    var s1 := FirmwareStep(work, s);
    assert s1 == s.(mirror := s1.mirror, fw := s1.fw);
    assert MirroredTo(s1.mirror, s.local.jobId, StatusOf(s.reply), s.local.seqNo, k + 1);
    if k < 4 {
      MirrorsFinal(work, s1, k + 1, e);
    } else {
      assert s1.mirror == Mirror(JOB_MAGIC, JOB_VERSION, s.local.jobId, StatusOf(s.reply), s.local.seqNo);
    }
    ReachesOn(work, s, e);
  }

  /** The completion line, if the job has one, the status in the doorbell, and the mirror. */
  function Reported(s: State): State {
    s.(lines := if WritesLine(s.reply) then s.lines[s.reply.line := Line(COMPLETION_MAGIC, 0, s.reply.result, 0, 0)]
                else s.lines,
       bell := s.bell.(status := StatusOf(s.reply)),
       mirror := Mirror(JOB_MAGIC, JOB_VERSION, s.local.jobId, StatusOf(s.reply), s.local.seqNo), fw := PollMagic)
  }

  lemma Reports(work: Work, s: State, e: State)
    requires s.fw == if WritesLine(s.reply) then Complete(0) else SetFinal
    requires Reaches(work, Reported(s), e)
    ensures Reaches(work, s, e)
  {
    var s1 := s.(lines := Reported(s).lines, fw := SetFinal);
    var s2 := s1.(bell := s.bell.(status := StatusOf(s.reply)), fw := MirrorFinal(0));
    MirrorsFinal(work, s2, 0, e);
    OneStep(work, s1, s2, e);
    if WritesLine(s.reply) {
      WritesCompletion(work, s, 0, e);
    }
  }

  // ----- service_once

  /** With nobody else at the window, service_once runs the job of the doorbell it finds, whatever that
      is: its outcome is that of run_job, and doorbell, mirror and completion line tell of it. */
  lemma ServiceOnce(work: Work, s: State)
    requires s.fw == PollMagic && ValidMagic(s.bell.magic) && s.bell.seqNo != s.lastSeq && Slotted(s)
    ensures Reaches(work, s, Reported(Ended(Noticed(s), JobOutcome(work, s.bell, s.slots, s.mem))))
  {
    var s1 := Noticed(s);
    var s2 := Ended(s1, JobOutcome(work, s.bell, s.slots, s.mem));
    ReachesSelf(work, Reported(s2));
    Reports(work, s2, Reported(s2));
    RunsJob(work, s1, Reported(s2));
    Notices(work, s, Reported(s2));
  }

  /** Every other doorbell is left alone. */
  lemma {:induction false} LeftAlone(work: Work, s: State, n: nat)
    requires s.fw.PollMagic? || s.fw.PollSeq?
    requires s.bell.seqNo == s.lastSeq || (s.fw.PollMagic? && !ValidMagic(s.bell.magic))
    ensures Alone(work, s, n) == s.(fw := Alone(work, s, n).fw)
    decreases n
  {
    if n > 0 {
      LeftAlone(work, FirmwareStep(work, s), n - 1);
    }
  }
}
