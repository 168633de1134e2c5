/** What every interleaving of host and firmware over the control window keeps: jobs run at most
    once, in order, on exactly the arguments staged for them, and both ways of waiting tell the
    truth about them. */
module CxlProtocol {
  import opened CxlJob

  // ----- phases

  /** The firmware has noticed a job and not yet run it. */
  predicate Busy(f: Firmware) {
    f.TakeSeq? || f.CheckMagic? || f.Copy? || f.SetRunning? || f.MirrorRunning? || f.Start? || f.CheckSlot? || f.Fetch?
  }

  function Current(s: State): Job
    requires |s.staged| > 0
  {
    s.staged[|s.staged| - 1]
  }

  // ----- what the window held at the start

  /** The number the firmware had noticed last, and what the status mirror showed. */
  datatype Past = Past(lastSeq: int, mirrorSeq: int, mirrorStatus: int)

  function PastOf(s: State): Past {
    Past(s.lastSeq, s.mirror.seqNo, s.mirror.status)
  }

  /** The two sides start in step: the doorbell shows the number that the firmware noticed last, and a
      host that relies on the mirror does not find a job of the past ended there. */
  predicate InStep(s: State) {
    && s.bell.seqNo == s.lastSeq
    && (s.waits != ByLine ==> s.mirror.seqNo < 1 || s.mirror.status == RUNNING)
  }

  /** The host is not hasty, or the mirror will never show it a number. */
  predicate Patient(s: State) {
    s.waits == Hastily ==> s.lastSeq == 1 && s.mirror.seqNo < 1
  }

  predicate Clean(s: State) {
    InStep(s) && Patient(s)
  }

  /** In a later state: the host is not hasty, or started so. */
  predicate Careful(w: Past, s: State) {
    s.waits == Hastily ==> w.lastSeq == 1 && w.mirrorSeq < 1
  }

  /** The number of the last of k jobs, or the one before the session. */
  function Last(w: Past, k: int): int {
    if k == 0 then w.lastSeq else k
  }

  // ----- the invariant

  /** Who is where: at most one job is in flight. */
  ghost predicate Paced(w: Past, s: State) {
    && |s.staged| - 1 <= |s.ran| <= |s.staged|
    && s.lastSeq == (if Busy(s.fw) && !s.fw.TakeSeq? then |s.staged| else Last(w, |s.ran|))
    && (Busy(s.fw) ==> (s.host.Waiting? || s.host.SeqSeen?) && |s.ran| == |s.staged| - 1)
    && (s.fw.Complete? ==> (s.host.Waiting? || s.host.SeqSeen?) && |s.ran| == |s.staged|)
    && (s.host.Idle? || s.host.LineSeen? || s.host.StatusRead? ==> |s.ran| == |s.staged|)
    && (!s.host.Idle? ==> |s.staged| > 0)
    && (Submitting(s.host) ==> |s.ran| == |s.staged| - 1)
    && s.bell.seqNo == Last(w, if Submitting(s.host) then |s.staged| - 1 else |s.staged|)
    // a first job with the number noticed last is never noticed
    && (w.lastSeq == 1 ==> |s.ran| == 0 && |s.staged| <= 1 && !Busy(s.fw))
    && (s.waits != ByLine ==> w.mirrorSeq < 1 || w.mirrorStatus == RUNNING)
    && (forall k {:trigger s.staged[k]} :: 0 <= k < |s.staged| ==> Acceptable(s.staged[k]))
    && |s.slots| == CALL + 1
    && (forall i {:trigger s.slots[i]} :: 0 <= i <= CALL ==> |s.slots[i].payload| == PAYLOAD_BYTES)
    && (match s.host
        case Payload(off) => off <= |Current(s).args|
        case Header(k) => k < 4
        case Door(k) => k < 4
        case _ => true)
    && (match s.fw
        case Copy(k) => k < 6
        case MirrorRunning(k) => k < 5
        case CheckSlot(k) => k < 5
        case Complete(k) => k < 5
        case MirrorFinal(k) => k < 5
        case _ => true)
  }

  /** The doorbell of the current job, as far as it has been stored. */
  ghost predicate Rung(s: State)
    requires !s.host.Idle? ==> |s.staged| > 0
  {
    s.host.Idle? || s.host.Payload? || s.host.Header? ||
    (var done := if s.host.Door? then s.host.word else 4;
     && (done > 0 ==> ValidMagic(s.bell.magic))
     && (done > 1 ==> s.bell.version == JOB_VERSION && s.bell.jobId == Current(s).id)
     && (done > 2 ==> s.bell.flags == Current(s).flags))
  }

  /** The slot of the current job, as far as it has been stored. */
  ghost predicate Loaded(s: State)
    requires !s.host.Idle? ==> |s.staged| > 0
    requires !s.host.Idle? ==> HasSlot(s, Current(s).id) && Acceptable(Current(s))
    requires s.host.Payload? ==> s.host.off <= |Current(s).args|
  {
    s.host.Idle? ||
    (var slot, job := s.slots[Current(s).id], Current(s);
     var bytes := if s.host.Payload? then s.host.off else |job.args|;
     var words := if s.host.Payload? then 0 else if s.host.Header? then s.host.word else 4;
     && slot.payload[..bytes] == job.args[..bytes]
     && (words > 0 ==> ValidMagic(slot.magic))
     && (words > 1 ==> slot.version == JOB_VERSION && slot.jobId == job.id)
     && (words > 2 ==> slot.seqNo == |s.staged|)
     && (words > 3 ==> slot.argLen == |job.args|))
  }

  /** What the firmware holds of the job it is working on. */
  ghost predicate Held(s: State)
    requires Busy(s.fw) ==> |s.staged| > 0
  {
    && (Busy(s.fw) && !s.fw.TakeSeq? && !s.fw.CheckMagic? ==>
         var fields := if s.fw.Copy? then s.fw.field else 6;
         && (fields > 1 ==> s.local.version == JOB_VERSION)
         && (fields > 2 ==> s.local.jobId == Current(s).id)
         && (fields > 5 ==> s.local.seqNo == |s.staged|))
    && (s.fw.CheckSlot? && s.fw.field > 4 ==> |Current(s).args| >= ArgSize(Current(s).id))
    && (s.fw.Fetch? ==>
         && |s.buf| <= ArgSize(Current(s).id) <= |Current(s).args|
         && s.buf == Current(s).args[..|s.buf|])
    && (Reporting(s.fw) ==>
         && |s.ran| > 0 && s.local.seqNo == |s.ran| && s.local.jobId == LastId(s)
         && s.reply == s.ran[|s.ran| - 1].reply
         && (s.fw.Complete? ==> WritesLine(s.reply)))
  }

  /** Every job that was run was run as it was staged, in the order of submission. */
  ghost predicate Faithful(work: Work, s: State) {
    && |s.ran| <= |s.staged|
    && forall k {:trigger s.ran[k]} :: 0 <= k < |s.ran| ==>
         s.ran[k] == Expected(work, s.staged[k], k + 1, s.ran[k].before)
  }

  ghost predicate LineHolds(line: Line, reply: Reply) {
    if WritesLine(reply) then line.magic == COMPLETION_MAGIC && line.status == SUCCESS && line.result == reply.result
    else line.magic == 0
  }

  /** The completion line of the current job. */
  ghost predicate Watched(work: Work, s: State)
    requires !s.host.Idle? ==> |s.staged| > 0
    requires Reporting(s.fw) ==> |s.ran| > 0
  {
    s.host.Idle? ||
    (var job := Current(s);
     var line := LineAt(s, job.line);
     && Wired(work, job, |s.staged|)
     && (job.line != 0 && |s.ran| < |s.staged| ==> line.magic == 0)
     && (|s.ran| == |s.staged| ==>
          var r := s.ran[|s.ran| - 1].reply;
          && (r.Served? ==> r.line == job.line)
          && (job.line != 0 && !s.fw.Complete? ==> LineHolds(line, r))
          && (s.fw.Complete? ==>
               && line.magic == 0
               && (s.fw.field > 0 ==> r.Served? && line.result == r.result)
               && (s.fw.field > 3 ==> line.status == SUCCESS))
          && (s.host.LineSeen? || s.host.StatusRead? ==> WritesLine(r))
          && (s.host.StatusRead? ==> s.host.status == SUCCESS)))
  }

  /** Memory is as the last job left it, but for what the host has written since. */
  ghost predicate Remembered(s: State) {
    |s.ran| > 0 ==>
      var after := s.ran[|s.ran| - 1].after;
      |s.mem| == |after| && forall a {:trigger s.mem[a]} :: 0 <= a < |s.mem| && a !in s.touched ==> s.mem[a] == after[a]
  }

  /** The mirror shows number k and this status, and unless k is from before the session, job `id`. */
  ghost predicate Shows(m: Mirror, k: int, ours: bool, id: int, status: int) {
    m.seqNo == k && m.status == status && (ours ==> m.magic == JOB_MAGIC && m.version == JOB_VERSION && m.jobId == id)
  }

  function LastId(s: State): int {
    if |s.ran| == 0 then 0 else s.ran[|s.ran| - 1].id
  }

  function LastNumber(w: Past, s: State): int {
    if |s.ran| == 0 then w.mirrorSeq else |s.ran|
  }

  function LastStatus(w: Past, s: State): int {
    if |s.ran| == 0 then w.mirrorStatus else StatusOf(s.ran[|s.ran| - 1].reply)
  }

  /** A job is shown as running. */
  predicate InFlight(f: Firmware) {
    (f.MirrorRunning? && f.field > 3) || Running(f) || f.Complete? || f.SetFinal? || (f.MirrorFinal? && f.field <= 3)
  }

  /** The status mirror tells of the last job, or that one is running. */
  ghost predicate Mirrored(w: Past, s: State)
    requires Busy(s.fw) ==> |s.staged| > 0
  {
    var status := if InFlight(s.fw) then RUNNING else LastStatus(w, s);
    if s.fw.MirrorRunning? then
      && (s.fw.field > 0 ==> s.mirror.magic == JOB_MAGIC) && (s.fw.field > 1 ==> s.mirror.version == JOB_VERSION)
      && Shows(s.mirror.(jobId := LastId(s)), LastNumber(w, s), |s.ran| > 0, LastId(s), status)
      && (s.fw.field > 2 ==> s.mirror.jobId == Current(s).id)
      && (s.fw.field <= 2 && |s.ran| > 0 ==> s.mirror.jobId == LastId(s))
    else if Running(s.fw) then Shows(s.mirror, |s.ran| + 1, true, Current(s).id, status)
    else Shows(s.mirror, LastNumber(w, s), |s.ran| > 0, LastId(s), status)
  }

  /** wait_seq on the current job has seen its number. */
  ghost predicate Awaited(s: State) {
    s.host.SeqSeen? ==> s.waits != ByLine && s.mirror.seqNo >= |s.staged|
  }

  /** Every answer the host took from a completion line is that of its job. */
  ghost predicate Answered(s: State) {
    forall k {:trigger s.answers[k]} :: 0 <= k < |s.answers| ==>
      && 0 < s.answers[k].seqNo <= |s.ran|
      && (var r := s.ran[s.answers[k].seqNo - 1].reply;
          r.Served? && s.answers[k].status == SUCCESS && s.answers[k].result == r.result)
  }

  /** A job with at least this number has been run and has ended with success. */
  ghost predicate Succeeded(s: State, want: int) {
    exists k :: 0 <= k < |s.ran| && want <= k + 1 && StatusOf(s.ran[k].reply) == SUCCESS
  }

  /** OK for this number cannot stem from before the session. */
  predicate Trusted(w: Past, want: int) {
    want > w.mirrorSeq || (w.mirrorStatus != SUCCESS && (want <= 1 || w.lastSeq == 1))
  }

  /** An onlooker that was told OK for such a number was told the truth. */
  ghost predicate Told(w: Past, s: State) {
    match s.onlooker
    case Absent => true
    case Seen(want, _) => want > w.mirrorSeq ==> want <= s.mirror.seqNo
    case Done(want, ok) => ok && Trusted(w, want) ==> Succeeded(s, want)
  }

  /** The job in flight: doorbell, slot, completion line and what the firmware holds. */
  ghost predicate Core(work: Work, w: Past, s: State) {
    Paced(w, s) && Rung(s) && Loaded(s) && Held(s) && Watched(work, s)
  }

  /** What has happened, and what the mirror and the callers say about it. */
  ghost predicate Story(work: Work, w: Past, s: State)
    requires Busy(s.fw) ==> |s.staged| > 0
  {
    Faithful(work, s) && Remembered(s) && Mirrored(w, s) && Awaited(s) && Answered(s) && Told(w, s)
  }

  ghost predicate Inv(work: Work, w: Past, s: State) {
    Core(work, w, s) && Story(work, w, s)
  }

  /** The mirror's number only grows, once it is not from before the session. */
  predicate Grows(w: Past, m: Mirror, m': Mirror) {
    m'.seqNo >= m.seqNo || m.seqNo <= w.mirrorSeq
  }

  // ----- the firmware keeps it, phase by phase

  lemma NoticePaced(w: Past, s: State)
    requires Paced(w, s) && Rung(s) && Held(s) && !Running(s.fw) && !Reporting(s.fw)
    ensures Paced(w, NoticeStep(s))
  {
  }

  lemma NoticeHeld(w: Past, s: State)
    requires Paced(w, s) && Rung(s) && Held(s) && !Running(s.fw) && !Reporting(s.fw) && Paced(w, NoticeStep(s))
    ensures Held(NoticeStep(s))
  {
  }

  lemma NoticeRung(w: Past, s: State)
    requires Paced(w, s) && Rung(s) && Held(s) && !Running(s.fw) && !Reporting(s.fw) && Paced(w, NoticeStep(s))
    ensures Rung(NoticeStep(s))
  {
  }

  lemma NoticeLoaded(w: Past, s: State)
    requires Paced(w, s) && Loaded(s) && !Running(s.fw) && !Reporting(s.fw) && Paced(w, NoticeStep(s))
    ensures Loaded(NoticeStep(s))
  {
  }

  lemma NoticeWatched(work: Work, w: Past, s: State)
    requires Paced(w, s) && Held(s) && Watched(work, s) && !Running(s.fw) && !Reporting(s.fw)
    requires Paced(w, NoticeStep(s)) && Held(NoticeStep(s))
    ensures Watched(work, NoticeStep(s))
  {
  }

  lemma NoticeMirrored(w: Past, s: State)
    requires Paced(w, s) && Held(s) && Mirrored(w, s) && !Running(s.fw) && !Reporting(s.fw)
    ensures Mirrored(w, NoticeStep(s))
  {
    if s.fw.MirrorRunning? {
      ShownRunning(w, s);
    }
  }

  lemma ShownRunning(w: Past, s: State)
    requires Paced(w, s) && Held(s) && Mirrored(w, s) && s.fw.MirrorRunning?
    ensures Mirrored(w, NoticeStep(s))
  {
  }

  lemma NoticeGrows(w: Past, s: State)
    requires Paced(w, s) && Held(s) && Mirrored(w, s) && Awaited(s) && !Running(s.fw) && !Reporting(s.fw)
    ensures Awaited(NoticeStep(s)) && Grows(w, s.mirror, NoticeStep(s).mirror)
  {
  }

  /** The check of the arguments fails exactly if they are too short. */
  lemma CheckedArg(w: Past, s: State)
    requires Paced(w, s) && Loaded(s) && Held(s) && s.fw.CheckSlot?
    ensures HasSlot(s, s.local.jobId)
    ensures SlotField(s.slots[s.local.jobId], s.local, s.fw.field)
            <==> s.fw.field < 4 || |Current(s).args| >= ArgSize(Current(s).id)
  {
    assert Acceptable(Current(s));
  }

  /** The firmware goes on, or it ends the current job the way it was staged. */
  ghost predicate Outcome(work: Work, w: Past, s: State, s': State)
    requires |s.staged| > 0
  {
    var r := Expected(work, Current(s), |s.staged|, s.mem);
    || (Running(s'.fw) && s' == s.(fw := s'.fw, buf := s'.buf) && Paced(w, s') && Held(s'))
    || s' == Finish(s, r.got, r.reply, r.after)
  }

  lemma StartOutcome(work: Work, w: Past, s: State)
    requires Paced(w, s) && Held(s) && s.fw.Start?
    ensures Outcome(work, w, s, RunStep(work, s))
  {
    assert Acceptable(Current(s));
  }

  lemma CheckOutcome(work: Work, w: Past, s: State)
    requires Paced(w, s) && Loaded(s) && Held(s) && s.fw.CheckSlot?
    ensures Outcome(work, w, s, RunStep(work, s))
  {
    CheckedArg(w, s);
  }

  lemma FetchOutcome(work: Work, w: Past, s: State)
    requires Paced(w, s) && Loaded(s) && Held(s) && s.fw.Fetch?
    ensures Outcome(work, w, s, RunStep(work, s))
  {
    assert Acceptable(Current(s));
    if |s.buf| < ArgSize(s.local.jobId) {
      var slot := s.slots[s.local.jobId];
      assert slot.payload[|s.buf|] == slot.payload[..|Current(s).args|][|s.buf|];
    }
  }

  lemma RunOutcome(work: Work, w: Past, s: State)
    requires Paced(w, s) && Loaded(s) && Held(s) && Running(s.fw)
    ensures Outcome(work, w, s, RunStep(work, s))
  {
    match s.fw
    case Start => StartOutcome(work, w, s);
    case CheckSlot(_) => CheckOutcome(work, w, s);
    case Fetch => FetchOutcome(work, w, s);
  }

  lemma FinishPaced(work: Work, w: Past, s: State)
    requires Paced(w, s) && Held(s) && Running(s.fw) && Watched(work, s)
    ensures var r := Expected(work, Current(s), |s.staged|, s.mem); var s' := Finish(s, r.got, r.reply, r.after);
      Paced(w, s') && Held(s') && s'.ran == s.ran + [r] && (r.reply.Served? ==> r.reply.line == Current(s).line)
  {
  }

  lemma RunPaced(work: Work, w: Past, s: State)
    requires Paced(w, s) && Loaded(s) && Held(s) && Watched(work, s) && Running(s.fw)
    ensures Paced(w, RunStep(work, s)) && Held(RunStep(work, s))
    ensures Unchanged(s, RunStep(work, s)) || Ended(work, s, RunStep(work, s))
  {
    RunOutcome(work, w, s);
    FinishPaced(work, w, s);
  }

  lemma RunRest(work: Work, w: Past, s: State)
    requires Paced(w, s) && Rung(s) && Loaded(s) && Held(s) && Watched(work, s) && Running(s.fw)
    ensures Paced(w, RunStep(work, s)) && Held(RunStep(work, s))
    ensures Rung(RunStep(work, s)) && Loaded(RunStep(work, s)) && Watched(work, RunStep(work, s))
  {
    RunOutcome(work, w, s);
    FinishPaced(work, w, s);
  }

  lemma RunMirrored(work: Work, w: Past, s: State)
    requires Paced(w, s) && Loaded(s) && Held(s) && Watched(work, s) && Mirrored(w, s) && Awaited(s) && Running(s.fw)
    ensures Mirrored(w, RunStep(work, s)) && Awaited(RunStep(work, s)) && RunStep(work, s).mirror == s.mirror
  {
    RunOutcome(work, w, s);
    FinishPaced(work, w, s);
  }

  lemma ReportPaced(w: Past, s: State)
    requires Paced(w, s) && Held(s) && Reporting(s.fw)
    ensures Paced(w, ReportStep(s)) && Held(ReportStep(s))
  {
  }

  lemma ReportRest(work: Work, w: Past, s: State)
    requires Paced(w, s) && Rung(s) && Loaded(s) && Held(s) && Faithful(work, s) && Watched(work, s) && Reporting(s.fw)
    requires Paced(w, ReportStep(s)) && Held(ReportStep(s))
    ensures Rung(ReportStep(s)) && Loaded(ReportStep(s)) && Watched(work, ReportStep(s))
  {
    assert s.ran[|s.ran| - 1] == Expected(work, s.staged[|s.ran| - 1], |s.ran|, s.ran[|s.ran| - 1].before);
  }

  lemma ReportMirrored(w: Past, s: State)
    requires Paced(w, s) && Held(s) && Mirrored(w, s) && Awaited(s) && Reporting(s.fw)
    ensures Mirrored(w, ReportStep(s)) && Awaited(ReportStep(s)) && Grows(w, s.mirror, ReportStep(s).mirror)
  {
  }

  lemma SucceededGrows(s: State, s': State, want: int)
    requires Succeeded(s, want) && s.ran <= s'.ran
    ensures Succeeded(s', want)
  {
    var k :| 0 <= k < |s.ran| && want <= k + 1 && StatusOf(s.ran[k].reply) == SUCCESS;
    assert s'.ran[k] == s.ran[k];
  }

  /** No job ended, and memory is as it was. */
  predicate Unchanged(s: State, s': State) {
    s'.ran == s.ran && s'.mem == s.mem && s'.touched == s.touched
  }

  /** The next job ended as it was staged. */
  predicate Ended(work: Work, s: State, s': State) {
    && |s.ran| < |s.staged| && s'.touched == {}
    && s'.ran == s.ran + [Expected(work, s.staged[|s.ran|], |s.ran| + 1, s.mem)] && s'.mem == s'.ran[|s.ran|].after
  }

  /** Nothing that was told or answered before can be wrong after more jobs have run. */
  lemma GrownTold(work: Work, w: Past, s: State, s': State)
    requires Told(w, s) && s'.onlooker == s.onlooker
    requires Grows(w, s.mirror, s'.mirror) && (Unchanged(s, s') || Ended(work, s, s'))
    ensures Told(w, s')
  {
    if s.onlooker.Done? && s.onlooker.ok && Trusted(w, s.onlooker.want) {
      SucceededGrows(s, s', s.onlooker.want);
    }
  }

  lemma GrownAnswered(work: Work, s: State, s': State)
    requires Answered(s) && s'.answers == s.answers && (Unchanged(s, s') || Ended(work, s, s'))
    ensures Answered(s')
  {
  }

  lemma GrownHistory(work: Work, w: Past, s: State, s': State)
    requires Paced(w, s) && Faithful(work, s) && Remembered(s) && Answered(s) && Told(w, s)
    requires s'.staged == s.staged && s'.answers == s.answers && s'.onlooker == s.onlooker
    requires Grows(w, s.mirror, s'.mirror) && (Unchanged(s, s') || Ended(work, s, s'))
    ensures Faithful(work, s') && Remembered(s') && Answered(s') && Told(w, s')
  {
    GrownTold(work, w, s, s');
    GrownAnswered(work, s, s');
  }

  lemma NoticeCore(work: Work, w: Past, s: State)
    requires Core(work, w, s) && !Running(s.fw) && !Reporting(s.fw)
    ensures Core(work, w, NoticeStep(s))
  {
    NoticePaced(w, s);
    NoticeHeld(w, s);
    NoticeRung(w, s);
    NoticeLoaded(w, s);
    NoticeWatched(work, w, s);
  }

  lemma NoticeStory(work: Work, w: Past, s: State)
    requires Paced(w, s) && Rung(s) && Held(s) && Story(work, w, s) && !Running(s.fw) && !Reporting(s.fw)
    requires Paced(w, NoticeStep(s))
    ensures Story(work, w, NoticeStep(s))
  {
    NoticeMirrored(w, s);
    NoticeGrows(w, s);
    NoticeFrame(s);
    GrownHistory(work, w, s, NoticeStep(s));
  }

  lemma NoticeFrame(s: State)
    ensures var s' := NoticeStep(s);
      Unchanged(s, s') && s'.staged == s.staged && s'.answers == s.answers && s'.onlooker == s.onlooker
  {
  }

  lemma NoticeKeeps(work: Work, w: Past, s: State)
    requires Inv(work, w, s) && !Running(s.fw) && !Reporting(s.fw)
    ensures Inv(work, w, NoticeStep(s))
  {
    NoticeCore(work, w, s);
    NoticeStory(work, w, s);
  }

  lemma RunCore(work: Work, w: Past, s: State)
    requires Core(work, w, s) && Running(s.fw)
    ensures Core(work, w, RunStep(work, s))
  {
    RunRest(work, w, s);
  }

  lemma RunStory(work: Work, w: Past, s: State)
    requires Inv(work, w, s) && Running(s.fw) && Core(work, w, RunStep(work, s))
    ensures Story(work, w, RunStep(work, s))
  {
    RunPaced(work, w, s);
    RunMirrored(work, w, s);
    RunFrame(work, s);
    GrownHistory(work, w, s, RunStep(work, s));
  }

  lemma RunKeeps(work: Work, w: Past, s: State)
    requires Inv(work, w, s) && Running(s.fw)
    ensures Inv(work, w, RunStep(work, s))
  {
    RunCore(work, w, s);
    RunStory(work, w, s);
  }

  lemma RunFrame(work: Work, s: State)
    ensures var s' := RunStep(work, s);
      s'.staged == s.staged && s'.answers == s.answers && s'.onlooker == s.onlooker
  {
  }

  lemma ReportCore(work: Work, w: Past, s: State)
    requires Inv(work, w, s) && Reporting(s.fw)
    ensures Core(work, w, ReportStep(s))
  {
    ReportPaced(w, s);
    ReportRest(work, w, s);
  }

  lemma ReportStory(work: Work, w: Past, s: State)
    requires Inv(work, w, s) && Reporting(s.fw) && Core(work, w, ReportStep(s))
    ensures Story(work, w, ReportStep(s))
  {
    ReportMirrored(w, s);
    GrownHistory(work, w, s, ReportStep(s));
  }

  lemma ReportKeeps(work: Work, w: Past, s: State)
    requires Inv(work, w, s) && Reporting(s.fw)
    ensures Inv(work, w, ReportStep(s))
  {
    ReportCore(work, w, s);
    ReportStory(work, w, s);
  }

  // ----- the host keeps it, move by move

  lemma StorePaced(w: Past, s: State)
    requires Paced(w, s) && Held(s) && Submitting(s.host)
    ensures Paced(w, StoreStep(s)) && Held(StoreStep(s))
  {
    assert Acceptable(Current(s));
  }

  lemma StoreLoaded(w: Past, s: State)
    requires Paced(w, s) && Rung(s) && Loaded(s) && Submitting(s.host)
    requires Paced(w, StoreStep(s))
    ensures Rung(StoreStep(s)) && Loaded(StoreStep(s))
  {
    var job := Current(s);
    assert Acceptable(job);
    if s.host.Payload? && s.host.off < |job.args| {
      var off, p := s.host.off, s.slots[job.id].payload;
      var e := UnitEnd(off, |job.args|);
      var p' := StoreUnit(p, off, job.args);
      assert p'[..e] == p[..off] + job.args[off..e];
      assert job.args[..e] == job.args[..off] + job.args[off..e];
    }
  }

  lemma StoreRest(work: Work, w: Past, s: State)
    requires Paced(w, s) && Held(s) && Watched(work, s) && Submitting(s.host)
    requires Paced(w, StoreStep(s)) && Held(StoreStep(s))
    ensures Watched(work, StoreStep(s))
  {
    assert Acceptable(Current(s));
  }

  lemma StoreMirrored(w: Past, s: State)
    requires Paced(w, s) && Held(s) && Mirrored(w, s) && Submitting(s.host)
    requires Paced(w, StoreStep(s))
    ensures Mirrored(w, StoreStep(s)) && Awaited(StoreStep(s))
  {
    assert Acceptable(Current(s));
  }

  lemma AnswerPaced(work: Work, w: Past, s: State)
    requires Paced(w, s) && Held(s) && Watched(work, s) && Mirrored(w, s) && Awaited(s) && Careful(w, s)
    requires !Submitting(s.host) && !s.host.Idle?
    ensures Paced(w, AnswerStep(s)) && Held(AnswerStep(s)) && Watched(work, AnswerStep(s))
  {
  }

  lemma AnswerWindow(w: Past, s: State)
    requires Paced(w, s) && Rung(s) && Loaded(s) && !Submitting(s.host) && Paced(w, AnswerStep(s))
    ensures Rung(AnswerStep(s)) && Loaded(AnswerStep(s))
  {
  }

  lemma AnswerMirrored(w: Past, s: State)
    requires Paced(w, s) && Mirrored(w, s) && !Submitting(s.host) && Paced(w, AnswerStep(s))
    ensures Mirrored(w, AnswerStep(s)) && Awaited(AnswerStep(s))
  {
  }

  lemma AnswerTaken(work: Work, w: Past, s: State)
    requires Paced(w, s) && Held(s) && Faithful(work, s) && Watched(work, s) && Answered(s) && !Submitting(s.host)
    ensures Answered(AnswerStep(s))
  {
    if s.host.StatusRead? {
      assert s.ran[|s.ran| - 1] == Expected(work, Current(s), |s.staged|, s.ran[|s.ran| - 1].before);
    }
  }

  /** What is told stays true when neither the jobs run nor the mirror change. */
  lemma ToldStays(w: Past, s: State, s': State)
    requires Told(w, s) && s'.ran == s.ran && s'.mirror == s.mirror && s'.onlooker == s.onlooker
    ensures Told(w, s')
  {
    if s.onlooker.Done? && s.onlooker.ok && Trusted(w, s.onlooker.want) {
      SucceededGrows(s, s', s.onlooker.want);
    }
  }

  lemma ArmKeeps(work: Work, w: Past, s: State, s': State, line: int)
    requires Inv(work, w, s) && HostStep(work, s, s', Arm(line))
    ensures Inv(work, w, s')
  {
    ToldStays(w, s, s');
  }

  lemma PokeCore(work: Work, w: Past, s: State, s': State, at: nat, byte: int)
    requires Core(work, w, s) && HostStep(work, s, s', Poke(at, byte))
    ensures Core(work, w, s')
  {
  }

  lemma PokeStory(work: Work, w: Past, s: State, s': State, at: nat, byte: int)
    requires Inv(work, w, s) && HostStep(work, s, s', Poke(at, byte)) && Core(work, w, s')
    ensures Story(work, w, s')
  {
    ToldStays(w, s, s');
  }

  lemma PokeKeeps(work: Work, w: Past, s: State, s': State, at: nat, byte: int)
    requires Inv(work, w, s) && HostStep(work, s, s', Poke(at, byte))
    ensures Inv(work, w, s')
  {
    PokeCore(work, w, s, s', at, byte);
    PokeStory(work, w, s, s', at, byte);
  }

  lemma SubmitPaced(work: Work, w: Past, s: State, s': State, job: Job)
    requires Paced(w, s) && Held(s) && HostStep(work, s, s', Submit(job))
    ensures Paced(w, s') && Held(s') && s'.host == Payload(0)
  {
  }

  lemma SubmitKeeps(work: Work, w: Past, s: State, s': State, job: Job)
    requires Inv(work, w, s) && HostStep(work, s, s', Submit(job))
    ensures Inv(work, w, s')
  {
    SubmitPaced(work, w, s, s', job);
    ToldStays(w, s, s');
  }

  /** Neither poll changes anything but what the host knows. */
  lemma PollPaced(work: Work, w: Past, s: State, s': State, move: HostMove)
    requires Paced(w, s) && Held(s) && Watched(work, s) && (move.PollLine? || move.PollMirror?)
      && HostStep(work, s, s', move)
    ensures Paced(w, s') && Held(s') && Watched(work, s')
  {
  }

  lemma PollRest(work: Work, w: Past, s: State, s': State, move: HostMove)
    requires Paced(w, s) && Rung(s) && Loaded(s) && Held(s) && Mirrored(w, s)
    requires (move.PollLine? || move.PollMirror?) && HostStep(work, s, s', move) && Paced(w, s')
    ensures Rung(s') && Loaded(s') && Mirrored(w, s') && Awaited(s')
  {
  }

  lemma StoreCore(work: Work, w: Past, s: State)
    requires Core(work, w, s) && Submitting(s.host)
    ensures Core(work, w, StoreStep(s))
  {
    StorePaced(w, s);
    StoreLoaded(w, s);
    StoreRest(work, w, s);
  }

  lemma StoreStory(work: Work, w: Past, s: State)
    requires Inv(work, w, s) && Submitting(s.host) && Core(work, w, StoreStep(s))
    ensures Story(work, w, StoreStep(s))
  {
    StoreMirrored(w, s);
    GrownHistory(work, w, s, StoreStep(s));
  }

  lemma StoreKeeps(work: Work, w: Past, s: State)
    requires Inv(work, w, s) && Submitting(s.host)
    ensures Inv(work, w, StoreStep(s))
  {
    StoreCore(work, w, s);
    StoreStory(work, w, s);
  }

  lemma AnswerCore(work: Work, w: Past, s: State)
    requires Inv(work, w, s) && Careful(w, s) && !Submitting(s.host) && !s.host.Idle?
    ensures Core(work, w, AnswerStep(s))
  {
    AnswerPaced(work, w, s);
    AnswerWindow(w, s);
  }

  lemma AnswerStory(work: Work, w: Past, s: State)
    requires Inv(work, w, s) && !Submitting(s.host) && !s.host.Idle? && Core(work, w, AnswerStep(s))
    ensures Story(work, w, AnswerStep(s))
  {
    AnswerMirrored(w, s);
    AnswerTaken(work, w, s);
    GrownHistory(work, w, s, AnswerStep(s).(answers := s.answers));
  }

  lemma AnswerKeeps(work: Work, w: Past, s: State)
    requires Inv(work, w, s) && Careful(w, s) && !Submitting(s.host) && !s.host.Idle?
    ensures Inv(work, w, AnswerStep(s))
  {
    AnswerCore(work, w, s);
    AnswerStory(work, w, s);
  }

  lemma PollKeeps(work: Work, w: Past, s: State, s': State, move: HostMove)
    requires Inv(work, w, s) && (move.PollLine? || move.PollMirror?) && HostStep(work, s, s', move)
    ensures Inv(work, w, s')
  {
    PollPaced(work, w, s, s', move);
    PollRest(work, w, s, s', move);
    GrownHistory(work, w, s, s');
  }

  // ----- the onlooker keeps it

  lemma OnlookerTold(w: Past, s: State, s': State, want: int)
    requires Paced(w, s) && Held(s) && Mirrored(w, s) && Told(w, s) && OnlookerStep(s, s', want)
    ensures Told(w, s') && s' == s.(onlooker := s'.onlooker)
  {
    if s.onlooker.Seen? && Trusted(w, s.onlooker.want) && s.mirror.status == SUCCESS {
      var last := |s.ran| - 1;
      assert StatusOf(s.ran[last].reply) == SUCCESS;
      assert Succeeded(s', s.onlooker.want);
    }
  }

  lemma OnlookerCore(work: Work, w: Past, s: State, s': State)
    requires Core(work, w, s) && s' == s.(onlooker := s'.onlooker)
    ensures Core(work, w, s')
  {
  }

  lemma OnlookerStory(work: Work, w: Past, s: State, s': State)
    requires Paced(w, s) && Paced(w, s') && Story(work, w, s) && s' == s.(onlooker := s'.onlooker) && Told(w, s')
    ensures Story(work, w, s')
  {
  }

  lemma OnlookerKeeps(work: Work, w: Past, s: State, s': State, want: int)
    requires Inv(work, w, s) && OnlookerStep(s, s', want)
    ensures Inv(work, w, s')
  {
    OnlookerTold(w, s, s', want);
    OnlookerCore(work, w, s, s');
    OnlookerStory(work, w, s, s');
  }

  // ----- every run

  lemma InitInv(work: Work, s: State)
    requires Init(s) && InStep(s)
    ensures Inv(work, PastOf(s), s)
  {
  }

  predicate SameWaits(s: State, s': State) {
    s'.waits == s.waits
  }

  lemma HostWaits(work: Work, s: State, s': State, move: HostMove)
    requires HostStep(work, s, s', move)
    ensures SameWaits(s, s')
  {
    if move.Proceed? {
      AdvanceWaits(s);
    }
  }

  lemma AdvanceWaits(s: State)
    ensures SameWaits(s, StoreStep(s)) && SameWaits(s, AnswerStep(s))
  {
  }

  lemma FirmwareWaits(work: Work, s: State)
    ensures SameWaits(s, FirmwareStep(work, s))
  {
  }

  /** How the host waits stays as it is. */
  lemma StepWaits(work: Work, s: State, s': State)
    requires Step(work, s, s')
    ensures SameWaits(s, s')
  {
    if move :| HostStep(work, s, s', move) {
      HostWaits(work, s, s', move);
    } else if s' == FirmwareStep(work, s) {
      FirmwareWaits(work, s);
    }
  }

  lemma StepKeeps(work: Work, w: Past, s: State, s': State)
    requires Inv(work, w, s) && Careful(w, s) && Step(work, s, s')
    ensures Inv(work, w, s') && Careful(w, s')
  {
    StepWaits(work, s, s');
    if move :| HostStep(work, s, s', move) {
      match move
      case Arm(line) => ArmKeeps(work, w, s, s', line);
      case Submit(job) => SubmitKeeps(work, w, s, s', job);
      case Proceed => if Submitting(s.host) { StoreKeeps(work, w, s); } else { AnswerKeeps(work, w, s); }
      case Poke(at, byte) => PokeKeeps(work, w, s, s', at, byte);
      case _ => PollKeeps(work, w, s, s', move);
    } else if s' == FirmwareStep(work, s) {
      FirmwareKeeps(work, w, s);
    } else {
      var want :| OnlookerStep(s, s', want);
      OnlookerKeeps(work, w, s, s', want);
    }
  }

  lemma FirmwareKeeps(work: Work, w: Past, s: State)
    requires Inv(work, w, s)
    ensures Inv(work, w, FirmwareStep(work, s))
  {
    if Running(s.fw) {
      RunKeeps(work, w, s);
    } else if Reporting(s.fw) {
      ReportKeeps(work, w, s);
    } else {
      NoticeKeeps(work, w, s);
    }
  }

  lemma FollowsKeeps(work: Work, w: Past, path: seq<State>, i: int)
    requires IsPath(work, path) && 0 < i < |path| && Inv(work, w, path[i - 1]) && Careful(w, path[i - 1])
    ensures Inv(work, w, path[i]) && Careful(w, path[i])
  {
    assert Follows(work, path, i);
    StepKeeps(work, w, path[i - 1], path[i]);
  }

  lemma {:induction false} PathInv(work: Work, w: Past, path: seq<State>, i: nat)
    requires IsPath(work, path) && Inv(work, w, path[0]) && Careful(w, path[0]) && i < |path|
    ensures Inv(work, w, path[i]) && Careful(w, path[i])
  {
    if i > 0 {
      PathInv(work, w, path, i - 1);
      FollowsKeeps(work, w, path, i);
    }
  }

  /** The invariant holds in every state of every run from a clean start. */
  lemma RunInv(work: Work, run: seq<State>, i: nat)
    requires IsRun(work, run) && Clean(run[0]) && i < |run|
    ensures Inv(work, PastOf(run[0]), run[i])
  {
    InitInv(work, run[0]);
    PathInv(work, PastOf(run[0]), run, i);
  }
}
