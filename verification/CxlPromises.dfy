/** What the invariant of the job protocol promises its callers, for every run from a clean start. */
module CxlPromises {
  import opened CxlJob
  import opened CxlProtocol

  /** In every state of every run the jobs run so far are a prefix of the jobs submitted: each at
      most once, in the order of submission, under its own number and on its own arguments. */
  lemma InOrderAndUntorn(work: Work, run: seq<State>, i: nat)
    requires IsRun(work, run) && Clean(run[0]) && i < |run|
    ensures Faithful(work, run[i])
  {
    RunInv(work, run, i);
  }

  /** The next job's body finds what the body of the last one left, but for the host's own stores. */
  lemma BodyMemory(work: Work, run: seq<State>, i: nat)
    requires IsRun(work, run) && Clean(run[0]) && i < |run|
    requires |run[i].ran| > 0 && |FirmwareStep(work, run[i]).ran| > |run[i].ran|
    ensures var s, s' := run[i], FirmwareStep(work, run[i]);
      var last, next := s.ran[|s.ran| - 1], s'.ran[|s.ran|];
      && |next.before| == |last.after| && s'.mem == next.after && s'.touched == {}
      && forall a :: 0 <= a < |next.before| && a !in s.touched ==> next.before[a] == last.after[a]
  {
    RunInv(work, run, i);
    BodyBefore(work, run[i]);
  }

  lemma BodyBefore(work: Work, s: State)
    requires |FirmwareStep(work, s).ran| > |s.ran|
    ensures var s' := FirmwareStep(work, s);
      && |s'.ran| == |s.ran| + 1 && s'.ran[|s.ran|].before == s.mem && s'.ran[|s.ran|].after == s'.mem
      && s'.touched == {}
  {
  }

  /** What wait_completion leads the host to read is what the job came to: the job was served, so
      its argument record was complete, and status and result in the line are those of its body. */
  lemma AnswersAreTrue(work: Work, run: seq<State>, i: nat, k: nat)
    requires IsRun(work, run) && Clean(run[0]) && i < |run| && k < |run[i].answers|
    ensures var s := run[i]; var a := s.answers[k];
      && 0 < a.seqNo <= |s.ran| <= |s.staged|
      && (var r := s.ran[a.seqNo - 1];
          && r == Expected(work, s.staged[a.seqNo - 1], a.seqNo, r.before)
          && r.got.Some? && r.reply.Served? && a.status == SUCCESS && a.result == r.reply.result)
  {
    RunInv(work, run, i);
    var s := run[i];
    var a := s.answers[k];
    assert s.ran[a.seqNo - 1] == Expected(work, s.staged[a.seqNo - 1], a.seqNo, s.ran[a.seqNo - 1].before);
  }

  /** When the host takes the answer, memory is what the job's body left, but for the host's own stores. */
  lemma AnswerMemory(work: Work, run: seq<State>, i: nat)
    requires IsRun(work, run) && Clean(run[0]) && i < |run| && (run[i].host.LineSeen? || run[i].host.StatusRead?)
    ensures var s := run[i];
      && |s.ran| == |s.staged| > 0 && |s.mem| == |s.ran[|s.ran| - 1].after|
      && forall a :: 0 <= a < |s.mem| && a !in s.touched ==> s.mem[a] == s.ran[|s.ran| - 1].after[a]
  {
    RunInv(work, run, i);
  }

  /** Outside the stores that announce the next job, the status mirror names the last job noticed,
      with its id, as running or with the status it ended with. */
  lemma MirrorIsTrue(work: Work, run: seq<State>, i: nat)
    requires IsRun(work, run) && Clean(run[0]) && i < |run| && !run[i].fw.MirrorRunning?
    requires |run[i].ran| > 0 || Running(run[i].fw)
    ensures var s := run[i];
      && 0 < s.mirror.seqNo <= |s.staged| && |s.ran| <= s.mirror.seqNo
      && s.mirror.jobId == s.staged[s.mirror.seqNo - 1].id
      && (if InFlight(s.fw) then s.mirror.status == RUNNING
          else s.mirror.seqNo == |s.ran| && s.mirror.status == StatusOf(s.ran[|s.ran| - 1].reply))
  {
    RunInv(work, run, i);
    var s := run[i];
    if |s.ran| > 0 {
      assert s.ran[|s.ran| - 1] == Expected(work, s.staged[|s.ran| - 1], |s.ran|, s.ran[|s.ran| - 1].before);
    }
  }

  // ----- wait_seq

  /** OK for a number that was not reached before the session is true of some job. */
  lemma OkIsTrue(work: Work, run: seq<State>, i: nat, want: int)
    requires IsRun(work, run) && Clean(run[0]) && i < |run| && run[i].onlooker == Done(want, true)
    requires Trusted(PastOf(run[0]), want)
    ensures Succeeded(run[i], want)
  {
    RunInv(work, run, i);
  }

  /** The last job run, or the one before the session, did not end with success. */
  predicate LastFailed(w: Past, s: State) {
    LastStatus(w, s) != SUCCESS
  }

  /** wait_seq says CIRA_MMIO_EIO exactly if a job is shown as running or the last one failed, whatever
      became of the job that was asked for. */
  lemma EioMeans(work: Work, run: seq<State>, i: nat, s': State, want: int)
    requires IsRun(work, run) && Clean(run[0]) && i < |run| && run[i].onlooker.Seen?
    requires OnlookerStep(run[i], s', want)
    ensures s'.onlooker.Done?
    ensures !s'.onlooker.ok <==> InFlight(run[i].fw) || LastFailed(PastOf(run[0]), run[i])
  {
    RunInv(work, run, i);
  }

  // ----- a submitted job is run if the firmware is let run

  function Alone(work: Work, s: State, n: nat): State
    decreases n
  {
    if n == 0 then s else Alone(work, FirmwareStep(work, s), n - 1)
  }

  /** The firmware has run all jobs and reported the last. */
  predicate Settled(s: State) {
    |s.ran| == |s.staged| && s.fw == PollMagic
  }

  predicate InWait(s: State) {
    s.host.Waiting? || s.host.SeqSeen?
  }

  /** The first job of the session, under the number that the firmware noticed last before it. */
  predicate Unnoticed(w: Past, s: State) {
    |s.ran| == 0 && |s.staged| == 1 && w.lastSeq == 1
  }

  function Distance(s: State): int {
    match s.fw
    case SetFinal => 120
    case MirrorFinal(k) => 119 - k
    case PollMagic => 112
    case PollSeq => if |s.ran| == |s.staged| then 113 else 111
    case TakeSeq => 110
    case CheckMagic => 109
    case Copy(k) => 108 - k
    case SetRunning => 101
    case MirrorRunning(k) => 100 - k
    case Start => 95
    case CheckSlot(k) => 94 - k
    case Fetch => 80 - |s.buf|
    case Complete(k) => 130 - k
  }

  /** Steps left until the current job is settled. */
  function Left(s: State): int {
    Distance(s) + if |s.ran| < |s.staged| then 200 else 0
  }

  lemma CloserRunning(work: Work, w: Past, s: State)
    requires Paced(w, s) && Loaded(s) && Held(s) && InWait(s) && Running(s.fw)
    ensures 0 <= Left(RunStep(work, s)) < Left(s)
    ensures RunStep(work, s).host == s.host && RunStep(work, s).staged == s.staged
  {
    assert Acceptable(Current(s));
    if s.fw.CheckSlot? {
      CheckedArg(w, s);
    }
  }

  lemma CloserNoticing(w: Past, s: State)
    requires Paced(w, s) && Rung(s) && Held(s) && InWait(s) && !Settled(s) && !Unnoticed(w, s)
    requires !Running(s.fw) && !Reporting(s.fw)
    ensures 0 <= Left(NoticeStep(s)) < Left(s)
    ensures NoticeStep(s).host == s.host && NoticeStep(s).staged == s.staged
  {
  }

  lemma CloserReporting(w: Past, s: State)
    requires Paced(w, s) && Held(s) && InWait(s) && Reporting(s.fw)
    ensures 0 <= Left(ReportStep(s)) < Left(s)
    ensures ReportStep(s).host == s.host && ReportStep(s).staged == s.staged
  {
  }

  lemma SettledMeans(work: Work, w: Past, s: State)
    requires Inv(work, w, s) && InWait(s) && Settled(s)
    ensures s.ran[|s.staged| - 1] == Expected(work, Current(s), |s.staged|, s.ran[|s.staged| - 1].before)
    ensures Current(s).line != 0 ==> LineHolds(LineAt(s, Current(s).line), s.ran[|s.staged| - 1].reply)
  {
  }

  lemma AloneStep(work: Work, w: Past, s: State)
    requires Inv(work, w, s) && InWait(s) && !Settled(s) && !Unnoticed(w, s)
    ensures var s' := FirmwareStep(work, s);
      && Inv(work, w, s') && 0 <= Left(s') < Left(s) && s'.host == s.host && s'.staged == s.staged
      && s'.onlooker == s.onlooker && !Unnoticed(w, s')
  {
    if Running(s.fw) {
      CloserRunning(work, w, s);
    } else if Reporting(s.fw) {
      CloserReporting(w, s);
    } else {
      CloserNoticing(w, s);
    }
    FirmwareKeeps(work, w, s);
  }

  /** While the host waits, the firmware alone brings the current job to its end. */
  lemma {:induction false} Settles(work: Work, w: Past, s: State) returns (n: nat)
    requires Inv(work, w, s) && InWait(s) && !Unnoticed(w, s)
    ensures var s' := Alone(work, s, n);
      Inv(work, w, s') && Settled(s') && s'.host == s.host && s'.staged == s.staged && s'.onlooker == s.onlooker
    decreases Left(s)
  {
    if Settled(s) {
      n := 0;
    } else {
      AloneStep(work, w, s);
      var k := Settles(work, w, FirmwareStep(work, s));
      n := k + 1;
    }
  }

  /** A doorbell that shows the number noticed last leaves the firmware polling for ever. */
  lemma {:induction false} StaysUnnoticed(work: Work, s: State, n: nat)
    requires s.bell.seqNo == s.lastSeq && (s.fw.PollMagic? || s.fw.PollSeq?)
    ensures Alone(work, s, n).ran == s.ran && Alone(work, s, n).staged == s.staged
    decreases n
  {
    if n > 0 {
      StaysUnnoticed(work, FirmwareStep(work, s), n - 1);
    }
  }

  /** No job is lost: the firmware alone brings a submitted job to its end, exactly unless it is the
      first of the session and has the number that the firmware noticed last before. */
  lemma JobIsServed(work: Work, w: Past, s: State)
    requires Inv(work, w, s) && InWait(s)
    ensures (exists n :: Settled(Alone(work, s, n))) <==> !Unnoticed(w, s)
  {
    if Unnoticed(w, s) {
      forall n ensures !Settled(Alone(work, s, n)) {
        UnnoticedPolls(work, w, s);
        StaysUnnoticed(work, s, n);
      }
    } else {
      var n := Settles(work, w, s);
    }
  }

  lemma UnnoticedPolls(work: Work, w: Past, s: State)
    requires Inv(work, w, s) && InWait(s) && Unnoticed(w, s)
    ensures s.bell.seqNo == s.lastSeq && (s.fw.PollMagic? || s.fw.PollSeq?)
  {
  }
}
