/** Runs that show where the promises of the job protocol end, and the exact conditions that follow. */
module CxlWitness {
  import opened CxlJob
  import opened CxlProtocol
  import opened CxlPromises

  // ----- building runs

  /** A path from s to s'. */
  ghost predicate Leads(work: Work, path: seq<State>, s: State, s': State) {
    IsPath(work, path) && path[0] == s && path[|path| - 1] == s'
  }

  lemma Here(work: Work, s: State)
    ensures Leads(work, [s], s, s)
  {
  }

  lemma More(work: Work, path: seq<State>, s: State, s1: State, s2: State)
    requires Leads(work, path, s, s1) && Step(work, s1, s2)
    ensures Leads(work, path + [s2], s, s2)
  {
    var p := path + [s2];
    forall i | 0 < i < |p| ensures Follows(work, p, i) {
      if i < |path| {
        assert Follows(work, path, i);
        assert p[i - 1] == path[i - 1] && p[i] == path[i];
      }
    }
  }

  /** The firmware goes n steps further. */
  lemma {:induction false} AlonePath(work: Work, path: seq<State>, s: State, s1: State, n: nat) returns (p: seq<State>)
    requires Leads(work, path, s, s1)
    ensures Leads(work, p, s, Alone(work, s1, n)) && path <= p
    decreases n
  {
    if n == 0 {
      p := path;
    } else {
      More(work, path, s, s1, FirmwareStep(work, s1));
      p := AlonePath(work, path + [FirmwareStep(work, s1)], s, FirmwareStep(work, s1), n - 1);
    }
  }

  lemma HostMoves(work: Work, path: seq<State>, s: State, s1: State, s2: State, move: HostMove)
    requires Leads(work, path, s, s1) && HostStep(work, s1, s2, move)
    ensures Leads(work, path + [s2], s, s2)
  {
    assert Step(work, s1, s2);
    More(work, path, s, s1, s2);
  }

  lemma Looks(work: Work, path: seq<State>, s: State, s1: State, s2: State, want: int)
    requires Leads(work, path, s, s1) && OnlookerStep(s1, s2, want)
    ensures Leads(work, path + [s2], s, s2)
  {
    assert Step(work, s1, s2);
    More(work, path, s, s1, s2);
  }

  // ----- one submission, with the firmware standing still

  /** The slots are there, and the current job fits into its own. */
  ghost predicate Ready(s: State) {
    && |s.staged| > 0 && Acceptable(Current(s)) && |s.slots| == CALL + 1
    && (forall i {:trigger s.slots[i]} :: 0 <= i <= CALL ==> |s.slots[i].payload| == PAYLOAD_BYTES)
    && (match s.host
        case Payload(off) => off <= |Current(s).args|
        case Header(k) => k < 4
        case Door(k) => k < 4
        case _ => true)
  }

  function StoresLeft(s: State): int
    requires |s.staged| > 0
  {
    match s.host
    case Payload(off) => |Current(s).args| - off + 9
    case Header(k) => 8 - k
    case Door(k) => 4 - k
    case _ => 0
  }

  lemma StoreOne(s: State)
    requires Ready(s) && Submitting(s.host) && s.host != Door(3)
    ensures var s' := StoreStep(s);
      && Ready(s') && Submitting(s'.host) && 0 <= StoresLeft(s') < StoresLeft(s)
      && s' == s.(slots := s'.slots, bell := s'.bell, host := s'.host) && s'.bell.seqNo == s.bell.seqNo
      && (RungSoFar(s) ==> RungSoFar(s'))
  {
  }

  /** What is stored of the doorbell. */
  predicate RungSoFar(s: State)
    requires |s.staged| > 0
  {
    s.host.Door? ==>
      && (s.host.word > 0 ==> s.bell.magic == JOB_MAGIC)
      && (s.host.word > 1 ==> s.bell.version == JOB_VERSION && s.bell.jobId == Current(s).id)
  }

  /** A submission up to the last word of the doorbell, the number. */
  lemma {:induction false} StoresPath(work: Work, path: seq<State>, s0: State, s: State)
    returns (p: seq<State>, s': State)
    requires Leads(work, path, s0, s) && Ready(s) && Submitting(s.host) && RungSoFar(s)
    ensures Leads(work, p, s0, s') && path <= p
    ensures s'.host == Door(3) && Ready(s') && s' == s.(slots := s'.slots, bell := s'.bell, host := Door(3))
    ensures s'.bell.magic == JOB_MAGIC && s'.bell.jobId == Current(s).id && s'.bell.seqNo == s.bell.seqNo
    decreases StoresLeft(s)
  {
    if s.host == Door(3) {
      p, s' := path, s;
    } else {
      StoreOne(s);
      HostMoves(work, path, s0, s, StoreStep(s), Proceed);
      p, s' := StoresPath(work, path + [StoreStep(s)], s0, StoreStep(s));
    }
  }

  /** From an idle host: a job is staged, and all of it is stored but the number. */
  lemma AlmostSubmitted(work: Work, path: seq<State>, s0: State, s: State, job: Job) returns (p: seq<State>, s': State)
    requires Leads(work, path, s0, s) && s.host == Idle && Acceptable(job) && Disciplined(work, s, job)
    requires |s.slots| == CALL + 1
    requires forall i {:trigger s.slots[i]} :: 0 <= i <= CALL ==> |s.slots[i].payload| == PAYLOAD_BYTES
    ensures Leads(work, p, s0, s') && path <= p
    ensures s' == s.(slots := s'.slots, bell := s'.bell, host := Door(3), staged := s.staged + [job]) && Ready(s')
    ensures s'.bell.magic == JOB_MAGIC && s'.bell.jobId == job.id && s'.bell.seqNo == s.bell.seqNo
  {
    var s1 := s.(staged := s.staged + [job], host := Payload(0));
    HostMoves(work, path, s0, s, s1, Submit(job));
    p, s' := StoresPath(work, path + [s1], s0, s1);
  }

  /** And the number, too. */
  lemma Submitted(work: Work, path: seq<State>, s0: State, s: State, job: Job) returns (p: seq<State>, s': State)
    requires Leads(work, path, s0, s) && s.host == Idle && Acceptable(job) && Disciplined(work, s, job)
    requires |s.slots| == CALL + 1
    requires forall i {:trigger s.slots[i]} :: 0 <= i <= CALL ==> |s.slots[i].payload| == PAYLOAD_BYTES
    ensures Leads(work, p, s0, s') && path <= p
    ensures s' == s.(slots := s'.slots, bell := s'.bell, host := Waiting, staged := s.staged + [job]) && Ready(s')
    ensures s'.bell.magic == JOB_MAGIC && s'.bell.jobId == job.id && s'.bell.seqNo == |s.staged| + 1
  {
    var s1;
    p, s1 := AlmostSubmitted(work, path, s0, s, job);
    s' := StoreStep(s1);
    HostMoves(work, p, s0, s1, s', Proceed);
    p := p + [s'];
  }

  // ----- the firmware runs what the doorbell shows

  /** The firmware has noticed the doorbell b and not yet run its job. */
  ghost predicate Noticing(s: State, b: Doorbell, ran: seq<Run>) {
    && s.ran == ran && s.bell.magic == b.magic && ValidMagic(b.magic) && s.bell.seqNo == b.seqNo
      && s.bell.jobId == b.jobId
    && (match s.fw
        case PollMagic => b.seqNo != s.lastSeq
        case PollSeq => b.seqNo != s.lastSeq
        case TakeSeq => true
        case CheckMagic => true
        case Copy(k) => k < 6 && (k > 2 ==> s.local.jobId == b.jobId)
        case SetRunning => s.local.jobId == b.jobId && s.local.seqNo == b.seqNo
        case MirrorRunning(k) => k < 5 && s.local.jobId == b.jobId && s.local.seqNo == b.seqNo
        case Start => s.local.jobId == b.jobId && s.local.seqNo == b.seqNo
        case CheckSlot(k) => k < 5 && s.local.jobId == b.jobId && s.local.seqNo == b.seqNo
        case Fetch => s.local.jobId == b.jobId && s.local.seqNo == b.seqNo
        case _ => false)
  }

  function NoticeLeft(s: State): int {
    match s.fw
    case PollMagic => 112
    case PollSeq => 111
    case TakeSeq => 110
    case CheckMagic => 109
    case Copy(k) => 108 - k
    case SetRunning => 101
    case MirrorRunning(k) => 100 - k
    case Start => 95
    case CheckSlot(k) => 94 - k
    case Fetch => if |s.buf| <= 48 then 80 - |s.buf| else 0
    case _ => 0
  }

  /** A job is run under the number and id of the doorbell. */
  ghost predicate RanAs(s: State, b: Doorbell, ran: seq<Run>) {
    |s.ran| == |ran| + 1 && ran <= s.ran && s.ran[|ran|].seqNo == b.seqNo && s.ran[|ran|].id == b.jobId
  }

  /** One step closer to the run. */
  ghost predicate Nearer(s: State, s': State, b: Doorbell, ran: seq<Run>) {
    && s'.staged == s.staged && s'.onlooker == s.onlooker
    && (RanAs(s', b, ran) || (Noticing(s', b, ran) && 0 <= NoticeLeft(s') < NoticeLeft(s)))
  }

  lemma NoticeNearer(s: State, b: Doorbell, ran: seq<Run>)
    requires Noticing(s, b, ran) && !Running(s.fw)
    ensures Nearer(s, NoticeStep(s), b, ran)
  {
  }

  lemma RunNearer(work: Work, s: State, b: Doorbell, ran: seq<Run>)
    requires Noticing(s, b, ran) && Running(s.fw)
    ensures Nearer(s, RunStep(work, s), b, ran)
  {
  }

  lemma NoticeOne(work: Work, s: State, b: Doorbell, ran: seq<Run>)
    requires Noticing(s, b, ran)
    ensures Nearer(s, FirmwareStep(work, s), b, ran)
  {
    if Running(s.fw) { RunNearer(work, s, b, ran); } else { NoticeNearer(s, b, ran); }
  }

  lemma {:induction false} RunsAs(work: Work, s: State, b: Doorbell, ran: seq<Run>) returns (n: nat)
    requires Noticing(s, b, ran)
    ensures RanAs(Alone(work, s, n), b, ran) && Alone(work, s, n).staged == s.staged
    decreases NoticeLeft(s)
  {
    NoticeOne(work, s, b, ran);
    var s' := FirmwareStep(work, s);
    if RanAs(s', b, ran) {
      n := 1;
      assert Alone(work, s, 1) == Alone(work, s', 0);
    } else {
      var k := RunsAs(work, s', b, ran);
      n := k + 1;
    }
  }

  // ----- exactly from clean starts are jobs dispatched in order and untorn

  /** A job of the given id with nothing to say. */
  function Plain(id: int): Job {
    Job(id, 0, [], 0)
  }

  lemma PlainIsFine(work: Work, s: State, id: int)
    requires NOP < id <= CALL
    ensures Acceptable(Plain(id)) && Disciplined(work, s, Plain(id))
  {
  }

  /** A state of a run that breaks the promise. */
  ghost predicate Breaks(work: Work, run: seq<State>, s0: State) {
    IsRun(work, run) && run[0] == s0 && !Faithful(work, run[|run| - 1])
  }

  /** The firmware runs what the doorbell shows, and that is not the next job. */
  lemma RunsWrong(work: Work, path: seq<State>, s0: State, s: State) returns (run: seq<State>)
    requires Leads(work, path, s0, s) && Init(s0)
    requires s.fw == PollMagic && ValidMagic(s.bell.magic) && s.bell.seqNo != s.lastSeq && s.ran == []
    requires |s.staged| == 0 || s.bell.seqNo != 1 || s.bell.jobId != s.staged[0].id
    ensures Breaks(work, run, s0)
  {
    var n := RunsAs(work, s, s.bell, []);
    run := AlonePath(work, path, s0, s, n);
    var s' := run[|run| - 1];
    assert Faithful(work, s') ==> s'.ran[0] == Expected(work, s'.staged[0], 1, s'.ran[0].before);
  }

  /** The doorbell shows a number that the firmware has not noticed. */
  lemma StaleBell(work: Work, s0: State) returns (run: seq<State>)
    requires Init(s0) && s0.bell.seqNo != s0.lastSeq
    ensures Breaks(work, run, s0)
  {
    Here(work, s0);
    if ValidMagic(s0.bell.magic) {
      run := RunsWrong(work, [s0], s0, s0);
    } else {
      var id := if s0.bell.jobId == CALL then PREFETCH_CHAIN else CALL;
      run := StaleBehindMagic(work, s0, id);
    }
  }

  /** Its magic is not valid, but the first submission makes it so before the number is stored. */
  lemma StaleBehindMagic(work: Work, s0: State, id: int) returns (run: seq<State>)
    requires Init(s0) && s0.bell.seqNo != s0.lastSeq && NOP < id <= CALL && id != s0.bell.jobId
    ensures Breaks(work, run, s0)
  {
    Here(work, s0);
    PlainIsFine(work, s0, id);
    var p, s := MagicStored(work, [s0], s0, s0, Plain(id));
    run := RunsWrong(work, p, s0, s);
  }

  /** A submission up to the first word of the doorbell. */
  lemma MagicStored(work: Work, path: seq<State>, s0: State, s: State, job: Job) returns (p: seq<State>, s': State)
    requires Leads(work, path, s0, s) && s.host == Idle && Acceptable(job) && Disciplined(work, s, job)
      && job.args == []
    requires |s.slots| == CALL + 1
    requires forall i {:trigger s.slots[i]} :: 0 <= i <= CALL ==> |s.slots[i].payload| == PAYLOAD_BYTES
    ensures Leads(work, p, s0, s') && path <= p
    ensures s' == s.(slots := s'.slots, bell := s.bell.(magic := JOB_MAGIC), host := Door(1),
                       staged := s.staged + [job])
  {
    var s1 := s.(staged := s.staged + [job], host := Payload(0));
    HostMoves(work, path, s0, s, s1, Submit(job));
    p, s' := MagicPath(work, path + [s1], s0, s1);
  }

  lemma {:induction false} MagicPath(work: Work, path: seq<State>, s0: State, s: State)
    returns (p: seq<State>, s': State)
    requires Leads(work, path, s0, s) && Ready(s) && Submitting(s.host) && (s.host.Door? ==> s.host.word == 0)
    ensures Leads(work, p, s0, s') && path <= p
    ensures s' == s.(slots := s'.slots, bell := s.bell.(magic := JOB_MAGIC), host := Door(1))
    decreases StoresLeft(s)
  {
    var s1 := StoreStep(s);
    HostMoves(work, path, s0, s, s1, Proceed);
    if s.host.Door? {
      p, s' := path + [s1], s1;
    } else {
      StoreOne(s);
      p, s' := MagicPath(work, path + [s1], s0, s1);
    }
  }

  /** The mirror shows a job of the past, and the host takes it for its own and for over: the second job
      is under way when the firmware notices the doorbell for the first time. */
  lemma StaleMirror(work: Work, s0: State) returns (run: seq<State>)
    requires Init(s0) && s0.waits != ByLine && s0.bell.seqNo == s0.lastSeq && s0.mirror.seqNo >= 1
    requires s0.mirror.status != RUNNING || s0.waits == Hastily
    ensures Breaks(work, run, s0)
  {
    Here(work, s0);
    PlainIsFine(work, s0, CALL);
    var p, s := Submitted(work, [s0], s0, s0, Plain(CALL));
    HostMoves(work, p, s0, s, s.(host := SeqSeen), PollMirror);
    p, s := p + [s.(host := SeqSeen)], s.(host := SeqSeen);
    HostMoves(work, p, s0, s, s.(host := Idle), Proceed);
    p, s := p + [s.(host := Idle)], s.(host := Idle);
    PlainIsFine(work, s, PREFETCH_CHAIN);
    var s';
    if s0.lastSeq == 1 {
      p, s' := Submitted(work, p, s0, s, Plain(PREFETCH_CHAIN));
    } else {
      p, s' := AlmostSubmitted(work, p, s0, s, Plain(PREFETCH_CHAIN));
    }
    run := RunsWrong(work, p, s0, s');
  }

  /** From a start out of step some run breaks the promise, whatever the bodies of the jobs are. */
  lemma OutOfStep(work: Work, s0: State) returns (run: seq<State>)
    requires Init(s0) && !InStep(s0)
    ensures Breaks(work, run, s0)
  {
    if s0.bell.seqNo != s0.lastSeq {
      run := StaleBell(work, s0);
    } else {
      run := StaleMirror(work, s0);
    }
  }

  // ----- exactly when OK can be trusted

  /** Every job is served at once, with result 0 and no completion line. */
  function ServeAll(): Work {
    (seqNo: int, id: int, args: seq<int>, m: Memory) => (Served(0, 0), m)
  }

  /** A call with a complete argument record. */
  function FullCall(): (job: Job)
    ensures Acceptable(job)
  {
    Job(CALL, 0, seq(32, _ => 0), 0)
  }

  lemma FullCallIsFine(s: State)
    ensures Disciplined(ServeAll(), s, FullCall())
  {
  }

  /** From an idle host: the call is submitted, and the firmware runs it to its end. */
  lemma CallServed(path: seq<State>, s0: State, s: State) returns (p: seq<State>, s': State)
    requires Leads(ServeAll(), path, s0, s) && Init(s0) && Clean(s0) && s.host == Idle && s0.lastSeq != 1
    ensures Leads(ServeAll(), p, s0, s') && path <= p && s'.host == Waiting && Settled(s')
    ensures s'.staged == s.staged + [FullCall()] && s'.onlooker == s.onlooker && s'.waits == s.waits
    ensures Inv(ServeAll(), PastOf(s0), s') && StatusOf(s'.ran[|s.staged|].reply) == SUCCESS
  {
    var work, w := ServeAll(), PastOf(s0);
    FullCallIsFine(s);
    PathEnd(work, path, s0, s);
    var s1;
    p, s1 := Submitted(work, path, s0, s, FullCall());
    PathEnd(work, p, s0, s1);
    var n := Settles(work, w, s1);
    s' := Alone(work, s1, n);
    p := AlonePath(work, p, s0, s1, n);
    AloneHistory(work, s1, n);
    SettledMeans(work, w, s');
  }

  lemma PathEnd(work: Work, path: seq<State>, s0: State, s: State)
    requires Leads(work, path, s0, s) && Init(s0) && Clean(s0)
    ensures Inv(work, PastOf(s0), s)
  {
    RunInv(work, path, |path| - 1);
  }

  /** A run in which OK for this number is wrong. */
  ghost predicate Misled(work: Work, run: seq<State>, s0: State, want: int) {
    && IsRun(work, run) && run[0] == s0
    && run[|run| - 1].onlooker == Done(want, true) && !Succeeded(run[|run| - 1], want)
  }

  /** The mirror of the past shows success with a number that is large enough. */
  lemma PastSuccess(work: Work, s0: State, want: int) returns (run: seq<State>)
    requires Init(s0) && want <= s0.mirror.seqNo && s0.mirror.status == SUCCESS
    ensures Misled(work, run, s0, want)
  {
    var s1, s2 := s0.(onlooker := Seen(want, s0.mirror.seqNo)), s0.(onlooker := Done(want, true));
    Here(work, s0);
    Looks(work, [s0], s0, s0, s1, want);
    Looks(work, [s0] + [s1], s0, s1, s2, want);
    run := [s0] + [s1] + [s2];
  }

  /** The number is from the past, the status from the first job of the session. */
  lemma PastNumber(s0: State, want: int) returns (run: seq<State>)
    requires Init(s0) && Clean(s0) && 1 < want <= s0.mirror.seqNo && s0.lastSeq != 1
    ensures Misled(ServeAll(), run, s0, want)
  {
    var work, s1 := ServeAll(), s0.(onlooker := Seen(want, s0.mirror.seqNo));
    Here(work, s0);
    Looks(work, [s0], s0, s0, s1, want);
    var p, s := CallServed([s0] + [s1], s0, s1);
    var s' := s.(onlooker := Done(want, true));
    Looks(work, p, s0, s, s', want);
    run := p + [s'];
  }

  /** OK from wait_seq(want) means in every run that a job with at least this number has succeeded,
      exactly if the number was not reached in the mirror before the session, or what the mirror
      showed was no success and no job of the session before number `want` can turn it into one. */
  lemma WaitSeqSound(s0: State, want: int)
    requires Init(s0) && Clean(s0)
    ensures (forall work: Work, run: seq<State>, i: nat {:trigger IsRun(work, run), run[i]} ::
               IsRun(work, run) && run[0] == s0 && i < |run| && run[i].onlooker == Done(want, true) ==>
                 Succeeded(run[i], want))
            <==> Trusted(PastOf(s0), want)
  {
    if Trusted(PastOf(s0), want) {
      forall work: Work, run: seq<State>, i: nat {:trigger IsRun(work, run), run[i]}
        | IsRun(work, run) && run[0] == s0 && i < |run| && run[i].onlooker == Done(want, true)
        ensures Succeeded(run[i], want)
      {
        OkIsTrue(work, run, i, want);
      }
    } else {
      var run;
      if s0.mirror.status == SUCCESS {
        run := PastSuccess(ServeAll(), s0, want);
      } else {
        run := PastNumber(s0, want);
      }
      assert run[|run| - 1].onlooker == Done(want, true) && !Succeeded(run[|run| - 1], want);
    }
  }

  /** On a window full of zeros these are the numbers of at least 1, no job goes unnoticed, and the
      start is clean unless the host is hasty. */
  lemma ZeroedWindow(s0: State, want: int)
    requires Init(s0) && Zeroed(s0)
    ensures (Clean(s0) <==> s0.waits != Hastily) && (Trusted(PastOf(s0), want) <==> want >= 1)
      && forall s :: !Unnoticed(PastOf(s0), s)
  {
  }

  // ----- a caller that goes on after any EIO

  /** A window full of zeros. */
  lemma SomeWindow() returns (s0: State)
    ensures Init(s0) && Zeroed(s0) && s0.waits == ByMirror
  {
    var slot := Slot(0, 0, 0, 0, 0, seq(PAYLOAD_BYTES, _ => 0));
    s0 := State(Doorbell(0, 0, 0, 0, 0, 0), seq(CALL + 1, _ => slot), Mirror(0, 0, 0, 0, 0), map[],
                Idle, PollMagic, 0, Doorbell(0, 0, 0, 0, 0, 0), [], Quiet(SUCCESS), Absent, ByMirror,
                [], {}, [], [], []);
  }

  lemma BeforeStart(work: Work, s: State)
    requires !Running(s.fw)
    ensures var s' := FirmwareStep(work, s);
      s'.ran == s.ran && (s'.fw.Start? || !Running(s'.fw)) && s'.staged == s.staged && s'.host == s.host
        && s'.onlooker == s.onlooker
  {
  }

  /** The current job is waited for, and the firmware has not started it. */
  ghost predicate Starting(work: Work, w: Past, s: State) {
    && Inv(work, w, s) && InWait(s) && !Unnoticed(w, s) && |s.ran| < |s.staged| && (s.fw.Start? || !Running(s.fw))
  }

  predicate SameBut(s: State, s': State) {
    s'.ran == s.ran && s'.staged == s.staged && s'.host == s.host && s'.onlooker == s.onlooker
  }

  lemma StartNearer(work: Work, w: Past, s: State)
    requires Starting(work, w, s) && s.fw != Start
    ensures var s' := FirmwareStep(work, s); Starting(work, w, s') && 0 <= Left(s') < Left(s) && SameBut(s, s')
  {
    BeforeStart(work, s);
    AloneStep(work, w, s);
  }

  /** On its way to a job the firmware comes to its start. */
  lemma {:induction false} ComesToStart(work: Work, w: Past, s: State) returns (n: nat)
    requires Starting(work, w, s)
    ensures var s' := Alone(work, s, n); Inv(work, w, s') && s'.fw == Start && SameBut(s, s')
    decreases Left(s)
  {
    if s.fw == Start {
      n := 0;
    } else {
      StartNearer(work, w, s);
      var k := ComesToStart(work, w, FirmwareStep(work, s));
      n := k + 1;
    }
  }

  /** A submission, the invariant kept. */
  lemma SubmittedKeeps(work: Work, w: Past, path: seq<State>, s0: State, s: State, job: Job)
    returns (p: seq<State>, s': State)
    requires Leads(work, path, s0, s) && Inv(work, w, s) && s.host == Idle
    requires Acceptable(job) && Disciplined(work, s, job)
    ensures Leads(work, p, s0, s') && Inv(work, w, s')
    ensures s' == s.(slots := s'.slots, bell := s'.bell, host := Waiting, staged := s.staged + [job])
  {
    var s1 := s.(staged := s.staged + [job], host := Payload(0));
    HostMoves(work, path, s0, s, s1, Submit(job));
    SubmitKeeps(work, w, s, s1, job);
    p, s' := StoresKeep(work, w, path + [s1], s0, s1);
  }

  lemma {:induction false} StoresKeep(work: Work, w: Past, path: seq<State>, s0: State, s: State)
    returns (p: seq<State>, s': State)
    requires Leads(work, path, s0, s) && Inv(work, w, s) && Submitting(s.host)
    ensures Leads(work, p, s0, s') && Inv(work, w, s')
    ensures s' == s.(slots := s'.slots, bell := s'.bell, host := Waiting)
    decreases StoresLeft(s)
  {
    var s1 := StoreStep(s);
    HostMoves(work, path, s0, s, s1, Proceed);
    StoreKeeps(work, w, s);
    StoreFrame(s);
    if s.host == Door(3) {
      p, s' := path + [s1], s1;
    } else {
      StoreOne(s);
      p, s' := StoresKeep(work, w, path + [s1], s0, s1);
    }
  }

  lemma StoreFrame(s: State)
    ensures var s' := StoreStep(s); s' == s.(slots := s'.slots, bell := s'.bell, host := s'.host)
  {
  }

  /** The slot of a job with another number fails a check. */
  lemma {:induction false} ChecksFail(work: Work, s: State) returns (n: nat)
    requires s.fw.CheckSlot? && s.fw.field <= 3
    requires HasSlot(s, s.local.jobId) && s.slots[s.local.jobId].seqNo != s.local.seqNo
    ensures var s' := Alone(work, s, n);
      |s'.ran| == |s.ran| + 1 && s'.ran[..|s.ran|] == s.ran && s'.ran[|s.ran|].got == None && s'.staged == s.staged
    decreases 3 - s.fw.field
  {
    var s1 := FirmwareStep(work, s);
    if s1.fw.CheckSlot? {
      var k := ChecksFail(work, s1);
      n := k + 1;
    } else {
      assert Alone(work, s, 1) == s1;
      n := 1;
    }
  }

  /** The host stores the number of its second job into the slot that the first one is about to be
      read from. */
  lemma SlotTaken(work: Work, path: seq<State>, s0: State, s: State) returns (p: seq<State>, s': State)
    requires Leads(work, path, s0, s) && s.host == Idle && HasSlot(s, CALL)
    ensures Leads(work, p, s0, s') && s'.staged == s.staged + [Plain(CALL)] && HasSlot(s', CALL)
    ensures s' == s.(staged := s'.staged, slots := s'.slots, host := Header(3))
    ensures s'.slots[CALL].seqNo == |s'.staged|
  {
    PlainIsFine(work, s, CALL);
    s' := s.(staged := s.staged + [Plain(CALL)], host := Payload(0));
    HostMoves(work, path, s0, s, s', Submit(Plain(CALL)));
    p := path + [s'];
    HostMoves(work, p, s0, s', StoreStep(s'), Proceed);
    p, s' := p + [StoreStep(s')], StoreStep(s');
    HostMoves(work, p, s0, s', StoreStep(s'), Proceed);
    p, s' := p + [StoreStep(s')], StoreStep(s');
    HostMoves(work, p, s0, s', StoreStep(s'), Proceed);
    p, s' := p + [StoreStep(s')], StoreStep(s');
    HostMoves(work, p, s0, s', StoreStep(s'), Proceed);
    p, s' := p + [StoreStep(s')], StoreStep(s');
  }

  /** wait_seq shows a hasty host its first job as running, it goes on to the second of the same kind,
      and the first is refused although its record was complete. */
  lemma HastyTears(s0: State) returns (run: seq<State>)
    requires Init(s0) && InStep(s0) && s0.waits == Hastily && s0.lastSeq != 1
    ensures Breaks(ServeAll(), run, s0)
  {
    var work, w := ServeAll(), PastOf(s0);
    Here(work, s0);
    InitInv(work, s0);
    FullCallIsFine(s0);
    var p, s := SubmittedKeeps(work, w, [s0], s0, s0, FullCall());
    var n := ComesToStart(work, w, s);
    p := AlonePath(work, p, s0, s, n);
    AloneWaits(work, s, n);
    s := Alone(work, s, n);
    HostMoves(work, p, s0, s, s.(host := SeqSeen), PollMirror);
    p, s := p + [s.(host := SeqSeen)], s.(host := SeqSeen);
    HostMoves(work, p, s0, s, s.(host := Idle), Proceed);
    p, s := p + [s.(host := Idle)], s.(host := Idle);
    p, s := SlotTaken(work, p, s0, s);
    More(work, p, s0, s, FirmwareStep(work, s));
    p, s := p + [FirmwareStep(work, s)], FirmwareStep(work, s);
    var k := ChecksFail(work, s);
    run := AlonePath(work, p, s0, s, k);
    var s' := run[|run| - 1];
    assert Faithful(work, s') ==> s'.ran[0] == Expected(work, s'.staged[0], 1, s'.ran[0].before);
  }

  lemma {:induction false} AloneWaits(work: Work, s: State, n: nat)
    ensures Alone(work, s, n).waits == s.waits
    decreases n
  {
    if n > 0 {
      assert Step(work, s, FirmwareStep(work, s));
      StepWaits(work, s, FirmwareStep(work, s));
      AloneWaits(work, FirmwareStep(work, s), n - 1);
    }
  }

  /** Exactly from a clean start are the jobs run, in every run and with every firmware, a prefix of the
      jobs submitted, each once and on its own arguments. */
  lemma CleanIsExact(s0: State)
    requires Init(s0)
    ensures (forall work: Work, run: seq<State>, i: nat {:trigger IsRun(work, run), run[i]} ::
               IsRun(work, run) && run[0] == s0 && i < |run| ==> Faithful(work, run[i]))
            <==> Clean(s0)
  {
    if Clean(s0) {
      forall work: Work, run: seq<State>, i: nat {:trigger IsRun(work, run), run[i]}
        | IsRun(work, run) && run[0] == s0 && i < |run|
        ensures Faithful(work, run[i])
      {
        InOrderAndUntorn(work, run, i);
      }
    } else {
      var run := Unclean(s0);
      assert !Faithful(ServeAll(), run[|run| - 1]);
    }
  }

  lemma Unclean(s0: State) returns (run: seq<State>)
    requires Init(s0) && !Clean(s0)
    ensures Breaks(ServeAll(), run, s0)
  {
    if !InStep(s0) {
      run := OutOfStep(ServeAll(), s0);
    } else if s0.mirror.seqNo >= 1 {
      run := StaleMirror(ServeAll(), s0);
    } else {
      run := HastyTears(s0);
    }
  }

  /** From any window: in every run and with every firmware jobs are run in order and untorn and OK for
      `want` is true, exactly if the start is clean and the number can be trusted. */
  lemma WindowIsExact(s0: State, want: int)
    requires Init(s0)
    ensures (forall work: Work, run: seq<State>, i: nat {:trigger IsRun(work, run), run[i]} ::
               IsRun(work, run) && run[0] == s0 && i < |run| ==>
                 Faithful(work, run[i]) && (run[i].onlooker == Done(want, true) ==> Succeeded(run[i], want)))
            <==> Clean(s0) && Trusted(PastOf(s0), want)
  {
    if Clean(s0) {
      WaitSeqSound(s0, want);
      CleanIsExact(s0);
    } else {
      var run := Unclean(s0);
      assert !Faithful(ServeAll(), run[|run| - 1]);
    }
  }

  // ----- a job that is never noticed

  /** From every clean window on which the firmware noticed number 1 last, the first job of the session
      is lost. */
  lemma LostJob(work: Work, s0: State) returns (run: seq<State>)
    requires Init(s0) && Clean(s0) && s0.lastSeq == 1
    ensures IsRun(work, run) && run[0] == s0
    ensures var s := run[|run| - 1];
      InWait(s) && |s.staged| == 1 && forall n: nat :: !Settled(Alone(work, s, n))
  {
    Here(work, s0);
    PlainIsFine(work, s0, CALL);
    var s;
    run, s := Submitted(work, [s0], s0, s0, Plain(CALL));
    PathEnd(work, run, s0, s);
    JobIsServed(work, PastOf(s0), s);
  }

  /** Such a window: doorbell and mirror are at number 1, and the mirror shows success. */
  lemma UsedWindow() returns (s0: State)
    ensures Init(s0) && Clean(s0) && s0.lastSeq == 1 && s0.mirror.seqNo == 1 && s0.mirror.status == SUCCESS
  {
    s0 := SomeWindow();
    s0 := s0.(bell := s0.bell.(magic := JOB_MAGIC, seqNo := 1), mirror := s0.mirror.(seqNo := 1), lastSeq := 1,
              waits := ByLine);
  }

  // ----- EIO that is not what it seems

  /** The firmware alone brings the last job to an end with success. */
  ghost predicate EndsWell(work: Work, s: State) {
    exists n: nat {:trigger Alone(work, s, n)} ::
      var e := Alone(work, s, n); |e.ran| == |e.staged| > 0 && StatusOf(e.ran[|e.ran| - 1].reply) == SUCCESS
  }

  /** In a run from a clean start wait_seq for the last job, whose number was not reached before the
      session, has seen the number and reads this status; s' is the state after its answer. */
  ghost predicate Asks(work: Work, run: seq<State>, i: nat, s': State, shown: int) {
    && IsRun(work, run) && Clean(run[0]) && i < |run| && run[i].mirror.status == shown
    && run[i].onlooker.Seen? && run[i].onlooker.want == |run[i].staged| > run[0].mirror.seqNo
    && OnlookerStep(run[i], s', run[i].onlooker.want)
  }

  /** With nothing left to run, no job is run any more. */
  lemma {:induction false} NothingMore(work: Work, w: Past, s: State, n: nat)
    requires Inv(work, w, s) && |s.ran| == |s.staged|
    ensures Alone(work, s, n).ran == s.ran && Alone(work, s, n).staged == s.staged
    decreases n
  {
    if n > 0 {
      FirmwareKeeps(work, w, s);
      NoMoreRuns(work, w, s);
      NothingMore(work, w, FirmwareStep(work, s), n - 1);
    }
  }

  lemma NoMoreRuns(work: Work, w: Past, s: State)
    requires Paced(w, s) && |s.ran| == |s.staged|
    ensures FirmwareStep(work, s).ran == s.ran && FirmwareStep(work, s).staged == s.staged
  {
  }

  /** Unless the mirror shows RUNNING, the last job is over. */
  lemma ShownOver(w: Past, s: State)
    requires Paced(w, s) && Mirrored(w, s) && Told(w, s)
    requires s.onlooker.Seen? && s.onlooker.want == |s.staged| > w.mirrorSeq && s.mirror.status != RUNNING
    ensures |s.ran| == |s.staged| > 0 && s.mirror.status == StatusOf(s.ran[|s.ran| - 1].reply)
  {
  }

  lemma AnswerOver(work: Work, w: Past, s: State, s': State)
    requires Inv(work, w, s) && s.onlooker.Seen? && s.onlooker.want == |s.staged| > w.mirrorSeq
    requires s.mirror.status != RUNNING && OnlookerStep(s, s', s.onlooker.want)
    ensures |s.ran| == |s.staged| > 0 && s'.ran == s.ran && s'.staged == s.staged
    ensures s'.onlooker == Done(|s.staged|, StatusOf(s.ran[|s.ran| - 1].reply) == SUCCESS)
  {
    ShownOver(w, s);
  }

  lemma AnswerIsRight(work: Work, run: seq<State>, i: nat, s': State, shown: int)
    requires Asks(work, run, i, s', shown) && shown != RUNNING
    ensures s'.onlooker == Done(|run[i].staged|, true) <==> EndsWell(work, s')
  {
    var w, s := PastOf(run[0]), run[i];
    RunInv(work, run, i);
    AnswerOver(work, w, s, s');
    OnlookerKeeps(work, w, s, s', s.onlooker.want);
    forall n: nat ensures Alone(work, s', n).ran == s.ran && Alone(work, s', n).staged == s.staged {
      NothingMore(work, w, s', n);
    }
    assert Alone(work, s', 0) == s';
  }

  /** A caller that asks about the last job learns from every firmware how it ends, exactly if the
      status that wait_seq reads is not RUNNING. */
  lemma EioTrusted(shown: int)
    ensures (forall work: Work, run: seq<State>, i: nat, s': State {:trigger Asks(work, run, i, s', shown)} ::
               Asks(work, run, i, s', shown) ==>
                 (s'.onlooker == Done(|run[i].staged|, true) <==> EndsWell(work, s')))
            <==> shown != RUNNING
  {
    if shown == RUNNING {
      var work, run, i := EioThenSuccess();
      assert Asks(work, run, i - 1, run[i], shown);
    } else {
      forall work: Work, run: seq<State>, i: nat, s': State {:trigger Asks(work, run, i, s', shown)}
        | Asks(work, run, i, s', shown)
        ensures s'.onlooker == Done(|run[i].staged|, true) <==> EndsWell(work, s')
      {
        AnswerIsRight(work, run, i, s', shown);
      }
    }
  }

  /** wait_seq(1) says EIO while job 1 is running, and job 1 ends with success. */
  lemma EioThenSuccess() returns (work: Work, run: seq<State>, i: nat)
    ensures IsRun(work, run) && Zeroed(run[0]) && i < |run|
    ensures run[i].onlooker == Done(1, false) && run[i].ran == [] && |run[i].staged| == 1
    ensures i > 0 && Asks(work, run, i - 1, run[i], RUNNING) && EndsWell(work, run[i])
    ensures var s := run[|run| - 1]; |s.ran| == 1 && s.staged == run[i].staged && StatusOf(s.ran[0].reply) == SUCCESS
  {
    work := ServeAll();
    var s0 := SomeWindow();
    var w := PastOf(s0);
    Here(work, s0);
    FullCallIsFine(s0);
    var p, s := Submitted(work, [s0], s0, s0, FullCall());
    PathEnd(work, p, s0, s);
    var n := ComesToStart(work, w, s);
    p := AlonePath(work, p, s0, s, n);
    s := Alone(work, s, n);
    var s1, s2 := s.(onlooker := Seen(1, s.mirror.seqNo)), s.(onlooker := Done(1, false));
    Looks(work, p, s0, s, s1, 1);
    Looks(work, p + [s1], s0, s1, s2, 1);
    p := p + [s1] + [s2];
    i := |p| - 1;
    PathEnd(work, p, s0, s2);
    var k := Settles(work, w, s2);
    run := AlonePath(work, p, s0, s2, k);
    SettledMeans(work, w, Alone(work, s2, k));
  }

  /** wait_seq(1) says EIO although job 1 has succeeded, because job 2 has failed. */
  lemma EioAfterSuccess() returns (work: Work, run: seq<State>)
    ensures IsRun(work, run) && Zeroed(run[0])
    ensures var s := run[|run| - 1];
      && s.onlooker == Done(1, false) && Settled(s) && |s.ran| == 2
      && StatusOf(s.ran[0].reply) == SUCCESS && StatusOf(s.ran[1].reply) == BAD_ARGS
  {
    work := ServeAll();
    var s0 := SomeWindow();
    var w := PastOf(s0);
    Here(work, s0);
    var p, s := CallServed([s0], s0, s0);
    HostMoves(work, p, s0, s, s.(host := SeqSeen), PollMirror);
    p, s := p + [s.(host := SeqSeen)], s.(host := SeqSeen);
    HostMoves(work, p, s0, s, s.(host := Idle), Proceed);
    p, s := p + [s.(host := Idle)], s.(host := Idle);
    PathEnd(work, p, s0, s);
    PlainIsFine(work, s, CALL);
    var first := s.ran;
    p, s := Submitted(work, p, s0, s, Plain(CALL));
    PathEnd(work, p, s0, s);
    var n := Settles(work, w, s);
    p := AlonePath(work, p, s0, s, n);
    AloneHistory(work, s, n);
    s := Alone(work, s, n);
    SettledMeans(work, w, s);
    var s1, s2 := s.(onlooker := Seen(1, s.mirror.seqNo)), s.(onlooker := Done(1, false));
    Looks(work, p, s0, s, s1, 1);
    Looks(work, p + [s1], s0, s1, s2, 1);
    run := p + [s1] + [s2];
  }

  /** What has been run stays. */
  ghost predicate Continues(s: State, s': State) {
    s.ran <= s'.ran && s'.waits == s.waits
  }

  lemma StepHistory(work: Work, s: State)
    ensures Continues(s, FirmwareStep(work, s))
  {
  }

  lemma HistoryTrans(s: State, s1: State, s2: State)
    requires Continues(s, s1) && Continues(s1, s2)
    ensures Continues(s, s2)
  {
  }

  lemma {:induction false} AloneHistory(work: Work, s: State, n: nat)
    ensures Continues(s, Alone(work, s, n))
    decreases n
  {
    if n > 0 {
      StepHistory(work, s);
      AloneHistory(work, FirmwareStep(work, s), n - 1);
      HistoryTrans(s, FirmwareStep(work, s), Alone(work, s, n));
    }
  }
}
