/** The two programs of the job protocol each on its own: submit_job stores exactly its job, service_once
    runs exactly what the window holds, and both ways of waiting end. */
module CxlService {
  import opened CxlJob
  import opened CxlProtocol
  import opened CxlPromises
  import opened CxlWitness

  // ----- submit_job

  function Stored(s: State, n: nat): State
    decreases n
  {
    if n == 0 then s else Stored(StoreStep(s), n - 1)
  }

  /** The bytes of the arguments before off are in place, and those behind the arguments are as they were. */
  ghost predicate PartStored(p0: seq<int>, p: seq<int>, args: seq<int>, off: nat) {
    && off <= |args| <= |p0| == |p|
    && (forall a {:trigger p[a]} :: 0 <= a < off ==> p[a] == args[a])
    && (forall a {:trigger p[a]} :: |args| <= a < |p| ==> p[a] == p0[a])
  }

  lemma UnitStored(p0: seq<int>, p: seq<int>, args: seq<int>, off: nat)
    requires PartStored(p0, p, args, off) && off < |args|
    ensures PartStored(p0, StoreUnit(p, off, args), args, UnitEnd(off, |args|))
  {
  }

  ghost predicate CanStore(s: State) {
    |s.staged| > 0 && Acceptable(Current(s)) && HasSlot(s, Current(s).id)
  }

  /** The payload: word by word, then byte by byte. */
  lemma {:induction false} StoresPayload(s: State, off: nat, p0: seq<int>) returns (n: nat, p: seq<int>)
    requires CanStore(s) && s.host == Payload(off)
    requires PartStored(p0, s.slots[Current(s).id].payload, Current(s).args, off)
    ensures PartStored(p0, p, Current(s).args, |Current(s).args|)
    ensures var id := Current(s).id;
      Stored(s, n) == s.(slots := s.slots[id := s.slots[id].(payload := p)], host := Header(0))
    decreases |Current(s).args| - off
  {
    var id, args := Current(s).id, Current(s).args;
    var s1 := StoreStep(s);
    if off < |args| {
      UnitStored(p0, s.slots[id].payload, args, off);
      n, p := StoresPayload(s1, UnitEnd(off, |args|), p0);
      n := n + 1;
    } else {
      p := s.slots[id].payload;
      assert s.slots[id := s.slots[id]] == s.slots;
      assert Stored(s, 1) == Stored(s1, 0);
      n := 1;
    }
  }

  lemma {:induction false} StoredAdd(s: State, a: nat, b: nat)
    ensures Stored(Stored(s, a), b) == Stored(s, a + b)
    decreases a
  {
    if a > 0 {
      StoredAdd(StoreStep(s), a - 1, b);
    }
  }

  lemma StoresHeader(s: State)
    requires CanStore(s) && s.host == Header(0)
    ensures Stored(s, 4) == Headed(s)
  {
    var job, seqNo := Current(s), |s.staged|;
    var slot := s.slots[job.id];
    var s1 := StoreStep(s);
    var s2 := StoreStep(s1);
    var s3 := StoreStep(s2);
    var s4 := StoreStep(s3);
    assert s1.slots == s.slots[job.id := slot.(magic := JOB_MAGIC)];
    assert s2.slots == s.slots[job.id := slot.(magic := JOB_MAGIC, version := JOB_VERSION, jobId := job.id)];
    assert s3.slots == s.slots[job.id :=
      slot.(magic := JOB_MAGIC, version := JOB_VERSION, jobId := job.id, seqNo := seqNo)];
    assert s4.slots == s.slots[job.id := Slot(JOB_MAGIC, JOB_VERSION, job.id, seqNo, |job.args|, slot.payload)];
    FourStores(s);
  }

  lemma FourStores(s: State)
    ensures Stored(s, 4) == StoreStep(StoreStep(StoreStep(StoreStep(s))))
  {
    var s1 := StoreStep(s);
    var s2 := StoreStep(s1);
    var s3 := StoreStep(s2);
    assert Stored(s3, 1) == Stored(StoreStep(s3), 0);
    assert Stored(s2, 2) == Stored(s3, 1);
    assert Stored(s1, 3) == Stored(s2, 2);
  }

  lemma StoresDoor(s: State)
    requires CanStore(s) && s.host == Door(0)
    ensures Stored(s, 4) == Rung(s)
  {
    var job, seqNo := Current(s), |s.staged|;
    var s1 := StoreStep(s);
    var s2 := StoreStep(s1);
    var s3 := StoreStep(s2);
    assert s1 == s.(bell := s.bell.(magic := JOB_MAGIC), host := Door(1));
    assert s2 == s.(bell := s.bell.(magic := JOB_MAGIC, version := JOB_VERSION, jobId := job.id), host := Door(2));
    assert s3 == s.(bell := Doorbell(JOB_MAGIC, JOB_VERSION, job.id, job.flags, RUNNING, s.bell.seqNo),
                    host := Door(3));
    assert StoreStep(s3) == Rung(s);
    FourStores(s);
  }

  /** With the header of the current job in its slot. */
  function Headed(s: State): State
    requires CanStore(s)
  {
    var job := Current(s);
    s.(slots := s.slots[job.id :=
         Slot(JOB_MAGIC, JOB_VERSION, job.id, |s.staged|, |job.args|, s.slots[job.id].payload)],
       host := Door(0))
  }

  /** With the doorbell of the current job. */
  function Rung(s: State): State
    requires |s.staged| > 0
  {
    s.(bell := Doorbell(JOB_MAGIC, JOB_VERSION, Current(s).id, Current(s).flags, RUNNING, |s.staged|), host := Waiting)
  }

  /** The slot header and the doorbell, eight words. */
  lemma StoresWords(s: State)
    requires CanStore(s) && s.host == Header(0)
    ensures Stored(s, 8) == Rung(Headed(s))
  {
    StoresHeader(s);
    var s4 := Headed(s);
    StillCanStore(s, s4);
    StoresDoor(s4);
    StoredAdd(s, 4, 4);
  }

  lemma StillCanStore(s: State, s': State)
    requires CanStore(s) && s'.staged == s.staged && |s'.slots| == |s.slots|
    requires |s'.slots[Current(s).id].payload| == PAYLOAD_BYTES
    ensures CanStore(s')
  {
  }

  /** The window with the job in it: arguments, header and doorbell, and nothing else changed. */
  function Submitted(s: State, p: seq<int>): State
    requires CanStore(s)
  {
    var job, seqNo := Current(s), |s.staged|;
    s.(slots := s.slots[job.id := Slot(JOB_MAGIC, JOB_VERSION, job.id, seqNo, |job.args|, p)],
       bell := Doorbell(JOB_MAGIC, JOB_VERSION, job.id, job.flags, RUNNING, seqNo), host := Waiting)
  }

  lemma PayloadThenWords(s: State, s1: State, p: seq<int>)
    requires CanStore(s) && |p| == PAYLOAD_BYTES
    requires var id := Current(s).id; s1 == s.(slots := s.slots[id := s.slots[id].(payload := p)], host := Header(0))
    ensures CanStore(s1) && Rung(Headed(s1)) == Submitted(s, p)
  {
    var id := Current(s).id;
    StillCanStore(s, s1);
    assert s1.slots[id := Headed(s1).slots[id]] == s.slots[id := Headed(s1).slots[id]];
  }

  /** submit_job on its own leaves the arguments, the header and the doorbell of its job, and nothing else. */
  lemma SubmitStores(s: State) returns (n: nat, p: seq<int>)
    requires CanStore(s) && s.host == Payload(0)
    ensures PartStored(s.slots[Current(s).id].payload, p, Current(s).args, |Current(s).args|)
    ensures Stored(s, n) == Submitted(s, p)
  {
    var id := Current(s).id;
    n, p := StoresPayload(s, 0, s.slots[id].payload);
    var s1 := s.(slots := s.slots[id := s.slots[id].(payload := p)], host := Header(0));
    PayloadThenWords(s, s1, p);
    StoresWords(s1);
    StoredAdd(s, n, 8);
    n := n + 8;
  }

  // ----- both ways of waiting end

  /** Once the job is settled with an answer in its line, wait_completion sees the line and takes it. */
  lemma LineAnswers(work: Work, w: Past, s: State) returns (s1: State, s2: State, s3: State)
    requires Inv(work, w, s) && s.host == Waiting && Settled(s) && WritesLine(s.ran[|s.ran| - 1].reply)
    ensures HostStep(work, s, s1, PollLine) && HostStep(work, s1, s2, Proceed) && HostStep(work, s2, s3, Proceed)
    ensures s3 == s.(host := Idle,
                     answers := s.answers + [Answer(|s.staged|, SUCCESS, s.ran[|s.ran| - 1].reply.result)])
  {
    s1 := s.(host := LineSeen);
    s2 := s.(host := StatusRead(SUCCESS));
    s3 := s.(host := Idle, answers := s.answers + [Answer(|s.staged|, SUCCESS, s.ran[|s.ran| - 1].reply.result)]);
    var line := LineAt(s, Current(s).line);
    assert line.magic == COMPLETION_MAGIC && line.status == SUCCESS && line.result == s.ran[|s.ran| - 1].reply.result;
  }

  /** A wait by the mirror ends on any number that is not below its own and shows a final status. */
  lemma MirrorEnds(work: Work, s: State) returns (s1: State, s2: State)
    requires s.host == Waiting && s.waits != ByLine && 0 < |s.staged| <= s.mirror.seqNo
    requires s.mirror.status != 1 || s.waits == Hastily
    ensures HostStep(work, s, s1, PollMirror) && HostStep(work, s1, s2, Proceed) && s2 == s.(host := Idle)
  {
    s1 := s.(host := SeqSeen);
    s2 := s.(host := Idle);
  }

  /** So does, once the job is settled, every wait by the mirror. */
  lemma MirrorAnswers(work: Work, w: Past, s: State) returns (s1: State, s2: State)
    requires Inv(work, w, s) && s.host == Waiting && Settled(s) && s.waits != ByLine
    requires StatusOf(s.ran[|s.ran| - 1].reply) != RUNNING
    ensures HostStep(work, s, s1, PollMirror) && HostStep(work, s1, s2, Proceed) && s2 == s.(host := Idle)
  {
    s1, s2 := MirrorEnds(work, s);
  }

  /** Before that both waits go on. */
  lemma WaitsOn(work: Work, s: State, s': State)
    requires s.host == Waiting && |s.staged| > 0
    ensures (Current(s).line == 0 || LineAt(s, Current(s).line).magic != 0xDEADBEEF) && HostStep(work, s, s', PollLine)
      ==> s' == s
    ensures s.mirror.seqNo < |s.staged| && HostStep(work, s, s', PollMirror) ==> s' == s
  {
  }

  /** wait_seq of another caller, for any number: it returns OK exactly if the status then read is success. */
  lemma OnlookerReturns(s: State, want: int) returns (s1: State, s2: State)
    requires s.onlooker == Absent
    ensures OnlookerStep(s, s1, want)
    ensures s.mirror.seqNo < want ==> s1 == s
    ensures s.mirror.seqNo >= want ==>
      OnlookerStep(s1, s2, want) && s2 == s.(onlooker := Done(want, s.mirror.status == 0))
  {
    s1 := s.(onlooker := if s.mirror.seqNo >= want then Seen(want, s.mirror.seqNo) else Absent);
    s2 := s.(onlooker := Done(want, s.mirror.status == SUCCESS));
  }

  /** The memory of the moment in which the next job's body starts is the one now, if nobody else writes. */
  lemma {:induction false} BeforeIsNow(work: Work, w: Past, s: State, n: nat)
    requires Inv(work, w, s) && |s.ran| + 1 == |s.staged|
    ensures var e := Alone(work, s, n); |e.ran| == |e.staged| == |s.staged| ==> e.ran[|s.ran|].before == s.mem
    decreases n
  {
    if n > 0 {
      var s1 := FirmwareStep(work, s);
      FirmwareKeeps(work, w, s);
      OneStep(work, s);
      if |s1.ran| > |s.ran| {
        NothingMore(work, w, s1, n - 1);
      } else {
        BeforeIsNow(work, w, s1, n - 1);
      }
    }
  }

  lemma OneStep(work: Work, s: State)
    ensures var s1 := FirmwareStep(work, s);
      && s1.staged == s.staged
      && (if |s1.ran| > |s.ran| then |s1.ran| == |s.ran| + 1 && s1.ran[|s.ran|].before == s.mem
          else s1.ran == s.ran && s1.mem == s.mem)
  {
  }

  /** From every clean window, every job with a whole record whose body serves it and that names the line
      its caller has armed is answered, in some run, with the result of its body, whatever that is. */
  lemma Answerable(work: Work, s0: State, job: Job) returns (run: seq<State>)
    requires Init(s0) && Clean(s0) && s0.lastSeq != 1
    requires Acceptable(job) && |job.args| >= ArgSize(job.id) && job.line != 0 && Wired(work, job, 1)
    requires work(1, job.id, job.args[..ArgSize(job.id)], s0.mem).0.Served?
    ensures IsRun(work, run) && run[0] == s0
    ensures run[|run| - 1].answers
         == [Answer(1, SUCCESS, work(1, job.id, job.args[..ArgSize(job.id)], s0.mem).0.result)]
  {
    var w := PastOf(s0);
    Here(work, s0);
    InitInv(work, s0);
    var s := s0.(lines := s0.lines[job.line := NO_LINE]);
    HostMoves(work, [s0], s0, s0, s, Arm(job.line));
    ArmKeeps(work, w, s0, s, job.line);
    var p, s1 := SubmittedKeeps(work, w, [s0] + [s], s0, s, job);
    var n := Settles(work, w, s1);
    BeforeIsNow(work, w, s1, n);
    var e := Alone(work, s1, n);
    p := AlonePath(work, p, s0, s1, n);
    SettledMeans(work, w, e);
    AloneAnswers(work, s1, n);
    var t1, t2, t3 := LineAnswers(work, w, e);
    HostMoves(work, p, s0, e, t1, PollLine);
    HostMoves(work, p + [t1], s0, t1, t2, Proceed);
    HostMoves(work, p + [t1] + [t2], s0, t2, t3, Proceed);
    run := p + [t1] + [t2] + [t3];
  }

  lemma {:induction false} AloneAnswers(work: Work, s: State, n: nat)
    ensures Alone(work, s, n).answers == s.answers
    decreases n
  {
    if n > 0 {
      StepAnswers(work, s);
      AloneAnswers(work, FirmwareStep(work, s), n - 1);
    }
  }

  lemma StepAnswers(work: Work, s: State)
    ensures FirmwareStep(work, s).answers == s.answers
  {
  }
}
