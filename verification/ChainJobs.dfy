/** A PREFETCH_CHAIN job from end to end: from the bytes of its argument record to the answer that the
    host takes from the completion line and the data it then finds in the buffer. */
module ChainJobs {
  import opened CxlJob
  import opened CxlProtocol
  import opened CxlPromises
  import opened PrefetchChain
  import opened Records

  const RECORD := ArgSize(PREFETCH_CHAIN)

  // ----- the job in the protocol

  /** The firmware's body of the job is run_prefetch_chain; for the other jobs it may be any. */
  ghost predicate ChainBody(work: Work) {
    forall seqNo, args, m {:trigger work(seqNo, PREFETCH_CHAIN, args, m)} ::
      |args| == RECORD && IsBytes(args) && Runnable(m, DecodeChain(args)) ==>
        work(seqNo, PREFETCH_CHAIN, args, m) == ChainRun(m, DecodeChain(args))
  }

  /** Such a firmware; all other jobs it refuses. */
  function Device(): Work {
    (seqNo: int, id: int, args: seq<int>, m: Memory) =>
      if id == PREFETCH_CHAIN && |args| == RECORD && IsBytes(args) && Runnable(m, DecodeChain(args)) then
        ChainRun(m, DecodeChain(args))
      else (Quiet(BAD_ARGS), m)
  }

  /** A submitted job with enough argument bytes. */
  predicate Whole(job: Job) {
    Acceptable(job) && job.id == PREFETCH_CHAIN && |job.args| >= RECORD
  }

  function ChainOf(job: Job): Chain
    requires Whole(job)
  {
    DecodeChain(job.args[..RECORD])
  }

  /** A caller keeps to the discipline by watching the line that the record names. */
  lemma DeviceIsWired(job: Job, seqNo: int)
    requires Whole(job) && job.line == ChainOf(job).completion
    ensures ChainBody(Device()) && Wired(Device(), job, seqNo)
  {
  }

  /** How a run of the job ends: refused without a whole record, otherwise as run_prefetch_chain ends
      on the memory of the moment. */
  ghost predicate ChainDone(job: Job, r: Run)
    requires Acceptable(job) && job.id == PREFETCH_CHAIN
  {
    if !Whole(job) then r.reply == Quiet(BAD_ARGS) && r.after == r.before
    else
      var c := ChainOf(job);
      && (Runnable(r.before, c) ==> (r.reply, r.after) == ChainRun(r.before, c))
      && (ChainReady(r.before, c) ==> ChainOutcome(r.before, c, r.reply, r.after))
  }

  lemma ExpectedChain(work: Work, job: Job, seqNo: int, r: Run)
    requires ChainBody(work) && Acceptable(job) && job.id == PREFETCH_CHAIN
    requires r == Expected(work, job, seqNo, r.before)
    ensures ChainDone(job, r)
  {
    if Whole(job) {
      var c := ChainOf(job);
      assert Runnable(r.before, c) ==>
        work(seqNo, PREFETCH_CHAIN, job.args[..RECORD], r.before) == ChainRun(r.before, c);
      if ChainReady(r.before, c) {
        ChainGathers(r.before, c);
      }
    }
  }

  /** Every job of this kind that was ever run ended so, on the bytes that were staged for it. */
  lemma ChainJobsRun(work: Work, run: seq<State>, i: nat, k: nat)
    requires IsRun(work, run) && Clean(run[0]) && ChainBody(work) && i < |run|
    requires k < |run[i].ran| && run[i].ran[k].id == PREFETCH_CHAIN
    ensures k < |run[i].staged| && Acceptable(run[i].staged[k]) && run[i].staged[k].id == PREFETCH_CHAIN
    ensures ChainDone(run[i].staged[k], run[i].ran[k])
  {
    RunInv(work, run, i);
    var s := run[i];
    assert s.ran[k] == Expected(work, s.staged[k], k + 1, s.ran[k].before);
    ExpectedChain(work, s.staged[k], k + 1, s.ran[k]);
  }

  /** The answer of such a job is the number of nodes in the list, up to the depth asked for, and the
      body left their data in the buffer, in order. */
  lemma ChainAnswer(work: Work, run: seq<State>, i: nat, k: nat)
    requires IsRun(work, run) && Clean(run[0]) && ChainBody(work) && i < |run| && k < |run[i].answers|
    ensures var s := run[i]; var a := s.answers[k];
      && 0 < a.seqNo <= |s.ran| <= |s.staged|
      && (var job, r := s.staged[a.seqNo - 1], s.ran[a.seqNo - 1];
          r.id == PREFETCH_CHAIN ==>
            && Whole(job)
            && (var c := ChainOf(job);
                ChainReady(r.before, c) ==>
                  && c.start != 0 && a.status == SUCCESS
                  && (var ns := Nodes(r.before, c, c.start, c.depth);
                      a.result == |ns| && Gathered(r.before, c, ns, r.after))))
  {
    AnswersAreTrue(work, run, i, k);
    var s := run[i];
    var a := s.answers[k];
    if s.ran[a.seqNo - 1].id == PREFETCH_CHAIN {
      ChainJobsRun(work, run, i, a.seqNo - 1);
    }
  }

  // ----- what the host then finds in the buffer

  /** The job that the completion line tells of is the last one, run as staged. */
  lemma LastOfChain(work: Work, run: seq<State>, i: nat)
    requires IsRun(work, run) && Clean(run[0]) && ChainBody(work) && i < |run|
    requires run[i].host.LineSeen? || run[i].host.StatusRead?
    requires |run[i].staged| > 0 && Current(run[i]).id == PREFETCH_CHAIN
    ensures var s := run[i];
      && |s.ran| == |s.staged| && Whole(Current(s)) && ChainDone(Current(s), s.ran[|s.ran| - 1])
  {
    RunInv(work, run, i);
    var s := run[i];
    var k := |s.ran| - 1;
    assert s.ran[k] == Expected(work, s.staged[k], k + 1, s.ran[k].before);
    ChainJobsRun(work, run, i, k);
  }

  /** What the body left is there as long as the host does not write to it. */
  lemma StaysThere(c: Chain, r: Run, now: Memory, touched: set<int>, j: nat, b: nat)
    requires ChainReady(r.before, c) ==> ChainOutcome(r.before, c, r.reply, r.after)
    requires |now| == |r.after| && forall a :: 0 <= a < |now| && a !in touched ==> now[a] == r.after[a]
    ensures HoldsByte(c, r.before, now, touched, j, b)
  {
    if ChainReady(r.before, c) && c.buf != 0 && b < c.dataSize && j < |Nodes(r.before, c, c.start, c.depth)| {
      assert ByteThere(r.before, c, Nodes(r.before, c, c.start, c.depth), r.after, j, b);
    }
  }

  /** Byte b of item j in the buffer is that of the j-th node of the list in m, or the host has
      written there. */
  ghost predicate HoldsByte(c: Chain, m: Memory, now: Memory, touched: set<int>, j: nat, b: nat) {
    ChainReady(m, c) && c.buf != 0 && b < c.dataSize && j < |Nodes(m, c, c.start, c.depth)| ==>
      var at, from := c.buf + j * c.dataSize + b, Nodes(m, c, c.start, c.depth)[j] + c.data + b;
      0 <= at < |now| && 0 <= from < |m| && (at in touched || now[at] == m[from])
  }

  /** When the completion line has told the host that its job is over, byte b of item j in the buffer
      is that of the j-th node when the body ran, unless the host has written there since. */
  lemma HostFindsData(work: Work, run: seq<State>, i: nat, j: nat, b: nat)
    requires IsRun(work, run) && Clean(run[0]) && ChainBody(work) && i < |run|
    requires run[i].host.LineSeen? || run[i].host.StatusRead?
    requires |run[i].staged| > 0 && Current(run[i]).id == PREFETCH_CHAIN
    ensures var s := run[i];
      && |s.ran| == |s.staged| && Whole(Current(s))
      && HoldsByte(ChainOf(Current(s)), s.ran[|s.ran| - 1].before, s.mem, s.touched, j, b)
  {
    LastOfChain(work, run, i);
    AnswerMemory(work, run, i);
    var s := run[i];
    var r := s.ran[|s.ran| - 1];
    StaysThere(ChainOf(Current(s)), r, s.mem, s.touched, j, b);
  }
}
