/** Jobs by their argument records: a submitted record is run on exactly its fields, and an
    INSTALL_CACHELINE job from end to end. */
module RecordJobs {
  import opened CxlJob
  import opened CxlProtocol
  import opened CxlPromises
  import opened DeviceJobs
  import opened Records

  /** Every job with a whole record is run on its bytes; the others are refused. */
  lemma RunOnRecord(work: Work, run: seq<State>, i: nat, k: nat)
    requires IsRun(work, run) && Clean(run[0]) && i < |run| && k < |run[i].ran|
    ensures k < |run[i].staged|
    ensures var job, r := run[i].staged[k], run[i].ran[k];
      && Acceptable(job) && r.id == job.id && r.seqNo == k + 1
      && (if |job.args| >= ArgSize(job.id) then
            var got := job.args[..ArgSize(job.id)];
            r.got == Some(got) && (r.reply, r.after) == work(k + 1, job.id, got, r.before)
          else r.got == None && r.reply == Quiet(BAD_ARGS) && r.after == r.before)
  {
    RunInv(work, run, i);
    var s := run[i];
    assert s.ran[k] == Expected(work, s.staged[k], k + 1, s.ran[k].before);
  }

  /** The k-th job has been run on this record, which is the one that was submitted. */
  ghost predicate RanOn(work: Work, s: State, k: nat, args: seq<int>)
    requires k < |s.ran| && k < |s.staged|
  {
    && s.ran[k].got == Some(args)
    && (s.ran[k].reply, s.ran[k].after) == work(k + 1, s.staged[k].id, args, s.ran[k].before)
  }

  lemma RecordRun(work: Work, run: seq<State>, i: nat, k: nat, args: seq<int>)
    requires IsRun(work, run) && Clean(run[0]) && i < |run| && k < |run[i].ran| && k < |run[i].staged|
    requires run[i].staged[k].args == args && |args| == ArgSize(run[i].staged[k].id)
    ensures RanOn(work, run[i], k, args)
  {
    RunOnRecord(work, run, i, k);
    assert args[..|args|] == args;
  }

  lemma InstallRun(work: Work, run: seq<State>, i: nat, k: nat, c: Install)
    requires IsRun(work, run) && Clean(run[0]) && i < |run| && k < |run[i].ran| && k < |run[i].staged|
    requires run[i].staged[k].id == INSTALL_CACHELINE && TypedInstall(c) && run[i].staged[k].args == EncodeInstall(c)
    ensures RanOn(work, run[i], k, EncodeInstall(c))
    ensures |EncodeInstall(c)| == 32 && DecodeInstall(EncodeInstall(c)) == c
  {
    InstallDecodeEncode(c);
    RecordRun(work, run, i, k, EncodeInstall(c));
  }

  lemma ChainRun(work: Work, run: seq<State>, i: nat, k: nat, c: Chain)
    requires IsRun(work, run) && Clean(run[0]) && i < |run| && k < |run[i].ran| && k < |run[i].staged|
    requires run[i].staged[k].id == PREFETCH_CHAIN && TypedChain(c) && run[i].staged[k].args == EncodeChain(c)
    ensures RanOn(work, run[i], k, EncodeChain(c))
    ensures |EncodeChain(c)| == 40 && DecodeChain(EncodeChain(c)) == c
  {
    ChainDecodeEncode(c);
    RecordRun(work, run, i, k, EncodeChain(c));
  }

  lemma StreamRun(work: Work, run: seq<State>, i: nat, k: nat, c: Stream)
    requires IsRun(work, run) && Clean(run[0]) && i < |run| && k < |run[i].ran| && k < |run[i].staged|
    requires run[i].staged[k].id == STREAM_PREFETCH && TypedStream(c) && run[i].staged[k].args == EncodeStream(c)
    ensures RanOn(work, run[i], k, EncodeStream(c))
    ensures |EncodeStream(c)| == 48 && DecodeStream(EncodeStream(c)) == c
  {
    StreamDecodeEncode(c);
    RecordRun(work, run, i, k, EncodeStream(c));
  }

  lemma CallRun(work: Work, run: seq<State>, i: nat, k: nat, c: Call)
    requires IsRun(work, run) && Clean(run[0]) && i < |run| && k < |run[i].ran| && k < |run[i].staged|
    requires run[i].staged[k].id == CALL && TypedCall(c) && run[i].staged[k].args == EncodeCall(c)
    ensures RanOn(work, run[i], k, EncodeCall(c))
    ensures |EncodeCall(c)| == 32 && DecodeCall(EncodeCall(c)) == c
  {
    CallDecodeEncode(c);
    RecordRun(work, run, i, k, EncodeCall(c));
  }

  // ----- run_install

  /** The reply counts the lines from that of the first byte to that of the last. */
  function InstallReply(c: Install): Reply {
    if c.addr == 0 || c.size == 0 then Quiet(BAD_ARGS)
    else Served(c.completion, (c.addr + c.size - 1) / LINE - c.addr / LINE + 1)
  }

  method RunInstall(mem: array<int>, c: Install) returns (reply: Reply)
    requires c.addr != 0 && c.size != 0 ==> Installable(mem.Length, c.addr, c.size)
    modifies mem
    ensures reply == InstallReply(c) && mem[..] == old(mem[..])
  {
    if c.addr == 0 || c.size == 0 {
      return Quiet(BAD_ARGS);
    }
    var lines := InstallRange(mem, c.addr, c.size);
    reply := Served(c.completion, lines);
  }

  /** The firmware's body of the job is run_install. */
  ghost predicate InstallBody(work: Work) {
    forall seqNo, c, m {:trigger work(seqNo, INSTALL_CACHELINE, EncodeInstall(c), m)} ::
      TypedInstall(c) && Installable(|m|, c.addr, c.size) ==>
        work(seqNo, INSTALL_CACHELINE, EncodeInstall(c), m) == (InstallReply(c), m)
  }

  /** The answer of an install job is the number of lines that its range touches, and memory is as it was. */
  lemma InstallAnswer(work: Work, run: seq<State>, i: nat, k: nat, c: Install)
    requires IsRun(work, run) && Clean(run[0]) && InstallBody(work) && i < |run| && k < |run[i].answers|
    requires TypedInstall(c)
    ensures var s := run[i]; var a := s.answers[k];
      && 0 < a.seqNo <= |s.ran| <= |s.staged|
      && (var job, r := s.staged[a.seqNo - 1], s.ran[a.seqNo - 1];
          job.id == INSTALL_CACHELINE && job.args == EncodeInstall(c) && Installable(|r.before|, c.addr, c.size) ==>
            && c.addr != 0 && c.size != 0 && a.status == SUCCESS && r.after == r.before
            && a.result == (c.addr + c.size - 1) / LINE - c.addr / LINE + 1)
  {
    AnswersAreTrue(work, run, i, k);
    var s := run[i];
    var j := s.answers[k].seqNo - 1;
    if s.staged[j].id == INSTALL_CACHELINE && s.staged[j].args == EncodeInstall(c) {
      InstallRun(work, run, i, j, c);
    }
  }
}
