/** The driver of all jobs: the loop over state functions, one call of the caller, and whole runs. */
module Driver {
  import opened Bytes
  import opened Job
  import opened Protocol
  import Delta
  import Patch
  import PatchSpec
  import Mksum
  import Readsums

  /** What a job keeps between state functions, in state fn. */
  ghost predicate Inv(job: Job, fn: StateFn)
    reads job, job.stream, job.scoopBuf, job.writeBuf
    reads job.signature, job.SigObjects(), job.weakSum, job.weakSum.rs, job.weakSum.rk
  {
    match job.kind
    case DeltaJob => Delta.DeltaInv(job, fn)
    case PatchJob => Patch.PatchInv(job, fn)
    case SigJob => Mksum.SigInv(job, fn)
    case LoadsigJob => Readsums.LoadInv(job, fn)
  }

  /** What a state function, or the driver, leaves behind along with its result. */
  ghost predicate Post(job: Job, result: Result)
    reads job, job.stream, job.scoopBuf, job.writeBuf
    reads job.signature, job.SigObjects(), job.weakSum, job.weakSum.rs, job.weakSum.rk
  {
    match job.kind
    case DeltaJob => Delta.DeltaPost(job, result)
    case PatchJob => Patch.PatchPost(job, result)
    case SigJob => Mksum.SigPost(job, result)
    case LoadsigJob => Readsums.LoadPost(job, result)
  }

  lemma InvFlows(job: Job, fn: StateFn)
    requires Inv(job, fn)
    ensures job.Flows()
  {
    hide Job.Flows, Delta.Standing;
    if job.kind == DeltaJob && (fn == DeltaScan || fn == DeltaFlush) {
      Delta.Here(job);
    }
  }

  /** Given input and room, the job will get something done. */
  ghost predicate Lively(job: Job)
    reads job, job.stream, job.signature
  {
    && |job.stream.nextIn| > 0 && job.stream.availOut > 0
    && (job.Due() || (job.statefn !in {Null, PatchRun} && !job.Stalled()))
  }

  /** A job is finished when its state function is cleared and its tube is empty. */
  ghost predicate Finished(job: Job)
    reads job
  {
    job.statefn == Null && job.Idle()
  }

  /** There is output to send, and room for it. */
  ghost predicate Pending(job: Job)
    reads job, job.stream
  {
    |job.stream.nextIn| > 0 && job.stream.availOut > 0 && job.Due()
  }

  /** The promise of catching up, spelt out. */
  twostate lemma CatchupTells(job: Job, new result: Result)
    requires job.stream == old(job.stream) && unchanged(job`statefn, job`scanPos, job.stream`eofIn)
    requires job.signature != null ==> unchanged(job.signature)
    requires job.Onward() && (result == Done <==> job.Idle())
    requires old(job.Idle()) ==> result == Done && job.Still()
    requires old(job.Due()) && old(job.stream.availOut) > 0 ==> job.Progressed()
    ensures old(Lively(job)) ==> job.Progressed() || (Lively(job) && job.statefn != Null && result == Done)
    ensures old(job.Stalled()) ==> result == Done && job.statefn != Null && job.Stalled() && !job.Progressed()
  {
  }

  /** Send what waits in the tube. */
  method Send(job: Job) returns (result: Result)
    requires Inv(job, job.statefn)
    modifies job`writeLen, job`copyLen, job`sent, job`scoopNext, job`scoopAvail, job`taken
    modifies job.stream`nextIn, job.stream`out, job.stream`availOut, job.writeBuf
    ensures if result in {Done, Blocked} then Inv(job, job.statefn) else Post(job, result)
    ensures job.Onward() && (result == Done <==> job.Idle()) && result != Running
    ensures result == Blocked ==> job.stream.availOut == 0 || (|job.stream.nextIn| == 0 && !job.stream.eofIn)
    ensures result == Blocked ==> job.statefn != PatchRun && (job.kind == DeltaJob ==> job.stream.availOut == 0)
    ensures old(job.scoopAvail) == 0 ==> job.scoopAvail == 0
    ensures old(job.Due()) && old(job.stream.availOut) > 0 ==> job.Progressed()
    ensures old(job.Idle()) ==> result == Done
    ensures if old(job.Idle()) then job.Still() else result == Done ==> |job.sent| > |old(job.sent)|
  {
    hide Delta.DeltaInv, Patch.PatchInv, Mksum.SigInv, Readsums.LoadInv, Patch.PatchEnds;
    if job.statefn != Null {
      Belongs(job, job.statefn);
    }
    match job.kind {
      case DeltaJob => result := Delta.Catchup(job);
      case PatchJob => result := Patch.Catchup(job);
      case SigJob => result := Mksum.Catchup(job);
      case LoadsigJob => result := Readsums.Catchup(job);
    }
  }

  /** Send what waits in the tube. A job that is not stalled gets something done, or can go on. */
  method Catchup(job: Job) returns (result: Result)
    requires Inv(job, job.statefn)
    modifies job`writeLen, job`copyLen, job`sent, job`scoopNext, job`scoopAvail, job`taken
    modifies job.stream`nextIn, job.stream`out, job.stream`availOut, job.writeBuf
    ensures if result in {Done, Blocked} then Inv(job, job.statefn) else Post(job, result)
    ensures job.Onward() && (result == Done <==> job.Idle()) && result != Running
    ensures result == Blocked ==> job.stream.availOut == 0 || (|job.stream.nextIn| == 0 && !job.stream.eofIn)
    ensures result == Blocked ==> job.statefn != PatchRun && (job.kind == DeltaJob ==> job.stream.availOut == 0)
    ensures old(job.scoopAvail) == 0 ==> job.scoopAvail == 0
    ensures old(Lively(job)) ==> job.Progressed() || (Lively(job) && job.statefn != Null && result == Done)
    ensures old(job.Stalled()) ==> result == Done && job.statefn != Null && job.Stalled() && !job.Progressed()
    ensures old(job.Idle()) ==> result == Done
    ensures if old(job.Idle()) then job.Still() else result == Done ==> |job.sent| > |old(job.sent)|
  {
    hide Inv, Post, Lively, Job.Stalled;
    InvFlows(job, job.statefn);
    job.Bounds();
    result := Send(job);
    CatchupTells(job, result);
  }

  /** The signature that a job is to fill in. */
  ghost function OwnSig(job: Job): set<object> {
    if job.kind in {SigJob, LoadsigJob} && job.signature != null then {job.signature} else {}
  }

  /** The promise of a state function, spelt out. */
  twostate lemma StepTells(job: Job, new result: Result)
    requires job.Stepped(result)
    requires old(job.Idle())
    ensures job.Onward() && (result == Running ==> job.Shrinks())
    ensures result == Blocked ==> (job.stream.availOut == 0 || !job.stream.eofIn) && job.statefn !in {PatchRun, Null}
    ensures old(Lively(job)) && result in {Running, Done, Blocked}
            ==> job.Progressed() || (result == Running && Lively(job)) || (result == Done && Pending(job))
  {
  }

  /** The call through the state function pointer. */
  method Step(job: Job) returns (result: Result)
    requires Inv(job, job.statefn) && job.Idle() && job.statefn != Null
    modifies job, job.stream`nextIn, job.stream`out, job.stream`availOut
    modifies job.writeBuf, job.scoopBuf, job.weakSum.rs, job.weakSum.rk, OwnSig(job)
    ensures Post(job, result) && job.Onward() && job.drained == old(job.drained)
    ensures result == Running ==> job.Shrinks()
    ensures result == Blocked ==> (job.stream.availOut == 0 || !job.stream.eofIn) && job.statefn !in {PatchRun, Null}
    ensures old(Lively(job)) && result in {Running, Done, Blocked}
            ==> job.Progressed() || (result == Running && Lively(job)) || (result == Done && Pending(job))
    ensures old(job.Stalled()) ==> result == Blocked && !job.Progressed()
    ensures job.kind == DeltaJob ==> Delta.Paces(job, result)
    ensures job.kind == SigJob ==> Mksum.Wanted(job) == old(Mksum.Wanted(job))
    ensures job.scoopBuf == old(job.scoopBuf) || fresh(job.scoopBuf)
  {
    hide Delta.DeltaInv, Patch.PatchInv, Mksum.SigInv, Readsums.LoadInv, Patch.PatchEnds, Job.Stepped, Job.Moves;
    hide Job.Shrinks;
    hide Mksum.Wanted, Lively, Pending, Job.Flows;
    Belongs(job, job.statefn);
    match job.statefn {
      case DeltaHeader => result := Delta.RunHeader(job);
      case DeltaScan => result := Delta.RunScan(job);
      case DeltaFlush => result := Delta.RunFlush(job);
      case DeltaSlack => result := Delta.RunSlack(job);
      case DeltaEnd => result := Delta.RunEnd(job);
      case PatchHeader => result := Patch.RunHeader(job);
      case PatchCmdbyte => result := Patch.RunCmdbyte(job);
      case PatchParams => result := Patch.RunParams(job);
      case PatchRun => result := Patch.RunRun(job);
      case PatchLiteral => result := Patch.RunLiteral(job);
      case PatchCopy => result := Patch.RunCopy(job);
      case PatchCopying => result := Patch.RunCopying(job);
      case SigHeader => result := Mksum.RunHeader(job);
      case SigGenerate => result := Mksum.RunGenerate(job);
      case LoadMagic => result := Readsums.RunMagic(job);
      case LoadBlocklen => result := Readsums.RunBlocklen(job);
      case LoadStronglen => result := Readsums.RunStronglen(job);
      case LoadWeak => result := Readsums.RunWeak(job);
      case LoadStrong => result := Readsums.RunStrong(job);
    }
    StepTells(job, result);
  }

  /** Each state belongs to one kind of job. */
  lemma Belongs(job: Job, fn: StateFn)
    requires Inv(job, fn) && fn != Null
    ensures match fn
            case DeltaHeader | DeltaScan | DeltaFlush | DeltaSlack | DeltaEnd => job.kind == DeltaJob
            case PatchHeader | PatchCmdbyte | PatchParams | PatchRun | PatchLiteral | PatchCopy | PatchCopying =>
              job.kind == PatchJob
            case SigHeader | SigGenerate => job.kind == SigJob && job.signature != null
            case _ => job.kind == LoadsigJob && job.signature != null
  {
    hide Job.Flows, Delta.Scanning, Delta.Beginning, Delta.Slack, Delta.Ended, Delta.Emitted, Delta.Finished;
    hide Patch.AtCommand;
    hide Patch.AtExec, Patch.Leads;
  }

  /** Record how the job ended. */
  method Complete(job: Job, result: Result)
    requires result !in {Running, Blocked} && Post(job, result) && (result == Done ==> job.Idle())
    modifies job`finalResult
    ensures Post(job, result) && job.finalResult == result
  {
    hide Delta.DeltaInv, Patch.PatchInv, Mksum.SigInv, Readsums.LoadInv, Patch.PatchEnds;
    ghost var sums := job.SigObjects();
    job.finalResult := result;
    assert job.SigObjects() == sums;
  }

  /** Clear the state function of a job that is done. There may still be something in the tube. */
  method Clear(job: Job)
    requires Post(job, Done)
    modifies job`statefn
    ensures Inv(job, Null) && job.statefn == Null && (old(Pending(job)) ==> Lively(job))
  {
    hide Delta.DeltaInv, Patch.PatchInv, Mksum.SigInv, Readsums.LoadInv, Patch.PatchEnds;
    ghost var sums := job.SigObjects();
    job.statefn := Null;
    assert job.SigObjects() == sums;
  }

  lemma PostIsInv(job: Job, result: Result)
    requires result in {Running, Blocked} && Post(job, result)
    ensures Inv(job, job.statefn)
  {
    hide Delta.DeltaInv, Patch.PatchInv, Mksum.SigInv, Readsums.LoadInv;
  }

  lemma InvIsPost(job: Job, result: Result)
    requires Inv(job, job.statefn) && (result == Blocked || (result == Done && job.statefn == Null))
    ensures Post(job, result)
  {
    hide Delta.DeltaInv, Patch.PatchInv, Mksum.SigInv, Readsums.LoadInv;
  }

  /** One turn of the driver loop, which goes on while the result is Running. */
  method Turn(job: Job) returns (result: Result)
    requires Inv(job, job.statefn)
    modifies job, job.stream`nextIn, job.stream`out, job.stream`availOut
    modifies job.writeBuf, job.scoopBuf, job.weakSum.rs, job.weakSum.rk, OwnSig(job)
    ensures if result == Running then Inv(job, job.statefn) && Down(job) else Post(job, result)
    ensures job.Onward() && job.drained == old(job.drained)
    ensures result == Blocked ==> job.stream.availOut == 0 || !job.stream.eofIn
    ensures result == Blocked ==> job.statefn != PatchRun && !Finished(job)
    ensures result == Done ==> Finished(job)
    ensures old(Lively(job)) && result in {Running, Blocked, Done}
            ==> job.Progressed() || (result == Running && Lively(job))
    ensures old(job.Stalled()) ==> result == Blocked && !job.Progressed()
    ensures job.kind == DeltaJob ==> Delta.Paces(job, result)
    ensures job.kind == SigJob ==> Mksum.Wanted(job) == old(Mksum.Wanted(job))
    ensures job.scoopBuf == old(job.scoopBuf) || fresh(job.scoopBuf)
  {
    hide Inv, Post, Lively, Pending, Job.Stalled, Mksum.Wanted;
    result := Catchup(job);
    if result == Done && job.statefn != Null {
      result := Step(job);
      if result == Done {
        Clear(job);
        return Running;
      } else if result == Running {
        PostIsInv(job, result);
      }
    } else if result in {Done, Blocked} {
      InvIsPost(job, result);
    }
  }

  /** The measure of the loop is less than it was. */
  twostate predicate Down(job: Job)
    reads job, job.stream
  {
    (old(job.Avail() + job.stream.availOut), old(Rank(job.statefn)), old(job.Idle())
     decreases to job.Avail() + job.stream.availOut, Rank(job.statefn), job.Idle())
  }

  /** Run the job as far as it goes. */
  method Work(job: Job) returns (result: Result)
    requires Inv(job, job.statefn)
    modifies job, job.stream`nextIn, job.stream`out, job.stream`availOut
    modifies job.writeBuf, job.scoopBuf, job.weakSum.rs, job.weakSum.rk, OwnSig(job)
    ensures Post(job, result) && result != Running && job.Onward() && job.drained == old(job.drained)
    ensures result == Blocked ==> job.stream.availOut == 0 || !job.stream.eofIn
    ensures result == Blocked ==> job.statefn != PatchRun && !Finished(job)
    ensures result == Done ==> Finished(job)
    ensures old(Lively(job)) && result in {Blocked, Done} ==> job.Progressed()
    ensures old(job.Stalled()) ==> result == Blocked && !job.Progressed()
    ensures job.kind == DeltaJob ==> Delta.Paces(job, result)
    ensures job.kind == SigJob ==> Mksum.Wanted(job) == old(Mksum.Wanted(job))
    ensures job.scoopBuf == old(job.scoopBuf) || fresh(job.scoopBuf)
  {
    hide Inv, Post, Lively, Job.Stalled, Mksum.Wanted;
    while true
      invariant Inv(job, job.statefn) && job.Onward() && job.drained == old(job.drained)
      invariant job.scoopBuf == old(job.scoopBuf) || fresh(job.scoopBuf)
      invariant old(Lively(job)) ==> job.Progressed() || Lively(job)
      invariant old(job.Stalled()) ==> job.Stalled() && !job.Progressed()
      invariant job.kind == DeltaJob ==> Delta.Paces(job, Running)
      invariant job.kind == SigJob ==> Mksum.Wanted(job) == old(Mksum.Wanted(job))
      decreases job.Avail() + job.stream.availOut, Rank(job.statefn), job.Idle()
    {
      result := Turn(job);
      if result == Blocked {
        return;
      }
      if result != Running {
        Complete(job, result);
        return;
      }
    }
  }

  /** More output than this the job will not send. */
  ghost function Limit(job: Job): nat
    reads job.signature
  {
    match job.kind
    case DeltaJob => Delta.Limit(job)
    case PatchJob => |PatchSpec.Interpret(job.whole, job.basis).out|
    case SigJob => 12 + 36 * |job.whole|
    case LoadsigJob => 0
  }

  lemma SentBound(job: Job, fn: StateFn)
    requires Inv(job, fn)
    ensures |job.sent| <= Limit(job)
  {
    hide Delta.DeltaInv, Patch.PatchInv, Mksum.SigInv, PatchSpec.Interpret;
    match job.kind
    case DeltaJob => Delta.SentBound(job, fn);
    case PatchJob => Patch.SentBound(job, fn);
    case SigJob => Mksum.SentBound(job, fn);
    case LoadsigJob =>
  }

  // ---- One call ----

  /** At the start of a call. */
  ghost predicate Ready(job: Job)
    reads job, job.stream, job.scoopBuf, job.writeBuf
    reads job.signature, job.SigObjects(), job.weakSum, job.weakSum.rs, job.weakSum.rk
  {
    Inv(job, job.statefn) && job.statefn != PatchRun
  }

  /**
   Run the job, and complain if there were input and room, and nothing came of it. For an
   unfinished job this happens if and only if it is stalled.
   */
  method Iter(job: Job) returns (result: Result)
    requires Ready(job) && !Finished(job)
    modifies job, job.stream`nextIn, job.stream`out, job.stream`availOut
    modifies job.writeBuf, job.scoopBuf, job.weakSum.rs, job.weakSum.rk, OwnSig(job)
    ensures old(job.Stalled() && job.stream.availOut > 0) ==> result == InternalError && !job.Progressed()
    ensures !old(job.Stalled() && job.stream.availOut > 0) ==> Post(job, result)
    ensures result == Blocked ==> Ready(job) && !Finished(job) && (job.stream.availOut == 0 || !job.stream.eofIn)
    ensures result == Done ==> Finished(job)
    ensures old(|job.stream.nextIn| > 0 && job.stream.availOut > 0) && result in {Blocked, Done} ==> job.Progressed()
    ensures result != Running && job.Onward() && job.drained == old(job.drained)
    ensures job.sent == job.drained + job.stream.out
    ensures Limit(job) == old(Limit(job)) && MayStall(job) == old(MayStall(job))
    ensures job.kind == DeltaJob && result == Blocked ==> Delta.Paces(job, result)
    ensures job.kind == SigJob ==> Mksum.Wanted(job) == old(Mksum.Wanted(job))
    ensures job.scoopBuf == old(job.scoopBuf) || fresh(job.scoopBuf)
  {
    hide Inv, Post, Delta.Limit, PatchSpec.Interpret, Mksum.Wanted;
    IsLively(job);
    var origIn, origOut := |job.stream.nextIn|, job.stream.availOut;
    result := Work(job);
    PostSent(job, result);
    if result == Blocked {
      PostIsInv(job, result);
    }
    if result == Blocked || result == Done {
      if origIn == |job.stream.nextIn| && origOut == job.stream.availOut && origIn > 0 && origOut > 0 {
        return InternalError;
      }
    }
  }

  /** All output is in the caller's hands, or on its way there. */
  lemma PostSent(job: Job, result: Result)
    requires Post(job, result)
    ensures job.sent == job.drained + job.stream.out
    ensures result in {Running, Blocked, Done} ==> |job.sent| <= Limit(job)
  {
    hide Delta.DeltaInv, Patch.PatchInv, Mksum.SigInv, Readsums.LoadInv, Patch.PatchEnds, Limit;
    if result in {Running, Blocked} {
      PostIsInv(job, result);
      InvFlows(job, job.statefn);
      SentBound(job, job.statefn);
    } else if result == Done {
      assert Inv(job, Null);
      InvFlows(job, Null);
      SentBound(job, Null);
    }
  }

  lemma IsLively(job: Job)
    requires Ready(job) && !Finished(job)
    ensures |job.stream.nextIn| > 0 && job.stream.availOut > 0 ==> Lively(job) || job.Stalled()
    ensures job.Stalled() ==> |job.stream.nextIn| > 0
  {
    hide Delta.Standing, Delta.WeakAt, Job.Flows;
    InvFlows(job, job.statefn);
    job.Bounds();
    if job.Stalled() {
      Belongs(job, job.statefn);
      Delta.Here(job);
    }
  }

  /** With blocks shorter than 64K, no job ever stalls. */
  lemma NeverStalls(job: Job)
    requires Inv(job, job.statefn)
    requires job.signature != null && job.kind == DeltaJob ==> job.signature.blockLen < MAX_DELTA_CMD
    ensures !job.Stalled()
  {
    hide Delta.Standing, Delta.WeakAt;
    if job.Stalled() {
      Belongs(job, job.statefn);
      Delta.Here(job);
    }
  }

  // ---- A whole run ----

  method Feed(job: Job, data: seq<byte>, eof: bool, room: nat)
    requires Ready(job) && job.Supply() + |data| <= |job.whole|
    requires data == job.whole[job.Supply()..job.Supply() + |data|] && (job.stream.eofIn ==> eof)
    requires eof ==> job.Supply() + |data| == |job.whole|
    modifies job`drained, job.stream`nextIn, job.stream`eofIn, job.stream`out, job.stream`availOut
    ensures Ready(job) && job.Supply() == old(job.Supply()) + |data|
    ensures job.stream.nextIn == old(job.stream.nextIn) + data && job.drained == job.sent && job.stream.out == []
    ensures job.stream.eofIn == eof && job.stream.availOut == room
  {
    hide Delta.DeltaInv, Patch.PatchInv, Mksum.SigInv, Readsums.LoadInv;
    match job.kind {
      case DeltaJob => Delta.Feed(job, data, eof, room);
      case PatchJob => Patch.Feed(job, data, eof, room);
      case SigJob => Mksum.Feed(job, data, eof, room);
      case LoadsigJob => Readsums.Feed(job, data, eof, room);
    }
  }

  /** Only a delta of blocks of 64K or more can stall. */
  ghost predicate MayStall(job: Job)
    reads job.signature
  {
    job.kind == DeltaJob && job.signature != null && job.signature.blockLen >= MAX_DELTA_CMD
  }

  /** What is left to do: room to make, input to supply and to take, output to send. */
  ghost function ToDo(job: Job, space: nat, limit: nat): int
    reads job`taken, job`sent, job`stream, job.stream`nextIn, job.stream`eofIn
  {
    (if space == 0 then 1 else 0) + (if job.stream.eofIn then 0 else 1)
    + (|job.whole| - job.Supply()) + (|job.whole| - job.taken) + (limit - |job.sent|)
  }

  /** One round of a run: feed the job, and run it. Something is done in every round. */
  method Round(job: Job, data: seq<byte>, eof: bool, space: nat, ghost limit: nat) returns (result: Result)
    requires Ready(job) && !Finished(job) && job.Supply() + |data| <= |job.whole| && limit == Limit(job)
    requires data == job.whole[job.Supply()..job.Supply() + |data|] && (job.stream.eofIn ==> eof)
    requires eof ==> job.Supply() + |data| == |job.whole|
    requires data != [] || eof || job.stream.nextIn != []
    modifies job, job.stream`nextIn, job.stream`eofIn, job.stream`out, job.stream`availOut
    modifies job.writeBuf, job.scoopBuf, job.weakSum.rs, job.weakSum.rk, OwnSig(job)
    ensures job.stream == old(job.stream) && job.Supply() == old(job.Supply()) + |data|
    ensures result == Blocked ==> Ready(job) && !Finished(job) && ToDo(job, 1, limit) < old(ToDo(job, space, limit))
    ensures result != Blocked ==> Post(job, result) || (result == InternalError && old(MayStall(job)))
    ensures result != Running && job.sent == old(job.sent) + job.stream.out && (result == Done ==> Finished(job))
    ensures Limit(job) == old(Limit(job)) && MayStall(job) == old(MayStall(job))
    ensures job.kind == SigJob ==> Mksum.Wanted(job) == old(Mksum.Wanted(job))
    ensures job.scoopBuf == old(job.scoopBuf) || fresh(job.scoopBuf)
  {
    hide Inv, Post, Ready, Limit, Job.Flows, Job.Stalled, Mksum.Wanted;
    Feed(job, data, eof, space);
    if !MayStall(job) {
      CannotStall(job);
    }
    result := Iter(job);
    if result == Blocked {
      Supplied(job);
    }
  }

  /**
   Run a job to its end, over input that comes in pieces of any sizes and output that leaves in
   pieces of any sizes: the callbacks add at least a byte to an empty input buffer, until the input
   has ended, and make room for at least a byte of output.
   */
  method Drive(job: Job, input: seq<byte>, chunk: nat -> nat, room: nat -> nat, eager: bool)
    returns (result: Result, output: seq<byte>)
    requires Ready(job) && job.statefn != Null && input == job.whole
    requires job.stream.nextIn == [] && !job.stream.eofIn && job.taken == 0 && job.sent == []
    modifies job, job.stream, job.writeBuf, job.scoopBuf, job.weakSum.rs, job.weakSum.rk, OwnSig(job)
    ensures Post(job, result) || (result == InternalError && old(MayStall(job)))
    ensures result !in {Running, Blocked} && output == job.sent && (result == Done ==> Finished(job))
    ensures job.kind == SigJob ==> Mksum.Wanted(job) == old(Mksum.Wanted(job))
  {
    hide Inv, Post, Ready, Limit, Job.Flows, Job.Stalled, Mksum.Wanted;
    ghost var limit := Limit(job);
    var k: nat, pos: nat, space: nat := 0, 0, 0;
    output := [];
    result := Blocked;
    Supplied(job);
    while result == Blocked
      invariant job.stream == old(job.stream)
      invariant job.scoopBuf == old(job.scoopBuf) || fresh(job.scoopBuf)
      invariant result == Blocked ==> Ready(job) && !Finished(job) && pos == job.Supply() <= |input|
      invariant result != Blocked ==> Post(job, result) || (result == InternalError && old(MayStall(job)))
      invariant result != Running && output == job.sent && (result == Done ==> Finished(job))
      invariant MayStall(job) == old(MayStall(job)) && limit == Limit(job)
      invariant job.kind == SigJob ==> Mksum.Wanted(job) == old(Mksum.Wanted(job))
      decreases if result == Blocked then 1 + ToDo(job, space, limit) else 0
    {
      Supplied(job);
      var n: nat, eof := 0, job.stream.eofIn;
      if !eof {
        n := chunk(k);
        if n == 0 && job.stream.nextIn == [] {
          n := 1;
        }
        n := Min(n, |input| - pos);
        eof := pos + n == |input| && (n == 0 || eager);
      }
      result := Round(job, input[pos..pos + n], eof, space, limit);
      pos := pos + n;
      output := output + job.stream.out;
      space := 1 + room(k);
      k := k + 1;
    }
  }

  /** The bounds within which a run moves. */
  lemma Supplied(job: Job)
    requires Ready(job)
    ensures 0 <= job.taken <= job.Supply() <= |job.whole| && |job.sent| <= Limit(job)
    ensures job.stream.eofIn ==> job.Supply() == |job.whole|
  {
    hide Inv, Limit;
    InvFlows(job, job.statefn);
    job.Bounds();
    SentBound(job, job.statefn);
  }

  lemma CannotStall(job: Job)
    requires Ready(job) && !MayStall(job)
    ensures !job.Stalled()
  {
    hide Inv;
    NeverStalls(job);
  }
}
