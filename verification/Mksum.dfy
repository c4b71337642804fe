/** The states of a job that generates a signature file. */
module Mksum {
  import opened Blocks
  import opened Bytes
  import opened Checksum
  import opened Job
  import opened NetInt
  import opened Protocol
  import opened SigSpec
  import opened Sumset

  /** The parameters that the job's arguments stand for, or the error they give. */
  ghost function Wanted(job: Job): (Result, Option<Params>)
    reads job`sigMagic, job`sigBlockLen, job`sigStrongLen
  {
    InitResult(job.sigMagic, job.sigBlockLen, job.sigStrongLen)
  }

  /** What is promised so far, and the sums of the input that is left, make the signature file. */
  ghost predicate Generating(job: Job)
    reads job`promised, job`taken, job`scoopAvail, job`copyLen, job.signature
    reads job`sigMagic, job`sigBlockLen, job`sigStrongLen
  {
    && job.signature != null && job.signature.Valid() && job.copyLen == 0 && 0 <= job.Pos() <= |job.whole|
    && var p := job.signature.View().params;
       && Wanted(job) == (Done, Some(p)) && job.scoopAvail < p.blockLen
       && SigBytes(p, job.signature.strong, job.whole)
          == job.promised + AllSumBytes(p, job.signature.strong, Cut(job.whole[job.Pos()..], p.blockLen))
  }

  ghost predicate SigInv(job: Job, fn: StateFn)
    reads job`stream, job`scoopBuf, job`scoopNext, job`scoopAvail, job`taken, job`writeLen, job`copyLen
    reads job`sent, job`promised, job`drained, job`sigMagic, job`sigBlockLen, job`sigStrongLen
    reads job.stream, job.scoopBuf, job.writeBuf, job.signature
  {
    && job.Flows() && job.copyLen == 0
    && match fn
       case SigHeader =>
         && job.signature != null && StrongSumOk(job.signature.strong)
         && 0 <= job.sigBlockLen < INT_LIMIT && job.sigStrongLen >= -1
         && job.promised == [] && job.Pos() == 0 && job.Idle() && job.scoopAvail == 0
       case SigGenerate => Generating(job)
       case Null =>
         && job.signature != null && job.signature.Valid() && Wanted(job) == (Done, Some(job.signature.View().params))
         && job.promised == SigBytes(job.signature.View().params, job.signature.strong, job.whole)
       case _ => false
  }

  /** What a state function leaves behind. The only failure is that of bad arguments, before any output. */
  ghost predicate SigPost(job: Job, result: Result)
    reads job, job.stream, job.scoopBuf, job.writeBuf, job.signature
  {
    match result
    case Running | Blocked => SigInv(job, job.statefn)
    case Done => SigInv(job, Null)
    case _ => job.Flows() && Wanted(job) == (result, None) && job.sent == []
  }

  lemma InitErrors(magic: int, blockLen: int, strongLen: int)
    ensures InitResult(magic, blockLen, strongLen).0 in {Done, BadMagic, ParamError}
  {
  }

  /** The header leads on to the sums of all the input. */
  lemma HeaderLeads(job: Job)
    requires job.Flows() && job.copyLen == 0 && job.Pos() == job.scoopAvail == 0
    requires job.signature != null && job.signature.Valid() && Wanted(job) == (Done, Some(job.signature.View().params))
    requires job.promised == Header(job.signature.View().params)
    ensures SigInv(job, SigGenerate)
  {
    hide Job.InOk, Job.OutOk, AllSumBytes, Cut, InitResult, Header;
    job.Bounds();
    assert job.whole[0..] == job.whole;
  }

  method SquirtHeader(job: Job)
    requires job.Flows() && job.Idle() && job.promised == [] && job.signature != null
    modifies job`writeLen, job`promised, job.writeBuf
    ensures job.Flows() && job.writeLen == 12 && job.promised == Header(job.signature.View().params)
  {
    hide Job.Flows, BigEndian;
    job.SquirtNetint(job.signature.magic, 4);
    job.SquirtNetint(job.signature.blockLen, 4);
    job.SquirtNetint(job.signature.strongSumLen, 4);
    assert [] + BigEndian(job.signature.magic, 4) == BigEndian(job.signature.magic, 4);
  }

  method RunHeader(job: Job) returns (result: Result)
    requires job.statefn == SigHeader && SigInv(job, SigHeader)
    modifies job`statefn, job`writeLen, job`promised, job.writeBuf, job.signature
    ensures SigPost(job, result) && job.Stepped(result)
  {
    hide AllSumBytes, Cut, InitResult, Job.Stepped, SigView.Ok, BigEndian, Generating, Signature.Valid;
    job.Bounds();
    job.PromisedWithoutCopy(0, 0);
    hide Job.Flows, Job.OutOk, Job.InOk;
    InitErrors(job.sigMagic, job.sigBlockLen, job.sigStrongLen);
    var sig := job.signature;
    result := sig.Init(job.sigMagic, job.sigBlockLen, job.sigStrongLen);
    if result != Done {
      job.Finishes(result);
      return;
    }
    SquirtHeader(job);
    HeaderLeads(job);
    hide SigInv;
    job.statefn := SigGenerate;
    job.GoesOn();
    return Running;
  }

  /** Write the sums of one block. */
  method DoBlock(job: Job, block: seq<byte>) returns (result: Result)
    requires job.Flows() && job.Idle() && Summing(job, block)
    modifies job`writeLen, job`promised, job.writeBuf
    ensures job.Flows() && job.writeLen > 0 && Generating(job) && result == Running
  {
    hide Job.InOk, Job.OutOk, BigEndian, RawWeak, Job.Flows, AllSumBytes, SigBytes, Cut, InitResult;
    var sig := job.signature;
    var p := Params(sig.magic, sig.blockLen, sig.strongSumLen);
    StrongLength(p, sig.strong, block);
    ghost var before := job.promised;
    var weakSum := CalcWeakSum(p.WeakKind(), block);
    var strongSum := p.Strong(sig.strong, block);
    job.SquirtNetint(weakSum, 4);
    job.TubeWrite(strongSum);
    assert before + BigEndian(weakSum, 4) + strongSum == before + (BigEndian(weakSum, 4) + strongSum);
    return Running;
  }

  /** With the next block read, its sums are still to be written. */
  ghost predicate Summing(job: Job, block: seq<byte>)
    reads job`promised, job`taken, job`scoopAvail, job`copyLen, job.signature
    reads job`sigMagic, job`sigBlockLen, job`sigStrongLen
  {
    && job.signature != null && job.signature.Valid() && job.copyLen == 0 && 0 <= job.Pos() <= |job.whole|
    && var p := job.signature.View().params;
       && Wanted(job) == (Done, Some(p)) && job.scoopAvail == 0
       && SigBytes(p, job.signature.strong, job.whole)
          == job.promised + SumBytes(p, job.signature.strong, block)
             + AllSumBytes(p, job.signature.strong, Cut(job.whole[job.Pos()..], p.blockLen))
  }

  /** Taking the next block off the input that is left. */
  lemma TakesBlock(p: Params, strong: StrongSum, whole: seq<byte>, before: seq<byte>, i: nat, j: nat)
    requires p.blockLen > 0 && i < |whole| && j == Min(i + p.blockLen, |whole|)
    ensures before + AllSumBytes(p, strong, Cut(whole[i..], p.blockLen))
            == before + SumBytes(p, strong, whole[i..j]) + AllSumBytes(p, strong, Cut(whole[j..], p.blockLen))
  {
    hide SumBytes, AllSumBytes, Cut;
    NextBlock(p, strong, whole[i..]);
    assert whole[i..][..j - i] == whole[i..j] && whole[i..][j - i..] == whole[j..];
    assert before + (SumBytes(p, strong, whole[i..j]) + AllSumBytes(p, strong, Cut(whole[j..], p.blockLen)))
        == before + SumBytes(p, strong, whole[i..j]) + AllSumBytes(p, strong, Cut(whole[j..], p.blockLen));
  }

  /** Read the next block: a full one, or at the end of the input whatever is left. */
  method ReadBlock(job: Job) returns (result: Result, block: seq<byte>)
    requires job.Flows() && Generating(job)
    modifies job`scoopBuf, job`scoopNext, job`scoopAvail, job`taken, job.stream`nextIn, job.scoopBuf
    ensures job.Flows() && job.Onward() && result in {Done, Blocked, InputEnded}
    ensures job.scoopBuf == old(job.scoopBuf) || fresh(job.scoopBuf)
    ensures result == Blocked ==> !job.stream.eofIn && |job.stream.nextIn| == 0
    ensures result != Done ==> Generating(job)
    ensures result == InputEnded ==> job.Pos() == |job.whole| && |old(job.stream.nextIn)| == 0
    ensures result == Done ==> job.Pos() > old(job.Pos()) && Summing(job, block)
  {
    hide Job.InOk, Job.OutOk, AllSumBytes, SumBytes, SigBytes, Cut, InitResult;
    job.Bounds();
    ghost var i: nat := job.Pos();
    assert 0 < job.signature.blockLen;
    result, block := job.ScoopRead(job.signature.blockLen);
    job.Bounds();
    if result == InputEnded {
      result, block := job.ScoopReadRest();
      job.Bounds();
    }
    if result == Done {
      TakesBlock(job.signature.View().params, job.signature.strong, job.whole, job.promised, i, job.Pos());
    }
  }

  method RunGenerate(job: Job) returns (result: Result)
    requires job.statefn == SigGenerate && SigInv(job, SigGenerate) && job.Idle()
    modifies job`scoopBuf, job`scoopNext, job`scoopAvail, job`taken, job.stream`nextIn, job.scoopBuf
    modifies job`writeLen, job`promised, job.writeBuf
    ensures SigPost(job, result) && job.Stepped(result)
    ensures job.scoopBuf == old(job.scoopBuf) || fresh(job.scoopBuf)
  {
    hide Job.Flows, Generating, AllSumBytes, Cut, InitResult, Job.Stepped, SigView.Ok;
    var block;
    result, block := ReadBlock(job);
    if result == InputEnded {
      AllGenerated(job);
      job.Finishes(Done);
      return Done;
    } else if result != Done {
      job.Blocks();
      return;
    }
    result := DoBlock(job, block);
    job.GoesOn();
  }

  lemma AllGenerated(job: Job)
    requires job.Flows() && Generating(job) && job.Pos() == |job.whole|
    ensures SigInv(job, Null)
  {
    hide SigBytes, InitResult, SigView.Ok;
    assert job.whole[|job.whole|..] == [];
  }

  /** Catching up with the tube, between state functions. */
  method Catchup(job: Job) returns (result: Result)
    requires SigInv(job, job.statefn)
    modifies job`writeLen, job`copyLen, job`sent, job`scoopNext, job`scoopAvail, job`taken
    modifies job.stream`nextIn, job.stream`out, job.stream`availOut, job.writeBuf
    ensures SigInv(job, job.statefn) && job.Onward() && result in {Done, Blocked}
    ensures result == Done <==> job.Idle()
    ensures old(job.scoopAvail) == 0 ==> job.scoopAvail == 0
    ensures result == Blocked ==> job.stream.availOut == 0
    ensures old(job.Idle()) ==> result == Done
    ensures old(job.Due()) && old(job.stream.availOut) > 0 ==> job.Progressed()
    ensures if old(job.Idle()) then job.Still() else result == Done ==> |job.sent| > |old(job.sent)|
  {
    hide Job.InOk, Job.OutOk, AllSumBytes, SumBytes, SigBytes, Cut, InitResult, SigView.Ok;
    job.Bounds();
    result := job.Catchup();
    job.Bounds();
  }

  /** A new job that generates a signature. */
  method Begin(blockLen: nat, strongLen: int, magic: int, strong: StrongSum, ghost whole: seq<byte>) returns (job: Job)
    requires blockLen < INT_LIMIT && strongLen >= -1 && StrongSumOk(strong)
    ensures fresh(job) && fresh(job.stream) && fresh(job.scoopBuf) && fresh(job.writeBuf)
    ensures fresh(job.weakSum.rs) && fresh(job.weakSum.rk)
    ensures job.kind == SigJob && job.statefn == SigHeader && SigInv(job, SigHeader)
    ensures job.signature != null && fresh(job.signature) && job.signature.strong == strong && job.whole == whole
    ensures Wanted(job) == InitResult(magic, blockLen, strongLen)
    ensures job.stream.nextIn == [] && !job.stream.eofIn && job.taken == 0 && job.sent == []
  {
    hide Job.InOk, Job.OutOk, InitResult, StrongSumOk;
    var sig := new Signature(strong);
    job := new Job(SigJob, SigHeader, sig, RollsumKind, (pos, len, call) => Failed(InternalError), whole, []);
    job.sigMagic, job.sigBlockLen, job.sigStrongLen := magic, blockLen, strongLen;
  }

  /** The invariant does not mind what the caller does between two calls. */
  method Feed(job: Job, data: seq<byte>, eof: bool, room: nat)
    requires SigInv(job, job.statefn) && job.Supply() + |data| <= |job.whole|
    requires data == job.whole[job.Supply()..job.Supply() + |data|] && (job.stream.eofIn ==> eof)
    requires eof ==> job.Supply() + |data| == |job.whole|
    modifies job`drained, job.stream`nextIn, job.stream`eofIn, job.stream`out, job.stream`availOut
    ensures SigInv(job, job.statefn) && job.Supply() == old(job.Supply()) + |data|
    ensures job.stream.nextIn == old(job.stream.nextIn) + data && job.drained == job.sent && job.stream.out == []
    ensures job.stream.eofIn == eof && job.stream.availOut == room
  {
    hide Job.InOk, Job.OutOk, AllSumBytes, SumBytes, SigBytes, Cut, InitResult, SigView.Ok;
    job.Bounds();
    job.Feed(data, eof, room);
  }

  lemma SentBound(job: Job, fn: StateFn)
    requires SigInv(job, fn)
    ensures |job.sent| <= 12 + 36 * |job.whole|
  {
    hide Job.InOk, Job.OutOk, InitResult, Header, AllSumBytes;
    job.SentIsPromised();
    if fn != SigHeader {
      var p := job.signature.View().params;
      SumsAreShort(p, job.signature.strong, Cut(job.whole, p.blockLen));
      CutCount(job.whole, p.blockLen);
    }
  }

  lemma {:induction false} SumsAreShort(p: Params, strong: StrongSum, blocks: seq<seq<byte>>)
    requires p.Check() && StrongSumOk(strong)
    ensures |AllSumBytes(p, strong, blocks)| <= 36 * |blocks|
  {
    hide SumBytes;
    if blocks != [] {
      SumBytesLength(p, strong, blocks[0]);
      SumsAreShort(p, strong, blocks[1..]);
    }
  }
}
