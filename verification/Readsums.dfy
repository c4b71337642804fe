/** The states of a job that loads a signature file. */
module Readsums {
  import opened Bytes
  import opened Checksum
  import opened Hashtable
  import opened Job
  import opened NetInt
  import opened Protocol
  import opened SigSpec
  import opened Sumset

  ghost predicate LoadInv(job: Job, fn: StateFn)
    reads job`stream, job`scoopBuf, job`scoopNext, job`scoopAvail, job`taken, job`writeLen, job`copyLen
    reads job`sent, job`promised, job`drained, job`sigMagic, job`sigBlockLen, job`sigStrongLen, job`weakSig
    reads job.stream, job.scoopBuf, job.writeBuf, job.signature
  {
    && job.Flows() && job.Idle() && job.sent == [] && job.signature != null && 0 <= job.Pos() <= |job.whole|
    && match fn
       case LoadMagic => job.scoopAvail < 4 && job.Pos() == 0 && StrongSumOk(job.signature.strong)
       case LoadBlocklen =>
         && job.scoopAvail < 4 && job.Pos() == 4 && StrongSumOk(job.signature.strong)
         && job.sigMagic == IntAt(job.whole, 0)
       case LoadStronglen =>
         && job.scoopAvail < 4 && job.Pos() == 8 && StrongSumOk(job.signature.strong)
         && job.sigMagic == IntAt(job.whole, 0) && 1 <= job.sigBlockLen == IntAt(job.whole, 4) < INT_LIMIT
       case LoadWeak =>
         && job.scoopAvail < 4 && job.signature.Valid()
         && Load(job.whole)
            == LoadBlocks(job.whole, job.signature.View().params, job.signature.blockSigs, job.Pos())
       case LoadStrong =>
         && job.signature.Valid() && job.scoopAvail < job.signature.strongSumLen
         && Load(job.whole)
            == LoadSum(job.whole, job.signature.View().params, job.signature.blockSigs, job.weakSig, job.Pos())
       case Null => job.signature.Valid() && Load(job.whole) == LoadedNow(job, Done)
       case _ => false
  }

  /** The signature as it stands, and a result. */
  ghost function LoadedNow(job: Job, result: Result): Loaded
    requires job.signature != null
    reads job.signature
  {
    Loaded(result, Some(job.signature.View().params), job.signature.blockSigs)
  }

  /** What a state function leaves behind. */
  ghost predicate LoadPost(job: Job, result: Result)
    reads job, job.stream, job.scoopBuf, job.writeBuf, job.signature
  {
    match result
    case Running | Blocked => LoadInv(job, job.statefn)
    case Done => LoadInv(job, Null)
    case _ =>
      && job.Flows() && job.sent == [] && job.signature != null && Load(job.whole).result == result
      && (Load(job.whole).params.Some? ==> Load(job.whole) == LoadedNow(job, result))
  }

  /** Read one 4-byte field. */
  method SuckN4(job: Job) returns (result: Result, val: int, ghost word: u32)
    requires job.Flows() && job.copyLen == 0 && 0 <= job.Pos() <= |job.whole| && job.scoopAvail < 4
    modifies job`scoopBuf, job`scoopNext, job`scoopAvail, job`taken, job.stream`nextIn, job.scoopBuf
    ensures job.Flows() && job.Onward() && result in {Done, Blocked, InputEnded} && 0 <= job.Pos() <= |job.whole|
    ensures result == Done ==> job.Pos() == old(job.Pos()) + 4 && word == WordAt(job.whole, old(job.Pos()))
                               && val == word && AsInt(val) == IntAt(job.whole, old(job.Pos()))
                               && job.taken > old(job.taken) && job.scoopAvail == 0
    ensures result != Done ==> job.Pos() == old(job.Pos()) && job.scoopAvail < 4 && |job.stream.nextIn| == 0
    ensures result == Blocked ==> !job.stream.eofIn
    ensures result == InputEnded ==> |job.whole| < job.Pos() + 4
    ensures job.scoopBuf == old(job.scoopBuf) || fresh(job.scoopBuf)
  {
    hide Job.InOk, Job.OutOk, Unsigned, Capacity;
    job.Bounds();
    word := 0;
    result, val := job.SuckNetint(4);
    job.Bounds();
    if result == Done {
      word := WordAt(job.whole, old(job.Pos()));
    }
  }

  /** The specification, field by field. */
  lemma LoadOpens(d: seq<byte>)
    ensures |d| < 8 ==> Load(d) == Loaded(InputEnded, None, [])
    ensures |d| >= 8 && IntAt(d, 4) < 1 ==> Load(d) == Loaded(Corrupt, None, [])
    ensures 8 <= |d| < 12 && IntAt(d, 4) >= 1 ==> Load(d) == Loaded(InputEnded, None, [])
    ensures |d| >= 12 && IntAt(d, 4) >= 1 && !(0 <= IntAt(d, 8) <= MAX_STRONG_SUM_LENGTH)
            ==> Load(d) == Loaded(Corrupt, None, [])
  {
    hide IntAt;
  }

  lemma LoadStarts(d: seq<byte>)
    requires |d| >= 12 && IntAt(d, 4) >= 1 && 0 <= IntAt(d, 8) <= MAX_STRONG_SUM_LENGTH
    ensures var init := InitResult(IntAt(d, 0), IntAt(d, 4), IntAt(d, 8));
            && init.0 in {Done, BadMagic, ParamError} && (init.0 == Done <==> init.1.Some?)
            && (match init.1
                case Some(p) => p.strongSumLen > 0 && Load(d) == LoadBlocks(d, p, [], 12)
                case None => Load(d) == Loaded(init.0, None, []))
  {
    hide IntAt;
  }

  method RunMagic(job: Job) returns (result: Result)
    requires job.statefn == LoadMagic && LoadInv(job, LoadMagic)
    modifies job`statefn, job`sigMagic
    modifies job`scoopBuf, job`scoopNext, job`scoopAvail, job`taken, job.stream`nextIn, job.scoopBuf
    ensures LoadPost(job, result) && job.Stepped(result)
    ensures job.scoopBuf == old(job.scoopBuf) || fresh(job.scoopBuf)
  {
    hide Job.Stepped, Job.Flows, Load, IntAt, WordAt, LoadSum, LoadBlocks, SigView.Ok, StrongSumOk;
    LoadOpens(job.whole);
    var l;
    ghost var word;
    result, l, word := SuckN4(job);
    if result != Done {
      if result == Blocked {
        job.Blocks();
      } else {
        job.Finishes(result);
      }
      return;
    }
    job.sigMagic := AsInt(l);
    job.statefn := LoadBlocklen;
    job.GoesOn();
    return Running;
  }

  method RunBlocklen(job: Job) returns (result: Result)
    requires job.statefn == LoadBlocklen && LoadInv(job, LoadBlocklen)
    modifies job`statefn, job`sigBlockLen
    modifies job`scoopBuf, job`scoopNext, job`scoopAvail, job`taken, job.stream`nextIn, job.scoopBuf
    ensures LoadPost(job, result) && job.Stepped(result)
    ensures job.scoopBuf == old(job.scoopBuf) || fresh(job.scoopBuf)
  {
    hide Job.Stepped, Job.Flows, Load, IntAt, WordAt, LoadSum, LoadBlocks, SigView.Ok, StrongSumOk;
    LoadOpens(job.whole);
    var l;
    ghost var word;
    result, l, word := SuckN4(job);
    if result != Done {
      if result == Blocked {
        job.Blocks();
      } else {
        job.Finishes(result);
      }
      return;
    }
    l := AsInt(l);
    if l < 1 {
      job.Finishes(Corrupt);
      return Corrupt;
    }
    job.sigBlockLen := l;
    job.statefn := LoadStronglen;
    job.GoesOn();
    return Running;
  }

  /** Set the signature up, from fields that are all plausible. */
  method InitSig(job: Job) returns (result: Result)
    requires job.Flows() && job.Idle() && job.sent == [] && job.signature != null && StrongSumOk(job.signature.strong)
    requires |job.whole| >= 12 && job.Pos() == 12 && job.scoopAvail == 0
    requires job.sigMagic == IntAt(job.whole, 0) && 1 <= job.sigBlockLen == IntAt(job.whole, 4) < INT_LIMIT
    requires 0 <= job.sigStrongLen == IntAt(job.whole, 8) <= MAX_STRONG_SUM_LENGTH
    modifies job.signature
    ensures result in {Done, BadMagic, ParamError}
    ensures if result == Done then LoadInv(job, LoadWeak)
            else Load(job.whole) == Loaded(result, None, [])
  {
    hide Job.Flows, Load, IntAt, LoadBlocks, SigView.Ok, InitResult;
    LoadStarts(job.whole);
    result := job.signature.Init(job.sigMagic, job.sigBlockLen, job.sigStrongLen);
  }

  method RunStronglen(job: Job) returns (result: Result)
    requires job.statefn == LoadStronglen && LoadInv(job, LoadStronglen)
    modifies job`statefn, job`sigStrongLen, job.signature
    modifies job`scoopBuf, job`scoopNext, job`scoopAvail, job`taken, job.stream`nextIn, job.scoopBuf
    ensures LoadPost(job, result) && job.Stepped(result)
    ensures job.scoopBuf == old(job.scoopBuf) || fresh(job.scoopBuf)
  {
    hide Job.Stepped, Job.Flows, Load, IntAt, WordAt, LoadSum, LoadBlocks, SigView.Ok, InitResult, StrongSumOk;
    LoadOpens(job.whole);
    var l;
    ghost var word;
    result, l, word := SuckN4(job);
    if result != Done {
      if result == Blocked {
        job.Blocks();
      } else {
        job.Finishes(result);
      }
      return;
    }
    l := AsInt(l);
    if l < 0 || l > MAX_STRONG_SUM_LENGTH {
      job.Finishes(Corrupt);
      return Corrupt;
    }
    job.sigStrongLen := l;
    result := InitSig(job);
    hide LoadInv;
    if result != Done {
      job.Finishes(result);
      return;
    }
    job.statefn := LoadWeak;
    job.GoesOn();
    return Running;
  }

  lemma LoadsWeak(d: seq<byte>, p: Params, blocks: seq<BlockSig>, i: nat)
    requires i <= |d| && p.strongSumLen > 0
    ensures LoadBlocks(d, p, blocks, i)
            == if |d| < i + 4 then Loaded(Done, Some(p), blocks) else LoadSum(d, p, blocks, WordAt(d, i), i + 4)
  {
    hide LoadSum, WordAt;
  }

  lemma LoadsStrong(d: seq<byte>, p: Params, blocks: seq<BlockSig>, weak: u32, i: nat)
    requires i <= |d| && p.strongSumLen > 0
    ensures var j := i + p.strongSumLen;
            LoadSum(d, p, blocks, weak, i)
            == if |d| < j then Loaded(InputEnded, Some(p), blocks)
               else LoadBlocks(d, p, blocks + [BlockSig(Mixed(p.WeakKind(), weak), d[i..j])], j)
  {
    hide LoadBlocks, Mixed;
  }

  /** What the next field decides, if it is there. */
  lemma AtWeak(job: Job)
    requires LoadInv(job, LoadWeak)
    ensures 0 < job.signature.strongSumLen
    ensures Load(job.whole)
            == if |job.whole| < job.Pos() + 4 then LoadedNow(job, Done)
               else LoadSum(job.whole, job.signature.View().params, job.signature.blockSigs,
                            WordAt(job.whole, job.Pos()), job.Pos() + 4)
  {
    hide Job.Flows, Load, WordAt, LoadSum, LoadBlocks;
    LoadsWeak(job.whole, job.signature.View().params, job.signature.blockSigs, job.Pos());
  }

  method RunWeak(job: Job) returns (result: Result)
    requires job.statefn == LoadWeak && LoadInv(job, LoadWeak)
    modifies job`statefn, job`weakSig
    modifies job`scoopBuf, job`scoopNext, job`scoopAvail, job`taken, job.stream`nextIn, job.scoopBuf
    ensures LoadPost(job, result) && job.Stepped(result)
    ensures job.scoopBuf == old(job.scoopBuf) || fresh(job.scoopBuf)
  {
    hide Job.Stepped, Job.Flows, Load, WordAt, LoadSum, LoadBlocks, SigView.Ok, StrongSumOk;
    AtWeak(job);
    var l;
    ghost var word;
    result, l, word := SuckN4(job);
    if result != Done {
      if result == InputEnded {
        job.Finishes(Done);
        return Done;
      }
      job.Blocks();
      return;
    }
    job.weakSig := l;
    job.statefn := LoadStrong;
    job.GoesOn();
    return Running;
  }

  /** With the input at its end, a strong sum that is not there in full is an error. */
  lemma Short(job: Job)
    requires LoadInv(job, LoadStrong)
    ensures |job.whole| < job.Pos() + job.signature.strongSumLen ==> Load(job.whole) == LoadedNow(job, InputEnded)
    ensures 0 < job.signature.strongSumLen
  {
    hide Job.Flows, Load, LoadSum, LoadBlocks, Mixed;
    LoadsStrong(job.whole, job.signature.View().params, job.signature.blockSigs, job.weakSig, job.Pos());
  }

  /** Add a pair of sums that has just been read. */
  method AddSum(job: Job, strongsum: seq<byte>) returns (result: Result)
    requires job.Flows() && job.Idle() && job.sent == [] && job.signature != null && job.signature.Valid()
    requires job.scoopAvail == 0 && |strongsum| == job.signature.strongSumLen <= job.Pos() <= |job.whole|
    requires strongsum == job.whole[job.Pos() - |strongsum|..job.Pos()]
    requires Load(job.whole) == LoadSum(job.whole, job.signature.View().params, job.signature.blockSigs, job.weakSig,
                                        job.Pos() - |strongsum|)
    modifies job.signature`blockSigs
    ensures LoadInv(job, LoadWeak) && result == Running
  {
    hide Job.Flows, Load, LoadSum, LoadBlocks, Mixed;
    LoadsStrong(job.whole, job.signature.View().params, job.signature.blockSigs, job.weakSig, job.Pos() - |strongsum|);
    job.signature.AddBlock(job.weakSig, strongsum);
    return Running;
  }

  method RunStrong(job: Job) returns (result: Result)
    requires job.statefn == LoadStrong && LoadInv(job, LoadStrong)
    modifies job`statefn, job.signature`blockSigs
    modifies job`scoopBuf, job`scoopNext, job`scoopAvail, job`taken, job.stream`nextIn, job.scoopBuf
    ensures LoadPost(job, result) && job.Stepped(result)
    ensures job.scoopBuf == old(job.scoopBuf) || fresh(job.scoopBuf)
  {
    hide Job.Stepped, Job.InOk, Job.OutOk, Load, LoadSum, LoadBlocks, SigView.Ok;
    Short(job);
    job.Bounds();
    var strongsum;
    result, strongsum := job.ScoopRead(job.signature.strongSumLen);
    job.Bounds();
    if result != Done {
      if result == Blocked {
        job.Blocks();
      } else {
        job.Finishes(result);
      }
      return;
    }
    job.statefn := LoadWeak;
    result := AddSum(job, strongsum);
    hide LoadInv, Job.Flows;
    job.GoesOn();
  }

  /** There is never anything in the tube of a job that only reads. */
  method Catchup(job: Job) returns (result: Result)
    requires LoadInv(job, job.statefn)
    modifies job`writeLen, job`copyLen, job`sent, job`scoopNext, job`scoopAvail, job`taken
    modifies job.stream`nextIn, job.stream`out, job.stream`availOut, job.writeBuf
    ensures LoadInv(job, job.statefn) && job.Onward() && result == Done && job.Idle() && job.Still() && old(job.Idle())
  {
    hide Job.InOk, Job.OutOk, Load, LoadSum, LoadBlocks, SigView.Ok, IntAt;
    result := job.Catchup();
  }

  /** A new job that loads a signature, into a new signature object. */
  method Begin(strong: StrongSum, ghost whole: seq<byte>) returns (job: Job)
    requires StrongSumOk(strong)
    ensures fresh(job) && fresh(job.stream) && fresh(job.scoopBuf) && fresh(job.writeBuf)
    ensures fresh(job.weakSum.rs) && fresh(job.weakSum.rk)
    ensures job.kind == LoadsigJob && job.statefn == LoadMagic && LoadInv(job, LoadMagic)
    ensures job.signature != null && fresh(job.signature) && job.signature.strong == strong && job.whole == whole
    ensures job.stream.nextIn == [] && !job.stream.eofIn && job.taken == 0 && job.sent == []
  {
    hide Job.InOk, Job.OutOk, InitResult, StrongSumOk;
    var sig := new Signature(strong);
    job := new Job(LoadsigJob, LoadMagic, sig, RollsumKind, (pos, len, call) => Failed(InternalError), whole, []);
  }

  /** The invariant does not mind what the caller does between two calls. */
  method Feed(job: Job, data: seq<byte>, eof: bool, room: nat)
    requires LoadInv(job, job.statefn) && job.Supply() + |data| <= |job.whole|
    requires data == job.whole[job.Supply()..job.Supply() + |data|] && (job.stream.eofIn ==> eof)
    requires eof ==> job.Supply() + |data| == |job.whole|
    modifies job`drained, job.stream`nextIn, job.stream`eofIn, job.stream`out, job.stream`availOut
    ensures LoadInv(job, job.statefn) && job.Supply() == old(job.Supply()) + |data|
    ensures job.stream.nextIn == old(job.stream.nextIn) + data && job.drained == job.sent && job.stream.out == []
    ensures job.stream.eofIn == eof && job.stream.availOut == room
  {
    hide Job.InOk, Job.OutOk, Load, LoadSum, LoadBlocks, SigView.Ok, IntAt, WordAt;
    job.Bounds();
    job.Feed(data, eof, room);
  }
}
