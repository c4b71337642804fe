/** The states of a patch job. Whatever the buffers do, it does what the interpreter does. */
module Patch {
  import opened Bytes
  import opened Checksum
  import opened Command
  import opened Job
  import opened NetInt
  import opened PatchSpec
  import opened Protocol

  // ---- The callback that reads the basis ----

  /** An answer of data is between one byte and what was asked for, and it is what the basis has there. */
  ghost predicate Honest(cb: (int, nat, nat) -> CopyReply, basis: seq<byte>) {
    forall pos: nat, len: nat, call: nat | len > 0 :: HonestReply(cb(pos, len, call), basis, pos, len)
  }

  ghost predicate HonestReply(reply: CopyReply, basis: seq<byte>, pos: nat, len: nat) {
    match reply
    case Data(data) => 0 < |data| <= len && pos + |data| <= |basis| && data == basis[pos..pos + |data|]
    case Failed(error) => error !in {Done, Blocked, Running}
  }

  /** It fails only when asked for what lies behind the end of the basis. */
  ghost predicate Reliable(cb: (int, nat, nat) -> CopyReply, basis: seq<byte>) {
    forall pos: nat, len: nat, call: nat | len > 0 && pos < |basis| :: cb(pos, len, call).Data?
  }

  // ---- What a patch job keeps ----

  /** What is promised so far, and then v, is what the interpreter gives. */
  ghost predicate Leads(job: Job, v: Verdict)
    reads job`promised
  {
    Interpret(job.whole, job.basis) == v.After(job.promised)
  }

  /** Between commands: a literal may still be copied, or may turn out to be cut short. */
  ghost predicate AtCommand(job: Job)
    reads job`promised, job`taken, job`scoopAvail, job`copyLen, job`writeLen
  {
    var start := job.Pos() + job.copyLen;
    && job.scoopAvail == 0 && job.writeLen == 0 && 0 <= start
    && if start <= |job.whole| then Leads(job, Run(job.whole, job.basis, start))
       else Leads(job, Verdict([], Ends(InputEnded)))
  }

  /** With the command read, and the parameters in place. */
  ghost predicate AtExec(job: Job)
    reads job`promised, job`taken, job`scoopAvail, job`copyLen, job`writeLen, job`cmd, job`param1, job`param2
  {
    && job.scoopAvail == 0 && job.Idle() && 0 <= job.Pos() <= |job.whole|
    && Leads(job, Exec(job.whole, job.basis, job.cmd.kind, job.param1,
                       if job.cmd.len2 == 0 then 0 else job.param2, job.Pos()))
    && (job.cmd.kind == KindCopy ==> job.cmd.len2 > 0)
  }

  ghost predicate PatchInv(job: Job, fn: StateFn)
    reads job`stream, job`scoopBuf, job`scoopNext, job`scoopAvail, job`taken, job`writeLen, job`copyLen
    reads job`sent, job`promised, job`drained, job`op, job`cmd, job`param1, job`param2, job`basisPos, job`basisLen
    reads job.stream, job.scoopBuf, job.writeBuf
  {
    && job.Flows() && Honest(job.copyCb, job.basis)
    && match fn
       case PatchHeader => job.promised == [] && job.Pos() == 0 && job.Idle() && job.scoopAvail < 4
       case PatchCmdbyte => AtCommand(job)
       case PatchParams =>
         && job.Idle() && job.cmd == Prototab(job.op) && job.scoopAvail < job.cmd.len1 + job.cmd.len2
         && job.cmd.len1 > 0 && Leads(job, Parameters(job.whole, job.basis, job.cmd, job.Pos()))
       case PatchRun => AtExec(job)
       case PatchLiteral => AtExec(job) && job.cmd.kind == KindLiteral
       case PatchCopy => AtExec(job) && job.cmd.kind == KindCopy
       case PatchCopying =>
         && job.scoopAvail == 0 && job.Idle() && job.basisPos >= 0 && job.basisLen > 0
         && Leads(job, CopyRest(job.whole, job.basis, job.basisPos, job.basisLen, job.Pos()))
       case Null => job.Idle() && Leads(job, Verdict([], Ends(Done)))
       case _ => false
  }

  /** How a patch that was not done ended: as the interpreter says, or because the callback failed. */
  ghost predicate PatchEnds(job: Job, result: Result)
    reads job`sent
  {
    var v := Interpret(job.whole, job.basis);
    || v == Verdict(job.sent, Ends(result))
    || ((exists pos: nat, len: nat, call: nat :: job.copyCb(pos, len, call) == Failed(result))
        && job.sent <= v.out && (Reliable(job.copyCb, job.basis) ==> v == Verdict(job.sent, BasisEnds)))
  }

  /** What a state function of a patch leaves behind. */
  ghost predicate PatchPost(job: Job, result: Result)
    reads job, job.stream, job.scoopBuf, job.writeBuf
  {
    match result
    case Running | Blocked => PatchInv(job, job.statefn)
    case Done => PatchInv(job, Null)
    case _ => job.Flows() && PatchEnds(job, result)
  }

  // ---- The state functions ----

  /** A stream that is shorter than its magic number. */
  lemma TooShort(job: Job)
    requires job.promised == job.sent == [] && |job.whole| < 4
    ensures PatchEnds(job, InputEnded)
  {
  }

  /** What the first four bytes decide. */
  lemma Opening(job: Job, v: int)
    requires job.Flows() && Honest(job.copyCb, job.basis) && job.Idle() && job.promised == job.sent == []
    requires job.Pos() == 4 <= |job.whole| && job.scoopAvail == 0 && v == AsLong(Unsigned(job.whole[0..4]))
    ensures if v == DELTA_MAGIC then PatchInv(job, PatchCmdbyte) else PatchEnds(job, BadMagic)
  {
    hide Run, Unsigned, Job.Flows, Honest;
    assert job.whole[0..4] == job.whole[..4];
    UnsignedBound(job.whole[..4]);
    Capacities();
  }

  method RunHeader(job: Job) returns (result: Result)
    requires job.statefn == PatchHeader && PatchInv(job, PatchHeader)
    modifies job`statefn, job`scoopBuf, job`scoopNext, job`scoopAvail, job`taken, job.stream`nextIn, job.scoopBuf
    ensures PatchPost(job, result) && job.Stepped(result)
    ensures job.scoopBuf == old(job.scoopBuf) || fresh(job.scoopBuf)
  {
    hide Job.Stepped, Job.InOk, Job.OutOk, Unsigned, Honest, Interpret, AtExec, AtCommand, PatchEnds;
    job.Bounds();
    job.PromisedWithoutCopy(0, 0);
    var v;
    result, v := job.SuckNetint(4);
    job.Bounds();
    if result != Done {
      if result == Blocked {
        job.Blocks();
      } else {
        TooShort(job);
        job.Finishes(result);
      }
      return;
    }
    Opening(job, v);
    hide PatchInv, Job.Flows;
    if v != DELTA_MAGIC {
      job.Finishes(BadMagic);
      return BadMagic;
    }
    job.statefn := PatchCmdbyte;
    job.GoesOn();
    return Running;
  }

  /** Between commands with the tube empty, the next one starts at the position reached. */
  lemma NextCommand(job: Job)
    requires PatchInv(job, PatchCmdbyte) && job.Idle()
    ensures job.Flows() && job.scoopAvail == 0 && 0 <= job.Pos() <= |job.whole| && job.promised == job.sent
    ensures Leads(job, Run(job.whole, job.basis, job.Pos()))
  {
    hide Run, Interpret;
    job.Bounds();
    job.PromisedWithoutCopy(job.Pos(), job.Pos());
  }

  lemma Reads(d: seq<byte>, basis: seq<byte>, i: nat)
    requires i < |d|
    ensures var ent := Prototab(d[i]);
            Run(d, basis, i) == if ent.len1 == 0 then Exec(d, basis, ent.kind, ent.immediate, 0, i + 1)
                                else Parameters(d, basis, ent, i + 1)
    ensures Prototab(d[i]).kind == KindCopy ==> Prototab(d[i]).len2 > 0
  {
  }

  lemma EndsHere(job: Job, result: Result)
    requires Leads(job, Verdict([], Ends(result))) && job.promised == job.sent
    ensures PatchEnds(job, result)
  {
    hide Interpret;
    assert job.sent + [] == job.sent;
  }

  method RunCmdbyte(job: Job) returns (result: Result)
    requires job.statefn == PatchCmdbyte && PatchInv(job, PatchCmdbyte) && job.Idle()
    modifies job`statefn, job`scoopBuf, job`scoopNext, job`scoopAvail, job`taken, job.stream`nextIn, job.scoopBuf
    modifies job`op, job`cmd, job`param1
    ensures PatchPost(job, result) && job.Stepped(result)
    ensures job.scoopBuf == old(job.scoopBuf) || fresh(job.scoopBuf)
  {
    hide Job.Stepped, Job.InOk, Job.OutOk, Run, Parameters, Exec, Prototab, Interpret, AtCommand, PatchEnds;
    NextCommand(job);
    job.Bounds();
    var ptr;
    result, ptr := job.ScoopRead(1);
    job.Bounds();
    if result != Done {
      EndsHereIfOver(job, result);
      if result == Blocked {
        job.Blocks();
      } else {
        job.Finishes(result);
      }
      return;
    }
    TakeCommand(job, ptr[0]);
    hide PatchInv, Leads, AtExec, Job.Flows;
    if job.cmd.len1 > 0 {
      job.statefn := PatchParams;
    } else {
      job.statefn := PatchRun;
    }
    job.GoesOn();
    return Running;
  }

  /** Look the command byte up that has just been read. */
  method TakeCommand(job: Job, b: byte)
    requires job.Flows() && job.Idle() && job.scoopAvail == 0 && Honest(job.copyCb, job.basis)
    requires 0 < job.Pos() <= |job.whole| && b == job.whole[job.Pos() - 1]
    requires Leads(job, Run(job.whole, job.basis, job.Pos() - 1))
    modifies job`op, job`cmd, job`param1
    ensures job.cmd == Prototab(job.op) && PatchInv(job, if job.cmd.len1 > 0 then PatchParams else PatchRun)
  {
    hide Job.InOk, Job.OutOk, Run, Parameters, Exec, Prototab, Interpret, AtCommand;
    Reads(job.whole, job.basis, job.Pos() - 1);
    job.op := b;
    job.cmd := Prototab(job.op);
    if job.cmd.len1 == 0 {
      job.param1 := job.cmd.immediate;
    }
  }

  /** At the end of the input there is no further command. */
  lemma EndsHereIfOver(job: Job, result: Result)
    requires job.promised == job.sent && 0 <= job.Pos() <= |job.whole|
    requires Leads(job, Run(job.whole, job.basis, job.Pos()))
    requires result == InputEnded ==> job.Pos() == |job.whole|
    ensures result == InputEnded ==> PatchEnds(job, result)
  {
    if result == InputEnded {
      EndsHere(job, result);
    }
  }

  lemma Decoded(d: seq<byte>, basis: seq<byte>, op: byte, i: nat)
    requires i + Prototab(op).len1 + Prototab(op).len2 <= |d|
    ensures var ent := Prototab(op);
            var j := i + ent.len1;
            var k := j + ent.len2;
            && Parameters(d, basis, ent, i)
               == Exec(d, basis, ent.kind, AsLong(Unsigned(d[i..j])),
                       if ent.len2 == 0 then 0 else AsLong(Unsigned(d[j..k])), k)
            && (ent.kind == KindCopy ==> ent.len2 > 0)
  {
    hide Exec;
    var j := i + Prototab(op).len1;
    assert d[j..j] == [];
  }

  lemma ReadyToRun(job: Job)
    requires job.Flows() && Honest(job.copyCb, job.basis) && AtExec(job)
    ensures PatchInv(job, PatchRun)
  {
  }

  /** Suck both parameters in, from the scoop or straight from the caller's buffer. */
  method SuckParams(job: Job)
    requires job.Flows() && job.Idle() && 0 < job.cmd.len1 <= 8 && job.cmd.len2 <= 8
    requires job.scoopAvail in {0, job.cmd.len1 + job.cmd.len2} && job.cmd.len1 + job.cmd.len2 <= job.Avail()
    requires 0 <= job.Pos() <= |job.whole|
    modifies job`scoopBuf, job`scoopNext, job`scoopAvail, job`taken, job.stream`nextIn, job.scoopBuf
    modifies job`param1, job`param2
    ensures job.Flows() && job.Supply() == old(job.Supply()) && job.scoopAvail == 0 && job.Pos() <= |job.whole|
    ensures var i := old(job.Pos());
            var j := i + job.cmd.len1;
            && job.Pos() == j + job.cmd.len2 && job.param1 == AsLong(Unsigned(job.whole[i..j]))
            && (job.cmd.len2 > 0 ==> job.param2 == AsLong(Unsigned(job.whole[j..job.Pos()])))
    ensures job.scoopBuf == old(job.scoopBuf) || fresh(job.scoopBuf)
  {
    hide Job.InOk, Job.OutOk, Unsigned;
    job.Bounds();
    var suck;
    suck, job.param1 := job.SuckNetint(job.cmd.len1);
    if job.cmd.len2 > 0 {
      suck, job.param2 := job.SuckNetint(job.cmd.len2);
    }
    job.Bounds();
  }

  /** Take the parameters in. They are all there. */
  method TakeParams(job: Job)
    requires job.Flows() && job.Idle() && Honest(job.copyCb, job.basis)
    requires job.cmd == Prototab(job.op) && 0 < job.cmd.len1 <= 8 && job.cmd.len2 <= 8
    requires job.scoopAvail in {0, job.cmd.len1 + job.cmd.len2} && job.cmd.len1 + job.cmd.len2 <= job.Avail()
    requires 0 <= job.Pos() <= |job.whole| && Leads(job, Parameters(job.whole, job.basis, job.cmd, job.Pos()))
    modifies job`scoopBuf, job`scoopNext, job`scoopAvail, job`taken, job.stream`nextIn, job.scoopBuf
    modifies job`param1, job`param2
    ensures PatchInv(job, PatchRun) && job.Supply() == old(job.Supply()) && job.taken >= job.Pos()
    ensures job.Pos() == old(job.Pos()) + job.cmd.len1 + job.cmd.len2
    ensures job.scoopBuf == old(job.scoopBuf) || fresh(job.scoopBuf)
  {
    hide Job.Flows, Parameters, Exec, Prototab, Interpret, Unsigned, Honest, PatchInv, AtCommand, Leads;
    job.Bounds();
    Decoded(job.whole, job.basis, job.op, job.Pos());
    SuckParams(job);
    ReadyToRun(job);
  }

  lemma TableWidths(op: byte)
    ensures Prototab(op).len1 <= 8 && Prototab(op).len2 <= 8
  {
  }

  /** The input ends before the parameters do. */
  lemma ParamsAreCut(job: Job)
    requires job.Flows() && job.Idle() && 0 <= job.Pos() <= |job.whole| < job.Pos() + job.cmd.len1 + job.cmd.len2
    requires Leads(job, Parameters(job.whole, job.basis, job.cmd, job.Pos()))
    ensures PatchEnds(job, InputEnded)
  {
    hide Interpret, Exec, Unsigned, Job.InOk, Job.OutOk;
    job.PromisedWithoutCopy(job.Pos(), job.Pos());
    EndsHere(job, InputEnded);
  }

  method RunParams(job: Job) returns (result: Result)
    requires job.statefn == PatchParams && PatchInv(job, PatchParams)
    modifies job`statefn, job`scoopBuf, job`scoopNext, job`scoopAvail, job`taken, job.stream`nextIn, job.scoopBuf
    modifies job`param1, job`param2
    ensures PatchPost(job, result) && job.Stepped(result)
    ensures job.scoopBuf == old(job.scoopBuf) || fresh(job.scoopBuf)
  {
    hide Job.Stepped, Job.InOk, Job.OutOk, Exec, Interpret, AtCommand, AtExec, PatchEnds, Prototab, Parameters, Leads;
    hide Honest;
    TableWidths(job.op);
    job.Bounds();
    var len := job.cmd.len1 + job.cmd.len2;
    var ptr;
    result, ptr := job.Readahead(len);
    job.Bounds();
    if result != Done {
      if result == InputEnded {
        ParamsAreCut(job);
        job.Finishes(result);
      } else {
        job.Blocks();
      }
      return;
    }
    TakeParams(job);
    hide PatchInv, Job.Flows;
    job.statefn := PatchRun;
    job.GoesOn();
    return Running;
  }

  method RunRun(job: Job) returns (result: Result)
    requires job.statefn == PatchRun && PatchInv(job, PatchRun)
    modifies job`statefn
    ensures PatchPost(job, result) && job.Stepped(result)
  {
    hide Job.Stepped, Job.InOk, Job.OutOk, Run, Interpret;
    job.PromisedWithoutCopy(job.Pos(), job.Pos());
    match job.cmd.kind {
      case KindLiteral =>
        job.statefn := PatchLiteral;
        job.GoesOn();
        return Running;
      case KindEnd =>
        job.Finishes(Done);
        return Done;
      case KindCopy =>
        job.statefn := PatchCopy;
        job.GoesOn();
        return Running;
      case KindReserved =>
        EndsHere(job, Corrupt);
        job.Finishes(Corrupt);
        return Corrupt;
    }
  }

  method RunLiteral(job: Job) returns (result: Result)
    requires job.statefn == PatchLiteral && PatchInv(job, PatchLiteral)
    modifies job`statefn, job`copyLen, job`promised
    ensures PatchPost(job, result) && job.Stepped(result)
  {
    hide Job.Stepped, Job.InOk, Job.OutOk, Run, Interpret;
    job.Bounds();
    job.PromisedWithoutCopy(job.Pos(), job.Pos());
    var len := job.param1;
    if len <= 0 {
      EndsHere(job, Corrupt);
      job.Finishes(Corrupt);
      return Corrupt;
    }
    LiteralLeads(job, job.promised, job.Pos(), len);
    job.TubeCopy(len);
    job.statefn := PatchCmdbyte;
    job.GoesOn();
    return Running;
  }

  /** What follows a literal, whole or cut short. */
  lemma LiteralLeads(job: Job, before: seq<byte>, i: nat, len: nat)
    requires i <= |job.whole| && len > 0
    requires Interpret(job.whole, job.basis) == Exec(job.whole, job.basis, KindLiteral, len, 0, i).After(before)
    ensures Interpret(job.whole, job.basis)
            == (if i + len <= |job.whole| then Run(job.whole, job.basis, i + len) else Verdict([], Ends(InputEnded)))
               .After(before + job.whole[i..Min(i + len, |job.whole|)])
  {
    hide Run, Interpret;
    if i + len <= |job.whole| {
      AfterAfter(Run(job.whole, job.basis, i + len), before, job.whole[i..i + len]);
    }
  }

  method RunCopy(job: Job) returns (result: Result)
    requires job.statefn == PatchCopy && PatchInv(job, PatchCopy)
    modifies job`statefn, job`basisPos, job`basisLen
    ensures PatchPost(job, result) && job.Stepped(result)
  {
    hide Job.Stepped, Job.InOk, Job.OutOk, Run, Interpret;
    job.Bounds();
    job.PromisedWithoutCopy(job.Pos(), job.Pos());
    var pos, len := job.param1, job.param2;
    if len <= 0 {
      EndsHere(job, Corrupt);
      job.Finishes(Corrupt);
      return Corrupt;
    }
    if pos < 0 {
      EndsHere(job, Corrupt);
      job.Finishes(Corrupt);
      return Corrupt;
    }
    job.basisPos := pos;
    job.basisLen := len;
    job.statefn := PatchCopying;
    job.GoesOn();
    return Running;
  }

  /** Send what the callback answered with. */
  method SendCopied(job: Job, data: seq<byte>)
    requires job.Flows() && job.Idle() && |data| <= job.stream.availOut
    modifies job`sent, job`promised, job.stream`out, job.stream`availOut
    ensures job.Flows() && job.promised == old(job.promised) + data
    ensures job.sent == old(job.sent) + data && job.stream.availOut == old(job.stream.availOut) - |data|
  {
    job.PromisedWithoutCopy(job.Pos(), job.Pos());
    job.stream.out := job.stream.out + data;
    job.stream.availOut := job.stream.availOut - |data|;
    job.sent := job.sent + data;
    job.promised := job.promised + data;
  }

  /** The callback failed: what was written is right, and if the callback is reliable, the basis has ended. */
  lemma CopyFails(job: Job, req: nat, call: nat, error: Result)
    requires PatchInv(job, PatchCopying) && 0 < req <= job.basisLen
    requires job.copyCb(job.basisPos, req, call) == Failed(error)
    ensures PatchEnds(job, error) && error !in {Done, Blocked, Running}
  {
    hide Run, Interpret, Job.InOk, Job.OutOk;
    job.Bounds();
    job.PromisedWithoutCopy(job.Pos(), job.Pos());
    var pos: nat, len: nat := job.basisPos, req;
    assert HonestReply(job.copyCb(pos, len, call), job.basis, pos, len);
    var v := Interpret(job.whole, job.basis);
    assert job.sent <= v.out;
    if Reliable(job.copyCb, job.basis) {
      assert pos >= |job.basis|;
      assert job.basis[|job.basis|..] == [] && job.sent + [] == job.sent;
    }
  }

  /** Send part of the data to be copied; either more is to come, or the next command. */
  method TakeCopied(job: Job, data: seq<byte>)
    requires PatchInv(job, PatchCopying)
    requires 0 < |data| <= job.stream.availOut && |data| <= job.basisLen && job.basisPos + |data| <= |job.basis|
    requires data == job.basis[job.basisPos..job.basisPos + |data|]
    modifies job`sent, job`promised, job`basisPos, job`basisLen, job.stream`out, job.stream`availOut
    ensures job.basisLen >= 0 && PatchInv(job, if job.basisLen == 0 then PatchCmdbyte else PatchCopying)
    ensures job.sent == old(job.sent) + data && job.stream.availOut == old(job.stream.availOut) - |data|
  {
    hide Job.InOk, Job.OutOk, Run, Interpret, CopyRest, AtExec;
    job.Bounds();
    ghost var pos: nat, len: nat, before := job.basisPos, job.basisLen, job.promised;
    CopySplits(job.whole, job.basis, pos, len, job.Pos(), |data|);
    SendCopied(job, data);
    job.basisPos := job.basisPos + |data|;
    job.basisLen := job.basisLen - |data|;
    AfterAfter(if job.basisLen > 0 then CopyRest(job.whole, job.basis, job.basisPos, job.basisLen, job.Pos())
               else Run(job.whole, job.basis, job.Pos()), before, data);
  }

  method RunCopying(job: Job) returns (result: Result)
    requires job.statefn == PatchCopying && PatchInv(job, PatchCopying)
    modifies job`statefn, job`copyCalls, job`basisPos, job`basisLen
    modifies job`sent, job`promised, job.stream`out, job.stream`availOut
    ensures PatchPost(job, result) && job.Stepped(result)
  {
    hide Job.Stepped, Job.InOk, Job.OutOk, Run, Interpret, CopyRest, AtExec, PatchEnds, Leads;
    job.Bounds();
    var req := job.basisLen;
    var len := job.stream.availOut;
    if len == 0 {
      job.Blocks();
      return Blocked;
    }
    if len < req {
      req := len;
    }
    var call := job.copyCalls;
    job.copyCalls := job.copyCalls + 1;
    ghost var pos: nat := job.basisPos;
    match job.copyCb(job.basisPos, req, call) {
      case Failed(error) =>
        CopyFails(job, req, call, error);
        job.Finishes(error);
        return error;
      case Data(data) =>
        assert HonestReply(job.copyCb(pos, req, call), job.basis, pos, req);
        TakeCopied(job, data);
        if job.basisLen == 0 {
          job.statefn := PatchCmdbyte;
        }
        job.GoesOn();
        return Running;
    }
  }

  /** Catching up with the tube, between state functions: a literal may turn out to be cut short. */
  method Catchup(job: Job) returns (result: Result)
    requires PatchInv(job, job.statefn)
    modifies job`writeLen, job`copyLen, job`sent, job`scoopNext, job`scoopAvail, job`taken
    modifies job.stream`nextIn, job.stream`out, job.stream`availOut, job.writeBuf
    ensures result in {Done, Blocked, InputEnded} && job.Onward()
    ensures if result == InputEnded then job.Flows() && PatchEnds(job, result) else PatchInv(job, job.statefn)
    ensures result == Done <==> job.Idle()
    ensures old(job.scoopAvail) == 0 ==> job.scoopAvail == 0
    ensures result == Blocked ==> job.stream.availOut == 0 || (|job.stream.nextIn| == 0 && !job.stream.eofIn)
    ensures old(job.Idle()) ==> result == Done
    ensures result == Blocked ==> job.statefn != PatchRun
    ensures old(job.Due()) && old(job.stream.availOut) > 0 ==> job.Progressed()
    ensures if old(job.Idle()) then job.Still() else result == Done ==> |job.sent| > |old(job.sent)|
  {
    hide Job.InOk, Job.OutOk, Run, Interpret, Exec, Parameters, CopyRest, Prototab;
    job.Bounds();
    result := job.Catchup();
    job.Bounds();
    if result == InputEnded {
      LiteralIsCut(job);
    }
  }

  lemma LiteralIsCut(job: Job)
    requires job.Flows() && AtCommand(job) && job.copyLen > 0 && job.Avail() == 0 && job.stream.eofIn
    ensures PatchEnds(job, InputEnded)
  {
    hide Run, Interpret;
    job.Bounds();
    assert job.whole[|job.whole|..|job.whole|] == [] && job.writeBuf[..0] == [];
    assert job.promised == job.sent;
    EndsHere(job, InputEnded);
  }

  /** A new patch job. */
  method Begin(copyCb: (int, nat, nat) -> CopyReply, ghost whole: seq<byte>, ghost basis: seq<byte>) returns (job: Job)
    requires Honest(copyCb, basis)
    ensures fresh(job) && fresh(job.stream) && fresh(job.scoopBuf) && fresh(job.writeBuf)
    ensures fresh(job.weakSum.rs) && fresh(job.weakSum.rk)
    ensures job.kind == PatchJob && job.statefn == PatchHeader && PatchInv(job, PatchHeader) && job.signature == null
    ensures job.whole == whole && job.basis == basis && job.copyCb == copyCb
    ensures job.stream.nextIn == [] && !job.stream.eofIn && job.taken == 0 && job.sent == []
  {
    hide Job.InOk, Job.OutOk;
    job := new Job(PatchJob, PatchHeader, null, RollsumKind, copyCb, whole, basis);
  }

  /** The invariant does not mind what the caller does between two calls. */
  method Feed(job: Job, data: seq<byte>, eof: bool, room: nat)
    requires PatchInv(job, job.statefn) && job.Supply() + |data| <= |job.whole|
    requires data == job.whole[job.Supply()..job.Supply() + |data|] && (job.stream.eofIn ==> eof)
    requires eof ==> job.Supply() + |data| == |job.whole|
    modifies job`drained, job.stream`nextIn, job.stream`eofIn, job.stream`out, job.stream`availOut
    ensures PatchInv(job, job.statefn) && job.Supply() == old(job.Supply()) + |data|
    ensures job.stream.nextIn == old(job.stream.nextIn) + data && job.drained == job.sent && job.stream.out == []
    ensures job.stream.eofIn == eof && job.stream.availOut == room
  {
    hide Job.InOk, Job.OutOk, Run, Interpret, Exec, Parameters, CopyRest, Prototab, Leads, Honest;
    job.Bounds();
    job.Feed(data, eof, room);
  }

  /** What is sent is always the beginning of what the interpreter writes. */
  lemma SentBound(job: Job, fn: StateFn)
    requires PatchInv(job, fn)
    ensures job.sent <= Interpret(job.whole, job.basis).out
  {
    hide Job.InOk, Job.OutOk, Interpret, Run, Exec, Parameters, CopyRest, Prototab;
    job.SentIsPromised();
    if fn == PatchHeader {
      job.PromisedWithoutCopy(0, 0);
    }
  }
}
