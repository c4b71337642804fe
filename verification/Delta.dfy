/** The states of a delta job. Whatever the buffers do, its commands are those of the greedy scanner. */
module Delta {
  import opened Bytes
  import opened Checksum
  import opened Command
  import opened Emit
  import opened Greedy
  import opened Hashtable
  import opened Job
  import opened NetInt
  import opened Protocol
  import opened Sumset
  import Util

  // ---- What a delta job knows about itself ----

  /** Where the pending data starts: after the input consumed and the input already promised to the tube. */
  ghost function Start(job: Job): int
    reads job`taken, job`scoopAvail, job`copyLen
  {
    job.Pos() + job.copyLen
  }

  /** How far the job has scanned, as a position in the whole input. */
  ghost function Scanned(job: Job): int
    reads job`taken, job`scoopAvail, job`copyLen, job`scanPos
  {
    Start(job) + job.scanPos
  }

  /** What is pending: a match when basisLen is positive, and otherwise missed bytes. */
  ghost function LastOf(job: Job): Last
    requires job.basisLen > 0 ==> job.basisPos >= 0
    reads job`basisPos, job`basisLen, job`scanPos
  {
    if job.basisLen > 0 then Match(job.basisPos, job.basisLen) else Miss(job.scanPos)
  }

  /** The pending data lies before the scan position; a pending match is in the scoop whole or not at all. */
  ghost predicate LastOk(job: Job)
    reads job`basisPos, job`basisLen, job`scanPos, job`taken, job`scoopAvail, job`copyLen
  {
    && job.basisLen >= 0 && 0 <= Start(job)
    && (job.basisLen > 0 ==>
          job.basisPos >= 0 && (job.scanPos == 0 || job.scanPos == job.basisLen) && job.basisLen <= Scanned(job))
    && Emittable(LastOf(job))
  }

  /** The output promised is the encoding of the commands emitted. */
  ghost predicate Emitted(job: Job)
    reads job`promised, job`cmds, job`stats
  {
    AllEncodable(job.cmds) && job.promised == Magic + EncodeAll(job.cmds) && job.stats == Tally(job.cmds)
  }

  /** The signature is indexed, and the weak sum is of its kind. */
  ghost predicate Ready(job: Job)
    reads job`scoopBuf, job.signature, job.SigObjects(), job.weakSum, job.weakSum.rs, job.weakSum.rk
  {
    && job.signature != null && job.signature.Indexed()
    && Sized(job.signature.View(), job.whole)
    && job.writeBuf !in job.SigObjects() && job.scoopBuf !in job.SigObjects()
    && job.weakSum.rs !in job.SigObjects() && job.weakSum.rk !in job.SigObjects()
    && job.weakSum.Valid() && job.weakSum.kind == job.signature.View().params.WeakKind()
  }

  /** All the input at hand is in view, in one piece, and nothing is being copied. */
  ghost predicate InView(job: Job)
    reads job`taken, job`scoopAvail, job`stream, job`copyLen, job`scanPos, job`scanLen, job`scanBuf, job.stream`nextIn
  {
    && job.copyLen == 0 && 0 <= job.Pos() && job.Supply() <= |job.whole|
    && job.scanPos <= job.scanLen == job.Avail()
    && job.scanBuf == job.whole[job.Pos()..job.Supply()]
    && (job.scoopAvail == 0 || |job.stream.nextIn| == 0)
  }

  // ---- Processing what has been emitted ----

  /** Catch up with the tube. The input of a delta never ends in the middle of a copy. */
  method CatchUp(job: Job) returns (result: Result)
    requires job.Flows() && Start(job) <= job.Supply()
    modifies job`writeLen, job`copyLen, job`sent, job`scoopNext, job`scoopAvail, job`taken
    modifies job.stream`nextIn, job.stream`out, job.stream`availOut, job.writeBuf
    ensures job.Flows() && Start(job) == old(Start(job))
    ensures result == (if job.Idle() then Done else Blocked)
    ensures result == Blocked ==> job.stream.availOut == 0
    ensures old(job.Idle()) ==> job.Idle()
    ensures job.Onward()
    ensures old(job.Due()) && old(job.stream.availOut) > 0 ==> |job.sent| > |old(job.sent)|
    ensures if old(job.Idle()) then job.Still() else result == Done ==> |job.sent| > |old(job.sent)|
    ensures old(job.scoopAvail) == 0 ==> job.scoopAvail == 0
    ensures |old(job.stream.nextIn)| == 0 ==> |job.stream.nextIn| == 0
  {
    hide Job.InOk, Job.OutOk;
    result := job.Catchup();
  }

  /** Drop the scanPos bytes in view that have been scanned. */
  method Trim(job: Job)
    requires 0 <= job.scanPos <= job.scanLen == |job.scanBuf|
    modifies job`scanBuf, job`scanLen, job`scanPos
    ensures job.scanBuf == old(job.scanBuf[job.scanPos..])
    ensures job.scanLen == old(job.scanLen - job.scanPos) && job.scanPos == 0
  {
    job.scanBuf := job.scanBuf[job.scanPos..];
    job.scanLen := job.scanLen - job.scanPos;
    job.scanPos := 0;
  }

  /** The view without its first n bytes. */
  lemma ViewTail(job: Job, n: nat)
    requires InView(job) && n <= job.scanLen
    ensures |job.scanBuf| == job.scanLen
    ensures job.scanBuf[n..] == job.whole[job.Pos() + n..job.Supply()]
  {
    SliceOfSlice(job.whole, job.Pos(), job.Supply(), n, job.scanLen);
  }

  /** Drop the matched data, of length scanPos, from the scoop. */
  method ProcessMatch(job: Job) returns (result: Result)
    requires job.Flows() && InView(job)
    modifies job`writeLen, job`copyLen, job`sent, job`scoopNext, job`scoopAvail, job`taken
    modifies job`scanBuf, job`scanLen, job`scanPos
    modifies job.stream`nextIn, job.stream`out, job.stream`availOut, job.writeBuf
    ensures job.Flows()
    ensures Start(job) == old(Scanned(job)) && job.scanPos == 0
    ensures result == (if job.Idle() then Done else Blocked)
    ensures result == Done ==> InView(job)
    ensures result == Blocked ==> job.stream.availOut == 0
    ensures old(job.Idle()) ==> job.Idle()
    ensures result == Done ==> job.Pos() == old(Scanned(job))
    ensures job.Onward()
    ensures old(job.writeLen) > 0 && old(job.stream.availOut) > 0 ==> |job.sent| > |old(job.sent)|
    ensures old(job.scoopAvail) == 0 ==> job.scoopAvail == 0
  {
    hide Job.InOk, Job.OutOk;
    job.Bounds();
    ViewTail(job, job.scanPos);
    job.PromisedWithoutCopy(job.Pos(), Scanned(job));
    job.ScoopAdvance(job.scanPos);
    Trim(job);
    result := CatchUp(job);
  }

  /** Send the missed data, of length scanPos, through the tube. Its command has been written already. */
  method ProcessMiss(job: Job) returns (result: Result)
    requires job.Flows() && InView(job) && job.writeLen > 0
    modifies job`writeLen, job`copyLen, job`sent, job`promised, job`scoopNext, job`scoopAvail, job`taken
    modifies job`scanBuf, job`scanLen, job`scanPos
    modifies job.stream`nextIn, job.stream`out, job.stream`availOut, job.writeBuf
    ensures job.Flows()
    ensures job.promised == old(job.promised + job.whole[job.Pos()..Scanned(job)])
    ensures Start(job) == old(Scanned(job)) && job.scanPos == 0
    ensures result == (if job.Idle() then Done else Blocked)
    ensures result == Done ==> InView(job)
    ensures result == Blocked ==> job.stream.availOut == 0
    ensures result == Done ==> job.Pos() == old(Scanned(job))
    ensures job.Onward()
    ensures old(job.stream.availOut) > 0 ==> |job.sent| > |old(job.sent)|
    ensures old(job.scoopAvail) == 0 ==> job.scoopAvail == 0
  {
    hide Job.InOk, Job.OutOk;
    job.Bounds();
    ViewTail(job, job.scanPos);
    job.TubeCopy(job.scanPos);
    Trim(job);
    result := CatchUp(job);
  }

  // ---- Appending to the delta ----

  /** One more command emitted. */
  lemma EmittedSnoc(job: Job, c: Command)
    requires Emitted(job) && c.Encodable()
    ensures AllEncodable(job.cmds + [c])
    ensures Magic + EncodeAll(job.cmds + [c]) == job.promised + Encode(c)
    ensures Tally(job.cmds + [c]) == Counted(job.stats, c)
  {
    hide Encode, Counted, Command.Encodable;
    EncodeSnoc(job.cmds, c);
    TallySnoc(job.cmds, c);
    assert Magic + (EncodeAll(job.cmds) + Encode(c)) == (Magic + EncodeAll(job.cmds)) + Encode(c);
  }

  /** Emit the pending match, and drop its data. */
  method FlushMatch(job: Job) returns (result: Result)
    requires job.Flows() && Emitted(job) && LastOk(job) && InView(job) && job.Idle() && job.basisLen > 0
    requires |job.whole| < Util.LONG_LIMIT
    modifies job`writeLen, job`copyLen, job`sent, job`promised, job`scoopNext, job`scoopAvail, job`taken
    modifies job`scanBuf, job`scanLen, job`scanPos, job`basisLen, job`stats, job`cmds
    modifies job.stream`nextIn, job.stream`out, job.stream`availOut, job.writeBuf
    ensures job.Flows() && Emitted(job)
    ensures job.scanPos == 0 && job.basisLen == 0 && Start(job) == old(Scanned(job))
    ensures job.cmds == old(job.cmds) + [Copy(old(job.basisPos), old(job.basisLen))]
    ensures result == (if job.Idle() then Done else Blocked)
    ensures result == Done ==> InView(job)
    ensures result == Blocked ==> job.stream.availOut == 0
    ensures job.Onward()
    ensures old(job.stream.availOut) > 0 ==> |job.sent| > |old(job.sent)|
    ensures old(job.scoopAvail) == 0 ==> job.scoopAvail == 0
  {
    hide Job.InOk, Job.OutOk, EncodeAll, Tally, CopyHead;
    job.Bounds();
    ghost var c := Copy(job.basisPos, job.basisLen);
    EmittedSnoc(job, c);
    EmitCopyCmd(job, job.basisPos, job.basisLen);
    job.cmds := job.cmds + [c];
    job.basisLen := 0;
    hide AllEncodable;
    assert Emitted(job);
    hide Emitted;
    result := ProcessMatch(job);
  }

  /** Emit the pending literal, and queue its data. */
  method FlushMiss(job: Job) returns (result: Result)
    requires job.Flows() && Emitted(job) && LastOk(job) && InView(job)
    requires job.Idle() && job.basisLen == 0 && job.scanPos > 0
    modifies job`writeLen, job`copyLen, job`sent, job`promised, job`scoopNext, job`scoopAvail, job`taken
    modifies job`scanBuf, job`scanLen, job`scanPos, job`stats, job`cmds
    modifies job.stream`nextIn, job.stream`out, job.stream`availOut, job.writeBuf
    ensures job.Flows() && Emitted(job)
    ensures job.scanPos == 0 && Start(job) == old(Scanned(job))
    ensures job.cmds == old(job.cmds + [Literal(job.whole[job.Pos()..Scanned(job)])])
    ensures result == (if job.Idle() then Done else Blocked)
    ensures result == Done ==> InView(job)
    ensures result == Blocked ==> job.stream.availOut == 0
    ensures job.Onward()
    ensures old(job.stream.availOut) > 0 ==> |job.sent| > |old(job.sent)|
    ensures old(job.scoopAvail) == 0 ==> job.scoopAvail == 0
  {
    hide Job.InOk, Job.OutOk, EncodeAll, Tally, LiteralHead;
    job.Bounds();
    ghost var data, before := job.whole[job.Pos()..Scanned(job)], job.promised;
    ghost var c := Literal(data);
    EmittedSnoc(job, c);
    EmitLiteralCmd(job, job.scanPos);
    job.cmds := job.cmds + [c];
    assert before + LiteralHead(|data|) + data == before + (LiteralHead(|data|) + data);
    hide AllEncodable;
    result := ProcessMiss(job);
  }

  /** Emit what is pending, if anything is, and process its data. */
  method AppendFlush(job: Job) returns (result: Result)
    requires job.Flows() && Emitted(job) && LastOk(job) && InView(job) && job.Idle()
    requires |job.whole| < Util.LONG_LIMIT
    modifies job`writeLen, job`copyLen, job`sent, job`promised, job`scoopNext, job`scoopAvail, job`taken
    modifies job`scanBuf, job`scanLen, job`scanPos, job`basisLen, job`stats, job`cmds
    modifies job.stream`nextIn, job.stream`out, job.stream`availOut, job.writeBuf
    ensures job.Flows() && Emitted(job)
    ensures job.scanPos == 0 && job.basisLen == 0 && Start(job) == old(Scanned(job))
    ensures job.cmds == old(job.cmds) + Flush(job.whole, old(Scanned(job)), old(LastOf(job)))
    ensures result == (if job.Idle() then Done else Blocked)
    ensures result == Done ==> InView(job)
    ensures result == Blocked ==> job.stream.availOut == 0
    ensures job.Onward()
    ensures old(job.stream.availOut > 0 && LastOf(job).Span() > 0) ==> |job.sent| > |old(job.sent)|
    ensures old(job.scoopAvail) == 0 ==> job.scoopAvail == 0
  {
    hide Job.Flows, Emitted;
    if job.basisLen > 0 {
      result := FlushMatch(job);
    } else if job.scanPos > 0 {
      result := FlushMiss(job);
    } else {
      result := Done;
    }
  }

  /** Lengthen the pending match, and drop the data. */
  method ExtendMatch(job: Job, matchLen: nat) returns (result: Result)
    requires job.Flows() && LastOk(job) && InView(job) && job.Idle() && job.basisLen > 0
    requires 0 < matchLen <= job.scanLen - job.scanPos
    modifies job`writeLen, job`copyLen, job`sent, job`scoopNext, job`scoopAvail, job`taken
    modifies job`scanBuf, job`scanLen, job`scanPos, job`basisLen
    modifies job.stream`nextIn, job.stream`out, job.stream`availOut, job.writeBuf
    ensures job.Flows() && LastOk(job)
    ensures Scanned(job) == old(Scanned(job)) + matchLen && job.basisLen == old(job.basisLen) + matchLen
    ensures result == Done && job.Idle() && InView(job) && job.Pos() > old(job.Pos())
    ensures job.Onward()
    ensures job.scanPos <= matchLen
    ensures old(job.scoopAvail) == 0 ==> job.scoopAvail == 0
  {
    hide Job.Flows;
    job.basisLen := job.basisLen + matchLen;
    job.scanPos := job.scanPos + matchLen;
    result := ProcessMatch(job);
  }

  /** Flush what is pending, and start a new match. */
  method StartMatch(job: Job, matchPos: nat, matchLen: nat) returns (result: Result)
    requires job.Flows() && Emitted(job) && LastOk(job) && InView(job) && job.Idle()
    requires |job.whole| < Util.LONG_LIMIT && matchPos < Util.LONG_LIMIT
    requires 0 < matchLen <= job.scanLen - job.scanPos
    modifies job`writeLen, job`copyLen, job`sent, job`promised, job`scoopNext, job`scoopAvail, job`taken
    modifies job`scanBuf, job`scanLen, job`scanPos, job`basisPos, job`basisLen, job`stats, job`cmds
    modifies job.stream`nextIn, job.stream`out, job.stream`availOut, job.writeBuf
    ensures job.Flows() && Emitted(job) && LastOk(job)
    ensures Scanned(job) == old(Scanned(job)) + matchLen && LastOf(job) == Match(matchPos, matchLen)
    ensures job.cmds == old(job.cmds) + Flush(job.whole, old(Scanned(job)), old(LastOf(job)))
    ensures result == (if job.Idle() then Done else Blocked)
    ensures result == Done ==> InView(job) && job.Pos() > old(job.Pos())
    ensures result == Blocked ==> job.stream.availOut == 0 && job.scanPos == LastOf(job).Span()
    ensures job.Onward()
    ensures job.scanPos <= matchLen
    ensures old(job.scoopAvail) == 0 ==> job.scoopAvail == 0
  {
    hide Job.Flows, Emitted, Flush;
    result := AppendFlush(job);
    job.basisPos := matchPos;
    job.basisLen := matchLen;
    job.scanPos := job.scanPos + matchLen;
    if result == Done {
      result := ProcessMatch(job);
    }
  }

  /** Append a match, extending the pending one if it continues it. */
  method AppendMatch(job: Job, matchPos: nat, matchLen: nat) returns (result: Result)
    requires job.Flows() && Emitted(job) && LastOk(job) && InView(job) && job.Idle()
    requires |job.whole| < Util.LONG_LIMIT && matchPos < Util.LONG_LIMIT
    requires 0 < matchLen <= job.scanLen - job.scanPos
    modifies job`writeLen, job`copyLen, job`sent, job`promised, job`scoopNext, job`scoopAvail, job`taken
    modifies job`scanBuf, job`scanLen, job`scanPos, job`basisPos, job`basisLen, job`stats, job`cmds
    modifies job.stream`nextIn, job.stream`out, job.stream`availOut, job.writeBuf
    ensures job.Flows() && Emitted(job) && LastOk(job)
    ensures Scanned(job) == old(Scanned(job)) + matchLen
    ensures var last := old(LastOf(job));
            if last.ExtendedBy(matchPos)
            then LastOf(job) == Match(last.pos, last.len + matchLen) && job.cmds == old(job.cmds)
            else LastOf(job) == Match(matchPos, matchLen)
                 && job.cmds == old(job.cmds) + Flush(job.whole, old(Scanned(job)), last)
    ensures result == (if job.Idle() then Done else Blocked)
    ensures result == Done ==> InView(job) && job.Pos() > old(job.Pos())
    ensures result == Blocked ==> job.stream.availOut == 0 && job.scanPos == LastOf(job).Span()
    ensures job.Onward()
    ensures job.scanPos <= matchLen
    ensures old(job.scoopAvail) == 0 ==> job.scoopAvail == 0
  {
    hide Job.Flows, Emitted, Flush, InView;
    if job.basisLen > 0 && job.basisPos + job.basisLen == matchPos {
      result := ExtendMatch(job, matchLen);
    } else {
      result := StartMatch(job, matchPos, matchLen);
    }
  }

  /** Append one missed byte, flushing a pending match or a literal that is full. */
  method AppendMiss(job: Job) returns (result: Result)
    requires job.Flows() && Emitted(job) && LastOk(job) && InView(job) && job.Idle()
    requires |job.whole| < Util.LONG_LIMIT && job.scanPos < job.scanLen
    modifies job`writeLen, job`copyLen, job`sent, job`promised, job`scoopNext, job`scoopAvail, job`taken
    modifies job`scanBuf, job`scanLen, job`scanPos, job`basisLen, job`stats, job`cmds
    modifies job.stream`nextIn, job.stream`out, job.stream`availOut, job.writeBuf
    ensures job.Flows() && Emitted(job) && LastOk(job)
    ensures Scanned(job) == old(Scanned(job)) + 1 && job.basisLen == 0
    ensures var last := old(LastOf(job));
            if last.Match? || last.count >= MAX_MISS_LEN
            then LastOf(job) == Miss(1) && job.cmds == old(job.cmds) + Flush(job.whole, old(Scanned(job)), last)
            else LastOf(job) == Miss(last.count + 1) && job.cmds == old(job.cmds)
    ensures result == (if job.Idle() then Done else Blocked)
    ensures result == Done ==> InView(job)
    ensures result == Blocked ==> job.stream.availOut == 0 && job.scanPos == LastOf(job).Span()
    ensures job.Onward()
    ensures old(job.stream.availOut > 0 && LastOf(job).Match?) ==> |job.sent| > |old(job.sent)|
    ensures old(job.scoopAvail) == 0 ==> job.scoopAvail == 0
  {
    hide Job.Flows, Emitted, Flush;
    result := Done;
    if job.basisLen > 0 || job.scanPos >= MAX_MISS_LEN {
      result := AppendFlush(job);
    }
    job.scanPos := job.scanPos + 1;
  }

  // ---- Looking for a match ----

  /** The weak sum, if there is one, covers exactly the window at position p, all of it supplied. */
  ghost predicate WeakAt(job: Job, p: int)
    requires job.signature != null && 0 <= p && job.signature.blockLen > 0
    reads job`taken, job`stream, job.stream`nextIn, job.signature, job.weakSum, job.weakSum.rs, job.weakSum.rk
  {
    var w := job.weakSum.Window();
    w == [] || (p < |job.whole| && w == Window(job.whole, p, job.signature.blockLen) && p + |w| <= job.Supply())
  }

  /** Sum the next block of what is ahead, or all of it if shorter, unless that has been done. */
  method SumAhead(sum: WeakSum, ahead: seq<byte>, blockLen: nat) returns (matchLen: nat)
    requires sum.Valid() && ahead != [] && blockLen > 0
    requires sum.Window() == [] || sum.Window() == ahead[..Min(blockLen, |ahead|)]
    modifies sum.rs, sum.rk
    ensures sum.Valid() && matchLen == Min(blockLen, |ahead|) && sum.Window() == ahead[..matchLen]
  {
    var count := sum.Count();
    if count == 0 {
      matchLen := |ahead|;
      if matchLen > blockLen {
        matchLen := blockLen;
      }
      sum.Update(ahead[..matchLen]);
      assert [] + ahead[..matchLen] == ahead[..matchLen];
    } else {
      matchLen := count;
    }
  }

  /** The window at the scan position, seen in the scan buffer. */
  lemma WindowAhead(job: Job, b: nat)
    requires InView(job) && 0 <= Scanned(job) && job.scanPos < job.scanLen && b > 0
    requires |Window(job.whole, Scanned(job), b)| == Min(b, job.scanLen - job.scanPos)
    ensures |job.scanBuf| == job.scanLen && Scanned(job) < job.Supply()
    ensures job.scanBuf[job.scanPos..][..Min(b, job.scanLen - job.scanPos)] == Window(job.whole, Scanned(job), b)
  {
    var n := Min(b, job.scanLen - job.scanPos);
    ViewTail(job, job.scanPos);
    SliceOfSlice(job.whole, Scanned(job), job.Supply(), 0, n);
  }

  // ---- The scan ----

  /** The job stands where the scanner is after as many steps. */
  ghost predicate Course(job: Job)
    reads job`taken, job`scoopAvail, job`copyLen, job`scanPos, job`basisPos, job`basisLen, job`cmds, job`steps
    reads job.signature
  {
    && job.signature != null && job.signature.blockLen > 0 && LastOk(job) && Scanned(job) <= |job.whole|
    && (job.basisLen > 0 ==> job.scanPos <= job.signature.blockLen)
    && Front(Scanned(job), LastOf(job), job.cmds) == After(job.signature.View(), job.whole, job.steps)
  }

  /** Output lags behind the scan by one step at most, and when it does, the scan has stopped at once. */
  ghost predicate Prompt(job: Job)
    requires Course(job)
    reads job`taken, job`scoopAvail, job`copyLen, job`writeLen, job`scanPos, job`basisPos, job`basisLen, job`cmds
    reads job`steps, job`sent, job.signature
  {
    && (!job.Idle() && job.steps > 0 ==> job.scanPos == LastOf(job).Span())
    && (job.steps > 0 ==>
          var cmds := After(job.signature.View(), job.whole, job.steps - 1).cmds;
          AllEncodable(cmds) && |Magic + EncodeAll(cmds)| <= |job.sent|)
  }

  /** Everything that holds while the job scans, but for the weak sum. */
  ghost predicate Standing(job: Job)
    reads job`stream, job`scoopBuf, job`scoopNext, job`scoopAvail, job`taken, job`writeLen, job`copyLen
    reads job`sent, job`promised, job`drained, job`cmds, job`steps, job`stats, job`scanPos, job`basisPos, job`basisLen
    reads job.stream, job.scoopBuf, job.writeBuf
    reads job.signature, job.SigObjects(), job.weakSum, job.weakSum.rs, job.weakSum.rk
  {
    job.Flows() && Emitted(job) && Ready(job) && Course(job) && Prompt(job) && Scanned(job) <= job.Supply()
  }

  /** What holds between any two calls while the job scans. */
  ghost predicate Scanning(job: Job)
    reads job`stream, job`scoopBuf, job`scoopNext, job`scoopAvail, job`taken, job`writeLen, job`copyLen
    reads job`sent, job`promised, job`drained, job`cmds, job`steps, job`stats, job`scanPos, job`basisPos, job`basisLen
    reads job.stream, job.scoopBuf, job.writeBuf
    reads job.signature, job.SigObjects(), job.weakSum, job.weakSum.rs, job.weakSum.rk
  {
    Standing(job) && WeakAt(job, Scanned(job))
  }

  /** Gather all the input at hand, or wait until there is a block and a full literal of it. */
  method GetInput(job: Job) returns (result: Result)
    requires job.Flows() && job.copyLen == 0 && Scanned(job) <= job.Supply()
    requires job.signature != null && job.signature.blockLen > 0
    modifies job`scanBuf, job`scanLen
    modifies job`scoopBuf, job`scoopNext, job`scoopAvail, job`taken, job.stream`nextIn, job.scoopBuf
    ensures job.Flows() && job.Pos() == old(job.Pos()) && job.Supply() == old(job.Supply())
    ensures result
            == if job.stream.eofIn || job.Avail() >= job.signature.blockLen + MAX_DELTA_CMD then Done else Blocked
    ensures result == Done ==> InView(job)
    ensures result == Done && old(job.scoopAvail) == 0 ==> job.scoopAvail == 0
    ensures result == Blocked ==> job.scoopAvail == job.Avail()
    ensures job.scoopAvail >= old(job.scoopAvail)
    ensures job.scoopBuf == old(job.scoopBuf) || fresh(job.scoopBuf)
  {
    hide Job.InOk, Job.OutOk;
    job.Bounds();
    var minLen := job.signature.blockLen + MAX_DELTA_CMD;
    job.scanLen := job.scoopAvail + |job.stream.nextIn|;
    if job.scanLen < minLen && !job.stream.eofIn {
      job.scanLen := minLen;
    }
    result, job.scanBuf := job.Readahead(job.scanLen);
    job.Bounds();
  }

  // ---- One step of either loop ----

  /** The job is ready to look at its next window: it is in view, and nothing is waiting to go out. */
  ghost predicate Poised(job: Job)
    reads job`stream, job`scoopBuf, job`scoopNext, job`scoopAvail, job`taken, job`writeLen, job`copyLen
    reads job`sent, job`promised, job`drained, job`cmds, job`steps, job`stats
    reads job`scanPos, job`scanLen, job`scanBuf, job`basisPos, job`basisLen
    reads job.stream, job.scoopBuf, job.writeBuf
    reads job.signature, job.SigObjects(), job.weakSum, job.weakSum.rs, job.weakSum.rk
  {
    Standing(job) && InView(job) && job.Idle() && job.scanPos < job.scanLen
  }

  /** What it takes to look at the next window. */
  lemma Here(job: Job)
    requires Standing(job)
    ensures job.signature != null && job.Flows() && Emitted(job) && Ready(job) && LastOk(job)
    ensures Scanned(job) <= job.Supply() <= |job.whole| && 0 < job.signature.blockLen
    ensures Sized(job.signature.View(), job.whole)
    ensures Front(Scanned(job), LastOf(job), job.cmds) == After(job.signature.View(), job.whole, job.steps)
    ensures job.stream.eofIn ==> job.Supply() == |job.whole|
    ensures job.basisLen > 0 ==> job.scanPos <= job.signature.blockLen
    ensures job.writeBuf !in job.SigObjects() && job.scoopBuf !in job.SigObjects()
    ensures job.weakSum.rs !in job.SigObjects() && job.weakSum.rk !in job.SigObjects()
  {
    hide Job.InOk, Job.OutOk, Emitted, Signature.Indexed, Window, EncodeAll, AllEncodable, LastOk, After;
    job.Bounds();
  }

  lemma Ahead(job: Job)
    requires job.Flows() && InView(job) && job.scanPos < job.scanLen
    ensures 0 <= Start(job) <= Scanned(job) && job.Supply() <= |job.whole|
    ensures job.Supply() - Scanned(job) == job.scanLen - job.scanPos
  {
    job.Bounds();
  }

  /** With the tube idle, everything promised has been sent. */
  lemma AllSent(job: Job)
    requires job.Flows() && job.Idle() && Emitted(job)
    ensures AllEncodable(job.cmds) && job.sent == Magic + EncodeAll(job.cmds)
  {
    job.PromisedWithoutCopy(job.Pos(), job.Pos());
  }

  /** The next stage, when the window matches. */
  lemma NextMatch(sig: SigView, file: seq<byte>, f: Front, m: nat)
    requires sig.params.blockLen > 0 && f.last.Span() <= f.p < |file|
    requires sig.Match(Window(file, f.p, sig.params.blockLen)) == m
    ensures var len := |Window(file, f.p, sig.params.blockLen)|;
            f.Next(sig, file) == if f.last.ExtendedBy(m)
                                 then Front(f.p + len, Match(f.last.pos, f.last.len + len), f.cmds)
                                 else Front(f.p + len, Match(m, len), f.cmds + Flush(file, f.p, f.last))
  {
  }

  /** The next stage, when it does not. */
  lemma NextMiss(sig: SigView, file: seq<byte>, f: Front)
    requires sig.params.blockLen > 0 && f.last.Span() <= f.p < |file|
    requires sig.Match(Window(file, f.p, sig.params.blockLen)) == -1
    ensures f.Next(sig, file) == if f.last.Match? || f.last.count >= MAX_MISS_LEN
                                 then Front(f.p + 1, Miss(1), f.cmds + Flush(file, f.p, f.last))
                                 else Front(f.p + 1, Miss(f.last.count + 1), f.cmds)
  {
  }

  /** The job has reached the next stage, and its output is at most that one step behind. */
  lemma Arrive(job: Job, n: nat)
    requires job.Flows() && Emitted(job) && Ready(job) && LastOk(job)
    requires Scanned(job) <= job.Supply() && job.steps == n + 1
    requires var f := After(job.signature.View(), job.whole, n);
             && f.p < |job.whole| && AllEncodable(f.cmds) && |Magic + EncodeAll(f.cmds)| <= |job.sent|
             && Front(Scanned(job), LastOf(job), job.cmds) == f.Next(job.signature.View(), job.whole)
    requires !job.Idle() ==> job.scanPos == LastOf(job).Span()
    requires job.basisLen > 0 ==> job.scanPos <= job.signature.blockLen
    ensures Standing(job)
  {
    hide Front.Next, Job.Flows, Emitted, Window, AllEncodable, EncodeAll, LastOk, BigEndian, Signature.Indexed;
  }

  /** Forget the weak sum. */
  method ResetSum(job: Job)
    requires Standing(job)
    modifies job.weakSum.rs, job.weakSum.rk
    ensures Scanning(job)
  {
    hide Signature.Indexed, Sized, Job.Flows, Emitted, LastOk, After, EncodeAll, AllEncodable, BigEndian, Window;
    job.weakSum.Reset();
  }

  /** Append the match found at the scan position. */
  method TakeMatch(job: Job, matchPos: nat, matchLen: nat) returns (result: Result)
    requires Poised(job) && job.weakSum.Window() == Window(job.whole, Scanned(job), job.signature.blockLen)
    requires matchPos == job.signature.View().Match(job.weakSum.Window()) && matchLen == |job.weakSum.Window()|
    requires matchLen <= job.scanLen - job.scanPos
    modifies job`writeLen, job`copyLen, job`sent, job`promised, job`scoopNext, job`scoopAvail, job`taken
    modifies job`scanBuf, job`scanLen, job`scanPos, job`basisPos, job`basisLen, job`stats, job`cmds, job`steps
    modifies job.stream`nextIn, job.stream`out, job.stream`availOut, job.writeBuf
    ensures Standing(job) && job.Onward() && job.steps == old(job.steps) + 1
    ensures Scanned(job) == old(Scanned(job)) + matchLen
    ensures result == (if job.Idle() then Done else Blocked)
    ensures result == Done ==> InView(job) && job.Pos() > old(job.Pos())
    ensures result == Blocked ==> job.stream.availOut == 0
    ensures old(job.scoopAvail) == 0 ==> job.scoopAvail == 0
  {
    hide Job.Flows, Emitted, Flush, InView, SigView.Match, LastOk, EncodeAll, AllEncodable, BigEndian, Window;
    hide Front.Next, After, Standing, Ready, Course, Prompt, Advance;
    Here(job);
    Ahead(job);
    ghost var sig, n := job.signature.View(), job.steps;
    MatchOffset(sig, job.weakSum.Window());
    NextMatch(sig, job.whole, After(sig, job.whole, n), matchPos);
    AllSent(job);
    result := AppendMatch(job, matchPos, matchLen);
    job.steps := job.steps + 1;
    Arrive(job, n);
  }

  /** Bring the weak sum up to date with the window at the scan position. */
  method SumWindow(job: Job) returns (matchLen: nat)
    requires Poised(job) && WeakAt(job, Scanned(job))
    requires |Window(job.whole, Scanned(job), job.signature.blockLen)|
             == Min(job.signature.blockLen, job.scanLen - job.scanPos)
    modifies job.weakSum.rs, job.weakSum.rk
    ensures Poised(job) && job.weakSum.Window() == Window(job.whole, Scanned(job), job.signature.blockLen)
    ensures matchLen == |job.weakSum.Window()|
    ensures job.scanPos <= |job.scanBuf| && matchLen <= |job.scanBuf[job.scanPos..]|
    ensures job.scanBuf[job.scanPos..][..matchLen] == job.weakSum.Window()
  {
    hide Signature.Indexed, Window, InView, Job.Flows, Emitted, LastOk, After, Course, Prompt, Sized;
    Here(job);
    Ahead(job);
    WindowAhead(job, job.signature.blockLen);
    matchLen := SumAhead(job.weakSum, job.scanBuf[job.scanPos..], job.signature.blockLen);
  }

  /** Look up the string that a weak sum stands for. */
  method LookUp(sig: Signature, sum: WeakSum, buf: seq<byte>) returns (matchPos: int)
    requires sig.Indexed() && sum.Valid() && sum.kind == sig.View().params.WeakKind() && buf == sum.Window()
    ensures matchPos == sig.View().Match(buf)
  {
    hide SigView.Lookup, WeakDigest, Hashtable.Valid, IndexesFirst, SigView.Ok;
    var digest := sum.Digest();
    matchPos := sig.FindMatch(digest, buf);
  }

  /** Look the window at the scan position up. */
  method FindMatch(job: Job) returns (matchPos: int, matchLen: nat)
    requires Poised(job) && WeakAt(job, Scanned(job))
    requires |Window(job.whole, Scanned(job), job.signature.blockLen)|
             == Min(job.signature.blockLen, job.scanLen - job.scanPos)
    modifies job.weakSum.rs, job.weakSum.rk
    ensures Poised(job) && job.weakSum.Window() == Window(job.whole, Scanned(job), job.signature.blockLen)
    ensures matchLen == |job.weakSum.Window()|
    ensures matchPos == job.signature.View().Match(job.weakSum.Window())
  {
    hide SigView.Match, Signature.Indexed, Window, InView, Standing, WeakDigest, Sized;
    matchLen := SumWindow(job);
    Here(job);
    matchPos := LookUp(job.signature, job.weakSum, job.scanBuf[job.scanPos..][..matchLen]);
  }

  /** The window one byte on. */
  lemma Slid(file: seq<byte>, p: nat, b: nat)
    requires p < |file| && b > 0
    ensures var w := Window(file, p, b);
            && w[0] == file[p]
            && (p + b < |file| ==> w[1..] + [file[p + b]] == Window(file, p + 1, b))
            && (p + b >= |file| ==> w[1..] == Window(file, p + 1, b))
  {
  }

  /** A byte in view. */
  lemma Seen(job: Job, k: nat)
    requires InView(job) && job.scanPos + k < job.scanLen
    ensures |job.scanBuf| == job.scanLen && job.scanBuf[job.scanPos + k] == job.whole[Scanned(job) + k]
  {
  }

  /** Move the weak sum on by a byte, while a full block is ahead. */
  method RotateSum(job: Job)
    requires Poised(job) && job.scanPos + job.signature.blockLen < job.scanLen
    requires job.weakSum.Window() == Window(job.whole, Scanned(job), job.signature.blockLen)
    modifies job.weakSum.rs, job.weakSum.rk
    ensures Poised(job) && WeakAt(job, Scanned(job) + 1)
  {
    hide Job.Flows, Emitted, Signature.Indexed, Signature.Valid, LastOk, Window, After, EncodeAll, AllEncodable;
    hide BigEndian;
    hide Course, Prompt, Sized;
    Here(job);
    Ahead(job);
    Slid(job.whole, Scanned(job), job.signature.blockLen);
    Seen(job, 0);
    Seen(job, job.signature.blockLen);
    job.weakSum.Rotate(job.scanBuf[job.scanPos], job.scanBuf[job.scanPos + job.signature.blockLen]);
  }

  /** Shrink the weak sum by a byte, when no more than a block is left of the whole input. */
  method RolloutSum(job: Job)
    requires Poised(job) && job.Supply() == |job.whole| <= Scanned(job) + job.signature.blockLen
    requires job.weakSum.Window() == Window(job.whole, Scanned(job), job.signature.blockLen)
    modifies job.weakSum.rs, job.weakSum.rk
    ensures Poised(job) && WeakAt(job, Scanned(job) + 1)
  {
    hide Job.Flows, Emitted, Signature.Indexed, Signature.Valid, LastOk, Window, After, EncodeAll, AllEncodable;
    hide BigEndian;
    hide Course, Prompt, Sized;
    Here(job);
    Ahead(job);
    Slid(job.whole, Scanned(job), job.signature.blockLen);
    Seen(job, 0);
    job.weakSum.Rollout(job.scanBuf[job.scanPos]);
  }

  /** The miss branch, once the weak sum has been moved on. */
  method TakeMiss(job: Job) returns (result: Result)
    requires Poised(job) && WeakAt(job, Scanned(job) + 1)
    requires job.signature.View().Match(Window(job.whole, Scanned(job), job.signature.blockLen)) == -1
    modifies job`writeLen, job`copyLen, job`sent, job`promised, job`scoopNext, job`scoopAvail, job`taken
    modifies job`scanBuf, job`scanLen, job`scanPos, job`basisLen, job`stats, job`cmds, job`steps
    modifies job.stream`nextIn, job.stream`out, job.stream`availOut, job.writeBuf
    ensures Scanning(job) && job.Onward() && job.steps == old(job.steps) + 1
    ensures Scanned(job) == old(Scanned(job)) + 1 && job.basisLen == 0
    ensures result == (if job.Idle() then Done else Blocked)
    ensures result == Done ==> InView(job)
    ensures result == Blocked ==> job.stream.availOut == 0
    ensures old(job.stream.availOut > 0 && LastOf(job).Match?) ==> |job.sent| > |old(job.sent)|
    ensures old(job.scoopAvail) == 0 ==> job.scoopAvail == 0
  {
    hide Job.Flows, Emitted, Flush, InView, SigView.Match, LastOk, EncodeAll, AllEncodable, BigEndian, Window;
    hide Front.Next, After, Standing, Ready;
    Here(job);
    Ahead(job);
    ghost var sig, n := job.signature.View(), job.steps;
    NextMiss(sig, job.whole, After(sig, job.whole, n));
    AllSent(job);
    result := AppendMiss(job);
    job.steps := job.steps + 1;
    Arrive(job, n);
  }

  lemma LeftBehind(job: Job, p: int)
    requires job.signature != null && job.signature.blockLen > 0 && job.steps > 0
    requires After(job.signature.View(), job.whole, job.steps - 1).p == p && p + job.signature.blockLen < job.Supply()
    ensures Behind(job)
  {
    hide After;
  }

  /** One turn of the scan loop: look the next block up, and append the match or a missed byte. */
  method ScanStep(job: Job) returns (result: Result)
    requires Poised(job) && WeakAt(job, Scanned(job)) && job.scanPos + job.signature.blockLen < job.scanLen
    modifies job`writeLen, job`copyLen, job`sent, job`promised, job`scoopNext, job`scoopAvail, job`taken
    modifies job`scanBuf, job`scanLen, job`scanPos, job`basisPos, job`basisLen, job`stats, job`cmds, job`steps
    modifies job.stream`nextIn, job.stream`out, job.stream`availOut, job.writeBuf, job.weakSum.rs, job.weakSum.rk
    ensures Scanning(job) && job.Onward() && job.steps == old(job.steps) + 1 && Scanned(job) > old(Scanned(job))
    ensures Behind(job)
    ensures result == (if job.Idle() then Done else Blocked)
    ensures result == Done ==> InView(job)
    ensures result == Blocked ==> job.stream.availOut == 0
    ensures old(job.stream.availOut) > 0 && |job.sent| == |old(job.sent)| && job.Pos() == old(job.Pos())
            ==> job.basisLen == 0
    ensures old(job.scoopAvail) == 0 ==> job.scoopAvail == 0
  {
    hide Job.Flows, Emitted, InView, SigView.Match, LastOk, Standing, Ready, Behind, After, Sized, Window;
    Here(job);
    Ahead(job);
    ghost var p := Scanned(job);
    var matchPos, matchLen := FindMatch(job);
    if matchPos != -1 {
      result := TakeMatch(job, matchPos, matchLen);
      ResetSum(job);
    } else {
      RotateSum(job);
      result := TakeMiss(job);
    }
    LeftBehind(job, p);
  }

  /** One turn of the flush loop: look all that is left up, and append the match or a missed byte. */
  method FlushStep(job: Job) returns (result: Result)
    requires Poised(job) && WeakAt(job, Scanned(job))
    requires job.Supply() == |job.whole| <= Scanned(job) + job.signature.blockLen
    modifies job`writeLen, job`copyLen, job`sent, job`promised, job`scoopNext, job`scoopAvail, job`taken
    modifies job`scanBuf, job`scanLen, job`scanPos, job`basisPos, job`basisLen, job`stats, job`cmds, job`steps
    modifies job.stream`nextIn, job.stream`out, job.stream`availOut, job.writeBuf, job.weakSum.rs, job.weakSum.rk
    ensures Scanning(job) && job.Onward() && job.steps == old(job.steps) + 1 && Scanned(job) > old(Scanned(job))
    ensures result == (if job.Idle() then Done else Blocked)
    ensures result == Done ==> InView(job)
    ensures result == Blocked ==> job.stream.availOut == 0
    ensures old(job.scoopAvail) == 0 ==> job.scoopAvail == 0
  {
    hide Job.Flows, Emitted, InView, SigView.Match, LastOk, Standing, Ready, Behind, After, Sized, Window;
    Here(job);
    Ahead(job);
    var matchPos, matchLen := FindMatch(job);
    if matchPos != -1 {
      result := TakeMatch(job, matchPos, matchLen);
      ResetSum(job);
    } else {
      RolloutSum(job);
      result := TakeMiss(job);
    }
  }

  // ---- The state functions ----

  /** What holds once everything has been emitted. */
  ghost predicate Finished(job: Job)
    reads job`cmds, job`taken, job`scoopAvail, job`copyLen
    reads job`stream, job.stream`nextIn, job.stream`eofIn, job.signature
  {
    && Start(job) == job.Supply() == |job.whole| && job.stream.eofIn
    && if job.signature != null
       then Sized(job.signature.View(), job.whole) && job.cmds == Delta(job.signature.View(), job.whole)
       else InBasis([], job.cmds) && Apply([], job.cmds) == job.whole
  }

  /** The delta is complete, with the end command. */
  ghost predicate Ended(job: Job)
    reads job`promised, job`cmds, job`stats
  {
    AllEncodable(job.cmds) && job.promised == DeltaBytes(job.cmds) && job.stats == Tally(job.cmds)
  }

  /** Nothing has happened yet. */
  ghost predicate Beginning(job: Job)
    reads job`stream, job`scoopBuf, job`scoopNext, job`scoopAvail, job`taken, job`writeLen, job`copyLen
    reads job`sent, job`promised, job`drained, job`cmds, job`steps, job`stats, job`scanPos, job`basisLen
    reads job.stream, job.scoopBuf, job.writeBuf
    reads job.signature, job.SigObjects(), job.weakSum, job.weakSum.rs, job.weakSum.rk
  {
    && job.Flows() && job.Idle() && job.promised == [] && job.cmds == [] && job.stats == NoStats
    && job.Pos() == job.scoopAvail == job.scanPos == job.basisLen == job.steps == 0
    && if job.signature == null then |job.whole| < INT_LIMIT else Ready(job) && job.weakSum.Window() == []
  }

  /** Without a signature, literals of all the input so far. */
  ghost predicate Slack(job: Job)
    reads job`stream, job`scoopBuf, job`scoopNext, job`scoopAvail, job`taken, job`writeLen, job`copyLen
    reads job`sent, job`promised, job`drained, job`cmds, job`stats, job.stream, job.scoopBuf, job.writeBuf
  {
    && job.signature == null && |job.whole| < INT_LIMIT
    && job.Flows() && Emitted(job) && job.scoopAvail == 0 && 0 <= Start(job) <= job.Supply()
    && InBasis([], job.cmds) && Apply([], job.cmds) == job.whole[..Start(job)]
  }

  /** The scan loop has only made steps that left more than a block of input ahead of them. */
  ghost predicate Behind(job: Job)
    requires job.signature != null && job.signature.blockLen > 0
    reads job`steps, job`taken, job`stream, job.stream`nextIn, job.signature
  {
    job.steps > 0 ==>
      After(job.signature.View(), job.whole, job.steps - 1).p + job.signature.blockLen < job.Supply()
  }

  /**
   How a scan rests when it is blocked: for want of room, or for want of input. Unless it makes a
   step, it leaves the scan position alone, and it leaves a large buffer to the caller.
   */
  twostate predicate Paces(job: Job, result: Result)
    reads job, job.stream, job.signature
  {
    job.statefn in {DeltaHeader, DeltaScan} && job.signature != null ==>
      && old(job.statefn) in {DeltaHeader, DeltaScan} && job.steps >= old(job.steps)
      && (job.steps == old(job.steps) ==> job.scanPos == old(job.scanPos))
      && (old(job.scoopAvail) == 0 ==>
            job.scoopAvail == 0 || job.Avail() < job.signature.blockLen + MAX_DELTA_CMD)
      && (job.statefn == DeltaScan && result == Blocked ==>
            if job.Idle() then job.Avail() < job.signature.blockLen + MAX_DELTA_CMD
                               || job.Supply() <= Scanned(job) + job.signature.blockLen
            else job.stream.availOut == 0)
  }

  /** What a delta job keeps between state functions, in state fn. */
  ghost predicate DeltaInv(job: Job, fn: StateFn)
    reads job`stream, job`scoopBuf, job`scoopNext, job`scoopAvail, job`taken, job`writeLen, job`copyLen
    reads job`sent, job`promised, job`drained, job`cmds, job`steps, job`stats, job`scanPos, job`basisPos, job`basisLen
    reads job.stream, job.scoopBuf, job.writeBuf
    reads job.signature, job.SigObjects(), job.weakSum, job.weakSum.rs, job.weakSum.rk
  {
    match fn
    case DeltaHeader => Beginning(job)
    case DeltaScan => Scanning(job) && Behind(job)
    case DeltaFlush =>
      Scanning(job) && job.stream.eofIn && |job.whole| <= Scanned(job) + job.signature.blockLen
    case DeltaSlack => Slack(job)
    case DeltaEnd => job.Flows() && Emitted(job) && Finished(job)
    case Null => job.Flows() && Ended(job) && Finished(job)
    case _ => false
  }

  /** Moving input and output along does not move the scan. */
  twostate lemma Unmoved(job: Job)
    requires old(job.signature != null && Course(job) && Prompt(job) && job.Flows())
    requires Start(job) == old(Start(job)) && job.signature.View() == old(job.signature.View())
    requires unchanged(job`scanPos) && unchanged(job`basisPos) && unchanged(job`basisLen)
    requires unchanged(job`cmds) && unchanged(job`steps)
    requires |job.sent| >= |old(job.sent)| && (job.Idle() || old(!job.Idle()))
    ensures LastOk(job) && Course(job) && Prompt(job) && Scanned(job) == old(Scanned(job))
  {
    hide Job.Flows, After, Emittable, EncodeAll, AllEncodable, BigEndian;
  }

  twostate lemma StillAhead(job: Job)
    requires old(Scanning(job)) && job.signature != null && job.signature.View() == old(job.signature.View())
    requires job.Supply() == old(job.Supply()) && job.weakSum.Window() == old(job.weakSum.Window())
    requires Scanned(job) == old(Scanned(job)) && unchanged(job`steps)
    ensures 0 <= Scanned(job) && 0 < job.signature.blockLen && WeakAt(job, Scanned(job))
    ensures old(Behind(job)) ==> Behind(job)
  {
    hide Job.Flows, Emitted, Ready, Prompt, After, Window, AllEncodable, EncodeAll;
  }

  /** Gathering input does not disturb a scan. */
  method Gather(job: Job) returns (result: Result)
    requires Scanning(job) && job.Idle()
    modifies job`scoopBuf, job`scoopNext, job`scoopAvail, job`taken, job`scanBuf, job`scanLen
    modifies job.stream`nextIn, job.scoopBuf
    ensures Scanning(job) && job.Supply() == old(job.Supply())
    ensures job.Pos() == old(job.Pos()) && job.taken >= old(job.taken)
    ensures result
            == if job.stream.eofIn || job.Avail() >= job.signature.blockLen + MAX_DELTA_CMD then Done else Blocked
    ensures old(Behind(job)) ==> Behind(job)
    ensures result == Done ==> InView(job)
    ensures result == Done && old(job.scoopAvail) == 0 ==> job.scoopAvail == 0
    ensures result == Blocked ==> |job.stream.nextIn| == 0
    ensures job.scoopBuf == old(job.scoopBuf) || fresh(job.scoopBuf)
  {
    hide Job.InOk, Job.OutOk, Emitted, Window, After, EncodeAll, AllEncodable, BigEndian, Signature.Indexed, Sized;
    hide Course, Prompt, WeakAt, Behind, LastOk, InView;
    Here(job);
    result := GetInput(job);
    job.Bounds();
    Unmoved(job);
    StillAhead(job);
  }

  /** How both loops begin: catch up, and gather the input at hand. */
  method Resume(job: Job) returns (result: Result)
    requires Scanning(job) && job.Idle()
    modifies job`writeLen, job`copyLen, job`sent, job`scoopBuf, job`scoopNext, job`scoopAvail, job`taken
    modifies job`scanBuf, job`scanLen, job.stream`nextIn, job.stream`out, job.stream`availOut
    modifies job.scoopBuf, job.writeBuf
    ensures Scanning(job) && job.Idle() && job.Supply() == old(job.Supply()) && job.Pos() == old(job.Pos())
    ensures job.sent == old(job.sent) && job.stream.availOut == old(job.stream.availOut) && job.taken >= old(job.taken)
    ensures result
            == if job.stream.eofIn || job.Avail() >= job.signature.blockLen + MAX_DELTA_CMD then Done else Blocked
    ensures old(Behind(job)) ==> Behind(job)
    ensures result == Done ==> InView(job)
    ensures result == Done && old(job.scoopAvail) == 0 ==> job.scoopAvail == 0
    ensures result == Blocked ==> |job.stream.nextIn| == 0
    ensures job.scoopBuf == old(job.scoopBuf) || fresh(job.scoopBuf)
  {
    hide Job.Flows, Standing, WeakAt, Behind, InView, Sized, After, Emitted, Ready, LastOk, Job.Due, Job.Progressed;
    result := CatchupScanning(job);
    Here(job);
    result := Gather(job);
  }

  /** Where the scan loop stops for want of input. */
  lemma Exhausted(job: Job)
    requires Scanning(job) && InView(job) && job.scanLen <= job.scanPos + job.signature.blockLen
    ensures job.Supply() <= Scanned(job) + job.signature.blockLen
    ensures job.stream.eofIn ==> |job.whole| <= Scanned(job) + job.signature.blockLen
    ensures job.basisLen == 0 ==> job.scanPos <= MAX_MISS_LEN
    ensures job.scanLen == job.Avail() == job.scoopAvail + |job.stream.nextIn|
  {
    hide Emitted, Ready, After, Window, Prompt;
    job.Bounds();
  }

  /** The scan loop: while output is not blocked, and there is more than a block ahead. */
  method ScanBlocks(job: Job) returns (result: Result)
    requires Scanning(job) && Behind(job) && InView(job) && job.Idle()
    modifies job`writeLen, job`copyLen, job`sent, job`promised, job`scoopNext, job`scoopAvail, job`taken
    modifies job`scanBuf, job`scanLen, job`scanPos, job`basisPos, job`basisLen, job`stats, job`cmds, job`steps
    modifies job.stream`nextIn, job.stream`out, job.stream`availOut, job.writeBuf, job.weakSum.rs, job.weakSum.rk
    ensures Scanning(job) && Behind(job) && job.Onward() && job.steps >= old(job.steps)
    ensures job.steps == old(job.steps) ==> job.scanPos == old(job.scanPos)
    ensures result == if job.Idle() then Done else Blocked
    ensures result == Blocked ==> job.stream.availOut == 0
    ensures result == Done ==> InView(job) && job.scanLen <= job.scanPos + job.signature.blockLen
    ensures result == Done ==> job.Supply() <= Scanned(job) + job.signature.blockLen
    ensures result == Done && job.stream.eofIn ==> |job.whole| <= Scanned(job) + job.signature.blockLen
    ensures result == Done && |job.sent| == |old(job.sent)| && job.Pos() == old(job.Pos())
            ==> old(job.stream.availOut) == 0 || job.scanPos == old(job.scanPos) || job.scanPos <= MAX_MISS_LEN
    ensures old(job.scanLen <= job.scanPos + job.signature.blockLen)
            ==> result == Done && job.Pos() == old(job.Pos()) && job.sent == old(job.sent)
    ensures old(job.scoopAvail) == 0 ==> job.scoopAvail == 0
  {
    hide Standing, WeakAt, LastOk, Emitted, Ready, SigView.Match, Job.Flows;
    Here(job);
    result := Done;
    while result == Done && job.scanPos + job.signature.blockLen < job.scanLen
      invariant Scanning(job) && Behind(job) && job.Onward() && job.steps >= old(job.steps)
      invariant job.steps == old(job.steps) ==> job.scanPos == old(job.scanPos)
      invariant result == if job.Idle() then Done else Blocked
      invariant result == Done ==> InView(job)
      invariant result == Blocked ==> job.stream.availOut == 0
      invariant old(job.stream.availOut) > 0 && |job.sent| == |old(job.sent)| && job.Pos() == old(job.Pos())
                ==> job.scanPos == old(job.scanPos) || job.basisLen == 0
      invariant old(job.scanLen <= job.scanPos + job.signature.blockLen)
                ==> job.scanLen <= job.scanPos + job.signature.blockLen
                    && result == Done && job.Pos() == old(job.Pos()) && job.sent == old(job.sent)
      invariant Scanned(job) <= |job.whole|
      invariant old(job.scoopAvail) == 0 ==> job.scoopAvail == 0
      decreases |job.whole| - Scanned(job)
    {
      result := ScanStep(job);
      Here(job);
    }
    if result == Done {
      Exhausted(job);
    }
  }

  /** Unless it is stalled, a scan that wants more input has got something done. */
  twostate lemma WaitsForInput(job: Job)
    requires old(job.Idle() && job.signature != null && job.statefn == DeltaScan)
    requires job.Onward() && job.stream.eofIn == old(job.stream.eofIn) == false && job.statefn == DeltaScan
    requires job.signature.blockLen == old(job.signature.blockLen)
    requires old(job.Avail()) >= job.signature.blockLen + MAX_DELTA_CMD
    requires InView(job) && job.scanLen <= job.scanPos + job.signature.blockLen
    requires (old(job.scoopAvail) == 0 && job.scoopAvail == 0) || |old(job.stream.nextIn)| == 0 || job.Progressed()
    requires old(job.stream.availOut) > 0 && |job.sent| == |old(job.sent)| && job.Pos() == old(job.Pos())
             ==> job.scanPos == old(job.scanPos) || job.scanPos <= MAX_MISS_LEN
    ensures job.Stepped(Blocked)
  {
  }

  /** The pace of a scan that has made steps, or has gathered too little input for one. */
  twostate lemma Paced(job: Job)
    requires old(job.statefn) == DeltaScan && job.statefn == DeltaScan && job.signature != null
    requires job.steps >= old(job.steps) && (job.steps == old(job.steps) ==> job.scanPos == old(job.scanPos))
    requires (old(job.scoopAvail) == 0 ==> job.scoopAvail == 0)
             || job.Avail() < job.signature.blockLen + MAX_DELTA_CMD
    requires if job.Idle() then job.Avail() < job.signature.blockLen + MAX_DELTA_CMD
                                || job.Supply() <= Scanned(job) + job.signature.blockLen
             else job.stream.availOut == 0
    ensures Paces(job, Blocked)
  {
  }

  /** With the input in view, either it was all in the caller's buffer, or some has been taken. */
  twostate lemma Gathered(job: Job)
    requires old(job.Idle() && job.signature != null) && InView(job) && job.stream.eofIn == old(job.stream.eofIn)
    requires job.Supply() == old(job.Supply()) && job.Pos() == old(job.Pos()) && job.taken >= old(job.taken)
    requires old(job.scoopAvail) == 0 ==> job.scoopAvail == 0
    requires job.scanPos == old(job.scanPos) && job.signature.blockLen == old(job.signature.blockLen)
    ensures (old(job.scoopAvail) == 0 && job.scoopAvail == 0) || |old(job.stream.nextIn)| == 0 || job.Progressed()
    ensures old(job.Stalled()) ==> job.scanLen <= job.scanPos + job.signature.blockLen
  {
  }

  /** All of the scan state but its last decision. */
  method ScanInput(job: Job) returns (result: Result)
    requires job.statefn == DeltaScan && Scanning(job) && Behind(job) && job.Idle()
    modifies job`writeLen, job`copyLen, job`sent, job`promised, job`scoopBuf, job`scoopNext, job`scoopAvail, job`taken
    modifies job`scanBuf, job`scanLen, job`scanPos, job`basisPos, job`basisLen, job`stats, job`cmds, job`steps
    modifies job.stream`nextIn, job.stream`out, job.stream`availOut
    modifies job.scoopBuf, job.writeBuf, job.weakSum.rs, job.weakSum.rk
    ensures Scanning(job) && Behind(job) && job.Onward() && Paces(job, Blocked)
    ensures result == Done && job.stream.eofIn ==> |job.whole| <= Scanned(job) + job.signature.blockLen
    ensures result in {Done, Blocked} && (result == Blocked || !job.stream.eofIn ==> job.Stepped(Blocked))
    ensures old(job.Stalled()) ==> result == Done && !job.Progressed()
    ensures job.scoopBuf == old(job.scoopBuf) || fresh(job.scoopBuf)
  {
    hide Standing, WeakAt, LastOk, Emitted, Ready, SigView.Match, Job.Flows, Job.Stepped, Behind, After, Sized, Paces;
    hide InView;
    Here(job);
    result := Resume(job);
    if result != Done {
      job.Blocks();
      Paced(job);
      return;
    }
    Gathered(job);
    result := ScanBlocks(job);
    if result != Done {
      job.Blocks();
    } else if !job.stream.eofIn {
      WaitsForInput(job);
    }
    Paced(job);
  }

  lemma InScan(job: Job)
    requires DeltaInv(job, DeltaScan)
    ensures job.signature != null && Scanning(job) && job.signature.blockLen > 0 && Behind(job)
  {
    hide Standing, WeakAt, Behind;
    Here(job);
  }

  lemma ScanGoesOn(job: Job)
    requires Scanning(job) && job.signature != null && job.signature.blockLen > 0 && Behind(job)
    ensures DeltaInv(job, DeltaScan)
    ensures job.stream.eofIn && |job.whole| <= Scanned(job) + job.signature.blockLen ==> DeltaInv(job, DeltaFlush)
  {
    hide Standing, WeakAt, Behind;
  }

  method RunScan(job: Job) returns (result: Result)
    requires job.statefn == DeltaScan && DeltaInv(job, DeltaScan) && job.Idle()
    modifies job`writeLen, job`copyLen, job`sent, job`promised, job`scoopBuf, job`scoopNext, job`scoopAvail, job`taken
    modifies job`scanBuf, job`scanLen, job`scanPos, job`basisPos, job`basisLen, job`stats, job`cmds, job`steps
    modifies job`statefn, job.stream`nextIn, job.stream`out, job.stream`availOut
    modifies job.scoopBuf, job.writeBuf, job.weakSum.rs, job.weakSum.rk
    ensures DeltaInv(job, job.statefn) && job.Stepped(result) && result in {Running, Blocked}
    ensures Paces(job, result)
    ensures old(job.Stalled()) ==> result == Blocked && !job.Progressed()
    ensures job.scoopBuf == old(job.scoopBuf) || fresh(job.scoopBuf)
  {
    hide DeltaInv, Job.Stepped, Scanning;
    ghost var sums := job.SigObjects();
    InScan(job);
    result := ScanInput(job);
    ScanGoesOn(job);
    if result == Done {
      if job.stream.eofIn {
        job.statefn := DeltaFlush;
        assert job.SigObjects() == sums;
        job.GoesOn();
        result := Running;
      } else {
        result := Blocked;
      }
    }
  }

  /** The flush loop: while output is not blocked, and there is anything ahead. */
  method FlushBlocks(job: Job) returns (result: Result)
    requires Scanning(job) && InView(job) && job.Idle()
    requires job.Supply() == |job.whole| <= Scanned(job) + job.signature.blockLen
    modifies job`writeLen, job`copyLen, job`sent, job`promised, job`scoopNext, job`scoopAvail, job`taken
    modifies job`scanBuf, job`scanLen, job`scanPos, job`basisPos, job`basisLen, job`stats, job`cmds, job`steps
    modifies job.stream`nextIn, job.stream`out, job.stream`availOut, job.writeBuf, job.weakSum.rs, job.weakSum.rk
    ensures Scanning(job) && job.Onward() && |job.whole| <= Scanned(job) + job.signature.blockLen
    ensures result == if job.Idle() then Done else Blocked
    ensures result == Blocked ==> job.stream.availOut == 0
    ensures result == Done ==> InView(job) && job.scanLen <= job.scanPos
  {
    hide Standing, WeakAt, LastOk, Emitted, Ready, SigView.Match, Job.Flows;
    Here(job);
    result := Done;
    while result == Done && job.scanPos < job.scanLen
      invariant Scanning(job) && job.Onward() && |job.whole| <= Scanned(job) + job.signature.blockLen
      invariant result == if job.Idle() then Done else Blocked
      invariant result == Done ==> InView(job)
      invariant result == Blocked ==> job.stream.availOut == 0
      invariant Scanned(job) <= |job.whole|
      decreases |job.whole| - Scanned(job)
    {
      result := FlushStep(job);
      Here(job);
    }
  }

  /** With all the input scanned, only what is pending is missing from the delta. */
  lemma AllScanned(job: Job)
    requires Standing(job) && job.Supply() == |job.whole| && InView(job) && job.scanLen <= job.scanPos
    ensures Scanned(job) == |job.whole|
    ensures job.cmds + Flush(job.whole, Scanned(job), LastOf(job)) == Delta(job.signature.View(), job.whole)
  {
    hide Emitted, Ready, After, Prompt, Delta, Flush;
    job.Bounds();
    AfterFollows(job.signature.View(), job.whole, job.steps);
  }

  /** Emit the last command. */
  method FlushRest(job: Job) returns (result: Result)
    requires DeltaInv(job, DeltaFlush) && InView(job) && job.Idle() && job.scanLen <= job.scanPos
    modifies job`writeLen, job`copyLen, job`sent, job`promised, job`scoopNext, job`scoopAvail, job`taken
    modifies job`scanBuf, job`scanLen, job`scanPos, job`basisLen, job`stats, job`cmds
    modifies job.stream`nextIn, job.stream`out, job.stream`availOut, job.writeBuf
    ensures DeltaInv(job, DeltaEnd) && job.Onward()
    ensures result == if job.Idle() then Done else Blocked
    ensures result == Blocked ==> job.stream.availOut == 0
  {
    hide LastOk, Emitted, Ready, Job.InOk, Job.OutOk, Prompt, After, Flush, Delta, Ended, Beginning, Slack, InView;
    hide Scan;
    Here(job);
    job.Bounds();
    AllScanned(job);
    result := AppendFlush(job);
  }

  /** All of the flush state but its end. */
  method FlushInput(job: Job) returns (result: Result)
    requires DeltaInv(job, DeltaFlush) && job.Idle()
    modifies job`writeLen, job`copyLen, job`sent, job`promised, job`scoopBuf, job`scoopNext, job`scoopAvail, job`taken
    modifies job`scanBuf, job`scanLen, job`scanPos, job`basisPos, job`basisLen, job`stats, job`cmds, job`steps
    modifies job.stream`nextIn, job.stream`out, job.stream`availOut
    modifies job.scoopBuf, job.writeBuf, job.weakSum.rs, job.weakSum.rk
    ensures DeltaInv(job, DeltaFlush) && job.Onward()
    ensures result == if job.Idle() then Done else Blocked
    ensures result == Blocked ==> job.stream.availOut == 0
    ensures result == Done ==> InView(job) && job.scanLen <= job.scanPos
    ensures job.scoopBuf == old(job.scoopBuf) || fresh(job.scoopBuf)
  {
    hide Standing, WeakAt, LastOk, Emitted, Ready, Job.Flows, Sized, SigView.Match;
    Here(job);
    result := Resume(job);
    if result != Done {
      assert false;
    }
    result := FlushBlocks(job);
  }

  /** Emit the last command, and leave the flush state. */
  method FlushLast(job: Job) returns (result: Result)
    requires DeltaInv(job, DeltaFlush) && InView(job) && job.Idle() && job.scanLen <= job.scanPos
    modifies job`writeLen, job`copyLen, job`sent, job`promised, job`scoopNext, job`scoopAvail, job`taken
    modifies job`scanBuf, job`scanLen, job`scanPos, job`basisLen, job`stats, job`cmds, job`statefn
    modifies job.stream`nextIn, job.stream`out, job.stream`availOut, job.writeBuf
    ensures DeltaInv(job, DeltaEnd) && job.statefn == DeltaEnd && job.Onward() && Start(job) == job.Supply()
    ensures result == if job.Idle() then Done else Blocked
    ensures result == Blocked ==> job.stream.availOut == 0
  {
    hide DeltaInv, InView;
    ghost var sums := job.SigObjects();
    result := FlushRest(job);
    AtEnd(job);
    job.statefn := DeltaEnd;
    assert job.SigObjects() == sums;
  }

  method RunFlush(job: Job) returns (result: Result)
    requires job.statefn == DeltaFlush && DeltaInv(job, DeltaFlush) && job.Idle()
    modifies job`writeLen, job`copyLen, job`sent, job`promised, job`scoopBuf, job`scoopNext, job`scoopAvail, job`taken
    modifies job`scanBuf, job`scanLen, job`scanPos, job`basisPos, job`basisLen, job`stats, job`cmds, job`steps
    modifies job`statefn, job.stream`nextIn, job.stream`out, job.stream`availOut
    modifies job.scoopBuf, job.writeBuf, job.weakSum.rs, job.weakSum.rk
    ensures DeltaInv(job, job.statefn) && job.Stepped(result) && result in {Running, Blocked}
    ensures job.statefn in {DeltaFlush, DeltaEnd}
    ensures job.scoopBuf == old(job.scoopBuf) || fresh(job.scoopBuf)
  {
    hide Job.Stepped, DeltaInv, InView, Sized;
    result := FlushInput(job);
    if result == Done {
      result := FlushLast(job);
    }
    if result == Done {
      job.GoesOn();
      return Running;
    }
    job.Blocks();
  }

  lemma AtEnd(job: Job)
    requires DeltaInv(job, DeltaEnd)
    ensures Start(job) == job.Supply()
  {
  }

  /** The scan starts where the scanner does. */
  lemma ScanStarts(job: Job)
    requires job.signature != null && Ready(job) && job.weakSum.Window() == []
    requires job.Flows() && Emitted(job) && job.cmds == []
    requires job.Pos() == job.copyLen == job.scanPos == job.basisLen == job.steps == 0
    ensures Scanning(job)
  {
    hide Job.InOk, Job.OutOk, Signature.Indexed, Window, Emitted;
    job.Bounds();
  }

  /** Write the header. What comes next depends on whether there is a signature. */
  method StartHeader(job: Job)
    requires DeltaInv(job, DeltaHeader)
    modifies job`writeLen, job`promised, job.writeBuf
    ensures DeltaInv(job, if job.signature != null then DeltaScan else DeltaSlack)
    ensures job.writeLen > 0 && job.copyLen == 0 && job.stream.eofIn == old(job.stream.eofIn) && old(job.Idle())
  {
    hide Job.InOk, Job.OutOk, Signature.Indexed, Window, Scan, BigEndian, Finished, Scanning, Ended, Sized;
    EmitDeltaHeader(job);
    job.Bounds();
    assert Magic + [] == Magic;
    if job.signature != null {
      ScanStarts(job);
    } else {
      assert job.whole[..0] == [];
    }
  }

  method RunHeader(job: Job) returns (result: Result)
    requires job.statefn == DeltaHeader && DeltaInv(job, DeltaHeader)
    modifies job`statefn, job`writeLen, job`promised, job.writeBuf
    ensures DeltaInv(job, job.statefn) && job.Stepped(result) && result == Running && Paces(job, result)
  {
    hide Job.Stepped, DeltaInv;
    ghost var sums := job.SigObjects();
    StartHeader(job);
    if job.signature != null {
      job.statefn := DeltaScan;
    } else {
      job.statefn := DeltaSlack;
    }
    assert job.SigObjects() == sums;
    job.GoesOn();
    return Running;
  }

  /** What one more literal adds to a delta of literals. */
  lemma SlackStep(cmds: seq<Command>, whole: seq<byte>, p: nat, len: nat)
    requires 0 < len < INT_LIMIT && p + len <= |whole|
    requires AllEncodable(cmds) && InBasis([], cmds) && Apply([], cmds) == whole[..p]
    ensures var data := whole[p..p + len];
            var next := cmds + [Literal(data)];
            && AllEncodable(next) && InBasis([], next) && Apply([], next) == whole[..p + len]
            && Magic + EncodeAll(next) == Magic + EncodeAll(cmds) + LiteralHead(len) + data
            && Tally(next) == Tally(cmds).AddLiteral(len, |LiteralHead(len)|)
  {
    hide LiteralHead, EncodeAll, Tally, Apply;
    var data := whole[p..p + len];
    EncodeSnoc(cmds, Literal(data));
    TallySnoc(cmds, Literal(data));
    ApplySnoc([], cmds, Literal(data));
    assert Magic + (EncodeAll(cmds) + (LiteralHead(len) + data)) == Magic + EncodeAll(cmds) + LiteralHead(len) + data;
    assert whole[..p] + data == whole[..p + len];
  }

  /** Queue one literal of the next len bytes of input, its command first. */
  method EmitSlack(job: Job, len: nat)
    requires Slack(job) && job.Idle() && 0 < len == job.scoopAvail + |job.stream.nextIn|
    modifies job`writeLen, job`copyLen, job`promised, job`stats, job`cmds, job.writeBuf
    ensures Slack(job) && job.writeLen > 0
    ensures 0 <= job.Pos() && job.Pos() + len == job.Supply() <= |job.whole|
    ensures job.cmds == old(job.cmds) + [Literal(job.whole[job.Pos()..job.Supply()])]
  {
    hide Job.InOk, Job.OutOk, EncodeAll, Tally, LiteralHead, Apply, AllEncodable, InBasis, BigEndian;
    job.Bounds();
    SlackStep(job.cmds, job.whole, job.Pos(), len);
    ghost var data := job.whole[job.Pos()..job.Pos() + len];
    EmitLiteralCmd(job, len);
    job.TubeCopy(len);
    job.cmds := job.cmds + [Literal(data)];
  }

  method RunSlack(job: Job) returns (result: Result)
    requires job.statefn == DeltaSlack && DeltaInv(job, DeltaSlack) && job.Idle()
    modifies job`statefn, job`writeLen, job`copyLen, job`promised, job`stats, job`cmds, job.writeBuf
    ensures DeltaInv(job, job.statefn) && job.Stepped(result) && result in {Running, Blocked}
    ensures job.statefn in {DeltaSlack, DeltaEnd}
    ensures 0 <= job.Pos() <= job.Supply() <= |job.whole|
    ensures if job.Pos() < job.Supply()
            then job.statefn == DeltaSlack
                 && job.cmds == old(job.cmds) + [Literal(job.whole[job.Pos()..job.Supply()])]
            else job.cmds == old(job.cmds) && (job.statefn == DeltaEnd <==> job.stream.eofIn)
  {
    hide Emitted, Job.InOk, Job.OutOk, Scanning, Beginning, Ended, Apply, InBasis, Delta;
    job.Bounds();
    var avail := job.scoopAvail + |job.stream.nextIn|;
    if avail > 0 {
      EmitSlack(job, avail);
      return Running;
    } else if job.stream.eofIn {
      job.statefn := DeltaEnd;
      assert job.whole[..|job.whole|] == job.whole;
      return Running;
    }
    return Blocked;
  }

  method RunEnd(job: Job) returns (result: Result)
    requires job.statefn == DeltaEnd && DeltaInv(job, DeltaEnd) && job.Idle()
    modifies job`writeLen, job`promised, job.writeBuf
    ensures DeltaInv(job, Null) && job.Stepped(result) && result == Done
  {
    hide Job.InOk, Job.OutOk, Scanning, Beginning, Apply, InBasis, Delta;
    EmitEndCmd(job);
    job.Bounds();
    return Done;
  }

  lemma Apart(job: Job)
    requires Ready(job)
    ensures job.signature != null && job.writeBuf !in job.SigObjects()
  {
  }

  /** Catching up with the tube does not disturb a scan. */
  method CatchupScanning(job: Job) returns (result: Result)
    requires Scanning(job)
    modifies job`writeLen, job`copyLen, job`sent, job`scoopNext, job`scoopAvail, job`taken
    modifies job.stream`nextIn, job.stream`out, job.stream`availOut, job.writeBuf
    ensures Scanning(job) && job.Onward() && result in {Done, Blocked} && Scanned(job) == old(Scanned(job))
    ensures result == Done <==> job.Idle()
    ensures old(job.scoopAvail) == 0 ==> job.scoopAvail == 0
    ensures result == Blocked ==> job.stream.availOut == 0
    ensures old(Behind(job)) ==> Behind(job)
    ensures old(job.Idle()) ==> result == Done
    ensures old(job.Due()) && old(job.stream.availOut) > 0 ==> job.Progressed()
    ensures if old(job.Idle()) then job.Still() else result == Done ==> |job.sent| > |old(job.sent)|
  {
    hide Job.InOk, Job.OutOk, Emitted, Ready, After, Window, Course, Prompt, LastOk, Sized;
    Here(job);
    job.Bounds();
    result := job.Catchup();
    Unmoved(job);
  }

  /** At the beginning there is nothing to catch up with. */
  method CatchupBeginning(job: Job) returns (result: Result)
    requires Beginning(job)
    modifies job`writeLen, job`copyLen, job`sent, job`scoopNext, job`scoopAvail, job`taken
    modifies job.stream`nextIn, job.stream`out, job.stream`availOut, job.writeBuf
    ensures Beginning(job) && job.Still() && job.Onward() && result == Done && job.Idle() && old(job.Idle())
  {
    hide Job.InOk, Job.OutOk, Ready;
    if job.signature != null {
      Apart(job);
    }
    result := job.Catchup();
  }

  /** In every state, the input flows, and there is enough of it to be copied. */
  lemma Flowing(job: Job, fn: StateFn)
    requires DeltaInv(job, fn)
    ensures job.Flows() && Start(job) <= job.Supply()
  {
    hide Job.InOk, Job.OutOk, Standing, Ready;
    if fn == DeltaScan || fn == DeltaFlush {
      Here(job);
    }
    job.Bounds();
  }

  /** Nor does it disturb the other states. */
  twostate lemma Kept(job: Job)
    requires job.Flows() && Start(job) == old(Start(job)) && job.Supply() == old(job.Supply())
    requires unchanged(job`cmds) && unchanged(job`promised) && unchanged(job`stats)
    requires job.stream == old(job.stream) && job.stream.eofIn == old(job.stream.eofIn)
    requires job.signature != null ==> job.signature.View() == old(job.signature.View())
    requires old(job.scoopAvail) == 0 ==> job.scoopAvail == 0
    ensures old(Slack(job)) ==> Slack(job)
    ensures old(Finished(job)) ==> Finished(job)
    ensures old(Emitted(job)) ==> Emitted(job)
    ensures old(Ended(job)) ==> Ended(job)
  {
    hide Job.Flows, Apply, EncodeAll, Tally, Delta, InBasis, AllEncodable, DeltaBytes;
  }

  /** Catching up with the tube, between state functions. */
  method Catchup(job: Job) returns (result: Result)
    requires DeltaInv(job, job.statefn)
    modifies job`writeLen, job`copyLen, job`sent, job`scoopNext, job`scoopAvail, job`taken
    modifies job.stream`nextIn, job.stream`out, job.stream`availOut, job.writeBuf
    ensures DeltaInv(job, job.statefn) && job.Onward() && result in {Done, Blocked}
    ensures result == Done <==> job.Idle()
    ensures old(job.scoopAvail) == 0 ==> job.scoopAvail == 0
    ensures result == Blocked ==> job.stream.availOut == 0
    ensures old(job.Idle()) ==> result == Done
    ensures old(job.Due()) && old(job.stream.availOut) > 0 ==> job.Progressed()
    ensures if old(job.Idle()) then job.Still() else result == Done ==> |job.sent| > |old(job.sent)|
  {
    hide Job.InOk, Job.OutOk, Emitted, Slack, Finished, Ended, Ready, Standing, WeakAt, Sized, Behind, Beginning;
    if job.statefn == DeltaScan || job.statefn == DeltaFlush {
      result := CatchupScanning(job);
      Here(job);
    } else if job.statefn == DeltaHeader {
      result := CatchupBeginning(job);
    } else {
      Flowing(job, job.statefn);
      result := CatchUp(job);
      Kept(job);
    }
  }

  /** A new delta job. An empty signature counts as none. */
  method Begin(sig: Signature?, ghost whole: seq<byte>) returns (job: Job)
    requires sig != null && sig.blockSigs != [] ==> sig.Indexed() && Sized(sig.View(), whole)
    requires sig == null || sig.blockSigs == [] ==> |whole| < INT_LIMIT
    ensures fresh(job) && fresh(job.stream) && fresh(job.scoopBuf) && fresh(job.writeBuf)
    ensures fresh(job.weakSum.rs) && fresh(job.weakSum.rk)
    ensures job.kind == DeltaJob && job.statefn == DeltaHeader && DeltaInv(job, DeltaHeader) && job.whole == whole
    ensures job.signature == if sig != null && sig.blockSigs != [] then sig else null
    ensures job.stream.nextIn == [] && !job.stream.eofIn && job.taken == 0 && job.sent == []
  {
    hide Signature.Valid, IndexesFirst, SigView.Ok, Hashtable.Valid, Sized, Scanning, Slack, Finished, Ended, Emitted;
    hide Job.InOk, Job.OutOk;
    var none := (pos, len, call) => Failed(InternalError);
    if sig != null && |sig.blockSigs| > 0 {
      var p := Params(sig.magic, sig.blockLen, sig.strongSumLen);
      job := new Job(DeltaJob, DeltaHeader, sig, p.WeakKind(), none, whole, []);
    } else {
      job := new Job(DeltaJob, DeltaHeader, null, RollsumKind, none, whole, []);
    }
  }

  /** What a state function of a delta leaves behind. It never fails. */
  ghost predicate DeltaPost(job: Job, result: Result)
    reads job, job.stream, job.scoopBuf, job.writeBuf
    reads job.signature, job.SigObjects(), job.weakSum, job.weakSum.rs, job.weakSum.rk
  {
    match result
    case Running | Blocked => DeltaInv(job, job.statefn)
    case Done => DeltaInv(job, Null)
    case _ => false
  }

  /** More input or room does not disturb a scan. */
  method FeedScanning(job: Job, data: seq<byte>, eof: bool, room: nat)
    requires Scanning(job) && job.Supply() + |data| <= |job.whole|
    requires data == job.whole[job.Supply()..job.Supply() + |data|] && (eof ==> job.Supply() + |data| == |job.whole|)
    modifies job`drained, job.stream`nextIn, job.stream`eofIn, job.stream`out, job.stream`availOut
    ensures Scanning(job) && job.Supply() == old(job.Supply()) + |data| && Scanned(job) == old(Scanned(job))
    ensures old(Behind(job)) ==> Behind(job)
    ensures job.stream.nextIn == old(job.stream.nextIn) + data && job.drained == job.sent && job.stream.out == []
    ensures job.stream.eofIn == eof && job.stream.availOut == room
  {
    hide Job.InOk, Job.OutOk, Emitted, Ready, After, Window, Course, Prompt, LastOk, Sized;
    Here(job);
    job.Feed(data, eof, room);
  }

  /** Nor does it disturb the other states. */
  method FeedOther(job: Job, data: seq<byte>, eof: bool, room: nat)
    requires job.Flows() && job.Supply() + |data| <= |job.whole|
    requires data == job.whole[job.Supply()..job.Supply() + |data|] && (eof ==> job.Supply() + |data| == |job.whole|)
    requires job.stream.eofIn ==> eof
    modifies job`drained, job.stream`nextIn, job.stream`eofIn, job.stream`out, job.stream`availOut
    ensures job.Flows() && job.Supply() == old(job.Supply()) + |data|
    ensures old(Beginning(job)) ==> Beginning(job)
    ensures old(Slack(job)) ==> Slack(job)
    ensures old(Finished(job)) ==> Finished(job)
    ensures job.stream.nextIn == old(job.stream.nextIn) + data && job.drained == job.sent && job.stream.out == []
    ensures job.stream.eofIn == eof && job.stream.availOut == room
  {
    hide Job.InOk, Job.OutOk, Emitted, Ready, Sized, Apply, InBasis, Delta;
    job.Bounds();
    if Beginning(job) && job.signature != null {
      Apart(job);
    }
    job.Feed(data, eof, room);
  }

  /** The invariant does not mind what the caller does between two calls. */
  method Feed(job: Job, data: seq<byte>, eof: bool, room: nat)
    requires DeltaInv(job, job.statefn) && job.Supply() + |data| <= |job.whole|
    requires data == job.whole[job.Supply()..job.Supply() + |data|] && (job.stream.eofIn ==> eof)
    requires eof ==> job.Supply() + |data| == |job.whole|
    modifies job`drained, job.stream`nextIn, job.stream`eofIn, job.stream`out, job.stream`availOut
    ensures DeltaInv(job, job.statefn) && job.Supply() == old(job.Supply()) + |data|
    ensures job.stream.nextIn == old(job.stream.nextIn) + data && job.drained == job.sent && job.stream.out == []
    ensures job.stream.eofIn == eof && job.stream.availOut == room
  {
    hide Job.Flows, Emitted, Ready, Standing, WeakAt, Behind, Slack, Beginning, Finished, Ended, Sized;
    Flowing(job, job.statefn);
    if job.statefn == DeltaScan || job.statefn == DeltaFlush {
      FeedScanning(job, data, eof, room);
      Here(job);
    } else {
      FeedOther(job, data, eof, room);
    }
  }

  // ---- How much a delta can come to ----

  /** More output than this there will not be. */
  ghost function Limit(job: Job): nat
    reads job.signature
  {
    if job.signature != null && Sized(job.signature.View(), job.whole)
    then
      DeltaIsProper(job.signature.View(), job.whole);
      |DeltaBytes(Delta(job.signature.View(), job.whole))|
    else 5 + 6 * |job.whole|
  }

  /** A prefix of the commands has no longer an encoding. */
  lemma PrefixIsShorter(a: seq<Command>, b: seq<Command>)
    requires AllEncodable(a + b)
    ensures AllEncodable(a) && |Magic + EncodeAll(a)| < |DeltaBytes(a + b)|
  {
    hide Command.Encodable, BigEndian;
    assert forall i :: 0 <= i < |a| ==> a[i] == (a + b)[i];
    assert forall i :: 0 <= i < |b| ==> b[i] == (a + b)[|a| + i];
    EncodeAppend(a, b);
  }

  /** Literals alone take at most six bytes for each byte of data. */
  lemma {:induction false} LiteralsAreShort(cmds: seq<Command>)
    requires AllEncodable(cmds) && InBasis([], cmds)
    ensures |EncodeAll(cmds)| <= 6 * |Apply([], cmds)|
  {
    if cmds != [] {
      LiteralsAreShort(cmds[..|cmds| - 1]);
      var c := cmds[|cmds| - 1];
      assert c.Encodable() && Fits([], c);
      hide BigEndian;
    }
  }

  lemma SentBound(job: Job, fn: StateFn)
    requires DeltaInv(job, fn)
    ensures |job.sent| <= Limit(job)
  {
    hide Job.InOk, Job.OutOk, EncodeAll, Scan, After, Prompt, Window, Signature.Indexed, BigEndian, LastOk, Apply;
    hide InBasis;
    job.SentIsPromised();
    job.Bounds();
    assert |Magic| == 4;
    if job.signature == null {
      if fn != DeltaHeader {
        LiteralsAreShort(job.cmds);
      }
    } else if fn == DeltaScan || fn == DeltaFlush {
      ScanBound(job);
    }
  }

  lemma ScanBound(job: Job)
    requires Scanning(job)
    ensures |job.promised| <= Limit(job)
  {
    hide Job.Flows, Scan, Prompt, Window, Signature.Indexed, BigEndian, LastOk, WeakAt, Sized, AllEncodable;
    Here(job);
    var sig, f := job.signature.View(), After(job.signature.View(), job.whole, job.steps);
    hide After;
    AfterFollows(sig, job.whole, job.steps);
    DeltaIsProper(sig, job.whole);
    PrefixIsShorter(f.cmds, Scan(sig, job.whole, f.p, f.last));
  }
}
