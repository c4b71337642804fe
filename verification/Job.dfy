/**
 The state of a job, and the two halves of its plumbing: the scoop, which reads ahead in the
 caller's input, and the tube, which holds back output that does not fit yet.

 Each job carries, as ghosts, the whole input that its caller will ever supply (`whole`), how much
 of it the job has taken off the caller's buffer (`taken`), and all that it has sent so far
 (`sent`). The scoop and the caller's buffer are slices of `whole`; that no byte is lost,
 duplicated or reordered on the way in is what `Flows` says.
 */
module Job {
  import opened Bytes
  import opened Checksum
  import opened Command
  import opened Memory
  import opened NetInt
  import opened Protocol
  import opened Sumset

  const WRITE_BUF_SIZE := 36

  /** The caller's buffers: unread input, whether it is the last, and space for output. */
  class Buffers {
    var nextIn: seq<byte>
    var eofIn: bool
    /** What has been written during the current call. */
    var out: seq<byte>
    var availOut: nat

    constructor ()
      ensures nextIn == [] && !eofIn && out == [] && availOut == 0
    {
      nextIn, eofIn, out, availOut := [], false, [], 0;
    }
  }

  /** What a callback that reads the basis answers. */
  datatype CopyReply =
    | Data(data: seq<byte>)
    | Failed(error: Result)

  datatype JobKind = DeltaJob | PatchJob | SigJob | LoadsigJob

  /** The state functions, and the null pointer of a job that is done. */
  datatype StateFn =
    | Null
    | DeltaHeader | DeltaScan | DeltaFlush | DeltaSlack | DeltaEnd
    | PatchHeader | PatchCmdbyte | PatchParams | PatchRun | PatchLiteral | PatchCopy | PatchCopying
    | SigHeader | SigGenerate
    | LoadMagic | LoadBlocklen | LoadStronglen | LoadWeak | LoadStrong

  /** How close a state is to finishing when it neither consumes nor produces. */
  function Rank(fn: StateFn): nat {
    match fn
    case Null => 0
    case DeltaHeader => 4
    case DeltaScan | DeltaSlack => 3
    case DeltaFlush => 2
    case PatchRun => 4
    case PatchLiteral | PatchCopy => 3
    case PatchCopying => 2
    case SigHeader => 2
    case _ => 1
  }

  class Job {
    const kind: JobKind
    var stream: Buffers
    var statefn: StateFn
    var finalResult: Result

    var sigMagic: int
    var sigBlockLen: int
    var sigStrongLen: int
    const signature: Signature?

    var op: byte
    var weakSig: u32
    const weakSum: WeakSum
    var param1: int
    var param2: int
    var cmd: Prototype
    var stats: Stats

    var scoopBuf: array<byte>
    var scoopNext: nat
    var scoopAvail: nat

    var scanBuf: seq<byte>
    var scanLen: nat
    var scanPos: nat

    const writeBuf: array<byte>
    var writeLen: nat
    var copyLen: nat

    var basisPos: int
    var basisLen: int
    /** Position, length wanted, and number of the call. */
    const copyCb: (int, nat, nat) -> CopyReply
    var copyCalls: nat

    /** All the input there will ever be, and the part of it taken from the caller. */
    ghost const whole: seq<byte>
    /** What the copy callback is meant to read from. */
    ghost const basis: seq<byte>
    ghost var taken: nat
    /** All output so far, and how much of that was before the current call. */
    ghost var sent: seq<byte>
    /** All output promised so far: sent, held back, or waiting to be copied from the input. */
    ghost var promised: seq<byte>
    ghost var drained: seq<byte>
    /** The commands a delta has emitted, their data included. */
    ghost var cmds: seq<Command>
    /** How many steps of its scan a delta has made. */
    ghost var steps: nat

    constructor (kind: JobKind, statefn: StateFn, signature: Signature?, weakKind: WeakKind,
                 copyCb: (int, nat, nat) -> CopyReply, ghost whole: seq<byte>, ghost basis: seq<byte>)
      ensures this.kind == kind && this.statefn == statefn && this.signature == signature
      ensures this.copyCb == copyCb && this.whole == whole && this.basis == basis
      ensures fresh(stream) && fresh(scoopBuf) && fresh(writeBuf)
      ensures weakSum.Valid() && fresh(weakSum.Repr) && weakSum.kind == weakKind && weakSum.Window() == []
      ensures Flows() && Idle() && taken == scoopAvail == 0 && sent == promised == [] && stream.nextIn == []
      ensures !stream.eofIn && finalResult == Done
      ensures scanPos == 0 && basisLen == 0 && cmds == [] && steps == 0 && stats == NoStats
    {
      this.kind, this.statefn, this.signature := kind, statefn, signature;
      this.copyCb, this.whole, this.basis := copyCb, whole, basis;
      stream := new Buffers();
      finalResult := Done;
      sigMagic, sigBlockLen, sigStrongLen := 0, 0, 0;
      op, weakSig, param1, param2 := 0, 0, 0, 0;
      weakSum := new WeakSum(weakKind);
      cmd, stats := Prototype(KindEnd, 0, 0, 0), NoStats;
      scoopBuf := new byte[0];
      scoopNext, scoopAvail := 0, 0;
      scanBuf, scanLen, scanPos := [], 0, 0;
      writeBuf := new byte[WRITE_BUF_SIZE](_ => 0);
      writeLen, copyLen := 0, 0;
      basisPos, basisLen, copyCalls := 0, 0, 0;
      taken, sent, promised, drained := 0, [], [], [];
      cmds, steps := [], 0;
    }

    /** The signature and its index. */
    ghost function SigObjects(): set<object>
      reads signature
    {
      if signature == null then {} else {signature} + signature.Index()
    }

    // ---- Conservation ----

    /** How much of the whole input the job has consumed. */
    ghost function Pos(): int
      reads this`taken, this`scoopAvail
    {
      taken - scoopAvail
    }

    /** How much of the whole input the caller has supplied so far. */
    ghost function Supply(): nat
      reads this`taken, this`stream, stream`nextIn
    {
      taken + |stream.nextIn|
    }

    /** Input at hand, in the scoop and in the caller's buffer. */
    ghost function Avail(): int
      reads this`taken, this`scoopAvail, this`stream, stream`nextIn
    {
      Supply() - Pos()
    }

    ghost function Scoop(): seq<byte>
      requires scoopNext + scoopAvail <= scoopBuf.Length
      reads this`scoopBuf, this`scoopNext, this`scoopAvail, scoopBuf
    {
      scoopBuf[scoopNext..scoopNext + scoopAvail]
    }

    ghost predicate Idle()
      reads this`writeLen, this`copyLen
    {
      writeLen == 0 && copyLen == 0
    }

    /** Consumed input, scoop and caller's buffer are, in this order, the input supplied so far. */
    ghost predicate InOk()
      reads this`stream, this`scoopBuf, this`scoopNext, this`scoopAvail, this`taken
      reads scoopBuf, stream`nextIn, stream`eofIn
    {
      && scoopNext + scoopAvail <= scoopBuf.Length
      && scoopAvail <= taken && Supply() <= |whole|
      && Scoop() == whole[Pos()..taken]
      && stream.nextIn == whole[taken..Supply()]
      && (stream.eofIn ==> Supply() == |whole|)
    }

    /** With input consumed up to pos, output sent, bytes held back and input to be copied are the output promised. */
    ghost predicate OutOk(pos: int)
      reads this`stream, this`writeLen, this`copyLen, this`sent, this`promised, this`drained, stream`out, writeBuf
    {
      && writeBuf.Length == WRITE_BUF_SIZE && writeLen <= WRITE_BUF_SIZE
      && 0 <= pos <= |whole|
      && promised == sent + writeBuf[..writeLen] + whole[pos..Min(pos + copyLen, |whole|)]
      && sent == drained + stream.out
    }

    ghost predicate Flows()
      reads this`stream, this`scoopBuf, this`scoopNext, this`scoopAvail, this`taken
      reads scoopBuf, stream`nextIn, stream`eofIn
      reads this`writeLen, this`copyLen, this`sent, this`promised, this`drained, stream`out, writeBuf
    {
      InOk() && OutOk(Pos()) && scoopBuf != writeBuf
    }

    /** From one state of a call to a later one: input is only consumed, and output moves on into its space. */
    twostate predicate Onward()
      reads this`taken, this`scoopAvail, this`sent, this`stream, stream`nextIn, stream`availOut
    {
      && stream == old(stream) && Supply() == old(Supply()) && Pos() >= old(Pos()) && taken >= old(taken)
      && |sent| >= |old(sent)| && stream.availOut + |sent| == old(stream.availOut + |sent|)
    }

    /** The tube holds something that can go out at once. */
    ghost predicate Due()
      reads this`writeLen, this`copyLen, this`taken, this`scoopAvail, this`stream, stream`nextIn
    {
      writeLen > 0 || (copyLen > 0 && Avail() > 0)
    }

    /**
     A delta job that cannot go on: it has looked at all there is in the caller's buffer, which is
     so much that it will not take it over, and it still waits for the end of the input.
     */
    ghost predicate Stalled()
      reads this, stream, signature
    {
      && statefn == DeltaScan && Idle() && !stream.eofIn && scoopAvail == 0 && signature != null
      && signature.blockLen + MAX_DELTA_CMD <= |stream.nextIn| <= scanPos + signature.blockLen
    }

    /** Input was taken, or output sent. */
    twostate predicate Progressed()
      reads this`taken, this`sent
    {
      taken > old(taken) || |sent| > |old(sent)|
    }

    /** Nothing was taken, moved or sent. */
    twostate predicate Still()
      reads this`taken, this`scoopAvail, this`sent, this`stream, stream`nextIn, stream`availOut
    {
      && taken == old(taken) && scoopAvail == old(scoopAvail) && sent == old(sent)
      && stream == old(stream) && stream.nextIn == old(stream.nextIn) && stream.availOut == old(stream.availOut)
    }

    /** The measure of the driver loop goes down. */
    twostate predicate Shrinks()
      reads this, stream
    {
      var before, after := old(Avail() + stream.availOut), Avail() + stream.availOut;
      || after < before
      || (after == before && Rank(statefn) < old(Rank(statefn)))
      || (after == before && Rank(statefn) == old(Rank(statefn)) && old(Idle()) && !Idle())
    }

    /** Given input and room for output, a state function gets something done, or leads on to one that will. */
    twostate predicate Moves(result: Result)
      reads this, stream
    {
      old(|stream.nextIn| > 0 && stream.availOut > 0 && statefn != PatchRun && !Stalled()) ==>
        && (result == Blocked ==> Progressed())
        && (result == Done ==> Progressed() || Due())
        && (result == Running ==> Progressed() || Due() || statefn in {DeltaFlush, PatchCopying})
    }

    /** What every state function promises the driver. */
    twostate predicate Stepped(result: Result)
      reads this, stream
    {
      && Onward() && Moves(result) && stream.eofIn == old(stream.eofIn)
      && (result == Running ==> Shrinks())
      && (result == Blocked ==> (stream.availOut == 0 || !stream.eofIn) && statefn !in {PatchRun, Null})
    }

    /** Stopping for want of room, or of input when there is none left in the caller's buffer. */
    twostate lemma Blocks()
      requires Onward() && stream.eofIn == old(stream.eofIn) && statefn !in {PatchRun, Null}
      requires stream.availOut == 0 || (!stream.eofIn && |stream.nextIn| == 0)
      ensures Stepped(Blocked)
    {
    }

    /** Going on, with something consumed, produced or queued, or in a later state. */
    twostate lemma GoesOn()
      requires Onward() && stream.eofIn == old(stream.eofIn)
      requires Pos() > old(Pos()) || |sent| > |old(sent)| || Rank(statefn) < old(Rank(statefn))
               || (Rank(statefn) == old(Rank(statefn)) && old(Idle()) && !Idle())
      requires |old(stream.nextIn)| == 0 || old(statefn) == PatchRun || Progressed() || Due()
               || statefn in {DeltaFlush, PatchCopying}
      ensures Stepped(Running)
    {
    }

    /** Coming to an end, with something consumed, produced or queued. */
    twostate lemma Finishes(result: Result)
      requires Onward() && stream.eofIn == old(stream.eofIn) && result !in {Running, Blocked}
      requires result == Done ==> |old(stream.nextIn)| == 0 || old(statefn) == PatchRun || Progressed() || Due()
      ensures Stepped(result)
    {
    }

    /** With nothing left to copy, what is promised does not depend on the input. */
    lemma PromisedWithoutCopy(pos: int, pos': int)
      requires OutOk(pos) && copyLen == 0 && 0 <= pos' <= |whole|
      ensures OutOk(pos') && promised == sent + writeBuf[..writeLen]
      ensures writeLen == 0 ==> promised == sent
    {
    }

    lemma Bounds()
      requires Flows()
      ensures 0 <= Pos() <= taken <= Supply() <= |whole| && Avail() == scoopAvail + |stream.nextIn|
      ensures stream.eofIn ==> Supply() == |whole|
    {
    }

    /** What the caller does between two calls: it takes the output away, makes room, and adds input. */
    method Feed(data: seq<byte>, eof: bool, room: nat)
      requires Flows() && Supply() + |data| <= |whole| && data == whole[Supply()..Supply() + |data|]
      requires eof ==> Supply() + |data| == |whole|
      modifies this`drained, stream`nextIn, stream`eofIn, stream`out, stream`availOut
      ensures Flows() && Supply() == old(Supply()) + |data| && stream.nextIn == old(stream.nextIn) + data
      ensures stream.eofIn == eof && stream.availOut == room && stream.out == [] && drained == sent
    {
      Glue(whole, taken, Supply(), Supply() + |data|);
      drained := sent;
      stream.nextIn := stream.nextIn + data;
      stream.eofIn := eof;
      stream.out := [];
      stream.availOut := room;
      assert drained + [] == drained;
    }

    lemma SentIsPromised()
      requires Flows()
      ensures sent <= promised && (Idle() ==> sent == promised)
    {
    }

    // ---- The scoop ----

    /** Make room for len bytes in the scoop, by a larger buffer or by moving the contents to the front. */
    method MakeRoom(len: nat)
      requires InOk() && len > scoopAvail
      modifies this`scoopBuf, this`scoopNext, scoopBuf
      ensures InOk() && scoopNext + len <= scoopBuf.Length
      ensures scoopBuf == old(scoopBuf) || fresh(scoopBuf)
    {
      ghost var contents := Scoop();
      if scoopBuf.Length < len {
        var newsize := 64;
        while newsize < len
          decreases len - newsize
        {
          newsize := newsize * 2;
        }
        var newbuf := new byte[newsize](_ => 0);
        CopyBytes(newbuf, 0, scoopBuf, scoopNext, scoopAvail);
        scoopBuf, scoopNext := newbuf, 0;
      } else if scoopBuf.Length < scoopNext + len {
        MoveToFront(scoopBuf, scoopNext, scoopAvail);
        scoopNext := 0;
      }
      assert Scoop() == contents;
    }

    /** Append to the contents of the scoop, where there is room. */
    method AppendToScoop(data: seq<byte>)
      requires scoopNext + scoopAvail + |data| <= scoopBuf.Length
      modifies this`scoopAvail, scoopBuf
      ensures scoopAvail == old(scoopAvail) + |data| && scoopNext + scoopAvail <= scoopBuf.Length
      ensures Scoop() == old(Scoop()) + data
    {
      PutBytes(scoopBuf, scoopNext + scoopAvail, data);
      scoopAvail := scoopAvail + |data|;
    }

    /** Take n bytes of input into the scoop, where there is room. */
    method Take(n: nat)
      requires InOk() && n <= |stream.nextIn| && scoopNext + scoopAvail + n <= scoopBuf.Length
      modifies this`scoopAvail, this`taken, stream`nextIn, scoopBuf
      ensures InOk() && scoopAvail == old(scoopAvail) + n && taken == old(taken) + n
      ensures Supply() == old(Supply())
    {
      ghost var p: nat, t: nat := Pos(), taken;
      TakeSplit(whole, p, t, Supply(), n);
      AppendToScoop(stream.nextIn[..n]);
      stream.nextIn := stream.nextIn[n..];
      taken := taken + n;
      assert Scoop() == whole[p..t + n];
    }

    /** Take input from the caller to get len bytes into the scoop. */
    method ScoopInput(len: nat)
      requires InOk() && len > scoopAvail
      modifies this`scoopBuf, this`scoopNext, this`scoopAvail, this`taken, stream`nextIn, scoopBuf
      ensures InOk() && Pos() == old(Pos()) && Supply() == old(Supply())
      ensures scoopAvail == Min(len, old(Avail()))
      ensures scoopBuf == old(scoopBuf) || fresh(scoopBuf)
    {
      MakeRoom(len);
      var tocopy: nat := len - scoopAvail;
      if tocopy > |stream.nextIn| {
        tocopy := |stream.nextIn|;
      }
      Take(tocopy);
    }

    /** Move on over len bytes of the scoop. */
    method AdvanceInScoop(len: nat)
      requires InOk() && len <= scoopAvail
      modifies this`scoopNext, this`scoopAvail
      ensures InOk() && scoopAvail == old(scoopAvail) - len
    {
      SliceOfSlice(whole, Pos(), taken, len, scoopAvail);
      assert Scoop()[len..] == scoopBuf[scoopNext + len..scoopNext + scoopAvail];
      scoopAvail := scoopAvail - len;
      scoopNext := scoopNext + len;
    }

    /** Move on over len bytes of the caller's buffer. */
    method AdvanceInInput(len: nat)
      requires InOk() && scoopAvail == 0 && len <= |stream.nextIn|
      modifies this`taken, stream`nextIn
      ensures InOk() && taken == old(taken) + len && Supply() == old(Supply())
    {
      SliceOfSlice(whole, taken, Supply(), len, |stream.nextIn|);
      stream.nextIn := stream.nextIn[len..];
      taken := taken + len;
    }

    /** Move on over len bytes, all in the scoop or else all in the caller's buffer. */
    method ScoopAdvance(len: nat)
      requires InOk() && len <= if scoopAvail > 0 then scoopAvail else |stream.nextIn|
      modifies this`scoopNext, this`scoopAvail, this`taken, stream`nextIn
      ensures InOk() && Pos() == old(Pos()) + len && Supply() == old(Supply())
      ensures scoopAvail == if old(scoopAvail) > 0 then old(scoopAvail) - len else 0
      ensures taken == old(taken) + if old(scoopAvail) > 0 then 0 else len
    {
      hide InOk;
      if scoopAvail > 0 {
        AdvanceInScoop(len);
      } else {
        AdvanceInInput(len);
      }
    }

    /** Look at the next len bytes without consuming them, gathering them in the scoop if need be. */
    method Readahead(len: nat) returns (result: Result, ptr: seq<byte>)
      requires Flows()
      modifies this`scoopBuf, this`scoopNext, this`scoopAvail, this`taken, stream`nextIn, scoopBuf
      ensures Flows() && Pos() == old(Pos()) && Supply() == old(Supply())
      ensures result == if Avail() >= len then Done else if stream.eofIn then InputEnded else Blocked
      ensures result == Done ==> ptr == whole[Pos()..Pos() + len]
      ensures result == Done ==>
                scoopAvail == if old(scoopAvail) == 0 && |old(stream.nextIn)| >= len then 0
                               else if old(scoopAvail) < len then len else old(scoopAvail)
      ensures result != Done ==> scoopAvail == Avail()
      ensures scoopBuf == old(scoopBuf) || fresh(scoopBuf)
    {
      hide OutOk;
      if scoopAvail == 0 && |stream.nextIn| >= len {
        SliceOfSlice(whole, taken, Supply(), 0, len);
        return Done, stream.nextIn[..len];
      } else if scoopAvail < len && |stream.nextIn| > 0 {
        ScoopInput(len);
      }
      if scoopAvail >= len {
        SliceOfSlice(whole, Pos(), taken, 0, len);
        assert scoopBuf[scoopNext..scoopNext + len] == Scoop()[..len];
        return Done, scoopBuf[scoopNext..scoopNext + len];
      } else if stream.eofIn {
        return InputEnded, [];
      } else {
        return Blocked, [];
      }
    }

    /** Read len bytes if they are there. */
    method ScoopRead(len: nat) returns (result: Result, ptr: seq<byte>)
      requires Flows() && copyLen == 0
      modifies this`scoopBuf, this`scoopNext, this`scoopAvail, this`taken, stream`nextIn, scoopBuf
      ensures Flows() && Supply() == old(Supply())
      ensures result == if old(Avail()) >= len then Done else if stream.eofIn then InputEnded else Blocked
      ensures result == Done ==> Pos() == old(Pos()) + len && ptr == whole[old(Pos())..Pos()]
      ensures result == Done && old(scoopAvail) <= len ==> scoopAvail == 0
      ensures result == Done && old(scoopAvail) > len ==> scoopAvail == old(scoopAvail) - len
      ensures result != Done ==> Pos() == old(Pos()) && scoopAvail == Avail()
      ensures scoopBuf == old(scoopBuf) || fresh(scoopBuf)
    {
      hide InOk, OutOk;
      result, ptr := Readahead(len);
      Bounds();
      if result == Done {
        PromisedWithoutCopy(Pos(), Pos() + len);
        ScoopAdvance(len);
      }
    }

    /** Read whatever is there. */
    method ScoopReadRest() returns (result: Result, ptr: seq<byte>)
      requires Flows() && copyLen == 0
      modifies this`scoopBuf, this`scoopNext, this`scoopAvail, this`taken, stream`nextIn, scoopBuf
      ensures Flows() && Supply() == old(Supply())
      ensures result == if old(Avail()) > 0 then Done else if stream.eofIn then InputEnded else Blocked
      ensures result == Done ==> Pos() == Supply() && scoopAvail == 0 && ptr == whole[old(Pos())..Pos()]
      ensures result != Done ==> Pos() == old(Pos()) && scoopAvail == 0 && |stream.nextIn| == 0
      ensures scoopBuf == old(scoopBuf) || fresh(scoopBuf)
    {
      var len := scoopAvail + |stream.nextIn|;
      if len != 0 {
        result, ptr := ScoopRead(len);
      } else if stream.eofIn {
        return InputEnded, [];
      } else {
        return Blocked, [];
      }
    }

    // ---- The tube ----

    /** Send as much of the held-back command bytes as fits. */
    method CatchupWrite(ghost pos: nat)
      requires OutOk(pos) && writeLen > 0
      modifies this`writeLen, this`sent, stream`out, stream`availOut, writeBuf
      ensures OutOk(pos)
      ensures writeLen == 0 || stream.availOut == 0
      ensures stream.availOut + |sent| == old(stream.availOut + |sent|)
      ensures |sent| + writeLen == |old(sent)| + old(writeLen)
      ensures old(stream.availOut) > 0 ==> |sent| > |old(sent)|
    {
      var len := writeLen;
      if len > stream.availOut {
        len := stream.availOut;
      }
      if len > 0 {
        var head := writeBuf[..len];
        ghost var rest, before := writeBuf[len..writeLen], sent;
        assert writeBuf[..writeLen] == head + rest;
        stream.out := stream.out + head;
        stream.availOut := stream.availOut - len;
        sent := sent + head;
        writeLen := writeLen - len;
        if writeLen > 0 {
          MoveToFront(writeBuf, len, writeLen);
        }
        assert writeBuf[..writeLen] == rest;
        assert before + (head + rest) == (before + head) + rest;
      }
    }

    /** The next contiguous run of input, in the scoop or else in the caller's buffer. */
    method GetBuf(len: nat) returns (ptr: seq<byte>)
      requires InOk()
      ensures |ptr| == Min(len, if scoopAvail > 0 then scoopAvail else |stream.nextIn|)
      ensures 0 <= Pos() <= Pos() + |ptr| <= Supply() <= |whole| && ptr == whole[Pos()..Pos() + |ptr|]
      ensures |ptr| == 0 ==> len == 0 || Avail() == 0
    {
      if scoopAvail > 0 {
        var n := Min(len, scoopAvail);
        SliceOfSlice(whole, Pos(), taken, 0, n);
        assert scoopBuf[scoopNext..scoopNext + n] == Scoop()[..n];
        ptr := scoopBuf[scoopNext..scoopNext + n];
      } else {
        var n := Min(len, |stream.nextIn|);
        SliceOfSlice(whole, taken, Supply(), 0, n);
        ptr := stream.nextIn[..n];
      }
    }

    /** Send one run of the input that is being copied. */
    method SendRun(next: seq<byte>, ghost pos: nat)
      requires OutOk(pos) && writeLen == 0 && |next| <= copyLen && |next| <= stream.availOut
      requires pos + |next| <= |whole| && next == whole[pos..pos + |next|]
      modifies this`copyLen, this`sent, stream`out, stream`availOut
      ensures OutOk(pos + |next|) && copyLen == old(copyLen) - |next|
      ensures |sent| == |old(sent)| + |next| && stream.availOut == old(stream.availOut) - |next|
    {
      ghost var q: nat, before := Min(pos + copyLen, |whole|), sent;
      GlueAfter(before, whole, pos, pos + |next|, q);
      assert writeBuf[..0] == [] && before + [] == before && before + next + [] == before + next;
      stream.out := stream.out + next;
      stream.availOut := stream.availOut - |next|;
      sent := sent + next;
      copyLen := copyLen - |next|;
    }

    /** Copy one contiguous run of input through to the output. */
    method CopyRun(next: seq<byte>)
      requires Flows() && writeLen == 0
      requires |next| <= (if scoopAvail > 0 then scoopAvail else |stream.nextIn|)
      requires |next| <= copyLen && |next| <= stream.availOut
      requires Pos() + |next| <= |whole| && next == whole[Pos()..Pos() + |next|]
      modifies this`copyLen, this`sent, this`scoopNext, this`scoopAvail, this`taken, stream`nextIn, stream`out
      modifies stream`availOut
      ensures Flows() && Supply() == old(Supply()) && Pos() == old(Pos()) + |next| && taken >= old(taken)
      ensures copyLen == old(copyLen) - |next| && |sent| == |old(sent)| + |next|
      ensures stream.availOut == old(stream.availOut) - |next|
      ensures old(scoopAvail) == 0 ==> scoopAvail == 0
      ensures |old(stream.nextIn)| == 0 ==> |stream.nextIn| == 0
    {
      hide InOk, OutOk;
      Bounds();
      SendRun(next, Pos());
      ScoopAdvance(|next|);
    }

    /** Copy input through to the output, as much as there is of both. */
    method CatchupCopy()
      requires Flows() && writeLen == 0 && copyLen > 0
      modifies this`copyLen, this`sent, this`scoopNext, this`scoopAvail, this`taken, stream`nextIn, stream`out
      modifies stream`availOut
      ensures Flows() && Supply() == old(Supply())
      ensures Pos() >= old(Pos()) && taken >= old(taken) && Pos() + copyLen == old(Pos() + copyLen)
      ensures copyLen == 0 || stream.availOut == 0 || Avail() == 0
      ensures |sent| - |old(sent)| == Pos() - old(Pos()) == old(stream.availOut) - stream.availOut
      ensures old(scoopAvail) == 0 ==> scoopAvail == 0
      ensures |old(stream.nextIn)| == 0 ==> |stream.nextIn| == 0
    {
      hide InOk, OutOk;
      Bounds();
      var len: nat := Min(copyLen, Min(scoopAvail + |stream.nextIn|, stream.availOut));
      var next := GetBuf(len);
      ghost var start: nat := Pos();
      while |next| > 0
        invariant Flows() && Supply() == old(Supply()) && 0 <= start <= Pos() && taken >= old(taken)
        invariant len == Min(copyLen, Min(Avail(), stream.availOut))
        invariant Pos() + copyLen == start + old(copyLen)
        invariant |sent| - |old(sent)| == Pos() - start == old(stream.availOut) - stream.availOut
        invariant |next| <= len && |next| <= (if scoopAvail > 0 then scoopAvail else |stream.nextIn|)
        invariant |next| == 0 ==> len == 0 || Avail() == 0
        invariant Pos() + |next| <= |whole| && next == whole[Pos()..Pos() + |next|]
        invariant old(scoopAvail) == 0 ==> scoopAvail == 0
        invariant |old(stream.nextIn)| == 0 ==> |stream.nextIn| == 0
        decreases len
      {
        CopyRun(next);
        len := len - |next|;
        next := GetBuf(len);
      }
    }

    /** Empty the tube as far as possible: held-back bytes first, then the pending copy. */
    method Catchup() returns (result: Result)
      requires Flows()
      modifies this`writeLen, this`copyLen, this`sent, this`scoopNext, this`scoopAvail, this`taken, stream`nextIn
      modifies stream`out, stream`availOut, writeBuf
      ensures Flows() && Supply() == old(Supply())
      ensures Pos() >= old(Pos()) && taken >= old(taken) && Pos() + copyLen == old(Pos() + copyLen)
      ensures result == Done <==> Idle()
      ensures result in {Done, Blocked, InputEnded}
      ensures result == InputEnded ==> writeLen == 0 && copyLen > 0 && Avail() == 0 && stream.eofIn
      ensures result == Blocked ==>
                stream.availOut == 0 || (writeLen == 0 && copyLen > 0 && Avail() == 0 && !stream.eofIn)
      ensures stream.availOut + |sent| == old(stream.availOut + |sent|) && |sent| >= |old(sent)|
      ensures old(Idle()) ==> Idle()
      ensures old(writeLen) == 0 ==> writeLen == 0
      ensures old(copyLen) == 0 ==> scoopAvail == old(scoopAvail)
      ensures !old(Idle()) && old(stream.availOut) > 0 && (old(writeLen) > 0 || old(Avail()) > 0)
              ==> |sent| > |old(sent)|
      ensures old(scoopAvail) == 0 ==> scoopAvail == 0
      ensures |old(stream.nextIn)| == 0 ==> |stream.nextIn| == 0
      ensures old(Idle()) ==> Still()
      ensures !old(Idle()) && result == Done ==> |sent| > |old(sent)|
    {
      if writeLen > 0 {
        CatchupWrite(Pos());
        if writeLen > 0 {
          return Blocked;
        }
      }
      if copyLen > 0 {
        CatchupCopy();
        if copyLen > 0 {
          if scoopAvail + |stream.nextIn| == 0 && stream.eofIn {
            return InputEnded;
          }
          return Blocked;
        }
      }
      return Done;
    }

    /** Queue the copying of the next len bytes of input. */
    method TubeCopy(len: nat)
      requires Flows() && copyLen == 0
      modifies this`copyLen, this`promised
      ensures Flows() && copyLen == len
      ensures promised == old(promised) + whole[Pos()..Min(Pos() + len, |whole|)]
    {
      PromisedWithoutCopy(Pos(), Pos());
      copyLen := len;
      promised := promised + whole[Pos()..Min(Pos() + len, |whole|)];
    }

    /** Queue bytes of output, ahead of any copy. */
    method TubeWrite(buf: seq<byte>)
      requires Flows() && copyLen == 0 && writeLen + |buf| <= WRITE_BUF_SIZE
      modifies this`writeLen, this`promised, writeBuf
      ensures Flows() && writeLen == old(writeLen) + |buf| && promised == old(promised) + buf
    {
      PromisedWithoutCopy(Pos(), Pos());
      ghost var w := writeBuf[..writeLen];
      PutBytes(writeBuf, writeLen, buf);
      writeLen := writeLen + |buf|;
      assert writeBuf[..writeLen] == w + buf;
      assert sent + (w + buf) == (sent + w) + buf;
      promised := promised + buf;
    }

    // ---- Network integers in and out ----

    method SquirtByte(val: byte)
      requires Flows() && copyLen == 0 && writeLen + 1 <= WRITE_BUF_SIZE
      modifies this`writeLen, this`promised, writeBuf
      ensures Flows() && writeLen == old(writeLen) + 1 && promised == old(promised) + [val]
    {
      TubeWrite([val]);
    }

    method SquirtNetint(val: int, len: nat)
      requires Flows() && copyLen == 0 && len <= 8 && writeLen + len <= WRITE_BUF_SIZE
      modifies this`writeLen, this`promised, writeBuf
      ensures Flows() && writeLen == old(writeLen) + len && promised == old(promised) + BigEndian(val, len)
    {
      var buf := Fill(val, len);
      TubeWrite(buf);
    }

    method SuckNetint(len: nat) returns (result: Result, val: int)
      requires Flows() && copyLen == 0 && len <= 8
      modifies this`scoopBuf, this`scoopNext, this`scoopAvail, this`taken, stream`nextIn, scoopBuf
      ensures Flows() && Supply() == old(Supply())
      ensures result == if old(Avail()) >= len then Done else if stream.eofIn then InputEnded else Blocked
      ensures result == Done ==> Pos() == old(Pos()) + len && val == AsLong(Unsigned(whole[old(Pos())..Pos()]))
      ensures result == Done && old(scoopAvail) <= len ==> scoopAvail == 0
      ensures result == Done && old(scoopAvail) > len ==> scoopAvail == old(scoopAvail) - len
      ensures result != Done ==> Pos() == old(Pos()) && scoopAvail == Avail()
      ensures scoopBuf == old(scoopBuf) || fresh(scoopBuf)
    {
      var buf;
      val := 0;
      result, buf := ScoopRead(len);
      if result == Done {
        val := Accumulate(buf);
      }
    }
  }

  // ---- Moving bytes ----

  lemma GlueAfter(pre: seq<byte>, s: seq<byte>, a: nat, b: nat, c: nat)
    requires a <= b <= c <= |s|
    ensures pre + s[a..b] + s[b..c] == pre + s[a..c]
  {
    Glue(s, a, b, c);
  }

  /** Taking n bytes from the front of one slice to the end of the slice before it. */
  lemma TakeSplit(whole: seq<byte>, a: nat, b: nat, c: nat, n: nat)
    requires a <= b <= b + n <= c <= |whole|
    ensures whole[a..b] + whole[b..c][..n] == whole[a..b + n]
    ensures whole[b..c][n..] == whole[b + n..c]
  {
    SliceOfSlice(whole, b, c, 0, n);
    SliceOfSlice(whole, b, c, n, c - b);
    Glue(whole, a, b, b + n);
  }
}
