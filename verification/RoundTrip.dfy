/** Whole runs of the four jobs, and the promise that they keep together. */
module RoundTrip {
  import opened Blocks
  import opened Bytes
  import opened Checksum
  import opened Command
  import opened Greedy
  import opened Hashtable
  import opened Job
  import opened PatchSpec
  import opened Protocol
  import opened SigSpec
  import opened Sumset
  import Delta
  import Driver
  import Mksum
  import Patch
  import Readsums
  import Util

  /** How a caller cuts input and output: sizes for every turn, and whether the end is announced with the last bytes. */
  datatype Cuts = Cuts(chunk: nat -> nat, room: nat -> nat, eager: bool)

  /** Generating a signature. Only bad arguments make it fail. */
  method MakeSignature(basis: seq<byte>, blockLen: nat, strongLen: int, magic: int, strong: StrongSum, cuts: Cuts)
    returns (result: Result, sigFile: seq<byte>)
    requires blockLen < INT_LIMIT && strongLen >= -1 && StrongSumOk(strong)
    ensures match InitResult(magic, blockLen, strongLen)
            case (_, Some(p)) => p.Check() && result == Done && sigFile == SigBytes(p, strong, basis)
            case (error, None) => result == error && sigFile == []
  {
    hide InitResult, SigBytes, Job.Flows;
    var job := Mksum.Begin(blockLen, strongLen, magic, strong, basis);
    result, sigFile := Driver.Drive(job, basis, cuts.chunk, cuts.room, cuts.eager);
    job.SentIsPromised();
  }

  /** Loading a signature file, whatever it holds. */
  method LoadSignature(sigFile: seq<byte>, strong: StrongSum, cuts: Cuts) returns (result: Result, sig: Signature)
    requires StrongSumOk(strong)
    ensures fresh(sig) && sig.strong == strong && result == Load(sigFile).result
    ensures result == Done ==> sig.Valid() && Load(sigFile) == Loaded(Done, Some(sig.View().params), sig.blockSigs)
  {
    hide Load, Job.Flows, SigView.Ok;
    var job := Readsums.Begin(strong, sigFile);
    sig := job.signature;
    var output;
    result, output := Driver.Drive(job, sigFile, cuts.chunk, cuts.room, cuts.eager);
  }

  /** Making a delta. Its statistics account for every byte of the file, and of the delta itself. */
  method MakeDelta(sig: Signature?, file: seq<byte>, cuts: Cuts)
    returns (result: Result, delta: seq<byte>, stats: Stats, ghost cmds: seq<Command>)
    requires sig != null && sig.blockSigs != [] ==> sig.Indexed() && Sized(sig.View(), file)
    requires sig == null || sig.blockSigs == [] ==> |file| < INT_LIMIT
    ensures result == Done ==> AllEncodable(cmds) && delta == DeltaBytes(cmds)
    ensures result == Done && sig != null && sig.blockSigs != [] ==>
              0 < sig.blockLen && cmds == Greedy.Delta(sig.View(), file)
    ensures result == Done && (sig == null || sig.blockSigs == []) ==> InBasis([], cmds) && Apply([], cmds) == file
    ensures result == Done ==>
              && stats == Tally(cmds) && stats.litBytes + stats.copyBytes == |file|
              && |delta| == 5 + stats.litCmdbytes + stats.litBytes + stats.copyCmdbytes
    ensures result != Done ==> result == InternalError && sig != null && sig.blockLen >= MAX_DELTA_CMD
  {
    hide Job.Flows, Signature.Indexed, Delta.Ready, Apply, EncodeAll, DeltaBytes, Delta.Beginning, Tally, Extent, Scan;
    var job := Delta.Begin(sig, file);
    result, delta := Driver.Drive(job, file, cuts.chunk, cuts.room, cuts.eager);
    cmds, stats := job.cmds, job.stats;
    if result == Done {
      job.SentIsPromised();
      TallyExtent(cmds);
      if job.signature != null {
        ScanExtent(job.signature.View(), file, 0, Miss(0));
      } else {
        ApplyExtent([], cmds);
      }
    }
  }

  /** Applying any stream at all to a basis. */
  method ApplyPatch(delta: seq<byte>, copyCb: (int, nat, nat) -> CopyReply, ghost basis: seq<byte>, cuts: Cuts)
    returns (result: Result, file: seq<byte>)
    requires Patch.Honest(copyCb, basis)
    ensures var v := Interpret(delta, basis);
            || v == Verdict(file, Ends(result))
            || ((exists pos: nat, len: nat, call: nat :: copyCb(pos, len, call) == Failed(result)) && file <= v.out
                && (Patch.Reliable(copyCb, basis) ==> v == Verdict(file, BasisEnds)))
  {
    hide Job.Flows, Interpret, Patch.Honest, Patch.Reliable;
    var job := Patch.Begin(copyCb, delta, basis);
    result, file := Driver.Drive(job, delta, cuts.chunk, cuts.room, cuts.eager);
    if result == Done {
      job.SentIsPromised();
      assert file + [] == file;
    }
  }

  /** The delta that a loaded signature leads to, applied to the basis, is the file. */
  lemma DeltaOfLoaded(p: Params, strong: StrongSum, basis: seq<byte>, file: seq<byte>)
    requires p.Check() && StrongSumOk(strong) && |Cut(basis, p.blockLen)| * 10 < INT_LIMIT && |file| < Util.LONG_LIMIT
    requires NoCollision(p, strong, basis, file)
    ensures Sized(SigOf(p, strong, basis), file)
    ensures var cmds := Greedy.Delta(SigOf(p, strong, basis), file);
            && AllEncodable(cmds) && InBasis(basis, cmds) && Apply(basis, cmds) == file
            && Interpret(DeltaBytes(cmds), basis) == Verdict(file, Ends(Done))
  {
    hide NoCollision, Interpret, Cut, Greedy.Delta, Apply, InBasis, AllEncodable, DeltaBytes;
    DeltaIsProper(SigOf(p, strong, basis), file);
    DeltaMeans(p, strong, basis, file);
    InterpretDelta(Greedy.Delta(SigOf(p, strong, basis), file), basis);
  }

  /** Commands that copy from nothing mean the same over any basis. */
  lemma {:induction false} SlackMeans(cmds: seq<Command>, basis: seq<byte>)
    requires AllEncodable(cmds) && InBasis([], cmds)
    ensures InBasis(basis, cmds) && Apply(basis, cmds) == Apply([], cmds)
  {
    if cmds != [] {
      var init, c := cmds[..|cmds| - 1], cmds[|cmds| - 1];
      assert c.Encodable() && Fits([], c);
      SlackMeans(init, basis);
      assert init + [c] == cmds;
      ApplySnoc(basis, init, c);
      ApplySnoc([], init, c);
    }
  }

  /**
   Make a signature of the basis, load it, make a delta of the new file against it, and apply the
   delta to the basis: the new file comes back, wherever the four jobs were interrupted. Each job
   is done; only a delta with blocks of 64K or more may be given up.
   */
  method Restore(basis: seq<byte>, file: seq<byte>, blockLen: nat, strongLen: int, magic: int, strong: StrongSum,
                 copyCb: (int, nat, nat) -> CopyReply, cuts: (Cuts, Cuts, Cuts, Cuts), ghost p: Params)
    returns (result: Result, restored: seq<byte>)
    requires blockLen < INT_LIMIT && strongLen >= -1 && StrongSumOk(strong)
    requires InitResult(magic, blockLen, strongLen) == (Done, Some(p))
    requires |Cut(basis, p.blockLen)| * 10 < INT_LIMIT
    requires |file| < if basis == [] then INT_LIMIT else Util.LONG_LIMIT
    requires NoCollision(p, strong, basis, file)
    requires Patch.Honest(copyCb, basis) && Patch.Reliable(copyCb, basis)
    ensures result == Done ==> restored == file
    ensures result == Done || (result == InternalError && p.blockLen >= MAX_DELTA_CMD)
  {
    hide Interpret, Patch.Honest, Patch.Reliable, NoCollision, InitResult, SigBytes, Load, Greedy.Delta, Apply, InBasis;
    hide AllEncodable, DeltaBytes, Signature.Indexed, StrongSumOk, Sized;
    restored := [];
    var sigFile, sig, delta, stats;
    ghost var cmds;
    result, sigFile := MakeSignature(basis, blockLen, strongLen, magic, strong, cuts.0);
    result, sig := LoadSignature(sigFile, strong, cuts.1);
    LoadSigBytes(p, strong, basis);
    CutCount(basis, p.blockLen);
    sig.BuildHashTable();
    assert sig.View() == SigOf(p, strong, basis);
    DeltaOfLoaded(p, strong, basis, file);
    result, delta, stats, cmds := MakeDelta(sig, file, cuts.2);
    if result != Done {
      return;
    }
    if sig.blockSigs == [] {
      SlackMeans(cmds, basis);
      InterpretDelta(cmds, basis);
    }
    result, restored := ApplyPatch(delta, copyCb, basis, cuts.3);
  }
}
