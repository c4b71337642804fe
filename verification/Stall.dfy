/**
 Delta jobs that stall: for every block length of 64K or more, and any strong sum, a run of three
 calls at the end of which the driver gives up on a sound job.
 */
module Stall {
  import opened Bytes
  import opened Checksum
  import opened Command
  import opened Congruence
  import opened Digests
  import opened Greedy
  import opened Hashtable
  import opened Job
  import opened NetInt
  import opened Protocol
  import opened Sumset
  import Delta
  import Driver
  import PatchSpec
  import RabinKarp
  import Rollsum

  /** Block lengths for which a block and the longest literal need no more than two blocks. */
  predicate Long(b: nat) {
    MAX_DELTA_CMD <= b < INT_LIMIT
  }

  function P(b: nat): Params {
    Params(RK_BLAKE2_SIG_MAGIC, b, 32)
  }

  /** The basis is one block of zeros; the file is a one and two blocks of zeros. */
  function View(b: nat, strong: StrongSum): SigView {
    SigView(P(b), strong, [BlockSig(P(b).Weak(Zeros(b)), P(b).Strong(strong, Zeros(b)))])
  }

  function File(b: nat): seq<byte> {
    [1] + Zeros(2 * b)
  }

  /** Modulo 4 the multiplier is one. */
  lemma TimesMult(x: int)
    ensures (x * RabinKarp.MULT) % 4 == x % 4
  {
    assert x * RabinKarp.MULT == x + (x * 0x204_1089) * 4;
    Multiple(x, x * 0x204_1089, 4);
  }

  /** So the sums of the two kinds of window never get close. */
  lemma {:induction false} PolyMod4(n: nat)
    ensures RabinKarp.Poly(Zeros(n)) % 4 == 1 && RabinKarp.Poly([1] + Zeros(n)) % 4 == 2
  {
    if n == 0 {
      assert [1] + Zeros(0) == [] + [1];
      RabinKarp.PolySnoc([], 1);
      assert RabinKarp.Poly([]) == 1;
    } else {
      hide RabinKarp.Poly;
      PolyMod4(n - 1);
      assert Zeros(n) == Zeros(n - 1) + [0] && [1] + Zeros(n) == ([1] + Zeros(n - 1)) + [0];
      RabinKarp.PolySnoc(Zeros(n - 1), 0);
      RabinKarp.PolySnoc([1] + Zeros(n - 1), 0);
      TimesMult(RabinKarp.Poly(Zeros(n - 1)));
      TimesMult(RabinKarp.Poly([1] + Zeros(n - 1)));
    }
  }

  lemma HashMod4(w: seq<byte>)
    ensures RabinKarp.Hash(w) % 4 == RabinKarp.Poly(w) % 4
  {
    hide RabinKarp.Poly;
    var x := RabinKarp.Poly(w);
    var q := x / M32;
    assert x == RabinKarp.Hash(w) + q * M32;
    assert q * M32 == (q * 0x4000_0000) * 4;
    Multiple(RabinKarp.Hash(w), q * 0x4000_0000, 4);
  }

  lemma ZerosMatch(b: nat, strong: StrongSum)
    ensures View(b, strong).Match(Zeros(b)) == 0
  {
    hide WeakDigest;
    assert SameSums(View(b, strong).blocks[0], P(b).Weak(Zeros(b)), P(b).Strong(strong, Zeros(b)));
  }

  lemma NotClose(x: u32, y: u32)
    requires x % 4 == 2 && y % 4 == 1
    ensures NoZero(x) != NoZero(y)
  {
  }

  /** The weak sum of the parameters is the RabinKarp hash. */
  lemma WeakIsHash(b: nat, w: seq<byte>)
    ensures P(b).Weak(w) == RabinKarp.Hash(w)
  {
    hide RabinKarp.Hash, Rollsum.Hash, Mix32;
    assert 0x7273_0147 / 16 % 16 == 4;
    assert P(b).WeakKind() == RabinKarpKind;
  }

  lemma OneDoesNotMatch(b: nat, strong: StrongSum)
    requires b > 0
    ensures View(b, strong).Match([1] + Zeros(b - 1)) == -1
  {
    hide RabinKarp.Hash, RabinKarp.Poly, Params.Weak, Params.Strong, NoZero;
    var w, z := [1] + Zeros(b - 1), Zeros(b);
    PolyMod4(b);
    PolyMod4(b - 1);
    HashMod4(w);
    HashMod4(z);
    WeakIsHash(b, w);
    WeakIsHash(b, z);
    NotClose(P(b).Weak(w), P(b).Weak(z));
    assert !SameSums(View(b, strong).blocks[0], P(b).Weak(w), P(b).Strong(strong, w));
    assert FirstFrom(View(b, strong).blocks, P(b).Weak(w), P(b).Strong(strong, w), 1) == None;
  }

  /** After one step the one is a pending literal; after two it is flushed, and a match is pending. */
  lemma TwoSteps(b: nat, strong: StrongSum)
    requires Long(b) && StrongSumOk(strong)
    ensures After(View(b, strong), File(b), 1) == Front(1, Miss(1), [])
    ensures After(View(b, strong), File(b), 2) == Front(b + 1, Match(0, b), [Literal([1])])
  {
    hide SigView.Match;
    var file := File(b);
    assert After(View(b, strong), file, 0) == Front(0, Miss(0), []);
    assert Window(file, 0, b) == [1] + Zeros(b - 1);
    OneDoesNotMatch(b, strong);
    assert After(View(b, strong), file, 1) == Front(1, Miss(1), []);
    assert Window(file, 1, b) == Zeros(b);
    ZerosMatch(b, strong);
    assert file[0..1] == [1];
    assert [] + [Literal([1])] == [Literal([1])];
  }

  lemma NoStep(b: nat, strong: StrongSum)
    requires Long(b) && StrongSumOk(strong)
    ensures After(View(b, strong), File(b), 0) == Front(0, Miss(0), [])
  {
  }

  /** From then on, the literal stays emitted, and the position does not go back. */
  lemma {:induction false} FurtherSteps(b: nat, strong: StrongSum, n: nat)
    requires Long(b) && StrongSumOk(strong)
    requires n >= 2
    ensures After(View(b, strong), File(b), n).p >= b + 1 && [Literal([1])] <= After(View(b, strong), File(b), n).cmds
  {
    TwoSteps(b, strong);
    hide View, File, Advance, Flush;
    if n > 2 {
      FurtherSteps(b, strong, n - 1);
    }
  }

  lemma OneLiteral()
    ensures EncodeAll([Literal([1])]) == [1, 1]
  {
    EncodeSnoc([], Literal([1]));
    assert [] + [Literal([1])] == [Literal([1])];
  }

  /** The job scans our file, all of which has been supplied, but does not know that it is all. */
  ghost predicate OnIt(b: nat, strong: StrongSum, job: Job)
    reads job, job.stream, job.scoopBuf, job.writeBuf
    reads job.signature, job.SigObjects(), job.weakSum, job.weakSum.rs, job.weakSum.rk
  {
    && job.kind == DeltaJob && job.statefn == DeltaScan && Delta.DeltaInv(job, DeltaScan) && job.signature != null
    && job.signature.View() == View(b, strong) && job.whole == File(b)
    && job.Supply() == |job.whole| && !job.stream.eofIn
  }

  /** What OnIt comes to. */
  lemma Facts(b: nat, strong: StrongSum, job: Job)
    requires Long(b) && StrongSumOk(strong)
    requires OnIt(b, strong, job)
    ensures job.kind == DeltaJob && job.whole == File(b)
    ensures job.signature != null && job.signature.View() == View(b, strong)
    ensures !job.stream.eofIn && job.statefn == DeltaScan && job.Flows()
    ensures Delta.LastOk(job) && job.signature.blockLen == b
    ensures job.Supply() == |job.whole| == 2 * b + 1
    ensures AllEncodable(job.cmds) && job.promised == Magic + EncodeAll(job.cmds)
    ensures Front(Delta.Scanned(job), Delta.LastOf(job), job.cmds) == After(View(b, strong), File(b), job.steps)
    ensures !job.Idle() && job.steps > 0 ==> job.scanPos == Delta.LastOf(job).Span()
    ensures job.steps > 0 ==> var f := After(View(b, strong), File(b), job.steps - 1);
                              && AllEncodable(f.cmds) && |Magic + EncodeAll(f.cmds)| <= |job.sent| && f.p < b + 1
    ensures 0 <= job.Pos() && 0 <= Delta.Start(job) <= |job.whole|
  {
    hide Job.InOk, Job.OutOk, Delta.WeakAt, Delta.LastOk, After, EncodeAll, AllEncodable, BigEndian, Delta.Ready;
    Delta.Here(job);
    job.Bounds();
  }

  /** No more than two steps are made while the end is not in sight. */
  lemma AtMostTwo(b: nat, strong: StrongSum, job: Job)
    requires Long(b) && StrongSumOk(strong)
    requires OnIt(b, strong, job)
    ensures job.steps <= 2
  {
    hide OnIt, After, EncodeAll, AllEncodable, BigEndian, View, File, Job.Flows, Delta.LastOk;
    Facts(b, strong, job);
    if job.steps > 2 {
      FurtherSteps(b, strong, job.steps - 1);
    }
  }

  /** After two steps, the literal is promised and the first match is pending. */
  lemma SecondStep(b: nat, strong: StrongSum, job: Job)
    requires Long(b) && StrongSumOk(strong)
    requires OnIt(b, strong, job) && job.steps == 2
    ensures |job.promised| == 6 && job.basisLen == b && Delta.Start(job) + job.scanPos == b + 1
    ensures !job.Idle() ==> job.scanPos == b
    ensures |job.sent| == 6 ==> job.Idle()
    ensures |job.sent| < 6 ==> !job.Idle()
  {
    hide OnIt, After, EncodeAll, AllEncodable, BigEndian, View, File, Job.InOk, Delta.LastOk;
    Facts(b, strong, job);
    TwoSteps(b, strong);
    OneLiteral();
    assert |Magic| == 4;
  }

  /** Before the second step, nothing beyond the magic number is promised, and there is more to scan. */
  lemma TooEarly(b: nat, strong: StrongSum, job: Job)
    requires Long(b) && StrongSumOk(strong)
    requires OnIt(b, strong, job) && job.steps < 2
    ensures |job.promised| == 4 && Delta.Scanned(job) <= 1 && job.Avail() >= 2 * b
    ensures |job.sent| == 4 ==> job.Idle()
  {
    hide OnIt, After, EncodeAll, AllEncodable, BigEndian, View, File, Job.InOk, Delta.LastOk;
    Facts(b, strong, job);
    NoStep(b, strong);
    TwoSteps(b, strong);
    PatchSpec.NothingEncoded();
    assert |Magic| == 4;
  }

  /** A signature of the basis, indexed. */
  method MakeSig(b: nat, strong: StrongSum) returns (sig: Signature)
    requires Long(b) && StrongSumOk(strong)
    ensures fresh(sig) && fresh(sig.Index()) && sig.Indexed() && sig.View() == View(b, strong)
  {
    hide SigView.Ok, RawWeak, Signature.Indexed, Zeros, Bit;
    sig := new Signature(strong);
    var result := sig.Init(RK_BLAKE2_SIG_MAGIC, b, 32);
    var weak := CalcWeakSum(RabinKarpKind, Zeros(b));
    sig.AddBlock(weak, P(b).Strong(strong, Zeros(b)));
    sig.BuildHashTable();
  }

  /** A delta job that has not seen the end of its input, and has got on, is scanning. */
  lemma StillScanning(job: Job)
    requires job.kind == DeltaJob && Delta.DeltaInv(job, job.statefn) && !job.stream.eofIn && job.signature != null
    requires job.taken > 0 || |job.sent| > 0 || job.steps > 0
    ensures job.statefn == DeltaScan
  {
    hide Job.InOk, Job.OutOk, Delta.Scanning, Delta.Behind;
    if job.statefn == DeltaHeader {
      job.SentIsPromised();
    } else if job.statefn == DeltaFlush {
      hide Delta.Standing;
    }
  }

  /** The first call ends with the literal and the match pending, for want of room for the literal. */
  lemma AfterFirst(b: nat, strong: StrongSum, job: Job)
    requires Long(b) && StrongSumOk(strong)
    requires OnIt(b, strong, job) && |job.sent| <= 4
    requires if job.Idle() then job.Avail() < b + MAX_DELTA_CMD || job.Supply() <= Delta.Scanned(job) + b
             else |job.sent| == 4
    ensures job.steps == 2 && |job.sent| == 4
  {
    hide OnIt, Job.Flows, Delta.LastOk, AllEncodable, EncodeAll, After, View, File;
    AtMostTwo(b, strong, job);
    Facts(b, strong, job);
    job.SentIsPromised();
    if job.steps < 2 {
      TooEarly(b, strong, job);
    } else {
      SecondStep(b, strong, job);
    }
  }

  /** The first call: all of the file, and room for the magic number only. */
  method FirstCall(b: nat, strong: StrongSum, job: Job)
    requires Long(b) && StrongSumOk(strong)
    requires job.kind == DeltaJob && job.statefn == DeltaHeader && Driver.Ready(job) && job.whole == File(b)
    requires job.signature != null && job.signature.View() == View(b, strong)
    requires job.stream.nextIn == [] && !job.stream.eofIn && job.taken == 0 && job.sent == []
    requires job.scoopAvail == 0
    modifies job, job.stream, job.writeBuf, job.scoopBuf, job.weakSum.rs, job.weakSum.rk
    ensures job.stream == old(job.stream) && job.signature.View() == View(b, strong)
    ensures job.scoopBuf == old(job.scoopBuf) || fresh(job.scoopBuf)
    ensures OnIt(b, strong, job) && Driver.Ready(job) && job.steps == 2 && |job.sent| == 4 && job.scoopAvail == 0
  {
    hide Driver.Inv, Driver.Ready, Driver.Post, File, View, OnIt, Delta.LastOk, Job.Flows, EncodeAll, After;
    hide AllEncodable;
    assert File(b)[0..|File(b)|] == File(b);
    FileLength(b, strong);
    Driver.Feed(job, File(b), false, 4);
    assert !job.Stalled();
    var result := Driver.Iter(job);
    Scans(b, strong, job, result);
    Facts(b, strong, job);
    AfterFirst(b, strong, job);
    SecondStep(b, strong, job);
  }

  lemma FileLength(b: nat, strong: StrongSum)
    requires Long(b) && StrongSumOk(strong)
    ensures |File(b)| == 2 * b + 1
  {
  }

  lemma Fits(b: nat, strong: StrongSum)
    requires Long(b) && StrongSumOk(strong)
    ensures Sized(View(b, strong), File(b)) && |View(b, strong).blocks| == 1
  {
  }

  lemma Fresh(job: Job)
    requires Delta.DeltaInv(job, DeltaHeader)
    ensures job.scoopAvail == 0
  {
  }

  lemma Scans(b: nat, strong: StrongSum, job: Job, result: Result)
    requires Long(b) && StrongSumOk(strong)
    requires job.kind == DeltaJob && Driver.Post(job, result) && (result == Blocked ==> Driver.Ready(job))
    requires job.signature != null && job.signature.View() == View(b, strong) && job.whole == File(b)
    requires result != Running && !job.stream.eofIn && job.Supply() == |job.whole|
    requires result == Blocked ==> job.taken > 0 || |job.sent| > 0 || job.steps > 0
    ensures result == Blocked && OnIt(b, strong, job)
  {
    hide Job.Flows, Delta.Scanning, Delta.Behind, Delta.Slack, Delta.Beginning, Delta.Emitted, Delta.Ended, View, File;
    if result == Blocked {
      StillScanning(job);
    }
  }

  /** The second call: no more input, and room for the literal only. Now the tube is empty, and nothing more is done. */
  method SecondCall(b: nat, strong: StrongSum, job: Job)
    requires Long(b) && StrongSumOk(strong)
    requires OnIt(b, strong, job) && Driver.Ready(job) && job.steps == 2 && |job.sent| == 4 && job.scoopAvail == 0
    modifies job, job.stream, job.writeBuf, job.scoopBuf, job.weakSum.rs, job.weakSum.rk
    ensures job.stream == old(job.stream)
    ensures job.scoopBuf == old(job.scoopBuf) || fresh(job.scoopBuf)
    ensures Driver.Ready(job) && job.Stalled()
  {
    hide Driver.Inv, Driver.Ready, Driver.Post, File, View, OnIt, Delta.LastOk, Job.Flows, EncodeAll, After;
    hide AllEncodable;
    Facts(b, strong, job);
    SecondStep(b, strong, job);
    Driver.Feed(job, [], false, 2);
    assert !job.Idle();
    var result := Driver.Iter(job);
    Scans(b, strong, job, result);
    Facts(b, strong, job);
    AtMostTwo(b, strong, job);
    SecondStep(b, strong, job);
  }

  /** The third call finds both input and room, does nothing, and takes that for an error. */
  method ThirdCall(job: Job) returns (result: Result)
    requires Driver.Ready(job) && job.Stalled()
    modifies job, job.stream, job.writeBuf, job.scoopBuf, job.weakSum.rs, job.weakSum.rk, Driver.OwnSig(job)
    ensures result == InternalError
  {
    hide Driver.Inv, Driver.Ready, Driver.Post, Driver.Limit, Job.Flows;
    Driver.Supplied(job);
    Driver.Feed(job, [], false, 1);
    assert job.Stalled();
    result := Driver.Iter(job);
  }

  /** The whole run: a signature of the basis, a delta job for the file, and the three calls. */
  method GivesUp(b: nat, strong: StrongSum) returns (result: Result)
    requires Long(b) && StrongSumOk(strong)
    ensures result == InternalError
  {
    hide Delta.DeltaInv, File, View, Job.Flows, Signature.Indexed, Sized, OnIt;
    var sig := MakeSig(b, strong);
    FileLength(b, strong);
    Fits(b, strong);
    var job := Delta.Begin(sig, File(b));
    Fresh(job);
    FirstCall(b, strong, job);
    hide Driver.Ready;
    SecondCall(b, strong, job);
    result := ThirdCall(job);
  }
}
