/** Signature files: what generating one writes, what loading one gives, and that they agree. */
module SigSpec {
  import opened Blocks
  import opened Bytes
  import opened Checksum
  import opened Hashtable
  import opened NetInt
  import opened Protocol
  import opened Sumset

  // ---- Writing ----

  function Header(p: Params): (s: seq<byte>)
    ensures |s| == 12
  {
    BigEndian(p.magic, 4) + BigEndian(p.blockLen, 4) + BigEndian(p.strongSumLen, 4)
  }

  /** The sums of one block: the weak one as it is, not mixed. */
  function SumBytes(p: Params, strong: StrongSum, block: seq<byte>): seq<byte> {
    BigEndian(RawWeak(p.WeakKind(), block), 4) + p.Strong(strong, block)
  }

  function AllSumBytes(p: Params, strong: StrongSum, blocks: seq<seq<byte>>): seq<byte> {
    if blocks == [] then [] else SumBytes(p, strong, blocks[0]) + AllSumBytes(p, strong, blocks[1..])
  }

  /** The signature file of a file. */
  function SigBytes(p: Params, strong: StrongSum, file: seq<byte>): seq<byte>
    requires p.blockLen > 0
  {
    Header(p) + AllSumBytes(p, strong, Cut(file, p.blockLen))
  }

  /** The sums of what is left of a file: of the next block, and of what is left then. */
  lemma NextBlock(p: Params, strong: StrongSum, file: seq<byte>)
    requires p.blockLen > 0 && file != []
    ensures var b := Min(p.blockLen, |file|);
            AllSumBytes(p, strong, Cut(file, p.blockLen))
            == SumBytes(p, strong, file[..b]) + AllSumBytes(p, strong, Cut(file[b..], p.blockLen))
  {
    hide SumBytes;
    NextCut(file, p.blockLen);
  }

  lemma NextCut(file: seq<byte>, b: nat)
    requires b > 0 && file != []
    ensures Cut(file, b) != [] && Cut(file, b)[0] == file[..Min(b, |file|)]
    ensures Cut(file, b)[1..] == Cut(file[Min(b, |file|)..], b)
  {
    assert file[..|file|] == file;
  }

  // ---- Reading ----

  /** How loading ends, and the signature it leaves behind. */
  datatype Loaded = Loaded(result: Result, params: Option<Params>, blocks: seq<BlockSig>)

  /** What an `int` field of a file reads as. */
  function IntAt(d: seq<byte>, i: nat): int
    requires i + 4 <= |d|
  {
    AsInt(Unsigned(d[i..i + 4]))
  }

  /** A whole signature file. */
  function Load(d: seq<byte>): Loaded {
    if |d| < 8 then Loaded(InputEnded, None, [])
    else if IntAt(d, 4) < 1 then Loaded(Corrupt, None, [])
    else if |d| < 12 then Loaded(InputEnded, None, [])
    else if IntAt(d, 8) < 0 || IntAt(d, 8) > MAX_STRONG_SUM_LENGTH then Loaded(Corrupt, None, [])
    else
      var init := InitResult(IntAt(d, 0), IntAt(d, 4), IntAt(d, 8));
      match init.1
      case Some(p) => LoadBlocks(d, p, [], 12)
      case None => Loaded(init.0, None, [])
  }

  /** What an unsigned field reads as. */
  function WordAt(d: seq<byte>, i: nat): u32
    requires i + 4 <= |d|
  {
    UnsignedBound(d[i..i + 4]);
    Capacities();
    Unsigned(d[i..i + 4])
  }

  /** From a weak sum at position i on. Up to three bytes too many are a clean end. */
  function LoadBlocks(d: seq<byte>, p: Params, blocks: seq<BlockSig>, i: nat): Loaded
    requires i <= |d| && p.strongSumLen > 0
    decreases |d| - i, 0
  {
    if |d| < i + 4 then Loaded(Done, Some(p), blocks)
    else LoadSum(d, p, blocks, WordAt(d, i), i + 4)
  }

  /** From a strong sum at position i on. */
  function LoadSum(d: seq<byte>, p: Params, blocks: seq<BlockSig>, weak: u32, i: nat): Loaded
    requires i <= |d| && p.strongSumLen > 0
    decreases |d| - i, 1
  {
    if |d| < i + p.strongSumLen then Loaded(InputEnded, Some(p), blocks)
    else
      var j := i + p.strongSumLen;
      LoadBlocks(d, p, blocks + [BlockSig(Mixed(p.WeakKind(), weak), d[i..j])], j)
  }

  // ---- The round trip ----

  lemma FieldReadsBack(d: seq<byte>, i: nat, val: nat)
    requires i + 4 <= |d| && val < 0x1_0000_0000 && d[i..i + 4] == BigEndian(val, 4)
    ensures WordAt(d, i) == val && (val < INT_LIMIT ==> IntAt(d, i) == val)
  {
    hide BigEndian, Unsigned;
    Capacities();
    ReadBack(val, 4);
  }

  /** The sums of one block, read at position i. */
  lemma LoadOne(d: seq<byte>, p: Params, strong: StrongSum, done: seq<BlockSig>, i: nat, block: seq<byte>)
    requires p.Check() && StrongSumOk(strong)
    requires i + 4 + p.strongSumLen <= |d| && d[i..i + 4 + p.strongSumLen] == SumBytes(p, strong, block)
    ensures LoadBlocks(d, p, done, i) == LoadBlocks(d, p, done + [SumsOf(p, strong, block)], i + 4 + p.strongSumLen)
  {
    hide BigEndian, RawWeak, Mixed, IntAt;
    StrongLength(p, strong, block);
    var e := SumBytes(p, strong, block);
    SliceOfSlice(d, i, i + |e|, 0, 4);
    SliceOfSlice(d, i, i + |e|, 4, |e|);
    assert e[..4] == e[0..4] == BigEndian(RawWeak(p.WeakKind(), block), 4) && e[4..|e|] == p.Strong(strong, block);
    FieldReadsBack(d, i, RawWeak(p.WeakKind(), block));
    hide WordAt;
  }

  /** Loading the sums of the blocks of a file, from position i of the signature file on. */
  lemma {:induction false} LoadAll(d: seq<byte>, p: Params, strong: StrongSum, done: seq<BlockSig>, i: nat,
                                   file: seq<byte>)
    requires p.Check() && StrongSumOk(strong)
    requires i <= |d| && d[i..] == AllSumBytes(p, strong, Cut(file, p.blockLen))
    ensures LoadBlocks(d, p, done, i) == Loaded(Done, Some(p), done + SigBlocks(p, strong, file))
    decreases |file|
  {
    hide LoadBlocks, SumBytes, SumsOf;
    if file == [] {
      assert done + SigBlocks(p, strong, file) == done;
      NothingToLoad(d, p, done, i);
    } else {
      var b := Min(p.blockLen, |file|);
      var n := 4 + p.strongSumLen;
      NextBlock(p, strong, file);
      SumBytesLength(p, strong, file[..b]);
      assert d[i..i + n] == d[i..][..n] && d[i + n..] == d[i..][n..];
      LoadOne(d, p, strong, done, i, file[..b]);
      LoadAll(d, p, strong, done + [SumsOf(p, strong, file[..b])], i + n, file[b..]);
      NextSums(p, strong, file);
      assert done + [SumsOf(p, strong, file[..b])] + SigBlocks(p, strong, file[b..])
          == done + ([SumsOf(p, strong, file[..b])] + SigBlocks(p, strong, file[b..]));
    }
  }

  lemma NothingToLoad(d: seq<byte>, p: Params, done: seq<BlockSig>, i: nat)
    requires p.strongSumLen > 0 && i == |d|
    ensures LoadBlocks(d, p, done, i) == Loaded(Done, Some(p), done)
  {
  }

  lemma SumBytesLength(p: Params, strong: StrongSum, block: seq<byte>)
    requires p.Check() && StrongSumOk(strong)
    ensures |SumBytes(p, strong, block)| == 4 + p.strongSumLen
  {
    StrongLength(p, strong, block);
  }

  lemma NextSums(p: Params, strong: StrongSum, file: seq<byte>)
    requires p.blockLen > 0 && file != []
    ensures var b := Min(p.blockLen, |file|);
            SigBlocks(p, strong, file) == [SumsOf(p, strong, file[..b])] + SigBlocks(p, strong, file[b..])
  {
    hide SumsOf;
    assert file[..|file|] == file;
  }

  /** Arguments that already stand for a signature are taken as they are. */
  lemma InitKeeps(p: Params)
    requires p.Check()
    ensures InitResult(p.magic, p.blockLen, p.strongSumLen) == (Done, Some(p))
  {
  }

  /** Loading the signature file of a file gives its signature. */
  lemma LoadSigBytes(p: Params, strong: StrongSum, file: seq<byte>)
    requires p.Check() && StrongSumOk(strong)
    ensures Load(SigBytes(p, strong, file)) == Loaded(Done, Some(p), SigBlocks(p, strong, file))
  {
    hide BigEndian, IntAt, AllSumBytes, Cut, LoadBlocks, InitResult;
    var d := SigBytes(p, strong, file);
    assert d[0..4] == BigEndian(p.magic, 4) && d[4..8] == BigEndian(p.blockLen, 4)
        && d[8..12] == BigEndian(p.strongSumLen, 4) && d[12..] == AllSumBytes(p, strong, Cut(file, p.blockLen));
    FieldReadsBack(d, 0, p.magic);
    FieldReadsBack(d, 4, p.blockLen);
    FieldReadsBack(d, 8, p.strongSumLen);
    InitKeeps(p);
    LoadAll(d, p, strong, [], 12, file);
    assert [] + SigBlocks(p, strong, file) == SigBlocks(p, strong, file);
  }
}
