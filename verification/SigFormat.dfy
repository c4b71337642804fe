/** Signature files byte by byte, as they are written, and whatever they hold as they are read. */
module SigFormat {
  import opened Blocks
  import opened Bytes
  import opened Checksum
  import opened Congruence
  import opened Hashtable
  import opened NetInt
  import opened Protocol
  import opened SigSpec
  import opened Sumset
  import RabinKarp
  import Rollsum

  // ---- What the magic numbers stand for ----

  function StrongOf(magic: int): StrongKind
    requires magic in {0x72730136, 0x72730137, 0x72730146, 0x72730147}
  {
    match magic
    case 0x72730136 => Md4
    case 0x72730137 => Blake2
    case 0x72730146 => Md4
    case 0x72730147 => Blake2
  }

  function WeakOf(magic: int, block: seq<byte>): u32
    requires magic in {0x72730136, 0x72730137, 0x72730146, 0x72730147}
  {
    match magic
    case 0x72730136 => Rollsum.Hash(block)
    case 0x72730137 => Rollsum.Hash(block)
    case 0x72730146 => RabinKarp.Hash(block)
    case 0x72730147 => RabinKarp.Hash(block)
  }

  lemma MagicOf(p: Params)
    requires p.Check()
    ensures p.magic in {0x72730136, 0x72730137, 0x72730146, 0x72730147}
    ensures p.StrongKind() == StrongOf(p.magic)
    ensures p.WeakKind() == if p.magic in {0x72730136, 0x72730137} then RollsumKind else RabinKarpKind
  {
  }

  // ---- Writing ----

  lemma SumBytesAre(p: Params, strong: StrongSum, block: seq<byte>)
    requires p.Check() && StrongSumOk(strong)
    ensures p.magic in {0x72730136, 0x72730137, 0x72730146, 0x72730147}
    ensures p.strongSumLen <= |strong(StrongOf(p.magic), block)|
    ensures SumBytes(p, strong, block)
            == BigEndian(WeakOf(p.magic, block), 4) + strong(StrongOf(p.magic), block)[..p.strongSumLen]
  {
    hide BigEndian, Rollsum.Hash, RabinKarp.Hash;
    MagicOf(p);
    StrongLength(p, strong, block);
  }

  lemma Shifted<T>(head: seq<T>, tail: seq<T>, a: nat, b: nat)
    requires a <= b <= |tail|
    ensures (head + tail)[|head| + a..|head| + b] == tail[a..b]
  {
  }

  /** Rows of equal length. */
  lemma Rows(m: nat, i: nat, n: nat)
    requires i < m
    ensures m * n == (m - 1) * n + n && 0 <= i * n && i * n + n <= m * n
    ensures i > 0 ==> i * n == (i - 1) * n + n
  {
    MulMono(i + 1, m, n);
  }

  lemma {:induction false} AllSumBytesAt(p: Params, strong: StrongSum, blocks: seq<seq<byte>>, i: nat, n: nat)
    requires p.Check() && StrongSumOk(strong) && n == 4 + p.strongSumLen
    ensures |AllSumBytes(p, strong, blocks)| == |blocks| * n
    ensures i < |blocks| ==>
              0 <= i * n && i * n + n <= |AllSumBytes(p, strong, blocks)|
              && AllSumBytes(p, strong, blocks)[i * n..i * n + n] == SumBytes(p, strong, blocks[i])
    decreases |blocks|
  {
    hide SumBytes, Params.Check, StrongSumOk;
    if blocks != [] {
      var head, tail := SumBytes(p, strong, blocks[0]), AllSumBytes(p, strong, blocks[1..]);
      SumBytesLength(p, strong, blocks[0]);
      AllSumBytesAt(p, strong, blocks[1..], if i > 0 then i - 1 else 0, n);
      assert AllSumBytes(p, strong, blocks) == head + tail;
      hide AllSumBytes;
      Rows(|blocks|, 0, n);
      if 0 < i < |blocks| {
        Rows(|blocks|, i, n);
        Shifted(head, tail, (i - 1) * n, (i - 1) * n + n);
      }
    }
  }

  /** The header has the magic number, the block length and the strong length, and all blocks take equally much. */
  lemma SigBytesHeader(p: Params, strong: StrongSum, file: seq<byte>)
    requires p.Check() && StrongSumOk(strong)
    ensures var d, n := SigBytes(p, strong, file), p.strongSumLen;
            && |d| == 12 + |Cut(file, p.blockLen)| * (4 + n)
            && d[..12] == BigEndian(p.magic, 4) + BigEndian(p.blockLen, 4) + BigEndian(n, 4)
  {
    hide BigEndian, AllSumBytes, Cut;
    AllSumBytesAt(p, strong, Cut(file, p.blockLen), 0, 4 + p.strongSumLen);
  }

  /** A place in a part of a file. */
  lemma Within<T>(d: seq<T>, k: nat, all: seq<T>, at: nat, a: seq<T>, b: seq<T>)
    requires k <= |d| && d[k..] == all && at + |a| + |b| <= |all| && all[at..at + |a| + |b|] == a + b
    ensures k + at + |a| + |b| <= |d|
    ensures d[k + at..k + at + |a|] == a && d[k + at + |a|..k + at + |a| + |b|] == b
  {
    var e := a + b;
    SliceOfSlice(d, k, |d|, at, at + |a| + |b|);
    assert d[k..|d|] == all;
    assert d[k + at..k + at + |e|] == e;
    SliceOfSlice(d, k + at, k + at + |e|, 0, |a|);
    SliceOfSlice(d, k + at, k + at + |e|, |a|, |e|);
  }

  /** At a position: the weak sum of a block, and the first n bytes of its strong sum. */
  predicate HasSums(d: seq<byte>, at: nat, magic: int, n: nat, strong: StrongSum, block: seq<byte>)
    requires magic in {0x72730136, 0x72730137, 0x72730146, 0x72730147}
  {
    && at + 4 + n <= |d|
    && d[at..at + 4] == BigEndian(WeakOf(magic, block), 4)
    && n <= |strong(StrongOf(magic), block)|
    && d[at + 4..at + 4 + n] == strong(StrongOf(magic), block)[..n]
  }

  /** Every block of the file is there with its sums, in its place. */
  lemma SigBytesAt(p: Params, strong: StrongSum, file: seq<byte>, i: nat)
    requires p.Check() && StrongSumOk(strong) && i < |Cut(file, p.blockLen)|
    ensures p.magic in {0x72730136, 0x72730137, 0x72730146, 0x72730147} && i * (4 + p.strongSumLen) >= 0
    ensures HasSums(SigBytes(p, strong, file), 12 + i * (4 + p.strongSumLen), p.magic, p.strongSumLen, strong,
                    Cut(file, p.blockLen)[i])
  {
    hide BigEndian, SumBytes, AllSumBytes, Cut, WeakOf, StrongOf;
    var block, all, n := Cut(file, p.blockLen)[i], AllSumBytes(p, strong, Cut(file, p.blockLen)), p.strongSumLen;
    AllSumBytesAt(p, strong, Cut(file, p.blockLen), i, 4 + n);
    SumBytesAre(p, strong, block);
    hide Params.Check, StrongSumOk;
    var at: nat := i * (4 + n);
    assert SigBytes(p, strong, file)[12..] == all;
    Within(SigBytes(p, strong, file), 12, all, at,
           BigEndian(WeakOf(p.magic, block), 4), strong(StrongOf(p.magic), block)[..n]);
  }

  // ---- Reading ----

  /** What the fields of a file are read as. */
  function Field(d: seq<byte>, i: nat): int
    requires i + 4 <= |d|
  {
    AsInt(Unsigned(d[i..i + 4]))
  }

  /** The result that a header leads to, unless the header is good. */
  function HeaderError(d: seq<byte>): (e: Option<Result>) {
    if |d| < 8 then Some(InputEnded)
    else if Field(d, 4) < 1 then Some(Corrupt)
    else if |d| < 12 then Some(InputEnded)
    else if Field(d, 8) < 0 || Field(d, 8) > 32 then Some(Corrupt)
    else if Field(d, 0) !in {0, 0x72730136, 0x72730137, 0x72730146, 0x72730147} then Some(BadMagic)
    else if Field(d, 0) in {0x72730136, 0x72730146} && Field(d, 8) > 16 then Some(ParamError)
    else None
  }

  /** The parameters of a good header: a magic number or strong length of zero stands for the default. */
  function HeaderParams(d: seq<byte>): Params
    requires HeaderError(d).None?
  {
    var magic := if Field(d, 0) == 0 then 0x72730147 else Field(d, 0);
    Params(magic, Field(d, 4),
           if Field(d, 8) > 0 then Field(d, 8) else if magic in {0x72730136, 0x72730146} then 16 else 32)
  }

  /** The sums at position i: the old rolling sum is mixed, the new one is taken as it is. */
  function EntryAt(d: seq<byte>, p: Params, i: nat): BlockSig
    requires 0 < p.strongSumLen && i + 4 + p.strongSumLen <= |d|
  {
    var w := WordAt(d, i);
    BlockSig(if p.magic in {0x72730136, 0x72730137} then Mix32(w) else w, d[i + 4..i + 4 + p.strongSumLen])
  }

  /** As many of them as there is room for. */
  function Entries(d: seq<byte>, p: Params, i: nat): seq<BlockSig>
    requires 0 < p.strongSumLen && i <= |d|
    decreases |d| - i
  {
    var n := 4 + p.strongSumLen;
    if |d| < i + n then [] else [EntryAt(d, p, i)] + Entries(d, p, i + n)
  }

  lemma {:induction false} EntriesAre(d: seq<byte>, p: Params, i: nat, k: nat)
    requires 0 < p.strongSumLen && i <= |d|
    ensures var n := 4 + p.strongSumLen;
            && |Entries(d, p, i)| == (|d| - i) / n
            && (k < (|d| - i) / n ==>
                  0 <= k * n && i + k * n + n <= |d| && Entries(d, p, i)[k] == EntryAt(d, p, i + k * n))
    decreases |d| - i
  {
    hide EntryAt;
    var n := 4 + p.strongSumLen;
    if |d| - i >= n {
      EntriesAre(d, p, i + n, if k > 0 then k - 1 else 0);
      OneLess(|d| - i, n);
      if k > 0 {
        assert (k - 1) * n + n == k * n;
      }
    }
  }

  lemma {:induction false} LoadFrom(d: seq<byte>, p: Params, blocks: seq<BlockSig>, i: nat)
    requires p.Check() && i <= |d|
    ensures LoadBlocks(d, p, blocks, i)
            == Loaded(if (|d| - i) % (4 + p.strongSumLen) < 4 then Done else InputEnded, Some(p),
                      blocks + Entries(d, p, i))
    decreases |d| - i
  {
    hide WordAt, Mix32;
    var n := 4 + p.strongSumLen;
    if |d| - i >= n {
      MagicOf(p);
      LoadFrom(d, p, blocks + [EntryAt(d, p, i)], i + n);
      OneLess(|d| - i, n);
      assert blocks + ([EntryAt(d, p, i)] + Entries(d, p, i + n)) == blocks + [EntryAt(d, p, i)] + Entries(d, p, i + n);
    } else {
      assert blocks + [] == blocks;
    }
  }

  lemma OneLess(x: nat, n: nat)
    requires 0 < n <= x
    ensures (x - n) % n == x % n && x / n == (x - n) / n + 1
  {
    var q, r := x / n, x % n;
    assert x - n == n * (q - 1) + r;
    Unique(x - n, q - 1, r, n);
  }

  lemma GoodHeader(d: seq<byte>)
    requires HeaderError(d).None?
    ensures HeaderParams(d).Check()
  {
    hide Unsigned;
    var p := HeaderParams(d);
    assert p.magic in {0x72730136, 0x72730137, 0x72730146, 0x72730147};
    assert Unsigned(d[4..8]) < 0x1_0000_0000 by {
      UnsignedBound(d[4..8]);
      Capacities();
    }
  }

  /**
   What any file at all is loaded as: the errors of its header in the order in which they are
   noticed, and then every pair of sums that is there in full. Up to three bytes may be left over.
   */
  lemma LoadIs(d: seq<byte>, k: nat)
    ensures HeaderError(d).Some? ==> Load(d) == Loaded(HeaderError(d).value, None, [])
    ensures HeaderError(d).None? ==>
              var p := HeaderParams(d);
              var n := 4 + p.strongSumLen;
              && Load(d).result == (if (|d| - 12) % n < 4 then Done else InputEnded) && Load(d).params == Some(p)
              && |Load(d).blocks| == (|d| - 12) / n
              && (k < (|d| - 12) / n ==>
                    0 <= k * n && 12 + k * n + n <= |d| && Load(d).blocks[k] == EntryAt(d, p, 12 + k * n))
  {
    hide Unsigned, LoadBlocks, EntryAt, Entries;
    if HeaderError(d).None? {
      var p := HeaderParams(d);
      GoodHeader(d);
      MagicOf(p);
      LoadFrom(d, p, [], 12);
      EntriesAre(d, p, 12, k);
      assert [] + Entries(d, p, 12) == Entries(d, p, 12);
    }
  }

  /** The arguments of a new signature, with their defaults, and the errors. */
  lemma ArgumentsAre(magic: int, blockLen: nat, strongLen: int)
    requires strongLen >= -1
    ensures var m := if magic == 0 then 0x72730147 else magic;
            InitResult(magic, blockLen, strongLen)
            == if m !in {0x72730136, 0x72730137, 0x72730146, 0x72730147} then (BadMagic, None)
               else
                 var most := if m in {0x72730136, 0x72730146} then 16 else 32;
                 if strongLen > most then (ParamError, None)
                 else
                   (Done, Some(Params(m, if blockLen == 0 then 2048 else blockLen,
                                      if strongLen == 0 then most else if strongLen == -1 then 12 else strongLen)))
  {
  }

  lemma HeaderFields(p: Params, strong: StrongSum, file: seq<byte>, m: nat)
    requires p.Check() && StrongSumOk(strong) && m <= |SigBytes(p, strong, file)|
    ensures var d := SigBytes(p, strong, file)[..m];
            && (m >= 4 ==> Field(d, 0) == p.magic) && (m >= 8 ==> Field(d, 4) == p.blockLen)
            && (m >= 12 ==> Field(d, 8) == p.strongSumLen)
  {
    hide BigEndian, Unsigned, AllSumBytes, Cut;
    var d := SigBytes(p, strong, file)[..m];
    if m >= 4 {
      assert d[0..4] == BigEndian(p.magic, 4);
      FieldReadsBack(d, 0, p.magic);
    }
    if m >= 8 {
      assert d[4..8] == BigEndian(p.blockLen, 4);
      FieldReadsBack(d, 4, p.blockLen);
    }
    if m >= 12 {
      assert d[8..12] == BigEndian(p.strongSumLen, 4);
      FieldReadsBack(d, 8, p.strongSumLen);
    }
  }

  /** A signature file that is cut short loads as that of fewer blocks, unless four bytes or more of a pair are left. */
  lemma CutIsNoticed(p: Params, strong: StrongSum, file: seq<byte>, m: nat)
    requires p.Check() && StrongSumOk(strong) && m <= |SigBytes(p, strong, file)|
    ensures Load(SigBytes(p, strong, file)[..m]).result
            == if m < 12 || (m - 12) % (4 + p.strongSumLen) >= 4 then InputEnded else Done
    ensures m >= 12 ==> |Load(SigBytes(p, strong, file)[..m]).blocks| == (m - 12) / (4 + p.strongSumLen)
  {
    hide Load, SigBytes, Field;
    var d := SigBytes(p, strong, file)[..m];
    HeaderFields(p, strong, file, m);
    MagicOf(p);
    LoadIs(d, 0);
  }
}
