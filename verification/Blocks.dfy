/** Cutting a file into blocks, and the signature that the blocks have. */
module Blocks {
  import opened Bytes
  import opened Checksum
  import opened Congruence
  import opened Hashtable
  import opened Protocol
  import opened Sumset

  /** The blocks of a file: all of length b but the last, which may be shorter. */
  function Cut(file: seq<byte>, b: nat): seq<seq<byte>>
    requires b > 0
  {
    if file == [] then []
    else if |file| <= b then [file]
    else [file[..b]] + Cut(file[b..], b)
  }

  /** Block i is the slice at offset i * b. */
  lemma {:induction false} CutAt(file: seq<byte>, b: nat, i: nat)
    requires b > 0 && i < |Cut(file, b)|
    ensures i * b < |file| && Cut(file, b)[i] == file[i * b..Min(i * b + b, |file|)]
  {
    if |file| <= b {
      assert i == 0;
      assert file[0..|file|] == file;
    } else if i > 0 {
      CutAt(file[b..], b, i - 1);
      var j := (i - 1) * b;
      assert j + b == i * b;
      assert Cut(file, b)[i] == Cut(file[b..], b)[i - 1];
      hide Cut;
      assert file[b..] == file[b..|file|];
      SliceOfSlice(file, b, |file|, j, Min(j + b, |file| - b));
    }
  }

  /** There are as many blocks as it takes to cover the file. */
  lemma {:induction false} CutCount(file: seq<byte>, b: nat)
    requires b > 0
    ensures |Cut(file, b)| * b >= |file|
    ensures file != [] ==> (|Cut(file, b)| - 1) * b < |file|
    ensures |Cut(file, b)| <= |file| && (file != [] ==> Cut(file, b) != [])
  {
    if |file| > b {
      CutCount(file[b..], b);
      var n := |Cut(file[b..], b)|;
      assert (n + 1) * b == n * b + b;
      assert n * b == (n - 1) * b + b;
    }
  }

  /** The sums of one block, as a loaded signature holds them. */
  function SumsOf(p: Params, strong: StrongSum, block: seq<byte>): BlockSig {
    BlockSig(p.Weak(block), p.Strong(strong, block))
  }

  /** The block signatures of a file. */
  function SigBlocks(p: Params, strong: StrongSum, file: seq<byte>): seq<BlockSig>
    requires p.blockLen > 0
  {
    var blocks := Cut(file, p.blockLen);
    seq(|blocks|, i requires 0 <= i < |blocks| => SumsOf(p, strong, blocks[i]))
  }

  /** The signature of a file, as a value. */
  function SigOf(p: Params, strong: StrongSum, file: seq<byte>): SigView
    requires p.blockLen > 0
  {
    SigView(p, strong, SigBlocks(p, strong, file))
  }

  /** Looking up an original block of the file always finds a match, at or before its own place. */
  lemma OwnBlockMatches(p: Params, strong: StrongSum, file: seq<byte>, i: nat)
    requires p.blockLen > 0 && i < |Cut(file, p.blockLen)|
    ensures 0 <= SigOf(p, strong, file).Match(Cut(file, p.blockLen)[i]) <= i * p.blockLen
  {
    var sig, block := SigOf(p, strong, file), Cut(file, p.blockLen)[i];
    assert sig.blocks[i] == SumsOf(p, strong, block);
    FirstFromIsLeast(sig.blocks, p.Weak(block), p.Strong(strong, block), 0);
    var f := First(sig.blocks, p.Weak(block), p.Strong(strong, block)).value;
    assert f <= i;
    MulMono(f, i, p.blockLen);
  }
}
