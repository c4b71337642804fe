/** The strong sums of blocks: MD4, or the first half of BLAKE2b. */
module StrongSums {
  import opened Bytes
  import opened Checksum
  import opened Digests
  import Blake2b
  import Mdfour

  /** The two sums over given compression functions. */
  function Strong(md4: Mdfour.Compression, blake: Blake2b.Compression, init: Blake2b.Words8): StrongSum {
    (kind: StrongKind, buf: seq<byte>) =>
      match kind
      case Md4 => Mdfour.Digest(md4, buf)
      case Blake2 => Blake2b.Serial(Blake2b.Hash(blake, init, buf))[..BLAKE2_SUM_LENGTH]
  }

  /** They are as long as signatures expect, and so stand for the pair of strong sums of all other modules. */
  lemma StrongIsOk(md4: Mdfour.Compression, blake: Blake2b.Compression, init: Blake2b.Words8)
    ensures StrongSumOk(Strong(md4, blake, init))
  {
    forall kind: StrongKind, buf: seq<byte>
      ensures |Strong(md4, blake, init)(kind, buf)| == SumLength(kind)
    {
      match kind
      case Md4 => assert |Mdfour.Digest(md4, buf)| == 16;
      case Blake2 => assert |Blake2b.Serial(Blake2b.Hash(blake, init, buf))| == 64;
    }
  }

  /** A strong sum computed through the streaming interfaces. */
  method CalcStrongSum(kind: StrongKind, buf: seq<byte>, md4: Mdfour.Compression, blake: Blake2b.Compression,
                       init: Blake2b.Words8)
    returns (sum: seq<byte>)
    ensures sum == Strong(md4, blake, init)(kind, buf)
  {
    assert Flatten([buf]) == buf by {
      assert Flatten([buf][..0]) == [] && [] + buf == buf;
    }
    match kind {
      case Md4 =>
        sum := Mdfour.Sum(md4, [buf]);
      case Blake2 =>
        sum := Blake2b.HashOf(blake, init, BLAKE2_SUM_LENGTH, [buf]);
    }
  }
}
