/** Result codes, magic numbers and signature parameters shared by all jobs. */
module Protocol {
  import Bytes
  import opened Checksum

  datatype Result =
    | Done
    | Blocked
    | Running
    | IoError
    | InputEnded
    | BadMagic
    | Corrupt
    | InternalError
    | ParamError

  const DELTA_MAGIC := 0x72730236
  const MD4_SIG_MAGIC := 0x72730136
  const BLAKE2_SIG_MAGIC := 0x72730137
  const RK_MD4_SIG_MAGIC := 0x72730146
  const RK_BLAKE2_SIG_MAGIC := 0x72730147

  const DEFAULT_BLOCK_LEN := 2048
  const DEFAULT_MIN_STRONG_LEN := 12

  /** The most that one literal command takes, its opcode and length included. */
  const MAX_DELTA_CMD := 0x1_0000

  /** One past the largest value of C's `int`. */
  const INT_LIMIT := 0x8000_0000

  /** The header fields of a signature. */
  datatype Params = Params(magic: int, blockLen: int, strongSumLen: int) {

    /** The digit of the magic above the last one selects the weak sum. */
    function WeakKind(): WeakKind {
      if magic / 16 % 16 == 3 then RollsumKind else RabinKarpKind
    }

    /** The last digit of the magic selects the strong sum. */
    function StrongKind(): StrongKind {
      if magic % 16 == 6 then Md4 else Blake2
    }

    /** What the library asserts of the arguments of every signature. */
    ghost predicate Check() {
      && magic / 256 == MD4_SIG_MAGIC / 256
      && (magic / 16 % 16 == 3 || magic / 16 % 16 == 4)
      && (magic % 16 == 6 || magic % 16 == 7)
      && 0 < blockLen < INT_LIMIT
      && 0 < strongSumLen <= SumLength(StrongKind())
    }

    /** The truncated strong sum of a block. */
    function Strong(strong: StrongSum, buf: seq<Bytes.byte>): seq<Bytes.byte> {
      var sum := strong(StrongKind(), buf);
      if 0 <= strongSumLen <= |sum| then sum[..strongSumLen] else sum
    }

    /** The weak sum of a block as lookups compare it. */
    function Weak(buf: seq<Bytes.byte>): Bytes.u32 {
      WeakDigest(WeakKind(), buf)
    }
  }

  predicate KnownMagic(magic: int) {
    magic in {MD4_SIG_MAGIC, BLAKE2_SIG_MAGIC, RK_MD4_SIG_MAGIC, RK_BLAKE2_SIG_MAGIC}
  }

  lemma StrongLength(p: Params, strong: StrongSum, buf: seq<Bytes.byte>)
    requires p.Check() && StrongSumOk(strong)
    ensures |p.Strong(strong, buf)| == p.strongSumLen
  {
  }
}
