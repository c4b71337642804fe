/** What the two strong sums have in common. */
module Digests {
  import opened Bytes
  import opened Congruence

  const WORD64 := 0x1_0000_0000_0000_0000

  /** The low n bytes of v, least significant first. */
  function LittleEndian(v: nat, n: nat): (s: seq<byte>)
    ensures |s| == n
  {
    if n == 0 then [] else [v % 256] + LittleEndian(v / 256, n - 1)
  }

  function Zeros(n: nat): (s: seq<byte>)
    ensures |s| == n
  {
    seq(n, _ => 0)
  }

  /** A counter that wraps around. */
  lemma CountAdds(n: nat, m: nat)
    ensures (n % WORD64 + m) % WORD64 == (n + m) % WORD64
  {
    CongReduce(n, WORD64);
    CongAdd(n % WORD64, n, m, m, WORD64);
  }

  /** The message that is fed in in pieces. */
  function Flatten(pieces: seq<seq<byte>>): seq<byte> {
    if pieces == [] then [] else Flatten(pieces[..|pieces| - 1]) + pieces[|pieces| - 1]
  }
}
