/** The weak sums and strong sums behind one interface. */
module Checksum {
  import opened Bytes
  import RabinKarp
  import Rollsum

  datatype WeakKind = RollsumKind | RabinKarpKind
  datatype StrongKind = Md4 | Blake2

  const MD4_SUM_LENGTH := 16
  const BLAKE2_SUM_LENGTH := 32
  const MAX_STRONG_SUM_LENGTH := 32

  function SumLength(kind: StrongKind): nat {
    match kind
    case Md4 => MD4_SUM_LENGTH
    case Blake2 => BLAKE2_SUM_LENGTH
  }

  /**
   The pair of strong hash functions. All that the rest of the model knows about them is how
   long their results are.
   */
  type StrongSum = (StrongKind, seq<byte>) -> seq<byte>

  ghost predicate StrongSumOk(strong: StrongSum) {
    forall kind, buf :: |strong(kind, buf)| == SumLength(kind)
  }

  function XorShift16(h: bv32): bv32 { h ^ (h >> 16) }
  function XorShift13(h: bv32): bv32 { h ^ (h >> 13) }
  function Times1(h: bv32): bv32 { h * 0x85eb_ca6b }
  function Times2(h: bv32): bv32 { h * 0xc2b2_ae35 }

  /** MurmurHash3 finalization. */
  function MixBits(h: bv32): bv32 {
    XorShift16(Times2(XorShift13(Times1(XorShift16(h)))))
  }

  function Mix32(h: u32): u32 {
    MixBits(h as bv32) as int
  }

  /** A weak sum as a signature file stores it. */
  function RawWeak(kind: WeakKind, w: seq<byte>): u32 {
    match kind
    case RollsumKind => Rollsum.Hash(w)
    case RabinKarpKind => RabinKarp.Hash(w)
  }

  /** Rollsums are mixed before they are compared; RabinKarp sums are not. */
  function Mixed(kind: WeakKind, raw: u32): u32 {
    match kind
    case RollsumKind => Mix32(raw)
    case RabinKarpKind => raw
  }

  /** A weak sum as a loaded signature and a delta scan compare it. */
  function WeakDigest(kind: WeakKind, w: seq<byte>): u32 {
    Mixed(kind, RawWeak(kind, w))
  }

  /** One weak sum from scratch, not mixed. */
  method CalcWeakSum(kind: WeakKind, buf: seq<byte>) returns (d: u32)
    ensures d == RawWeak(kind, buf)
  {
    match kind {
      case RollsumKind =>
        var sum := new Rollsum.Rollsum();
        sum.Update(buf);
        d := sum.Digest();
      case RabinKarpKind =>
        var sum := new RabinKarp.RabinKarp();
        sum.Update(buf);
        d := sum.Digest();
    }
    assert [] + buf == buf;
  }

  /** A weak sum of either kind. Only the accumulator of the current kind is in use. */
  class WeakSum {
    var kind: WeakKind
    const rs: Rollsum.Rollsum
    const rk: RabinKarp.RabinKarp

    ghost const Repr: set<object>

    ghost predicate Valid()
      reads this, rs, rk
    {
      Repr == {this, rs, rk} && rs.Valid() && rk.Valid()
    }

    /** The bytes the sum stands for. */
    ghost function Window(): seq<byte>
      reads this, rs, rk
    {
      if kind.RollsumKind? then rs.window else rk.window
    }

    constructor (kind: WeakKind)
      ensures Valid() && fresh(Repr) && Window() == [] && this.kind == kind
    {
      this.kind := kind;
      rs := new Rollsum.Rollsum();
      rk := new RabinKarp.RabinKarp();
      Repr := {this, rs, rk};
    }

    method Reset()
      requires Valid()
      modifies rs, rk
      ensures Valid() && Window() == []
    {
      if kind == RollsumKind {
        rs.Init();
      } else {
        rk.Init();
      }
    }

    method Count() returns (n: nat)
      requires Valid()
      ensures n == |Window()|
    {
      n := if kind == RollsumKind then rs.count else rk.count;
    }

    method Update(buf: seq<byte>)
      requires Valid()
      modifies rs, rk
      ensures Valid() && Window() == old(Window()) + buf
    {
      if kind == RollsumKind {
        rs.Update(buf);
      } else {
        rk.Update(buf);
      }
    }

    method Rotate(out: byte, in_: byte)
      requires Valid() && Window() != [] && Window()[0] == out
      modifies rs, rk
      ensures Valid() && Window() == old(Window())[1..] + [in_]
    {
      if kind == RollsumKind {
        rs.Rotate(out, in_);
      } else {
        rk.Rotate(out, in_);
      }
    }

    method Rollin(in_: byte)
      requires Valid()
      modifies rs, rk
      ensures Valid() && Window() == old(Window()) + [in_]
    {
      if kind == RollsumKind {
        rs.Rollin(in_);
      } else {
        rk.Rollin(in_);
      }
    }

    method Rollout(out: byte)
      requires Valid() && Window() != [] && Window()[0] == out
      modifies rs, rk
      ensures Valid() && Window() == old(Window())[1..]
    {
      if kind == RollsumKind {
        rs.Rollout(out);
      } else {
        rk.Rollout(out);
      }
    }

    /** Whatever mix of operations built the window, the digest is that of a fresh sum over it. */
    method Digest() returns (d: u32)
      requires Valid()
      ensures d == WeakDigest(kind, Window())
    {
      hide Mix32;
      if kind == RollsumKind {
        var raw := rs.Digest();
        d := Mix32(raw);
      } else {
        d := rk.Digest();
      }
    }
  }
}
