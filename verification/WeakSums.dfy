/** The weak sums in closed form, and the values that the program's own tests expect of them. */
module WeakSums {
  import opened Bytes
  import opened Congruence
  import RabinKarp
  import Rollsum

  // ---- Rollsum ----

  /** Each byte, with 31 added, counts once. */
  function Once(w: seq<byte>): nat {
    if w == [] then 0 else Once(w[1..]) + (w[0] as int + 31)
  }

  /** And here as often as there are bytes from it on. */
  function ByPlace(w: seq<byte>): nat {
    if w == [] then 0 else |w| * (w[0] as int + 31) + ByPlace(w[1..])
  }

  lemma {:induction false} SumsAre(w: seq<byte>)
    ensures Rollsum.S1(w) == Once(w) && Rollsum.S2(w) == ByPlace(w)
  {
    if w != [] {
      SumsAre(w[1..]);
      assert w == [w[0]] + w[1..];
      Rollsum.SumsCons(w[0], w[1..]);
    }
  }

  /** The plain sum is the low half of the digest, and the one by place the high half. */
  lemma RollsumIs(w: seq<byte>)
    ensures Rollsum.Hash(w) % 0x1_0000 == Once(w) % 0x1_0000
    ensures Rollsum.Hash(w) / 0x1_0000 == ByPlace(w) % 0x1_0000
  {
    SumsAre(w);
  }

  // ---- RabinKarp ----

  /** The bytes as the digits of a number in base 0x08104225. */
  function Digits(w: seq<byte>): int {
    if w == [] then 0 else w[0] * Pow(0x08104225, |w| - 1) + Digits(w[1..])
  }

  lemma {:induction false} PolyIs(w: seq<byte>)
    ensures RabinKarp.Poly(w) == Pow(0x08104225, |w|) + Digits(w)
  {
    if w != [] {
      PolyIs(w[1..]);
      assert w == [w[0]] + w[1..];
      RabinKarp.PolyCons(w[0], w[1..]);
      var t := Pow(0x08104225, |w| - 1);
      assert t + t * (w[0] + RabinKarp.ADJ) == 0x08104225 * t + w[0] * t;
    }
  }

  /** The digest is that number, with a leading one, modulo 2^32. */
  lemma RabinKarpIs(w: seq<byte>)
    ensures RabinKarp.Hash(w) == (Pow(0x08104225, |w|) + Digits(w)) % 0x1_0000_0000
  {
    PolyIs(w);
  }

  // ---- The values in the tests ----

  lemma RollsumValues()
    ensures Rollsum.Hash([]) == 0 && Rollsum.Hash([0, 1, 2, 3]) == 0x0140_0082
  {
    SumsAre([0, 1, 2, 3]);
  }

  lemma RabinKarpValues()
    ensures RabinKarp.Hash([]) == 1 && RabinKarp.Hash([0, 1, 2, 3]) == 0xaf98_1e97
  {
    hide RabinKarp.Hash;
    Nothing();
    assert [] + [0] == [0] && [0] + [1] == [0, 1] && [0, 1] + [2] == [0, 1, 2] && [0, 1, 2] + [3] == [0, 1, 2, 3];
    Next([], 0, 1, 0x8104225);
    Next([0], 1, 0x8104225, 0xa5b7195a);
    Next([0, 1], 2, 0xa5b7195a, 0x8d9fde04);
    Next([0, 1, 2], 3, 0x8d9fde04, 0xaf98_1e97);
  }

  lemma Nothing()
    ensures RabinKarp.Hash([]) == 1
  {
  }

  lemma Next(w: seq<byte>, b: byte, h: u32, g: u32)
    requires RabinKarp.Hash(w) == h && (0x0810_4225 * h + b) % 0x1_0000_0000 == g
    ensures RabinKarp.Hash(w + [b]) == g
  {
    RabinKarp.HashSnoc(w, b);
  }
}
