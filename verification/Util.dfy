/** Integer logarithm and square root of file sizes. */
module Util {
  import opened Bytes
  import opened Congruence

  /** One past the largest value of `rs_long_t`, a signed 64-bit integer. */
  const LONG_LIMIT := 0x8000_0000_0000_0000

  /** The position of the highest set bit. */
  function Log2(v: nat): nat {
    if v < 2 then 0 else 1 + Log2(v / 2)
  }

  lemma {:induction false} Log2Bounds(v: nat)
    requires v > 0
    ensures TwoTo(Log2(v)) <= v < TwoTo(Log2(v) + 1)
  {
    if v >= 2 {
      Log2Bounds(v / 2);
    }
  }

  /** The number of shifts that bring v to zero, less one. */
  method LongLn2(v: nat) returns (n: nat)
    ensures v == 0 ==> n == 0
    ensures v > 0 ==> TwoTo(n) <= v < TwoTo(n + 1)
    ensures n == Log2(v)
  {
    n := 0;
    var w: nat := v / 2;
    while w != 0
      invariant Log2(v) == if w == 0 then n else n + 1 + Log2(w)
    {
      n := n + 1;
      w := w / 2;
    }
    if v > 0 {
      Log2Bounds(v);
    }
  }

  /** The position of the highest bit of the square root. */
  function RootBit(v: nat): nat {
    if v < 4 then 0 else 1 + RootBit(v / 4)
  }

  lemma {:induction false} RootBitBounds(v: nat)
    ensures v < TwoTo(2 * RootBit(v) + 2)
    ensures v > 0 ==> TwoTo(2 * RootBit(v)) <= v
  {
    if v >= 4 {
      RootBitBounds(v / 4);
      var k := RootBit(v / 4);
      assert TwoTo(2 * (k + 1)) == 4 * TwoTo(2 * k);
      assert TwoTo(2 * (k + 1) + 2) == 4 * TwoTo(2 * k + 2);
    }
  }

  function Square(n: int): int {
    n * n
  }

  lemma {:induction false} SquareOfTwoTo(k: nat)
    ensures Square(TwoTo(k)) == TwoTo(2 * k)
  {
    if k > 0 {
      SquareOfTwoTo(k - 1);
      SquareOfDouble(TwoTo(k - 1));
      assert TwoTo(2 * k) == 2 * TwoTo(2 * k - 1) == 4 * TwoTo(2 * (k - 1));
    }
  }

  lemma SquareOfDouble(n: int)
    ensures Square(2 * n) == 4 * Square(n)
  {
  }

  lemma SquareGrows(a: nat, b: nat)
    requires a <= b
    ensures Square(a) <= Square(b)
  {
  }

  /** Where the highest bit of the root lies, on either side of 2^62. */
  lemma RootBitSplit(v: nat)
    requires v < LONG_LIMIT
    ensures v < 0x4000_0000_0000_0000 ==> RootBit(v) <= 30
    ensures v >= 0x4000_0000_0000_0000 ==> RootBit(v) == 31
    ensures TwoTo(30) == 0x4000_0000 && TwoTo(31) == 0x8000_0000
  {
    assert v == 0 ==> RootBit(v) == 0;
    hide RootBit;
    RootBitBounds(v);
    TwoToThirty();
    TwoToAdd(30, 32);
    assert TwoTo(62) == 0x4000_0000_0000_0000 && TwoTo(63) == LONG_LIMIT;
    assert TwoTo(64) == 2 * TwoTo(63) && TwoTo(31) == 2 * TwoTo(30);
    hide TwoTo;
    var k := RootBit(v);
    if k >= 32 {
      Monotone(64, 2 * k);
    } else if k == 31 {
      assert TwoTo(2 * k) == TwoTo(62);
    } else {
      Monotone(2 * k + 2, 62);
    }
  }

  /** Below 2^62 no trial square leaves `rs_long_t`; from 2^62 up, the second one does. */
  lemma TrialSquares(v: nat, n: nat)
    requires v < LONG_LIMIT
    ensures v < 0x4000_0000_0000_0000 ==> TwoTo(RootBit(v)) <= 0x4000_0000
    ensures v < 0x4000_0000_0000_0000 && n < 2 * TwoTo(RootBit(v)) ==> Square(n) < LONG_LIMIT
    ensures v >= 0x4000_0000_0000_0000 ==> RootBit(v) == 31 && TwoTo(31) == 0x8000_0000
    ensures Square(0x8000_0000) == 0x4000_0000_0000_0000 && Square(0xc000_0000) >= LONG_LIMIT
  {
    RootBitSplit(v);
    hide RootBit, TwoTo;
    if v < 0x4000_0000_0000_0000 {
      Monotone(RootBit(v), 30);
      if n < 2 * TwoTo(RootBit(v)) {
        SquareGrows(n, 0x8000_0000);
      }
    }
  }

  /** The low j bits of n are zero, so setting one of them adds it. */
  predicate LowBitsClear(n: nat, j: nat) {
    j == 0 || (n % 2 == 0 && LowBitsClear(n / 2, j - 1))
  }

  lemma {:induction false} ZeroIsClear(j: nat)
    ensures LowBitsClear(0, j)
  {
    if j > 0 {
      ZeroIsClear(j - 1);
    }
  }

  lemma {:induction false} SetClearBit(n: nat, j: nat)
    requires LowBitsClear(n, j + 1)
    ensures LowBitsClear(n, j) && LowBitsClear(n + TwoTo(j), j)
  {
    if j > 0 {
      SetClearBit(n / 2, j - 1);
      assert (n + TwoTo(j)) / 2 == n / 2 + TwoTo(j - 1);
    }
  }

  /**
   The integer square root, by bits from the highest down. None when a square overflows
   `rs_long_t`, which happens exactly for sizes from 2^62 up.
   */
  method LongSqrt(v: nat) returns (root: Option<nat>)
    requires v < LONG_LIMIT
    ensures root.Some? <==> v < 0x4000_0000_0000_0000
    ensures root.Some? ==> Square(root.value) <= v < Square(root.value + 1)
  {
    var b: nat, w: nat := 1, v / 4;
    ghost var k: int := 0;
    while w != 0
      invariant k >= 0 && b == TwoTo(k)
      invariant RootBit(v) == if w == 0 then k else k + 1 + RootBit(w)
    {
      b := 2 * b;
      k := k + 1;
      w := w / 4;
    }
    RootBitBounds(v);
    SquareOfTwoTo(k + 1);
    TrialSquares(v, 0);
    hide Square, TwoTo, RootBit, LowBitsClear;
    ghost var top := b;
    var n: nat := 0;
    ZeroIsClear(k + 1);
    assert Square(0) == 0 by { SquareOfZero(); }
    while b != 0
      invariant -1 <= k <= RootBit(v) && b == if k < 0 then 0 else TwoTo(k)
      invariant LowBitsClear(n, k + 1)
      invariant n + 2 * b <= 2 * top && (b == 0 ==> n < 2 * top)
      invariant Square(n) <= v < Square(n + if b > 0 then 2 * b else 1)
      invariant v < 0x4000_0000_0000_0000 || (k == 31 && n == 0) || (k == 30 && n == 0x8000_0000)
      decreases k
    {
      Halve(k);
      SetClearBit(n, k);
      n := n + b;
      TrialSquares(v, n);
      assert v >= 0x4000_0000_0000_0000 ==> n == if k == 31 then 0x8000_0000 else 0xc000_0000 by {
        TwoToThirty();
      }
      if Square(n) >= LONG_LIMIT {
        return None;
      }
      if Square(n) > v {
        n := n - b;
      }
      b := b / 2;
      k := k - 1;
    }
    root := Some(n);
  }

  lemma Halve(k: nat)
    ensures TwoTo(k) > 0 && (if k == 0 then TwoTo(k) == 1 else TwoTo(k) == 2 * TwoTo(k - 1))
  {
  }

  lemma SquareOfZero()
    ensures Square(0) == 0
  {
  }
}
