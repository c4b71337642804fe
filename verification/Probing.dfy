/** The probe sequence of the hash table: triangular steps from a home slot, modulo a power of two. */
module Probing {
  import opened Congruence

  function Triangle(s: nat): nat {
    if s == 0 then 0 else Triangle(s - 1) + s
  }

  /** The low bits of x: what `x & tmask` keeps in a table of 2^bits slots. */
  function Mask(x: nat, bits: nat): (r: nat)
    ensures r < TwoTo(bits)
  {
    if bits == 0 then 0 else 2 * Mask(x / 2, bits - 1) + x % 2
  }

  lemma {:induction false} MaskIsModulo(x: nat, bits: nat)
    ensures Mask(x, bits) == x % TwoTo(bits)
  {
    if bits == 0 {
    } else {
      var n, r := TwoTo(bits - 1), Mask(x / 2, bits - 1);
      MaskIsModulo(x / 2, bits - 1);
      DoubleModulo(x, n, r);
    }
  }

  lemma DoubleModulo(x: nat, n: nat, r: nat)
    requires n > 0 && r == x / 2 % n
    ensures x % (2 * n) == 2 * r + x % 2
  {
    var q := x / 2 / n;
    assert x / 2 == q * n + r;
    assert q * (2 * n) == 2 * (q * n);
    Unique(x, q, 2 * r + x % 2, 2 * n);
  }

  /** The slot probed at step s for a key hash h: each step goes one further than the last. */
  function At(h: nat, s: nat, bits: nat): (i: nat)
    ensures i < TwoTo(bits)
  {
    if s == 0 then Mask(h, bits) else Mask(At(h, s - 1, bits) + s, bits)
  }

  /** In closed form the probes are triangular. */
  lemma {:induction false} AtIsTriangular(h: nat, s: nat, bits: nat)
    ensures At(h, s, bits) == (h + Triangle(s)) % TwoTo(bits)
  {
    var n := TwoTo(bits);
    if s == 0 {
      MaskIsModulo(h, bits);
    } else {
      AtIsTriangular(h, s - 1, bits);
      MaskIsModulo(At(h, s - 1, bits) + s, bits);
      CongReduce(h + Triangle(s - 1), n);
      CongAdd(At(h, s - 1, bits), h + Triangle(s - 1), s, s, n);
    }
  }

  lemma {:induction false} TriangleDoubled(s: nat)
    ensures 2 * Triangle(s) == s * (s + 1)
  {
    if s > 0 {
      TriangleDoubled(s - 1);
      assert s * (s + 1) == (s - 1) * s + 2 * s;
    }
  }

  /** If 2^j divides x * y and x is odd, then 2^j divides y. */
  lemma {:induction false} OddFactor(x: nat, y: nat, k: int, j: nat) returns (c: int)
    requires x % 2 == 1 && x * y == k * TwoTo(j)
    ensures y == c * TwoTo(j)
  {
    if j == 0 {
      c := y;
    } else {
      var h := TwoTo(j - 1);
      assert k * TwoTo(j) == 2 * (k * h);
      var u := x / 2;
      assert x * y == 2 * (u * y) + y by { assert x == 2 * u + 1; }
      var z := k * h - u * y;
      assert y == 2 * z;
      assert x * (2 * z) == 2 * (x * z);
      c := OddFactor(x, z, k, j - 1);
      assert c * TwoTo(j) == 2 * (c * h);
    }
  }

  /** A difference of triangular numbers, doubled, is a product of two numbers of opposite parity. */
  lemma TriangleDifference(a: nat, b: nat, k: int, bits: nat)
    requires a < b && Triangle(b) == Triangle(a) + k * TwoTo(bits)
    ensures (b - a) * (b + a + 1) == k * TwoTo(bits + 1)
  {
    TriangleDoubled(a);
    TriangleDoubled(b);
    calc {
      (b - a) * (b + a + 1);
      b * (b + 1) - a * (a + 1);
      2 * (k * TwoTo(bits));
      k * (2 * TwoTo(bits));
    }
  }

  lemma SameSlot(h: nat, a: nat, b: nat, bits: nat) returns (k: int)
    requires At(h, a, bits) == At(h, b, bits)
    ensures Triangle(b) == Triangle(a) + k * TwoTo(bits)
  {
    AtIsTriangular(h, a, bits);
    AtIsTriangular(h, b, bits);
    k := Quotient(h + Triangle(b), h + Triangle(a), TwoTo(bits));
  }

  lemma TrianglesApart(a: nat, b: nat, k: int, bits: nat)
    requires a < b < TwoTo(bits)
    ensures Triangle(b) != Triangle(a) + k * TwoTo(bits)
  {
    if Triangle(b) == Triangle(a) + k * TwoTo(bits) {
      TriangleDifference(a, b, k, bits);
      var x, y := b - a, b + a + 1;
      assert x + y == 2 * b + 1;
      Unfactorable(x, y, k, bits);
    }
  }

  /** Two different steps below the table size never probe the same slot. */
  lemma ProbesDiffer(h: nat, a: nat, b: nat, bits: nat)
    requires a < b < TwoTo(bits)
    ensures At(h, a, bits) != At(h, b, bits)
  {
    if At(h, a, bits) == At(h, b, bits) {
      var k := SameSlot(h, a, b, bits);
      TrianglesApart(a, b, k, bits);
    }
  }

  /** Neither factor can hold all of 2^(bits + 1). */
  lemma Unfactorable(x: nat, y: nat, k: int, bits: nat)
    requires 0 < x < TwoTo(bits + 1) && 0 < y < TwoTo(bits + 1) && (x + y) % 2 == 1
    ensures x * y != k * TwoTo(bits + 1)
  {
    hide TwoTo;
    if x % 2 == 1 {
      OddTimesSmall(x, y, k, bits + 1);
    } else {
      assert y * x == x * y;
      OddTimesSmall(y, x, k, bits + 1);
    }
  }

  /** An odd number times a number below 2^j is no multiple of 2^j. */
  lemma OddTimesSmall(x: nat, y: nat, k: int, j: nat)
    requires x % 2 == 1 && 0 < y < TwoTo(j)
    ensures x * y != k * TwoTo(j)
  {
    if x * y == k * TwoTo(j) {
      var c := OddFactor(x, y, k, j);
      SmallMultiple(y, c, TwoTo(j));
    }
  }

  lemma SmallMultiple(y: int, c: int, m: nat)
    requires 0 < y == c * m
    ensures y >= m
  {
  }

  function Visited(h: nat, s: nat, bits: nat): set<nat> {
    set t | 0 <= t < s :: At(h, t, bits)
  }

  /** After s steps exactly s different slots have been seen. */
  lemma {:induction false} VisitedCount(h: nat, s: nat, bits: nat)
    requires s <= TwoTo(bits)
    ensures |Visited(h, s, bits)| == s
  {
    if s > 0 {
      VisitedCount(h, s - 1, bits);
      forall t | 0 <= t < s - 1
        ensures At(h, t, bits) != At(h, s - 1, bits)
      {
        ProbesDiffer(h, t, s - 1, bits);
      }
      assert Visited(h, s, bits) == Visited(h, s - 1, bits) + {At(h, s - 1, bits)};
    }
  }

  /** So 2^bits steps see every slot of the table, each one once. */
  lemma ProbesCoverTable(h: nat, bits: nat)
    ensures Visited(h, TwoTo(bits), bits) == Slots(TwoTo(bits))
    ensures forall a, b :: 0 <= a < b < TwoTo(bits) ==> At(h, a, bits) != At(h, b, bits)
  {
    var n := TwoTo(bits);
    VisitedCount(h, n, bits);
    SlotsCount(n);
    SubsetOfSameSize(Visited(h, n, bits), Slots(n));
    forall a, b | 0 <= a < b < n
      ensures At(h, a, bits) != At(h, b, bits)
    {
      ProbesDiffer(h, a, b, bits);
    }
  }

  function Slots(n: nat): (s: set<nat>)
    ensures forall i: nat :: i in s <==> i < n
  {
    if n == 0 then {} else Slots(n - 1) + {n - 1}
  }

  lemma {:induction false} SlotsCount(n: nat)
    ensures |Slots(n)| == n
  {
    if n > 0 {
      SlotsCount(n - 1);
      assert Slots(n) == Slots(n - 1) + {n - 1};
    }
  }

  lemma SubsetSize(a: set<nat>, b: set<nat>)
    requires a <= b
    ensures |a| <= |b|
  {
    assert b == a + (b - a);
  }

  lemma SubsetOfSameSize(a: set<nat>, b: set<nat>)
    requires a <= b && |a| == |b|
    ensures a == b
  {
    assert b == a + (b - a);
  }
}
