/** Arithmetic modulo m. The default modulus is 2^32, that of C's `uint32_t`. */
module Congruence {

  const M32 := 0x1_0000_0000

  ghost predicate Cong(a: int, b: int, m: int := M32)
    requires m > 0
  {
    a % m == b % m
  }

  /** Multiples of the modulus vanish. */
  lemma {:induction false} Multiple(b: int, k: int, m: int := M32)
    requires m > 0
    ensures (b + k * m) % m == b % m
    decreases if k < 0 then -k else k
  {
    if k > 0 {
      assert b + k * m == (b + m) + (k - 1) * m;
      Multiple(b + m, k - 1, m);
      Shift(b, m);
    } else if k < 0 {
      assert b + k * m == (b - m) + (k + 1) * m;
      Multiple(b - m, k + 1, m);
      Shift(b - m, m);
    }
  }

  lemma Shift(b: int, m: int)
    requires m > 0
    ensures (b + m) % m == b % m
  {
    var q, r := b / m, b % m;
    assert b + m == (q + 1) * m + r;
    Unique(b + m, q + 1, r, m);
  }

  /** Quotient and remainder are determined. */
  lemma Unique(a: int, q: int, r: int, m: int)
    requires m > 0 && a == q * m + r && 0 <= r < m
    ensures a / m == q && a % m == r
  {
    var d := a / m - q;
    assert a == a / m * m + a % m;
    assert d * m == r - a % m;
    assert -m < d * m < m;
    Small(d, m);
  }

  lemma Small(d: int, m: int)
    requires -m < d * m < m
    ensures d == 0
  {
  }

  /** The quotient that witnesses a congruence. */
  lemma Quotient(a: int, b: int, m: int := M32) returns (k: int)
    requires m > 0 && Cong(a, b, m)
    ensures a == b + k * m
  {
    k := a / m - b / m;
    assert a == a / m * m + a % m;
    assert b == b / m * m + b % m;
    assert a / m * m - b / m * m == k * m;
  }

  lemma CongReduce(a: int, m: int := M32)
    requires m > 0
    ensures Cong(a % m, a, m)
  {
    assert a == a % m + a / m * m;
    Multiple(a % m, a / m, m);
  }

  lemma CongPlus(a: int, b: int, c: int, d: int, m: int := M32)
    requires m > 0 && Cong(a, b, m) && Cong(c, d, m)
    ensures Cong(a + c, b + d, m)
  {
    var k := Quotient(a, b, m);
    var l := Quotient(c, d, m);
    TwoProducts(k, l, m);
    Multiple(b + d, k + l, m);
    assert a + c == b + d + (k + l) * m;
  }

  lemma CongMinus(a: int, b: int, c: int, d: int, m: int := M32)
    requires m > 0 && Cong(a, b, m) && Cong(c, d, m)
    ensures Cong(a - c, b - d, m)
  {
    var k := Quotient(a, b, m);
    var l := Quotient(c, d, m);
    TwoProducts(k, l, m);
    Multiple(b - d, k - l, m);
    assert a - c == b - d + (k - l) * m;
  }

  lemma TwoProducts(k: int, l: int, m: int)
    ensures (k + l) * m == k * m + l * m && (k - l) * m == k * m - l * m
  {
  }

  lemma CongAdd(a: int, b: int, c: int, d: int, m: int := M32)
    requires m > 0 && Cong(a, b, m) && Cong(c, d, m)
    ensures Cong(a + c, b + d, m) && Cong(a - c, b - d, m)
  {
    hide Cong;
    CongPlus(a, b, c, d, m);
    CongMinus(a, b, c, d, m);
  }

  lemma CongMul(a: int, b: int, c: int, d: int, m: int := M32)
    requires m > 0 && Cong(a, b, m) && Cong(c, d, m)
    ensures Cong(a * c, b * d, m)
  {
    CongScale(a, b, c, m);
    CongScale(c, d, b, m);
  }

  lemma CongScale(a: int, b: int, c: int, m: int := M32)
    requires m > 0 && Cong(a, b, m)
    ensures Cong(a * c, b * c, m) && Cong(c * a, c * b, m)
  {
    var k := Quotient(a, b, m);
    assert a * c == b * c + (k * m) * c;
    assert (k * m) * c == (k * c) * m;
    Multiple(b * c, k * c, m);
  }

  lemma MulMono(a: int, b: int, c: int)
    requires a <= b && c >= 0
    ensures a * c <= b * c && c * a <= c * b
  {
  }

  /** Dividing twice, and dividing once. */
  lemma DivideTwice(v: int, a: nat, b: nat)
    requires a > 0 && b > 0
    ensures a * b > 0 && v / a / b == v / (a * b)
  {
    var q, r := v / a / b, v / a % b;
    assert v == a * (b * q + r) + v % a;
    assert a * (b * q + r) == (a * b) * q + a * r;
    MulMono(r, b - 1, a);
    assert a * (b - 1) == a * b - a;
    assert 0 <= a * r + v % a < a * b by {
      MulMono(0, r, a);
    }
    assert (a * b) * q == q * (a * b);
    Unique(v, q, a * r + v % a, a * b);
  }

  function TwoTo(i: nat): (p: nat)
    ensures p > 0
  {
    if i == 0 then 1 else 2 * TwoTo(i - 1)
  }

  lemma {:induction false} TwoToAdd(a: nat, b: nat)
    ensures TwoTo(a + b) == TwoTo(a) * TwoTo(b)
  {
    if a > 0 {
      TwoToAdd(a - 1, b);
    }
  }

  lemma TwoToThirty()
    ensures TwoTo(30) == 0x4000_0000 && TwoTo(32) == 0x1_0000_0000
  {
    assert TwoTo(10) == 0x400;
    assert TwoTo(20) == 0x10_0000;
  }

  lemma {:induction false} Monotone(a: nat, b: nat)
    requires a <= b
    ensures TwoTo(a) <= TwoTo(b)
    decreases b - a
  {
    if a < b {
      Monotone(a, b - 1);
    }
  }

  /** b to the power e, over the integers. */
  function Pow(b: int, e: nat): int {
    if e == 0 then 1 else b * Pow(b, e - 1)
  }

  lemma {:induction false} PowAdd(b: int, e: nat, f: nat)
    ensures Pow(b, e + f) == Pow(b, e) * Pow(b, f)
  {
    if e > 0 {
      PowAdd(b, e - 1, f);
      assert b * (Pow(b, e - 1) * Pow(b, f)) == (b * Pow(b, e - 1)) * Pow(b, f);
    }
  }

  /** Squaring the base halves the exponent. */
  lemma {:induction false} PowSquare(b: int, e: nat)
    ensures Pow(b, 2 * e) == Pow(b * b, e)
  {
    if e > 0 {
      PowSquare(b, e - 1);
      assert Pow(b, 2 * e) == b * (b * Pow(b, 2 * e - 2));
      assert b * (b * Pow(b, 2 * (e - 1))) == (b * b) * Pow(b * b, e - 1);
    }
  }

  lemma {:induction false} PowCong(a: int, b: int, e: nat)
    requires Cong(a, b)
    ensures Cong(Pow(a, e), Pow(b, e))
  {
    if e > 0 {
      PowCong(a, b, e - 1);
      CongMul(a, b, Pow(a, e - 1), Pow(b, e - 1));
    }
  }
}
