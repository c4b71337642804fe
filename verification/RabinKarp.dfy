/** The RabinKarp rolling checksum: a seeded polynomial in MULT, modulo 2^32. */
module RabinKarp {
  import opened Bytes
  import opened Congruence

  const SEED: u32 := 1
  const MULT: u32 := 0x08104225
  const INVM: u32 := 0x98f009ad
  const ADJ: u32 := 0x08104224
  const MULT2: u32 := 0xa5b71959

  /** The table of repeated squares used for powers. Entry i is MULT^(2^i). */
  const MULT_POW2: seq<u32> := [
    0x08104225, 0xa5b71959, 0xf9c080f1, 0x7c71e2e1, 0x0bb409c1, 0x4dc72381, 0xd17a8701, 0x96260e01,
    0x55101c01, 0x2d303801, 0x66a07001, 0xfe40e001, 0xc081c001, 0x91038001, 0x62070001, 0xc40e0001,
    0x881c0001, 0x10380001, 0x20700001, 0x40e00001, 0x81c00001, 0x03800001, 0x07000001, 0x0e000001,
    0x1c000001, 0x38000001, 0x70000001, 0xe0000001, 0xc0000001, 0x80000001, 0x00000001, 0x00000001
  ]

  /** The polynomial over the integers: the seed, then one Horner step a byte. */
  function Poly(w: seq<byte>): int {
    if w == [] then SEED else Poly(w[..|w| - 1]) * MULT + w[|w| - 1]
  }

  /** The digest of a window, from scratch. */
  function Hash(w: seq<byte>): u32 {
    Poly(w) % M32
  }

  /** MULT^n modulo 2^32. */
  function Power(n: nat): u32 {
    Pow(MULT, n) % M32
  }

  // ---- The algebra of one step ----

  lemma PolySnoc(w: seq<byte>, b: byte)
    ensures Poly(w + [b]) == Poly(w) * MULT + b
  {
    assert (w + [b])[..|w|] == w;
  }

  /** Horner's step on digests. */
  lemma HashSnoc(w: seq<byte>, b: byte)
    ensures Hash(w + [b]) == (MULT * Hash(w) + b) % M32
  {
    PolySnoc(w, b);
    CongReduce(Poly(w));
    CongMul(Hash(w), Poly(w), MULT, MULT);
    CongAdd(Hash(w) * MULT, Poly(w) * MULT, b, b);
  }

  /** What the oldest byte of a window contributes, seed adjustment included. */
  lemma {:induction false} PolyCons(x: byte, w: seq<byte>)
    ensures Poly([x] + w) == Poly(w) + Pow(MULT, |w|) * (x + ADJ)
  {
    if w == [] {
      assert [x] + w == [] + [x];
      PolySnoc([], x);
    } else {
      var v, b := w[..|w| - 1], w[|w| - 1];
      assert [x] + w == ([x] + v) + [b];
      PolySnoc([x] + v, b);
      PolyCons(x, v);
      var p := Pow(MULT, |v|);
      assert (Poly(v) + p * (x + ADJ)) * MULT + b == (Poly(v) * MULT + b) + (MULT * p) * (x + ADJ);
    }
  }

  /** Dropping the oldest byte, on digests. */
  lemma HashCons(x: byte, w: seq<byte>)
    ensures Hash(w) == (Hash([x] + w) - Power(|w|) * (x + ADJ)) % M32
  {
    PolyCons(x, w);
    CongReduce(Poly([x] + w));
    CongReduce(Pow(MULT, |w|));
    CongMul(Power(|w|), Pow(MULT, |w|), x + ADJ, x + ADJ);
    CongAdd(Hash([x] + w), Poly([x] + w), Power(|w|) * (x + ADJ), Pow(MULT, |w|) * (x + ADJ));
  }

  lemma PowerAdd(m: nat, n: nat)
    ensures Power(m + n) == (Power(m) * Power(n)) % M32
  {
    PowAdd(MULT, m, n);
    CongReduce(Pow(MULT, m));
    CongReduce(Pow(MULT, n));
    CongMul(Power(m), Pow(MULT, m), Power(n), Pow(MULT, n));
  }

  /** INVM undoes one multiplication by MULT. */
  lemma PowerDown(n: nat)
    requires n > 0
    ensures Power(n - 1) == (Power(n) * INVM) % M32
  {
    var p := Pow(MULT, n - 1);
    CongReduce(Pow(MULT, n));
    CongMul(Power(n), Pow(MULT, n), INVM, INVM);
    assert Pow(MULT, n) * INVM == p * (MULT * INVM);
    assert Cong(MULT * INVM, 1);
    CongMul(p, p, MULT * INVM, 1);
  }

  // ---- Sixteen bytes with two multiplications a pair ----

  function Par2x1(hash: u32, buf: seq<byte>, i: nat): u32
    requires i + 2 <= |buf|
  {
    (MULT2 * hash + MULT * buf[i] + buf[i + 1]) % M32
  }

  function Par2x2(hash: u32, buf: seq<byte>, i: nat): u32
    requires i + 4 <= |buf|
  {
    Par2x1(Par2x1(hash, buf, i), buf, i + 2)
  }

  function Par2x4(hash: u32, buf: seq<byte>, i: nat): u32
    requires i + 8 <= |buf|
  {
    Par2x2(Par2x2(hash, buf, i), buf, i + 4)
  }

  function Par2x8(hash: u32, buf: seq<byte>, i: nat): u32
    requires i + 16 <= |buf|
  {
    Par2x4(Par2x4(hash, buf, i), buf, i + 8)
  }

  lemma Par2x1IsTwoSteps(w: seq<byte>, buf: seq<byte>, i: nat)
    requires i + 2 <= |buf|
    ensures Par2x1(Hash(w + buf[..i]), buf, i) == Hash(w + buf[..i + 2])
  {
    var v, a, b := w + buf[..i], buf[i], buf[i + 1];
    assert v + [a] + [b] == w + buf[..i + 2];
    PolySnoc(v, a);
    PolySnoc(v + [a], b);
    assert (Poly(v) * MULT + a) * MULT + b == (MULT * MULT) * Poly(v) + (MULT * a + b);
    CongReduce(Poly(v));
    assert Cong(MULT2, MULT * MULT);
    CongMul(MULT2, MULT * MULT, Hash(v), Poly(v));
    CongAdd(MULT2 * Hash(v), (MULT * MULT) * Poly(v), MULT * a + b, MULT * a + b);
  }

  lemma Par2x2IsFourSteps(w: seq<byte>, buf: seq<byte>, i: nat)
    requires i + 4 <= |buf|
    ensures Par2x2(Hash(w + buf[..i]), buf, i) == Hash(w + buf[..i + 4])
  {
    Par2x1IsTwoSteps(w, buf, i);
    Par2x1IsTwoSteps(w, buf, i + 2);
  }

  lemma Par2x4IsEightSteps(w: seq<byte>, buf: seq<byte>, i: nat)
    requires i + 8 <= |buf|
    ensures Par2x4(Hash(w + buf[..i]), buf, i) == Hash(w + buf[..i + 8])
  {
    Par2x2IsFourSteps(w, buf, i);
    Par2x2IsFourSteps(w, buf, i + 4);
  }

  lemma Par2x8IsSixteenSteps(w: seq<byte>, buf: seq<byte>, i: nat)
    requires i + 16 <= |buf|
    ensures Par2x8(Hash(w + buf[..i]), buf, i) == Hash(w + buf[..i + 16])
  {
    Par2x4IsEightSteps(w, buf, i);
    Par2x4IsEightSteps(w, buf, i + 8);
  }

  // ---- Powers by table ----

  predicate SquareAt(i: nat)
    requires i < 31
  {
    MULT_POW2[i + 1] == (MULT_POW2[i] * MULT_POW2[i]) % M32
  }

  lemma TableSquares0()
    ensures SquareAt(0) && SquareAt(1) && SquareAt(2) && SquareAt(3)
  {
  }

  lemma TableSquares4()
    ensures SquareAt(4) && SquareAt(5) && SquareAt(6) && SquareAt(7)
  {
  }

  lemma TableSquares8()
    ensures SquareAt(8) && SquareAt(9) && SquareAt(10) && SquareAt(11)
  {
  }

  lemma TableSquares12()
    ensures SquareAt(12) && SquareAt(13) && SquareAt(14) && SquareAt(15)
  {
  }

  lemma TableSquares16()
    ensures SquareAt(16) && SquareAt(17) && SquareAt(18) && SquareAt(19)
  {
  }

  lemma TableSquares20()
    ensures SquareAt(20) && SquareAt(21) && SquareAt(22) && SquareAt(23)
  {
  }

  lemma TableSquares24()
    ensures SquareAt(24) && SquareAt(25) && SquareAt(26) && SquareAt(27)
  {
  }

  lemma TableSquares28()
    ensures SquareAt(28) && SquareAt(29) && SquareAt(30)
  {
  }

  /** Each table entry is the square of the one before it. */
  lemma TableSquares(i: nat)
    requires i < 31
    ensures SquareAt(i)
  {
    hide SquareAt;
    if i < 16 {
      TableSquares0();
      TableSquares4();
      TableSquares8();
      TableSquares12();
    } else {
      TableSquares16();
      TableSquares20();
      TableSquares24();
      TableSquares28();
    }
  }

  /** Entry i really is MULT^(2^i): the exponent starts at 2^0. */
  lemma {:induction false} TableEntry(i: nat)
    requires i < 32
    ensures MULT_POW2[i] == Power(TwoTo(i))
  {
    if i == 0 {
      assert Pow(MULT, 1) == MULT * Pow(MULT, 0);
    } else {
      TableEntry(i - 1);
      TableSquares(i - 1);
      PowerAdd(TwoTo(i - 1), TwoTo(i - 1));
    }
  }

  /** Whole multiples of an exponent whose power is one change nothing. */
  lemma {:induction false} PowerOfOne(e: nat, q: nat)
    requires Power(e) == 1
    ensures Power(q * e) == 1
  {
    if q == 0 {
      assert q * e == 0;
    } else {
      PowerOfOne(e, q - 1);
      assert q * e == (q - 1) * e + e;
      PowerAdd((q - 1) * e, e);
    }
  }

  /** Cutting a length down to 32 bits does not change the power, since MULT^(2^30) is one. */
  lemma PowerTruncates(n: nat)
    ensures Power(n % M32) == Power(n)
  {
    var e := TwoTo(30);
    TwoToThirty();
    TableEntry(30);
    var q := 4 * (n / M32);
    assert n == q * e + n % M32;
    PowerOfOne(e, q);
    PowerAdd(q * e, n % M32);
  }

  /** One round of the loop that reads the bits of n from the bottom. */
  lemma PowerRound(ans: u32, base: u32, next: u32, n: nat)
    requires n > 0
    requires next == (base * base) % M32
    ensures var ans' := if n % 2 == 1 then (ans * base) % M32 else ans;
            Cong(ans' * Pow(next, n / 2), ans * Pow(base, n))
  {
    var h := n / 2;
    PowSquare(base, h);
    CongReduce(base * base);
    PowCong(next, base * base, h);
    if n % 2 == 1 {
      assert Pow(base, n) == base * Pow(base, 2 * h);
      CongReduce(ans * base);
      CongMul((ans * base) % M32, ans * base, Pow(next, h), Pow(base * base, h));
      assert (ans * base) * Pow(base * base, h) == ans * (base * Pow(base * base, h));
    } else {
      CongMul(ans, ans, Pow(next, h), Pow(base * base, h));
    }
  }

  /** MULT^n, reading the bits of n against the table of squares. */
  method PowerOf(n0: u32) returns (ans: u32)
    ensures ans == Power(n0)
  {
    var n: nat, m: nat := n0, 0;
    ans := 1;
    TwoToThirty();
    assert TwoTo(32) == M32;
    while n != 0
      invariant m <= 32 && n < TwoTo(32 - m)
      invariant m < 32 ==> Cong(ans * Pow(MULT_POW2[m], n), Pow(MULT, n0))
      invariant m == 32 ==> Cong(ans, Pow(MULT, n0))
    {
      assert m < 32;
      if m < 31 {
        TableSquares(m);
      }
      var base := MULT_POW2[m];
      PowerRound(ans, base, (base * base) % M32, n);
      if n % 2 == 1 {
        ans := (ans * base) % M32;
      }
      m := m + 1;
      n := n / 2;
    }
  }

  // ---- The accumulator ----

  class RabinKarp {
    var count: nat
    var hash: u32
    var mult: u32
    /** The bytes the accumulator stands for. */
    ghost var window: seq<byte>

    ghost predicate Valid()
      reads this
    {
      count == |window| && hash == Hash(window) && mult == Power(count)
    }

    constructor ()
      ensures Valid() && window == []
    {
      count, hash, mult := 0, SEED, 1;
      window := [];
    }

    method Init()
      modifies this
      ensures Valid() && window == []
    {
      count, hash, mult := 0, SEED, 1;
      window := [];
    }

    method Update(buf: seq<byte>)
      requires Valid()
      modifies this
      ensures Valid() && window == old(window) + buf
    {
      var n: nat, i: nat, h := |buf|, 0, hash;
      assert window + buf[..0] == window;
      while n >= 16
        modifies {}
        invariant i + n == |buf|
        invariant h == Hash(window + buf[..i])
      {
        Par2x8IsSixteenSteps(window, buf, i);
        h := Par2x8(h, buf, i);
        i := i + 16;
        n := n - 16;
      }
      while n != 0
        modifies {}
        invariant i + n == |buf|
        invariant h == Hash(window + buf[..i])
      {
        HashSnoc(window + buf[..i], buf[i]);
        assert window + buf[..i] + [buf[i]] == window + buf[..i + 1];
        h := (MULT * h + buf[i]) % M32;
        i := i + 1;
        n := n - 1;
      }
      assert buf[..i] == buf;
      var p := PowerOf(|buf| % M32);
      PowerTruncates(|buf|);
      PowerAdd(count, |buf|);
      hash := h;
      count := count + |buf|;
      mult := (mult * p) % M32;
      window := window + buf;
    }

    /** Slide the window one byte. */
    method Rotate(out: byte, in_: byte)
      requires Valid() && window != [] && window[0] == out
      modifies this
      ensures Valid() && window == old(window)[1..] + [in_]
    {
      ghost var v := window[1..];
      assert window == [out] + v;
      HashSnoc(window, in_);
      HashCons(out, v + [in_]);
      assert [out] + (v + [in_]) == window + [in_];
      CongReduce(hash * MULT + in_);
      CongAdd((hash * MULT + in_) % M32, hash * MULT + in_, mult * (out + ADJ), mult * (out + ADJ));
      hash := (hash * MULT + in_ - mult * (out + ADJ)) % M32;
      window := v + [in_];
    }

    /** Grow the window by one byte. */
    method Rollin(in_: byte)
      requires Valid()
      modifies this
      ensures Valid() && window == old(window) + [in_]
    {
      HashSnoc(window, in_);
      PowerAdd(count, 1);
      assert Power(1) == MULT by { assert Pow(MULT, 1) == MULT * Pow(MULT, 0); }
      hash := (hash * MULT + in_) % M32;
      count := count + 1;
      mult := (mult * MULT) % M32;
      window := window + [in_];
    }

    /** Drop the oldest byte. */
    method Rollout(out: byte)
      requires Valid() && window != [] && window[0] == out
      modifies this
      ensures Valid() && window == old(window)[1..]
    {
      ghost var v := window[1..];
      assert window == [out] + v;
      PowerDown(count);
      HashCons(out, v);
      count := count - 1;
      mult := (mult * INVM) % M32;
      hash := (hash - mult * (out + ADJ)) % M32;
      window := v;
    }

    method Digest() returns (d: u32)
      requires Valid()
      ensures d == Hash(window)
    {
      d := hash;
    }
  }
}
