/**
 The original rsync rolling checksum: two running sums kept in `uint_fast16_t`, which is a
 64-bit word here. Only the low 16 bits of each sum reach the digest.
 */
module Rollsum {
  import opened Bytes
  import opened Congruence

  const CHAR_OFFSET := 31
  const WORD := 0x1_0000_0000_0000_0000
  const LOW := 0x1_0000

  type word = x: int | 0 <= x < 0x1_0000_0000_0000_0000

  /** The sum of the offset bytes. */
  function S1(w: seq<byte>): nat {
    if w == [] then 0 else S1(w[..|w| - 1]) + (w[|w| - 1] + CHAR_OFFSET)
  }

  /** The sum of the sums of all prefixes. */
  function S2(w: seq<byte>): nat {
    if w == [] then 0 else S2(w[..|w| - 1]) + S1(w)
  }

  /** The digest of a window, from scratch. */
  function Hash(w: seq<byte>): u32 {
    S2(w) % LOW * LOW + S1(w) % LOW
  }

  lemma SumsSnoc(w: seq<byte>, b: byte)
    ensures S1(w + [b]) == S1(w) + (b + CHAR_OFFSET)
    ensures S2(w + [b]) == S2(w) + S1(w) + (b + CHAR_OFFSET)
  {
    assert (w + [b])[..|w|] == w;
  }

  /** The oldest byte counts once in s1, and once for every prefix in s2. */
  lemma {:induction false} SumsCons(x: byte, w: seq<byte>)
    ensures S1([x] + w) == S1(w) + (x + CHAR_OFFSET)
    ensures S2([x] + w) == S2(w) + (|w| + 1) * (x + CHAR_OFFSET)
  {
    if w == [] {
      assert [x] + w == [] + [x];
      SumsSnoc([], x);
    } else {
      var v, b := w[..|w| - 1], w[|w| - 1];
      assert [x] + w == ([x] + v) + [b];
      SumsSnoc([x] + v, b);
      SumsCons(x, v);
      assert (|v| + 1) * (x + CHAR_OFFSET) + (x + CHAR_OFFSET) == (|w| + 1) * (x + CHAR_OFFSET);
    }
  }

  // ---- The update loop, which leaves the character offset for the end ----

  datatype Sums = Sums(s1: word, s2: word)

  function Do1(s: Sums, buf: seq<byte>, i: nat): Sums
    requires i + 1 <= |buf|
  {
    var s1 := (s.s1 + buf[i]) % WORD;
    Sums(s1, (s.s2 + s1) % WORD)
  }

  function Do2(s: Sums, buf: seq<byte>, i: nat): Sums
    requires i + 2 <= |buf|
  {
    Do1(Do1(s, buf, i), buf, i + 1)
  }

  function Do4(s: Sums, buf: seq<byte>, i: nat): Sums
    requires i + 4 <= |buf|
  {
    Do2(Do2(s, buf, i), buf, i + 2)
  }

  function Do8(s: Sums, buf: seq<byte>, i: nat): Sums
    requires i + 8 <= |buf|
  {
    Do4(Do4(s, buf, i), buf, i + 4)
  }

  function Do16(s: Sums, buf: seq<byte>, i: nat): Sums
    requires i + 16 <= |buf|
  {
    Do8(Do8(s, buf, i), buf, i + 8)
  }

  function Triangle(n: nat): nat {
    n * (n + 1) / 2
  }

  lemma TriangleStep(n: nat)
    ensures Triangle(n + 1) == Triangle(n) + n + 1
    ensures 2 * Triangle(n) == n * (n + 1)
  {
    var p := n * (n + 1);
    assert (n + 1) * (n + 2) == p + 2 * (n + 1);
    var h := if n % 2 == 0 then n / 2 * (n + 1) else n * ((n + 1) / 2);
    assert p == 2 * h by {
      if n % 2 == 0 {
        assert 2 * (n / 2) * (n + 1) == n * (n + 1);
      } else {
        assert n * (2 * ((n + 1) / 2)) == n * (n + 1);
      }
    }
  }

  /** Wrapping a word does not touch its low 16 bits. */
  lemma LowOfWord(x: int)
    ensures Cong(x % WORD, x, LOW)
  {
    assert x == x % WORD + (x / WORD * 0x1_0000_0000_0000) * LOW;
    Multiple(x % WORD, x / WORD * 0x1_0000_0000_0000, LOW);
  }

  /** Mid-loop, s is short of the sums of w + buf[..i] by what the offset adds over i bytes. */
  ghost predicate Lags(s: Sums, w: seq<byte>, buf: seq<byte>, i: nat)
    requires i <= |buf|
  {
    && Cong(s.s1, S1(w + buf[..i]) - CHAR_OFFSET * i, LOW)
    && Cong(s.s2, S2(w + buf[..i]) - CHAR_OFFSET * Triangle(i), LOW)
  }

  lemma Lags1(s: Sums, w: seq<byte>, buf: seq<byte>, i: nat)
    requires i + 1 <= |buf| && Lags(s, w, buf, i)
    ensures Lags(Do1(s, buf, i), w, buf, i + 1)
  {
    SumsSnoc(w + buf[..i], buf[i]);
    assert w + buf[..i] + [buf[i]] == w + buf[..i + 1];
    TriangleStep(i);
    var v, b := w + buf[..i], buf[i];
    CongAdd(s.s1, S1(v) - CHAR_OFFSET * i, b, b, LOW);
    LowOfWord(s.s1 + b);
    var s1 := (s.s1 + b) % WORD;
    CongAdd(s.s2, S2(v) - CHAR_OFFSET * Triangle(i), s1, S1(v) - CHAR_OFFSET * i + b, LOW);
    LowOfWord(s.s2 + s1);
  }

  lemma Lags2(s: Sums, w: seq<byte>, buf: seq<byte>, i: nat)
    requires i + 2 <= |buf| && Lags(s, w, buf, i)
    ensures Lags(Do2(s, buf, i), w, buf, i + 2)
  {
    Lags1(s, w, buf, i);
    Lags1(Do1(s, buf, i), w, buf, i + 1);
  }

  lemma Lags4(s: Sums, w: seq<byte>, buf: seq<byte>, i: nat)
    requires i + 4 <= |buf| && Lags(s, w, buf, i)
    ensures Lags(Do4(s, buf, i), w, buf, i + 4)
  {
    Lags2(s, w, buf, i);
    Lags2(Do2(s, buf, i), w, buf, i + 2);
  }

  lemma Lags8(s: Sums, w: seq<byte>, buf: seq<byte>, i: nat)
    requires i + 8 <= |buf| && Lags(s, w, buf, i)
    ensures Lags(Do8(s, buf, i), w, buf, i + 8)
  {
    Lags4(s, w, buf, i);
    Lags4(Do4(s, buf, i), w, buf, i + 4);
  }

  lemma Lags16(s: Sums, w: seq<byte>, buf: seq<byte>, i: nat)
    requires i + 16 <= |buf| && Lags(s, w, buf, i)
    ensures Lags(Do16(s, buf, i), w, buf, i + 16)
  {
    Lags8(s, w, buf, i);
    Lags8(Do8(s, buf, i), w, buf, i + 8);
  }

  /** The offset as C adds it after the loop: the product wraps before it is halved. */
  lemma DeferredOffset(s: Sums, w: seq<byte>, buf: seq<byte>)
    requires Lags(s, w, buf, |buf|)
    ensures Cong((s.s1 + |buf| * CHAR_OFFSET) % WORD, S1(w + buf), LOW)
    ensures Cong((s.s2 + |buf| * (|buf| + 1) % WORD / 2 * CHAR_OFFSET) % WORD, S2(w + buf), LOW)
  {
    var n := |buf|;
    assert buf[..n] == buf;
    CongAdd(s.s1, S1(w + buf) - CHAR_OFFSET * n, n * CHAR_OFFSET, CHAR_OFFSET * n, LOW);
    LowOfWord(s.s1 + n * CHAR_OFFSET);

    TriangleStep(n);
    var p := n * (n + 1);
    var h := p % WORD / 2;
    WrapThenHalve(p);
    CongMul(h, p / 2, CHAR_OFFSET, CHAR_OFFSET, LOW);
    CongAdd(s.s2, S2(w + buf) - CHAR_OFFSET * Triangle(n), h * CHAR_OFFSET, p / 2 * CHAR_OFFSET, LOW);
    LowOfWord(s.s2 + h * CHAR_OFFSET);
  }

  lemma WrapThenHalve(p: nat)
    requires p % 2 == 0
    ensures Cong(p % WORD / 2, p / 2, LOW)
  {
    var q := p / WORD;
    assert p / 2 == p % WORD / 2 + (q * 0x8000_0000_0000) * LOW;
    Multiple(p % WORD / 2, q * 0x8000_0000_0000, LOW);
  }

  // ---- The accumulator ----

  class Rollsum {
    var count: nat
    var s1: word
    var s2: word
    /** The bytes the accumulator stands for. */
    ghost var window: seq<byte>

    ghost predicate Valid()
      reads this
    {
      count == |window| && Cong(s1, S1(window), LOW) && Cong(s2, S2(window), LOW)
    }

    constructor ()
      ensures Valid() && window == []
    {
      count, s1, s2 := 0, 0, 0;
      window := [];
    }

    method Init()
      modifies this
      ensures Valid() && window == []
    {
      count, s1, s2 := 0, 0, 0;
      window := [];
    }

    method Update(buf: seq<byte>)
      requires Valid()
      modifies this
      ensures Valid() && window == old(window) + buf
    {
      var n: nat, i: nat, s := |buf|, 0, Sums(s1, s2);
      assert window + buf[..0] == window;
      while n >= 16
        modifies {}
        invariant i + n == |buf| && Lags(s, window, buf, i)
      {
        Lags16(s, window, buf, i);
        s := Do16(s, buf, i);
        i := i + 16;
        n := n - 16;
      }
      while n != 0
        modifies {}
        invariant i + n == |buf| && Lags(s, window, buf, i)
      {
        Lags1(s, window, buf, i);
        s := Do1(s, buf, i);
        i := i + 1;
        n := n - 1;
      }
      DeferredOffset(s, window, buf);
      count := count + |buf|;
      s1 := (s.s1 + |buf| * CHAR_OFFSET) % WORD;
      s2 := (s.s2 + |buf| * (|buf| + 1) % WORD / 2 * CHAR_OFFSET) % WORD;
      window := window + buf;
    }

    /** Slide the window one byte. */
    method Rotate(out: byte, in_: byte)
      requires Valid() && window != [] && window[0] == out
      modifies this
      ensures Valid() && window == old(window)[1..] + [in_]
    {
      hide S1, S2;
      ghost var v := window[1..];
      assert window == [out] + v;
      SumsCons(out, v);
      SumsSnoc(v, in_);
      CongAdd(s1, S1(window), in_ - out, in_ - out, LOW);
      LowOfWord(s1 + in_ - out);
      CongAdd(s2, S2(window), (s1 + in_ - out) % WORD, S1(v + [in_]), LOW);
      ghost var c := count * (out + CHAR_OFFSET);
      CongAdd(s2 + (s1 + in_ - out) % WORD, S2(window) + S1(v + [in_]), c, c, LOW);
      LowOfWord(s2 + (s1 + in_ - out) % WORD - c);
      s1 := (s1 + in_ - out) % WORD;
      s2 := (s2 + s1 - count * (out + CHAR_OFFSET)) % WORD;
      window := v + [in_];
    }

    /** Grow the window by one byte. */
    method Rollin(in_: byte)
      requires Valid()
      modifies this
      ensures Valid() && window == old(window) + [in_]
    {
      SumsSnoc(window, in_);
      CongAdd(s1, S1(window), in_ + CHAR_OFFSET, in_ + CHAR_OFFSET, LOW);
      LowOfWord(s1 + in_ + CHAR_OFFSET);
      CongAdd(s2, S2(window), (s1 + in_ + CHAR_OFFSET) % WORD, S1(window + [in_]), LOW);
      LowOfWord(s2 + (s1 + in_ + CHAR_OFFSET) % WORD);
      s1 := (s1 + in_ + CHAR_OFFSET) % WORD;
      s2 := (s2 + s1) % WORD;
      count := count + 1;
      window := window + [in_];
    }

    /** Drop the oldest byte. */
    method Rollout(out: byte)
      requires Valid() && window != [] && window[0] == out
      modifies this
      ensures Valid() && window == old(window)[1..]
    {
      ghost var v := window[1..];
      assert window == [out] + v;
      SumsCons(out, v);
      ghost var o, c := out + CHAR_OFFSET, count * (out + CHAR_OFFSET);
      CongAdd(s1, S1(window), o, o, LOW);
      LowOfWord(s1 - o);
      CongAdd(s2, S2(window), c, c, LOW);
      LowOfWord(s2 - c);
      s1 := (s1 - (out + CHAR_OFFSET)) % WORD;
      s2 := (s2 - count * (out + CHAR_OFFSET)) % WORD;
      count := count - 1;
      window := v;
    }

    method Digest() returns (d: u32)
      requires Valid()
      ensures d == Hash(window)
    {
      d := s2 % LOW * LOW + s1 % LOW;
    }
  }
}
