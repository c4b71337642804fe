/** The mixing of rollsums can be undone, so that it never merges two of them. */
module Mixing {
  import opened Bytes
  import opened Checksum

  // ---- Every word is the value of 32 bits ----

  function BitOf(i: nat): bv1
    requires i < 2
  {
    if i == 0 then 0 else 1
  }

  lemma BitIs(i: nat)
    requires i < 2
    ensures BitOf(i) as int == i
  {
  }

  function Join(a: bv1, b: bv1, c: bv1, d: bv1, e: bv1, f: bv1, g: bv1, h: bv1): bv8 {
    (a as bv8 << 7) | (b as bv8 << 6) | (c as bv8 << 5) | (d as bv8 << 4)
    | (e as bv8 << 3) | (f as bv8 << 2) | (g as bv8 << 1) | h as bv8
  }

  lemma JoinIs(a: bv1, b: bv1, c: bv1, d: bv1, e: bv1, f: bv1, g: bv1, h: bv1)
    ensures Join(a, b, c, d, e, f, g, h) as int
            == 128 * a as int + 64 * b as int + 32 * c as int + 16 * d as int
               + 8 * e as int + 4 * f as int + 2 * g as int + h as int
  {
  }

  lemma JoinOf(i7: nat, i6: nat, i5: nat, i4: nat, i3: nat, i2: nat, i1: nat, i0: nat) returns (a: bv8)
    requires i7 < 2 && i6 < 2 && i5 < 2 && i4 < 2 && i3 < 2 && i2 < 2 && i1 < 2 && i0 < 2
    ensures a as int == 128 * i7 + 64 * i6 + 32 * i5 + 16 * i4 + 8 * i3 + 4 * i2 + 2 * i1 + i0
  {
    hide BitOf, Join;
    BitIs(i7);
    BitIs(i6);
    BitIs(i5);
    BitIs(i4);
    BitIs(i3);
    BitIs(i2);
    BitIs(i1);
    BitIs(i0);
    JoinIs(BitOf(i7), BitOf(i6), BitOf(i5), BitOf(i4), BitOf(i3), BitOf(i2), BitOf(i1), BitOf(i0));
    a := Join(BitOf(i7), BitOf(i6), BitOf(i5), BitOf(i4), BitOf(i3), BitOf(i2), BitOf(i1), BitOf(i0));
  }

  lemma ByteOf(i: byte) returns (a: bv8)
    ensures a as int == i
  {
    var i1 := i / 2;
    var i2 := i1 / 2;
    var i3 := i2 / 2;
    var i4 := i3 / 2;
    var i5 := i4 / 2;
    var i6 := i5 / 2;
    a := JoinOf(i6 / 2, i6 % 2, i5 % 2, i4 % 2, i3 % 2, i2 % 2, i1 % 2, i % 2);
  }

  function Concatenate(a: bv8, b: bv8, c: bv8, d: bv8): bv32 {
    (a as bv32 << 24) | (b as bv32 << 16) | (c as bv32 << 8) | d as bv32
  }

  lemma Concatenated(a: bv8, b: bv8, c: bv8, d: bv8)
    ensures ((a as bv32 << 24) | (b as bv32 << 16) | (c as bv32 << 8) | d as bv32) as int
            == a as int * 0x100_0000 + b as int * 0x1_0000 + c as int * 0x100 + d as int
  {
  }

  lemma ConcatenateIs(a: bv8, b: bv8, c: bv8, d: bv8)
    ensures Concatenate(a, b, c, d) as int
            == a as int * 0x100_0000 + b as int * 0x1_0000 + c as int * 0x100 + d as int
  {
    Concatenated(a, b, c, d);
    var x := (a as bv32 << 24) | (b as bv32 << 16) | (c as bv32 << 8) | d as bv32;
    assert Concatenate(a, b, c, d) == x;
  }

  lemma Places(h: u32)
    ensures h / 0x100_0000 < 256
    ensures h == 0x100_0000 * (h / 0x100_0000) + 0x1_0000 * (h / 0x1_0000 % 256) + 0x100 * (h / 0x100 % 256) + h % 256
  {
  }

  lemma ConcatenateOf(i: byte, j: byte, k: byte, l: byte) returns (x: bv32)
    ensures x as int == i * 0x100_0000 + j * 0x1_0000 + k * 0x100 + l
  {
    hide Concatenate;
    var a := ByteOf(i);
    var b := ByteOf(j);
    var c := ByteOf(k);
    var d := ByteOf(l);
    ConcatenateIs(a, b, c, d);
    x := Concatenate(a, b, c, d);
  }

  lemma WordOf(h: u32) returns (x: bv32)
    ensures x as int == h
  {
    Places(h);
    var i, j, k, l := h / 0x100_0000, h / 0x1_0000 % 256, h / 0x100 % 256, h % 256;
    x := ConcatenateOf(i, j, k, l);
  }

  lemma ThereAndBack(x: bv32)
    ensures (x as int) as bv32 == x
  {
  }

  // ---- The steps, and their inverses ----

  function Unshift13(h: bv32): bv32 { h ^ (h >> 13) ^ (h >> 26) }
  function Divide1(h: bv32): bv32 { h * 0xa5cb_9243 }
  function Divide2(h: bv32): bv32 { h * 0x7ed1_b41d }

  /** The last two factors are inverses of the first two, modulo 2^32. */
  lemma Identities(h: bv32)
    ensures (h ^ (h >> 16)) ^ ((h ^ (h >> 16)) >> 16) == h
    ensures (h ^ (h >> 13)) ^ ((h ^ (h >> 13)) >> 13) ^ ((h ^ (h >> 13)) >> 26) == h
    ensures h * 0x85eb_ca6b * 0xa5cb_9243 == h
    ensures h * 0xc2b2_ae35 * 0x7ed1_b41d == h
  {
  }

  lemma Undone(h: bv32)
    ensures XorShift16(XorShift16(h)) == h && Unshift13(XorShift13(h)) == h
    ensures Divide1(Times1(h)) == h && Divide2(Times2(h)) == h
  {
    Identities(h);
    var g := h ^ (h >> 16);
    assert XorShift16(h) == g;
    g := h ^ (h >> 13);
    assert XorShift13(h) == g;
    g := h * 0x85eb_ca6b;
    assert Times1(h) == g;
    g := h * 0xc2b2_ae35;
    assert Times2(h) == g;
  }

  /** The steps of the mixing undone, the last one first. */
  function UnmixBits(m: bv32): bv32 {
    XorShift16(Divide1(Unshift13(Divide2(XorShift16(m)))))
  }

  lemma UnmixSteps(h: bv32)
    ensures UnmixBits(MixBits(h)) == h
  {
    hide XorShift16, XorShift13, Unshift13, Times1, Times2, Divide1, Divide2;
    var a := XorShift16(h);
    var b := Times1(a);
    var c := XorShift13(b);
    Undone(h);
    Undone(a);
    Undone(b);
    Undone(c);
    Undone(Times2(c));
  }

  // ---- On words ----

  /** The mixing undone. */
  function Unmix32(m: u32): u32 {
    UnmixBits(m as bv32) as int
  }

  /** No two words are mixed into one: each can be had back. */
  lemma UnmixMix(h: u32)
    ensures Unmix32(Mix32(h)) == h
  {
    hide MixBits, UnmixBits;
    var x := WordOf(h);
    ThereAndBack(x);
    ThereAndBack(MixBits(x));
    UnmixSteps(x);
  }

  lemma MixesOne()
    ensures Mix32(0) == 0 && Mix32(1) == 0x514e_28b7
  {
    assert MixBits(1) == 0x514e_28b7;
  }
}
