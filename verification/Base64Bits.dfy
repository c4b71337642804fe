/** Base64 by its alphabet and by the bits it carries, as section 5.2 of RFC 1521 describes it. */
module Base64Bits {
  import opened Base64

  const UPPER := "ABCDEFGHIJKLMNOPQRSTUVWXYZ"
  const LOWER := "abcdefghijklmnopqrstuvwxyz"
  const DIGITS := "0123456789"
  const ALPHABET := UPPER + LOWER + DIGITS + "+/"

  lemma UpperAt(i: nat)
    requires i < 26
    ensures UPPER[i] as int == 65 + i
  {
  }

  lemma LowerAt(i: nat)
    requires i < 26
    ensures LOWER[i] as int == 97 + i
  {
  }

  lemma DigitsAt(i: nat)
    requires i < 10
    ensures DIGITS[i] as int == 48 + i
  {
  }

  lemma AlphabetAt(i: nat)
    requires i < 64
    ensures ALPHABET[i] as int
            == if i < 26 then 65 + i
               else if i < 52 then 71 + i
               else if i < 62 then i - 4
               else if i == 62 then 43
               else 47
  {
    if i < 26 {
      UpperAt(i);
    } else if i < 52 {
      LowerAt(i - 26);
    } else if i < 62 {
      DigitsAt(i - 52);
    }
  }

  /** The character for an index is the one at that place of the alphabet. */
  lemma DigitIs(i: bv8)
    requires i < 64
    ensures i as int < 64 && Digit(i) as int == ALPHABET[i as int] as int
  {
    AlphabetAt(i as int);
  }

  // ---- Groups as numbers of 24 bits ----

  /** Four sextets, the first one on top. */
  function OfSextets(p: bv8, q: bv8, r: bv8, s: bv8): bv24 {
    (p as bv24 << 18) | (q as bv24 << 12) | (r as bv24 << 6) | s as bv24
  }

  /** Three bytes, the first one on top. */
  function OfBytes(a: bv8, b: bv8, c: bv8): bv24 {
    (a as bv24 << 16) | (b as bv24 << 8) | c as bv24
  }

  lemma GroupBits(a: bv8, b: bv8, c: bv8)
    ensures OfSextets(Sextet0(a), Sextet1(a, b), Sextet2(b, c), Sextet3(c)) == OfBytes(a, b, c)
    ensures Sextet2(0, 0) == 0 && Sextet3(0) == 0
  {
  }

  /** What lies behind the end counts as zero. */
  function At(s: seq<bv8>, i: nat): bv8 {
    if i < |s| then s[i] else 0
  }

  /** Group by group, the sextets are the bits of the bytes, in order, with zeros to fill up the last group. */
  lemma {:induction false} SextetsAreBits(buf: seq<bv8>, k: nat)
    requires 3 * k < |buf|
    ensures var s := Sextets(buf);
            OfSextets(At(s, 4 * k), At(s, 4 * k + 1), At(s, 4 * k + 2), At(s, 4 * k + 3))
            == OfBytes(At(buf, 3 * k), At(buf, 3 * k + 1), At(buf, 3 * k + 2))
    decreases k
  {
    hide Sextet0, Sextet1, Sextet2, Sextet3, OfSextets, OfBytes;
    GroupBits(At(buf, 0), At(buf, 1), At(buf, 2));
    if k > 0 {
      SextetsAreBits(buf[3..], k - 1);
      assert forall i: nat :: At(buf[3..], i) == At(buf, i + 3);
    }
  }

  lemma OctetBits(p: bv8, q: bv8, r: bv8, s: bv8)
    requires p < 64 && q < 64 && r < 64 && s < 64
    ensures OfBytes(Octet0(p, q), Octet1(q, r), Octet2(r, s)) == OfSextets(p, q, r, s)
  {
  }

  /** And back: whole groups of digits stand for the bytes that have their bits. */
  lemma {:induction false} OctetsAreBits(s: seq<bv8>, k: nat)
    requires 4 * k + 4 <= |s| && forall i :: 0 <= i < |s| ==> s[i] < 64
    ensures 3 * k + 3 <= |Octets(s)|
    ensures var d := Octets(s);
            OfBytes(d[3 * k], d[3 * k + 1], d[3 * k + 2])
            == OfSextets(s[4 * k], s[4 * k + 1], s[4 * k + 2], s[4 * k + 3])
    decreases k
  {
    hide Octet0, Octet1, Octet2, OfSextets, OfBytes;
    if k == 0 {
      OctetBits(s[0], s[1], s[2], s[3]);
    } else {
      OctetsAreBits(s[4..], k - 1);
    }
  }
}
