/** Base64 without padding, encoded into a buffer and decoded in place. */
module Base64 {

  /** A character of the alphabet, by its index. */
  function Digit(i: bv8): (c: bv8)
    requires i < 64
    ensures c != 0
  {
    if i < 26 then 65 + i
    else if i < 52 then 71 + i
    else if i < 62 then i - 4
    else if i == 62 then 43
    else 47
  }

  predicate IsDigit(c: bv8) {
    65 <= c <= 90 || 97 <= c <= 122 || 48 <= c <= 57 || c == 43 || c == 47
  }

  /** The index of a character: where `strchr` finds it. */
  function Index(c: bv8): (i: bv8)
    requires IsDigit(c)
    ensures i < 64 && Digit(i) == c
  {
    if 65 <= c <= 90 then c - 65
    else if 97 <= c <= 122 then c - 71
    else if 48 <= c <= 57 then c + 4
    else if c == 43 then 62
    else 63
  }

  lemma IndexOfDigit(i: bv8)
    requires i < 64
    ensures IsDigit(Digit(i)) && Index(Digit(i)) == i
  {
  }

  // ---- The code, group by group ----

  /** The four sextets of three bytes. A byte that is not there counts as zero. */
  function Sextet0(a: bv8): bv8 { a >> 2 }
  function Sextet1(a: bv8, b: bv8): bv8 { ((a << 4) | (b >> 4)) & 0x3F }
  function Sextet2(b: bv8, c: bv8): bv8 { ((b << 2) | (c >> 6)) & 0x3F }
  function Sextet3(c: bv8): bv8 { c & 0x3F }

  /** The three bytes of four sextets. */
  function Octet0(s: bv8, t: bv8): bv8 { (s << 2) | (t >> 4) }
  function Octet1(s: bv8, t: bv8): bv8 { (s << 4) | (t >> 2) }
  function Octet2(s: bv8, t: bv8): bv8 { (s << 6) | t }

  /** Three bytes make four sextets, and a shorter last group as many as it takes. */
  function Sextets(buf: seq<bv8>): (s: seq<bv8>)
    decreases |buf|
  {
    if |buf| == 0 then []
    else if |buf| == 1 then [Sextet0(buf[0]), Sextet1(buf[0], 0)]
    else if |buf| == 2 then [Sextet0(buf[0]), Sextet1(buf[0], buf[1]), Sextet2(buf[1], 0)]
    else
      [Sextet0(buf[0]), Sextet1(buf[0], buf[1]), Sextet2(buf[1], buf[2]), Sextet3(buf[2])] + Sextets(buf[3..])
  }

  /** Four sextets make three bytes, and fewer of them as many bytes as they touch. */
  function Octets(s: seq<bv8>): (d: seq<bv8>)
    decreases |s|
  {
    if |s| == 0 then []
    else if |s| == 1 then [Octet0(s[0], 0)]
    else if |s| == 2 then [Octet0(s[0], s[1]), Octet1(s[1], 0)]
    else if |s| == 3 then [Octet0(s[0], s[1]), Octet1(s[1], s[2]), Octet2(s[2], 0)]
    else [Octet0(s[0], s[1]), Octet1(s[1], s[2]), Octet2(s[2], s[3])] + Octets(s[4..])
  }

  lemma BytesComeBack(a: bv8, b: bv8, c: bv8)
    ensures Octet0(Sextet0(a), Sextet1(a, b)) == a
    ensures Octet1(Sextet1(a, b), Sextet2(b, c)) == b
    ensures Octet2(Sextet2(b, c), Sextet3(c)) == c
    ensures Octet1(Sextet1(a, 0), 0) == 0 && Octet2(Sextet2(b, 0), 0) == 0
  {
  }

  /** Decoding gives the bytes back, and a zero byte more unless they come in threes. */
  lemma {:induction false} RoundTrip(buf: seq<bv8>)
    ensures Octets(Sextets(buf)) == if |buf| % 3 == 0 then buf else buf + [0]
    decreases |buf|
  {
    hide Sextet0, Sextet1, Sextet2, Sextet3, Octet0, Octet1, Octet2;
    if |buf| == 1 {
      BytesComeBack(buf[0], 0, 0);
    } else if |buf| == 2 {
      BytesComeBack(buf[0], buf[1], 0);
    } else if |buf| > 2 {
      BytesComeBack(buf[0], buf[1], buf[2]);
      RoundTrip(buf[3..]);
      assert Sextets(buf)[4..] == Sextets(buf[3..]);
      assert buf == [buf[0], buf[1], buf[2]] + buf[3..];
    }
  }

  lemma FourBack(i: nat)
    requires i >= 4
    ensures i * 6 / 8 == (i - 4) * 6 / 8 + 3 && i * 6 % 8 == (i - 4) * 6 % 8
  {
  }

  /** Sextet i is at bit 6 * i of the buffer. */
  lemma {:induction false} SextetAt(buf: seq<bv8>, i: nat)
    requires i < |Sextets(buf)|
    ensures i * 6 / 8 < |buf| && i * 6 % 8 in {0, 2, 4, 6}
    ensures var byte, bit := i * 6 / 8, i * 6 % 8;
            var next := if byte + 1 < |buf| then buf[byte + 1] else 0;
            Sextets(buf)[i] == match bit
                               case 0 => Sextet0(buf[byte])
                               case 6 => Sextet1(buf[byte], next)
                               case 4 => Sextet2(buf[byte], next)
                               case _ => Sextet3(buf[byte])
    decreases |buf|
  {
    hide Sextet0, Sextet1, Sextet2, Sextet3;
    if |buf| > 2 && i >= 4 {
      SextetAt(buf[3..], i - 4);
      FourBack(i);
    } else {
      assert i in {0, 1, 2, 3};
    }
  }

  /** There are as many sextets as it takes to cover all bits. */
  lemma {:induction false} SextetCount(buf: seq<bv8>)
    ensures |Sextets(buf)| == (|buf| * 8 + 5) / 6
    decreases |buf|
  {
    if |buf| > 2 {
      SextetCount(buf[3..]);
    }
  }

  /** Shifts by the amounts that occur. */
  function Left(a: bv8, n: nat): bv8
    requires n in {0, 2, 4, 6}
  {
    match n case 0 => a case 2 => a << 2 case 4 => a << 4 case _ => a << 6
  }

  function Right(a: bv8, n: nat): bv8
    requires n in {0, 2, 4, 6}
  {
    match n case 0 => a case 2 => a >> 2 case 4 => a >> 4 case _ => a >> 6
  }

  /** The six bits from a given bit of byte a on, of which some may lie in byte b. */
  lemma SixBits(a: bv8, b: bv8)
    ensures Right(a, 2) & 0x3F == Sextet0(a) < 64 && Right(a, 0) & 0x3F == Sextet3(a) < 64
    ensures Left(a, 4) & 0x3F == Sextet1(a, 0) < 64 && Left(a, 2) & 0x3F == Sextet2(a, 0) < 64
    ensures (Left(a, 4) | Right(b, 4)) & 0x3F == Sextet1(a, b) < 64
    ensures (Left(a, 2) | Right(b, 6)) & 0x3F == Sextet2(a, b) < 64
  {
  }

  /** Encode buf, and end the string. */
  method Encode(buf: seq<bv8>, out: array<bv8>)
    requires out.Length > (|buf| * 8 + 5) / 6
    modifies out
    ensures var s := Sextets(buf);
            && |s| < out.Length && out[|s|] == 0
            && forall k :: 0 <= k < |s| ==> s[k] < 64 && out[k] == Digit(s[k])
  {
    var bytes := (|buf| * 8 + 5) / 6;
    SextetCount(buf);
    hide Sextets, Left, Right, Sextet0, Sextet1, Sextet2, Sextet3;
    var i := 0;
    while i < bytes
      invariant i <= bytes == |Sextets(buf)|
      invariant forall k :: 0 <= k < i ==> Sextets(buf)[k] < 64 && out[k] == Digit(Sextets(buf)[k])
    {
      var byte, bit := i * 6 / 8, i * 6 % 8;
      SextetAt(buf, i);
      SixBits(buf[byte], if byte + 1 < |buf| then buf[byte + 1] else 0);
      if bit < 3 {
        out[i] := Digit(Right(buf[byte], 2 - bit) & 0x3F);
      } else {
        if byte + 1 == |buf| {
          out[i] := Digit(Left(buf[byte], bit - 2) & 0x3F);
        } else {
          out[i] := Digit((Left(buf[byte], bit - 2) | Right(buf[byte + 1], 10 - bit)) & 0x3F);
        }
      }
      i := i + 1;
    }
    out[i] := 0;
  }

  // ---- Decoding in place ----

  /** The digits that a string starts with, up to the first other character. */
  function Digits(s: seq<bv8>): nat
    decreases |s|
  {
    if s == [] || !IsDigit(s[0]) then 0 else 1 + Digits(s[1..])
  }

  lemma {:induction false} DigitsAre(s: seq<bv8>, i: nat)
    requires forall k :: 0 <= k < i ==> k < |s| && IsDigit(s[k])
    requires i < |s| && !IsDigit(s[i])
    ensures Digits(s) == i
    decreases i
  {
    if i > 0 {
      assert IsDigit(s[0]);
      forall k | 0 <= k < i - 1
        ensures IsDigit(s[1..][k])
      {
        assert IsDigit(s[k + 1]);
      }
      DigitsAre(s[1..], i - 1);
    }
  }

  function Indices(s: seq<bv8>): (t: seq<bv8>)
    requires forall k :: 0 <= k < |s| ==> IsDigit(s[k])
    ensures |t| == |s| && forall k :: 0 <= k < |s| ==> t[k] == Index(s[k])
  {
    seq(|s|, i requires 0 <= i < |s| => Index(s[i]))
  }

  /** All but the high bits of a byte cleared, for a number of bits that occurs. */
  function Keep(a: bv8, bits: nat): bv8
    requires bits in {0, 2, 4, 6}
  {
    match bits case 0 => 0 case 2 => a & 0xC0 case 4 => a & 0xF0 case _ => a & 0xFC
  }

  lemma FirstOctet(t: bv8)
    ensures Keep(0, 0) | Left(t, 2) == Octet0(t, 0)
  {
  }

  lemma AcrossOctets(s: bv8, t: bv8)
    ensures Keep(Octet0(s, 0), 6) | Right(t, 4) == Octet0(s, t) && Left(t, 4) == Octet1(t, 0)
  {
  }

  lemma MiddleOctet(s: bv8, t: bv8)
    ensures Keep(Octet1(s, 0), 4) | Right(t, 2) == Octet1(s, t) && Left(t, 6) == Octet2(t, 0)
  {
  }

  lemma LastOctet(s: bv8, t: bv8)
    ensures Keep(Octet2(s, 0), 2) | Left(t, 0) == Octet2(s, t)
  {
  }

  /** What one more sextet does to the bytes decoded. */
  function OneMore(d: seq<bv8>, i: nat, x: bv8): seq<bv8>
    requires |d| == Length(i)
  {
    var byte, bit := i * 6 / 8, i * 6 % 8;
    if bit == 0 then d + [Keep(0, 0) | Left(x, 2)]
    else if bit < 3 then d[..byte] + [Keep(d[byte], 2) | Left(x, 0)]
    else d[..byte] + [Keep(d[byte], bit) | Right(x, bit - 2), Left(x, 8 - (bit - 2))]
  }

  /** How many bytes i sextets touch. */
  function Length(i: nat): nat {
    i / 4 * 3 + i % 4
  }

  lemma {:induction false} OctetsSnoc(s: seq<bv8>, x: bv8)
    ensures |Octets(s)| == Length(|s|) && Octets(s + [x]) == OneMore(Octets(s), |s|, x)
    decreases |s|
  {
    hide Octet0, Octet1, Octet2, Keep, Left, Right;
    if |s| < 4 {
      SnocInGroup(s, x);
    } else {
      var t, d := s[4..], Octets(s[4..]);
      var a := Octets(s[..4]);
      hide OneMore;
      OctetsSnoc(t, x);
      NextGroup(s);
      NextGroup(s + [x]);
      assert (s + [x])[4..] == t + [x] && (s + [x])[..4] == s[..4];
      MoreAfterGroup(a, d, |t|, x);
    }
  }

  lemma NextGroup(s: seq<bv8>)
    requires |s| >= 4
    ensures |Octets(s[..4])| == 3 && Octets(s) == Octets(s[..4]) + Octets(s[4..])
  {
    hide Octet0, Octet1, Octet2;
    assert s[..4][4..] == [];
  }

  lemma MoreAfterGroup(a: seq<bv8>, d: seq<bv8>, i: nat, x: bv8)
    requires |a| == 3 && |d| == Length(i)
    ensures Length(i + 4) == 3 + Length(i) && OneMore(a + d, i + 4, x) == a + OneMore(d, i, x)
  {
    hide Keep, Left, Right;
    var byte, bit := i * 6 / 8, i * 6 % 8;
    assert (i + 4) * 6 / 8 == byte + 3 && (i + 4) * 6 % 8 == bit;
    assert bit != 0 ==> byte < |d|;
    assert bit != 0 ==> (a + d)[byte + 3] == d[byte] && (a + d)[..byte + 3] == a + d[..byte];
  }

  /** One more sextet, place by place. */
  lemma OneMoreAt(d: seq<bv8>, x: bv8)
    ensures |d| == 0 ==> OneMore(d, 0, x) == [Keep(0, 0) | Left(x, 2)]
    ensures |d| == 1 ==> OneMore(d, 1, x) == [Keep(d[0], 6) | Right(x, 4), Left(x, 4)]
    ensures |d| == 2 ==> OneMore(d, 2, x) == [d[0], Keep(d[1], 4) | Right(x, 2), Left(x, 6)]
    ensures |d| == 3 ==> OneMore(d, 3, x) == [d[0], d[1], Keep(d[2], 2) | Left(x, 0)]
  {
    hide Keep, Left, Right;
    if |d| == 2 {
      assert d[..1] == [d[0]];
    } else if |d| == 3 {
      assert d[..2] == [d[0], d[1]];
    }
  }

  lemma Groups(a: bv8, b: bv8, c: bv8, d: bv8)
    ensures Octets([]) == [] && Octets([a]) == [Octet0(a, 0)] && Octets([a, b]) == [Octet0(a, b), Octet1(b, 0)]
    ensures Octets([a, b, c]) == [Octet0(a, b), Octet1(b, c), Octet2(c, 0)]
    ensures Octets([a, b, c, d]) == [Octet0(a, b), Octet1(b, c), Octet2(c, d)]
  {
    hide Octet0, Octet1, Octet2;
    assert [a, b, c, d][4..] == [];
  }

  lemma SnocInGroup(s: seq<bv8>, x: bv8)
    requires |s| < 4
    ensures |Octets(s)| == |s| && Octets(s + [x]) == OneMore(Octets(s), |s|, x)
  {
    hide Octet0, Octet1, Octet2, Keep, Left, Right, Octets, OneMore;
    OneMoreAt(Octets(s), x);
    if |s| == 0 {
      FirstOctet(x);
      Groups(x, 0, 0, 0);
      assert s == [] && [] + [x] == [x];
    } else if |s| == 1 {
      AcrossOctets(s[0], x);
      Groups(s[0], x, 0, 0);
      assert s == [s[0]] && s + [x] == [s[0], x];
    } else if |s| == 2 {
      MiddleOctet(s[1], x);
      Groups(s[0], s[1], x, 0);
      assert s == [s[0], s[1]] && s + [x] == [s[0], s[1], x];
    } else {
      LastOctet(s[2], x);
      Groups(s[0], s[1], s[2], x);
      assert s == [s[0], s[1], s[2]] && s + [x] == [s[0], s[1], s[2], x];
    }
  }

  /** The write cursor stays behind the character that is being read. */
  lemma Cursor(i: nat)
    ensures var byte, bit := i * 6 / 8, i * 6 % 8;
            && bit in {0, 2, 4, 6} && Length(i) <= i
            && Length(i) == (if bit == 0 then byte else byte + 1)
            && Length(i + 1) == (if bit < 3 then byte + 1 else byte + 2)
            && (if bit < 3 then byte else byte + 1) <= i
  {
    var g := i / 4;
    assert i == 4 * g || i == 4 * g + 1 || i == 4 * g + 2 || i == 4 * g + 3;
  }

  /** Put a sextet that lies within one byte. */
  method PutWithin(s: array<bv8>, i: nat, idx: bv8, ghost d: seq<bv8>)
    requires i < s.Length && i * 6 % 8 in {0, 2} && |d| == Length(i) <= s.Length && s[..|d|] == d
    modifies s
    ensures var n := i * 6 / 8 + 1; n == Length(i + 1) <= i + 1 && s[..n] == OneMore(d, i, idx)
    ensures forall k :: i < k < s.Length ==> s[k] == old(s[k])
  {
    hide Left;
    Cursor(i);
    var byteOffset, bitOffset := i * 6 / 8, i * 6 % 8;
    s[byteOffset] := Keep(s[byteOffset], bitOffset);
    s[byteOffset] := s[byteOffset] | Left(idx, 2 - bitOffset);
    assert s[..byteOffset] == d[..byteOffset];
  }

  /** Put a sextet that reaches into the next byte. */
  method PutAcross(s: array<bv8>, i: nat, idx: bv8, ghost d: seq<bv8>)
    requires i < s.Length && i * 6 % 8 in {4, 6} && |d| == Length(i) <= s.Length && s[..|d|] == d
    modifies s
    ensures var n := i * 6 / 8 + 2; n == Length(i + 1) <= i + 1 && s[..n] == OneMore(d, i, idx)
    ensures forall k :: i < k < s.Length ==> s[k] == old(s[k])
  {
    hide Left, Right, Keep;
    Cursor(i);
    var byteOffset, bitOffset := i * 6 / 8, i * 6 % 8;
    s[byteOffset] := Keep(s[byteOffset], bitOffset);
    s[byteOffset] := s[byteOffset] | Right(idx, bitOffset - 2);
    s[byteOffset + 1] := Left(idx, 8 - (bitOffset - 2));
    assert s[..byteOffset] == d[..byteOffset];
  }

  /** Put one more sextet into the bytes decoded so far, which are the first of s. */
  method Put(s: array<bv8>, i: nat, idx: bv8, ghost d: seq<bv8>) returns (n: nat)
    requires i < s.Length && |d| == Length(i) <= s.Length && s[..|d|] == d
    modifies s
    ensures n == Length(i + 1) <= i + 1 && s[..n] == OneMore(d, i, idx)
    ensures forall k :: i < k < s.Length ==> s[k] == old(s[k])
  {
    hide OneMore;
    Cursor(i);
    if i * 6 % 8 < 3 {
      PutWithin(s, i, idx, d);
      n := i * 6 / 8 + 1;
    } else {
      PutAcross(s, i, idx, d);
      n := i * 6 / 8 + 2;
    }
  }

  /** Decode the digits that a string starts with, over the string itself. */
  method Decode(s: array<bv8>) returns (n: nat)
    requires exists k :: 0 <= k < s.Length && s[k] == 0
    modifies s
    ensures var m := Digits(old(s[..]));
            && m < s.Length && n == Length(m)
            && (forall k :: 0 <= k < m ==> IsDigit(old(s[..])[k]))
            && s[..n] == Octets(Indices(old(s[..m])))
  {
    hide OneMore, Octets;
    ghost var before := s[..];
    ghost var z :| 0 <= z < s.Length && s[z] == 0;
    var i := 0;
    n := 0;
    NothingDecoded();
    assert before[..0] == [];
    while IsDigit(s[i])
      invariant i <= z && n == Length(i) <= i
      invariant forall k :: 0 <= k < i ==> IsDigit(before[k])
      invariant forall k :: i <= k < s.Length ==> s[k] == before[k]
      invariant s[..n] == Octets(Indices(before[..i]))
      decreases z - i
    {
      var idx := Index(s[i]);
      ghost var t := Indices(before[..i]);
      OctetsSnoc(t, idx);
      n := Put(s, i, idx, s[..n]);
      assert Indices(before[..i + 1]) == t + [idx];
      i := i + 1;
    }
    DigitsAre(before, i);
  }

  lemma NothingDecoded()
    ensures Octets(Indices([])) == []
  {
  }

  /** Encoding and then decoding in place gives the bytes back, and a zero byte more unless they come in threes. */
  method EncodeThenDecode(buf: seq<bv8>) returns (d: seq<bv8>)
    ensures d == if |buf| % 3 == 0 then buf else buf + [0]
  {
    hide Octets, Sextets;
    var out := new bv8[(|buf| * 8 + 5) / 6 + 1];
    Encode(buf, out);
    ghost var s := Sextets(buf);
    forall k | 0 <= k < |s|
      ensures IsDigit(out[k]) && Index(out[k]) == s[k]
    {
      IndexOfDigit(s[k]);
    }
    DigitsAre(out[..], |s|);
    assert Indices(out[..|s|]) == s;
    var n := Decode(out);
    RoundTrip(buf);
    d := out[..n];
  }
}
