/**
 The strong sums byte by byte: what each byte of a digest is, in terms of chaining values that
 are defined block by block from the front, as RFC 1320 and RFC 7693 number them.
 */
module DigestBytes {
  import opened Bytes
  import opened Checksum
  import opened Congruence
  import opened Digests
  import opened StrongSums
  import Blake2b
  import Mdfour
  import Wire

  /** Byte i of a stored word is the digit of place i in base 256. */
  lemma {:induction false} LittleEndianDigit(v: nat, n: nat, i: nat)
    requires i < n
    ensures LittleEndian(v, n)[i] == v / TwoTo(8 * i) % 256
    decreases n
  {
    assert LittleEndian(v, n) == [v % 256] + LittleEndian(v / 256, n - 1);
    if i > 0 {
      LittleEndianDigit(v / 256, n - 1, i - 1);
      hide TwoTo;
      Wire.NextPlace(i - 1);
      DivideTwice(v, 256, TwoTo(8 * (i - 1)));
    }
  }

  // ---- MD4 ----

  /** The chaining words after k blocks. */
  function Md4Chain(f: Mdfour.Compression, data: seq<byte>, k: nat): Mdfour.State
    requires 64 * k <= |data|
  {
    if k == 0 then Mdfour.State(0x67452301, 0xefcdab89, 0x98badcfe, 0x10325476)
    else f(Md4Chain(f, data, k - 1), data[64 * (k - 1)..64 * k])
  }

  lemma {:induction false} ChewIsChain(f: Mdfour.Compression, data: seq<byte>, k: nat)
    requires 64 * k <= |data|
    ensures Mdfour.Chew(f, Mdfour.INITIAL, data[..64 * k]) == Md4Chain(f, data, k)
  {
    if k > 0 {
      ChewIsChain(f, data, k - 1);
      assert data[..64 * k] == data[..64 * (k - 1)] + data[64 * (k - 1)..64 * k];
      hide Mdfour.Chew;
      Mdfour.ChewBlock(f, Mdfour.INITIAL, data[..64 * (k - 1)], data[64 * (k - 1)..64 * k], k - 1);
    }
  }

  /** The padded message: the message, one bit, zeros, and the length in bits, low byte first. */
  lemma PaddedByte(msg: seq<byte>, k: nat)
    requires k < |Mdfour.Padded(msg)|
    ensures var n := |Mdfour.Padded(msg)|;
            && n % 64 == 0 && |msg| + 9 <= n < |msg| + 9 + 64
            && Mdfour.Padded(msg)[k]
               == if k < |msg| then msg[k]
                  else if k == |msg| then 0x80
                  else if k < n - 8 then 0
                  else 8 * |msg| % 0x1_0000_0000_0000_0000 / TwoTo(8 * (k - (n - 8))) % 256
  {
    hide LittleEndian;
    var n := |Mdfour.Padded(msg)|;
    var bits := 8 * |msg| % WORD64;
    assert |Mdfour.Padding(Mdfour.PadLen(|msg|))| == n - 8 - |msg|;
    if k >= n - 8 {
      LittleEndianDigit(bits, 8, k - (n - 8));
      assert Mdfour.Padded(msg)[k] == LittleEndian(bits, 8)[k - (n - 8)];
    }
  }

  /** Byte 4 * j + i of the digest is byte i of chaining word j, after all blocks of the padded message. */
  lemma Md4Byte(f: Mdfour.Compression, msg: seq<byte>, j: nat, i: nat)
    requires j < 4 && i < 4
    ensures var data := Mdfour.Padded(msg);
            var s := Md4Chain(f, data, |data| / 64);
            Mdfour.Digest(f, msg)[4 * j + i] == [s.a, s.b, s.c, s.d][j] / TwoTo(8 * i) % 256
  {
    hide LittleEndian, Mdfour.Chew, Mdfour.Padded, Md4Chain;
    var data := Mdfour.Padded(msg);
    var s := Md4Chain(f, data, |data| / 64);
    ChewIsChain(f, data, |data| / 64);
    Mdfour.PaddedLength(msg, |msg| / 64, |msg| % 64);
    assert data[..64 * (|data| / 64)] == data;
    var word := [s.a, s.b, s.c, s.d][j];
    LittleEndianDigit(word, 4, i);
    assert Mdfour.Words(s)[4 * j + i] == LittleEndian(word, 4)[i];
  }

  // ---- BLAKE2b ----

  /** The chaining words after k blocks, none of them the last. */
  function BlakeChain(f: Blake2b.Compression, h: Blake2b.Words8, msg: seq<byte>, k: nat): Blake2b.Words8
    requires 128 * k <= |msg|
  {
    if k == 0 then h
    else
      f(BlakeChain(f, h, msg, k - 1), msg[128 * (k - 1)..128 * k],
        128 * k % 0x1_0000_0000_0000_0000, 128 * k / 0x1_0000_0000_0000_0000 % 0x1_0000_0000_0000_0000, false)
  }

  lemma {:induction false} AbsorbIsChain(f: Blake2b.Compression, h: Blake2b.Words8, msg: seq<byte>, k: nat)
    requires 128 * k <= |msg|
    ensures Blake2b.Absorb(f, h, 0, msg[..128 * k]) == BlakeChain(f, h, msg, k)
  {
    if k > 0 {
      AbsorbIsChain(f, h, msg, k - 1);
      assert msg[..128 * k] == msg[..128 * (k - 1)] + msg[128 * (k - 1)..128 * k];
      hide Blake2b.Absorb;
      Blake2b.AbsorbBlock(f, h, 0, msg[..128 * (k - 1)], k - 1, msg[128 * (k - 1)..128 * k]);
    }
  }

  /** The last block, filled up with zeros. */
  function LastBlock(msg: seq<byte>, k: nat): seq<byte> {
    seq(128, i requires 0 <= i < 128 => if 128 * k + i < |msg| then msg[128 * k + i] else 0)
  }

  /** The last of the blocks is marked as such, is never empty unless the message is, and counts its own bytes. */
  lemma HashIsChain(f: Blake2b.Compression, h: Blake2b.Words8, msg: seq<byte>, k: nat)
    requires 128 * k < |msg| <= 128 * k + 128 || (msg == [] && k == 0)
    ensures Blake2b.Hash(f, h, msg)
            == f(BlakeChain(f, h, msg, k), LastBlock(msg, k),
                 |msg| % 0x1_0000_0000_0000_0000, |msg| / 0x1_0000_0000_0000_0000 % 0x1_0000_0000_0000_0000, true)
  {
    hide Blake2b.Absorb, BlakeChain;
    Blake2b.BeforeIs(|msg|, k, |msg| - 128 * k);
    AbsorbIsChain(f, h, msg, k);
    assert msg[128 * k..] + Zeros(128 - (|msg| - 128 * k)) == LastBlock(msg, k);
  }

  /** Byte 8 * j + i of stored words is byte i of word j. */
  lemma {:induction false} SerialByte(h: seq<Blake2b.u64>, j: nat, i: nat)
    requires j < |h| && i < 8
    ensures Blake2b.Serial(h)[8 * j + i] == h[j] / TwoTo(8 * i) % 256
    decreases |h|
  {
    hide LittleEndian;
    assert Blake2b.Serial(h) == LittleEndian(h[0], 8) + Blake2b.Serial(h[1..]);
    if j == 0 {
      LittleEndianDigit(h[0], 8, i);
    } else {
      SerialByte(h[1..], j - 1, i);
    }
  }

  // ---- The strong sums of blocks ----

  /** The strong sum of the MD4 kind is the digest, and that of the BLAKE2 kind the first four words of the hash. */
  lemma StrongByte(md4: Mdfour.Compression, blake: Blake2b.Compression, init: Blake2b.Words8, buf: seq<byte>,
                   j: nat, i: nat)
    requires j < 4
    ensures i < 4 ==> var data := Mdfour.Padded(buf);
                      var s := Md4Chain(md4, data, |data| / 64);
                      && |Strong(md4, blake, init)(Md4, buf)| == 16
                      && Strong(md4, blake, init)(Md4, buf)[4 * j + i]
                         == [s.a, s.b, s.c, s.d][j] / TwoTo(8 * i) % 256
    ensures i < 8 ==> && |Strong(md4, blake, init)(Blake2, buf)| == 32
                      && Strong(md4, blake, init)(Blake2, buf)[8 * j + i]
                         == Blake2b.Hash(blake, init, buf)[j] / TwoTo(8 * i) % 256
  {
    hide Mdfour.Digest, Mdfour.Padded, Md4Chain, Blake2b.Hash, Blake2b.Serial;
    if i < 4 {
      Md4Byte(md4, buf, j, i);
    }
    if i < 8 {
      SerialByte(Blake2b.Hash(blake, init, buf), j, i);
    }
  }
}
