/**
 The MD4 streaming interface. The compression of one block is a parameter: what is shown here is
 that any way of feeding a message in gives the digest of sections 3.1 to 3.5 of RFC 1320.
 */
module Mdfour {
  import opened Bytes
  import opened Congruence
  import opened Digests
  import opened Memory

  /** The four chaining words. */
  datatype State = State(a: u32, b: u32, c: u32, d: u32)

  type Compression = (State, seq<byte>) -> State

  const INITIAL := State(0x67452301, 0xefcdab89, 0x98badcfe, 0x10325476)
  const BLOCK := 64

  // ---- The digest, as RFC 1320 has it ----

  /** Section 3.1: as many bytes as bring the length to 56 modulo 64, and one at least. */
  function PadLen(len: nat): (n: nat)
    ensures 1 <= n <= 64
    ensures (len + n) % 64 == 56
  {
    if len % 64 < 56 then 56 - len % 64 else 120 - len % 64
  }

  function Padding(n: nat): (s: seq<byte>)
    requires n > 0
    ensures |s| == n
  {
    [0x80] + Zeros(n - 1)
  }

  /** Sections 3.1 and 3.2: the padding, and then the length in bits. */
  function Padded(msg: seq<byte>): seq<byte> {
    msg + Padding(PadLen(|msg|)) + LittleEndian(8 * |msg| % WORD64, 8)
  }

  /** Section 3.4: all complete blocks, one after the other. */
  function Chew(f: Compression, s: State, data: seq<byte>): State
    decreases |data|
  {
    if |data| < BLOCK then s else Chew(f, f(s, data[..BLOCK]), data[BLOCK..])
  }

  /** Section 3.5. */
  function Words(s: State): (out: seq<byte>)
    ensures |out| == 16
  {
    LittleEndian(s.a, 4) + LittleEndian(s.b, 4) + LittleEndian(s.c, 4) + LittleEndian(s.d, 4)
  }

  function Digest(f: Compression, msg: seq<byte>): (out: seq<byte>)
    ensures |out| == 16
  {
    Words(Chew(f, INITIAL, Padded(msg)))
  }

  /** After a whole number of blocks, what follows is chewed on its own. */
  lemma {:induction false} ChewAppend(f: Compression, s: State, a: seq<byte>, b: seq<byte>, n: nat)
    requires |a| == BLOCK * n
    ensures Chew(f, s, a + b) == Chew(f, Chew(f, s, a), b)
    decreases n
  {
    if n == 0 {
      assert a + b == b;
    } else {
      assert (a + b)[..BLOCK] == a[..BLOCK] && (a + b)[BLOCK..] == a[BLOCK..] + b;
      ChewAppend(f, f(s, a[..BLOCK]), a[BLOCK..], b, n - 1);
    }
  }

  /** Less than a block is left alone. */
  lemma ChewBlock(f: Compression, s: State, a: seq<byte>, block: seq<byte>, n: nat)
    requires |a| == BLOCK * n && |block| == BLOCK
    ensures Chew(f, s, a + block) == f(Chew(f, s, a), block)
  {
    ChewAppend(f, s, a, block, n);
    assert block[..BLOCK] == block && block[BLOCK..] == [];
  }

  /** Padding brings any message to whole blocks, and with no less would there be room for the length. */
  lemma PaddedLength(msg: seq<byte>, n: nat, r: nat)
    requires |msg| == BLOCK * n + r && r < BLOCK
    ensures PadLen(|msg|) == if r < 56 then 56 - r else 120 - r
    ensures |Padded(msg)| % BLOCK == 0
  {
    hide LittleEndian;
    Unique(|msg|, n, r, BLOCK);
    Unique(|Padded(msg)|, if r < 56 then n + 1 else n + 2, 0, BLOCK);
  }

  /** A byte count that wraps around still gives the right bit count. */
  lemma BitCount(n: nat)
    ensures n % WORD64 * 8 % WORD64 == 8 * n % WORD64
  {
    CongReduce(n, WORD64);
    CongScale(n % WORD64, n, 8, WORD64);
  }

  lemma NoTail(len: nat, n: nat, r: nat)
    requires len == BLOCK * n + r && r < BLOCK && len % BLOCK == 0
    ensures r == 0
  {
    Unique(len, n, r, BLOCK);
  }

  // ---- The streaming interface ----

  class Mdfour {
    const compress: Compression
    var state: State
    var totalN: nat
    const tail: array<byte>
    var tailLen: nat

    /** The message so far: the blocks compressed, and the tail. */
    ghost var done: seq<byte>
    ghost var blocks: nat

    ghost function Message(): seq<byte>
      requires tailLen <= tail.Length
      reads this, tail
    {
      done + tail[..tailLen]
    }

    ghost predicate Valid()
      reads this, tail
    {
      && tail.Length == BLOCK && tailLen < BLOCK && |done| == BLOCK * blocks
      && state == Chew(compress, INITIAL, done)
      && totalN == (|done| + tailLen) % WORD64
    }

    constructor (compress: Compression)
      ensures Valid() && fresh(tail) && Message() == [] && this.compress == compress
    {
      this.compress := compress;
      state, totalN, tailLen := INITIAL, 0, 0;
      tail := new byte[BLOCK](_ => 0);
      done, blocks := [], 0;
    }

    /** Compress one block. */
    method Block(p: seq<byte>)
      requires |p| == BLOCK && |done| == BLOCK * blocks && state == Chew(compress, INITIAL, done)
      modifies this`state, this`done, this`blocks
      ensures done == old(done) + p && blocks == old(blocks) + 1 && state == Chew(compress, INITIAL, done)
    {
      ChewBlock(compress, INITIAL, done, p, blocks);
      state := compress(state, p);
      done := done + p;
      blocks := blocks + 1;
    }

    /** Put in on the tail. */
    method PutOnTail(in_: seq<byte>)
      requires tailLen + |in_| <= tail.Length
      modifies this`tailLen, tail
      ensures tailLen == old(tailLen) + |in_| && tail[..tailLen] == old(tail[..tailLen]) + in_
    {
      PutBytes(tail, tailLen, in_);
      tailLen := tailLen + |in_|;
    }

    /** Make a leftover tail up to a block, if there is enough for it. */
    method FillTail(in_: seq<byte>) returns (rest: seq<byte>)
      requires tail.Length == BLOCK && tailLen < BLOCK
      requires |done| == BLOCK * blocks && state == Chew(compress, INITIAL, done)
      modifies this`state, this`done, this`blocks, this`tailLen, tail
      ensures tailLen < BLOCK && |done| == BLOCK * blocks && state == Chew(compress, INITIAL, done)
      ensures tailLen > 0 ==> tailLen + |rest| < BLOCK
      ensures Message() + rest == old(Message()) + in_
    {
      rest := in_;
      if tailLen > 0 {
        var tailGap := BLOCK - tailLen;
        if tailGap <= |in_| {
          ghost var before := tail[..tailLen];
          PutOnTail(in_[..tailGap]);
          Block(tail[..]);
          rest := in_[tailGap..];
          tailLen := 0;
          assert tail[..BLOCK] == tail[..];
          assert old(done) + (before + in_[..tailGap]) + rest == old(done) + before + (in_[..tailGap] + rest);
          assert in_[..tailGap] + in_[tailGap..] == in_;
          assert tail[..0] == [] && done + [] == done;
        }
      }
    }

    /** Compress the complete blocks of the input. */
    method Blocks(in_: seq<byte>) returns (rest: seq<byte>)
      requires tailLen < BLOCK <= tail.Length && |done| == BLOCK * blocks && state == Chew(compress, INITIAL, done)
      requires tailLen > 0 ==> tailLen + |in_| < BLOCK
      modifies this`state, this`done, this`blocks
      ensures |done| == BLOCK * blocks && state == Chew(compress, INITIAL, done)
      ensures Message() + rest == old(Message()) + in_ && tailLen + |rest| < BLOCK
    {
      hide Chew;
      rest := in_;
      ghost var whole := Message() + in_;
      while |rest| >= BLOCK
        invariant |done| == BLOCK * blocks && state == Chew(compress, INITIAL, done)
        invariant tailLen > 0 ==> tailLen + |rest| < BLOCK
        invariant Message() + rest == whole
        decreases |rest|
      {
        ghost var before := done;
        Block(rest[..BLOCK]);
        assert tail[..0] == [];
        assert before + [] + rest == before + rest[..BLOCK] + [] + rest[BLOCK..];
        rest := rest[BLOCK..];
      }
    }

    /** Add to the message. */
    method Update(in_: seq<byte>)
      requires Valid()
      modifies this`state, this`done, this`blocks, this`tailLen, this`totalN, tail
      ensures Valid() && Message() == old(Message()) + in_
    {
      hide Chew;
      ghost var whole := Message() + in_;
      CountAdds(|Message()|, |in_|);
      totalN := (totalN + |in_|) % WORD64;
      var rest := FillTail(in_);
      rest := Blocks(rest);
      ghost var t := tail[..tailLen];
      if |rest| > 0 {
        PutOnTail(rest);
      }
      assert done + (t + rest) == done + t + rest;
      assert t + [] == t;
    }

    /** Add the padding and the length. */
    method Tail()
      requires Valid()
      modifies this`state, this`done, this`blocks, this`tailLen, this`totalN, tail
      ensures Valid() && Message() == Padded(old(Message())) && tailLen == 0
    {
      hide Chew, LittleEndian;
      ghost var msg := Message();
      PaddedLength(msg, blocks, tailLen);
      BitCount(|msg|);
      var buf := LittleEndian(totalN * 8 % WORD64, 8);
      var padLen := if tailLen < 56 then 56 - tailLen else 120 - tailLen;
      Update(Padding(padLen));
      Update(buf);
      NoTail(|Message()|, blocks, tailLen);
    }

    /** The digest is that of the whole message, however it was fed in. */
    method Result() returns (out: seq<byte>)
      requires Valid()
      modifies this`state, this`done, this`blocks, this`tailLen, this`totalN, tail
      ensures out == Digest(compress, old(Message()))
    {
      Tail();
      assert tail[..0] == [] && done + [] == done;
      out := Words(state);
    }
  }

  /** A message fed in any pieces. */
  method Sum(compress: Compression, pieces: seq<seq<byte>>) returns (out: seq<byte>)
    ensures out == Digest(compress, Flatten(pieces))
  {
    var md := new Mdfour(compress);
    var i := 0;
    while i < |pieces|
      invariant i <= |pieces| && md.Valid() && fresh(md) && fresh(md.tail) && md.compress == compress
      invariant md.Message() == Flatten(pieces[..i])
    {
      md.Update(pieces[i]);
      assert pieces[..i + 1][..i] == pieces[..i];
      i := i + 1;
    }
    assert pieces[..i] == pieces;
    out := md.Result();
  }
}
