/**
 The BLAKE2b streaming interface, without a key. The compression function is a parameter: what is
 shown here is that any way of feeding a message in gives the hash of section 3.3 of RFC 7693.
 */
module Blake2b {
  import opened Bytes
  import opened Congruence
  import opened Digests
  import opened Memory

  const BLOCKBYTES := 128
  const OUTBYTES := 64

  type u64 = x: int | 0 <= x < WORD64

  /** The eight chaining words. */
  type Words8 = s: seq<u64> | |s| == 8 witness [0, 0, 0, 0, 0, 0, 0, 0]

  /** The words, a block, the two words of the byte counter, and whether the block is the last. */
  type Compression = (Words8, seq<byte>, u64, u64, bool) -> Words8

  // ---- The hash, as RFC 7693 has it ----

  /** The low word of the counter of bytes fed in, and the high one. */
  function Low(t: nat): u64 {
    t % WORD64
  }

  function High(t: nat): u64 {
    t / WORD64 % WORD64
  }

  /** Block after block, as long as there is more to come. */
  function Absorb(f: Compression, h: Words8, t: nat, data: seq<byte>): Words8
    decreases |data|
  {
    if |data| < BLOCKBYTES then h
    else
      var u := t + BLOCKBYTES;
      Absorb(f, f(h, data[..BLOCKBYTES], Low(u), High(u), false), u, data[BLOCKBYTES..])
  }

  /** How many bytes come before the last block, which is never empty unless the message is. */
  function Before(len: nat): (n: nat)
    ensures n <= len && len - n <= BLOCKBYTES && (n < len || len == 0)
  {
    if len == 0 then 0 else (len - 1) / BLOCKBYTES * BLOCKBYTES
  }

  function Hash(f: Compression, h: Words8, msg: seq<byte>): Words8 {
    var n := Before(|msg|);
    f(Absorb(f, h, 0, msg[..n]), msg[n..] + Zeros(BLOCKBYTES - (|msg| - n)), Low(|msg|), High(|msg|), true)
  }

  function Serial(h: seq<u64>): (s: seq<byte>)
    ensures |s| == 8 * |h|
  {
    if h == [] then [] else LittleEndian(h[0], 8) + Serial(h[1..])
  }

  /** Whole blocks are absorbed one after the other. */
  lemma {:induction false} AbsorbBlock(f: Compression, h: Words8, t: nat, a: seq<byte>, n: nat, block: seq<byte>)
    requires |a| == BLOCKBYTES * n && |block| == BLOCKBYTES
    ensures var u := t + |a| + BLOCKBYTES;
            Absorb(f, h, t, a + block) == f(Absorb(f, h, t, a), block, Low(u), High(u), false)
    decreases n
  {
    hide Low, High;
    if n == 0 {
      assert a + block == block && block[..BLOCKBYTES] == block && block[BLOCKBYTES..] == [];
    } else {
      var u := t + BLOCKBYTES;
      assert (a + block)[..BLOCKBYTES] == a[..BLOCKBYTES] && (a + block)[BLOCKBYTES..] == a[BLOCKBYTES..] + block;
      AbsorbBlock(f, f(h, a[..BLOCKBYTES], Low(u), High(u), false), u, a[BLOCKBYTES..], n - 1, block);
    }
  }

  /** The one split of a length into whole blocks and a last block. */
  lemma BeforeIs(len: nat, n: nat, last: nat)
    requires len == BLOCKBYTES * n + last && last <= BLOCKBYTES && (last > 0 || len == 0)
    ensures Before(len) == BLOCKBYTES * n
  {
    if len > 0 {
      Unique(len - 1, n, last - 1, BLOCKBYTES);
    }
  }

  /** A carry from the low word to the high word counts in 128 bits. */
  lemma CounterAdds(t: nat, inc: nat)
    requires inc <= BLOCKBYTES
    ensures Low(t + inc) == (Low(t) + inc) % WORD64
    ensures High(t + inc) == (High(t) + if Low(t + inc) < inc then 1 else 0) % WORD64
  {
    var q, r := t / WORD64, t % WORD64;
    if r + inc < WORD64 {
      Unique(t + inc, q, r + inc, WORD64);
    } else {
      Unique(t + inc, q + 1, r + inc - WORD64, WORD64);
      CountAdds(q, 1);
    }
  }

  // ---- The streaming interface ----

  class Blake2bState {
    const compress: Compression
    /** The initial words, which are the IV and the parameter block. */
    const init: Words8
    const outlen: nat
    var h: Words8
    var t0: u64
    var t1: u64
    var last: bool
    const buf: array<byte>
    var buflen: nat

    ghost var done: seq<byte>
    ghost var blocks: nat

    ghost function Message(): seq<byte>
      requires buflen <= buf.Length
      reads this, buf
    {
      done + buf[..buflen]
    }

    /** Whole blocks have been absorbed, and counted. */
    ghost predicate Absorbed()
      reads this
    {
      && |done| == BLOCKBYTES * blocks && h == Absorb(compress, init, 0, done)
      && t0 == Low(|done|) && t1 == High(|done|)
    }

    /** The last block is held back: the buffer is empty for the empty message only. */
    ghost predicate Valid()
      reads this, buf
    {
      && buf.Length == BLOCKBYTES && buflen <= BLOCKBYTES && (buflen > 0 || done == [])
      && Absorbed() && outlen <= OUTBYTES && !last
    }

    constructor (compress: Compression, init: Words8, outlen: nat)
      requires 0 < outlen <= OUTBYTES
      ensures Valid() && fresh(buf) && Message() == []
      ensures this.compress == compress && this.init == init && this.outlen == outlen
    {
      this.compress, this.init, this.outlen := compress, init, outlen;
      h, t0, t1, last, buflen := init, 0, 0, false, 0;
      buf := new byte[BLOCKBYTES](_ => 0);
      done, blocks := [], 0;
    }

    method IncrementCounter(inc: nat)
      requires inc < WORD64
      modifies this`t0, this`t1
      ensures t0 == (old(t0) + inc) % WORD64
      ensures t1 == (old(t1) + if t0 < inc then 1 else 0) % WORD64
    {
      t0 := (t0 + inc) % WORD64;
      t1 := (t1 + if t0 < inc then 1 else 0) % WORD64;
    }

    /** Absorb one block, which is not the last. */
    method Block(block: seq<byte>)
      requires Absorbed() && |block| == BLOCKBYTES
      modifies this`h, this`t0, this`t1, this`done, this`blocks
      ensures Absorbed() && done == old(done) + block
    {
      hide Absorb, Low, High;
      CounterAdds(|done|, BLOCKBYTES);
      AbsorbBlock(compress, init, 0, done, blocks, block);
      IncrementCounter(BLOCKBYTES);
      h := compress(h, block, t0, t1, false);
      done := done + block;
      blocks := blocks + 1;
    }

    method PutInBuf(data: seq<byte>)
      requires buflen + |data| <= buf.Length
      modifies this`buflen, buf
      ensures buflen == old(buflen) + |data| && buf[..buflen] == old(buf[..buflen]) + data
    {
      PutBytes(buf, buflen, data);
      buflen := buflen + |data|;
    }

    /** Empty the buffer, and absorb blocks as long as more is to come. */
    method Blocks(in_: seq<byte>) returns (rest: seq<byte>)
      requires Absorbed() && buf.Length == BLOCKBYTES && buflen <= BLOCKBYTES && buflen + |in_| > BLOCKBYTES
      modifies this`h, this`t0, this`t1, this`done, this`blocks, this`buflen, buf
      ensures Absorbed() && buflen == 0 && 0 < |rest| <= BLOCKBYTES
      ensures done + rest == old(Message()) + in_
    {
      hide Absorb, Low, High;
      ghost var whole, before := Message() + in_, buf[..buflen];
      var fill := BLOCKBYTES - buflen;
      PutInBuf(in_[..fill]);
      buflen := 0;
      assert buf[..] == buf[..BLOCKBYTES] == before + in_[..fill];
      Block(buf[..]);
      rest := in_[fill..];
      assert old(done) + (before + in_[..fill]) + rest == old(done) + before + (in_[..fill] + rest);
      assert in_[..fill] + in_[fill..] == in_;
      while |rest| > BLOCKBYTES
        invariant Absorbed() && |rest| > 0 && done + rest == whole && buflen == 0
        decreases |rest|
      {
        ghost var prev := done;
        Block(rest[..BLOCKBYTES]);
        assert prev + rest == prev + rest[..BLOCKBYTES] + rest[BLOCKBYTES..];
        rest := rest[BLOCKBYTES..];
      }
    }

    /** Add to the message. */
    method Update(in_: seq<byte>)
      requires Valid()
      modifies this`h, this`t0, this`t1, this`done, this`blocks, this`buflen, buf
      ensures Valid() && Message() == old(Message()) + in_
    {
      hide Absorb, Low, High;
      if |in_| > 0 {
        var rest := in_;
        var fill := BLOCKBYTES - buflen;
        if |in_| > fill {
          rest := Blocks(in_);
        }
        ghost var held := buf[..buflen];
        assert buflen == 0 ==> held == [];
        PutInBuf(rest);
        assert done + (held + rest) == done + held + rest;
        assert done + [] == done;
      }
    }

    /** The hash of the whole message, however it was fed in. A second call is refused. */
    method Final(outlen: nat) returns (out: Option<seq<byte>>)
      requires Valid() || last
      modifies this`h, this`t0, this`t1, this`last, buf
      ensures out.None? <==> outlen < this.outlen || old(last)
      ensures out.Some? ==> out.value == Serial(Hash(compress, init, old(Message())))[..this.outlen] && last
    {
      if outlen < this.outlen {
        return None;
      }
      if last {
        return None;
      }
      hide Absorb, Low, High, Serial;
      ghost var msg := Message();
      BeforeIs(|msg|, blocks, buflen);
      CounterAdds(|done|, buflen);
      assert msg[..|done|] == done && msg[|done|..] == buf[..buflen];
      IncrementCounter(buflen);
      last := true;
      PutBytes(buf, buflen, Zeros(BLOCKBYTES - buflen));
      assert buf[..] == msg[|done|..] + Zeros(BLOCKBYTES - buflen);
      h := compress(h, buf[..], t0, t1, true);
      return Some(Serial(h)[..this.outlen]);
    }
  }

  /** A message hashed in any pieces. */
  method HashOf(compress: Compression, init: Words8, outlen: nat, pieces: seq<seq<byte>>) returns (out: seq<byte>)
    requires 0 < outlen <= OUTBYTES
    ensures out == Serial(Hash(compress, init, Flatten(pieces)))[..outlen]
  {
    var s := new Blake2bState(compress, init, outlen);
    var i := 0;
    while i < |pieces|
      invariant i <= |pieces| && s.Valid() && fresh(s) && fresh(s.buf)
      invariant s.compress == compress && s.init == init && s.outlen == outlen
      invariant s.Message() == Flatten(pieces[..i])
    {
      s.Update(pieces[i]);
      assert pieces[..i + 1][..i] == pieces[..i];
      i := i + 1;
    }
    assert pieces[..i] == pieces;
    var r := s.Final(outlen);
    out := r.value;
  }
}
