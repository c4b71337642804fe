/**
 The delta, characterised without a scanner: it is the one list of commands in which literals have
 no match anywhere and copies follow the matches, both as long as they can be.
 */
module Canonical {
  import opened Bytes
  import opened Command
  import opened Congruence
  import opened Greedy
  import opened Hashtable
  import opened Sumset

  /** What the signature finds at position q of the file. */
  function Found(sig: SigView, file: seq<byte>, q: nat): int
    requires q <= |file|
  {
    sig.Match(if q + sig.params.blockLen < |file| && sig.params.blockLen >= 0
              then file[q..q + sig.params.blockLen] else file[q..])
  }

  /** No window that starts from p on and before q is found. */
  ghost predicate Missed(sig: SigView, file: seq<byte>, p: nat, q: nat)
    requires q <= |file|
  {
    forall r: nat | p <= r < q :: Found(sig, file, r) < 0
  }

  /** Block by block, the n bytes from p on are found one after the other, from offset a on. */
  ghost predicate Followed(sig: SigView, file: seq<byte>, p: nat, a: int, n: nat)
    requires sig.params.blockLen > 0 && p + n <= |file|
  {
    forall q: nat | p <= q < p + n && (q - p) % sig.params.blockLen == 0 :: Found(sig, file, q) == a + (q - p)
  }

  /** A literal up to where something is found, the end or 65533 bytes; a copy up to where it does not go on. */
  ghost predicate Fitting(sig: SigView, file: seq<byte>, p: nat, c: Command)
    requires sig.params.blockLen > 0 && p <= |file|
  {
    var q := p + DataLen(c);
    && p < q <= |file|
    && match c
       case Literal(data) =>
         && data == file[p..q] && Missed(sig, file, p, q) && |data| <= 65533
         && (q == |file| || |data| == 65533 || Found(sig, file, q) >= 0)
       case Copy(a, n) =>
         && Followed(sig, file, p, a, n)
         && (q == |file| || (n % sig.params.blockLen == 0 && Found(sig, file, q) != a + n))
  }

  /** Fitting commands one after the other, from position p to the end. */
  ghost predicate Fitted(sig: SigView, file: seq<byte>, p: nat, cmds: seq<Command>)
    requires sig.params.blockLen > 0 && p <= |file|
    decreases |cmds|
  {
    if cmds == [] then p == |file|
    else Fitting(sig, file, p, cmds[0]) && Fitted(sig, file, p + DataLen(cmds[0]), cmds[1..])
  }

  // ---- There is no other such list ----

  /** What is found at its start decides what kind of command fits. */
  lemma Begins(sig: SigView, file: seq<byte>, p: nat, c: Command)
    requires sig.params.blockLen > 0 && p <= |file| && Fitting(sig, file, p, c)
    ensures c.Literal? ==> Found(sig, file, p) < 0
    ensures c.Copy? ==> Found(sig, file, p) == c.pos
  {
    hide Found;
    assert 0 % sig.params.blockLen == 0;
    if c.Copy? {
      assert (p - p) % sig.params.blockLen == 0;
    }
  }

  lemma NotShorter(sig: SigView, file: seq<byte>, p: nat, c: Command, d: Command)
    requires sig.params.blockLen > 0 && p <= |file| && Fitting(sig, file, p, c) && Fitting(sig, file, p, d)
    ensures DataLen(c) >= DataLen(d)
  {
    hide Found;
    Begins(sig, file, p, c);
    Begins(sig, file, p, d);
    var q := p + DataLen(c);
    if q < p + DataLen(d) {
      assert q - p == DataLen(c);
    }
  }

  lemma OneFits(sig: SigView, file: seq<byte>, p: nat, c: Command, d: Command)
    requires sig.params.blockLen > 0 && p <= |file| && Fitting(sig, file, p, c) && Fitting(sig, file, p, d)
    ensures c == d
  {
    hide Found;
    NotShorter(sig, file, p, c, d);
    NotShorter(sig, file, p, d, c);
    Begins(sig, file, p, c);
    Begins(sig, file, p, d);
  }

  lemma {:induction false} FittedOnce(sig: SigView, file: seq<byte>, p: nat, a: seq<Command>, b: seq<Command>)
    requires sig.params.blockLen > 0 && p <= |file| && Fitted(sig, file, p, a) && Fitted(sig, file, p, b)
    ensures a == b
    decreases |a|
  {
    hide Fitting;
    if a != [] && b != [] {
      OneFits(sig, file, p, a[0], b[0]);
      Bounds(sig, file, p, a[0]);
      FittedOnce(sig, file, p + DataLen(a[0]), a[1..], b[1..]);
    } else if a != [] {
      Bounds(sig, file, p, a[0]);
    } else if b != [] {
      Bounds(sig, file, p, b[0]);
    }
  }

  lemma Bounds(sig: SigView, file: seq<byte>, p: nat, c: Command)
    requires sig.params.blockLen > 0 && p <= |file| && Fitting(sig, file, p, c)
    ensures p < p + DataLen(c) <= |file|
  {
  }

  // ---- And the delta is one ----

  /** What is pending before p is fitting, but for how long it is. */
  ghost predicate Pending(sig: SigView, file: seq<byte>, p: nat, last: Last)
    requires sig.params.blockLen > 0
  {
    && last.Span() <= p <= |file|
    && match last
       case Miss(n) => n <= 65533 && Missed(sig, file, p - n, p)
       case Match(a, n) =>
         n > 0 && Followed(sig, file, p - n, a, n) && (p == |file| || n % sig.params.blockLen == 0)
  }

  lemma FoundIsMatch(sig: SigView, file: seq<byte>, p: nat)
    requires sig.params.blockLen > 0 && p <= |file|
    ensures Found(sig, file, p) == sig.Match(Window(file, p, sig.params.blockLen))
  {
    hide SigView.Match;
    if p + sig.params.blockLen == |file| {
      assert file[p..] == file[p..p + sig.params.blockLen];
    }
  }

  /** One more block found where the ones before it end, or where there is none before it. */
  lemma FollowedOn(sig: SigView, file: seq<byte>, start: nat, p: nat, a: int, len: nat)
    requires sig.params.blockLen > 0 && start <= p && 0 < len <= sig.params.blockLen && p + len <= |file|
    requires Followed(sig, file, start, a, p - start) && (p - start) % sig.params.blockLen == 0
    requires Found(sig, file, p) == a + (p - start)
    ensures Followed(sig, file, start, a, p + len - start)
  {
    hide Found;
    forall q: nat | start <= q < p + len && (q - start) % sig.params.blockLen == 0
      ensures Found(sig, file, q) == a + (q - start)
    {
      if q >= p {
        Multiples(p - start, q - p, sig.params.blockLen);
      }
    }
  }

  lemma AdvancePending(sig: SigView, file: seq<byte>, p: nat, last: Last)
    requires sig.params.blockLen > 0 && Pending(sig, file, p, last) && p < |file|
    ensures var s := Advance(sig, file, p, last); Pending(sig, file, s.p, s.last)
  {
    hide Found, SigView.Match, Followed;
    var b := sig.params.blockLen;
    FoundIsMatch(sig, file, p);
    var m, s := Found(sig, file, p), Advance(sig, file, p, last);
    if m >= 0 {
      var start := s.p - s.last.len;
      assert 0 % b == 0;
      if start == p {
        NoneFollowed(sig, file, p, m);
      }
      FollowedOn(sig, file, start, p, s.last.pos, s.p - p);
      if s.p < |file| {
        Multiples(p - start, b, b);
        Multiples(0, b, b);
      }
    }
  }

  lemma NoneFollowed(sig: SigView, file: seq<byte>, p: nat, a: int)
    requires sig.params.blockLen > 0 && p <= |file|
    ensures Followed(sig, file, p, a, 0)
  {
  }

  /** Past a multiple of b, the next multiple is b further on. */
  lemma Multiples(x: nat, y: nat, b: nat)
    requires b > 0 && x % b == 0
    ensures (x + y) % b == y % b
  {
    Unique(x + y, x / b + y / b, y % b, b);
    assert (x / b + y / b) * b == x / b * b + y / b * b;
    assert b * 1 == b;
  }

  lemma FlushFits(sig: SigView, file: seq<byte>, p: nat, last: Last)
    requires sig.params.blockLen > 0 && Pending(sig, file, p, last) && last.Span() > 0
    requires p == |file| || Advance(sig, file, p, last).flushed
    ensures |Flush(file, p, last)| == 1 && DataLen(Flush(file, p, last)[0]) == last.Span()
    ensures Fitting(sig, file, p - last.Span(), Flush(file, p, last)[0])
  {
    hide Found, SigView.Match;
    FoundIsMatch(sig, file, p);
  }

  /** What is flushed, and then what fits from p on. */
  lemma FlushAndGo(sig: SigView, file: seq<byte>, p: nat, last: Last, rest: seq<Command>)
    requires sig.params.blockLen > 0 && Pending(sig, file, p, last) && last.Span() <= p <= |file|
    requires p == |file| || Advance(sig, file, p, last).flushed
    requires Fitted(sig, file, p, rest)
    ensures Fitted(sig, file, p - last.Span(), Flush(file, p, last) + rest)
  {
    hide Pending, Fitting, Advance, Flush;
    if last.Span() == 0 {
      NothingToFlush(sig, file, p, last);
      assert Flush(file, p, last) + rest == rest;
    } else {
      FlushFits(sig, file, p, last);
      assert (Flush(file, p, last) + rest)[1..] == rest;
    }
  }

  lemma {:induction false} ScanIsFitted(sig: SigView, file: seq<byte>, p: nat, last: Last)
    requires sig.params.blockLen > 0 && Pending(sig, file, p, last) && last.Span() <= p <= |file|
    ensures Fitted(sig, file, p - last.Span(), Scan(sig, file, p, last))
    decreases |file| - p
  {
    hide Pending, Fitting, Advance, Flush;
    if p == |file| {
      FlushAndGo(sig, file, p, last, []);
      assert Flush(file, p, last) + [] == Flush(file, p, last);
    } else {
      var s := Advance(sig, file, p, last);
      AdvancePending(sig, file, p, last);
      PendingBounds(sig, file, s.p, s.last);
      ScanIsFitted(sig, file, s.p, s.last);
      if s.flushed {
        FlushAndGo(sig, file, p, last, Scan(sig, file, s.p, s.last));
      }
    }
  }

  lemma PendingBounds(sig: SigView, file: seq<byte>, p: nat, last: Last)
    requires sig.params.blockLen > 0 && Pending(sig, file, p, last)
    ensures last.Span() <= p <= |file|
  {
  }

  lemma NothingToFlush(sig: SigView, file: seq<byte>, p: nat, last: Last)
    requires sig.params.blockLen > 0 && Pending(sig, file, p, last) && last.Span() == 0
    ensures Flush(file, p, last) == []
  {
  }

  /** The delta of a file against a signature is the one list of fitting commands for it. */
  lemma DeltaIs(sig: SigView, file: seq<byte>, cmds: seq<Command>)
    requires sig.params.blockLen > 0
    ensures cmds == Delta(sig, file) <==> Fitted(sig, file, 0, cmds)
  {
    hide Fitted, Scan;
    ScanIsFitted(sig, file, 0, Miss(0));
    if Fitted(sig, file, 0, cmds) {
      FittedOnce(sig, file, 0, cmds, Delta(sig, file));
    }
  }

  // ---- What this means for neighbours ----

  lemma {:induction false} FittedAt(sig: SigView, file: seq<byte>, p: nat, cmds: seq<Command>, i: nat)
    returns (q: nat)
    requires sig.params.blockLen > 0 && p <= |file| && Fitted(sig, file, p, cmds) && i < |cmds|
    ensures q <= |file| && Fitting(sig, file, q, cmds[i])
    ensures i + 1 < |cmds| ==> q + DataLen(cmds[i]) < |file| && Fitting(sig, file, q + DataLen(cmds[i]), cmds[i + 1])
    decreases i
  {
    hide Fitting;
    Bounds(sig, file, p, cmds[0]);
    if i == 0 {
      q := p;
      if 1 < |cmds| {
        Bounds(sig, file, p + DataLen(cmds[0]), cmds[1..][0]);
      }
    } else {
      q := FittedAt(sig, file, p + DataLen(cmds[0]), cmds[1..], i - 1);
    }
  }

  /**
   Copies that adjoin in the basis are one copy, whole blocks of it but at the end of the file;
   and only a literal of full length is followed by another literal.
   */
  lemma NeighboursAreApart(sig: SigView, file: seq<byte>, i: nat)
    requires sig.params.blockLen > 0 && i + 1 < |Delta(sig, file)|
    ensures var c, d := Delta(sig, file)[i], Delta(sig, file)[i + 1];
            && (c.Copy? && d.Copy? ==> c.pos + c.len != d.pos)
            && (c.Copy? ==> c.len % sig.params.blockLen == 0)
            && (c.Literal? && d.Literal? ==> |c.data| == 65533)
  {
    hide Fitted, Scan, Found;
    var cmds := Delta(sig, file);
    DeltaIs(sig, file, cmds);
    var q := FittedAt(sig, file, 0, cmds, i);
    Begins(sig, file, q + DataLen(cmds[i]), cmds[i + 1]);
  }

  // ---- What is found ----

  /** The sums of a block and given sums agree: but for zero, which stands for the largest word, weak sums are equal. */
  ghost predicate Agree(b: BlockSig, weakSum: u32, strongSum: seq<byte>) {
    && b.strongSum == strongSum
    && (b.weakSum == weakSum || (b.weakSum in {0, 0xffff_ffff} && weakSum in {0, 0xffff_ffff}))
  }

  lemma SameSumsAgree(b: BlockSig, weakSum: u32, strongSum: seq<byte>)
    ensures SameSums(b, weakSum, strongSum) <==> Agree(b, weakSum, strongSum)
  {
  }

  /** A lookup gives the offset of the first block that agrees, and -1 if none does. */
  lemma LookupIs(sig: SigView, weakSum: u32, strongSum: seq<byte>, pos: int)
    requires sig.params.blockLen > 0
    ensures pos == sig.Lookup(weakSum, strongSum)
            <==> if pos == -1 then forall i :: 0 <= i < |sig.blocks| ==> !Agree(sig.blocks[i], weakSum, strongSum)
                 else exists i :: 0 <= i < |sig.blocks| && Agree(sig.blocks[i], weakSum, strongSum)
                                  && (forall j :: 0 <= j < i ==> !Agree(sig.blocks[j], weakSum, strongSum))
                                  && pos == i * sig.params.blockLen
  {
    hide SameSums, Agree;
    FirstFromIsLeast(sig.blocks, weakSum, strongSum, 0);
    forall i | 0 <= i < |sig.blocks|
      ensures SameSums(sig.blocks[i], weakSum, strongSum) <==> Agree(sig.blocks[i], weakSum, strongSum)
    {
      SameSumsAgree(sig.blocks[i], weakSum, strongSum);
    }
  }
}
