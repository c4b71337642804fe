/**
 The scanner that defines a delta: at each position look up the next block of data (or all the
 data that is left, once that is no longer than a block), extend or flush what came before, and
 go on. It knows nothing of buffers.
 */
module Greedy {
  import opened Blocks
  import opened Bytes
  import opened Checksum
  import opened Command
  import opened Congruence
  import opened Hashtable
  import opened Protocol
  import opened Sumset
  import Util

  const MAX_MISS_LEN := MAX_DELTA_CMD - 3

  /** What has been scanned and not yet emitted: a match in the basis, or a run of missed bytes. */
  datatype Last =
    | Match(pos: nat, len: nat)
    | Miss(count: nat)
  {
    function Span(): nat {
      match this
      case Match(_, len) => len
      case Miss(count) => count
    }

    predicate ExtendedBy(matchPos: int) {
      Match? && pos + len == matchPos
    }
  }

  /** The data looked up at position p. */
  function Window(file: seq<byte>, p: nat, b: nat): (w: seq<byte>)
    requires p <= |file|
    ensures |w| == Min(b, |file| - p)
  {
    if |file| - p > b then file[p..p + b] else file[p..]
  }

  /** The command for what is pending up to position p, if anything is. */
  function Flush(file: seq<byte>, p: nat, last: Last): seq<Command>
    requires last.Span() <= p <= |file|
  {
    match last
    case Match(pos, len) => [Copy(pos, len)]
    case Miss(count) => if count > 0 then [Literal(file[p - count..p])] else []
  }

  /** One step of the scan: whether what was pending is emitted, and where the scan stands then. */
  datatype Step = Step(flushed: bool, p: nat, last: Last)

  function Advance(sig: SigView, file: seq<byte>, p: nat, last: Last): (s: Step)
    requires sig.params.blockLen > 0 && last.Span() <= p < |file|
    ensures p < s.p <= |file|
    ensures s.p - s.last.Span() == if s.flushed then p else p - last.Span()
  {
    var w := Window(file, p, sig.params.blockLen);
    var m := sig.Match(w);
    if m >= 0 then
      if last.ExtendedBy(m) then Step(false, p + |w|, Match(last.pos, last.len + |w|))
      else Step(true, p + |w|, Match(m, |w|))
    else if last.Match? || last.count >= MAX_MISS_LEN then Step(true, p + 1, Miss(1))
    else Step(false, p + 1, Miss(last.count + 1))
  }

  /** The commands still to come from position p on. */
  function Scan(sig: SigView, file: seq<byte>, p: nat, last: Last): seq<Command>
    requires sig.params.blockLen > 0 && last.Span() <= p <= |file|
    decreases |file| - p
  {
    if p == |file| then Flush(file, p, last)
    else
      var s := Advance(sig, file, p, last);
      var rest := Scan(sig, file, s.p, s.last);
      if s.flushed then Flush(file, p, last) + rest else rest
  }

  /** The delta of a file against a signature. */
  function Delta(sig: SigView, file: seq<byte>): seq<Command>
    requires sig.params.blockLen > 0
  {
    Scan(sig, file, 0, Miss(0))
  }

  // ---- The scan step by step ----

  /** A stage of the scan: position, pending data, and the commands so far. */
  datatype Front = Front(p: nat, last: Last, cmds: seq<Command>) {
    function Next(sig: SigView, file: seq<byte>): (f: Front)
      requires sig.params.blockLen > 0 && last.Span() <= p < |file|
      ensures f.last.Span() <= f.p <= |file|
    {
      var s := Advance(sig, file, p, last);
      Front(s.p, s.last, if s.flushed then cmds + Flush(file, p, last) else cmds)
    }
  }

  /** The stage after n steps; the scan stands still at the end. */
  function After(sig: SigView, file: seq<byte>, n: nat): (f: Front)
    requires sig.params.blockLen > 0
    ensures f.last.Span() <= f.p <= |file|
  {
    if n == 0 then Front(0, Miss(0), [])
    else
      var f := After(sig, file, n - 1);
      if f.p < |file| then f.Next(sig, file) else f
  }

  lemma NextFollows(sig: SigView, file: seq<byte>, f: Front)
    requires sig.params.blockLen > 0 && f.last.Span() <= f.p < |file|
    ensures var g := f.Next(sig, file);
            g.cmds + Scan(sig, file, g.p, g.last) == f.cmds + Scan(sig, file, f.p, f.last)
  {
    hide Advance, Flush;
    var s := Advance(sig, file, f.p, f.last);
    var rest := Scan(sig, file, s.p, s.last);
    assert f.cmds + Flush(file, f.p, f.last) + rest == f.cmds + (Flush(file, f.p, f.last) + rest);
  }

  /** At every stage, the commands so far and those to come make the delta. */
  lemma {:induction false} AfterFollows(sig: SigView, file: seq<byte>, n: nat)
    requires sig.params.blockLen > 0
    ensures var f := After(sig, file, n); f.cmds + Scan(sig, file, f.p, f.last) == Delta(sig, file)
  {
    hide Front.Next, Scan;
    if n > 0 {
      AfterFollows(sig, file, n - 1);
      var f := After(sig, file, n - 1);
      if f.p < |file| {
        NextFollows(sig, file, f);
      }
    }
  }

  // ---- Every command can be encoded, and literals are never empty or over-long ----

  /** The offsets and lengths of a job fit `rs_long_t`. */
  ghost predicate Sized(sig: SigView, file: seq<byte>) {
    && 0 < sig.params.blockLen < INT_LIMIT && |sig.blocks| < INT_LIMIT && |file| < Util.LONG_LIMIT
  }

  lemma MatchOffset(sig: SigView, w: seq<byte>)
    requires 0 < sig.params.blockLen < INT_LIMIT && |sig.blocks| < INT_LIMIT && sig.Match(w) >= 0
    ensures sig.Match(w) < Util.LONG_LIMIT
  {
    FirstFromIsLeast(sig.blocks, sig.params.Weak(w), sig.params.Strong(sig.strong, w), 0);
    var i := First(sig.blocks, sig.params.Weak(w), sig.params.Strong(sig.strong, w)).value;
    OffsetBound(i, sig.params.blockLen);
  }

  lemma OffsetBound(i: nat, b: nat)
    requires i < INT_LIMIT && b < INT_LIMIT
    ensures i * b < Util.LONG_LIMIT
  {
    MulMono(b, INT_LIMIT, i);
    MulMono(i, INT_LIMIT, INT_LIMIT);
  }

  ghost predicate Emittable(last: Last) {
    match last
    case Match(pos, len) => pos < Util.LONG_LIMIT && len > 0
    case Miss(count) => count <= MAX_MISS_LEN
  }

  ghost predicate Proper(c: Command) {
    match c
    case Literal(data) => 0 < |data| <= MAX_MISS_LEN
    case Copy(pos, len) => pos < Util.LONG_LIMIT && 0 < len < Util.LONG_LIMIT
  }

  lemma AdvanceIsEmittable(sig: SigView, file: seq<byte>, p: nat, last: Last)
    requires Sized(sig, file) && last.Span() <= p < |file| && Emittable(last)
    ensures Emittable(Advance(sig, file, p, last).last)
  {
    hide SigView.Match;
    var w := Window(file, p, sig.params.blockLen);
    if sig.Match(w) >= 0 {
      MatchOffset(sig, w);
    }
  }

  lemma FlushIsProper(file: seq<byte>, p: nat, last: Last)
    requires |file| < Util.LONG_LIMIT && last.Span() <= p <= |file| && Emittable(last)
    ensures AllProper(Flush(file, p, last))
  {
  }

  ghost predicate AllProper(cmds: seq<Command>) {
    forall i :: 0 <= i < |cmds| ==> Proper(cmds[i])
  }

  lemma {:induction false} ScanIsProper(sig: SigView, file: seq<byte>, p: nat, last: Last)
    requires Sized(sig, file) && last.Span() <= p <= |file| && Emittable(last)
    ensures AllProper(Scan(sig, file, p, last))
    decreases |file| - p
  {
    hide Advance, Emittable, Proper, Flush;
    FlushIsProper(file, p, last);
    if p < |file| {
      AdvanceIsEmittable(sig, file, p, last);
      var s := Advance(sig, file, p, last);
      ScanIsProper(sig, file, s.p, s.last);
    }
  }

  lemma DeltaIsProper(sig: SigView, file: seq<byte>)
    requires Sized(sig, file)
    ensures AllProper(Delta(sig, file)) && AllEncodable(Delta(sig, file))
  {
    ScanIsProper(sig, file, 0, Miss(0));
  }

  // ---- The commands stand for every byte of the file, matches or not ----

  lemma {:induction false} ScanExtent(sig: SigView, file: seq<byte>, p: nat, last: Last)
    requires sig.params.blockLen > 0 && last.Span() <= p <= |file|
    ensures Extent(Scan(sig, file, p, last)) == |file| - p + last.Span()
    decreases |file| - p
  {
    hide Advance, Extent;
    FlushExtent(file, p, last);
    if p < |file| {
      var s := Advance(sig, file, p, last);
      ScanExtent(sig, file, s.p, s.last);
      if s.flushed {
        ExtentAppend(Flush(file, p, last), Scan(sig, file, s.p, s.last));
      }
    }
  }

  lemma FlushExtent(file: seq<byte>, p: nat, last: Last)
    requires last.Span() <= p <= |file|
    ensures Extent(Flush(file, p, last)) == last.Span()
  {
    var cmds := Flush(file, p, last);
    if |cmds| == 1 {
      assert cmds[..0] == [];
    }
  }

  // ---- The delta describes the file ----

  /** Equal sums mean equal bytes, for every block of the basis and every window the scan looks up. */
  ghost predicate NoCollision(p: Params, strong: StrongSum, basis: seq<byte>, file: seq<byte>)
    requires p.blockLen > 0
  {
    forall block, q: nat | block in Cut(basis, p.blockLen) && q < |file| ::
      var w := Window(file, q, p.blockLen);
      SameSums(SumsOf(p, strong, block), p.Weak(w), p.Strong(strong, w)) ==> w == block
  }

  /** Every match found is a true one. */
  ghost predicate Genuine(sig: SigView, basis: seq<byte>, file: seq<byte>)
    requires sig.params.blockLen > 0
  {
    forall q: nat | q < |file| :: GenuineAt(sig, basis, Window(file, q, sig.params.blockLen))
  }

  ghost predicate GenuineAt(sig: SigView, basis: seq<byte>, w: seq<byte>) {
    var m := sig.Match(w);
    m >= 0 ==> m + |w| <= |basis| && basis[m..m + |w|] == w
  }

  lemma NoCollisionMeansGenuine(p: Params, strong: StrongSum, basis: seq<byte>, file: seq<byte>)
    requires p.blockLen > 0 && NoCollision(p, strong, basis, file)
    ensures Genuine(SigOf(p, strong, basis), basis, file)
  {
    var sig, blocks := SigOf(p, strong, basis), Cut(basis, p.blockLen);
    forall q: nat | q < |file|
      ensures GenuineAt(sig, basis, Window(file, q, p.blockLen))
    {
      var w := Window(file, q, p.blockLen);
      if sig.Match(w) >= 0 {
        FirstFromIsLeast(sig.blocks, p.Weak(w), p.Strong(strong, w), 0);
        var i := First(sig.blocks, p.Weak(w), p.Strong(strong, w)).value;
        assert sig.blocks[i] == SumsOf(p, strong, blocks[i]);
        assert blocks[i] in blocks;
        CutAt(basis, p.blockLen, i);
      }
    }
  }

  /** What is pending up to p stands for the bytes just before p. */
  ghost predicate Stands(basis: seq<byte>, file: seq<byte>, p: nat, last: Last) {
    && last.Span() <= p <= |file|
    && (last.Match? ==> last.pos + last.len <= |basis|
                        && basis[last.pos..last.pos + last.len] == file[p - last.len..p])
  }

  lemma FlushMeans(basis: seq<byte>, file: seq<byte>, p: nat, last: Last)
    requires Stands(basis, file, p, last)
    ensures InBasis(basis, Flush(file, p, last))
    ensures Apply(basis, Flush(file, p, last)) == file[p - last.Span()..p]
  {
    var cmds := Flush(file, p, last);
    if |cmds| == 1 {
      assert cmds[..0] == [];
      assert Apply(basis, cmds) == Apply(basis, []) + Meaning(basis, cmds[0]);
    }
  }

  lemma AdvanceStands(sig: SigView, basis: seq<byte>, file: seq<byte>, p: nat, last: Last)
    requires sig.params.blockLen > 0 && Genuine(sig, basis, file) && Stands(basis, file, p, last) && p < |file|
    ensures var s := Advance(sig, file, p, last); Stands(basis, file, s.p, s.last)
  {
    hide SigView.Match;
    var w := Window(file, p, sig.params.blockLen);
    var m := sig.Match(w);
    assert GenuineAt(sig, basis, w);
    assert w == file[p..p + |w|];
    if m >= 0 && last.ExtendedBy(m) {
      Glue(basis, last.pos, m, m + |w|);
      Glue(file, p - last.len, p, p + |w|);
    }
  }

  /** The commands to come rebuild the file from where the pending data starts. */
  lemma {:induction false} ScanMeans(sig: SigView, basis: seq<byte>, file: seq<byte>, p: nat, last: Last)
    requires sig.params.blockLen > 0 && Genuine(sig, basis, file) && Stands(basis, file, p, last)
    ensures InBasis(basis, Scan(sig, file, p, last))
    ensures Apply(basis, Scan(sig, file, p, last)) == file[p - last.Span()..]
    decreases |file| - p
  {
    hide Advance, Stands, Genuine, Apply, InBasis, Flush;
    FlushMeans(basis, file, p, last);
    StandsSpan(basis, file, p, last);
    if p < |file| {
      var s := Advance(sig, file, p, last);
      AdvanceStands(sig, basis, file, p, last);
      StandsSpan(basis, file, s.p, s.last);
      ScanMeans(sig, basis, file, s.p, s.last);
      if s.flushed {
        ApplyAppend(basis, Flush(file, p, last), Scan(sig, file, s.p, s.last));
        Glue(file, p - last.Span(), p, |file|);
      }
    }
  }

  lemma StandsSpan(basis: seq<byte>, file: seq<byte>, p: nat, last: Last)
    requires Stands(basis, file, p, last)
    ensures last.Span() <= p <= |file|
  {
  }

  /** Applied to the basis, the delta against its signature gives the file back. */
  lemma DeltaMeans(p: Params, strong: StrongSum, basis: seq<byte>, file: seq<byte>)
    requires p.blockLen > 0 && NoCollision(p, strong, basis, file)
    ensures InBasis(basis, Delta(SigOf(p, strong, basis), file))
    ensures Apply(basis, Delta(SigOf(p, strong, basis), file)) == file
  {
    NoCollisionMeansGenuine(p, strong, basis, file);
    ScanMeans(SigOf(p, strong, basis), basis, file, 0, Miss(0));
    assert file[0..] == file;
  }
}
