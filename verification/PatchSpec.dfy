/** A one-pass interpreter of delta streams: what a patch job writes, and how it ends. */
module PatchSpec {
  import opened Bytes
  import opened Command
  import opened NetInt
  import opened Protocol
  import Util

  /** How a patch ends: with a result of its own, or because the basis has no such data. */
  datatype Ending = Ends(result: Result) | BasisEnds

  /** What has been written when it ends. */
  datatype Verdict = Verdict(out: seq<byte>, ending: Ending) {
    function After(before: seq<byte>): Verdict {
      Verdict(before + out, ending)
    }
  }

  /** From a command byte at position i on. */
  function Run(d: seq<byte>, basis: seq<byte>, i: nat): Verdict
    requires i <= |d|
    decreases |d| - i, 0
  {
    if i == |d| then Verdict([], Ends(InputEnded))
    else
      var ent := Prototab(d[i]);
      if ent.len1 == 0 then Exec(d, basis, ent.kind, ent.immediate, 0, i + 1)
      else Parameters(d, basis, ent, i + 1)
  }

  /** From the parameters of a command at position i on. */
  function Parameters(d: seq<byte>, basis: seq<byte>, ent: Prototype, i: nat): Verdict
    requires i <= |d|
    decreases |d| - i, 3
  {
    var j := i + ent.len1;
    var k := j + ent.len2;
    if |d| < k then Verdict([], Ends(InputEnded))
    else Exec(d, basis, ent.kind, AsLong(Unsigned(d[i..j])), AsLong(Unsigned(d[j..k])), k)
  }

  /** A command whose parameters end at position i. */
  function Exec(d: seq<byte>, basis: seq<byte>, kind: Kind, param1: int, param2: int, i: nat): Verdict
    requires i <= |d|
    decreases |d| - i, 2
  {
    match kind
    case KindEnd => Verdict([], Ends(Done))
    case KindReserved => Verdict([], Ends(Corrupt))
    case KindLiteral =>
      if param1 <= 0 then Verdict([], Ends(Corrupt))
      else if |d| < i + param1 then Verdict(d[i..], Ends(InputEnded))
      else Run(d, basis, i + param1).After(d[i..i + param1])
    case KindCopy =>
      if param2 <= 0 || param1 < 0 then Verdict([], Ends(Corrupt))
      else CopyRest(d, basis, param1, param2, i)
  }

  /** A copy of len bytes of the basis, followed by the command at position i. */
  function CopyRest(d: seq<byte>, basis: seq<byte>, pos: nat, len: nat, i: nat): Verdict
    requires i <= |d|
    decreases |d| - i, 1
  {
    if pos + len <= |basis| then Run(d, basis, i).After(basis[pos..pos + len])
    else Verdict(basis[Min(pos, |basis|)..], BasisEnds)
  }

  /** A whole stream. */
  function Interpret(d: seq<byte>, basis: seq<byte>): Verdict {
    if |d| < 4 then Verdict([], Ends(InputEnded))
    else if Unsigned(d[..4]) != DELTA_MAGIC then Verdict([], Ends(BadMagic))
    else Run(d, basis, 4)
  }

  lemma AfterAfter(v: Verdict, a: seq<byte>, b: seq<byte>)
    ensures v.After(b).After(a) == v.After(a + b)
  {
    assert a + (b + v.out) == a + b + v.out;
  }

  /** Part of a copy, and then the rest of it. */
  lemma CopySplits(d: seq<byte>, basis: seq<byte>, pos: nat, len: nat, i: nat, n: nat)
    requires i <= |d| && 0 < n <= len && pos + n <= |basis|
    ensures CopyRest(d, basis, pos, len, i)
            == (if n < len then CopyRest(d, basis, pos + n, len - n, i) else Run(d, basis, i))
               .After(basis[pos..pos + n])
  {
    hide Run;
    if n < len {
      if pos + len <= |basis| {
        AfterAfter(Run(d, basis, i), basis[pos..pos + n], basis[pos + n..pos + len]);
        Glue(basis, pos, pos + n, pos + len);
      } else {
        Glue(basis, pos, pos + n, |basis|);
      }
    }
  }

  // ---- Reading back what a delta job wrote ----

  /** One encoded command, read at position i, has its meaning and leads to the next. */
  lemma RunCommand(d: seq<byte>, basis: seq<byte>, i: nat, c: Command)
    requires c.Encodable() && Fits(basis, c)
    requires i + |Encode(c)| <= |d| && d[i..i + |Encode(c)|] == Encode(c)
    ensures |Encode(c)| > 0
    ensures Run(d, basis, i) == Run(d, basis, i + |Encode(c)|).After(Meaning(basis, c))
  {
    hide Run, LiteralHead, CopyHead;
    HeadsAreNotEmpty();
    match c
    case Literal(data) => RunLiteral(d, basis, i, data);
    case Copy(pos, len) => RunCopy(d, basis, i, pos, len);
  }

  lemma HeadsAreNotEmpty()
    ensures forall len: nat | len < INT_LIMIT :: |LiteralHead(len)| > 0
    ensures forall pos: nat, len: nat :: |CopyHead(pos, len)| > 0
  {
    hide BigEndian;
  }

  /** Where the parts of an encoded command lie. */
  lemma Part(d: seq<byte>, i: nat, e: seq<byte>, a: nat, b: nat)
    requires i + |e| <= |d| && d[i..i + |e|] == e && a <= b <= |e|
    ensures d[i + a..i + b] == e[a..b]
  {
    SliceOfSlice(d, i, i + |e|, a, b);
  }

  lemma RunLiteral(d: seq<byte>, basis: seq<byte>, i: nat, data: seq<byte>)
    requires 0 < |data| < INT_LIMIT
    requires var e := LiteralHead(|data|) + data; i + |e| <= |d| && d[i..i + |e|] == e
    ensures Run(d, basis, i) == Run(d, basis, i + |LiteralHead(|data|) + data|).After(data)
  {
    hide Run, Exec, Parameters, LiteralHead;
    var head := LiteralHead(|data|);
    var e := head + data;
    LiteralReadsBack(|data|);
    var n := |head|;
    assert e[0..1] == [head[0]] && e[1..n] == head[1..] && e[n..] == data;
    Part(d, i, e, 0, 1);
    assert d[i] == d[i..i + 1][0];
    Part(d, i, e, 1, n);
    Part(d, i, e, n, |e|);
    RunByTable(d, basis, i);
    assert d[i + n..i + n] == [] && d[i + 1..i + 1] == [];
    ExecLiteral(d, basis, |data|, if n == 1 then 0 else AsLong(Unsigned([])), i + n);
  }

  lemma ExecLiteral(d: seq<byte>, basis: seq<byte>, len: nat, param2: int, i: nat)
    requires 0 < len && i + len <= |d|
    ensures Exec(d, basis, KindLiteral, len, param2, i) == Run(d, basis, i + len).After(d[i..i + len])
  {
    hide Run;
  }

  /** A command byte and its parameters, all of them there. */
  lemma RunByTable(d: seq<byte>, basis: seq<byte>, i: nat)
    requires i < |d| && i + 1 + Prototab(d[i]).len1 + Prototab(d[i]).len2 <= |d|
    ensures var ent := Prototab(d[i]);
            var j := i + 1 + ent.len1;
            var k := j + ent.len2;
            Run(d, basis, i)
            == if ent.len1 == 0 then Exec(d, basis, ent.kind, ent.immediate, 0, i + 1)
               else Exec(d, basis, ent.kind, AsLong(Unsigned(d[i + 1..j])), AsLong(Unsigned(d[j..k])), k)
  {
    hide Exec, Prototab;
  }

  lemma RunCopy(d: seq<byte>, basis: seq<byte>, i: nat, pos: nat, len: nat)
    requires 0 < len < Util.LONG_LIMIT && pos < Util.LONG_LIMIT && pos + len <= |basis|
    requires var e := CopyHead(pos, len); i + |e| <= |d| && d[i..i + |e|] == e
    ensures Run(d, basis, i) == Run(d, basis, i + |CopyHead(pos, len)|).After(basis[pos..pos + len])
  {
    hide Run, Exec, Parameters, CopyHead, Prototab;
    var e := CopyHead(pos, len);
    CopyReadsBack(pos, len);
    var ent := Prototab(e[0]);
    var j := 1 + ent.len1;
    Part(d, i, e, 0, 1);
    assert d[i] == d[i..i + 1][0];
    Part(d, i, e, 1, j);
    Part(d, i, e, j, |e|);
    assert e[j..|e|] == e[j..];
    IntLenIsLeast(pos, 8);
    RunByTable(d, basis, i);
    ExecCopy(d, basis, pos, len, i + |e|);
  }

  lemma ExecCopy(d: seq<byte>, basis: seq<byte>, pos: nat, len: nat, i: nat)
    requires 0 < len && pos + len <= |basis| && i <= |d|
    ensures Exec(d, basis, KindCopy, pos, len, i) == Run(d, basis, i).After(basis[pos..pos + len])
  {
    hide Run;
  }

  /** Where command k starts in the delta. */
  function Offset(cmds: seq<Command>, k: nat): nat
    requires k <= |cmds| && AllEncodable(cmds)
  {
    4 + |EncodeAll(cmds[..k])|
  }

  lemma CommandAt(cmds: seq<Command>, k: nat)
    requires k < |cmds| && AllEncodable(cmds)
    ensures Offset(cmds, k + 1) == Offset(cmds, k) + |Encode(cmds[k])| <= |DeltaBytes(cmds)| - 1
    ensures DeltaBytes(cmds)[Offset(cmds, k)..Offset(cmds, k + 1)] == Encode(cmds[k])
  {
    hide Encode, EncodeAll, Command.Encodable, BigEndian;
    var a, b := cmds[..k], cmds[k + 1..];
    assert cmds[..k + 1] == a + [cmds[k]] && cmds == cmds[..k + 1] + b;
    EncodeSnoc(a, cmds[k]);
    EncodeAppend(cmds[..k + 1], b);
    var x, y, z := EncodeAll(a), Encode(cmds[k]), EncodeAll(b);
    assert DeltaBytes(cmds) == (Magic + x) + y + (z + [OP_END]);
  }

  /** From command k on, the interpreter writes what the remaining commands mean, and is done. */
  lemma {:induction false} RunDelta(cmds: seq<Command>, basis: seq<byte>, k: nat)
    requires k <= |cmds| && AllEncodable(cmds) && InBasis(basis, cmds)
    ensures Offset(cmds, k) <= |DeltaBytes(cmds)|
    ensures Run(DeltaBytes(cmds), basis, Offset(cmds, k)) == Verdict(Apply(basis, cmds[k..]), Ends(Done))
    decreases |cmds| - k
  {
    hide Run, Encode, EncodeAll, Command.Encodable, BigEndian, Meaning, Apply;
    var d := DeltaBytes(cmds);
    if k == |cmds| {
      assert cmds[..k] == cmds && d[Offset(cmds, k)] == OP_END;
      RunByTable(d, basis, Offset(cmds, k));
      NoCommands(basis, cmds[k..]);
    } else {
      CommandAt(cmds, k);
      RunDelta(cmds, basis, k + 1);
      RunCommand(d, basis, Offset(cmds, k), cmds[k]);
      assert cmds[k..] == [cmds[k]] + cmds[k + 1..];
      ApplyAppend(basis, [cmds[k]], cmds[k + 1..]);
      OneCommand(basis, cmds[k]);
    }
  }

  lemma NoCommands(basis: seq<byte>, cmds: seq<Command>)
    requires cmds == []
    ensures Apply(basis, cmds) == []
  {
  }

  lemma OneCommand(basis: seq<byte>, c: Command)
    requires Fits(basis, c)
    ensures Apply(basis, [c]) == Meaning(basis, c)
  {
    ApplySnoc(basis, [], c);
    assert [] + [c] == [c];
  }

  /** A delta stream, applied to a basis that has what it copies, gives the file it describes. */
  lemma InterpretDelta(cmds: seq<Command>, basis: seq<byte>)
    requires AllEncodable(cmds) && InBasis(basis, cmds)
    ensures Interpret(DeltaBytes(cmds), basis) == Verdict(Apply(basis, cmds), Ends(Done))
  {
    hide Run, Encode, EncodeAll, Command.Encodable, BigEndian, Unsigned, Apply;
    var d := DeltaBytes(cmds);
    assert d[..4] == Magic;
    Capacities();
    ReadBack(DELTA_MAGIC, 4);
    RunDelta(cmds, basis, 0);
    assert cmds[..0] == [] && cmds[0..] == cmds;
    NothingEncoded();
  }

  lemma NothingEncoded()
    ensures EncodeAll([]) == []
  {
  }

  // ---- A stream that is cut short ----

  /** A stream that is done had a whole command in it. */
  lemma Complete(d: seq<byte>, basis: seq<byte>, i: nat)
    requires i <= |d| && Run(d, basis, i).ending == Ends(Done)
    ensures i < |d| && i + 1 + Prototab(d[i]).len1 + Prototab(d[i]).len2 <= |d|
  {
    hide Prototab, Exec;
  }

  /** Once it is done, the interpreter does not look at what follows. */
  lemma {:induction false} RunIsStable(d: seq<byte>, more: seq<byte>, basis: seq<byte>, i: nat)
    requires i <= |d| && Run(d, basis, i).ending == Ends(Done)
    ensures Run(d + more, basis, i) == Run(d, basis, i)
    decreases |d| - i, 0
  {
    hide Run, Parameters, Exec, Prototab, Unsigned;
    Complete(d, basis, i);
    assert (d + more)[i] == d[i];
    var ent := Prototab(d[i]);
    var j := i + 1 + ent.len1;
    var k := j + ent.len2;
    assert (d + more)[i + 1..j] == d[i + 1..j] && (d + more)[j..k] == d[j..k];
    RunByTable(d, basis, i);
    RunByTable(d + more, basis, i);
    if ent.len1 == 0 {
      ExecIsStable(d, more, basis, ent.kind, ent.immediate, 0, i + 1);
    } else {
      ExecIsStable(d, more, basis, ent.kind, AsLong(Unsigned(d[i + 1..j])), AsLong(Unsigned(d[j..k])), k);
    }
  }

  lemma {:induction false} ExecIsStable(
    d: seq<byte>, more: seq<byte>, basis: seq<byte>, kind: Kind, param1: int, param2: int, i: nat)
    requires i <= |d| && Exec(d, basis, kind, param1, param2, i).ending == Ends(Done)
    ensures Exec(d + more, basis, kind, param1, param2, i) == Exec(d, basis, kind, param1, param2, i)
    decreases |d| - i, 1
  {
    hide Run;
    if kind == KindLiteral {
      RunIsStable(d, more, basis, i + param1);
      assert (d + more)[i..i + param1] == d[i..i + param1];
    } else if kind == KindCopy {
      RunIsStable(d, more, basis, i);
    }
  }

  /** Bytes after the end command change nothing. */
  lemma DoneIsFinal(d: seq<byte>, more: seq<byte>, basis: seq<byte>)
    requires Interpret(d, basis).ending == Ends(Done)
    ensures Interpret(d + more, basis) == Interpret(d, basis)
  {
    assert (d + more)[..4] == d[..4];
    RunIsStable(d, more, basis, 4);
  }

  /** A stream that ends inside a command. */
  lemma RunCut(d: seq<byte>, basis: seq<byte>, i: nat, c: Command)
    requires c.Encodable() && i <= |d| < i + |Encode(c)| && d[i..] == Encode(c)[..|d| - i]
    ensures Run(d, basis, i).ending == Ends(InputEnded)
  {
    if i < |d| {
      assert d[i] == d[i..][0];
      match c
      case Literal(data) => CutLiteral(d, basis, i, data);
      case Copy(pos, len) => CutCopy(d, basis, i, pos, len);
    }
  }

  lemma CutLiteral(d: seq<byte>, basis: seq<byte>, i: nat, data: seq<byte>)
    requires 0 < |data| < INT_LIMIT
    requires var e := LiteralHead(|data|) + data; i < |d| < i + |e| && d[i..] == e[..|d| - i]
    ensures Run(d, basis, i).ending == Ends(InputEnded)
  {
    hide Prototab, LiteralHead, Unsigned;
    var head := LiteralHead(|data|);
    var n := |head|;
    LiteralReadsBack(|data|);
    assert d[i] == d[i..][0] == head[0];
    if i + n <= |d| {
      assert forall k :: 0 <= k < n ==> d[i + k] == d[i..][k] == (head + data)[k] == head[k];
      assert d[i + 1..i + n] == head[1..];
      RunByTable(d, basis, i);
    }
  }

  lemma CutCopy(d: seq<byte>, basis: seq<byte>, i: nat, pos: nat, len: nat)
    requires 0 < len < Util.LONG_LIMIT && pos < Util.LONG_LIMIT
    requires i < |d| < i + |CopyHead(pos, len)| && d[i..] == CopyHead(pos, len)[..|d| - i]
    ensures Run(d, basis, i).ending == Ends(InputEnded)
  {
    hide Prototab, CopyHead, Unsigned, Exec;
    CopyReadsBack(pos, len);
    IntLenIsLeast(pos, 8);
    assert d[i] == d[i..][0] == CopyHead(pos, len)[0];
  }

  /** A delta stream that is cut anywhere before its end is never taken for a whole one. */
  lemma CutIsNotDone(cmds: seq<Command>, basis: seq<byte>, n: nat)
    requires AllEncodable(cmds) && InBasis(basis, cmds) && n < |DeltaBytes(cmds)|
    ensures Interpret(DeltaBytes(cmds)[..n], basis).ending == Ends(InputEnded)
  {
    hide Run, Encode, EncodeAll, Command.Encodable, BigEndian, Unsigned;
    var d := DeltaBytes(cmds)[..n];
    if n >= 4 {
      assert d[..4] == Magic;
      Capacities();
      ReadBack(DELTA_MAGIC, 4);
      NothingEncoded();
      assert cmds[..0] == [];
      CutFrom(cmds, basis, n, 0);
    }
  }

  lemma {:induction false} CutFrom(cmds: seq<Command>, basis: seq<byte>, n: nat, k: nat)
    requires AllEncodable(cmds) && InBasis(basis, cmds) && k <= |cmds| && Offset(cmds, k) <= n < |DeltaBytes(cmds)|
    ensures Run(DeltaBytes(cmds)[..n], basis, Offset(cmds, k)).ending == Ends(InputEnded)
    decreases |cmds| - k
  {
    hide Encode, EncodeAll, Command.Encodable, BigEndian, Prototab, Parameters, Exec;
    var d, i := DeltaBytes(cmds)[..n], Offset(cmds, k);
    if k == |cmds| {
      assert cmds[..k] == cmds;
    } else {
      CommandAt(cmds, k);
      var j := Offset(cmds, k + 1);
      hide Run;
      if j <= n {
        assert d[i..j] == DeltaBytes(cmds)[i..j];
        RunCommand(d, basis, i, cmds[k]);
        CutFrom(cmds, basis, n, k + 1);
      } else {
        assert d[i..] == DeltaBytes(cmds)[i..j][..n - i];
        RunCut(d, basis, i, cmds[k]);
      }
    }
  }
}
