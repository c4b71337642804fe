/**
 The language of delta streams, in terms of bytes: how commands are spelt, and in which ways a
 stream can stop. The interpreter accepts just this language, and rejects the rest for these reasons.
 */
module Grammar {
  import opened Bytes
  import opened Command
  import opened NetInt
  import opened PatchSpec
  import opened Protocol
  import opened Wire
  import Util

  // ---- Well-formed commands, in any of the widths that hold their parameters ----

  ghost predicate SpellsLiteral(e: seq<byte>, data: seq<byte>, k: nat) {
    && k < 4 && 0 < |data| < Capacity(LiteralWidths[k]) && |data| < Util.LONG_LIMIT
    && e == [0x41 + k] + BigEndian(|data|, LiteralWidths[k]) + data
  }

  ghost predicate SpellsCopy(e: seq<byte>, pos: nat, len: nat, k: nat) {
    && k < 16 && pos < Capacity(CopyWidths[k].0) && 0 < len < Capacity(CopyWidths[k].1)
    && pos < Util.LONG_LIMIT && len < Util.LONG_LIMIT
    && e == [0x45 + k] + BigEndian(pos, CopyWidths[k].0) + BigEndian(len, CopyWidths[k].1)
  }

  ghost predicate Spells(e: seq<byte>, c: Command) {
    match c
    case Literal(data) =>
      (0 < |data| <= 0x40 && e == [|data|] + data) || exists k: nat :: SpellsLiteral(e, data, k)
    case Copy(pos, len) => exists k: nat :: SpellsCopy(e, pos, len, k)
  }

  /** From position i to position m, d spells a list of commands. */
  ghost predicate Spelled(d: seq<byte>, i: nat, m: nat, cmds: seq<Command>)
    requires m <= |d|
    decreases |cmds|
  {
    if cmds == [] then i == m
    else exists j: nat :: i < j <= m && Spells(d[i..j], cmds[0]) && Spelled(d, j, m, cmds[1..])
  }

  // ---- What there can be instead of a well-formed command ----

  /** The length of a command without its data. */
  function HeadLen(op: byte): nat {
    if 0x41 <= op <= 0x44 then 1 + LiteralWidths[op - 0x41]
    else if 0x45 <= op <= 0x54 then 1 + CopyWidths[op - 0x45].0 + CopyWidths[op - 0x45].1
    else 1
  }

  predicate Zero(s: seq<byte>) {
    forall i :: 0 <= i < |s| ==> s[i] == 0
  }

  /** The sign bit of eight bytes is set. */
  predicate Negative(s: seq<byte>) {
    |s| == 8 && s[0] >= 0x80
  }

  /** A reserved opcode, a length that is not positive, or a negative offset. */
  predicate Malformed(t: seq<byte>) {
    && t != [] && |t| >= HeadLen(t[0])
    && var head := t[..HeadLen(t[0])];
       || t[0] >= 0x55
       || (0x41 <= t[0] <= 0x44 && (Zero(head[1..]) || Negative(head[1..])))
       || (0x45 <= t[0] <= 0x54
           && var j := 1 + CopyWidths[t[0] - 0x45].0;
              Zero(head[j..]) || Negative(head[j..]) || Negative(head[1..j]))
  }

  /** A command is whole but for its data: its length, and for a copy its offset. */
  function LiteralLen(t: seq<byte>): nat
    requires t != [] && 1 <= t[0] <= 0x44 && |t| >= HeadLen(t[0])
  {
    if t[0] <= 0x40 then t[0] else Unsigned(t[1..HeadLen(t[0])])
  }

  function CopyPos(t: seq<byte>): nat
    requires t != [] && 0x45 <= t[0] <= 0x54 && |t| >= HeadLen(t[0])
  {
    Unsigned(t[1..1 + CopyWidths[t[0] - 0x45].0])
  }

  function CopyLen(t: seq<byte>): nat
    requires t != [] && 0x45 <= t[0] <= 0x54 && |t| >= HeadLen(t[0])
  {
    Unsigned(t[1 + CopyWidths[t[0] - 0x45].0..HeadLen(t[0])])
  }

  /** The stream ends before a command, within its head, or within the data of a literal, which are all there is. */
  predicate Truncated(t: seq<byte>, rest: seq<byte>) {
    if t == [] || |t| < HeadLen(t[0]) then rest == []
    else
      && 1 <= t[0] <= 0x44 && !Malformed(t)
      && |t| < HeadLen(t[0]) + LiteralLen(t) && rest == t[HeadLen(t[0])..]
  }

  /** A copy of data that the basis does not have, or not all of it. */
  predicate Outside(t: seq<byte>, basis: seq<byte>, rest: seq<byte>) {
    && t != [] && 0x45 <= t[0] <= 0x54 && |t| >= HeadLen(t[0]) && !Malformed(t)
    && CopyPos(t) + CopyLen(t) > |basis| && rest == basis[Min(CopyPos(t), |basis|)..]
  }

  /** How the interpretation of t ends, when t does not start with a whole command that fits the basis. */
  ghost predicate Stops(t: seq<byte>, basis: seq<byte>, v: Verdict) {
    match v.ending
    case Ends(Done) => v.out == [] && t != [] && t[0] == 0
    case Ends(Corrupt) => v.out == [] && Malformed(t)
    case Ends(InputEnded) => Truncated(t, v.out)
    case BasisEnds => Outside(t, basis, v.out)
    case _ => false
  }

  // ---- Signs, in bytes ----

  lemma {:induction false} FromTheFront(s: seq<byte>)
    requires s != []
    ensures Unsigned(s) == s[0] * Capacity(|s| - 1) + Unsigned(s[1..])
  {
    if |s| > 1 {
      var init, last := s[..|s| - 1], s[|s| - 1];
      FromTheFront(init);
      assert s[1..][..|s| - 2] == init[1..];
      Places(s[0], Capacity(|s| - 2), Unsigned(init[1..]));
    }
  }

  lemma Places(a: nat, c: nat, u: nat)
    ensures (a * c + u) * 256 == a * (256 * c) + u * 256
  {
  }

  lemma {:induction false} ZeroIsZero(s: seq<byte>)
    ensures Zero(s) <==> Unsigned(s) == 0
  {
    if s != [] {
      ZeroIsZero(s[..|s| - 1]);
      assert Zero(s) <==> Zero(s[..|s| - 1]) && s[|s| - 1] == 0;
    }
  }

  lemma SignOf(s: seq<byte>)
    requires |s| in {1, 2, 4, 8}
    ensures AsLong(Unsigned(s)) < 0 <==> Negative(s)
    ensures AsLong(Unsigned(s)) == 0 <==> Zero(s)
    ensures !Negative(s) ==> AsLong(Unsigned(s)) == Unsigned(s) < Util.LONG_LIMIT
  {
    ZeroIsZero(s);
    UnsignedBound(s);
    Capacities();
    if |s| == 8 {
      FromTheFront(s);
      UnsignedBound(s[1..]);
      assert Capacity(7) == 0x100_0000_0000_0000;
    }
  }

  // ---- Commands are interpreted as they are spelt ----

  lemma RunSpelledLiteral(d: seq<byte>, basis: seq<byte>, i: nat, j: nat, data: seq<byte>, k: nat)
    requires i < j <= |d| && SpellsLiteral(d[i..j], data, k)
    ensures Run(d, basis, i) == Run(d, basis, j).After(data)
  {
    hide Run, Exec, Prototab, BigEndian, Unsigned, Capacity;
    var e, w := d[i..j], LiteralWidths[k];
    assert e[..1] == [0x41 + k] && e[1..1 + w] == BigEndian(|data|, w) && e[1 + w..] == data;
    SliceOfSlice(d, i, j, 1, 1 + w);
    SliceOfSlice(d, i, j, 1 + w, j - i);
    assert d[i] == e[0] == 0x41 + k;
    TableEntries(0x41 + k);
    ReadBack(|data|, w);
    RunByTable(d, basis, i);
    ExecLiteral(d, basis, |data|, AsLong(Unsigned(d[i + 1 + w..i + 1 + w])), i + 1 + w);
  }

  lemma RunShortLiteral(d: seq<byte>, basis: seq<byte>, i: nat, j: nat, data: seq<byte>)
    requires i < j <= |d| && 0 < |data| <= 0x40 && d[i..j] == [|data|] + data
    ensures Run(d, basis, i) == Run(d, basis, j).After(data)
  {
    hide Run, Exec, Prototab;
    SliceOfSlice(d, i, j, 1, j - i);
    assert d[i] == d[i..j][0] == |data|;
    TableEntries(|data|);
    RunByTable(d, basis, i);
    ExecLiteral(d, basis, |data|, 0, i + 1);
  }

  lemma RunCopyOfWidths(d: seq<byte>, basis: seq<byte>, i: nat, j: nat, op: byte, pos: nat, len: nat, w1: nat, w2: nat)
    requires i < j <= |d| && d[i..j] == [op] + BigEndian(pos, w1) + BigEndian(len, w2)
    requires Prototab(op) == Prototype(KindCopy, 0, w1, w2) && w1 > 0
    requires pos < Capacity(w1) && 0 < len < Capacity(w2) && pos < Util.LONG_LIMIT && len < Util.LONG_LIMIT
    requires pos + len <= |basis|
    ensures Run(d, basis, i) == Run(d, basis, j).After(basis[pos..pos + len])
  {
    hide Run, Exec, Prototab, BigEndian, Unsigned, Capacity;
    var e := d[i..j];
    assert e[1..1 + w1] == BigEndian(pos, w1) && e[1 + w1..1 + w1 + w2] == BigEndian(len, w2);
    SliceOfSlice(d, i, j, 1, 1 + w1);
    SliceOfSlice(d, i, j, 1 + w1, 1 + w1 + w2);
    assert d[i] == e[0] == op;
    ReadBack(pos, w1);
    ReadBack(len, w2);
    RunByTable(d, basis, i);
    ExecCopy(d, basis, pos, len, j);
  }

  lemma RunSpelledCopy(d: seq<byte>, basis: seq<byte>, i: nat, j: nat, pos: nat, len: nat, k: nat)
    requires i < j <= |d| && SpellsCopy(d[i..j], pos, len, k) && pos + len <= |basis|
    ensures Run(d, basis, i) == Run(d, basis, j).After(basis[pos..pos + len])
  {
    hide Run, Exec, Prototab, BigEndian, Unsigned, Capacity;
    TableEntries(0x45 + k);
    RunCopyOfWidths(d, basis, i, j, 0x45 + k, pos, len, CopyWidths[k].0, CopyWidths[k].1);
  }

  lemma RunSpelled(d: seq<byte>, basis: seq<byte>, i: nat, j: nat, c: Command)
    requires i < j <= |d| && Spells(d[i..j], c) && Fits(basis, c)
    ensures Run(d, basis, i) == Run(d, basis, j).After(Meaning(basis, c))
  {
    hide Run, SpellsLiteral, SpellsCopy;
    match c
    case Literal(data) =>
      if 0 < |data| <= 0x40 && d[i..j] == [|data|] + data {
        RunShortLiteral(d, basis, i, j, data);
      } else {
        var k: nat :| SpellsLiteral(d[i..j], data, k);
        RunSpelledLiteral(d, basis, i, j, data, k);
      }
    case Copy(pos, len) =>
      var k: nat :| SpellsCopy(d[i..j], pos, len, k);
      RunSpelledCopy(d, basis, i, j, pos, len, k);
  }

  /** A list of commands comes first, and then whatever comes after them. */
  lemma {:induction false} SpelledRuns(d: seq<byte>, basis: seq<byte>, i: nat, m: nat, cmds: seq<Command>)
    requires m <= |d| && Spelled(d, i, m, cmds) && InBasis(basis, cmds)
    ensures i <= m && Run(d, basis, i) == Run(d, basis, m).After(Apply(basis, cmds))
    decreases |cmds|
  {
    hide Run, Spells, Apply;
    if cmds == [] {
      NoCommands(basis, cmds);
      assert [] + Run(d, basis, m).out == Run(d, basis, m).out;
    } else {
      var j: nat :| i < j <= m && Spells(d[i..j], cmds[0]) && Spelled(d, j, m, cmds[1..]);
      RunSpelled(d, basis, i, j, cmds[0]);
      SpelledRuns(d, basis, j, m, cmds[1..]);
      assert cmds == [cmds[0]] + cmds[1..];
      ApplyAppend(basis, [cmds[0]], cmds[1..]);
      OneCommand(basis, cmds[0]);
      AfterAfter(Run(d, basis, m), Meaning(basis, cmds[0]), Apply(basis, cmds[1..]));
    }
  }

  // ---- And what is not a command ends the interpretation ----

  /** Reading the head of a command, all of it there. */
  lemma Heads(d: seq<byte>, basis: seq<byte>, i: nat)
    requires i < |d| && i + HeadLen(d[i]) <= |d|
    ensures var op := d[i];
            var k := i + HeadLen(op);
            Run(d, basis, i)
            == if op == 0 then Exec(d, basis, KindEnd, 0, 0, k)
               else if op <= 0x40 then Exec(d, basis, KindLiteral, op, 0, k)
               else if op <= 0x44 then
                 Exec(d, basis, KindLiteral, AsLong(Unsigned(d[i + 1..k])), AsLong(Unsigned([])), k)
               else if op <= 0x54 then
                 var j := i + 1 + CopyWidths[op - 0x45].0;
                 Exec(d, basis, KindCopy, AsLong(Unsigned(d[i + 1..j])), AsLong(Unsigned(d[j..k])), k)
               else Exec(d, basis, KindReserved, op, 0, k)
  {
    hide Exec, Prototab, Unsigned;
    TableEntries(d[i]);
    RunByTable(d, basis, i);
    var k := i + HeadLen(d[i]);
    assert d[k..k] == [];
  }

  /** A part of a head, seen from the command on. */
  lemma PartOfHead(d: seq<byte>, i: nat, h: nat, a: nat, b: nat)
    requires a <= b <= h && i + h <= |d|
    ensures d[i..][..h][a..b] == d[i + a..i + b] == d[i..][a..b]
    ensures d[i..][..h][b..] == d[i + b..i + h] == d[i..][b..h]
  {
    SliceOfSlice(d, i, |d|, a, b);
    SliceOfSlice(d, i, |d|, b, h);
    assert d[i..] == d[i..|d|];
    SliceOfSlice(d[i..], 0, h, a, b);
    SliceOfSlice(d[i..], 0, h, b, h);
    assert d[i..][..h] == d[i..][0..h];
    assert d[i..][..h][b..] == d[i..][..h][b..h];
  }

  /** The cases of a head that is there in full. */
  lemma MalformedEnds(d: seq<byte>, basis: seq<byte>, i: nat)
    requires i < |d| && i + HeadLen(d[i]) <= |d|
    ensures Malformed(d[i..]) ==> Run(d, basis, i) == Verdict([], Ends(Corrupt))
    ensures d[i] == 0 ==> Run(d, basis, i) == Verdict([], Ends(Done))
  {
    hide Run, Prototab, Unsigned, Zero, Negative;
    var op, k, t := d[i], i + HeadLen(d[i]), d[i..];
    Heads(d, basis, i);
    assert t[0] == op;
    if 0x41 <= op <= 0x44 {
      PartOfHead(d, i, HeadLen(op), 1, 1);
      SignOf(d[i + 1..k]);
    } else if 0x45 <= op <= 0x54 {
      var j := 1 + CopyWidths[op - 0x45].0;
      PartOfHead(d, i, HeadLen(op), 1, j);
      SignOf(d[i + 1..i + j]);
      SignOf(d[i + j..k]);
    }
  }

  lemma LiteralIsSpelt(e: seq<byte>, n: nat, s: seq<byte>, data: seq<byte>)
    requires n < 4 && |s| == LiteralWidths[n] && !Negative(s) && !Zero(s)
    ensures AsLong(Unsigned(s)) == Unsigned(s) > 0
    ensures |data| == Unsigned(s) && e == [0x41 + n] + s + data ==> Spells(e, Literal(data))
  {
    hide Unsigned, BigEndian, Capacity, Negative;
    SignOf(s);
    UnsignedBound(s);
    WriteBack(s);
    ZeroIsZero(s);
    if |data| == Unsigned(s) && e == [0x41 + n] + s + data {
      assert SpellsLiteral(e, data, n);
    }
  }

  /** A literal whose length is not in its opcode: the bytes of the length. */
  lemma LiteralParts(d: seq<byte>, i: nat)
    requires i < |d| && 0x41 <= d[i] <= 0x44 && i + HeadLen(d[i]) <= |d|
    ensures var k := i + HeadLen(d[i]);
            && LiteralLen(d[i..]) == Unsigned(d[i + 1..k])
            && (!Malformed(d[i..]) ==> !Negative(d[i + 1..k]) && !Zero(d[i + 1..k]))
  {
    hide Unsigned, Zero, Negative;
    PartOfHead(d, i, HeadLen(d[i]), 1, 1);
  }

  lemma SlicesMeet(d: seq<byte>, i: nat, k: nat, m: nat)
    requires i < k <= m <= |d|
    ensures d[i..m] == [d[i]] + d[i + 1..k] + d[k..m]
  {
  }

  /** A literal with a proper length: it is spelt, if its data are all there. */
  lemma LiteralSpelt(d: seq<byte>, i: nat)
    requires i < |d| && 1 <= d[i] <= 0x44 && i + HeadLen(d[i]) <= |d| && !Malformed(d[i..])
    ensures var k, n := i + HeadLen(d[i]), LiteralLen(d[i..]);
            n > 0 && (k + n <= |d| ==> Spells(d[i..k + n], Literal(d[k..k + n])))
  {
    hide Unsigned, BigEndian, Malformed, SpellsLiteral;
    var op, k, n := d[i], i + HeadLen(d[i]), LiteralLen(d[i..]);
    assert d[i..][0] == op;
    if op <= 0x40 {
      if k + n <= |d| {
        SlicesMeet(d, i, k, k + n);
      }
    } else {
      LiteralParts(d, i);
      hide Spells;
      if k + n <= |d| {
        SlicesMeet(d, i, k, k + n);
        LiteralIsSpelt(d[i..k + n], op - 0x41, d[i + 1..k], d[k..k + n]);
      } else {
        LiteralIsSpelt([], op - 0x41, d[i + 1..k], []);
      }
    }
  }

  /** And else the stream is truncated. */
  lemma LiteralGoesOn(d: seq<byte>, basis: seq<byte>, i: nat)
    requires i < |d| && 1 <= d[i] <= 0x44 && i + HeadLen(d[i]) <= |d| && !Malformed(d[i..])
    ensures var k, n := i + HeadLen(d[i]), LiteralLen(d[i..]);
            && n > 0
            && (k + n <= |d| ==> Spells(d[i..k + n], Literal(d[k..k + n])))
            && (|d| < k + n ==> Run(d, basis, i) == Verdict(d[k..], Ends(InputEnded)))
  {
    hide Run, Prototab, Unsigned, Malformed, Spells;
    LiteralSpelt(d, i);
    Heads(d, basis, i);
    assert d[i..][0] == d[i];
    if d[i] > 0x40 {
      LiteralParts(d, i);
      SignOf(d[i + 1..i + HeadLen(d[i])]);
    }
  }

  /** The parameters of a copy, where they are. */
  lemma CopyParts(d: seq<byte>, i: nat)
    requires i < |d| && 0x45 <= d[i] <= 0x54 && i + HeadLen(d[i]) <= |d|
    ensures var j, k := i + 1 + CopyWidths[d[i] - 0x45].0, i + HeadLen(d[i]);
            && CopyPos(d[i..]) == Unsigned(d[i + 1..j]) && CopyLen(d[i..]) == Unsigned(d[j..k])
            && (!Malformed(d[i..]) ==> !Negative(d[i + 1..j]) && !Negative(d[j..k]) && !Zero(d[j..k]))
  {
    hide Unsigned, Zero, Negative;
    var op, k, t := d[i], i + HeadLen(d[i]), d[i..];
    var j := i + 1 + CopyWidths[op - 0x45].0;
    assert t[0] == op;
    PartOfHead(d, i, HeadLen(op), 1, j - i);
  }

  lemma CopyIsSpelt(e: seq<byte>, n: nat, s1: seq<byte>, s2: seq<byte>)
    requires n < 16 && |s1| == CopyWidths[n].0 && |s2| == CopyWidths[n].1 && e == [0x45 + n] + s1 + s2
    requires !Negative(s1) && !Negative(s2) && !Zero(s2)
    ensures AsLong(Unsigned(s1)) == Unsigned(s1) && AsLong(Unsigned(s2)) == Unsigned(s2) > 0
    ensures Spells(e, Copy(Unsigned(s1), Unsigned(s2)))
  {
    hide Unsigned, BigEndian, Capacity, Negative;
    SignOf(s1);
    SignOf(s2);
    UnsignedBound(s1);
    UnsignedBound(s2);
    WriteBack(s1);
    WriteBack(s2);
    ZeroIsZero(s2);
    assert SpellsCopy(e, Unsigned(s1), Unsigned(s2), n);
  }

  /** A copy with proper parameters: it is spelt, and if the basis does not have the data, that is the end. */
  lemma CopyGoesOn(d: seq<byte>, basis: seq<byte>, i: nat)
    requires i < |d| && 0x45 <= d[i] <= 0x54 && i + HeadLen(d[i]) <= |d| && !Malformed(d[i..])
    ensures var k, pos, len := i + HeadLen(d[i]), CopyPos(d[i..]), CopyLen(d[i..]);
            && Spells(d[i..k], Copy(pos, len))
            && (|basis| < pos + len ==> Run(d, basis, i) == Verdict(basis[Min(pos, |basis|)..], BasisEnds))
  {
    hide Run, Prototab, Unsigned, Zero, Negative, BigEndian, Capacity, Malformed, Spells, CopyPos, CopyLen;
    var n, k := d[i] - 0x45, i + HeadLen(d[i]);
    var j := i + 1 + CopyWidths[n].0;
    Heads(d, basis, i);
    CopyParts(d, i);
    SlicesMeet(d, i, j, k);
    CopyIsSpelt(d[i..k], n, d[i + 1..j], d[j..k]);
  }

  /** A head that is not there in full. */
  lemma HeadIsCut(d: seq<byte>, basis: seq<byte>, i: nat)
    requires i <= |d| && (i == |d| || |d| < i + HeadLen(d[i]))
    ensures Run(d, basis, i) == Verdict([], Ends(InputEnded))
  {
    hide Prototab, Exec;
    if i < |d| {
      TableEntries(d[i]);
    }
  }

  /** So a stream starts with a command that fits the basis, or stops. */
  lemma CommandOrStop(d: seq<byte>, basis: seq<byte>, i: nat) returns (c: Command, j: nat)
    requires i <= |d|
    ensures Stops(d[i..], basis, Run(d, basis, i)) || (i < j <= |d| && Spells(d[i..j], c) && Fits(basis, c))
  {
    hide Run, Prototab, Unsigned, Spells, Zero, Negative, Malformed;
    c, j := Literal([]), 0;
    if i == |d| || |d| < i + HeadLen(d[i]) {
      HeadIsCut(d, basis, i);
    } else {
      assert d[i..][0] == d[i];
      MalformedEnds(d, basis, i);
      Reserved(d[i..]);
      if d[i] != 0 && !Malformed(d[i..]) {
        var k := i + HeadLen(d[i]);
        assert d[i..][HeadLen(d[i])..] == d[k..];
        if d[i] <= 0x44 {
          LiteralGoesOn(d, basis, i);
          j := k + LiteralLen(d[i..]);
          if j <= |d| {
            c := Literal(d[k..j]);
          }
        } else {
          CopyGoesOn(d, basis, i);
          j, c := k, Copy(CopyPos(d[i..]), CopyLen(d[i..]));
        }
      }
    }
  }

  lemma Reserved(t: seq<byte>)
    requires t != []
    ensures t[0] >= 0x55 ==> Malformed(t)
  {
  }

  lemma StopsRuns(d: seq<byte>, basis: seq<byte>, m: nat, v: Verdict)
    requires m <= |d| && Stops(d[m..], basis, v)
    ensures Run(d, basis, m) == v
  {
    hide Run, Spells, Malformed, Unsigned;
    var t := d[m..];
    if m == |d| || |d| < m + HeadLen(d[m]) {
      HeadIsCut(d, basis, m);
      NotWhole(t);
    } else {
      assert t[0] == d[m];
      MalformedEnds(d, basis, m);
      Reserved(t);
      if !Malformed(t) && 1 <= t[0] <= 0x44 {
        LiteralGoesOn(d, basis, m);
        assert t[HeadLen(t[0])..] == d[m + HeadLen(t[0])..];
      } else if !Malformed(t) && t[0] != 0 {
        CopyGoesOn(d, basis, m);
      }
    }
  }

  lemma NotWhole(t: seq<byte>)
    requires t == [] || |t| < HeadLen(t[0])
    ensures !Malformed(t) && (t == [] || t[0] != 0)
  {
  }

  /** Every stream is a list of commands, and then a stop. */
  lemma {:induction false} Parse(d: seq<byte>, basis: seq<byte>, i: nat) returns (m: nat, cmds: seq<Command>)
    requires i <= |d|
    ensures m <= |d| && Spelled(d, i, m, cmds) && InBasis(basis, cmds) && Stops(d[m..], basis, Run(d, basis, m))
    decreases |d| - i
  {
    hide Run, Spells, Stops, Fits;
    var c, j := CommandOrStop(d, basis, i);
    if Stops(d[i..], basis, Run(d, basis, i)) {
      m, cmds := i, [];
    } else {
      m, cmds := Parse(d, basis, j);
      assert ([c] + cmds)[1..] == cmds;
      cmds := [c] + cmds;
    }
  }

  // ---- The language ----

  const MAGIC: seq<byte> := [0x72, 0x73, 0x02, 0x36]

  /** Commands that fit the basis up to position m, and then a stop. */
  ghost predicate Reads(d: seq<byte>, basis: seq<byte>, m: nat, cmds: seq<Command>, rest: Verdict) {
    4 <= m <= |d| && Spelled(d, 4, m, cmds) && InBasis(basis, cmds) && Stops(d[m..], basis, rest)
  }

  lemma MagicOf(d: seq<byte>)
    requires |d| >= 4
    ensures Unsigned(d[..4]) == DELTA_MAGIC <==> d[..4] == MAGIC
  {
    hide Unsigned, BigEndian;
    MagicBytes();
    WriteBack(d[..4]);
    Capacities();
    ReadBack(DELTA_MAGIC, 4);
  }

  lemma InterpretReads(d: seq<byte>, basis: seq<byte>, m: nat, cmds: seq<Command>, rest: Verdict)
    requires |d| >= 4 && d[..4] == MAGIC && Reads(d, basis, m, cmds, rest)
    ensures Interpret(d, basis) == rest.After(Apply(basis, cmds))
  {
    hide Run, Spelled, Stops, Apply, Unsigned;
    MagicOf(d);
    StopsRuns(d, basis, m, rest);
    SpelledRuns(d, basis, 4, m, cmds);
  }

  /**
   What the interpreter makes of any stream at all: it wants the magic number, takes commands as
   long as they are well-formed and fit the basis, and then ends as the next bytes have it.
   */
  lemma InterpretIs(d: seq<byte>, basis: seq<byte>, v: Verdict)
    ensures Interpret(d, basis) == v
            <==> if |d| < 4 then v == Verdict([], Ends(InputEnded))
                 else if d[..4] != MAGIC then v == Verdict([], Ends(BadMagic))
                 else exists m: nat, cmds, rest :: Reads(d, basis, m, cmds, rest) && v == rest.After(Apply(basis, cmds))
  {
    hide Run, Spelled, Stops, Apply, Unsigned;
    if |d| >= 4 {
      MagicOf(d);
      if d[..4] == MAGIC {
        var m, cmds := Parse(d, basis, 4);
        SpelledRuns(d, basis, 4, m, cmds);
        assert Reads(d, basis, m, cmds, Run(d, basis, m));
        forall m: nat, cmds, rest | Reads(d, basis, m, cmds, rest)
          ensures Interpret(d, basis) == rest.After(Apply(basis, cmds))
        {
          InterpretReads(d, basis, m, cmds, rest);
        }
      }
    }
  }

  /** A patch is done if and only if an end command follows well-formed commands that fit the basis. */
  lemma DoneIff(d: seq<byte>, basis: seq<byte>, file: seq<byte>)
    ensures Interpret(d, basis) == Verdict(file, Ends(Done))
            <==> |d| >= 4 && d[..4] == MAGIC
                 && exists m: nat, cmds ::
                      && 4 <= m < |d| && d[m] == 0
                      && Spelled(d, 4, m, cmds) && InBasis(basis, cmds) && file == Apply(basis, cmds)
  {
    hide Interpret, Spelled, Apply, Malformed, Truncated, Outside;
    var v := Verdict(file, Ends(Done));
    InterpretIs(d, basis, v);
    if Interpret(d, basis) == v {
      var m: nat, cmds, rest :| Reads(d, basis, m, cmds, rest) && v == rest.After(Apply(basis, cmds));
      assert d[m..][0] == d[m];
      assert Apply(basis, cmds) + [] == Apply(basis, cmds);
    }
    forall m: nat, cmds | |d| >= 4 && d[..4] == MAGIC && 4 <= m < |d| && d[m] == 0
                          && Spelled(d, 4, m, cmds) && InBasis(basis, cmds) && file == Apply(basis, cmds)
      ensures Interpret(d, basis) == v
    {
      assert d[m..][0] == 0;
      assert Reads(d, basis, m, cmds, Verdict([], Ends(Done)));
      InterpretReads(d, basis, m, cmds, Verdict([], Ends(Done)));
      assert file + [] == file;
    }
  }

  // ---- Deltas that are damaged ----

  /** What a delta job writes is spelt properly, in the shortest way. */
  lemma EncodeSpells(c: Command)
    requires c.Encodable()
    ensures Spells(Encode(c), c) && Encode(c) != []
  {
    hide BigEndian;
    Capacities();
    match c
    case Literal(data) =>
      LiteralHeadIs(|data|);
      if |data| > 0x40 {
        assert SpellsLiteral(Encode(c), data, if |data| <= 0xff then 0 else if |data| <= 0xffff then 1 else 2);
      }
    case Copy(pos, len) =>
      CopyHeadIs(pos, len);
      var head := CopyHead(pos, len);
      assert head == [head[0]] + head[1..];
      assert SpellsCopy(head, pos, len, head[0] - 0x45);
  }

  lemma {:induction false} EncodedIsSpelt(cmds: seq<Command>, t: seq<byte>, k: nat)
    requires k <= |cmds| && AllEncodable(cmds)
    ensures var d := Magic + EncodeAll(cmds) + t;
            Offset(cmds, |cmds|) == |d| - |t| && Spelled(d, Offset(cmds, k), Offset(cmds, |cmds|), cmds[k..])
    decreases |cmds| - k
  {
    hide Spells, Encode, EncodeAll, Command.Encodable, BigEndian;
    var d, n := Magic + EncodeAll(cmds) + t, Offset(cmds, |cmds|);
    assert cmds[..|cmds|] == cmds;
    assert d[..n] == DeltaBytes(cmds)[..n];
    if k < |cmds| {
      CommandAt(cmds, k);
      EncodedIsSpelt(cmds, t, k + 1);
      var i, j := Offset(cmds, k), Offset(cmds, k + 1);
      assert d[i..j] == DeltaBytes(cmds)[i..j];
      EncodeSpells(cmds[k]);
      assert cmds[k..][0] == cmds[k] && cmds[k..][1..] == cmds[k + 1..];
    }
  }

  /** A delta whose commands are followed by anything that stops it: what they describe is written, and no more. */
  lemma StopAfterCommands(cmds: seq<Command>, basis: seq<byte>, t: seq<byte>, rest: Verdict)
    requires AllEncodable(cmds) && InBasis(basis, cmds) && Stops(t, basis, rest)
    ensures Interpret(Magic + EncodeAll(cmds) + t, basis) == rest.After(Apply(basis, cmds))
  {
    hide Spelled, Stops, EncodeAll, Apply, BigEndian, Interpret;
    var d := Magic + EncodeAll(cmds) + t;
    MagicBytes();
    EncodedIsSpelt(cmds, t, 0);
    NothingEncoded();
    assert cmds[0..] == cmds && cmds[..0] == [];
    var m := Offset(cmds, |cmds|);
    assert d[m..] == t && d[..4] == MAGIC;
    assert Reads(d, basis, m, cmds, rest);
    InterpretReads(d, basis, m, cmds, rest);
  }

  /** A command byte that is reserved, wherever a command may start, is corrupt, and so are these parameters. */
  lemma MalformedIsCorrupt(cmds: seq<Command>, basis: seq<byte>, op: byte, s1: seq<byte>, s2: seq<byte>,
                           more: seq<byte>)
    requires AllEncodable(cmds) && InBasis(basis, cmds)
    requires || (op >= 0x55 && s1 == s2 == [])
             || (0x41 <= op <= 0x44 && s1 == [] && |s2| == LiteralWidths[op - 0x41] && (Zero(s2) || Negative(s2)))
             || (0x45 <= op <= 0x54 && |s1| == CopyWidths[op - 0x45].0 && |s2| == CopyWidths[op - 0x45].1
                 && (Zero(s2) || Negative(s2) || Negative(s1)))
    ensures Interpret(Magic + EncodeAll(cmds) + ([op] + s1 + s2 + more), basis)
            == Verdict(Apply(basis, cmds), Ends(Corrupt))
  {
    hide EncodeAll, Apply, BigEndian, Interpret, Zero, Negative;
    var t := [op] + s1 + s2 + more;
    var head := [op] + s1 + s2;
    assert t[..HeadLen(op)] == head && head[1..1 + |s1|] == s1 && head[1 + |s1|..] == s2;
    StopAfterCommands(cmds, basis, t, Verdict([], Ends(Corrupt)));
    assert Apply(basis, cmds) + [] == Apply(basis, cmds);
  }
}
