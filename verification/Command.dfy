/** The commands of a delta: their opcode table, their encoding, and what they mean. */
module Command {
  import opened Bytes
  import opened NetInt
  import opened Protocol
  import Util

  datatype Kind = KindEnd | KindLiteral | KindCopy | KindReserved

  /** An opcode's kind, its implied parameter, and the widths of its explicit ones. */
  datatype Prototype = Prototype(kind: Kind, immediate: nat, len1: nat, len2: nat)

  const OP_END := 0
  const OP_LITERAL_N1 := 0x41
  const OP_LITERAL_N2 := 0x42
  const OP_LITERAL_N4 := 0x43
  const OP_LITERAL_N8 := 0x44
  const OP_COPY_N1_N1 := 0x45
  const OP_COPY_N2_N1 := 0x49
  const OP_COPY_N4_N1 := 0x4d
  const OP_COPY_N8_N1 := 0x51

  function Width(i: nat): (w: nat)
    requires i < 4
    ensures w in {1, 2, 4, 8}
  {
    [1, 2, 4, 8][i]
  }

  /** The table of opcodes. */
  function Prototab(op: byte): (ent: Prototype)
    ensures ent.len1 == 0 ==> ent.len2 == 0
    ensures ent.len1 <= 8 && ent.len2 <= 8
  {
    if op == OP_END then Prototype(KindEnd, 0, 0, 0)
    else if op <= 64 then Prototype(KindLiteral, op, 0, 0)
    else if op <= OP_LITERAL_N8 then Prototype(KindLiteral, 0, Width(op - OP_LITERAL_N1), 0)
    else if op <= OP_COPY_N8_N1 + 3 then
      Prototype(KindCopy, 0, Width((op - OP_COPY_N1_N1) / 4), Width((op - OP_COPY_N1_N1) % 4))
    else Prototype(KindReserved, op, 0, 0)
  }

  /** A command with its data. */
  datatype Command =
    | Literal(data: seq<byte>)
    | Copy(pos: nat, len: nat)
  {
    predicate Encodable() {
      match this
      case Literal(data) => 0 < |data| < INT_LIMIT
      case Copy(pos, len) => 0 < len < Util.LONG_LIMIT && pos < Util.LONG_LIMIT
    }
  }


  // ---- Encoding ----

  /** How many explicit bytes a literal's length takes. */
  function LiteralParamLen(len: nat): nat {
    if len <= 64 then 0 else IntLen(len)
  }

  function LiteralOp(len: nat): int {
    var paramLen := LiteralParamLen(len);
    if paramLen == 0 then len
    else if paramLen == 1 then OP_LITERAL_N1
    else if paramLen == 2 then OP_LITERAL_N2
    else OP_LITERAL_N4
  }

  /** The opcode and length of a literal, ahead of its data. */
  function LiteralHead(len: nat): seq<byte>
    requires len < INT_LIMIT
  {
    [LiteralOp(len)] + BigEndian(len, LiteralParamLen(len))
  }

  function CopyOp(pos: nat, len: nat): byte {
    (match IntLen(pos) case 8 => OP_COPY_N8_N1 case 4 => OP_COPY_N4_N1 case 2 => OP_COPY_N2_N1 case _ => OP_COPY_N1_N1)
    + (match IntLen(len) case 1 => 0 case 2 => 1 case 4 => 2 case _ => 3)
  }

  function CopyHead(pos: nat, len: nat): seq<byte> {
    [CopyOp(pos, len)] + BigEndian(pos, IntLen(pos)) + BigEndian(len, IntLen(len))
  }

  function Encode(c: Command): seq<byte>
    requires c.Encodable()
  {
    match c
    case Literal(data) => LiteralHead(|data|) + data
    case Copy(pos, len) => CopyHead(pos, len)
  }

  predicate AllEncodable(cmds: seq<Command>) {
    forall i :: 0 <= i < |cmds| ==> cmds[i].Encodable()
  }

  function EncodeAll(cmds: seq<Command>): seq<byte>
    requires AllEncodable(cmds)
  {
    if cmds == [] then [] else EncodeAll(cmds[..|cmds| - 1]) + Encode(cmds[|cmds| - 1])
  }

  const Magic: seq<byte> := BigEndian(DELTA_MAGIC, 4)

  /** A whole delta stream. */
  function DeltaBytes(cmds: seq<Command>): seq<byte>
    requires AllEncodable(cmds)
  {
    Magic + EncodeAll(cmds) + [OP_END]
  }

  lemma EncodeSnoc(cmds: seq<Command>, c: Command)
    requires AllEncodable(cmds) && c.Encodable()
    ensures AllEncodable(cmds + [c]) && EncodeAll(cmds + [c]) == EncodeAll(cmds) + Encode(c)
  {
    assert (cmds + [c])[..|cmds|] == cmds;
  }

  lemma {:induction false} EncodeAppend(a: seq<Command>, b: seq<Command>)
    requires AllEncodable(a) && AllEncodable(b)
    ensures AllEncodable(a + b) && EncodeAll(a + b) == EncodeAll(a) + EncodeAll(b)
  {
    hide Encode, Command.Encodable;
    if b == [] {
      assert a + b == a;
    } else {
      var init, last := b[..|b| - 1], b[|b| - 1];
      EncodeAppend(a, init);
      EncodeSnoc(a + init, last);
      assert a + init + [last] == a + b;
      assert EncodeAll(a) + EncodeAll(init) + Encode(last) == EncodeAll(a) + (EncodeAll(init) + Encode(last));
    }
  }

  // ---- Meaning ----

  predicate Fits(basis: seq<byte>, c: Command) {
    c.Copy? ==> c.pos + c.len <= |basis|
  }

  /** What a command appends to the output, given the basis. */
  function Meaning(basis: seq<byte>, c: Command): seq<byte>
    requires Fits(basis, c)
  {
    match c
    case Literal(data) => data
    case Copy(pos, len) => basis[pos..pos + len]
  }

  predicate InBasis(basis: seq<byte>, cmds: seq<Command>) {
    forall i :: 0 <= i < |cmds| ==> Fits(basis, cmds[i])
  }

  /** The file that a list of commands describes. */
  function Apply(basis: seq<byte>, cmds: seq<Command>): seq<byte>
    requires InBasis(basis, cmds)
  {
    if cmds == [] then [] else Apply(basis, cmds[..|cmds| - 1]) + Meaning(basis, cmds[|cmds| - 1])
  }

  lemma ApplySnoc(basis: seq<byte>, cmds: seq<Command>, c: Command)
    requires InBasis(basis, cmds) && Fits(basis, c)
    ensures InBasis(basis, cmds + [c]) && Apply(basis, cmds + [c]) == Apply(basis, cmds) + Meaning(basis, c)
  {
    assert (cmds + [c])[..|cmds|] == cmds;
  }

  lemma {:induction false} ApplyAppend(basis: seq<byte>, a: seq<Command>, b: seq<Command>)
    requires InBasis(basis, a) && InBasis(basis, b)
    ensures InBasis(basis, a + b) && Apply(basis, a + b) == Apply(basis, a) + Apply(basis, b)
  {
    hide Meaning, Fits;
    if b == [] {
      assert a + b == a;
    } else {
      var init, last := b[..|b| - 1], b[|b| - 1];
      ApplyAppend(basis, a, init);
      ApplySnoc(basis, a + init, last);
      assert a + init + [last] == a + b;
      var x, y, z := Apply(basis, a), Apply(basis, init), Meaning(basis, last);
      assert x + y + z == x + (y + z);
    }
  }

  // ---- The codec ----

  /** The head of an emitted literal reads back through the opcode table as that literal. */
  lemma LiteralReadsBack(len: nat)
    requires 0 < len < INT_LIMIT
    ensures var head := LiteralHead(len);
            var ent := Prototab(head[0]);
            && ent.kind == KindLiteral && |head| == 1 + ent.len1 + ent.len2
            && (if ent.len1 == 0 then ent.immediate == len && |head| == 1
                else AsLong(Unsigned(head[1..])) == len && ent.len2 == 0)
  {
    var head := LiteralHead(len);
    if len > 64 {
      IntLenIsLeast(len, 4);
      Capacities();
      ReadBack(len, IntLen(len));
      assert head[1..] == BigEndian(len, IntLen(len));
    }
  }

  /** The opcode of an emitted copy stands for the widths that were chosen. */
  lemma CopyOpWidths(pos: nat, len: nat)
    ensures Prototab(CopyOp(pos, len)) == Prototype(KindCopy, 0, IntLen(pos), IntLen(len))
  {
  }

  /** The head of an emitted copy reads back through the opcode table as that copy. */
  lemma CopyReadsBack(pos: nat, len: nat)
    requires pos < Util.LONG_LIMIT && 0 < len < Util.LONG_LIMIT
    ensures var head := CopyHead(pos, len);
            var ent := Prototab(head[0]);
            && ent.kind == KindCopy && |head| == 1 + ent.len1 + ent.len2
            && ent.len1 == IntLen(pos) && ent.len2 == IntLen(len)
            && AsLong(Unsigned(head[1..1 + ent.len1])) == pos
            && AsLong(Unsigned(head[1 + ent.len1..])) == len
  {
    CopyOpWidths(pos, len);
    hide Prototab, CopyOp, BigEndian, Unsigned, Capacity;
    var head := CopyHead(pos, len);
    IntLenIsLeast(pos, 8);
    IntLenIsLeast(len, 8);
    ReadBack(pos, IntLen(pos));
    ReadBack(len, IntLen(len));
    assert head[1..1 + IntLen(pos)] == BigEndian(pos, IntLen(pos));
    assert head[1 + IntLen(pos)..] == BigEndian(len, IntLen(len));
  }

  // ---- Statistics ----

  datatype Stats = Stats(
    litCmds: nat, litBytes: nat, litCmdbytes: nat,
    copyCmds: nat, copyBytes: nat, copyCmdbytes: nat)
  {
    function AddLiteral(len: nat, cmdbytes: nat): Stats {
      this.(litCmds := litCmds + 1, litBytes := litBytes + len, litCmdbytes := litCmdbytes + cmdbytes)
    }

    function AddCopy(len: nat, cmdbytes: nat): Stats {
      this.(copyCmds := copyCmds + 1, copyBytes := copyBytes + len, copyCmdbytes := copyCmdbytes + cmdbytes)
    }
  }

  const NoStats := Stats(0, 0, 0, 0, 0, 0)

  /** The statistics that a list of commands leaves behind. */
  function Tally(cmds: seq<Command>): Stats
    requires AllEncodable(cmds)
  {
    if cmds == [] then NoStats
    else
      Counted(Tally(cmds[..|cmds| - 1]), cmds[|cmds| - 1])
  }

  /** What one command adds to the statistics. */
  function Counted(t: Stats, c: Command): Stats
    requires c.Encodable()
  {
    match c
    case Literal(data) => t.AddLiteral(|data|, |LiteralHead(|data|)|)
    case Copy(pos, len) => t.AddCopy(len, |CopyHead(pos, len)|)
  }

  lemma TallySnoc(cmds: seq<Command>, c: Command)
    requires AllEncodable(cmds) && c.Encodable()
    ensures AllEncodable(cmds + [c]) && Tally(cmds + [c]) == Counted(Tally(cmds), c)
  {
    hide Counted;
    assert (cmds + [c])[..|cmds|] == cmds;
  }

  /** How many bytes of the file a command stands for. */
  function DataLen(c: Command): nat {
    match c
    case Literal(data) => |data|
    case Copy(_, len) => len
  }

  function Extent(cmds: seq<Command>): nat {
    if cmds == [] then 0 else Extent(cmds[..|cmds| - 1]) + DataLen(cmds[|cmds| - 1])
  }

  lemma {:induction false} ExtentAppend(a: seq<Command>, b: seq<Command>)
    ensures Extent(a + b) == Extent(a) + Extent(b)
  {
    hide DataLen;
    if b == [] {
      assert a + b == a;
    } else {
      var init, last := b[..|b| - 1], b[|b| - 1];
      ExtentAppend(a, init);
      assert (a + b)[..|a + b| - 1] == a + init && (a + b)[|a + b| - 1] == last;
    }
  }

  lemma {:induction false} ApplyExtent(basis: seq<byte>, cmds: seq<Command>)
    requires InBasis(basis, cmds)
    ensures |Apply(basis, cmds)| == Extent(cmds)
  {
    if cmds != [] {
      var init, last := cmds[..|cmds| - 1], cmds[|cmds| - 1];
      ApplyExtent(basis, init);
      assert |Meaning(basis, last)| == DataLen(last);
    }
  }

  /** The counters account for every byte that the commands stand for, and of the delta itself. */
  lemma {:induction false} TallyExtent(cmds: seq<Command>)
    requires AllEncodable(cmds)
    ensures var t := Tally(cmds);
            && t.litBytes + t.copyBytes == Extent(cmds)
            && |DeltaBytes(cmds)| == 5 + t.litCmdbytes + t.litBytes + t.copyCmdbytes
  {
    if cmds != [] {
      var init, last := cmds[..|cmds| - 1], cmds[|cmds| - 1];
      TallyExtent(init);
      assert |Encode(last)| == (match last
        case Literal(data) => |LiteralHead(|data|)| + |data|
        case Copy(pos, len) => |CopyHead(pos, len)|);
      hide Encode, LiteralHead, CopyHead;
      assert |DeltaBytes(cmds)| == |DeltaBytes(init)| + |Encode(last)|;
    }
  }

  /** So they account for every byte of the file that the delta describes. */
  lemma TallyAccounts(basis: seq<byte>, cmds: seq<Command>)
    requires AllEncodable(cmds) && InBasis(basis, cmds)
    ensures var t := Tally(cmds);
            && t.litBytes + t.copyBytes == |Apply(basis, cmds)|
            && |DeltaBytes(cmds)| == 5 + t.litCmdbytes + t.litBytes + t.copyCmdbytes
  {
    TallyExtent(cmds);
    ApplyExtent(basis, cmds);
  }
}
