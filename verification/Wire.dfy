/** The encodings byte by byte: integers, opcodes, and the heads of commands. */
module Wire {
  import opened Bytes
  import opened Command
  import opened Congruence
  import opened NetInt
  import opened Protocol
  import Util

  // ---- Integers ----

  lemma NextPlace(k: nat)
    ensures TwoTo(8 * (k + 1)) == 256 * TwoTo(8 * k)
  {
    TwoToAdd(8, 8 * k);
    assert TwoTo(8) == 256;
  }

  /** Byte i of a network integer is the digit of its place in base 256, the highest place first. */
  lemma {:induction false} BigEndianDigit(val: int, len: nat, i: nat)
    requires i < len
    ensures BigEndian(val, len)[i] == val / TwoTo(8 * (len - 1 - i)) % 256
    decreases len
  {
    assert BigEndian(val, len) == BigEndian(val / 256, len - 1) + [val % 256];
    if i < len - 1 {
      BigEndianDigit(val / 256, len - 1, i);
      hide TwoTo;
      NextPlace(len - 2 - i);
      DivideTwice(val, 256, TwoTo(8 * (len - 2 - i)));
    }
  }

  /** Eight bytes read as the number of their residue class that `rs_long_t` has, and four as that of `int`. */
  lemma SignedValues(v: nat)
    ensures v < 0x1_0000_0000_0000_0000 ==>
              -0x8000_0000_0000_0000 <= AsLong(v) < 0x8000_0000_0000_0000
              && (AsLong(v) - v) % 0x1_0000_0000_0000_0000 == 0
    ensures v < 0x1_0000_0000 ==>
              -0x8000_0000 <= AsInt(v) < 0x8000_0000 && (AsInt(v) - v) % 0x1_0000_0000 == 0
  {
  }

  // ---- The opcode table ----

  /** The widths of the lengths of literals, and those of the offsets and lengths of copies, by opcode. */
  const LiteralWidths: seq<nat> := [1, 2, 4, 8]
  const CopyWidths: seq<(nat, nat)> := [
    (1, 1), (1, 2), (1, 4), (1, 8),
    (2, 1), (2, 2), (2, 4), (2, 8),
    (4, 1), (4, 2), (4, 4), (4, 8),
    (8, 1), (8, 2), (8, 4), (8, 8)]

  /** The table, entry by entry. */
  lemma TableEntries(op: byte)
    ensures op == 0 ==> Prototab(op) == Prototype(KindEnd, 0, 0, 0)
    ensures 1 <= op <= 0x40 ==> Prototab(op) == Prototype(KindLiteral, op, 0, 0)
    ensures 0x41 <= op <= 0x44 ==> Prototab(op) == Prototype(KindLiteral, 0, LiteralWidths[op - 0x41], 0)
    ensures 0x45 <= op <= 0x54 ==>
              Prototab(op) == Prototype(KindCopy, 0, CopyWidths[op - 0x45].0, CopyWidths[op - 0x45].1)
    ensures op >= 0x55 ==> Prototab(op) == Prototype(KindReserved, op, 0, 0)
  {
  }

  // ---- The heads of commands ----

  lemma MagicBytes()
    ensures Magic == [0x72, 0x73, 0x02, 0x36]
  {
    var v := DELTA_MAGIC;
    assert BigEndian(v, 4) == BigEndian(v / 256, 3) + [v % 256];
    assert BigEndian(v / 256, 3) == BigEndian(v / 256 / 256, 2) + [v / 256 % 256];
    assert BigEndian(v / 256 / 256, 2) == BigEndian(v / 256 / 256 / 256, 1) + [v / 256 / 256 % 256];
  }

  /** A literal's length is in its opcode up to 64 bytes, and else follows in as few bytes as the table offers. */
  lemma LiteralHeadIs(len: nat)
    requires 0 < len < INT_LIMIT
    ensures LiteralHead(len)
            == if len <= 0x40 then [len]
               else if len <= 0xff then [0x41] + BigEndian(len, 1)
               else if len <= 0xffff then [0x42] + BigEndian(len, 2)
               else [0x43] + BigEndian(len, 4)
  {
    hide BigEndian;
    if len <= 0x40 {
      assert BigEndian(len, 0) == [];
    }
  }

  /** No opcode of the table has a shorter head for a literal. */
  lemma LiteralHeadIsShortest(len: nat, op: byte)
    requires 0 < len < INT_LIMIT && Prototab(op).kind == KindLiteral
    requires if Prototab(op).len1 == 0 then Prototab(op).immediate == len else len < Capacity(Prototab(op).len1)
    ensures |LiteralHead(len)| <= 1 + Prototab(op).len1
  {
    TableEntries(op);
    LiteralHeadIs(len);
    Capacities();
  }

  /** The opcode of a copy is the one that the table has for the widths of its offset and its length. */
  lemma CopyHeadIs(pos: nat, len: nat)
    ensures 0x45 <= CopyHead(pos, len)[0] <= 0x54
    ensures var (w1, w2) := CopyWidths[CopyHead(pos, len)[0] - 0x45];
            && CopyHead(pos, len)[1..] == BigEndian(pos, w1) + BigEndian(len, w2)
            && w1 == (if pos <= 0xff then 1 else if pos <= 0xffff then 2 else if pos <= 0xffff_ffff then 4 else 8)
            && w2 == (if len <= 0xff then 1 else if len <= 0xffff then 2 else if len <= 0xffff_ffff then 4 else 8)
  {
    hide BigEndian;
    assert CopyHead(pos, len)[1..] == BigEndian(pos, IntLen(pos)) + BigEndian(len, IntLen(len));
  }

  /** No opcode of the table has a shorter head for a copy. */
  lemma CopyHeadIsShortest(pos: nat, len: nat, op: byte)
    requires pos < Util.LONG_LIMIT && len < Util.LONG_LIMIT && Prototab(op).kind == KindCopy
    requires pos < Capacity(Prototab(op).len1) && len < Capacity(Prototab(op).len2)
    ensures |CopyHead(pos, len)| <= 1 + Prototab(op).len1 + Prototab(op).len2
  {
    hide BigEndian;
    TableEntries(op);
    IntLenIsLeast(pos, Prototab(op).len1);
    IntLenIsLeast(len, Prototab(op).len2);
  }

  // ---- The statistics ----

  /** The commands of one kind, in order. */
  function OfKind(cmds: seq<Command>, literal: bool): (some: seq<Command>)
  {
    if cmds == [] then []
    else
      var last := cmds[|cmds| - 1];
      OfKind(cmds[..|cmds| - 1], literal) + if last.Literal? == literal then [last] else []
  }

  /** Counting on the go counts the commands of each kind, their data, and what else they take in the delta. */
  lemma {:induction false} TallyIs(cmds: seq<Command>)
    requires AllEncodable(cmds)
    ensures var t, literals, copies := Tally(cmds), OfKind(cmds, true), OfKind(cmds, false);
            && AllEncodable(literals) && AllEncodable(copies)
            && t.litCmds == |literals| && t.copyCmds == |copies|
            && t.litBytes == Extent(literals) && t.copyBytes == Extent(copies)
            && t.litCmdbytes == |EncodeAll(literals)| - t.litBytes && t.copyCmdbytes == |EncodeAll(copies)|
  {
    hide LiteralHead, CopyHead, Encode;
    if cmds != [] {
      var init, last := cmds[..|cmds| - 1], cmds[|cmds| - 1];
      TallyIs(init);
      var some := OfKind(init, last.Literal?);
      EncodeSnoc(some, last);
      assert (some + [last])[..|some|] == some;
      assert OfKind(cmds, last.Literal?) == some + [last];
      assert OfKind(cmds, !last.Literal?) == OfKind(init, !last.Literal?);
      EncodedLength(last);
    }
  }

  lemma EncodedLength(c: Command)
    requires c.Encodable()
    ensures |Encode(c)| == if c.Literal? then |LiteralHead(|c.data|)| + |c.data| else |CopyHead(c.pos, c.len)|
  {
    hide LiteralHead, CopyHead;
  }
}
