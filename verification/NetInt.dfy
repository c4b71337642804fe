/** Network integers: big-endian, one to eight bytes. */
module NetInt {
  import opened Bytes

  /** The low len bytes of val, most significant first. */
  function BigEndian(val: int, len: nat): (s: seq<byte>)
    ensures |s| == len
    decreases len
  {
    if len == 0 then [] else BigEndian(val / 256, len - 1) + [val % 256]
  }

  /** The unsigned value of a big-endian string. */
  function Unsigned(s: seq<byte>): nat {
    if s == [] then 0 else Unsigned(s[..|s| - 1]) * 256 + s[|s| - 1]
  }

  /** How an eight-byte value reads as `rs_long_t`. */
  function AsLong(v: nat): int {
    if v < 0x8000_0000_0000_0000 then v else v - 0x1_0000_0000_0000_0000
  }

  /** How a four-byte value reads as `int`. */
  function AsInt(v: nat): int {
    if v < 0x8000_0000 then v else v - 0x1_0000_0000
  }

  function Capacity(len: nat): (c: nat)
    ensures c > 0
  {
    if len == 0 then 1 else 256 * Capacity(len - 1)
  }

  lemma {:induction false} UnsignedBound(s: seq<byte>)
    ensures Unsigned(s) < Capacity(|s|)
  {
    if s != [] {
      UnsignedBound(s[..|s| - 1]);
    }
  }

  /** Reading back what was written gives the value, if it fits. */
  lemma {:induction false} ReadBack(val: nat, len: nat)
    requires val < Capacity(len)
    ensures Unsigned(BigEndian(val, len)) == val
  {
    if len > 0 {
      ReadBack(val / 256, len - 1);
      var s := BigEndian(val, len);
      assert s[..|s| - 1] == BigEndian(val / 256, len - 1);
    }
  }

  /** The bytes of a value that is read back are the bytes that were read. */
  lemma {:induction false} WriteBack(s: seq<byte>)
    ensures BigEndian(Unsigned(s), |s|) == s
  {
    if s != [] {
      WriteBack(s[..|s| - 1]);
      assert s == s[..|s| - 1] + [s[|s| - 1]];
    }
  }

  /** The width chosen for a value. */
  function IntLen(val: nat): nat {
    if val <= 0xff then 1
    else if val <= 0xffff then 2
    else if val <= 0xffff_ffff then 4
    else 8
  }

  lemma Capacities()
    ensures Capacity(1) == 0x100 && Capacity(2) == 0x1_0000 && Capacity(4) == 0x1_0000_0000
    ensures Capacity(8) == 0x1_0000_0000_0000_0000
  {
    assert Capacity(4) == 256 * (256 * (256 * (256 * Capacity(0))));
    assert Capacity(8) == 256 * (256 * (256 * (256 * Capacity(4))));
  }

  /** It is the least of the four widths that holds the value. */
  lemma IntLenIsLeast(val: nat, len: nat)
    requires val < 0x8000_0000_0000_0000 && len in {1, 2, 4, 8}
    ensures IntLen(val) in {1, 2, 4, 8} && val < Capacity(IntLen(val))
    ensures val < Capacity(len) ==> IntLen(val) <= len
  {
    Capacities();
  }

  /** Filling the bytes of an integer from the last one down. */
  method Fill(val0: int, len: nat) returns (s: seq<byte>)
    ensures s == BigEndian(val0, len)
  {
    var val, i: nat := val0, len;
    s := [];
    while i > 0
      invariant i <= len
      invariant BigEndian(val, i) + s == BigEndian(val0, len)
    {
      i := i - 1;
      assert BigEndian(val, i + 1) + s == BigEndian(val / 256, i) + ([val % 256] + s);
      s := [val % 256] + s;
      val := val / 256;
    }
  }

  /** Accumulating an integer from its bytes. */
  method Accumulate(s: seq<byte>) returns (val: int)
    requires |s| <= 8
    ensures val == AsLong(Unsigned(s))
  {
    var i, v: nat := 0, 0;
    while i < |s|
      invariant i <= |s| && v == Unsigned(s[..i])
    {
      assert s[..i + 1][..i] == s[..i];
      v := v * 256 + s[i];
      i := i + 1;
    }
    assert s[..i] == s;
    val := if v < 0x8000_0000_0000_0000 then v else v - 0x1_0000_0000_0000_0000;
  }
}
