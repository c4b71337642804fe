/**
 The open-addressing hash table, instantiated as the signature index uses it: entries are the
 numbers of block signatures, hashes are weak sums without a second mixing.
 */
module Hashtable {
  import opened Bytes
  import opened Congruence
  import opened Probing

  /** A block signature: its weak sum as compared, and its truncated strong sum. */
  datatype BlockSig = BlockSig(weakSum: u32, strongSum: seq<byte>)

  /** Hashes are never zero: zero marks an empty bucket. */
  function NoZero(h: u32): (k: u32)
    ensures k != 0
    ensures h != 0 ==> k == h
  {
    if h != 0 then h else 0xffff_ffff
  }

  /** The two sums that lookups compare: NoZero hides one difference, between 0 and 0xffffffff. */
  predicate SameSums(b: BlockSig, weakSum: u32, strongSum: seq<byte>) {
    NoZero(b.weakSum) == NoZero(weakSum) && b.strongSum == strongSum
  }

  /** What a lookup compares with. The strong sum may not have been computed yet. */
  class BlockMatch {
    const weakSum: u32
    var strongSum: seq<byte>
    /** The data to sum, until the first comparison needs it. */
    var buf: Option<seq<byte>>
    const sum: seq<byte> -> seq<byte>

    /** The strong sum this match stands for, computed or not. */
    ghost function Target(): seq<byte>
      reads this
    {
      if buf.Some? then sum(buf.value) else strongSum
    }

    /** A match whose strong sum is known. */
    constructor OfSums(weakSum: u32, strongSum: seq<byte>)
      ensures this.weakSum == weakSum && Target() == strongSum
    {
      this.weakSum := weakSum;
      this.strongSum := strongSum;
      this.buf := None;
      this.sum := b => b;
    }

    /** A match whose strong sum is still to be calculated from the data. */
    constructor OfData(weakSum: u32, buf: seq<byte>, sum: seq<byte> -> seq<byte>)
      ensures this.weakSum == weakSum && Target() == sum(buf)
    {
      this.weakSum := weakSum;
      this.strongSum := [];
      this.buf := Some(buf);
      this.sum := sum;
    }

    /** Whether the strong sums differ, calculating this one on first use. */
    method Cmp(b: BlockSig) returns (differ: bool)
      modifies this
      ensures Target() == old(Target())
      ensures differ <==> Target() != b.strongSum
    {
      if buf.Some? {
        strongSum := sum(buf.value);
        buf := None;
      }
      differ := strongSum != b.strongSum;
    }
  }

  // ---- The one-hash bloom filter ----

  function Bit(x: bv8, i: nat): bool
    requires i < 8
  {
    (x >> i) & 1 == 1
  }

  function SetBit(x: bv8, i: nat): bv8
    requires i < 8
  {
    x | (1 << i)
  }

  lemma SetThenGet(x: bv8, i: nat, j: nat)
    requires i < 8 && j < 8
    ensures Bit(SetBit(x, i), j) == (i == j || Bit(x, j))
  {
  }

  function ShiftRight(h: nat, n: nat): nat {
    if n == 0 then h else ShiftRight(h / 2, n - 1)
  }

  /** The upper bits of a hash, all that the filter looks at. */
  function Upper(h: u32, bits: nat): (i: nat)
    requires bits <= 32
    ensures i < TwoTo(bits)
  {
    TwoToThirty();
    ShiftBound(h, 32 - bits, bits);
    ShiftRight(h, 32 - bits)
  }

  /** They are what division leaves. */
  lemma {:induction false} ShiftDivides(h: nat, n: nat)
    ensures ShiftRight(h, n) == h / TwoTo(n)
  {
    if n > 0 {
      ShiftDivides(h / 2, n - 1);
      DivideTwice(h, 2, TwoTo(n - 1));
    }
  }

  lemma UpperIs(h: u32, bits: nat)
    requires bits <= 32
    ensures Upper(h, bits) == h / TwoTo(32 - bits)
  {
    ShiftDivides(h, 32 - bits);
  }

  lemma {:induction false} ShiftBound(h: nat, n: nat, bits: nat)
    requires h < TwoTo(bits + n)
    ensures ShiftRight(h, n) < TwoTo(bits)
  {
    if n > 0 {
      ShiftBound(h / 2, n - 1, bits);
    }
  }

  // ---- The layout of a table, as a value ----

  /**
   The contents of the arrays of a table (the filter as the set of its bits), and what its entries
   are: their key hashes, the probe steps at which they sit, and the buckets they occupy.
   */
  datatype Layout = Layout(
    bits: nat,
    ktable: seq<u32>,
    etable: seq<nat>,
    kbloom: set<nat>,
    keys: map<nat, u32>,
    steps: map<nat, nat>,
    used: set<nat>)
  {
    ghost predicate Shape() {
      && 1 <= bits <= 32
      && |ktable| == |etable| == TwoTo(bits)
    }

    predicate Blooms(h: u32)
      requires Shape()
    {
      Upper(h, bits) in kbloom
    }

    /** The key in the bucket probed at step s. */
    function KeyAt(h: nat, s: nat): u32
      requires Shape()
    {
      ktable[At(h, s, bits)]
    }

    function EntryAt(h: nat, s: nat): nat
      requires Shape()
    {
      etable[At(h, s, bits)]
    }

    /** Entry e sits at its probe step, and no bucket before that step is empty. */
    ghost predicate Seated(e: nat)
      requires Shape() && e in keys
    {
      && keys[e] != 0 && e in steps
      && KeyAt(keys[e], steps[e]) == keys[e]
      && EntryAt(keys[e], steps[e]) == e
      && Occupied(keys[e], steps[e])
      && Blooms(keys[e])
    }

    /** Bucket i holds a known entry under its own key. */
    ghost predicate Known(i: nat)
      requires Shape() && i < |ktable|
    {
      ktable[i] != 0 ==> etable[i] in keys && keys[etable[i]] == ktable[i]
    }

    ghost predicate Ok() {
      && Shape()
      && |keys| == |used| < |ktable|
      && (forall i :: 0 <= i < |ktable| ==> (i in used <==> ktable[i] != 0))
      && (forall i :: i in used ==> i < |ktable|)
      && (forall e :: e in keys ==> Seated(e))
      && (forall i :: 0 <= i < |ktable| ==> Known(i))
    }

    /** An empty table is in order. */
    lemma EmptyOk()
      requires Shape() && keys == map[] && used == {} && forall i :: 0 <= i < |ktable| ==> ktable[i] == 0
      ensures Ok()
    {
    }

    /** Every bucket probed so far is occupied, so there were at most `|used|` of them. */
    lemma ProbesAreFew(h: nat, s: nat)
      requires Ok() && s <= |ktable| && Occupied(h, s)
      ensures s <= |used|
    {
      VisitedCount(h, s, bits);
      forall i | i in Visited(h, s, bits)
        ensures i in used
      {
        var t :| 0 <= t < s && i == At(h, t, bits);
        assert KeyAt(h, t) != 0;
      }
      SubsetSize(Visited(h, s, bits), used);
    }

    /** The first s probes for h all meet occupied buckets. */
    ghost predicate Occupied(h: nat, s: nat)
      requires Shape()
    {
      forall t :: 0 <= t < s ==> KeyAt(h, t) != 0
    }

    /** One more occupied bucket. There is always an empty one left to stop at. */
    lemma Advance(h: nat, s: nat)
      requires Ok() && s < |ktable| && Occupied(h, s) && KeyAt(h, s) != 0
      ensures Occupied(h, s + 1) && s + 1 <= |used|
      ensures At(h, s + 1, bits) == Mask(At(h, s, bits) + (s + 1), bits)
    {
      hide Seated, Known;
      ProbesAreFew(h, s + 1);
    }

    lemma Knows(i: nat)
      requires Ok() && i < |ktable| && ktable[i] != 0
      ensures etable[i] in keys && keys[etable[i]] == ktable[i]
    {
      assert Known(i);
    }

    lemma BloomIsSound(h: u32)
      requires Ok() && Upper(h, bits) !in kbloom
      ensures h !in keys.Values
    {
      forall e | e in keys
        ensures keys[e] != h
      {
        assert Seated(e);
      }
    }

    /** The layout after entry e is put into the empty bucket found at step s. */
    ghost function Put(e: nat, he: u32, s: nat): Layout
      requires Shape()
    {
      var i := At(he, s, bits);
      Layout(bits, ktable[i := he], etable[i := e], kbloom + {Upper(he, bits)},
             keys[e := he], steps[e := s], used + {i})
    }

    /** Entry e may go where the probe sequence of its hash first meets an empty bucket. */
    ghost predicate Puttable(e: nat, he: u32, s: nat) {
      Ok() && e !in keys && he != 0 && KeyAt(he, s) == 0 && Occupied(he, s)
    }

    lemma PutSeats(e: nat, he: u32, s: nat, d: nat)
      requires Puttable(e, he, s) && (d == e || d in keys)
      ensures Put(e, he, s).Seated(d)
    {
      hide Mask, TwoTo, At, Upper, Layout.Known;
      var next := Put(e, he, s);
      assert forall h, t :: next.KeyAt(h, t) == if At(h, t, bits) == At(he, s, bits) then he else KeyAt(h, t);
      if d != e {
        assert Seated(d);
      }
    }

    lemma PutKnows(e: nat, he: u32, s: nat, j: nat)
      requires Puttable(e, he, s) && j < |ktable|
      ensures Put(e, he, s).Known(j)
    {
      assert Known(j);
    }

    lemma PutOk(e: nat, he: u32, s: nat)
      requires Puttable(e, he, s) && |used| + 1 < |ktable|
      ensures Put(e, he, s).Ok()
    {
      hide Seated, Known, Mask, TwoTo, At, Upper;
      var next := Put(e, he, s);
      forall d | d in next.keys
        ensures next.Seated(d)
      {
        PutSeats(e, he, s, d);
      }
      forall j: nat | j < |ktable|
        ensures next.Known(j)
      {
        PutKnows(e, he, s, j);
      }
    }

    /** None of the first s probes for h reaches an entry that a lookup of `target` would accept. */
    ghost predicate Rejected(h: u32, target: seq<byte>, s: nat, sigs: seq<BlockSig>)
      requires Shape()
    {
      forall t :: 0 <= t < s ==> Rejects(h, target, At(h, t, bits), sigs)
    }

    ghost predicate Rejects(h: u32, target: seq<byte>, i: nat, sigs: seq<BlockSig>)
      requires Shape() && i < |ktable|
    {
      ktable[i] == h ==> etable[i] < |sigs| && sigs[etable[i]].strongSum != target
    }

    /** Reaching an empty bucket proves that there is nothing to find. */
    lemma NothingBeyond(h: u32, target: seq<byte>, s: nat, sigs: seq<BlockSig>)
      requires Ok() && (forall e :: e in keys ==> e < |sigs|)
      requires Rejected(h, target, s, sigs) && KeyAt(h, s) == 0
      ensures forall e :: e in keys && keys[e] == h ==> sigs[e].strongSum != target
    {
      forall e | e in keys && keys[e] == h
        ensures sigs[e].strongSum != target
      {
        assert Seated(e);
        assert steps[e] < s;
        assert Rejects(h, target, At(h, steps[e], bits), sigs);
      }
    }
  }

  // ---- The table ----

  const LOADFACTOR_NUM := 7
  const LOADFACTOR_DEN := 10

  class Hashtable {
    const size: nat
    const bits: nat
    var count: nat
    const kbloom: array<bv8>
    const etable: array<nat>
    const ktable: array<u32>

    /** The entries added, with their key hashes and the probe steps at which they sit. */
    ghost var keys: map<nat, u32>
    ghost var steps: map<nat, nat>
    /** The buckets that hold an entry. */
    ghost var used: set<nat>

    ghost const Repr: set<object>

    ghost function View(): Layout
      reads this, kbloom, etable, ktable
    {
      Layout(bits, ktable[..], etable[..], Filter(), keys, steps, used)
    }

    /** The bits set in the bloom filter. */
    ghost function Filter(): set<nat>
      reads kbloom
    {
      set i: nat | i < 8 * kbloom.Length && Bit(kbloom[i / 8], i % 8)
    }

    ghost predicate Valid()
      reads this, kbloom, etable, ktable
    {
      && Repr == {this, kbloom, etable, ktable}
      && View().Ok() && ktable.Length == size && count == |used|
      && kbloom.Length == (size + 7) / 8
    }

    /** The next power of two that keeps the load of `want` entries under 7/10. */
    static method Sizes(want: nat) returns (size2: nat, bits2: nat)
      requires want * LOADFACTOR_DEN < 0x8000_0000
      ensures 1 <= bits2 <= 31 && size2 == TwoTo(bits2) && LOADFACTOR_DEN * want < LOADFACTOR_NUM * size2
      ensures bits2 > 1 ==> LOADFACTOR_NUM * TwoTo(bits2 - 1) <= LOADFACTOR_DEN * want
    {
      var target := 1 + want * LOADFACTOR_DEN / LOADFACTOR_NUM;
      size2, bits2 := 2, 1;
      TwoToThirty();
      while size2 < target
        invariant 1 <= bits2 <= 30 && size2 == TwoTo(bits2)
        invariant bits2 > 1 ==> TwoTo(bits2 - 1) < target
        decreases target - size2
      {
        Monotone(bits2, 30);
        size2 := size2 * 2;
        bits2 := bits2 + 1;
      }
    }

    /** A table for `want` entries: the next power of two that keeps the load under 7/10. */
    constructor (want: nat)
      requires want * LOADFACTOR_DEN < 0x8000_0000
      ensures Valid() && fresh(Repr)
      ensures keys == map[] && count == 0
      ensures LOADFACTOR_DEN * want < LOADFACTOR_NUM * size
      ensures size > 2 ==> LOADFACTOR_NUM * size <= 2 * LOADFACTOR_DEN * want
    {
      var size2, bits2 := Sizes(want);
      size, bits := size2, bits2;
      count := 0;
      var k := new u32[size2](_ => 0);
      var e := new nat[size2](_ => 0);
      var b := new bv8[(size2 + 7) / 8](_ => 0);
      ktable, etable, kbloom := k, e, b;
      keys, steps, used := map[], map[], {};
      Repr := {this, b, e, k};
      new;
      View().EmptyOk();
    }

    method SetBloom(h: u32)
      requires 1 <= bits <= 32 && TwoTo(bits) <= 8 * kbloom.Length
      modifies kbloom
      ensures Filter() == old(Filter()) + {Upper(h, bits)}
    {
      var i := Upper(h, bits);
      kbloom[i / 8] := SetBit(kbloom[i / 8], i % 8);
      forall j: nat | j < 8 * kbloom.Length
        ensures Bit(kbloom[j / 8], j % 8) == (i == j || old(Bit(kbloom[j / 8], j % 8)))
      {
        SetThenGet(old(kbloom[i / 8]), i % 8, j % 8);
      }
    }

    method GetBloom(h: u32) returns (b: bool)
      requires 1 <= bits <= 32 && TwoTo(bits) <= 8 * kbloom.Length
      ensures b <==> Upper(h, bits) in Filter()
    {
      var i := Upper(h, bits);
      b := Bit(kbloom[i / 8], i % 8);
    }

    /** The first empty bucket on the probe sequence of a hash. */
    method Probe(h: u32) returns (i: nat, ghost step: nat)
      requires Valid()
      ensures View().Occupied(h, step) && i == At(h, step, bits) && ktable[i] == 0
    {
      hide Layout.Seated, Layout.Known, Mask, TwoTo, Upper;
      var s: nat := 0;
      i := Mask(h, bits);
      while ktable[i] != 0
        invariant s <= count && i == At(h, s, bits)
        invariant View().Occupied(h, s)
        decreases size - s
      {
        View().Advance(h, s);
        s := s + 1;
        i := Mask(i + s, bits);
      }
      step := s;
    }

    /** Add an entry in the first empty bucket of its probe sequence. Refused when one bucket is left. */
    method Add(e: nat, weakSum: u32) returns (added: bool)
      requires Valid() && e !in keys
      modifies this, kbloom, etable, ktable
      ensures Valid()
      ensures added <==> old(count) + 1 < size
      ensures keys == if added then old(keys)[e := NoZero(weakSum)] else old(keys)
      ensures count == if added then old(count) + 1 else old(count)
    {
      hide Layout.Seated, Layout.Known, Mask, TwoTo, Upper, At, Layout.Occupied, Filter;
      var he := NoZero(weakSum);
      if count + 1 == size {
        return false;
      }
      var i;
      ghost var s;
      i, s := Probe(he);
      ghost var before := View();
      before.PutOk(e, he, s);
      SetBloom(he);
      count := count + 1;
      ktable[i] := he;
      etable[i] := e;
      keys, steps, used := keys[e := he], steps[e := s], used + {i};
      assert View() == before.Put(e, he, s) by {
        assert ktable[..] == before.ktable[i := he];
        assert etable[..] == before.etable[i := e];
      }
      added := true;
    }

    /** The first entry on the probe sequence that has the key and that the match accepts. */
    method Find(m: BlockMatch, sigs: seq<BlockSig>) returns (r: Option<nat>)
      requires Valid() && (forall e :: e in keys ==> e < |sigs|)
      modifies m
      ensures m.Target() == old(m.Target())
      ensures r.Some? ==> r.value in keys && keys[r.value] == NoZero(m.weakSum)
                          && sigs[r.value].strongSum == m.Target()
      ensures r.None? ==> forall e :: e in keys && keys[e] == NoZero(m.weakSum) ==> sigs[e].strongSum != m.Target()
    {
      hide Layout.Seated, Layout.Known, Mask, TwoTo, Upper;
      var hm := NoZero(m.weakSum);
      ghost var view, target := View(), m.Target();
      var bloom := GetBloom(hm);
      if !bloom {
        view.BloomIsSound(hm);
        return None;
      }
      var i: nat, s: nat := Mask(hm, bits), 0;
      while ktable[i] != 0
        invariant m.Target() == target && View() == view
        invariant s <= count && i == At(hm, s, bits)
        invariant view.Occupied(hm, s) && view.Rejected(hm, target, s, sigs)
        decreases size - s
      {
        view.Knows(i);
        if hm == ktable[i] {
          var differ := m.Cmp(sigs[etable[i]]);
          if !differ {
            return Some(etable[i]);
          }
        }
        view.Advance(hm, s);
        s := s + 1;
        i := Mask(i + s, bits);
      }
      view.NothingBeyond(hm, target, s, sigs);
      return None;
    }
  }
}
