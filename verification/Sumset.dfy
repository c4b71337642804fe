/** Signatures in memory: the list of block sums and the index built over it. */
module Sumset {
  import opened Bytes
  import opened Checksum
  import opened Hashtable
  import opened Protocol
  import opened SigArgs

  // ---- The search that the index stands for ----

  /** The first block from i on with the given sums, by looking at each one. */
  function FirstFrom(sigs: seq<BlockSig>, weakSum: u32, strongSum: seq<byte>, i: nat): Option<nat>
    requires i <= |sigs|
    decreases |sigs| - i
  {
    if i == |sigs| then None
    else if SameSums(sigs[i], weakSum, strongSum) then Some(i)
    else FirstFrom(sigs, weakSum, strongSum, i + 1)
  }

  function First(sigs: seq<BlockSig>, weakSum: u32, strongSum: seq<byte>): Option<nat> {
    FirstFrom(sigs, weakSum, strongSum, 0)
  }

  lemma {:induction false} FirstFromIsLeast(sigs: seq<BlockSig>, weakSum: u32, strongSum: seq<byte>, i: nat)
    requires i <= |sigs|
    ensures var r := FirstFrom(sigs, weakSum, strongSum, i);
            match r
            case Some(f) =>
              && i <= f < |sigs| && SameSums(sigs[f], weakSum, strongSum)
              && (forall j :: i <= j < f ==> !SameSums(sigs[j], weakSum, strongSum))
            case None =>
              forall j :: i <= j < |sigs| ==> !SameSums(sigs[j], weakSum, strongSum)
    decreases |sigs| - i
  {
    if i < |sigs| && !SameSums(sigs[i], weakSum, strongSum) {
      FirstFromIsLeast(sigs, weakSum, strongSum, i + 1);
    }
  }

  /** The search is determined by being the least index that matches. */
  lemma FirstIs(sigs: seq<BlockSig>, weakSum: u32, strongSum: seq<byte>, f: nat)
    requires f < |sigs| && SameSums(sigs[f], weakSum, strongSum)
    requires forall j :: 0 <= j < f ==> !SameSums(sigs[j], weakSum, strongSum)
    ensures First(sigs, weakSum, strongSum) == Some(f)
  {
    FirstFromIsLeast(sigs, weakSum, strongSum, 0);
  }

  /** Block i is the first of those with its sums. */
  ghost predicate Leads(sigs: seq<BlockSig>, i: nat)
    requires i < |sigs|
  {
    First(sigs, sigs[i].weakSum, sigs[i].strongSum) == Some(i)
  }

  /** A signature as a value: what every lookup depends on. */
  datatype SigView = SigView(params: Params, strong: StrongSum, blocks: seq<BlockSig>) {

    ghost predicate Ok() {
      && params.Check() && StrongSumOk(strong)
      && forall i :: 0 <= i < |blocks| ==> |blocks[i].strongSum| == params.strongSumLen
    }

    /** Where given sums match: the offset of the first block that has them, or -1. */
    function Lookup(weakSum: u32, strongSum: seq<byte>): (pos: int)
      ensures pos == -1 || pos >= 0 || params.blockLen < 0
    {
      match First(blocks, weakSum, strongSum)
      case Some(i) => i * params.blockLen
      case None => -1
    }

    /** Where a window of data matches. */
    function Match(window: seq<byte>): (pos: int)
      ensures pos == -1 || pos >= 0 || params.blockLen < 0
    {
      Lookup(params.Weak(window), params.Strong(strong, window))
    }
  }

  // ---- The index against the search ----

  /** The entries a table must hold once the first n blocks have been offered to it. */
  ghost predicate IndexesFirst(keys: map<nat, u32>, sigs: seq<BlockSig>, n: nat)
    requires n <= |sigs|
  {
    && (forall e :: e in keys ==> e < n && keys[e] == NoZero(sigs[e].weakSum) && Leads(sigs, e))
    && (forall i :: 0 <= i < n && Leads(sigs, i) ==> i in keys)
  }

  /** No block below n in the table has the sums: then no block below n has them at all. */
  lemma NotIndexed(keys: map<nat, u32>, sigs: seq<BlockSig>, n: nat, weakSum: u32, strongSum: seq<byte>)
    requires n <= |sigs| && IndexesFirst(keys, sigs, n)
    requires forall e :: e in keys && keys[e] == NoZero(weakSum) ==> sigs[e].strongSum != strongSum
    ensures forall j :: 0 <= j < n ==> !SameSums(sigs[j], weakSum, strongSum)
  {
    forall j | 0 <= j < n
      ensures !SameSums(sigs[j], weakSum, strongSum)
    {
      if SameSums(sigs[j], weakSum, strongSum) {
        FirstFromIsLeast(sigs, sigs[j].weakSum, sigs[j].strongSum, 0);
        var f := First(sigs, sigs[j].weakSum, sigs[j].strongSum).value;
        FirstIs(sigs, sigs[f].weakSum, sigs[f].strongSum, f);
        assert Leads(sigs, f);
      }
    }
  }

  /** An indexed block with the sums is the first block with the sums. */
  lemma IndexedIsFirst(keys: map<nat, u32>, sigs: seq<BlockSig>, n: nat, weakSum: u32, strongSum: seq<byte>, e: nat)
    requires n <= |sigs| && IndexesFirst(keys, sigs, n)
    requires e in keys && keys[e] == NoZero(weakSum) && sigs[e].strongSum == strongSum
    ensures First(sigs, weakSum, strongSum) == Some(e)
  {
    assert Leads(sigs, e);
    FirstFromIsLeast(sigs, sigs[e].weakSum, sigs[e].strongSum, 0);
    FirstIs(sigs, weakSum, strongSum, e);
  }

  class Signature {
    var magic: int
    var blockLen: int
    var strongSumLen: int
    var blockSigs: seq<BlockSig>
    var hashtable: Hashtable?
    const strong: StrongSum

    ghost function View(): SigView
      reads this
    {
      SigView(Params(magic, blockLen, strongSumLen), strong, blockSigs)
    }

    /** The objects that make up the index, once it is built. */
    ghost function Index(): set<object>
      reads this`hashtable
    {
      if hashtable == null then {} else {hashtable, hashtable.kbloom, hashtable.etable, hashtable.ktable}
    }

    ghost predicate Valid()
      reads this
    {
      View().Ok()
    }

    /** The hash table has been built over all the blocks. */
    ghost predicate Indexed()
      reads this, Index()
    {
      && Valid() && hashtable != null && hashtable.Repr == Index()
      && hashtable.Valid() && IndexesFirst(hashtable.keys, blockSigs, |blockSigs|)
    }

    /** Storage for a signature that is yet to be set up. */
    constructor (strong: StrongSum)
      ensures this.strong == strong && blockSigs == [] && hashtable == null
    {
      this.strong := strong;
      magic, blockLen, strongSumLen := 0, 0, 0;
      blockSigs := [];
      hashtable := null;
    }

    method Init(magic: int, blockLen: int, strongLen: int) returns (result: Result)
      requires StrongSumOk(strong) && 0 <= blockLen < INT_LIMIT && strongLen >= -1
      modifies this
      ensures (result, if result == Done then Some(View().params) else None)
              == InitResult(magic, blockLen, strongLen)
      ensures result == Done ==> Valid() && blockSigs == [] && hashtable == null
      ensures result != Done ==> unchanged(this)
    {
      var p;
      result, p := Args(-1, magic, blockLen, strongLen);
      if result != Done {
        return;
      }
      this.magic := p.magic;
      this.blockLen := p.blockLen;
      this.strongSumLen := p.strongSumLen;
      blockSigs := [];
      hashtable := null;
    }

    /** Append a block read from a signature file. Rollsums are mixed on the way in. */
    method AddBlock(weakSum: u32, strongSum: seq<byte>)
      requires Valid() && |strongSum| == strongSumLen
      modifies this`blockSigs
      ensures Valid()
      ensures blockSigs == old(blockSigs)
                            + [BlockSig(Mixed(View().params.WeakKind(), weakSum), strongSum)]
    {
      hide Mix32;
      var weak := weakSum;
      if Params(magic, blockLen, strongSumLen).WeakKind() == RollsumKind {
        weak := Mix32(weakSum);
      }
      blockSigs := blockSigs + [BlockSig(weak, strongSum)];
    }

    /** Index the first block of every kind; later blocks with the same sums are left out. */
    method BuildHashTable()
      requires Valid() && |blockSigs| * 10 < INT_LIMIT
      modifies this`hashtable
      ensures Indexed() && fresh(Index())
    {
      hide Layout.Ok, First, SameSums, SigView.Ok;
      var t := new Hashtable(|blockSigs|);
      var i := 0;
      while i < |blockSigs|
        modifies t.Repr
        invariant i <= |blockSigs|
        invariant t.Repr == {t, t.kbloom, t.etable, t.ktable} && fresh(t.Repr) && t.Valid()
        invariant IndexesFirst(t.keys, blockSigs, i) && t.count <= i
      {
        var b := blockSigs[i];
        var m := new BlockMatch.OfSums(b.weakSum, b.strongSum);
        var found := t.Find(m, blockSigs);
        if found.None? {
          NotIndexed(t.keys, blockSigs, i, b.weakSum, b.strongSum);
          FirstIs(blockSigs, b.weakSum, b.strongSum, i);
          var added := t.Add(i, b.weakSum);
          assert added;
        } else {
          IndexedIsFirst(t.keys, blockSigs, i, b.weakSum, b.strongSum, found.value);
        }
        i := i + 1;
      }
      hashtable := t;
    }

    /** Look sums up: the table agrees with the search through the list, for any weak sum. */
    method FindMatch(weakSum: u32, buf: seq<byte>) returns (pos: int)
      requires Indexed()
      ensures pos == View().Lookup(weakSum, View().params.Strong(strong, buf))
    {
      var p := Params(magic, blockLen, strongSumLen);
      var m := new BlockMatch.OfData(weakSum, buf, b => p.Strong(strong, b));
      var found := hashtable.Find(m, blockSigs);
      match found {
        case Some(i) =>
          IndexedIsFirst(hashtable.keys, blockSigs, |blockSigs|, weakSum, p.Strong(strong, buf), i);
          pos := i * blockLen;
        case None =>
          NotIndexed(hashtable.keys, blockSigs, |blockSigs|, weakSum, p.Strong(strong, buf));
          FirstFromIsLeast(blockSigs, weakSum, p.Strong(strong, buf), 0);
          pos := -1;
      }
    }
  }

  /** What setting up a signature answers when the size of the old file is unknown. */
  function InitResult(magic: int, blockLen: int, strongLen: int): (Result, Option<Params>) {
    var m := if magic == 0 then RK_BLAKE2_SIG_MAGIC else magic;
    var most := SumLength(Params(m, 0, 0).StrongKind());
    if !KnownMagic(m) then (BadMagic, None)
    else if strongLen > most then (ParamError, None)
    else
      (Done, Some(Params(m, if blockLen == 0 then DEFAULT_BLOCK_LEN else blockLen,
                         if strongLen == 0 then most
                         else if strongLen == -1 then DEFAULT_MIN_STRONG_LEN else strongLen)))
  }
}
