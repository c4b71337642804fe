/** The delta of a file against its own signature. */
module SelfDelta {
  import opened Blocks
  import opened Bytes
  import opened Checksum
  import opened Command
  import opened Congruence
  import opened Greedy
  import opened Hashtable
  import opened Protocol
  import opened Sumset

  /** No two blocks have the same sums, as the index compares them. */
  ghost predicate Distinct(sigs: seq<BlockSig>) {
    forall i, j :: 0 <= i < j < |sigs| ==> !SameSums(sigs[i], sigs[j].weakSum, sigs[j].strongSum)
  }

  lemma DistinctLead(sigs: seq<BlockSig>)
    ensures Distinct(sigs) <==> forall i :: 0 <= i < |sigs| ==> Leads(sigs, i)
  {
    forall i | 0 <= i < |sigs|
      ensures Leads(sigs, i) <==> forall h :: 0 <= h < i ==> !SameSums(sigs[h], sigs[i].weakSum, sigs[i].strongSum)
    {
      FirstFromIsLeast(sigs, sigs[i].weakSum, sigs[i].strongSum, 0);
    }
  }

  /** The window where a block starts is that block. */
  lemma BlockWindow(file: seq<byte>, b: nat, k: nat)
    requires b > 0 && k < |Cut(file, b)|
    ensures k * b < |file| && Window(file, k * b, b) == Cut(file, b)[k]
    ensures k + 1 == |Cut(file, b)| <==> |file| <= k * b + b
  {
    CutAt(file, b, k);
    CutCount(file, b);
    var n := |Cut(file, b)|;
    assert (k + 1) * b == k * b + b;
    if k + 1 < n {
      MulMono(k + 1, n - 1, b);
    }
  }

  /** What is found where block k starts: the first block with its sums. */
  lemma FoundAt(p: Params, strong: StrongSum, file: seq<byte>, k: nat)
    requires p.blockLen > 0 && k < |Cut(file, p.blockLen)|
    ensures k * p.blockLen < |file|
    ensures var sig := SigOf(p, strong, file);
            var m := sig.Match(Window(file, k * p.blockLen, p.blockLen));
            m >= 0 && (m == k * p.blockLen <==> Leads(sig.blocks, k))
  {
    hide Window, Cut, Params.Weak, Params.Strong, FirstFrom;
    BlockWindow(file, p.blockLen, k);
    var sig, block := SigOf(p, strong, file), Cut(file, p.blockLen)[k];
    assert sig.blocks[k] == SumsOf(p, strong, block);
    FirstFromIsLeast(sig.blocks, p.Weak(block), p.Strong(strong, block), 0);
    var f := First(sig.blocks, p.Weak(block), p.Strong(strong, block)).value;
    if f < k {
      LessTimes(f, k, p.blockLen);
    }
  }

  lemma LessTimes(i: nat, k: nat, b: nat)
    requires i < k && b > 0
    ensures i * b < k * b
  {
    MulMono(i + 1, k, b);
    assert (i + 1) * b == i * b + b;
  }

  /** From block k on, with all before it matched in one piece. */
  lemma {:induction false} ScanOwn(p: Params, strong: StrongSum, file: seq<byte>, k: nat)
    requires p.blockLen > 0 && 0 < k <= |Cut(file, p.blockLen)|
    ensures var sig, q := SigOf(p, strong, file), Min(k * p.blockLen, |file|);
            Scan(sig, file, q, Match(0, q)) == [Copy(0, |file|)]
            <==> forall i :: k <= i < |sig.blocks| ==> Leads(sig.blocks, i)
    decreases |Cut(file, p.blockLen)| - k
  {
    hide SigView.Match, Window, Leads, Cut;
    var sig, b := SigOf(p, strong, file), p.blockLen;
    MulMono(0, k, b);
    var q: nat := k * b;
    if k == |Cut(file, b)| {
      CutCount(file, b);
    } else {
      FoundAt(p, strong, file, k);
      BlockWindow(file, b, k);
      assert (k + 1) * b == k * b + b;
      ScanOwn(p, strong, file, k + 1);
      if !Leads(sig.blocks, k) {
        var s := Advance(sig, file, q, Match(0, q));
        assert Scan(sig, file, q, Match(0, q)) == [Copy(0, q)] + Scan(sig, file, s.p, s.last);
        assert Scan(sig, file, q, Match(0, q))[0] == Copy(0, q);
      }
    }
  }

  /**
   The delta of a file against its own signature is a single copy of the whole file, the short last
   block included, if and only if the sums of its blocks are pairwise distinct.
   */
  lemma SelfDeltaIsOneCopy(p: Params, strong: StrongSum, file: seq<byte>)
    requires p.blockLen > 0 && file != []
    ensures Delta(SigOf(p, strong, file), file) == [Copy(0, |file|)] <==> Distinct(SigOf(p, strong, file).blocks)
  {
    var sig, b := SigOf(p, strong, file), p.blockLen;
    hide SigView.Match, Window, Leads, Cut, Distinct;
    DistinctLead(sig.blocks);
    CutCount(file, b);
    FoundAt(p, strong, file, 0);
    BlockWindow(file, b, 0);
    LeadsFirst(sig.blocks);
    ScanOwn(p, strong, file, 1);
  }

  lemma LeadsFirst(sigs: seq<BlockSig>)
    requires sigs != []
    ensures Leads(sigs, 0)
  {
    FirstIs(sigs, sigs[0].weakSum, sigs[0].strongSum, 0);
  }
}
