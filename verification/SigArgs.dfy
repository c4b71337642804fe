/** The recommended and the checked arguments of a signature. */
module SigArgs {
  import opened Checksum
  import opened Congruence
  import opened Protocol
  import opened Util

  /** The shortest recommended strong sum for a file size (negative when unknown) and block length. */
  function MinStrongLen(oldFsize: int, blockLen: int): nat
    requires blockLen > 0
  {
    if oldFsize < 0 then DEFAULT_MIN_STRONG_LEN
    else 2 + (Log2(oldFsize + 0x100_0000) + Log2(oldFsize / blockLen + 1) + 7) / 8
  }

  /** The recommended block length: the square root, rounded down to a multiple of 128. */
  ghost predicate Recommended(oldFsize: int, blockLen: int) {
    if oldFsize < 0 then blockLen == DEFAULT_BLOCK_LEN
    else if oldFsize <= 256 * 256 then blockLen == 256
    else blockLen >= 256 && blockLen % 128 == 0 && Square(blockLen) <= oldFsize < Square(blockLen + 128)
  }

  /**
   Fill in defaults (magic 0, block length 0, strong length 0 for the maximum or -1 for the
   minimum) and check what was given. A strong length below the recommended minimum only draws
   a warning.
   */
  method Args(oldFsize: int, magic0: int, blockLen0: int, strongLen0: int)
    returns (result: Result, p: Params)
    requires oldFsize < 0x4000_0000_0000_0000
    requires blockLen0 >= 0 && strongLen0 >= -1
    ensures result in {Done, BadMagic, ParamError}
    ensures p.magic == if magic0 == 0 then RK_BLAKE2_SIG_MAGIC else magic0
    ensures result == BadMagic <==> !KnownMagic(p.magic)
    ensures result != BadMagic ==>
              && p.blockLen > 0
              && (if blockLen0 == 0 then Recommended(oldFsize, p.blockLen) else p.blockLen == blockLen0)
    ensures result != BadMagic ==>
              var least, most := MinStrongLen(oldFsize, p.blockLen), SumLength(p.StrongKind());
              && p.strongSumLen == (if strongLen0 == 0 then most else if strongLen0 == -1 then least else strongLen0)
              && (result == ParamError <==> strongLen0 > most && !(oldFsize >= 0 && strongLen0 < least))
  {
    hide Square, Log2;
    var magic := if magic0 != 0 then magic0 else RK_BLAKE2_SIG_MAGIC;
    p := Params(magic, blockLen0, strongLen0);
    var maxStrongLen;
    if magic == BLAKE2_SIG_MAGIC || magic == RK_BLAKE2_SIG_MAGIC {
      maxStrongLen := BLAKE2_SUM_LENGTH;
    } else if magic == MD4_SIG_MAGIC || magic == RK_MD4_SIG_MAGIC {
      maxStrongLen := MD4_SUM_LENGTH;
    } else {
      return BadMagic, p;
    }
    assert maxStrongLen == SumLength(p.StrongKind());

    var recBlockLen := DEFAULT_BLOCK_LEN;
    if 0 <= oldFsize <= 256 * 256 {
      recBlockLen := 256;
    } else if oldFsize > 256 * 256 {
      var root := LongSqrt(oldFsize);
      recBlockLen := root.value - root.value % 128;
      RoundedRoot(oldFsize, root.value);
    }
    var blockLen := if blockLen0 == 0 then recBlockLen else blockLen0;

    var minStrongLen := DEFAULT_MIN_STRONG_LEN;
    if oldFsize >= 0 {
      var a := LongLn2(oldFsize + 0x100_0000);
      DivideNat(oldFsize, blockLen);
      var b := LongLn2(oldFsize / blockLen + 1);
      minStrongLen := 2 + (a + b + 7) / 8;
    }
    var strongLen := strongLen0;
    result := Done;
    if strongLen0 == 0 {
      strongLen := maxStrongLen;
    } else if strongLen0 == -1 {
      strongLen := minStrongLen;
    } else if oldFsize >= 0 && strongLen0 < minStrongLen {
      // only a warning
    } else if strongLen0 > maxStrongLen {
      result := ParamError;
    }
    p := Params(magic, blockLen, strongLen);
  }

  lemma DivideNat(a: nat, b: nat)
    requires b > 0
    ensures a / b >= 0
  {
  }

  lemma RoundedRoot(v: int, root: nat)
    requires v > 256 * 256 && Square(root) <= v < Square(root + 1)
    ensures Recommended(v, root - root % 128)
  {
    if root < 256 {
      SquareGrows(root + 1, 256);
    }
    var b := root - root % 128;
    SquareGrows(b, root);
    SquareGrows(root + 1, b + 128);
  }

  /**
   Comparing every offset of a file 16 MB longer with every block makes fewer than
   2^(8 * (len - 2) + 2) comparisons, where len is the recommended strong length: about two
   bytes of strong sum and the weak sum are to spare.
   */
  lemma MinStrongLenCoversComparisons(oldFsize: nat, blockLen: int)
    requires blockLen > 0
    ensures (oldFsize + 0x100_0000) * (oldFsize / blockLen + 1)
            < TwoTo(8 * (MinStrongLen(oldFsize, blockLen) - 2) + 2)
  {
    var a, b := oldFsize + 0x100_0000, oldFsize / blockLen + 1;
    Log2Bounds(a);
    Log2Bounds(b);
    var i, j := Log2(a), Log2(b);
    assert a * b < TwoTo(i + 1) * TwoTo(j + 1) by { ProductBelow(a, b, TwoTo(i + 1), TwoTo(j + 1)); }
    TwoToAdd(i + 1, j + 1);
    Monotone(i + 1 + (j + 1), 8 * ((i + j + 7) / 8) + 2);
  }

  /**
   The recommended strong length is the least that has two bytes on top of the whole bits of the
   length of the new file, with 16 MB to spare, and of the number of blocks.
   */
  lemma MinStrongLenIsLeast(oldFsize: nat, blockLen: int, a: nat, b: nat, len: nat)
    requires blockLen > 0
    requires TwoTo(a) <= oldFsize + 0x100_0000 < TwoTo(a + 1)
    requires TwoTo(b) <= oldFsize / blockLen + 1 < TwoTo(b + 1)
    ensures MinStrongLen(oldFsize, blockLen) <= len <==> len >= 2 && a + b <= 8 * (len - 2)
  {
    Log2Exact(oldFsize + 0x100_0000, a);
    Log2Exact(oldFsize / blockLen + 1, b);
  }

  lemma ProductBelow(a: nat, b: nat, c: nat, d: nat)
    requires 0 < a < c && 0 < b < d
    ensures a * b < c * d
  {
    assert a * b <= a * d;
    assert a * d < c * d;
  }

  /** With the recommended block length the minimum fits every hash. */
  lemma MinStrongLenFits(oldFsize: int, blockLen: int)
    requires oldFsize < 0x4000_0000_0000_0000 && blockLen > 0 && Recommended(oldFsize, blockLen)
    ensures MinStrongLen(oldFsize, blockLen) <= 16
  {
    if oldFsize >= 0 {
      var a, b := oldFsize + 0x100_0000, oldFsize / blockLen + 1;
      TwoToThirty();
      assert TwoTo(63) == 0x8000_0000_0000_0000 by { TwoToAdd(31, 32); }
      assert TwoTo(34) == 0x4_0000_0000 by { TwoToAdd(2, 32); }
      Log2Below(a, 63);
      BlocksAreFew(oldFsize, blockLen);
      Log2Below(b, 34);
    }
  }

  lemma BlocksAreFew(v: nat, blockLen: int)
    requires v < 0x4000_0000_0000_0000 && blockLen > 0 && Recommended(v, blockLen)
    ensures v / blockLen + 1 < 0x4_0000_0000
  {
    if v > 256 * 256 {
      BlockLenBelow(v, blockLen);
      NineQuarters(v, blockLen);
    }
  }

  lemma BlockLenBelow(v: nat, b: nat)
    requires Square(b) <= v < 0x4000_0000_0000_0000
    ensures b < 0x8000_0000
  {
    if b >= 0x8000_0000 {
      SquareGrows(0x8000_0000, b);
    }
  }

  lemma NineQuarters(v: nat, b: nat)
    requires b >= 256 && v < Square(b + 128)
    ensures 4 * (v / b) < 9 * b
  {
    var q := v / b;
    assert v == q * b + v % b;
    assert 4 * Square(b + 128) <= (9 * b) * b by {
      assert 4 * Square(b + 128) == 4 * (b * b) + 1024 * b + 65536;
      assert b * b >= 256 * b;
    }
    assert (4 * q) * b < (9 * b) * b;
    Cancel(4 * q, 9 * b, b);
  }

  lemma Cancel(x: nat, y: nat, b: nat)
    requires x * b < y * b
    ensures x < y
  {
  }

  lemma Log2Below(v: nat, k: nat)
    requires 0 < v < TwoTo(k)
    ensures Log2(v) < k
  {
    Log2Bounds(v);
    if Log2(v) >= k {
      Monotone(k, Log2(v));
    }
  }

  /**
   Arguments that pass can still fail the library's own assertion on signatures. That happens
   exactly when the file size is known, the strong length is the minimum or is excused for being
   below it, and the result is longer than the hash.
   */
  lemma PassedArgsCheck(oldFsize: int, p: Params, strongLen0: int)
    requires KnownMagic(p.magic) && 0 < p.blockLen < INT_LIMIT && strongLen0 >= -1
    requires var least, most := MinStrongLen(oldFsize, p.blockLen), SumLength(p.StrongKind());
             && p.strongSumLen == (if strongLen0 == 0 then most else if strongLen0 == -1 then least else strongLen0)
             && !(strongLen0 > most && !(oldFsize >= 0 && strongLen0 < least))
    ensures var least, most := MinStrongLen(oldFsize, p.blockLen), SumLength(p.StrongKind());
            !p.Check() <==> oldFsize >= 0 && least > most && (strongLen0 == -1 || most < strongLen0 < least)
  {
  }

  /** Cutting 2^57 bytes into single bytes asks MD4 for 17 bytes of strong sum, one more than it has. */
  lemma MinStrongLenCanExceedMd4()
    ensures MinStrongLen(0x200_0000_0000_0000, 1) == SumLength(Md4) + 1
  {
    TwoToThirty();
    assert TwoTo(57) == 0x200_0000_0000_0000 by { TwoToAdd(25, 32); }
    Log2Exact(0x200_0000_0000_0000 + 0x100_0000, 57);
    Log2Exact(0x200_0000_0000_0000 + 1, 57);
  }

  lemma Log2Exact(v: nat, k: nat)
    requires TwoTo(k) <= v < TwoTo(k + 1)
    ensures Log2(v) == k
  {
    Log2Below(v, k + 1);
    Log2Bounds(v);
    if Log2(v) < k {
      Monotone(Log2(v) + 1, k);
    }
  }
}
