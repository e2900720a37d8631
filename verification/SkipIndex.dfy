/** Positions in a skip-list file: block k > 0 starts with Ctz(k) + 1 pointers of
    four bytes, the rest of every block is data. lfs_ctz_index finds block and
    offset of a position with two divisions and a count of ones. */
module SkipIndex {
  import opened BitMath
  import opened Bytes

  /** Pointers in front of the data of block `k`. */
  function Head(k: nat): (h: nat) {
    if k == 0 then 0 else 4 * (Ctz(k) + 1)
  }

  /** The file position of the first data byte of block `n`. */
  function Start(size: nat, n: nat): int {
    if n == 0 then 0 else Start(size, n - 1) + size - Head(n - 1)
  }

  /** All pointers of the blocks 1..n. */
  function CtzSum(n: nat): nat {
    if n == 0 then 0 else CtzSum(n - 1) + Ctz(n) + 1
  }

  /** The identity that makes a closed form possible. */
  lemma {:induction false} CtzSumIs(n: nat)
    ensures CtzSum(n) == 2 * n - Popc(n)
  {
    if n > 0 {
      CtzSumIs(n - 1);
      PopcPred(n);
    }
  }

  lemma {:induction false} StartSum(size: nat, n: nat)
    ensures Start(size, n + 1) == (n + 1) * size - 4 * CtzSum(n)
  {
    if n > 0 {
      StartSum(size, n - 1);
      assert (n + 1) * size == n * size + size;
    } else {
      assert Start(size, 1) == Start(size, 0) + size;
    }
  }

  lemma StartClosed(size: nat, n: nat)
    requires n > 0 && size >= 8
    ensures Start(size, n) == n * (size - 8) + 8 + 4 * Popc(n - 1)
  {
    StartSum(size, n - 1);
    CtzSumIs(n - 1);
    assert n * (size - 8) == n * size - n * 8;
  }

  /// ---- What 32-bit positions and blocks of 128 bytes allow -----------------------------

  const MIN_SIZE := 128
  const MAX_INDEX := 35791394

  lemma Pow2At26()
    ensures Pow2(26) == 0x400_0000
  {
    assert Pow2(2) == 4 && Pow2(4) == 16 && Pow2(6) == 64 && Pow2(8) == 256;
    assert Pow2(10) == 1024;
    assert Pow2(12) == 4096;
    assert Pow2(14) == 16384;
    assert Pow2(16) == 65536;
    assert Pow2(18) == 262144;
    assert Pow2(20) == 1048576;
    assert Pow2(22) == 4194304;
    assert Pow2(24) == 16777216;
  }

  /** All pointers of a block fit, with room for data. */
  lemma PointersFit(k: nat)
    requires k <= MAX_INDEX + 1
    ensures Popc(k) <= 25 && Head(k) <= 104
  {
    Pow2At26();
    PopcBound(k, 26);
    if k > 0 {
      CtzBound(k);
      if Ctz(k) >= 26 {
        Pow2Grows(26, Ctz(k));
      }
    }
  }

  lemma IndexBound(size: nat, i: nat, p: nat)
    requires size >= MIN_SIZE && p < WORD_SPACE && i * (size - 8) <= p
    ensures i <= MAX_INDEX
  {
    assert i * 120 <= i * (size - 8);
  }

  /** Position `p` is byte `off` of block `i`. */
  predicate Located(size: nat, p: int, i: nat, off: int) {
    Start(size, i) <= p < Start(size, i + 1) && off == Head(i) + (p - Start(size, i))
  }

  lemma {:induction false} StartGrows(size: nat, i: nat, j: nat)
    requires size >= MIN_SIZE && i < j <= MAX_INDEX + 1
    ensures Start(size, i) < Start(size, j)
    decreases j - i
  {
    PointersFit(j - 1);
    if i < j - 1 {
      StartGrows(size, i, j - 1);
    }
  }

  lemma LocatedBound(size: nat, p: nat, i: nat, off: int)
    requires size >= MIN_SIZE && p < WORD_SPACE && Located(size, p, i, off)
    ensures i <= MAX_INDEX
  {
    if i > 0 {
      StartClosed(size, i);
      IndexBound(size, i, p);
    }
  }

  /** Every position has one place only. */
  lemma LocatedOnce(size: nat, p: nat, i: nat, off: int, j: nat, off': int)
    requires size >= MIN_SIZE && p < WORD_SPACE
    requires Located(size, p, i, off) && Located(size, p, j, off')
    ensures i == j && off == off'
  {
    LocatedBound(size, p, i, off);
    LocatedBound(size, p, j, off');
    if i < j {
      if i + 1 < j {
        StartGrows(size, i + 1, j);
      }
    } else if j < i {
      if j + 1 < i {
        StartGrows(size, j + 1, i);
      }
    }
  }

  lemma DivLess(x: nat, b: nat, q: nat)
    requires b > 0 && q * b <= x < q * b + b
    ensures x / b == q
  {
    DivMod(x, b, q, x - q * b);
  }

  lemma DivBounds(p: nat, b: nat)
    requires b > 0
    ensures p / b * b <= p < p / b * b + b
  {
  }

  /** Where block `i` > 0 starts and ends, in terms of the closed form. */
  lemma BlockSpan(size: nat, i: nat)
    requires 0 < i <= MAX_INDEX && size >= MIN_SIZE
    ensures Start(size, i) == i * (size - 8) + 8 + 4 * Popc(i - 1) <= i * (size - 8) + (size - 8)
    ensures Start(size, i + 1) == i * (size - 8) + (size - 8) + 8 + 4 * Popc(i)
    ensures Head(i) == 4 * (Popc(i - 1) + 2 - Popc(i))
  {
    hide Ctz, Popc, Start;
    StartClosed(size, i);
    StartClosed(size, i + 1);
    PointersFit(i - 1);
    PopcPred(i);
    assert (i + 1) * (size - 8) == i * (size - 8) + (size - 8);
  }

  /** The second division lands on the block that holds the position. */
  lemma Corrected(size: nat, p: nat, i0: nat)
    requires size >= MIN_SIZE && p < WORD_SPACE && i0 > 0 && i0 * (size - 8) <= p < i0 * (size - 8) + (size - 8)
    ensures 4 * (Popc(i0 - 1) + 2) <= p
    ensures
      var i := (p - 4 * (Popc(i0 - 1) + 2)) / (size - 8);
      i >= 0 && Located(size, p, i, p - (size - 8) * i - 4 * Popc(i))
  {
    hide Head, Popc, Start;
    var b := size - 8;
    IndexBound(size, i0, p);
    BlockSpan(size, i0);
    PointersFit(i0 - 1);
    MulLess(0, i0, b);
    if p - 4 * (Popc(i0 - 1) + 2) >= i0 * b {
      DivLess(p - 4 * (Popc(i0 - 1) + 2), b, i0);
    } else {
      CorrectedBelow(size, p, i0);
    }
  }

  lemma CorrectedBelow(size: nat, p: nat, i0: nat)
    requires size >= MIN_SIZE && 0 < i0 <= MAX_INDEX && Popc(i0 - 1) <= 25
    requires i0 * (size - 8) <= p < i0 * (size - 8) + 4 * (Popc(i0 - 1) + 2)
    ensures 4 * (Popc(i0 - 1) + 2) <= p
    ensures (p - 4 * (Popc(i0 - 1) + 2)) / (size - 8) == i0 - 1
    ensures Located(size, p, i0 - 1, p - (size - 8) * (i0 - 1) - 4 * Popc(i0 - 1))
  {
    hide Head, Popc, Start;
    var b := size - 8;
    assert (i0 - 1) * b == i0 * b - b;
    MulLess(0, i0, b);
    DivLess(p - 4 * (Popc(i0 - 1) + 2), b, i0 - 1);
    if i0 > 1 {
      BlockSpan(size, i0 - 1);
    } else {
      FirstStart(size);
    }
  }

  lemma FirstStart(size: nat)
    ensures Start(size, 0) == 0 && Start(size, 1) == size && Popc(0) == 0 && Head(0) == 0
  {
    assert Start(size, 1) == Start(size, 0) + size;
  }

  /** lfs_ctz_index. */
  method CtzIndex(size: nat, p: nat) returns (i: nat, off: nat)
    requires size >= MIN_SIZE && p < WORD_SPACE
    ensures Located(size, p, i, off) && off < size && i <= MAX_INDEX
  {
    var b := size - 8;
    i := p / b;
    if i == 0 {
      FirstStart(size);
      return 0, p;
    }
    DivBounds(p, b);
    Corrected(size, p, i);
    i := (p - 4 * (Popc(i - 1) + 2)) / b;
    off := p - b * i - 4 * Popc(i);
    LocatedBound(size, p, i, off);
  }
}
