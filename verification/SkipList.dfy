/** Skip-list files: block n of a file holds, at word j <= Ctz(n), the address of
    block n - 2^j. Lookup follows these pointers, extension writes a fresh block
    only, traversal meets every block once. */
module SkipList {
  import opened BitMath
  import opened Bytes
  import opened Options
  import opened SkipIndex

  /// ---- Lists on flash -----------------------------------------------------------------

  /** Word `j` of a block, if there is one. */
  function Pointer(blocks: seq<seq<Byte>>, b: nat, j: nat): int {
    if b < |blocks| && 4 * j + 4 <= |blocks[b]| then Word(blocks[b], 4 * j) else -1
  }

  /** The address of the block 2^j before block `k` of the list, if there is one. */
  function Jump(chain: seq<nat>, k: nat, j: nat): int {
    if Pow2(j) <= k <= |chain| then chain[k - Pow2(j)] else -2
  }

  ghost predicate NodeLinked(blocks: seq<seq<Byte>>, chain: seq<nat>, k: nat)
    requires k < |chain|
  {
    k > 0 ==> forall j :: 0 <= j <= Ctz(k) ==> Pointer(blocks, chain[k], j) == Jump(chain, k, j)
  }

  /** `chain` lists the addresses of the blocks of a file, in order. */
  ghost predicate Linked(blocks: seq<seq<Byte>>, size: nat, chain: seq<nat>) {
    && (forall k :: 0 <= k < |chain| ==> chain[k] < |blocks| && |blocks[chain[k]]| == size)
    && (forall k :: 0 <= k < |chain| ==> NodeLinked(blocks, chain, k))
  }

  function Part(blocks: seq<seq<Byte>>, b: nat, k: nat): seq<Byte> {
    if b < |blocks| && Head(k) <= |blocks[b]| then blocks[b][Head(k)..] else []
  }

  /** The data bytes of the blocks, without the pointers. */
  function Data(blocks: seq<seq<Byte>>, chain: seq<nat>): seq<Byte> {
    if chain == [] then []
    else Data(blocks, chain[..|chain| - 1]) + Part(blocks, chain[|chain| - 1], |chain| - 1)
  }

  predicate SameOn(blocks: seq<seq<Byte>>, blocks': seq<seq<Byte>>, chain: seq<nat>) {
    forall k :: 0 <= k < |chain| ==> chain[k] < |blocks| && chain[k] < |blocks'| && blocks'[chain[k]] == blocks[chain[k]]
  }

  /** A list reads only its own blocks. */
  lemma LinkedSame(blocks: seq<seq<Byte>>, blocks': seq<seq<Byte>>, size: nat, chain: seq<nat>)
    requires Linked(blocks, size, chain) && SameOn(blocks, blocks', chain)
    ensures Linked(blocks', size, chain) && Data(blocks', chain) == Data(blocks, chain)
  {
    forall k | 0 <= k < |chain|
      ensures NodeLinked(blocks', chain, k)
    {
      assert NodeLinked(blocks, chain, k);
    }
    DataSame(blocks, blocks', chain);
  }

  lemma {:induction false} DataSame(blocks: seq<seq<Byte>>, blocks': seq<seq<Byte>>, chain: seq<nat>)
    requires SameOn(blocks, blocks', chain)
    ensures Data(blocks', chain) == Data(blocks, chain)
    decreases |chain|
  {
    if chain != [] {
      DataSame(blocks, blocks', chain[..|chain| - 1]);
    }
  }

  lemma {:induction false} DataLength(blocks: seq<seq<Byte>>, size: nat, chain: seq<nat>)
    requires size >= MIN_SIZE && |chain| <= MAX_INDEX + 1
    requires forall k :: 0 <= k < |chain| ==> chain[k] < |blocks| && |blocks[chain[k]]| == size
    ensures |Data(blocks, chain)| == Start(size, |chain|)
    decreases |chain|
  {
    if chain != [] {
      DataLength(blocks, size, chain[..|chain| - 1]);
      PointersFit(|chain| - 1);
    }
  }

  /** Every position of the file is where its location says. */
  lemma {:induction false} DataAt(blocks: seq<seq<Byte>>, size: nat, chain: seq<nat>, p: nat, i: nat, off: nat)
    requires size >= MIN_SIZE && i < |chain| <= MAX_INDEX + 1 && Located(size, p, i, off)
    requires forall k :: 0 <= k < |chain| ==> chain[k] < |blocks| && |blocks[chain[k]]| == size
    ensures p < |Data(blocks, chain)| && off < size && Data(blocks, chain)[p] == blocks[chain[i]][off]
    decreases |chain|
  {
    hide Head, Part, Start;
    var n := |chain| - 1;
    DataLength(blocks, size, chain[..n]);
    if i < n {
      DataAt(blocks, size, chain[..n], p, i, off);
    } else {
      NextStart(size, n);
      PointersFit(n);
      PartAt(blocks, chain[n], n, off);
    }
  }

  lemma NextStart(size: nat, n: nat)
    ensures Start(size, n + 1) == Start(size, n) + size - Head(n)
  {
  }

  lemma PartAt(blocks: seq<seq<Byte>>, b: nat, k: nat, off: nat)
    requires b < |blocks| && Head(k) <= off < |blocks[b]|
    ensures |Part(blocks, b, k)| == |blocks[b]| - Head(k) && Part(blocks, b, k)[off - Head(k)] == blocks[b][off]
  {
  }

  /// ---- Lookup ---------------------------------------------------------------------------

  /** How many more hops a lookup can need: first the trailing zeros grow, then the
      distance halves. */
  function Potential(c: nat, t: nat): nat
    requires t <= c
  {
    if c == t then 0
    else if Ctz(c) < Bits(c - t) - 1 then 2 * Bits(c - t) - 1 - Ctz(c)
    else Bits(c - t)
  }

  /** One hop: it does not pass the target, and the potential drops. */
  lemma Hop(c: nat, t: nat, skip: nat)
    requires t < c && skip == if Bits(c - t) - 1 < Ctz(c) then Bits(c - t) - 1 else Ctz(c)
    ensures Pow2(skip) <= c - t && skip <= Ctz(c)
    ensures Potential(c - Pow2(skip), t) < Potential(c, t)
  {
    var d := c - t;
    BitsBound(d);
    Pow2Grows(skip, Bits(d) - 1);
    CtzStep(c, skip);
    BitsGrows(d - Pow2(skip), d);
    if skip == Bits(d) - 1 {
      BitsSmall(d - Pow2(skip), skip);
    }
    hide Bits, Ctz, Pow2;
  }

  lemma {:induction false} BitsSmall(n: nat, k: nat)
    requires n < Pow2(k)
    ensures Bits(n) <= k
    decreases k
  {
    if n > 0 && k > 0 {
      BitsSmall(n / 2, k - 1);
    }
  }

  /** What the pointer that a hop follows is. */
  lemma PointerAt(blocks: seq<seq<Byte>>, size: nat, chain: seq<nat>, k: nat, j: nat)
    requires Linked(blocks, size, chain) && 0 < k < |chain| && j <= Ctz(k)
    ensures chain[k] < |blocks| && 4 * j + 4 <= |blocks[chain[k]]| && Pow2(j) <= k
    ensures Word(blocks[chain[k]], 4 * j) == chain[k - Pow2(j)]
  {
    assert NodeLinked(blocks, chain, k);
    assert Pointer(blocks, chain[k], j) == Jump(chain, k, j);
    CtzBound(k);
    Pow2Grows(j, Ctz(k));
  }

  /** `head` and `fileSize` describe a file whose blocks are `chain`. */
  ghost predicate File(blocks: seq<seq<Byte>>, size: nat, chain: seq<nat>, head: nat, fileSize: nat) {
    && size >= MIN_SIZE && fileSize < WORD_SPACE && |blocks| <= WORD_SPACE
    && Linked(blocks, size, chain)
    && if fileSize == 0 then chain == []
       else chain != [] && head == chain[|chain| - 1]
            && Start(size, |chain| - 1) <= fileSize - 1 < Start(size, |chain|)
  }

  /** The bytes of a file. */
  ghost function Contents(blocks: seq<seq<Byte>>, size: nat, chain: seq<nat>, head: nat, fileSize: nat): (s: seq<Byte>)
    requires File(blocks, size, chain, head, fileSize)
    ensures |s| == fileSize
  {
    ContentsLength(blocks, size, chain, head, fileSize);
    Data(blocks, chain)[..fileSize]
  }

  lemma ContentsLength(blocks: seq<seq<Byte>>, size: nat, chain: seq<nat>, head: nat, fileSize: nat)
    requires File(blocks, size, chain, head, fileSize)
    ensures fileSize <= |Data(blocks, chain)| && |chain| <= MAX_INDEX + 1
  {
    if fileSize > 0 {
      var i := |chain| - 1;
      LocatedBound(size, fileSize - 1, i, Head(i) + (fileSize - 1 - Start(size, i)));
      DataLength(blocks, size, chain);
    }
  }

  /** The location of the last byte names the last block. */
  lemma FileEnd(blocks: seq<seq<Byte>>, size: nat, chain: seq<nat>, head: nat, fileSize: nat, i: nat, off: nat)
    requires File(blocks, size, chain, head, fileSize) && fileSize > 0 && Located(size, fileSize - 1, i, off)
    ensures i == |chain| - 1 && head == chain[i] && |chain| <= MAX_INDEX + 1 && Linked(blocks, size, chain)
  {
    ContentsLength(blocks, size, chain, head, fileSize);
    LocatedOnce(size, fileSize - 1, i, off, |chain| - 1, Head(|chain| - 1) + (fileSize - 1 - Start(size, |chain| - 1)));
  }

  /** What is found where a position is located. */
  lemma ReadAt(blocks: seq<seq<Byte>>, size: nat, chain: seq<nat>, head: nat, fileSize: nat, pos: nat, i: nat, off: nat)
    requires File(blocks, size, chain, head, fileSize) && pos < fileSize && Located(size, pos, i, off) && i <= MAX_INDEX
    ensures i < |chain| && chain[i] < |blocks| && off < |blocks[chain[i]]|
    ensures blocks[chain[i]][off] == Contents(blocks, size, chain, head, fileSize)[pos]
  {
    ContentsLength(blocks, size, chain, head, fileSize);
    if |chain| < i {
      StartGrows(size, |chain|, i);
    }
    DataAt(blocks, size, chain, pos, i, off);
  }

  /** Block `b` of the list is named by a word of block `a`. */
  ghost predicate PointsTo(blocks: seq<seq<Byte>>, chain: seq<nat>, a: nat, b: nat) {
    && a < |chain| && b < |chain| && chain[a] < |blocks|
    && exists j: nat :: 4 * j + 4 <= |blocks[chain[a]]| && Word(blocks[chain[a]], 4 * j) == chain[b]
  }

  /** A walk from pointer to pointer, from the last block to block `target`. */
  ghost predicate Walked(blocks: seq<seq<Byte>>, chain: seq<nat>, path: seq<nat>, target: nat) {
    && path != [] && path[0] == |chain| - 1 && path[|path| - 1] == target
    && forall k :: 0 <= k < |path| - 1 ==> PointsTo(blocks, chain, path[k], path[k + 1])
  }

  /** lfs_ctz_find; `path` are the blocks it comes through. */
  method Find(blocks: seq<seq<Byte>>, size: nat, head0: nat, fileSize: nat, pos: nat, ghost chain: seq<nat>)
    returns (block: Option<nat>, off: nat, ghost target: nat, ghost path: seq<nat>)
    requires File(blocks, size, chain, head0, fileSize) && (fileSize > 0 ==> pos < fileSize)
    ensures fileSize == 0 ==> block == None && off == 0
    ensures fileSize > 0 ==>
              && target < |chain| && block == Some(chain[target]) && Located(size, pos, target, off)
              && block.value < |blocks| && off < |blocks[block.value]|
              && blocks[block.value][off] == Contents(blocks, size, chain, head0, fileSize)[pos]
    ensures fileSize > 0 ==> Walked(blocks, chain, path, target) && |path| - 1 <= 2 * Bits(|chain|)
  {
    hide Bits, Contents, Ctz, Linked, Located, PointsTo, Potential, Pow2, Word;
    target, path := 0, [];
    if fileSize == 0 {
      return None, 0, 0, [];
    }
    var head := head0;
    var current, last := CtzIndex(size, fileSize - 1);
    FileEnd(blocks, size, chain, head0, fileSize, current, last);
    var aim, at := CtzIndex(size, pos);
    target := aim;
    ReadAt(blocks, size, chain, head0, fileSize, pos, target, at);
    PotentialStart(current, target);
    path := [current];
    while current > aim
      invariant target == aim <= current < |chain| && head == chain[current]
      invariant Walked(blocks, chain, path, current)
      invariant |path| - 1 + Potential(current, target) <= 2 * Bits(|chain|)
      decreases current
    {
      var most, zeros := Bits(current - aim) - 1, Ctz(current);
      var skip := if most < zeros then most else zeros;
      HasBits(current - target);
      Hop(current, target, skip);
      PointerAt(blocks, size, chain, current, skip);
      ItPoints(blocks, chain, current, current - Pow2(skip), skip);
      head := Word(blocks[head], 4 * skip);
      current := current - Pow2(skip);
      path := path + [current];
    }
    return Some(head), at, target, path;
  }

  lemma ItPoints(blocks: seq<seq<Byte>>, chain: seq<nat>, a: nat, b: nat, j: nat)
    requires a < |chain| && b < |chain| && chain[a] < |blocks|
    requires 4 * j + 4 <= |blocks[chain[a]]| && Word(blocks[chain[a]], 4 * j) == chain[b]
    ensures PointsTo(blocks, chain, a, b)
  {
  }

  lemma HasBits(n: nat)
    requires n > 0
    ensures Bits(n) > 0
  {
  }

  lemma PotentialStart(c: nat, t: nat)
    requires t <= c
    ensures Potential(c, t) <= 2 * Bits(c + 1)
  {
    BitsGrows(c - t, c + 1);
  }

  /// ---- Traversal -------------------------------------------------------------------------

  function Reversed(chain: seq<nat>): seq<nat> {
    if chain == [] then [] else [chain[|chain| - 1]] + Reversed(chain[..|chain| - 1])
  }

  lemma ReversedCut(chain: seq<nat>, k: nat)
    requires k < |chain|
    ensures Reversed(chain[..k + 1]) == [chain[k]] + Reversed(chain[..k])
  {
    assert chain[..k + 1][..k] == chain[..k];
  }

  /** lfs_ctz_traverse: every block once, from the last to the first. */
  method Traverse(blocks: seq<seq<Byte>>, size: nat, head0: nat, fileSize: nat, ghost chain: seq<nat>)
    returns (visited: seq<nat>)
    requires File(blocks, size, chain, head0, fileSize)
    ensures visited == Reversed(chain)
  {
    hide Ctz, Linked, Located, Pow2, Reversed, Word;
    visited := [];
    if fileSize == 0 {
      EmptyReversed();
      return;
    }
    var head := head0;
    var index, last := CtzIndex(size, fileSize - 1);
    FileEnd(blocks, size, chain, head0, fileSize, index, last);
    assert chain[..index + 1] == chain;
    EmptyReversed();
    while true
      invariant 0 <= index < |chain| && head == chain[index]
      invariant visited + Reversed(chain[..index + 1]) == Reversed(chain)
      decreases index
    {
      ReversedCut(chain, index);
      visited := visited + [head];
      if index == 0 {
        return;
      }
      var count := 2 - index % 2;
      FirstPointers(blocks, size, chain, index);
      var first := Word(blocks[head], 0);
      if count == 2 {
        ReversedCut(chain, index - 1);
        visited := visited + [first];
        head := Word(blocks[head], 4);
      } else {
        head := first;
      }
      index := index - count;
    }
  }

  lemma EmptyReversed()
    ensures Reversed([]) == []
  {
  }

  /** Odd blocks hold the block before them, even ones the one before that as well. */
  lemma FirstPointers(blocks: seq<seq<Byte>>, size: nat, chain: seq<nat>, k: nat)
    requires Linked(blocks, size, chain) && 0 < k < |chain| && size >= MIN_SIZE
    ensures chain[k] < |blocks| && 8 <= |blocks[chain[k]]|
    ensures Word(blocks[chain[k]], 0) == chain[k - 1]
    ensures k % 2 == 0 ==> Word(blocks[chain[k]], 4) == chain[k - 2]
  {
    PointerAt(blocks, size, chain, k, 0);
    if k % 2 == 0 {
      PointerAt(blocks, size, chain, k, 1);
    }
    hide Linked, Word;
  }
}
