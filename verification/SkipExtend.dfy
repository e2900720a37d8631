/** Extending a skip-list file by copy on write: only freshly allocated blocks are
    written, so the old head still leads to the old bytes. */
module SkipExtend {
  import opened BitMath
  import opened Bytes
  import opened Options
  import opened SkipIndex
  import opened SkipList

  /** A block the allocator hands out: `good` flash operations on it succeed, the
      next one is reported as corrupt. */
  datatype Candidate = Candidate(block: nat, good: nat)

  /** The operations on a fresh block that extending takes after its erase, for a file
      of `n` blocks: none for an empty file, the pointers of the next block when the last
      one is full, and otherwise a copy of all bytes of the last one. */
  function Cost(size: nat, n: nat, fileSize: nat): int {
    if fileSize == 0 || n == 0 then 0
    else if fileSize == Start(size, n) then Ctz(n) + 1
    else Head(n - 1) + fileSize - Start(size, n - 1)
  }

  /** At most block `b` differs. */
  ghost predicate Only(blocks: seq<seq<Byte>>, blocks': seq<seq<Byte>>, b: nat) {
    |blocks'| == |blocks| && forall c :: 0 <= c < |blocks| && c != b ==> blocks'[c] == blocks[c]
  }

  /** `chain'` is a list with the old bytes, and the next byte written at `off` of
      its last block comes right behind them. */
  ghost predicate Extended(size: nat, was: seq<seq<Byte>>, chain: seq<nat>, fileSize: nat,
                           now: seq<seq<Byte>>, chain': seq<nat>, block: nat, off: nat) {
    && Linked(now, size, chain') && chain' != [] && chain'[|chain'| - 1] == block
    && block !in chain'[..|chain'| - 1]
    && Head(|chain'| - 1) <= off < size && Start(size, |chain'| - 1) + off - Head(|chain'| - 1) == fileSize
    && fileSize <= |Data(was, chain)| && fileSize <= |Data(now, chain')|
    && Data(now, chain')[..fileSize] == Data(was, chain)[..fileSize]
  }

  /** Blocks of other lists stay as they are. */
  lemma OnlySame(blocks: seq<seq<Byte>>, blocks': seq<seq<Byte>>, b: nat, chain: seq<nat>)
    requires Only(blocks, blocks', b) && b !in chain && forall k :: 0 <= k < |chain| ==> chain[k] < |blocks|
    ensures SameOn(blocks, blocks', chain)
  {
  }

  /** The old head and size still denote the same bytes. */
  lemma FileSame(was: seq<seq<Byte>>, now: seq<seq<Byte>>, size: nat, chain: seq<nat>, head: nat, fileSize: nat, b: nat)
    requires File(was, size, chain, head, fileSize) && Only(was, now, b) && b !in chain
    ensures File(now, size, chain, head, fileSize) && Data(now, chain) == Data(was, chain)
  {
    hide Data, NodeLinked;
    OnlySame(was, now, b, chain);
    LinkedSame(was, now, size, chain);
  }

  lemma NodePrefix(blocks: seq<seq<Byte>>, chain: seq<nat>, n: nat, k: nat)
    requires k < n <= |chain|
    ensures NodeLinked(blocks, chain[..n], k) <==> NodeLinked(blocks, chain, k)
  {
    hide Ctz, Pointer, Pow2;
    assert chain[..n][k] == chain[k];
    forall j: nat
      ensures Jump(chain[..n], k, j) == Jump(chain, k, j)
    {
    }
  }

  /** A list is a list up to any of its blocks. */
  lemma LinkedPrefix(blocks: seq<seq<Byte>>, size: nat, chain: seq<nat>, n: nat)
    requires Linked(blocks, size, chain) && n <= |chain|
    ensures Linked(blocks, size, chain[..n])
  {
    hide NodeLinked;
    forall k | 0 <= k < n
      ensures NodeLinked(blocks, chain[..n], k)
    {
      NodePrefix(blocks, chain, n, k);
    }
  }

  lemma LastLinked(blocks: seq<seq<Byte>>, chain: seq<nat>, b: nat)
    requires chain != [] ==> forall j :: 0 <= j <= Ctz(|chain|) ==> Pointer(blocks, b, j) == Jump(chain, |chain|, j)
    ensures NodeLinked(blocks, chain + [b], |chain|)
  {
    hide Ctz, Pointer, Pow2;
    forall j: nat
      ensures Jump(chain + [b], |chain|, j) == Jump(chain, |chain|, j)
    {
    }
  }

  /** One more block with the right pointers. */
  lemma LinkedSnoc(blocks: seq<seq<Byte>>, size: nat, chain: seq<nat>, b: nat)
    requires Linked(blocks, size, chain) && b < |blocks| && |blocks[b]| == size
    requires chain != [] ==> forall j :: 0 <= j <= Ctz(|chain|) ==> Pointer(blocks, b, j) == Jump(chain, |chain|, j)
    ensures Linked(blocks, size, chain + [b])
  {
    hide NodeLinked, Ctz, Pointer, Jump;
    var all := chain + [b];
    assert all[..|chain|] == chain;
    LastLinked(blocks, chain, b);
    forall k | 0 <= k < |all|
      ensures NodeLinked(blocks, all, k)
    {
      if k < |chain| {
        NodePrefix(blocks, all, |chain|, k);
      }
    }
  }

  lemma DataSnoc(blocks: seq<seq<Byte>>, chain: seq<nat>, b: nat)
    ensures Data(blocks, chain + [b]) == Data(blocks, chain) + Part(blocks, b, |chain|)
  {
    assert (chain + [b])[..|chain|] == chain;
  }

  /// ---- The three ways to extend ---------------------------------------------------------

  lemma ExtendEmpty(size: nat, was: seq<seq<Byte>>, now: seq<seq<Byte>>, b: nat)
    requires size >= MIN_SIZE && b < |now| && |now[b]| == size
    ensures Extended(size, was, [], 0, now, [b], b, 0)
  {
    LinkedSnoc(now, size, [], b);
    assert [] + [b] == [b];
    FirstStart(size);
  }

  /** A full list gets one more block, made of pointers so far. */
  lemma ExtendFull(size: nat, was: seq<seq<Byte>>, now: seq<seq<Byte>>, chain: seq<nat>, head: nat, fileSize: nat, b: nat)
    requires File(was, size, chain, head, fileSize) && fileSize > 0 && fileSize == Start(size, |chain|)
    requires Only(was, now, b) && b !in chain && b < |now| && |now[b]| == size
    requires forall j :: 0 <= j <= Ctz(|chain|) ==> Pointer(now, b, j) == Jump(chain, |chain|, j)
    ensures Extended(size, was, chain, fileSize, now, chain + [b], b, Head(|chain|))
  {
    hide Data, NodeLinked, Part;
    OnlySame(was, now, b, chain);
    LinkedSame(was, now, size, chain);
    LinkedSnoc(now, size, chain, b);
    DataSnoc(now, chain, b);
    ContentsLength(was, size, chain, head, fileSize);
    PointersFit(|chain|);
    DataLength(was, size, chain);
  }

  /** The pointers of a copied last block. */
  lemma CopyPointer(size: nat, blocks: seq<seq<Byte>>, front: seq<nat>, head: nat, b: nat, n: nat, j: nat)
    requires Linked(blocks, size, front + [head]) && front != [] && j <= Ctz(|front|)
    requires Head(|front|) <= n <= size && b < |blocks| && head < |blocks|
    requires |blocks[b]| == size && |blocks[head]| == size && blocks[b][..n] == blocks[head][..n]
    ensures Pointer(blocks, b, j) == Jump(front, |front|, j)
  {
    hide Ctz, Linked, Pow2, Word;
    var all := front + [head];
    assert all[|front|] == head;
    PointerAt(blocks, size, all, |front|, j);
    assert all[|front| - Pow2(j)] == front[|front| - Pow2(j)];
    SamePrefixWord(blocks[b], blocks[head], n, 4 * j);
  }

  /** The incomplete last block is copied. */
  lemma ExtendCopy(size: nat, was: seq<seq<Byte>>, now: seq<seq<Byte>>, chain: seq<nat>, head: nat, fileSize: nat, b: nat, n: nat)
    requires File(was, size, chain, head, fileSize) && fileSize > 0
    requires n < size && Located(size, fileSize - 1, |chain| - 1, n - 1)
    requires Only(was, now, b) && b !in chain && b < |now| && |now[b]| == size
    requires head < |now| && |now[head]| == size && now[b][..n] == now[head][..n]
    ensures Extended(size, was, chain, fileSize, now, chain[..|chain| - 1] + [b], b, n)
  {
    hide Ctz, Data, Head, Jump, NodeLinked, Only, Part, Pointer, SameOn, Start;
    var last := |chain| - 1;
    var front := chain[..last];
    FileSame(was, now, size, chain, head, fileSize, b);
    LinkedPrefix(now, size, chain, last);
    assert chain == front + [head];
    if last > 0 {
      forall j | 0 <= j <= Ctz(last)
        ensures Pointer(now, b, j) == Jump(front, last, j)
      {
        CopyPointer(size, now, front, head, b, n, j);
      }
    }
    LinkedSnoc(now, size, front, b);
    CopyData(size, now, chain, front, head, fileSize, b, n);
  }

  lemma PrefixSum(d: seq<Byte>, p: seq<Byte>, q: seq<Byte>, n: nat)
    requires n <= |p| && n <= |q| && p[..n] == q[..n]
    ensures (d + p)[..|d| + n] == (d + q)[..|d| + n]
  {
    assert (d + p)[..|d| + n] == d + p[..n];
    assert (d + q)[..|d| + n] == d + q[..n];
  }

  lemma PartPrefix(blocks: seq<seq<Byte>>, b: nat, head: nat, k: nat, n: nat)
    requires b < |blocks| && head < |blocks| && Head(k) <= n <= |blocks[b]| && n <= |blocks[head]|
    requires blocks[b][..n] == blocks[head][..n]
    ensures n - Head(k) <= |Part(blocks, b, k)| && n - Head(k) <= |Part(blocks, head, k)|
    ensures Part(blocks, b, k)[..n - Head(k)] == Part(blocks, head, k)[..n - Head(k)]
  {
    hide Head;
    var h := Head(k);
    assert blocks[b][h..][..n - h] == blocks[b][..n][h..];
    assert blocks[head][h..][..n - h] == blocks[head][..n][h..];
  }

  lemma CopyData(size: nat, blocks: seq<seq<Byte>>, chain: seq<nat>, front: seq<nat>, head: nat, fileSize: nat, b: nat, n: nat)
    requires File(blocks, size, chain, head, fileSize) && fileSize > 0 && chain == front + [head]
    requires n < size && Located(size, fileSize - 1, |front|, n - 1)
    requires b < |blocks| && |blocks[b]| == size && head < |blocks| && blocks[b][..n] == blocks[head][..n]
    ensures fileSize <= |Data(blocks, chain)| && fileSize <= |Data(blocks, front + [b])|
    ensures Data(blocks, front + [b])[..fileSize] == Data(blocks, chain)[..fileSize]
  {
    hide Data, Head, NodeLinked, Part, Start;
    ContentsLength(blocks, size, chain, head, fileSize);
    HeadSize(blocks, size, front, head);
    DataLength(blocks, size, front);
    DataSnoc(blocks, front, b);
    DataSnoc(blocks, front, head);
    PartPrefix(blocks, b, head, |front|, n);
    PrefixSum(Data(blocks, front), Part(blocks, b, |front|), Part(blocks, head, |front|), n - Head(|front|));
  }

  lemma HeadSize(blocks: seq<seq<Byte>>, size: nat, front: seq<nat>, head: nat)
    requires Linked(blocks, size, front + [head])
    ensures head < |blocks| && |blocks[head]| == size
    ensures forall k :: 0 <= k < |front| ==> front[k] < |blocks| && |blocks[front[k]]| == size
  {
    var all := front + [head];
    assert all[|front|] == head;
    assert forall k :: 0 <= k < |front| ==> all[k] == front[k];
  }

  lemma SamePrefixWord(m: seq<Byte>, m': seq<Byte>, n: nat, a: nat)
    requires n <= |m| && n <= |m'| && m[..n] == m'[..n] && a + 4 <= n
    ensures Word(m, a) == Word(m', a)
  {
    assert forall i :: 0 <= i < n ==> m[i] == m[..n][i] && m'[i] == m'[..n][i];
  }

  /// ---- Writing on ----------------------------------------------------------------------

  /** The list with other data in the last block behind its pointers. */
  lemma RelinkedLast(size: nat, blocks: seq<seq<Byte>>, front: seq<nat>, b: nat, m: seq<Byte>, n: nat)
    requires Linked(blocks, size, front + [b]) && b !in front && |m| == size && Head(|front|) <= n <= size
    ensures b < |blocks| && |blocks[b]| == size
    ensures m[..n] == blocks[b][..n] ==>
              && Linked(blocks[b := m], size, front + [b])
              && Data(blocks[b := m], front) == Data(blocks, front)
  {
    hide Ctz, Data, Head, Jump, NodeLinked, Pointer;
    HeadSize(blocks, size, front, b);
    if m[..n] == blocks[b][..n] {
      var blocks' := blocks[b := m];
      assert (front + [b])[..|front|] == front;
      LinkedPrefix(blocks, size, front + [b], |front|);
      LinkedSame(blocks, blocks', size, front);
      if front != [] {
        forall j | 0 <= j <= Ctz(|front|)
          ensures Pointer(blocks', b, j) == Jump(front, |front|, j)
        {
          OverwrittenPointer(size, blocks, front, b, m, n, j);
        }
      }
      LinkedSnoc(blocks', size, front, b);
    }
  }

  lemma OverwrittenPointer(size: nat, blocks: seq<seq<Byte>>, front: seq<nat>, b: nat, m: seq<Byte>, n: nat, j: nat)
    requires Linked(blocks, size, front + [b]) && front != [] && j <= Ctz(|front|)
    requires b < |blocks| && |blocks[b]| == size == |m| && Head(|front|) <= n <= size && m[..n] == blocks[b][..n]
    ensures Pointer(blocks[b := m], b, j) == Jump(front, |front|, j)
  {
    hide Ctz, Linked, Pow2, Word;
    var all := front + [b];
    assert all[|front|] == b;
    PointerAt(blocks, size, all, |front|, j);
    assert all[|front| - Pow2(j)] == front[|front| - Pow2(j)];
    SamePrefixWord(m, blocks[b], n, 4 * j);
  }

  /** Bytes written where the extension said make the file longer by just these. */
  lemma WriteBehind(size: nat, was: seq<seq<Byte>>, chain: seq<nat>, head: nat, fileSize: nat,
                    now: seq<seq<Byte>>, chain': seq<nat>, block: nat, off: nat, bytes: seq<Byte>)
    requires File(was, size, chain, head, fileSize) && |now| == |was|
    requires Extended(size, was, chain, fileSize, now, chain', block, off)
    requires bytes != [] && off + |bytes| <= size && fileSize + |bytes| < WORD_SPACE
    ensures block < |now| && |now[block]| == size
    ensures
      var done := now[block := Overwrite(now[block], off, bytes)];
      && File(done, size, chain', block, fileSize + |bytes|)
      && Contents(done, size, chain', block, fileSize + |bytes|) == Contents(was, size, chain, head, fileSize) + bytes
  {
    hide Data, Head, NodeLinked, Part, Start;
    var front := chain'[..|chain'| - 1];
    assert chain' == front + [block];
    HeadSize(now, size, front, block);
    var m := Overwrite(now[block], off, bytes);
    var done := now[block := m];
    OverwriteKeeps(now[block], off, bytes);
    RelinkedLast(size, now, front, block, m, off);
    NextStart(size, |front|);
    ContentsLength(done, size, chain', block, fileSize + |bytes|);
    WrittenData(size, now, front, block, off, bytes);
  }

  lemma WrittenData(size: nat, blocks: seq<seq<Byte>>, front: seq<nat>, b: nat, off: nat, bytes: seq<Byte>)
    requires b < |blocks| && |blocks[b]| == size >= MIN_SIZE && Head(|front|) <= off && off + |bytes| <= size
    requires |front| <= MAX_INDEX + 1 && forall k :: 0 <= k < |front| ==> front[k] < |blocks| && |blocks[front[k]]| == size
    requires Data(blocks[b := Overwrite(blocks[b], off, bytes)], front) == Data(blocks, front)
    ensures
      var n := Start(size, |front|) + off - Head(|front|);
      var data, data' := Data(blocks, front + [b]), Data(blocks[b := Overwrite(blocks[b], off, bytes)], front + [b]);
      0 <= n <= |data| && n + |bytes| <= |data'| && data'[..n + |bytes|] == data[..n] + bytes
  {
    hide Data, Head, Start;
    var m := Overwrite(blocks[b], off, bytes);
    DataLength(blocks, size, front);
    DataSnoc(blocks, front, b);
    DataSnoc(blocks[b := m], front, b);
    OverwriteKeeps(blocks[b], off, bytes);
    TailWritten(Data(blocks, front), blocks[b], m, Head(|front|), off, bytes);
  }

  lemma TailWritten(d: seq<Byte>, m: seq<Byte>, m': seq<Byte>, h: nat, off: nat, bytes: seq<Byte>)
    requires h <= off && off + |bytes| <= |m| == |m'| && m'[..off + |bytes|] == m[..off] + bytes
    ensures
      var n := |d| + off - h;
      (d + m'[h..])[..n + |bytes|] == (d + m[h..])[..n] + bytes
  {
    assert m'[h..][..off - h + |bytes|] == m'[..off + |bytes|][h..];
    assert (d + m'[h..])[..|d| + off - h + |bytes|] == d + m'[h..][..off - h + |bytes|];
    assert (m[..off] + bytes)[h..] == m[h..][..off - h] + bytes;
    assert (d + m[h..])[..|d| + off - h] == d + m[h..][..off - h];
  }

  /// ---- The operation ----------------------------------------------------------------------

  /** Programming word `i` leaves the words before it alone. */
  lemma PointerSet(blocks: seq<seq<Byte>>, b: nat, i: nat, v: nat)
    requires b < |blocks| && 4 * i + 4 <= |blocks[b]| && v < WORD_SPACE
    ensures
      var blocks' := blocks[b := SetWord(blocks[b], 4 * i, v)];
      Pointer(blocks', b, i) == v && forall j :: 0 <= j < i ==> Pointer(blocks', b, j) == Pointer(blocks, b, j)
  {
    WordSetWord(blocks[b], 4 * i, v);
    forall j | 0 <= j < i
      ensures Pointer(blocks[b := SetWord(blocks[b], 4 * i, v)], b, j) == Pointer(blocks, b, j)
    {
      SetWordElsewhere(blocks[b], 4 * i, v, 4 * j);
      hide SetWord, Word;
    }
  }

  /** Following pointer `i` from the block 2^i back leads 2^(i+1) back. */
  lemma NextJump(blocks: seq<seq<Byte>>, size: nat, chain: seq<nat>, i: nat)
    requires Linked(blocks, size, chain) && chain != [] && i < Ctz(|chain|)
    ensures Pow2(i) <= |chain| && Pow2(i + 1) <= |chain|
    ensures
      var from := chain[|chain| - Pow2(i)];
      && from < |blocks| && 4 * i + 4 <= |blocks[from]|
      && Word(blocks[from], 4 * i) == chain[|chain| - Pow2(i + 1)]
  {
    var n := |chain|;
    CtzStep(n, i);
    CtzStep(n, i + 1);
    PointerAt(blocks, size, chain, n - Pow2(i), i);
    hide Linked, Word;
  }

  function SetByte(m: seq<Byte>, i: nat, v: Byte): (m': seq<Byte>)
    requires i < |m|
    ensures |m'| == |m|
  {
    m[i := v]
  }

  class Flash {
    const size: nat
    var blocks: seq<seq<Byte>>

    constructor (size: nat, blocks: seq<seq<Byte>>)
      ensures this.size == size && this.blocks == blocks
    {
      this.size, this.blocks := size, blocks;
    }

    /** Erasing leaves nothing that can be relied on. */
    method Erase(b: nat, junk: seq<Byte>)
      requires b < |blocks| && |junk| == size
      modifies this
      ensures Only(old(blocks), blocks, b) && |blocks[b]| == size
    {
      blocks := blocks[b := junk];
    }

    method ProgByte(b: nat, i: nat, v: Byte)
      requires b < |blocks| && i < |blocks[b]|
      modifies this
      ensures blocks == old(blocks)[b := SetByte(old(blocks)[b], i, v)]
    {
      blocks := blocks[b := SetByte(blocks[b], i, v)];
    }

    method ProgWord(b: nat, a: nat, v: nat)
      requires b < |blocks| && a + 4 <= |blocks[b]|
      modifies this
      ensures blocks == old(blocks)[b := SetWord(old(blocks)[b], a, v)]
    {
      blocks := blocks[b := SetWord(blocks[b], a, v)];
    }

    /** The first `n` bytes of the last block are copied, byte by byte. */
    method CopyLast(c: Candidate, head: nat, n: nat) returns (ok: bool)
      requires c.block < |blocks| && head < |blocks| && c.block != head
      requires n <= |blocks[head]| && n <= |blocks[c.block]| && c.good > 0
      modifies this
      ensures Only(old(blocks), blocks, c.block) && |blocks[c.block]| == old(|blocks[c.block]|)
      ensures ok <==> c.good > n
      ensures ok ==> blocks[c.block][..n] == blocks[head][..n]
    {
      for i := 0 to n
        invariant Only(old(blocks), blocks, c.block) && |blocks[c.block]| == old(|blocks[c.block]|)
        invariant blocks[c.block][..i] == blocks[head][..i] && c.good > i
      {
        var data := blocks[head][i];
        ProgByte(c.block, i, data);
        if c.good <= i + 1 {
          return false;
        }
      }
      ok := true;
    }

    /** The pointers of a new block are found by following those of the list. */
    method WritePointers(c: Candidate, head: nat, index: nat, ghost chain: seq<nat>) returns (ok: bool)
      requires Linked(blocks, size, chain) && chain != [] && head == chain[|chain| - 1] && index == |chain|
      requires c.block < |blocks| && c.block !in chain && |blocks[c.block]| == size && Head(index) <= size
      requires |blocks| <= WORD_SPACE && c.good > 0
      modifies this
      ensures Only(old(blocks), blocks, c.block) && |blocks[c.block]| == size
      ensures ok <==> c.good > Ctz(index) + 1
      ensures ok ==> forall j :: 0 <= j <= Ctz(|chain|) ==> Pointer(blocks, c.block, j) == Jump(chain, |chain|, j)
    {
      hide Ctz, Linked, NodeLinked, Pointer, Pow2, SetWord, Word;
      ghost var blocks0 := blocks;
      var skips := Ctz(index) + 1;
      var nhead := head;
      FirstJump(chain);
      for i := 0 to skips
        invariant Only(blocks0, blocks, c.block) && |blocks[c.block]| == size && c.good > i
        invariant i < skips ==> nhead == Jump(chain, index, i)
        invariant forall j :: 0 <= j < i ==> Pointer(blocks, c.block, j) == Jump(chain, index, j)
      {
        JumpInside(blocks0, size, chain, i);
        PointerSet(blocks, c.block, i, nhead);
        ProgWord(c.block, 4 * i, nhead);
        if c.good <= i + 1 {
          return false;
        }
        if i != skips - 1 {
          NextJump(blocks0, size, chain, i);
          nhead := Word(blocks[nhead], 4 * i);
        }
      }
      ok := true;
    }

    /** One round of lfs_ctz_extend on a freshly allocated block; not ok means the
        block turned out bad. */
    method Attempt(c: Candidate, junk: seq<Byte>, head: nat, fileSize: nat, ghost chain: seq<nat>)
      returns (ok: bool, off: nat, ghost chain': seq<nat>)
      requires File(blocks, size, chain, head, fileSize)
      requires c.block < |blocks| && c.block !in chain && |junk| == size
      modifies this
      ensures Only(old(blocks), blocks, c.block) && |blocks[c.block]| == size
      ensures ok <==> c.good > Cost(size, |chain|, fileSize)
      ensures ok ==> Extended(size, old(blocks), chain, fileSize, blocks, chain', c.block, off)
    {
      hide Cost, Data, Extended, Linked, Located, Start;
      CostIs(blocks, size, chain, head, fileSize);
      chain' := [];
      Erase(c.block, junk);
      if c.good == 0 {
        return false, 0, [];
      }
      if fileSize == 0 {
        ExtendEmpty(size, old(blocks), blocks, c.block);
        return true, 0, [c.block];
      }
      var index, noff := CtzIndex(size, fileSize - 1);
      FileEnd(old(blocks), size, chain, head, fileSize, index, noff);
      FileSame(old(blocks), blocks, size, chain, head, fileSize, c.block);
      LastCost(size, |chain|, fileSize, noff);
      noff := noff + 1;
      if noff != size {
        LastBlock(blocks, size, chain, head, fileSize);
        ok := CopyLast(c, head, noff);
        if ok {
          ExtendCopy(size, old(blocks), blocks, chain, head, fileSize, c.block, noff);
          chain' := chain[..|chain| - 1] + [c.block];
        }
        return ok, noff, chain';
      }
      index := index + 1;
      FullFile(size, fileSize, |chain| - 1);
      PointersFit(index);
      ok := WritePointers(c, head, index, chain);
      if ok {
        ExtendFull(size, old(blocks), blocks, chain, head, fileSize, c.block);
        chain' := chain + [c.block];
      }
      return ok, 4 * (Ctz(index) + 1), chain';
    }

    /** lfs_ctz_extend: bad blocks are skipped until one works or the allocator has no
        more. Whatever happens, only blocks the allocator handed out are written. */
    method Extend(candidates: seq<Candidate>, junk: seq<Byte>, head: nat, fileSize: nat, ghost chain: seq<nat>)
      returns (block: Option<nat>, off: nat, ghost chain': seq<nat>)
      requires File(blocks, size, chain, head, fileSize) && |junk| == size
      requires forall c :: c in candidates ==> c.block < |blocks| && c.block !in chain
      modifies this
      ensures File(blocks, size, chain, head, fileSize)
      ensures Contents(blocks, size, chain, head, fileSize) == old(Contents(blocks, size, chain, head, fileSize))
      ensures block.Some? ==> Extended(size, old(blocks), chain, fileSize, blocks, chain', block.value, off)
      ensures block.None? <==> forall c :: c in candidates ==> c.good <= Cost(size, |chain|, fileSize)
      ensures block.Some? ==> exists n :: 0 <= n < |candidates| && FirstGood(candidates, n, Cost(size, |chain|, fileSize))
                                          && block.value == candidates[n].block
      ensures |blocks| == |old(blocks)|
      ensures forall b :: 0 <= b < |blocks| && (forall c :: c in candidates ==> c.block != b) ==> blocks[b] == old(blocks)[b]
    {
      hide Cost, Data, Extended, Linked, File;
      chain' := [];
      ghost var cost := Cost(size, |chain|, fileSize);
      for n := 0 to |candidates|
        invariant forall k :: 0 <= k < n ==> candidates[k].good <= cost
        invariant |blocks| == |old(blocks)| && File(blocks, size, chain, head, fileSize)
        invariant Data(blocks, chain) == Data(old(blocks), chain)
        invariant forall b :: 0 <= b < |blocks| && (forall c :: c in candidates ==> c.block != b) ==> blocks[b] == old(blocks)[b]
      {
        ghost var before := blocks;
        var ok;
        ok, off, chain' := Attempt(candidates[n], junk, head, fileSize, chain);
        FileSame(before, blocks, size, chain, head, fileSize, candidates[n].block);
        if ok {
          ExtendedFrom(size, old(blocks), before, chain, fileSize, blocks, chain', candidates[n].block, off);
          assert FirstGood(candidates, n, cost);
          return Some(candidates[n].block), off, chain';
        }
      }
      return None, 0, [];
    }
  }

  /** The first candidate that bears more operations than the cost. */
  predicate FirstGood(candidates: seq<Candidate>, n: nat, cost: int) {
    n < |candidates| && candidates[n].good > cost && forall k :: 0 <= k < n ==> candidates[k].good <= cost
  }

  lemma CostIs(blocks: seq<seq<Byte>>, size: nat, chain: seq<nat>, head: nat, fileSize: nat)
    requires File(blocks, size, chain, head, fileSize)
    ensures Cost(size, |chain|, fileSize) >= 0 && (fileSize == 0 ==> Cost(size, |chain|, fileSize) == 0)
  {
  }

  lemma LastCost(size: nat, n: nat, fileSize: nat, off: nat)
    requires n > 0 && fileSize > 0 && Located(size, fileSize - 1, n - 1, off)
    ensures Cost(size, n, fileSize) == if off + 1 == size then Ctz(n) + 1 else off + 1
  {
  }

  lemma FirstJump(chain: seq<nat>)
    requires chain != []
    ensures Jump(chain, |chain|, 0) == chain[|chain| - 1]
  {
    assert Pow2(0) == 1;
  }

  lemma JumpInside(blocks: seq<seq<Byte>>, size: nat, chain: seq<nat>, j: nat)
    requires Linked(blocks, size, chain) && chain != [] && j <= Ctz(|chain|)
    ensures Pow2(j) <= |chain| && chain[|chain| - Pow2(j)] < |blocks|
    ensures 4 * j + 4 <= Head(|chain|)
  {
    CtzStep(|chain|, j);
  }

  lemma LastBlock(blocks: seq<seq<Byte>>, size: nat, chain: seq<nat>, head: nat, fileSize: nat)
    requires File(blocks, size, chain, head, fileSize) && fileSize > 0
    ensures head in chain && head < |blocks| && |blocks[head]| == size
  {
  }

  lemma FullFile(size: nat, fileSize: nat, i: nat)
    requires Located(size, fileSize - 1, i, size - 1)
    ensures fileSize == Start(size, i + 1)
  {
  }

  lemma ExtendedFrom(size: nat, was: seq<seq<Byte>>, mid: seq<seq<Byte>>, chain: seq<nat>, fileSize: nat,
                     now: seq<seq<Byte>>, chain': seq<nat>, block: nat, off: nat)
    requires Data(mid, chain) == Data(was, chain) && Extended(size, mid, chain, fileSize, now, chain', block, off)
    ensures Extended(size, was, chain, fileSize, now, chain', block, off)
  {
  }
}
