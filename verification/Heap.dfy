/** The heap of port/linux/tuya_mem_heap.c in its 32-bit layout: an address-ordered
    free list with splitting and coalescing, in-band headers and guard bytes.
    Every operation keeps the heap image; releasing everything in any order
    restores one full-size block. */
module Heap {
  import opened BitMath
  import opened Bytes
  import opened HeapMemory

  /// ---- Sizes ----------------------------------------------------------------------------

  /** The smallest heap: a block of 24 bytes and its header. */
  const MIN_HEAP := 28

  /** Both macros work on 32-bit words. */
  function AlignUp(x: nat, align: nat): nat
    requires align > 0
  {
    AlignDown((x + (align - 1)) % WORD_SPACE, align)
  }

  /** The block size for a request: at least four bytes, a guard byte, rounded up,
      and the header, all in 32-bit arithmetic. */
  function BlockSize(size: nat, align: nat): nat
    requires align > 0
  {
    (AlignUp((size + 1) % WORD_SPACE, align) + HEAD) % WORD_SPACE
  }

  lemma BlockSize4(size: nat)
    requires 4 <= size < WORD_SPACE
    ensures BlockSize(size, 4) < size <==> AlignDown(size + 4, 4) + HEAD >= WORD_SPACE
    ensures BlockSize(size, 4) >= size ==>
              HEAD + size + 1 <= BlockSize(size, 4) < HEAD + size + 5 && BlockSize(size, 4) % 4 == 0
  {
    if size + 4 < WORD_SPACE {
      assert (size + 1) % WORD_SPACE == size + 1;
      assert ((size + 1) + 3) % WORD_SPACE == size + 4;
      assert AlignDown(size + 4, 4) % 4 == 0;
    } else {
      assert ((size + 1) % WORD_SPACE + 3) % WORD_SPACE < 4;
    }
  }

  lemma BlockSize8(size: nat)
    requires 4 <= size < WORD_SPACE
    ensures BlockSize(size, 8) < size <==> AlignDown(size + 8, 8) + HEAD >= WORD_SPACE
    ensures BlockSize(size, 8) >= size ==>
              HEAD + size + 1 <= BlockSize(size, 8) < HEAD + size + 9 && BlockSize(size, 8) % 4 == 0
  {
    hide AlignDown, BlockSize;
    Whole8(size + 8);
    if size + 8 < WORD_SPACE {
      NoWrap8(size);
    } else {
      Wrap8(size);
    }
  }

  lemma NoWrap8(size: nat)
    requires size + 8 < WORD_SPACE
    ensures BlockSize(size, 8) == AlignDown(size + 8, 8) + HEAD
  {
    assert (size + 1) % WORD_SPACE == size + 1;
    assert ((size + 1) + 7) % WORD_SPACE == size + 8;
    Whole8(size + 8);
    hide AlignDown;
  }

  lemma Wrap8(size: nat)
    requires WORD_SPACE <= size + 8 && size < WORD_SPACE
    ensures BlockSize(size, 8) == HEAD && AlignDown(size + 8, 8) == WORD_SPACE
  {
    assert ((size + 1) % WORD_SPACE + 7) % WORD_SPACE < 8;
    assert size + 8 - WORD_SPACE < 8 && (size + 8) % 8 == size + 8 - WORD_SPACE;
  }

  lemma Times8(q: nat)
    ensures (8 * q + HEAD) % 4 == 0
    ensures 8 * q < WORD_SPACE ==> 8 * q <= WORD_SPACE - 8
  {
    var r := 2 * q + 1;
    assert 8 * q + HEAD == 4 * r && 4 * r % 4 == 0;
  }

  lemma Whole8(x: nat)
    ensures (AlignDown(x, 8) + HEAD) % 4 == 0 && AlignDown(x, 8) <= x < AlignDown(x, 8) + 8
    ensures x < WORD_SPACE ==> AlignDown(x, 8) <= WORD_SPACE - 8
  {
    var q := x / 8;
    assert x == 8 * q + x % 8;
    Times8(q);
  }

  /** The wrap-around check of MEM_Allocate catches every overflow, and nothing
      else: otherwise the block has room for header, request and guard. */
  lemma BlockSizeSafe(size: nat, align: nat)
    requires align in {4, 8} && 4 <= size < WORD_SPACE
    ensures BlockSize(size, align) < size <==> AlignDown(size + align, align) + HEAD >= WORD_SPACE
    ensures BlockSize(size, align) >= size ==>
              HEAD + size + 1 <= BlockSize(size, align) < HEAD + size + 1 + align
              && MIN_BLOCK <= BlockSize(size, align) && BlockSize(size, align) % 4 == 0
  {
    hide AlignDown, BlockSize;
    if align == 4 {
      BlockSize4(size);
    } else {
      BlockSize8(size);
    }
  }

  /** What mem_heap_init makes of a region, in 32-bit arithmetic. */
  function InitSize(base: nat, size: nat, align: nat): nat
    requires align > 0
  {
    AlignDown((size - (AlignUp(base, align) - base)) % WORD_SPACE, align)
  }

  lemma Down4(x: nat, y: nat)
    ensures AlignDown(x, 4) + AlignDown(y, 4) == AlignDown(x + AlignDown(y, 4), 4) <= x + AlignDown(y, 4)
  {
    var q := y / 4;
    assert AlignDown(y, 4) == 4 * q;
    assert (x + 4 * q) % 4 == x % 4;
  }

  lemma Down8(x: nat, y: nat)
    ensures AlignDown(x, 8) + AlignDown(y, 8) == AlignDown(x + AlignDown(y, 8), 8) <= x + AlignDown(y, 8)
  {
    var q := y / 8;
    assert AlignDown(y, 8) == 8 * q;
    assert (x + 8 * q) % 8 == x % 8;
  }

  /** The heap spans the region from its first to its last aligned address. */
  lemma InitInside(base: nat, size: nat, align: nat)
    requires align in {4, 8} && 0 < base && base + size <= WORD_SPACE
    requires base <= AlignUp(base, align) <= base + size
    ensures AlignUp(base, align) + InitSize(base, size, align) == AlignDown(base + size, align) <= base + size
  {
    hide AlignDown;
    var rest := base + size - AlignUp(base, align);
    assert rest % WORD_SPACE == rest;
    Down4(rest, (base + (align - 1)) % WORD_SPACE);
    Down8(rest, (base + (align - 1)) % WORD_SPACE);
  }

  /** The heap that initialization claims lies inside the region it was given. */
  predicate ClaimsInside(base: nat, size: nat, align: nat)
    requires align > 0
  {
    base <= AlignUp(base, align) && AlignUp(base, align) + InitSize(base, size, align) <= base + size
  }

  /** The region contains an aligned address, or ends at one. */
  predicate HasAligned(base: nat, size: nat, align: nat)
    requires align > 0
  {
    base <= AlignUp(base, align) <= base + size
  }

  /** Regions without an aligned address are the ones that go wrong, and only
      they: either the subtraction wraps or the rounding up does. Initialization
      accepts them all and claims far more than it was given. */
  lemma InitExact(base: nat, size: nat, align: nat)
    requires align in {4, 8} && 0 < base < WORD_SPACE && base + size <= WORD_SPACE
    ensures ClaimsInside(base, size, align) <==> HasAligned(base, size, align)
    ensures !HasAligned(base, size, align) && base + size < WORD_SPACE ==>
              InitSize(base, size, align) >= WORD_SPACE - 16 && InitSize(base, size, align) > size + MIN_HEAP
  {
    if HasAligned(base, size, align) {
      hide AlignDown, AlignUp, InitSize;
      InitInside(base, size, align);
    } else {
      UpNear(base, align);
      hide AlignUp;
      var rest := size - (AlignUp(base, align) - base);
      if base + size < WORD_SPACE {
        var wrapped := if rest < 0 then rest + WORD_SPACE else rest;
        assert rest % WORD_SPACE == wrapped;
        DownNear(wrapped, align);
      }
    }
  }

  lemma DownNear(x: nat, align: nat)
    requires align in {4, 8}
    ensures x < AlignDown(x, align) + align
  {
    if align == 4 {
      assert x % 4 < 4;
    } else {
      assert x % 8 < 8;
    }
  }

  /** Rounding up passes the argument by less than the alignment, or starts over at zero. */
  lemma UpNear(base: nat, align: nat)
    requires align in {4, 8} && 0 < base < WORD_SPACE
    ensures AlignUp(base, align) < base + align
    ensures AlignUp(base, align) < base <==> base + align > WORD_SPACE
    ensures AlignUp(base, align) < base ==> AlignUp(base, align) == 0
  {
    if base + align > WORD_SPACE {
      assert (base + (align - 1)) % WORD_SPACE == base + (align - 1) - WORD_SPACE;
    } else {
      assert (base + (align - 1)) % WORD_SPACE == base + (align - 1);
      DownNear(base + align - 1, align);
    }
  }

  /** Two such regions: two bytes behind an aligned address, and two bytes at the
      top of the address space, whose heap starts at address zero. */
  lemma InitGoesWrong()
    ensures AlignUp(0x1001, 4) == 0x1004 && InitSize(0x1001, 2, 4) == 0xffff_fffc
    ensures AlignUp(0xffff_fffd, 4) == 0 && InitSize(0xffff_fffd, 2, 4) == 0xffff_fffc
    ensures !ClaimsInside(0x1001, 2, 4) && !ClaimsInside(0xffff_fffd, 2, 4)
  {
  }

  /** The addresses that initialization writes to exist: header, next pointer and
      the guard, whose address is a 32-bit sum. */
  predicate Reaches(top: nat, base: nat, size: nat, align: nat)
    requires align > 0
  {
    && AlignUp(base, align) + MIN_BLOCK <= top
    && (AlignUp(base, align) + InitSize(base, size, align) - 1) % WORD_SPACE < top
  }

  /** Initialization of a region with an aligned address stays inside of it. */
  lemma InitStays(m: seq<Byte>, base: nat, size: nat, ptr: nat, total: nat)
    requires base <= ptr && ptr + total <= base + size <= |m| && MIN_BLOCK <= total
    ensures
      var m' := SetWord(SetWord(m, ptr + HEAD, 0), ptr, total)[ptr + total - 1 := FREE];
      Same(m, m', 0, base) && Same(m, m', base + size, |m|)
  {
  }

  /** Otherwise the header it writes is outside of the region, and the guard does
      not fall on it. */
  lemma InitStrays(m: seq<Byte>, base: nat, size: nat, align: nat)
    requires align in {4, 8} && 0 < base && base + size <= |m| < WORD_SPACE
    requires !HasAligned(base, size, align) && Reaches(|m|, base, size, align)
    ensures
      var ptr, total := AlignUp(base, align), InitSize(base, size, align);
      var m' := SetWord(SetWord(m, ptr + HEAD, 0), ptr, total)[(ptr + total - 1) % WORD_SPACE := FREE];
      && Word(m', ptr) == total
      && (ptr + HEAD <= base || base + size < ptr)
  {
    var ptr, total := AlignUp(base, align), InitSize(base, size, align);
    hide AlignDown, AlignUp, ClaimsInside, InitSize, SetWord, Word;
    UpNear(base, align);
    InitExact(base, size, align);
    InitTop(base, size, align);
    GuardAway(ptr, total);
    var m1 := SetWord(m, ptr + HEAD, 0);
    WordSetWord(m1, ptr, total);
    SetByteWord(SetWord(m1, ptr, total), (ptr + total - 1) % WORD_SPACE, FREE, ptr);
  }

  lemma GuardAway(ptr: nat, total: nat)
    requires ptr < WORD_SPACE && WORD_SPACE - 16 <= total < WORD_SPACE
    ensures var at := (ptr + total - 1) % WORD_SPACE;
      at < ptr || ptr + 4 <= at
  {
    if ptr + total - 1 >= WORD_SPACE {
      assert (ptr + total - 1) % WORD_SPACE == ptr + total - 1 - WORD_SPACE;
    }
  }

  lemma InitTop(base: nat, size: nat, align: nat)
    requires align > 0
    ensures InitSize(base, size, align) < WORD_SPACE
  {
  }

  lemma InitImage(m: seq<Byte>, x: Blk)
    requires 0 < x.addr && MIN_BLOCK <= x.size && x.End() <= |m| < WORD_SPACE && !x.used
    ensures Image(SetWord(SetWord(m, x.addr + HEAD, 0), x.addr, x.size)[x.addr + x.size - 1 := FREE],
                  [x], x.addr, x.End(), x.addr)
    ensures FreeSum([x]) == x.size
  {
    var m1 := SetWord(m, x.addr + HEAD, 0);
    WordSetWord(m, x.addr + HEAD, 0);
    ShapeCoded(m1, x);
    CodedOne(Shape(m1, x), x, 0);
    assert [x][1..] == [];
  }

  /// ---- Walking the free list ----------------------------------------------------------

  /** The first free block at or after index `i`, or the number of blocks. */
  function NextIdx(bs: seq<Blk>, i: nat): (k: nat)
    requires i <= |bs|
    ensures i <= k <= |bs|
    decreases |bs| - i
  {
    if i == |bs| || !bs[i].used then i else NextIdx(bs, i + 1)
  }

  function AddrOf(bs: seq<Blk>, k: nat): nat {
    if k < |bs| then bs[k].addr else 0
  }

  /** The walk stands at block `k` (or past the end), `p` is the free block before
      it (or -1), and everything between is in use. */
  predicate Stand(bs: seq<Blk>, p: int, k: nat) {
    && -1 <= p < k <= |bs|
    && (k < |bs| ==> !bs[k].used) && (p >= 0 ==> !bs[p].used)
    && forall j :: p < j < k ==> bs[j].used
  }

  lemma {:induction false} NextIdxStand(bs: seq<Blk>, i: nat)
    requires i <= |bs|
    ensures FirstFree(bs[i..], 0) == AddrOf(bs, NextIdx(bs, i))
    ensures NextIdx(bs, i) < |bs| ==> !bs[NextIdx(bs, i)].used
    ensures forall j :: i <= j < NextIdx(bs, i) ==> bs[j].used
    decreases |bs| - i
  {
    if i < |bs| && bs[i].used {
      NextIdxStand(bs, i + 1);
      assert bs[i..][1..] == bs[i + 1..];
    }
  }

  /** What the words of a free block say about the walk. */
  lemma ReadFree(m: seq<Byte>, bs: seq<Blk>, lo: nat, hi: nat, head: nat, k: nat)
    requires Loose(m, bs, lo, hi, head) && k < |bs|
    ensures bs[k].size >= MIN_BLOCK && 0 < lo <= bs[k].addr && bs[k].End() <= hi <= |m|
    ensures Word(m, bs[k].addr) == bs[k].size
    ensures m[bs[k].Guard()] == if bs[k].used then IN_USE else FREE
    ensures !bs[k].used ==> Word(m, bs[k].addr + HEAD) == AddrOf(bs, NextIdx(bs, k + 1))
    ensures !bs[k].used ==> Stand(bs, k, NextIdx(bs, k + 1))
  {
    Around(bs, k);
    Middle(m, bs[..k], bs[k], bs[k + 1..], lo, hi, head);
    NextIdxStand(bs, k + 1);
    hide Coded, FirstFree, Loose, NextIdx, Tiled, Word;
  }

  lemma Around(bs: seq<Blk>, k: nat)
    requires k < |bs|
    ensures bs[..k] + [bs[k]] + bs[k + 1..] == bs
  {
  }

  lemma ReadHead(m: seq<Byte>, bs: seq<Blk>, lo: nat, hi: nat, head: nat)
    requires Loose(m, bs, lo, hi, head)
    ensures head == AddrOf(bs, NextIdx(bs, 0)) && Stand(bs, -1, NextIdx(bs, 0))
  {
    NextIdxStand(bs, 0);
    assert bs[0..] == bs;
  }

  /// ---- Choosing a block ---------------------------------------------------------------------

  predicate Fits(bs: seq<Blk>, n: nat, k: int) {
    0 <= k < |bs| && !bs[k].used && bs[k].size >= n
  }

  ghost predicate NoBetter(bs: seq<Blk>, n: nat, k: nat) {
    forall j :: Fits(bs, n, j) && k < |bs| ==> bs[k].size <= bs[j].size
  }

  ghost predicate NoBetterBefore(bs: seq<Blk>, n: nat, k: nat, end: nat) {
    forall j :: Fits(bs, n, j) && j < end && k < |bs| ==> bs[k].size <= bs[j].size
  }

  /** A later block that still fits and is no larger. */
  predicate Improves(bs: seq<Blk>, n: nat, i: int, j: int) {
    i < j && Fits(bs, n, i) && Fits(bs, n, j) && bs[j].size <= bs[i].size
  }

  /** `k` came up after three improvements on the first fit. */
  ghost predicate ThirdChoice(bs: seq<Blk>, n: nat, k: nat) {
    exists f, i, j :: Improves(bs, n, f, i) && Improves(bs, n, i, j) && Improves(bs, n, j, k)
  }

  /** The first block from `i` on that fits, or the number of blocks. */
  function FirstFit(bs: seq<Blk>, n: nat, i: nat): (k: nat)
    requires i <= |bs|
    decreases |bs| - i
  {
    if i == |bs| || Fits(bs, n, i) then i else FirstFit(bs, n, i + 1)
  }

  /** The choice between block `k` and those from `j` on: each that fits and is no larger
      takes over, until that happened three times. */
  function Improved(bs: seq<Blk>, n: nat, j: nat, k: nat, found: nat): nat
    requires j <= |bs| && k < |bs|
    decreases |bs| - j
  {
    if j == |bs| || found >= 3 then k
    else if Fits(bs, n, j) && bs[j].size <= bs[k].size then Improved(bs, n, j + 1, j, found + 1)
    else Improved(bs, n, j + 1, k, found)
  }

  function Chosen(bs: seq<Blk>, n: nat): nat {
    var k := FirstFit(bs, n, 0);
    if k < |bs| then Improved(bs, n, k + 1, k, 0) else |bs|
  }

  lemma {:induction false} FirstFitIs(bs: seq<Blk>, n: nat, i: nat, k: nat)
    requires i <= k <= |bs| && (k < |bs| ==> Fits(bs, n, k)) && forall j :: i <= j < k ==> !Fits(bs, n, j)
    ensures FirstFit(bs, n, i) == k
    decreases |bs| - i
  {
    if i < k {
      FirstFitIs(bs, n, i + 1, k);
    }
  }

  /** Blocks in use do not matter. */
  lemma {:induction false} ImprovedSkips(bs: seq<Blk>, n: nat, j: nat, l: nat, k: nat, found: nat)
    requires j <= l <= |bs| && k < |bs| && forall x :: j <= x < l ==> bs[x].used
    ensures Improved(bs, n, j, k, found) == Improved(bs, n, l, k, found)
    decreases l - j
  {
    if j < l {
      ImprovedSkips(bs, n, j + 1, l, k, found);
    }
  }

  /** One step of the choice, to the next free block. */
  lemma ImprovedStep(bs: seq<Blk>, n: nat, l: nat, k: nat, found: nat)
    requires l < |bs| && k < |bs| && found < 3
    ensures
      var next := NextIdx(bs, l + 1);
      Improved(bs, n, l, k, found) ==
      if Fits(bs, n, l) && bs[l].size <= bs[k].size then
        if found + 1 >= 3 then l else Improved(bs, n, next, l, found + 1)
      else Improved(bs, n, next, k, found)
  {
    var next := NextIdx(bs, l + 1);
    NextIdxStand(bs, l + 1);
    ImprovedSkips(bs, n, l + 1, next, k, found);
    ImprovedSkips(bs, n, l + 1, next, l, found + 1);
  }

  lemma ImprovedStart(bs: seq<Blk>, n: nat, k: nat)
    requires k < |bs|
    ensures Improved(bs, n, NextIdx(bs, k + 1), k, 0) == Improved(bs, n, k + 1, k, 0)
  {
    NextIdxStand(bs, k + 1);
    ImprovedSkips(bs, n, k + 1, NextIdx(bs, k + 1), k, 0);
  }

  lemma ImprovedEnds(bs: seq<Blk>, n: nat, k: nat, found: nat)
    requires k < |bs|
    ensures Improved(bs, n, |bs|, k, found) == k
  {
  }

  /// ---- Allocation, block by block --------------------------------------------------------------

  /** The block that serves a request for `n` bytes out of free block `x`. */
  function Served(x: Blk, n: nat): Blk {
    if x.size >= n + MIN_HEAP then Blk(x.addr + (x.size - n), n, true) else x.(used := true)
  }

  /** The block list after serving the request: split if enough is left over. */
  function Serve(bs: seq<Blk>, k: nat, n: nat): seq<Blk>
    requires k < |bs|
  {
    var x := bs[k];
    if x.size >= n + MIN_HEAP then
      bs[..k] + [Blk(x.addr, x.size - n, false)] + ([Served(x, n)] + bs[k + 1..])
    else bs[..k] + [Served(x, n)] + bs[k + 1..]
  }

  /** Every block in use but the one at `k` holds the bytes it held. */
  ghost predicate UsersKept(m: seq<Byte>, m': seq<Byte>, bs: seq<Blk>, k: int) {
    forall j :: 0 <= j < |bs| && j != k && bs[j].used ==> Same(m, m', bs[j].addr, bs[j].End())
  }

  lemma OthersOutside(bs: seq<Blk>, lo: nat, hi: nat, k: nat)
    requires Tiled(bs, lo, hi) && k < |bs|
    ensures forall j :: 0 <= j < k ==> bs[j].End() <= bs[k].addr
    ensures forall j :: k < j < |bs| ==> bs[k].End() <= bs[j].addr
  {
    Around(bs, k);
    assert bs == bs[..k] + ([bs[k]] + bs[k + 1..]) && ([bs[k]] + bs[k + 1..])[1..] == bs[k + 1..];
    TiledJoin(bs[..k], [bs[k]] + bs[k + 1..], lo, hi);
    TiledEnd(bs[..k], lo, EndOf(bs[..k], lo));
    TiledEnd(bs[k + 1..], bs[k].End(), hi);
  }

  /** Writes inside block `k` leave all others alone. */
  lemma InsideKeeps(m: seq<Byte>, m': seq<Byte>, bs: seq<Blk>, lo: nat, hi: nat, k: nat)
    requires Tiled(bs, lo, hi) && k < |bs| && hi <= |m| == |m'|
    requires Same(m, m', 0, bs[k].addr) && Same(m, m', bs[k].End(), |m|)
    ensures UsersKept(m, m', bs, k)
  {
    OthersOutside(bs, lo, hi, k);
  }

  lemma CarveAt(m: seq<Byte>, bs: seq<Blk>, lo: nat, hi: nat, head: nat, k: nat, n: nat)
    requires Image(m, bs, lo, hi, head) && Fits(bs, n, k) && n >= MIN_BLOCK && bs[k].size >= n + MIN_HEAP
    ensures bs[k].End() <= |m| && Image(Carve(m, bs[k], n), Serve(bs, k, n), lo, hi, head)
    ensures UsersKept(m, Carve(m, bs[k], n), bs, k)
  {
    Around(bs, k);
    CarveImage(m, bs[..k], bs[k], bs[k + 1..], lo, hi, head, n);
    InsideKeeps(m, Carve(m, bs[k], n), bs, lo, hi, k);
  }

  /** The link that has to change when block `k` leaves the free list. */
  function Unlink(m: seq<Byte>, bs: seq<Blk>, p: int, next: nat): (m': seq<Byte>)
    requires 0 <= p < |bs| ==> bs[p].addr + HEAD + 4 <= |m|
    ensures |m'| == |m|
  {
    if 0 <= p < |bs| then SetWord(m, bs[p].addr + HEAD, next) else m
  }

  lemma UnlinkKeeps(m: seq<Byte>, bs: seq<Blk>, lo: nat, hi: nat, p: nat, next: nat)
    requires Tiled(bs, lo, hi) && hi <= |m| && p < |bs| && bs[p].size >= MIN_BLOCK && bs[p].End() <= hi
    ensures UsersKept(m, SetWord(m, bs[p].addr + HEAD, next), bs, p)
  {
    SetWordSame(m, bs[p].addr + HEAD, next, 0, bs[p].addr);
    SetWordSame(m, bs[p].addr + HEAD, next, bs[p].End(), |m|);
    hide SetWord, Tiled;
    InsideKeeps(m, SetWord(m, bs[p].addr + HEAD, next), bs, lo, hi, p);
  }

  lemma MarkKeeps(m: seq<Byte>, bs: seq<Blk>, lo: nat, hi: nat, k: nat, v: Byte)
    requires Tiled(bs, lo, hi) && hi <= |m| && k < |bs| && bs[k].size >= MIN_BLOCK && bs[k].End() <= hi
    ensures UsersKept(m, m[bs[k].Guard() := v], bs, k)
  {
    GuardSame(m, bs[k], v);
    hide Same, Tiled;
    InsideKeeps(m, m[bs[k].Guard() := v], bs, lo, hi, k);
  }

  lemma KeptChain(m: seq<Byte>, m1: seq<Byte>, m2: seq<Byte>, bs: seq<Blk>, p: int, k: int)
    requires UsersKept(m, m1, bs, p) && UsersKept(m1, m2, bs, k) && (0 <= p < |bs| ==> !bs[p].used || p == k)
    ensures UsersKept(m, m2, bs, k)
  {
  }

  lemma ImageParts(m: seq<Byte>, bs: seq<Blk>, lo: nat, hi: nat, head: nat)
    requires Image(m, bs, lo, hi, head)
    ensures Loose(m, bs, lo, hi, head) && Tiled(bs, lo, hi) && 0 < lo && hi <= |m|
  {
  }

  lemma TakeAt(m: seq<Byte>, bs: seq<Blk>, lo: nat, hi: nat, head: nat, p: int, k: nat)
    requires Image(m, bs, lo, hi, head) && Stand(bs, p, k) && k < |bs|
    ensures bs[k].size >= MIN_BLOCK && bs[k].End() <= |m| && (p >= 0 ==> bs[p].addr + HEAD + 4 <= |m|)
    ensures p < 0 ==> head == bs[k].addr
    ensures
      var next := Word(m, bs[k].addr + HEAD);
      var m' := Unlink(m, bs, p, next)[bs[k].Guard() := IN_USE];
      && Image(m', bs[..k] + [bs[k].(used := true)] + bs[k + 1..], lo, hi, if p < 0 then next else head)
      && UsersKept(m, m', bs, k)
  {
    hide Image, Loose, SetWord, Tiled, UsersKept, Word;
    Around(bs, k);
    ImageParts(m, bs, lo, hi, head);
    ReadFree(m, bs, lo, hi, head, k);
    if p < 0 {
      TakeFirst(m, bs[..k], bs[k], bs[k + 1..], lo, hi, head);
      MarkKeeps(m, bs, lo, hi, k, IN_USE);
    } else {
      assert bs[..p] + [bs[p]] + bs[p + 1..k] == bs[..k];
      TakeAfter(m, bs[..p], bs[p], bs[p + 1..k], bs[k], bs[k + 1..], lo, hi, head);
      ReadFree(m, bs, lo, hi, head, p);
      var m1 := SetWord(m, bs[p].addr + HEAD, FirstFree(bs[k + 1..], 0));
      UnlinkKeeps(m, bs, lo, hi, p, FirstFree(bs[k + 1..], 0));
      MarkKeeps(m1, bs, lo, hi, k, IN_USE);
      KeptChain(m, m1, m1[bs[k].Guard() := IN_USE], bs, p, k);
    }
  }

  /** What the free bytes become. */
  lemma ServeFreeSum(bs: seq<Blk>, k: nat, n: nat)
    requires Fits(bs, n, k)
    ensures FreeSum(Serve(bs, k, n)) == FreeSum(bs) - Served(bs[k], n).size
  {
    var x := bs[k];
    var a, b := bs[..k], bs[k + 1..];
    Around(bs, k);
    FreeSumCut(a, x, b);
    FreeSumCut(a, Served(x, n), b);
    FreeSumCut(a, Blk(x.addr, x.size - n, false), [Served(x, n)] + b);
    FreeSumCut([], Served(x, n), b);
    assert [] + [Served(x, n)] + b == [Served(x, n)] + b;
  }

  /** The header of the served block, and what is left free. */
  lemma ServedSize(m: seq<Byte>, m': seq<Byte>, bs: seq<Blk>, lo: nat, hi: nat, head: nat, head': nat, k: nat, n: nat)
    requires Image(m, bs, lo, hi, head) && Fits(bs, n, k) && n >= MIN_BLOCK
    requires Image(m', Serve(bs, k, n), lo, hi, head')
    ensures
      var u := Served(bs[k], n);
      && 0 < lo <= u.addr && u.size >= n && u.End() <= |m'| && Word(m', u.addr) == u.size
      && FreeSum(Serve(bs, k, n)) == FreeSum(bs) - u.size
  {
    hide Image, Loose, FreeSum, Word;
    var at := if bs[k].size >= n + MIN_HEAP then k + 1 else k;
    ImageParts(m, bs, lo, hi, head);
    ImageParts(m', Serve(bs, k, n), lo, hi, head');
    ServedAt(bs, k, n);
    ReadFree(m', Serve(bs, k, n), lo, hi, head', at);
    ServeFreeSum(bs, k, n);
  }

  lemma ServedAt(bs: seq<Blk>, k: nat, n: nat)
    requires Fits(bs, n, k)
    ensures
      var at := if bs[k].size >= n + MIN_HEAP then k + 1 else k;
      at < |Serve(bs, k, n)| && Serve(bs, k, n)[at] == Served(bs[k], n)
  {
  }

  lemma FreeSumCut(a: seq<Blk>, x: Blk, b: seq<Blk>)
    ensures FreeSum(a + [x] + b) == FreeSum(a) + (if x.used then 0 else x.size) + FreeSum(b)
  {
    FreeSumJoin(a + [x], b);
    FreeSumJoin(a, [x]);
    assert [x][1..] == [];
  }

  /// ---- Release, block by block --------------------------------------------------------------

  /** The block that results when used block `i` is freed: joined with a free
      neighbour on either side. */
  function Joined(bs: seq<Blk>, i: nat): Blk
    requires i < |bs|
  {
    var left := i > 0 && !bs[i - 1].used;
    var right := i + 1 < |bs| && !bs[i + 1].used;
    Blk(if left then bs[i - 1].addr else bs[i].addr,
        (if left then bs[i - 1].size else 0) + bs[i].size + (if right then bs[i + 1].size else 0),
        false)
  }

  function Before(bs: seq<Blk>, i: nat): seq<Blk>
    requires i < |bs|
  {
    if i > 0 && !bs[i - 1].used then bs[..i - 1] else bs[..i]
  }

  function Behind(bs: seq<Blk>, i: nat): seq<Blk>
    requires i < |bs|
  {
    if i + 1 < |bs| && !bs[i + 1].used then bs[i + 2..] else bs[i + 1..]
  }

  function Released(bs: seq<Blk>, i: nat): seq<Blk>
    requires i < |bs|
  {
    Before(bs, i) + [Joined(bs, i)] + Behind(bs, i)
  }

  lemma ReleasedCoalesced(bs: seq<Blk>, i: nat)
    requires Coalesced(bs) && i < |bs| && bs[i].used
    ensures Coalesced(Released(bs, i))
  {
    var a, b := Before(bs, i), Behind(bs, i);
    assert forall j :: 0 <= j < |a| ==> a[j] == bs[j];
    assert forall j :: 0 <= j < |b| ==> b[j] == bs[j + (|bs| - |b|)];
    CoalescedCut(a, Joined(bs, i), b);
  }

  lemma SidesFreeSum(bs: seq<Blk>, i: nat)
    requires i < |bs|
    ensures FreeSum(bs[..i]) == FreeSum(Before(bs, i)) + if i > 0 && !bs[i - 1].used then bs[i - 1].size else 0
    ensures FreeSum(bs[i + 1..]) == FreeSum(Behind(bs, i)) + if i + 1 < |bs| && !bs[i + 1].used then bs[i + 1].size else 0
  {
    hide FreeSum;
    FreeSumCut([], bs[i], []);
    if i > 0 && !bs[i - 1].used {
      assert bs[..i] == bs[..i - 1] + [bs[i - 1]] + [];
      FreeSumCut(bs[..i - 1], bs[i - 1], []);
      FreeSumNil();
    }
    if i + 1 < |bs| && !bs[i + 1].used {
      assert bs[i + 1..] == [] + [bs[i + 1]] + bs[i + 2..];
      FreeSumCut([], bs[i + 1], bs[i + 2..]);
      FreeSumNil();
    }
  }

  lemma FreeSumNil()
    ensures FreeSum([]) == 0
  {
  }

  lemma ReleasedFreeSum(bs: seq<Blk>, i: nat)
    requires i < |bs| && bs[i].used
    ensures FreeSum(Released(bs, i)) == FreeSum(bs) + bs[i].size
  {
    hide Before, Behind, FreeSum;
    Around(bs, i);
    FreeSumCut(bs[..i], bs[i], bs[i + 1..]);
    FreeSumCut(Before(bs, i), Joined(bs, i), Behind(bs, i));
    SidesFreeSum(bs, i);
  }

  /** The walk that looks for the free neighbours of a used block in the list. */
  predicate Neighbours(bs: seq<Blk>, p: int, i: nat, k: nat) {
    Stand(bs, p, k) && p < i < k && bs[i].used
  }

  lemma NeighbourLinks(bs: seq<Blk>, p: int, i: nat, k: nat)
    requires Neighbours(bs, p, i, k)
    ensures FirstFree(bs[i + 1..], 0) == AddrOf(bs, k)
    ensures p < 0 ==> AllUsed(bs[..i])
    ensures p >= 0 ==> AllUsed(bs[p + 1..i]) && bs[..i] == bs[..p] + [bs[p]] + bs[p + 1..i]
  {
    NextIdxIs(bs, i + 1, k);
    NextIdxStand(bs, i + 1);
  }

  lemma {:induction false} NextIdxIs(bs: seq<Blk>, i: nat, k: nat)
    requires i <= k <= |bs| && (k < |bs| ==> !bs[k].used)
    requires forall j :: i <= j < k ==> bs[j].used
    ensures NextIdx(bs, i) == k
    decreases k - i
  {
    if i < k {
      NextIdxIs(bs, i + 1, k);
    }
  }

  /** In a tiled list, blocks touch exactly when they are neighbours. */
  lemma TouchIsNext(bs: seq<Blk>, lo: nat, hi: nat, p: nat, i: nat)
    requires Tiled(bs, lo, hi) && p < i < |bs|
    ensures bs[p].End() == bs[i].addr <==> p + 1 == i
    ensures bs[p].addr < bs[i].addr
  {
    Around(bs, p);
    assert bs == bs[..p] + ([bs[p]] + bs[p + 1..]) && ([bs[p]] + bs[p + 1..])[1..] == bs[p + 1..];
    TiledJoin(bs[..p], [bs[p]] + bs[p + 1..], lo, hi);
    var rest := bs[p + 1..];
    OthersOutside(bs, lo, hi, p);
    assert rest[0] == bs[p + 1] && bs[p].End() == bs[p + 1].addr && bs[p].size >= MIN_BLOCK;
    if p + 1 < i {
      OthersOutside(bs, lo, hi, p + 1);
      assert rest[0].size >= MIN_BLOCK;
    }
  }

  /** Memory after the released block was linked or swallowed on its left. */
  function LinkLeft(m: seq<Byte>, bs: seq<Blk>, p: int, i: nat, next: nat): (m': seq<Byte>)
    requires i < |bs| && bs[i].size >= MIN_BLOCK && bs[i].End() <= |m|
    requires p < i && (p >= 0 ==> bs[p].addr + HEAD + 4 <= |m|)
    ensures |m'| == |m|
  {
    var m0 := Release(m, bs[i], next);
    if p < 0 then m0
    else if p == i - 1 then SetWord(m0, bs[p].addr, bs[p].size + bs[i].size)
    else SetWord(m0, bs[p].addr + HEAD, bs[i].addr)
  }

  /** The block list after the left side was settled. */
  function LeftJoined(bs: seq<Blk>, i: nat): Blk
    requires i < |bs|
  {
    if i > 0 && !bs[i - 1].used then Blk(bs[i - 1].addr, bs[i - 1].size + bs[i].size, false)
    else bs[i].(used := false)
  }

  lemma AroundTwo(bs: seq<Blk>, p: nat)
    requires p + 1 < |bs|
    ensures bs[..p] + [bs[p]] + ([bs[p + 1]] + bs[p + 2..]) == bs
  {
  }

  /** The left side in the three cases: first in the list, swallowed by the block
      before it, or linked behind an earlier one. */
  lemma SettleFirst(m: seq<Byte>, bs: seq<Blk>, lo: nat, hi: nat, head: nat, i: nat, k: nat)
    requires Loose(m, bs, lo, hi, head) && Neighbours(bs, -1, i, k)
    ensures bs[i].size >= MIN_BLOCK && bs[i].End() <= |m|
    ensures Loose(Release(m, bs[i], AddrOf(bs, k)), bs[..i] + [bs[i].(used := false)] + bs[i + 1..], lo, hi, bs[i].addr)
  {
    hide AddrOf, AllUsed, FirstFree, Loose, Neighbours, Release, SetWord, Word;
    NeighbourUsed(bs, -1, i, k);
    Around(bs, i);
    NeighbourLinks(bs, -1, i, k);
    ReleaseFirst(m, bs[..i], bs[i], bs[i + 1..], lo, hi, head);
  }

  lemma NeighbourUsed(bs: seq<Blk>, p: int, i: nat, k: nat)
    requires Neighbours(bs, p, i, k)
    ensures bs[i].used && -1 <= p < i < k <= |bs| && (p >= 0 ==> !bs[p].used)
  {
  }

  lemma SettleInto(m: seq<Byte>, bs: seq<Blk>, lo: nat, hi: nat, head: nat, p: nat, i: nat, k: nat)
    requires Loose(m, bs, lo, hi, head) && Neighbours(bs, p, i, k) && p == i - 1
    ensures bs[i].size >= MIN_BLOCK && bs[i].End() <= |m| && bs[p].addr + HEAD + 4 <= |m|
    ensures Loose(SetWord(Release(m, bs[i], AddrOf(bs, k)), bs[p].addr, bs[p].size + bs[i].size),
                  bs[..p] + [Blk(bs[p].addr, bs[p].size + bs[i].size, false)] + bs[i + 1..], lo, hi, head)
  {
    hide AddrOf, AllUsed, FirstFree, Loose, Neighbours, Release, SetWord, Word;
    NeighbourUsed(bs, p, i, k);
    AroundTwo(bs, p);
    NeighbourLinks(bs, p, i, k);
    ReadFree(m, bs, lo, hi, head, p);
    ReadFree(m, bs, lo, hi, head, i);
    ReleaseInto(m, bs[..p], bs[p], bs[i], bs[i + 1..], lo, hi, head);
  }

  lemma SettleAfter(m: seq<Byte>, bs: seq<Blk>, lo: nat, hi: nat, head: nat, p: nat, i: nat, k: nat)
    requires Loose(m, bs, lo, hi, head) && Neighbours(bs, p, i, k) && p < i - 1
    ensures bs[i].size >= MIN_BLOCK && bs[i].End() <= |m| && bs[p].addr + HEAD + 4 <= |m|
    ensures Loose(SetWord(Release(m, bs[i], AddrOf(bs, k)), bs[p].addr + HEAD, bs[i].addr),
                  bs[..i] + [bs[i].(used := false)] + bs[i + 1..], lo, hi, head)
  {
    hide AddrOf, AllUsed, FirstFree, Loose, Neighbours, Release, SetWord, Word;
    NeighbourUsed(bs, p, i, k);
    Around(bs, i);
    NeighbourLinks(bs, p, i, k);
    ReadFree(m, bs, lo, hi, head, p);
    ReadFree(m, bs, lo, hi, head, i);
    ReleaseAfter(m, bs[..p], bs[p], bs[p + 1..i], bs[i], bs[i + 1..], lo, hi, head);
  }

  lemma SettleLeft(m: seq<Byte>, bs: seq<Blk>, lo: nat, hi: nat, head: nat, p: int, i: nat, k: nat)
    requires Loose(m, bs, lo, hi, head) && Neighbours(bs, p, i, k)
    ensures bs[i].size >= MIN_BLOCK && bs[i].End() <= |m| && (p >= 0 ==> bs[p].addr + HEAD + 4 <= |m|)
    ensures
      var m' := LinkLeft(m, bs, p, i, AddrOf(bs, k));
      Loose(m', Before(bs, i) + [LeftJoined(bs, i)] + bs[i + 1..], lo, hi, if p < 0 then bs[i].addr else head)
  {
    hide AddrOf, Loose, Release, SetWord;
    if p < 0 {
      SettleFirst(m, bs, lo, hi, head, i, k);
    } else if p == i - 1 {
      SettleInto(m, bs, lo, hi, head, p, i, k);
    } else {
      SettleAfter(m, bs, lo, hi, head, p, i, k);
    }
  }

  /** Memory after the joined block also swallowed the free block on its right. */
  function LinkRight(m: seq<Byte>, y: Blk, z: Blk, next: nat): (m': seq<Byte>)
    requires y.addr + HEAD + 4 <= |m|
    ensures |m'| == |m|
  {
    SetWord(SetWord(m, y.addr, y.size + z.size), y.addr + HEAD, next)
  }

  /** After the left side: the joined block stands where it should, and touches the
      next free block exactly when that is its neighbour. */
  lemma LeftStands(m: seq<Byte>, bs: seq<Blk>, lo: nat, hi: nat, head: nat, p: int, i: nat, k: nat, m1: seq<Byte>, head1: nat)
    requires Image(m, bs, lo, hi, head) && Neighbours(bs, p, i, k)
    requires Loose(m1, Before(bs, i) + [LeftJoined(bs, i)] + bs[i + 1..], lo, hi, head1)
    ensures
      var y := LeftJoined(bs, i);
      && y.size >= MIN_BLOCK && y.End() <= |m1| && Word(m1, y.addr) == y.size
      && (k < |bs| ==> (y.End() == bs[k].addr <==> k == i + 1))
      && (k < |bs| ==> bs[k].addr + HEAD + 4 <= |m1| && bs[k].addr != 0 && Word(m1, bs[k].addr) == bs[k].size)
  {
    hide Image, Loose, Tiled, Word;
    var y := LeftJoined(bs, i);
    Middle(m1, Before(bs, i), y, bs[i + 1..], lo, hi, head1);
    ImageParts(m, bs, lo, hi, head);
    ReadFree(m, bs, lo, hi, head, i);
    if i > 0 {
      TouchIsNext(bs, lo, hi, i - 1, i);
    }
    if k < |bs| {
      TouchIsNext(bs, lo, hi, i, k);
      ReadBehind(m1, Before(bs, i), y, bs, lo, hi, head1, i, k);
    }
    CodedSize(m1, y, FirstFree(bs[i + 1..], 0));
    LooseLength(m1, Before(bs, i) + [y] + bs[i + 1..], lo, hi, head1);
  }

  lemma ReadBehind(m: seq<Byte>, a: seq<Blk>, y: Blk, bs: seq<Blk>, lo: nat, hi: nat, head: nat, i: nat, k: nat)
    requires i < k < |bs| && Loose(m, a + [y] + bs[i + 1..], lo, hi, head)
    ensures 0 < bs[k].addr && bs[k].addr + HEAD + 4 <= |m| && Word(m, bs[k].addr) == bs[k].size
  {
    hide Loose, Word;
    var all := a + [y] + bs[i + 1..];
    assert all[|a| + k - i] == bs[k];
    ReadFree(m, all, lo, hi, head, |a| + k - i);
  }

  lemma ReleaseBytes(m: seq<Byte>, x: Blk, next: nat)
    requires x.size >= MIN_BLOCK && x.End() <= |m|
    ensures Release(m, x, next) == SetWord(m[x.Guard() := FREE], x.addr + HEAD, next)
  {
  }

  lemma CodedSize(m: seq<Byte>, b: Blk, next: nat)
    requires BlockCoded(m, b, next)
    ensures Word(m, b.addr) == b.size
  {
  }

  lemma LooseLength(m: seq<Byte>, bs: seq<Blk>, lo: nat, hi: nat, head: nat)
    requires Loose(m, bs, lo, hi, head)
    ensures hi <= |m|
  {
  }

  lemma SettleRight(m: seq<Byte>, bs: seq<Blk>, lo: nat, hi: nat, i: nat, head: nat)
    requires i + 1 < |bs| && !bs[i + 1].used
    requires Loose(m, Before(bs, i) + [LeftJoined(bs, i)] + bs[i + 1..], lo, hi, head)
    ensures
      var y, z := LeftJoined(bs, i), bs[i + 1];
      && y.addr + HEAD + 4 <= |m| && z.addr + HEAD + 4 <= |m| && Word(m, z.addr) == z.size
      && Loose(LinkRight(m, y, z, Word(m, z.addr + HEAD)), Released(bs, i), lo, hi, head)
  {
    hide Loose, SetWord, Word;
    assert bs[i + 1..] == [bs[i + 1]] + bs[i + 2..];
    MergeNext(m, Before(bs, i), LeftJoined(bs, i), bs[i + 1], bs[i + 2..], lo, hi, head);
  }

  lemma ReleaseKeeps(m: seq<Byte>, bs: seq<Blk>, lo: nat, hi: nat, i: nat, next: nat)
    requires Tiled(bs, lo, hi) && hi <= |m| && i < |bs| && bs[i].size >= MIN_BLOCK && bs[i].End() <= hi
    ensures UsersKept(m, Release(m, bs[i], next), bs, i)
  {
    hide SetWord, Tiled;
    var m0 := m[bs[i].Guard() := FREE];
    GuardSame(m, bs[i], FREE);
    SetWordSame(m0, bs[i].addr + HEAD, next, 0, bs[i].addr);
    SetWordSame(m0, bs[i].addr + HEAD, next, bs[i].End(), |m|);
    InsideKeeps(m, Release(m, bs[i], next), bs, lo, hi, i);
  }

  lemma BlockBounds(bs: seq<Blk>, lo: nat, hi: nat, i: nat)
    requires Tiled(bs, lo, hi) && i < |bs|
    ensures bs[i].size >= MIN_BLOCK && lo <= bs[i].addr && bs[i].End() <= hi
  {
    TiledEnd(bs, lo, hi);
  }

  /** Only the released block and its free neighbours are written. */
  lemma LinkKeeps(m: seq<Byte>, bs: seq<Blk>, lo: nat, hi: nat, p: int, i: nat, next: nat)
    requires Tiled(bs, lo, hi) && hi <= |m| && p < i < |bs| && (p >= 0 ==> !bs[p].used)
    ensures bs[i].size >= MIN_BLOCK && bs[i].End() <= |m| && (p >= 0 ==> bs[p].addr + HEAD + 4 <= |m|)
    ensures UsersKept(m, LinkLeft(m, bs, p, i, next), bs, i)
  {
    hide Release, SetWord, Tiled, UsersKept;
    BlockBounds(bs, lo, hi, i);
    ReleaseKeeps(m, bs, lo, hi, i, next);
    if p >= 0 {
      var m0 := Release(m, bs[i], next);
      BlockBounds(bs, lo, hi, p);
      if p == i - 1 {
        ResizeKeeps(m0, bs, lo, hi, p, bs[p].size + bs[i].size);
      } else {
        UnlinkKeeps(m0, bs, lo, hi, p, bs[i].addr);
      }
      KeptBoth(m, m0, LinkLeft(m, bs, p, i, next), bs, i, p);
    }
  }

  lemma ResizeKeeps(m: seq<Byte>, bs: seq<Blk>, lo: nat, hi: nat, p: nat, size: nat)
    requires Tiled(bs, lo, hi) && hi <= |m| && p < |bs| && bs[p].size >= MIN_BLOCK && bs[p].End() <= hi
    ensures UsersKept(m, SetWord(m, bs[p].addr, size), bs, p)
  {
    SetWordSame(m, bs[p].addr, size, 0, bs[p].addr);
    SetWordSame(m, bs[p].addr, size, bs[p].End(), |m|);
    hide SetWord, Tiled;
    InsideKeeps(m, SetWord(m, bs[p].addr, size), bs, lo, hi, p);
  }

  lemma KeptBoth(m: seq<Byte>, m1: seq<Byte>, m2: seq<Byte>, bs: seq<Blk>, i: nat, p: nat)
    requires UsersKept(m, m1, bs, i) && UsersKept(m1, m2, bs, p) && p < |bs| && !bs[p].used
    ensures UsersKept(m, m2, bs, i)
  {
  }

  lemma RightKeeps(m: seq<Byte>, bs: seq<Blk>, lo: nat, hi: nat, i: nat, z: Blk, next: nat)
    requires Tiled(bs, lo, hi) && hi <= |m| && i < |bs|
    ensures LeftJoined(bs, i).addr + HEAD + 4 <= |m|
    ensures UsersKept(m, LinkRight(m, LeftJoined(bs, i), z, next), bs, i)
  {
    hide SetWord, Tiled, UsersKept;
    var y := LeftJoined(bs, i);
    var at := if i > 0 && !bs[i - 1].used then i - 1 else i;
    BlockBounds(bs, lo, hi, at);
    ResizeKeeps(m, bs, lo, hi, at, y.size + z.size);
    var m1 := SetWord(m, y.addr, y.size + z.size);
    UnlinkKeeps(m1, bs, lo, hi, at, next);
    if at == i {
      KeptChain(m, m1, LinkRight(m, y, z, next), bs, i, i);
    } else {
      KeptUnused(m, m1, bs, at, i);
      KeptBoth(m, m1, LinkRight(m, y, z, next), bs, i, at);
    }
  }

  lemma KeptUnused(m: seq<Byte>, m': seq<Byte>, bs: seq<Blk>, p: nat, i: nat)
    requires UsersKept(m, m', bs, p) && p < |bs| && !bs[p].used
    ensures UsersKept(m, m', bs, i)
  {
  }

  /// ---- Pointers ------------------------------------------------------------------------

  /** There is a header in front of the pointer, and the guard it leads to exists. */
  predicate HasHeader(m: seq<Byte>, ptr: nat) {
    && HEAD <= ptr <= |m| && Word(m, ptr - HEAD) >= 1
    && ptr - HEAD + Word(m, ptr - HEAD) <= |m|
  }

  /** The guard byte of the block at a pointer. */
  function Dog(m: seq<Byte>, ptr: nat): Byte
    requires HasHeader(m, ptr)
  {
    m[ptr - HEAD + Word(m, ptr - HEAD) - 1]
  }

  /** A swallowed block keeps its old header, with the guard marked free. */
  lemma SwallowedDog(m: seq<Byte>, p: Blk, x: Blk, next: nat, z: Blk, after: nat)
    requires p.size >= MIN_BLOCK && x.size >= MIN_BLOCK && p.End() == x.addr && x.End() <= |m|
    requires Word(m, x.addr) == x.size
    ensures
      var m1 := SetWord(Release(m, x, next), p.addr, p.size + x.size);
      var m2 := LinkRight(m1, Blk(p.addr, p.size + x.size, false), z, after);
      && Word(m1, x.addr) == Word(m2, x.addr) == x.size && m1[x.Guard()] == m2[x.Guard()] == FREE
  {
    hide SetWord, Word;
    var y := Blk(p.addr, p.size + x.size, false);
    var m0 := m[x.Guard() := FREE];
    var r := Release(m, x, next);
    var m1 := SetWord(r, p.addr, y.size);
    var m2 := SetWord(m1, p.addr, y.size + z.size);
    SetByteWord(m, x.Guard(), FREE, x.addr);
    Untouched(m0, x.addr + HEAD, next, x);
    Untouched(r, p.addr, y.size, x);
    Untouched(m1, p.addr, y.size + z.size, x);
    Untouched(m2, p.addr + HEAD, after, x);
  }

  lemma Untouched(m: seq<Byte>, a: nat, v: nat, x: Blk)
    requires a + 4 <= x.addr || x.addr + HEAD == a
    requires x.size >= MIN_BLOCK && x.End() <= |m|
    ensures Word(SetWord(m, a, v), x.addr) == Word(m, x.addr) && SetWord(m, a, v)[x.Guard()] == m[x.Guard()]
  {
    hide SetWord, Word;
    SetWordElsewhere(m, a, v, x.addr);
    SetWordElsewhere(m, a, v, x.Guard());
  }

  lemma AloneDog(m: seq<Byte>, bs: seq<Blk>, lo: nat, hi: nat, head: nat, i: nat)
    requires i < |bs| && (i > 0 ==> bs[i - 1].used) && Loose(m, Released(bs, i), lo, hi, head)
    ensures HasHeader(m, bs[i].addr + HEAD) && Dog(m, bs[i].addr + HEAD) == FREE
  {
    hide Loose, Word;
    assert Released(bs, i)[i] == Joined(bs, i);
    ReadFree(m, Released(bs, i), lo, hi, head, i);
  }

  /** The links as they stand when the block on the left swallowed block `i`. */
  lemma LeftBytes(m: seq<Byte>, m1: seq<Byte>, bs: seq<Blk>, i: nat, next: nat)
    requires 0 < i < |bs| && !bs[i - 1].used && bs[i].size >= MIN_BLOCK && bs[i].End() <= |m| && bs[i - 1].addr + HEAD + 4 <= |m|
    requires m1 == LinkLeft(m, bs, i - 1, i, next)
    ensures LeftJoined(bs, i) == Blk(bs[i - 1].addr, bs[i - 1].size + bs[i].size, false)
    ensures m1 == SetWord(Release(m, bs[i], next), bs[i - 1].addr, bs[i - 1].size + bs[i].size)
  {
  }

  lemma SettledCases(m1: seq<Byte>, bs: seq<Blk>, i: nat, k: nat)
    requires i < |bs| && LeftJoined(bs, i).addr + HEAD + 4 <= |m1|
    requires k == i + 1 && k < |bs| ==> bs[k].addr + HEAD + 4 <= |m1|
    ensures Settled(m1, bs, i, k) == m1 ||
            exists z, after :: Settled(m1, bs, i, k) == LinkRight(m1, LeftJoined(bs, i), z, after)
  {
  }

  lemma JoinedDog(m: seq<Byte>, m1: seq<Byte>, bs: seq<Blk>, lo: nat, hi: nat, head: nat, i: nat, k: nat, next: nat)
    requires Loose(m, bs, lo, hi, head) && 0 < i < |bs| && !bs[i - 1].used
    requires bs[i].size >= MIN_BLOCK && bs[i].End() <= |m| && bs[i - 1].addr + HEAD + 4 <= |m|
    requires m1 == LinkLeft(m, bs, i - 1, i, next)
    requires LeftJoined(bs, i).addr + HEAD + 4 <= |m1| && (k == i + 1 && k < |bs| ==> bs[k].addr + HEAD + 4 <= |m1|)
    ensures
      var m2 := Settled(m1, bs, i, k);
      Word(m2, bs[i].addr) == bs[i].size && m2[bs[i].Guard()] == FREE
  {
    hide LeftJoined, LinkLeft, LinkRight, Loose, Release, SetWord, Settled, Tiled, Word;
    var p, x := bs[i - 1], bs[i];
    LooseTiled(m, bs, lo, hi, head);
    ReadFree(m, bs, lo, hi, head, i);
    ReadFree(m, bs, lo, hi, head, i - 1);
    TouchIsNext(bs, lo, hi, i - 1, i);
    LeftBytes(m, m1, bs, i, next);
    SettledCases(m1, bs, i, k);
    SwallowedDog(m, p, x, next, x, 0);
    if Settled(m1, bs, i, k) != m1 {
      var z, after :| Settled(m1, bs, i, k) == LinkRight(m1, LeftJoined(bs, i), z, after);
      SwallowedDog(m, p, x, next, z, after);
    }
  }

  /** Freeing the same pointer again right away is noticed. */
  lemma FreedDog(m: seq<Byte>, m1: seq<Byte>, bs: seq<Blk>, lo: nat, hi: nat, head: nat, p: int, i: nat, k: nat)
    requires Image(m, bs, lo, hi, head) && p < i < k <= |bs| && Neighbours(bs, p, i, k)
    requires bs[i].size >= MIN_BLOCK && bs[i].End() <= |m| && (p >= 0 ==> bs[p].addr + HEAD + 4 <= |m|)
    requires m1 == LinkLeft(m, bs, p, i, AddrOf(bs, k))
    requires LeftJoined(bs, i).addr + HEAD + 4 <= |m1| && (k == i + 1 && k < |bs| ==> bs[k].addr + HEAD + 4 <= |m1|)
    ensures HasHeader(Settled(m1, bs, i, k), bs[i].addr + HEAD) && Dog(Settled(m1, bs, i, k), bs[i].addr + HEAD) == FREE
  {
    hide AddrOf, Image, LeftJoined, LinkLeft, LinkRight, Loose, Neighbours, Released, Settled, Tiled, Word;
    ImageParts(m, bs, lo, hi, head);
    RightIs(bs, p, i, k);
    if i > 0 && !bs[i - 1].used {
      JoinedDog(m, m1, bs, lo, hi, head, i, k, AddrOf(bs, k));
    } else {
      ReleaseImage(m, m1, bs, lo, hi, head, p, i, k);
      var head1 := if p < 0 then bs[i].addr else head;
      ImageParts(Settled(m1, bs, i, k), Released(bs, i), lo, hi, head1);
      AloneDog(Settled(m1, bs, i, k), bs, lo, hi, head1, i);
    }
  }

  /// ---- What callers hold ------------------------------------------------------------------

  /** A payload write of the block at `k` leaves the heap image as it is. */
  lemma PayloadImage(m: seq<Byte>, m': seq<Byte>, bs: seq<Blk>, lo: nat, hi: nat, head: nat, k: nat)
    requires Image(m, bs, lo, hi, head) && k < |bs| && bs[k].used && bs[k].size >= MIN_BLOCK
    requires Same(m, m', 0, bs[k].addr + HEAD) && Same(m, m', bs[k].Guard(), |m|)
    ensures Image(m', bs, lo, hi, head) && UsersKept(m, m', bs, k)
  {
    var a, x, b := bs[..k], bs[k], bs[k + 1..];
    Around(bs, k);
    ImageParts(m, bs, lo, hi, head);
    ImageCut(m, a, x, b, lo, hi);
    ImageCut(m', a, x, b, lo, hi);
    BlockBounds(bs, lo, hi, k);
    CodedSame(m, m', a, lo, x.addr, FirstFree([x] + b, 0));
    CodedSame(m, m', b, x.End(), hi, 0);
    UsedSame(m, m', x, FirstFree(b, 0));
    InsideKeeps(m, m', bs, lo, hi, k);
    hide BlockCoded, Coalesced, Coded, FirstFree, Same, Tiled, UsersKept;
  }

  lemma UsedSame(m: seq<Byte>, m': seq<Byte>, x: Blk, next: nat)
    requires BlockCoded(m, x, next) && x.used
    requires Same(m, m', 0, x.addr + HEAD) && Same(m, m', x.Guard(), |m|)
    ensures BlockCoded(m', x, next)
  {
  }

  /** The pointers that callers hold. */
  function Live(bs: seq<Blk>): set<nat> {
    set j | 0 <= j < |bs| && bs[j].used :: bs[j].addr + HEAD
  }

  /** Where the blocks away from the released one end up. */
  lemma ReleasedAt(bs: seq<Blk>, i: nat, j: nat)
    requires i < |bs| && j < |bs| && j != i && bs[j].used
    ensures
      var a, b := Before(bs, i), Behind(bs, i);
      var j' := if j < i then j else j - (|bs| - |b|) + |a| + 1;
      0 <= j' < |Released(bs, i)| && Released(bs, i)[j'] == bs[j]
  {
  }

  lemma ReleasedFrom(bs: seq<Blk>, i: nat, j: nat)
    requires i < |bs| && j < |Released(bs, i)| && Released(bs, i)[j].used
    ensures
      var a, b := Before(bs, i), Behind(bs, i);
      var j' := if j < |a| then j else j - |a| - 1 + (|bs| - |b|);
      0 <= j' < |bs| && j' != i && Released(bs, i)[j] == bs[j']
  {
  }

  lemma LiveStays(bs: seq<Blk>, i: nat, x: nat)
    requires i < |bs| && x in Live(bs) && x != bs[i].addr + HEAD
    ensures x in Live(Released(bs, i))
  {
    hide Before, Behind, Released;
    var j :| 0 <= j < |bs| && bs[j].used && bs[j].addr + HEAD == x;
    ReleasedAt(bs, i, j);
  }

  lemma LiveWas(bs: seq<Blk>, lo: nat, hi: nat, i: nat, x: nat)
    requires Tiled(bs, lo, hi) && i < |bs| && x in Live(Released(bs, i))
    ensures x in Live(bs) && x != bs[i].addr + HEAD
  {
    hide Before, Behind, Released, Tiled;
    var r := Released(bs, i);
    var j :| 0 <= j < |r| && r[j].used && r[j].addr + HEAD == x;
    ReleasedFrom(bs, i, j);
    var a, b := Before(bs, i), Behind(bs, i);
    var j' := if j < |a| then j else j - |a| - 1 + (|bs| - |b|);
    TouchIsNext(bs, lo, hi, if j' < i then j' else i, if j' < i then i else j');
  }

  /** Releasing a block takes its pointer out and no other. */
  lemma ReleasedLive(bs: seq<Blk>, lo: nat, hi: nat, i: nat)
    requires Tiled(bs, lo, hi) && i < |bs|
    ensures Live(Released(bs, i)) == Live(bs) - {bs[i].addr + HEAD}
  {
    hide Live, Released, Tiled;
    forall x | x in Live(Released(bs, i))
      ensures x in Live(bs) - {bs[i].addr + HEAD}
    {
      LiveWas(bs, lo, hi, i, x);
    }
    forall x | x in Live(bs) - {bs[i].addr + HEAD}
      ensures x in Live(Released(bs, i))
    {
      LiveStays(bs, i, x);
    }
  }

  lemma UsedIsLive(bs: seq<Blk>, j: nat)
    requires j < |bs| && bs[j].used
    ensures bs[j].addr + HEAD in Live(bs)
  {
  }

  lemma SingleFree(bs: seq<Blk>, lo: nat, hi: nat)
    requires Tiled(bs, lo, hi) && Coalesced(bs) && lo < hi && Live(bs) == {}
    ensures bs == [Blk(lo, hi - lo, false)]
  {
    hide Live;
    if bs[0].used {
      UsedIsLive(bs, 0);
    } else if |bs| > 1 {
      UsedIsLive(bs, 0 + 1);
    } else {
      assert bs[1..] == [];
    }
  }

  /** With nothing in use, coalesced blocks are a single one. */
  lemma AllFree(m: seq<Byte>, bs: seq<Blk>, lo: nat, hi: nat, head: nat)
    requires Image(m, bs, lo, hi, head) && lo < hi && Live(bs) == {}
    ensures bs == [Blk(lo, hi - lo, false)]
  {
    SingleFree(bs, lo, hi);
  }

  /** Without a free block on the right nothing is left to join. */
  lemma NoRight(bs: seq<Blk>, i: nat)
    requires i < |bs| && (i + 1 < |bs| ==> bs[i + 1].used)
    ensures Released(bs, i) == Before(bs, i) + [LeftJoined(bs, i)] + bs[i + 1..]
  {
  }

  /** Whether the block after the released one is the next free one. */
  lemma RightIs(bs: seq<Blk>, p: int, i: nat, k: nat)
    requires Neighbours(bs, p, i, k)
    ensures k == i + 1 && k < |bs| <==> i + 1 < |bs| && !bs[i + 1].used
    ensures p == i - 1 && p >= 0 <==> i > 0 && !bs[i - 1].used
  {
  }

  /** Memory after the whole release. */
  function Settled(m1: seq<Byte>, bs: seq<Blk>, i: nat, k: nat): (m': seq<Byte>)
    requires i < |bs| && LeftJoined(bs, i).addr + HEAD + 4 <= |m1|
    requires k == i + 1 && k < |bs| ==> bs[k].addr + HEAD + 4 <= |m1|
    ensures |m'| == |m1|
  {
    if k == i + 1 && k < |bs| then LinkRight(m1, LeftJoined(bs, i), bs[k], Word(m1, bs[k].addr + HEAD)) else m1
  }

  /** Release as a whole: the image of the joined block list, with all other users'
      bytes in place. */
  lemma ReleaseImage(m: seq<Byte>, m1: seq<Byte>, bs: seq<Blk>, lo: nat, hi: nat, head: nat, p: int, i: nat, k: nat)
    requires Image(m, bs, lo, hi, head) && p < i < k <= |bs| && Neighbours(bs, p, i, k)
    requires bs[i].size >= MIN_BLOCK && bs[i].End() <= |m| && (p >= 0 ==> bs[p].addr + HEAD + 4 <= |m|)
    requires m1 == LinkLeft(m, bs, p, i, AddrOf(bs, k))
    ensures LeftJoined(bs, i).addr + HEAD + 4 <= |m1| && (k == i + 1 && k < |bs| ==> bs[k].addr + HEAD + 4 <= |m1|)
    ensures Image(Settled(m1, bs, i, k), Released(bs, i), lo, hi, if p < 0 then bs[i].addr else head)
    ensures UsersKept(m, Settled(m1, bs, i, k), bs, i)
  {
    hide AddrOf, Coalesced, LeftJoined, LinkLeft, LinkRight, Loose, Neighbours, Released, Tiled, UsersKept, Word;
    var head1 := if p < 0 then bs[i].addr else head;
    ImageParts(m, bs, lo, hi, head);
    NeighbourUsed(bs, p, i, k);
    SettleLeft(m, bs, lo, hi, head, p, i, k);
    LinkKeeps(m, bs, lo, hi, p, i, AddrOf(bs, k));
    ReleasedCoalesced(bs, i);
    RightIs(bs, p, i, k);
    if i + 1 < |bs| && !bs[i + 1].used {
      SettleRight(m1, bs, lo, hi, i, head1);
      RightKeeps(m1, bs, lo, hi, i, bs[k], Word(m1, bs[k].addr + HEAD));
      KeptChain(m, m1, Settled(m1, bs, i, k), bs, i, i);
    } else {
      NoRight(bs, i);
      LeftFits(m1, bs, lo, hi, i, head1);
    }
  }

  lemma LeftFits(m: seq<Byte>, bs: seq<Blk>, lo: nat, hi: nat, i: nat, head: nat)
    requires i < |bs| && Loose(m, Before(bs, i) + [LeftJoined(bs, i)] + bs[i + 1..], lo, hi, head)
    ensures LeftJoined(bs, i).addr + HEAD + 4 <= |m|
  {
    hide Before, LeftJoined, Loose;
    Middle(m, Before(bs, i), LeftJoined(bs, i), bs[i + 1..], lo, hi, head);
  }

  /** A free block before the released one still reads the same. */
  lemma ReadBefore(m: seq<Byte>, bs: seq<Blk>, lo: nat, hi: nat, head: nat, p: nat, i: nat, next: nat)
    requires Loose(m, bs, lo, hi, head) && p < i < |bs|
    ensures bs[i].size >= MIN_BLOCK && bs[i].End() <= |m| && bs[p].addr + HEAD + 4 <= |m|
    ensures Word(Release(m, bs[i], next), bs[p].addr) == bs[p].size
    ensures bs[p].addr + bs[p].size == bs[i].addr <==> p == i - 1
  {
    hide Loose, SetWord, Tiled, Word;
    LooseTiled(m, bs, lo, hi, head);
    ReadFree(m, bs, lo, hi, head, p);
    ReadFree(m, bs, lo, hi, head, i);
    TouchIsNext(bs, lo, hi, p, i);
    OthersOutside(bs, lo, hi, i);
    SetByteWord(m, bs[i].Guard(), FREE, bs[p].addr);
    SetWordElsewhere(m[bs[i].Guard() := FREE], bs[i].addr + HEAD, next, bs[p].addr);
  }

  /** The walk reads the same links while block `i` is already marked free. */
  lemma WalkRead(m: seq<Byte>, bs: seq<Blk>, lo: nat, hi: nat, head: nat, i: nat, k: nat)
    requires Loose(m, bs, lo, hi, head) && i < |bs| && k < i && !bs[k].used
    ensures 0 < bs[k].addr < bs[i].addr && bs[k].addr + HEAD + 4 <= |m| && 0 <= bs[i].Guard() < |m|
    ensures Word(m[bs[i].Guard() := FREE], bs[k].addr + HEAD) == AddrOf(bs, NextIdx(bs, k + 1))
    ensures Stand(bs, k, NextIdx(bs, k + 1))
  {
    hide Loose, NextIdx, Tiled, Word;
    ReadFree(m, bs, lo, hi, head, k);
    ReadFree(m, bs, lo, hi, head, i);
    LooseTiled(m, bs, lo, hi, head);
    TouchIsNext(bs, lo, hi, k, i);
    OthersOutside(bs, lo, hi, i);
    SetByteWord(m, bs[i].Guard(), FREE, bs[k].addr + HEAD);
  }

  lemma LooseTiled(m: seq<Byte>, bs: seq<Blk>, lo: nat, hi: nat, head: nat)
    requires Loose(m, bs, lo, hi, head)
    ensures Tiled(bs, lo, hi) && 0 < lo && hi <= |m| && hi < WORD_SPACE
  {
  }

  /** Free blocks before block `i` are those with smaller addresses. */
  lemma WalkOrder(m: seq<Byte>, bs: seq<Blk>, lo: nat, hi: nat, head: nat, i: nat, k: nat)
    requires Loose(m, bs, lo, hi, head) && i < |bs| && k <= |bs|
    ensures (AddrOf(bs, k) != 0 && AddrOf(bs, k) < bs[i].addr) <==> k < i
  {
    hide Loose, Tiled;
    LooseTiled(m, bs, lo, hi, head);
    if k < |bs| {
      ReadFree(m, bs, lo, hi, head, k);
      if k < i {
        TouchIsNext(bs, lo, hi, k, i);
      } else if i < k {
        TouchIsNext(bs, lo, hi, i, k);
      }
    }
  }

  /** A live pointer has its header in front, marked in use. */
  lemma LiveHeader(m: seq<Byte>, bs: seq<Blk>, lo: nat, hi: nat, head: nat, i: nat)
    requires Image(m, bs, lo, hi, head) && i < |bs|
    ensures HasHeader(m, bs[i].addr + HEAD) && Word(m, bs[i].addr) == bs[i].size
    ensures Dog(m, bs[i].addr + HEAD) == if bs[i].used then IN_USE else FREE
    ensures Tiled(bs, lo, hi)
  {
    hide Image, Loose, Tiled, Word;
    ImageParts(m, bs, lo, hi, head);
    ReadFree(m, bs, lo, hi, head, i);
  }

  function Elements(s: seq<nat>): set<nat> {
    set x | x in s
  }

  predicate Points(bs: seq<Blk>, i: int, ptr: nat) {
    0 <= i < |bs| && bs[i].used && ptr == bs[i].addr + HEAD
  }

  /** The pointers still to be freed, one by one. */
  lemma NextPointer(bs: seq<Blk>, order: seq<nat>, n: nat)
    requires n < |order| && Elements(order[n..]) == Live(bs)
    requires forall i, j :: 0 <= i < j < |order| ==> order[i] != order[j]
    ensures exists i :: Points(bs, i, order[n])
    ensures Elements(order[n + 1..]) == Live(bs) - {order[n]}
  {
    assert order[n] == order[n..][0];
    assert order[n] in Live(bs);
    var i :| 0 <= i < |bs| && bs[i].used && bs[i].addr + HEAD == order[n];
    assert Points(bs, i, order[n]);
    forall x | x in Live(bs) - {order[n]}
      ensures x in order[n + 1..]
    {
      var j :| 0 <= j < |order[n..]| && order[n..][j] == x;
      assert order[n + 1..][j - 1] == x;
    }
    forall x | x in order[n + 1..]
      ensures x in Live(bs) - {order[n]}
    {
      var j :| 0 <= j < |order[n + 1..]| && order[n + 1..][j] == x;
      assert order[n..][j + 1] == x;
    }
  }

  lemma OneFree(x: Blk)
    ensures FreeSum([x]) == if x.used then 0 else x.size
  {
    assert [x][1..] == [];
  }

  /// ---- Reallocation -----------------------------------------------------------------------

  /** Where a block other than the one served from ends up. */
  function Shift(bs: seq<Blk>, k: nat, n: nat, j: nat): nat
    requires k < |bs|
  {
    if bs[k].size >= n + MIN_HEAP && j > k then j + 1 else j
  }

  /** The index of the block that was served. */
  function ServedIndex(bs: seq<Blk>, k: nat, n: nat): nat
    requires k < |bs|
  {
    if bs[k].size >= n + MIN_HEAP then k + 1 else k
  }

  lemma ShiftAt(bs: seq<Blk>, k: nat, n: nat, j: nat)
    requires Fits(bs, n, k) && j < |bs| && j != k
    ensures Shift(bs, k, n, j) < |Serve(bs, k, n)| && Serve(bs, k, n)[Shift(bs, k, n, j)] == bs[j]
    ensures ServedIndex(bs, k, n) < |Serve(bs, k, n)| && Serve(bs, k, n)[ServedIndex(bs, k, n)] == Served(bs[k], n)
    ensures Shift(bs, k, n, j) != ServedIndex(bs, k, n)
    ensures forall j' :: 0 <= j' < |bs| && j' != j ==> Shift(bs, k, n, j') != Shift(bs, k, n, j)
  {
  }

  /** Through serving, copying and releasing, every other user keeps its bytes, the
      old payload reaches the copy, and the copy survives the release. */
  lemma ReallocKeeps(m: seq<Byte>, m1: seq<Byte>, m2: seq<Byte>, m3: seq<Byte>, bs: seq<Blk>, k: nat, n: nat, i: nat)
    requires Fits(bs, n, k) && i < |bs| && bs[i].used
    requires UsersKept(m, m1, bs, k)
    requires UsersKept(m1, m2, Serve(bs, k, n), ServedIndex(bs, k, n))
    requires UsersKept(m2, m3, Serve(bs, k, n), Shift(bs, k, n, i))
    ensures UsersKept(m, m3, bs, i)
    ensures Same(m, m1, bs[i].addr, bs[i].End())
    ensures Same(m2, m3, Served(bs[k], n).addr, Served(bs[k], n).End())
  {
    hide Same, Serve, Served, ServedIndex, Shift;
    ShiftAt(bs, k, n, i);
    forall j | 0 <= j < |bs| && j != i && bs[j].used
      ensures Same(m, m3, bs[j].addr, bs[j].End())
    {
      ShiftAt(bs, k, n, j);
      SameChain(m, m1, m2, bs[j].addr, bs[j].End(), bs[j].addr, bs[j].End());
      SameChain(m, m2, m3, bs[j].addr, bs[j].End(), bs[j].addr, bs[j].End());
    }
    ServedUsed(bs[k], n);
  }

  lemma ServedUsed(x: Blk, n: nat)
    ensures Served(x, n).used
  {
  }

  lemma ServedLarge(x: Blk, n: nat)
    requires x.size >= n
    ensures Served(x, n).used && Served(x, n).size >= n
  {
  }

  lemma SameWider(m: seq<Byte>, m': seq<Byte>, lo: nat, lo': nat)
    requires Same(m, m', lo, |m|) && lo <= lo'
    ensures Same(m, m', lo', |m|)
  {
  }

  /** `len` bytes arrived unchanged at another place. */
  predicate Moved(m: seq<Byte>, m': seq<Byte>, src: nat, dst: nat, len: nat) {
    src + len <= |m| && dst + len <= |m'| && m'[dst..dst + len] == m[src..src + len]
  }

  lemma SameSlice(m: seq<Byte>, m': seq<Byte>, lo: nat, hi: nat)
    requires lo <= hi <= |m| && Same(m, m', lo, hi)
    ensures m[lo..hi] == m'[lo..hi]
  {
  }

  lemma MovedChain(m: seq<Byte>, m1: seq<Byte>, m2: seq<Byte>, m3: seq<Byte>, src: nat, dst: nat, len: nat)
    requires Moved(m1, m2, src, dst, len) && Same(m, m1, src, src + len) && Same(m2, m3, dst, dst + len)
    ensures Moved(m, m3, src, dst, len)
  {
    SameSlice(m, m1, src, src + len);
    SameSlice(m2, m3, dst, dst + len);
  }

  lemma MovedInside(m: seq<Byte>, m1: seq<Byte>, m2: seq<Byte>, m3: seq<Byte>, src: nat, dst: nat, len: nat, end: nat)
    requires Moved(m1, m2, src, dst, len) && src >= HEAD && dst >= HEAD && dst + len <= end
    requires Same(m, m1, src - HEAD, src + len) && Same(m2, m3, dst - HEAD, end)
    ensures Moved(m, m3, src, dst, len)
  {
    MovedChain(m, m1, m2, m3, src, dst, len);
  }

  /** A pointer to a block just served for `n` bytes, with room for the request. */
  ghost predicate Handed(bs: seq<Blk>, k: nat, n: nat, request: nat, ptr: nat) {
    && Fits(bs, n, k) && (NoBetter(bs, n, k) || ThirdChoice(bs, n, k)) && k == Chosen(bs, n)
    && ptr == Served(bs[k], n).addr + HEAD
    && ptr + request <= Served(bs[k], n).Guard()
  }

  /** The outcome of a reallocation that moved block `i`: a larger block took over its
      bytes, it was released, and no other user's bytes changed. */
  ghost predicate Relocated(m: seq<Byte>, m': seq<Byte>, bs: seq<Blk>, bs': seq<Blk>, i: nat, k: nat, n: nat, r: nat) {
    && i < |bs| && Fits(bs, n, k) && bs[i].size >= HEAD && Shift(bs, k, n, i) < |Serve(bs, k, n)|
    && bs' == Released(Serve(bs, k, n), Shift(bs, k, n, i))
    && Moved(m, m', bs[i].addr + HEAD, r, bs[i].size - HEAD)
    && UsersKept(m, m', bs, i)
  }

  lemma WrapMeansHuge(request: nat, align: nat)
    requires align in {4, 8} && 4 <= request < WORD_SPACE && BlockSize(request, align) < request
    ensures request >= WORD_SPACE - 8
  {
    BlockSizeSafe(request, align);
    Whole8(request + 8);
  }

  /** A block that is kept has room for the new request exactly when the size
      computation did not wrap around. */
  lemma KeptRoom(x: Blk, request: nat, align: nat, hi: nat)
    requires align in {4, 8} && 4 <= request < WORD_SPACE && BlockSize(request, align) <= x.size
    requires 4 <= x.addr && x.End() <= hi < WORD_SPACE
    ensures x.addr + HEAD + request <= x.Guard() <==> BlockSize(request, align) >= request
  {
    BlockSizeSafe(request, align);
    if BlockSize(request, align) < request {
      WrapMeansHuge(request, align);
    }
    hide AlignDown, BlockSize;
  }

  /** A request whose block size wraps to less than itself, which a block of any
      size seems large enough for. */
  lemma RequestWraps()
    ensures BlockSize(0xffff_fffc, 4) == 4 < MIN_BLOCK
    ensures forall x: Blk :: x.size >= MIN_BLOCK && x.End() < WORD_SPACE ==>
              BlockSize(0xffff_fffc, 4) <= x.size && x.addr + HEAD + 0xffff_fffc > x.Guard()
  {
  }

  lemma FirstAligned(base: nat, align: nat)
    requires align in {4, 8} && AlignUp(base, align) > 0
    ensures AlignUp(base, align) >= 4
  {
    if align == 4 {
      assert AlignDown((base + 3) % WORD_SPACE, 4) % 4 == 0;
    } else {
      Down8(0, (base + 7) % WORD_SPACE);
    }
  }

  /** Two blocks of a list are apart. */
  lemma Apart(bs: seq<Blk>, lo: nat, hi: nat, i: nat, j: nat)
    requires Tiled(bs, lo, hi) && i < |bs| && j < |bs| && i != j
    ensures bs[i].End() <= bs[j].addr || bs[j].End() <= bs[i].addr
  {
    OthersOutside(bs, lo, hi, i);
  }

  /// ---- The status walk ---------------------------------------------------------------------

  datatype Status = Status(used: nat, spare: nat, room: int, largest: int)

  /** What a block adds to the report: free blocks without header and guard byte. */
  function Report(s: Status, b: Blk): Status {
    if b.used then s.(used := s.used + 1)
    else
      var room := b.size - HEAD - 1;
      Status(s.used, s.spare + 1, s.room + room, if room > s.largest then room else s.largest)
  }

  function Census(bs: seq<Blk>): Status {
    if bs == [] then Status(0, 0, 0, 0) else Report(Census(bs[..|bs| - 1]), bs[|bs| - 1])
  }

  /** The report accounts for every block and for every free byte. */
  lemma {:induction false} CensusAdds(bs: seq<Blk>)
    ensures Census(bs).used + Census(bs).spare == |bs|
    ensures Census(bs).room == FreeSum(bs) - (HEAD + 1) * Census(bs).spare
    ensures forall b :: b in bs && !b.used ==> b.size - HEAD - 1 <= Census(bs).largest
    ensures Census(bs).largest == 0 || exists b :: b in bs && !b.used && b.size - HEAD - 1 == Census(bs).largest
    decreases |bs|
  {
    if bs != [] {
      var a, x := bs[..|bs| - 1], bs[|bs| - 1];
      CensusAdds(a);
      assert bs == a + [x] + [];
      FreeSumCut(a, x, []);
      FreeSumNil();
    }
  }

  lemma CensusSnoc(bs: seq<Blk>, j: nat)
    requires j < |bs|
    ensures Census(bs[..j + 1]) == Report(Census(bs[..j]), bs[j])
  {
    assert bs[..j + 1][..j] == bs[..j];
  }

  /** Where the block at index `j` starts, or the region ends. */
  function StartOf(bs: seq<Blk>, j: nat, hi: nat): nat {
    if j < |bs| then bs[j].addr else hi
  }

  lemma TiledNext(bs: seq<Blk>, lo: nat, hi: nat, j: nat)
    requires Tiled(bs, lo, hi) && j <= |bs|
    ensures StartOf(bs, 0, hi) == lo && (StartOf(bs, j, hi) < hi <==> j < |bs|)
    ensures j < |bs| ==> StartOf(bs, j + 1, hi) == bs[j].End()
  {
    if j < |bs| {
      Around(bs, j);
      assert bs == bs[..j] + ([bs[j]] + bs[j + 1..]) && ([bs[j]] + bs[j + 1..])[1..] == bs[j + 1..];
      TiledJoin(bs[..j], [bs[j]] + bs[j + 1..], lo, hi);
      TiledEnd(bs[j + 1..], bs[j].End(), hi);
    }
  }

  /** The walk over all blocks meets the free list head exactly at the free ones. */
  lemma StatusRead(m: seq<Byte>, bs: seq<Blk>, lo: nat, hi: nat, head: nat, j: nat)
    requires Loose(m, bs, lo, hi, head) && j < |bs|
    ensures bs[j].addr + HEAD + 4 <= |m| && (bs[j].addr == AddrOf(bs, NextIdx(bs, j)) <==> !bs[j].used)
    ensures !bs[j].used ==> Word(m, bs[j].addr + HEAD) == AddrOf(bs, NextIdx(bs, j + 1))
    ensures bs[j].used ==> NextIdx(bs, j) == NextIdx(bs, j + 1)
  {
    hide Loose, Tiled, Word;
    LooseTiled(m, bs, lo, hi, head);
    ReadFree(m, bs, lo, hi, head, j);
    var k := NextIdx(bs, j);
    if bs[j].used && k < |bs| {
      TouchIsNext(bs, lo, hi, j, k);
    }
  }

  lemma CarveBytes(m: seq<Byte>, x: Blk, n: nat)
    requires x.End() <= |m| && n >= MIN_BLOCK && x.size >= n + MIN_BLOCK
    ensures Carve(m, x, n) ==
            SetWord(SetWord(m, x.addr, x.size - n)[x.addr + (x.size - n) - 1 := FREE], x.addr + (x.size - n), n)
            [x.addr + (x.size - n) + n - 1 := IN_USE]
  {
  }

  lemma AddrNonZero(m: seq<Byte>, bs: seq<Blk>, lo: nat, hi: nat, head: nat, k: int)
    requires Loose(m, bs, lo, hi, head) && k >= 0
    ensures AddrOf(bs, k) != 0 <==> k < |bs|
  {
    if k < |bs| {
      ReadFree(m, bs, lo, hi, head, k);
    }
  }
}
