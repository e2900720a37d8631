/** The heap object of port/linux/tuya_mem_heap.c: its methods work on the bytes of the
    region, and every one keeps the heap image. */
module HeapObject {
  import opened BitMath
  import opened Bytes
  import opened HeapMemory
  import opened Heap

  function AtLeast4(request: nat): nat {
    if request < 4 then 4 else request
  }

  class MemHeap {
    const mem: array<Byte>
    const align: nat
    var base: nat
    var size: nat
    var freeList: nat
    var free: nat
    var watermark: nat
    ghost var blocks: seq<Blk>
    ghost var lo: nat
    ghost var hi: nat

    ghost predicate Valid()
      reads this, mem
    {
      && align in {4, 8}
      && Image(mem[..], blocks, lo, hi, freeList)
      && lo == AlignUp(base, align) && hi == AlignDown(base + size, align)
      && free == FreeSum(blocks)
      && watermark <= free
    }

    constructor (mem: array<Byte>, align: nat)
      ensures this.mem == mem && this.align == align
    {
      this.mem, this.align := mem, align;
    }

    method StoreWord(a: nat, v: nat)
      requires a + 4 <= mem.Length
      modifies mem
      ensures mem[..] == SetWord(old(mem[..]), a, v)
    {
      var s := WordBytes(v);
      mem[a], mem[a + 1], mem[a + 2], mem[a + 3] := s[0], s[1], s[2], s[3];
    }

    method StoreByte(a: nat, v: Byte)
      requires a < mem.Length
      modifies mem
      ensures mem[..] == old(mem[..])[a := v]
    {
      mem[a] := v;
    }

    method LoadWord(a: nat) returns (v: nat)
      requires a + 4 <= mem.Length
      ensures v == Word(mem[..], a)
    {
      v := mem[a] as nat + 0x100 * (mem[a + 1] as nat) + 0x10000 * (mem[a + 2] as nat) + 0x1000000 * (mem[a + 3] as nat);
    }

    /** mem_heap_init: the aligned part of the given region becomes one free block.
        A region without an aligned address is accepted as well, and gets its
        header written outside of itself. */
    method Init(base: nat, size: nat) returns (ok: bool)
      requires align in {4, 8} && 0 < base && base + size <= mem.Length < WORD_SPACE
      requires !HasAligned(base, size, align) ==> Reaches(mem.Length, base, size, align)
      modifies this, mem
      ensures ok <==> InitSize(base, size, align) >= MIN_HEAP
      ensures ok && HasAligned(base, size, align) ==>
        && Valid() && base <= lo == AlignUp(base, align) && hi == lo + InitSize(base, size, align) <= base + size
        && blocks == [Blk(lo, hi - lo, false)] && free == watermark == hi - lo
        && Same(old(mem[..]), mem[..], 0, base) && Same(old(mem[..]), mem[..], base + size, mem.Length)
      ensures !HasAligned(base, size, align) ==>
        && ok && free > size
        && (AlignUp(base, align) + HEAD <= base || base + size < AlignUp(base, align))
        && Word(mem[..], AlignUp(base, align)) == InitSize(base, size, align)
      ensures this.base == base && this.size == size
      ensures !ok ==> mem[..] == old(mem[..])
    {
      hide AlignDown, AlignUp, FreeSum, Image, InitSize, Same, SetWord, Word;
      this.base, this.size := base, size;
      InitExact(base, size, align);
      var ptr := AlignUp(base, align);
      var total := InitSize(base, size, align);
      if total < MIN_HEAP {
        return false;
      }
      freeList := ptr;
      StoreWord(ptr + HEAD, 0);
      StoreWord(ptr, total);
      free, watermark := total, total;
      StoreByte((ptr + total - 1) % WORD_SPACE, FREE);
      if HasAligned(base, size, align) {
        InitInside(base, size, align);
        InitImage(old(mem[..]), Blk(ptr, total, false));
        InitStays(old(mem[..]), base, size, ptr, total);
        blocks, lo, hi := [Blk(ptr, total, false)], ptr, ptr + total;
      } else {
        InitStrays(old(mem[..]), base, size, align);
      }
      return true;
    }

    /** The search of mem_chunk_get: the first fit, then for a while any later
        block that is no larger and still fits. */
    method FindFit(n: nat) returns (pre: nat, cur: nat, ghost p: int, ghost k: nat)
      requires Loose(mem[..], blocks, lo, hi, freeList)
      ensures Stand(blocks, p, k) && cur == AddrOf(blocks, k) && pre == (if p >= 0 then AddrOf(blocks, p) else 0)
      ensures k == |blocks| ==> forall j :: !Fits(blocks, n, j)
      ensures k < |blocks| ==> Fits(blocks, n, k) && (NoBetter(blocks, n, k) || ThirdChoice(blocks, n, k))
      ensures k == Chosen(blocks, n)
    {
      hide FirstFit, FirstFree, Improved, Loose, NextIdx, Word;
      ghost var m := mem[..];
      ReadHead(m, blocks, lo, hi, freeList);
      pre, cur, p, k := 0, freeList, -1, NextIdx(blocks, 0);
      while cur != 0
        invariant Stand(blocks, p, k) && cur == AddrOf(blocks, k)
        invariant pre == if p >= 0 then AddrOf(blocks, p) else 0
        invariant forall j :: j < k ==> !Fits(blocks, n, j)
        decreases |blocks| - k
      {
        ReadFree(m, blocks, lo, hi, freeList, k);
        var size := LoadWord(cur);
        if size >= n {
          FirstFitIs(blocks, n, 0, k);
          pre, cur, p, k := Improve(n, pre, cur, p, k);
          return;
        }
        var next := LoadWord(cur + HEAD);
        pre, cur := cur, next;
        p, k := k, NextIdx(blocks, k + 1);
      }
      AddrNonZero(m, blocks, lo, hi, freeList, k);
      FirstFitIs(blocks, n, 0, k);
    }

    /** The inner loop of the search, from the first fit on. */
    method Improve(n: nat, pre0: nat, this0: nat, ghost p0: int, ghost k0: nat)
      returns (pre: nat, cur: nat, ghost p: int, ghost k: nat)
      requires Loose(mem[..], blocks, lo, hi, freeList)
      requires Stand(blocks, p0, k0) && this0 == AddrOf(blocks, k0) && Fits(blocks, n, k0)
      requires pre0 == if p0 >= 0 then AddrOf(blocks, p0) else 0
      requires forall j :: j < k0 ==> !Fits(blocks, n, j)
      ensures Stand(blocks, p, k) && cur == AddrOf(blocks, k) && pre == (if p >= 0 then AddrOf(blocks, p) else 0)
      ensures Fits(blocks, n, k) && (NoBetter(blocks, n, k) || ThirdChoice(blocks, n, k))
      ensures k == Improved(blocks, n, k0 + 1, k0, 0)
    {
      hide FirstFree, Improved, Loose, NextIdx, Word;
      ghost var m := mem[..];
      pre, cur, p, k := pre0, this0, p0, k0;
      ReadFree(m, blocks, lo, hi, freeList, k0);
      var best := LoadWord(this0);
      var preBak := this0;
      var thisBak := LoadWord(this0 + HEAD);
      ghost var q, l := k0, NextIdx(blocks, k0 + 1);
      ghost var c1 := k0;
      var found := 0;
      ImprovedStart(blocks, n, k0);
      while thisBak != 0
        invariant Stand(blocks, q, l) && thisBak == AddrOf(blocks, l) && preBak == AddrOf(blocks, q) && 0 <= q < |blocks|
        invariant Stand(blocks, p, k) && cur == AddrOf(blocks, k) && pre == if p >= 0 then AddrOf(blocks, p) else 0
        invariant k < l && Fits(blocks, n, k) && best == blocks[k].size
        invariant NoBetterBefore(blocks, n, k, l)
        invariant 0 <= found < 3 && (found == 0 ==> k == k0)
        invariant Improved(blocks, n, l, k, found) == Improved(blocks, n, k0 + 1, k0, 0)
        invariant found == 1 ==> Improves(blocks, n, k0, k)
        invariant found == 2 ==> Improves(blocks, n, k0, c1) && Improves(blocks, n, c1, k)
        decreases |blocks| - l
      {
        AddrNonZero(m, blocks, lo, hi, freeList, l);
        ReadFree(m, blocks, lo, hi, freeList, l);
        ImprovedStep(blocks, n, l, k, found);
        var size := LoadWord(thisBak);
        if size >= n && size <= best {
          pre, cur, best := preBak, thisBak, size;
          if found == 1 {
            c1 := k;
          }
          p, k, found := q, l, found + 1;
        }
        if found >= 3 {
          return;
        }
        preBak, q := thisBak, l;
        thisBak := LoadWord(thisBak + HEAD);
        l := NextIdx(blocks, l + 1);
      }
      AddrNonZero(m, blocks, lo, hi, freeList, l);
      ImprovedEnds(blocks, n, k, found);
    }

    /** mem_chunk_get: cut the request off the end of the chosen block, or take the
        whole block out of the free list when too little would remain. */
    method ChunkGet(n: nat) returns (block: nat, ghost k: nat)
      requires Image(mem[..], blocks, lo, hi, freeList) && n >= MIN_BLOCK
      modifies this`freeList, this`blocks, mem
      ensures Image(mem[..], blocks, lo, hi, freeList)
      ensures block == 0 ==> mem[..] == old(mem[..]) && blocks == old(blocks) && forall j :: !Fits(blocks, n, j)
      ensures block != 0 ==>
                && Fits(old(blocks), n, k) && k == Chosen(old(blocks), n)
                && (NoBetter(old(blocks), n, k) || ThirdChoice(old(blocks), n, k))
                && block == Served(old(blocks)[k], n).addr && blocks == Serve(old(blocks), k, n)
                && UsersKept(old(mem[..]), mem[..], old(blocks), k)
    {
      hide Image, Loose, SetWord, Shape, Tiled, UsersKept, Word;
      ghost var m, bs := mem[..], blocks;
      ImageParts(m, bs, lo, hi, freeList);
      var pre, cur;
      ghost var p;
      pre, cur, p, k := FindFit(n);
      AddrNonZero(m, bs, lo, hi, freeList, k);
      if cur == 0 {
        return 0, k;
      }
      ReadFree(m, bs, lo, hi, freeList, k);
      var size := LoadWord(cur);
      if size - n >= MIN_HEAP {
        CarveAt(m, bs, lo, hi, freeList, k, n);
        var rest := size - n;
        StoreWord(cur, rest);
        StoreByte(cur + rest - 1, FREE);
        StoreWord(cur + rest, n);
        StoreByte(cur + rest + n - 1, IN_USE);
        CarveBytes(m, bs[k], n);
        blocks := Serve(bs, k, n);
        return cur + rest, k;
      } else {
        TakeAt(m, bs, lo, hi, freeList, p, k);
        if p >= 0 {
          AddrNonZero(m, bs, lo, hi, freeList, p);
        }
        var next := LoadWord(cur + HEAD);
        if pre != 0 {
          StoreWord(pre + HEAD, next);
        } else {
          freeList := next;
        }
        StoreByte(cur + size - 1, IN_USE);
        blocks := Serve(bs, k, n);
        return cur, k;
      }
    }

    /** MEM_Allocate. Nothing is handed out exactly when nothing was asked for, the
        request overflows, or no free block is large enough. */
    method Allocate(request: nat) returns (ptr: nat, ghost k: nat)
      requires Valid() && request < WORD_SPACE
      modifies this`freeList, this`free, this`watermark, this`blocks, mem
      ensures Valid()
      ensures
        var n := BlockSize(AtLeast4(request), align);
        && (ptr == 0 <==> request == 0 || n < AtLeast4(request) || forall j :: !Fits(old(blocks), n, j))
        && (ptr == 0 ==> mem[..] == old(mem[..]) && blocks == old(blocks))
        && (ptr != 0 ==>
              && Handed(old(blocks), k, n, request, ptr) && blocks == Serve(old(blocks), k, n)
              && free == old(free) - Served(old(blocks)[k], n).size
              && UsersKept(old(mem[..]), mem[..], old(blocks), k))
      ensures watermark == if free < old(watermark) then free else old(watermark)
    {
      hide AlignDown, AlignUp, BlockSize, FreeSum, Image, UsersKept, Word;
      if request == 0 {
        return 0, 0;
      }
      var asked := if request < 4 then 4 else request;
      var n := BlockSize(asked, align);
      BlockSizeSafe(asked, align);
      if n < asked {
        return 0, 0;
      }
      var block;
      block, k := ChunkGet(n);
      if block == 0 {
        return 0, k;
      }
      ServedSize(old(mem[..]), mem[..], old(blocks), lo, hi, old(freeList), freeList, k, n);
      var size := LoadWord(block);
      free := free - size;
      if watermark > free {
        watermark := free;
      }
      return block + HEAD, k;
    }

    /** The walk of MEM_Deallocate to the free neighbours of the block just marked. */
    method FindPlace(block: nat, ghost m: seq<Byte>, ghost i: nat) returns (pre: nat, next: nat, ghost p: int, ghost k: nat)
      requires Loose(m, blocks, lo, hi, freeList) && i < |blocks| && blocks[i].used && block == blocks[i].addr
      requires 0 <= blocks[i].Guard() < |m| && mem[..] == m[blocks[i].Guard() := FREE]
      ensures Neighbours(blocks, p, i, k)
      ensures next == AddrOf(blocks, k) && pre == if p >= 0 then AddrOf(blocks, p) else 0
      ensures (next != 0 <==> k < |blocks|) && (pre != 0 <==> p >= 0)
    {
      hide Loose, NextIdx, Word;
      ReadHead(m, blocks, lo, hi, freeList);
      next, pre, p, k := freeList, 0, -1, NextIdx(blocks, 0);
      WalkOrder(m, blocks, lo, hi, freeList, i, k);
      while next != 0 && next < block
        invariant Stand(blocks, p, k) && p < i && next == AddrOf(blocks, k)
        invariant pre == if p >= 0 then AddrOf(blocks, p) else 0
        invariant next != 0 && next < block <==> k < i
        decreases |blocks| - k
      {
        WalkRead(m, blocks, lo, hi, freeList, i, k);
        pre, p := next, k;
        next := LoadWord(next + HEAD);
        k := NextIdx(blocks, k + 1);
        WalkOrder(m, blocks, lo, hi, freeList, i, k);
      }
      AddrNonZero(m, blocks, lo, hi, freeList, k);
      if p >= 0 {
        AddrNonZero(m, blocks, lo, hi, freeList, p);
      }
    }

    /** The left side of MEM_Deallocate: first in the list, swallowed by the block
        before, or linked behind it. */
    method JoinLeft(block: nat, size: nat, pre0: nat, ghost m: seq<Byte>, ghost p: int, ghost i: nat, ghost k: nat)
      returns (pre: nat)
      requires Loose(m, blocks, lo, hi, freeList) && p < i < |blocks| && Neighbours(blocks, p, i, k)
      requires blocks[i].size >= MIN_BLOCK && blocks[i].End() <= |m| && mem[..] == Release(m, blocks[i], AddrOf(blocks, k))
      requires block == blocks[i].addr && size == blocks[i].size
      requires pre0 == (if p >= 0 then AddrOf(blocks, p) else 0) && (pre0 != 0 <==> p >= 0)
      modifies this`freeList, mem
      ensures p >= 0 ==> blocks[p].addr + HEAD + 4 <= |m|
      ensures mem[..] == LinkLeft(m, blocks, p, i, AddrOf(blocks, k))
      ensures freeList == if p < 0 then blocks[i].addr else old(freeList)
      ensures pre == LeftJoined(blocks, i).addr
    {
      hide FirstFree, Loose, Neighbours, Release, SetWord, Word;
      RightIs(blocks, p, i, k);
      NeighbourUsed(blocks, p, i, k);
      if pre0 == 0 {
        freeList := block;
        return block;
      }
      ReadBefore(m, blocks, lo, hi, freeList, p, i, AddrOf(blocks, k));
      var before := LoadWord(pre0);
      if pre0 + before == block {
        StoreWord(pre0, before + size);
        return pre0;
      } else {
        StoreWord(pre0 + HEAD, block);
        return block;
      }
    }

    /** The right side of MEM_Deallocate: the block swallows a free one that follows. */
    method JoinRight(pre: nat, next: nat, ghost y: Blk, ghost z: Blk, ghost right: bool)
      requires y.size >= MIN_BLOCK && y.End() <= mem.Length && pre == y.addr && Word(mem[..], pre) == y.size
      requires next != 0 ==> next == z.addr && z.addr + HEAD + 4 <= mem.Length && Word(mem[..], next) == z.size
      requires right <==> next != 0 && y.End() == z.addr
      modifies mem
      ensures mem[..] == if right then LinkRight(old(mem[..]), y, z, Word(old(mem[..]), z.addr + HEAD)) else old(mem[..])
    {
      hide SetWord, Word;
      if next != 0 {
        var size := LoadWord(pre);
        if pre + size == next {
          var more := LoadWord(next);
          SetWordElsewhere(mem[..], pre, size + more, next + HEAD);
          StoreWord(pre, size + more);
          var after := LoadWord(next + HEAD);
          StoreWord(pre + HEAD, after);
        }
      }
    }

    /** MEM_Deallocate. A null pointer and a block that is not marked in use are left
        alone; a live block becomes free and is joined with its free neighbours. */
    method Deallocate(ptr: nat, ghost i: nat)
      requires Valid() && (ptr != 0 ==> HasHeader(mem[..], ptr))
      requires ptr != 0 && Dog(mem[..], ptr) == IN_USE ==> i < |blocks| && blocks[i].used && ptr == blocks[i].addr + HEAD
      modifies this`freeList, this`free, this`blocks, mem
      ensures Valid()
      ensures ptr == 0 || Dog(old(mem[..]), ptr) != IN_USE ==> mem[..] == old(mem[..]) && blocks == old(blocks)
      ensures ptr != 0 && Dog(old(mem[..]), ptr) == IN_USE ==>
                && blocks == Released(old(blocks), i) && free == old(free) + old(blocks)[i].size
                && UsersKept(old(mem[..]), mem[..], old(blocks), i)
                && HasHeader(mem[..], ptr) && Dog(mem[..], ptr) == FREE
    {
      hide AlignDown, AlignUp, FreeSum, Image, LeftJoined, LinkLeft, LinkRight, Loose, Neighbours;
      hide Released, Release, SetWord, Tiled, UsersKept, Word;
      if ptr == 0 {
        return;
      }
      ghost var m, bs, head := mem[..], blocks, freeList;
      var block := ptr - HEAD;
      var size := LoadWord(block);
      if mem[block + size - 1] != IN_USE {
        return;
      }
      ImageParts(m, bs, lo, hi, head);
      ReadFree(m, bs, lo, hi, head, i);
      StoreByte(block + size - 1, FREE);
      free := free + size;
      var pre, next;
      ghost var p, k;
      pre, next, p, k := FindPlace(block, m, i);
      NeighbourUsed(bs, p, i, k);
      StoreWord(block + HEAD, next);
      ReleaseBytes(m, bs[i], next);
      pre := JoinLeft(block, size, pre, m, p, i, k);
      ghost var m1 := mem[..];
      SettleLeft(m, bs, lo, hi, head, p, i, k);
      LeftStands(m, bs, lo, hi, head, p, i, k, m1, freeList);
      ReleaseImage(m, m1, bs, lo, hi, head, p, i, k);
      FreedDog(m, m1, bs, lo, hi, head, p, i, k);
      JoinRight(pre, next, LeftJoined(bs, i), if k < |bs| then bs[k] else bs[i], k == i + 1 && k < |bs|);
      blocks := Released(bs, i);
      ReleasedFreeSum(bs, i);
    }

    /** MEM_HeapStatus on a heap kept by these operations: the walk meets no bad guard
        and no unexpected free block, and ends valid with the right numbers. */
    method HeapStatus() returns (s: Status, valid: bool, result: int)
      requires Valid()
      ensures result == 0 && valid && s == Census(blocks)
    {
      hide AlignDown, AlignUp, FreeSum, Image, Loose, Tiled, Word;
      ghost var m := mem[..];
      ImageParts(m, blocks, lo, hi, freeList);
      ReadHead(m, blocks, lo, hi, freeList);
      var addr, top := AlignUp(base, align), AlignDown(base + size, align);
      var freeBlock := freeList;
      ghost var j := 0;
      TiledNext(blocks, lo, hi, 0);
      s, result := Status(0, 0, 0, 0), 0;
      while addr < top
        invariant j <= |blocks| && addr == StartOf(blocks, j, hi) && (addr < hi <==> j < |blocks|)
        invariant freeBlock == AddrOf(blocks, NextIdx(blocks, j)) && s == Census(blocks[..j])
        decreases |blocks| - j
      {
        ReadFree(m, blocks, lo, hi, freeList, j);
        StatusRead(m, blocks, lo, hi, freeList, j);
        CensusSnoc(blocks, j);
        TiledNext(blocks, lo, hi, j);
        TiledNext(blocks, lo, hi, j + 1);
        var size := LoadWord(addr);
        if mem[addr + size - 1] == IN_USE {
          if addr == freeBlock {
            result := 1;
            break;
          }
          s := s.(used := s.used + 1);
        } else if mem[addr + size - 1] == FREE {
          if addr != freeBlock {
            result := 2;
            break;
          }
          var room := size - HEAD - 1;
          s := s.(room := s.room + room);
          if room > s.largest {
            s := s.(largest := room);
          }
          freeBlock := LoadWord(freeBlock + HEAD);
          s := s.(spare := s.spare + 1);
        } else {
          result := 3;
          break;
        }
        addr, j := addr + size, j + 1;
      }
      assert blocks[..|blocks|] == blocks;
      valid := result == 0 && addr == top && freeBlock == 0;
    }

    /** Freeing every live pointer, in whatever order, leaves one full-size block. */
    method FreeAll(order: seq<nat>)
      requires Valid() && lo < hi
      requires Elements(order) == Live(blocks) && forall i, j :: 0 <= i < j < |order| ==> order[i] != order[j]
      modifies this`freeList, this`free, this`blocks, mem
      ensures Valid() && blocks == [Blk(lo, hi - lo, false)] && free == hi - lo
    {
      hide AlignDown, AlignUp, FreeSum, Image, Live, Loose, Tiled, UsersKept, Word;
      var n := 0;
      assert order[0..] == order;
      while n < |order|
        invariant n <= |order| && Valid() && Elements(order[n..]) == Live(blocks)
      {
        ghost var bs := blocks;
        NextPointer(bs, order, n);
        ghost var i :| Points(bs, i, order[n]);
        LiveHeader(mem[..], bs, lo, hi, freeList, i);
        ReleasedLive(bs, lo, hi, i);
        Deallocate(order[n], i);
        n := n + 1;
      }
      ImageParts(mem[..], blocks, lo, hi, freeList);
      assert order[n..] == [];
      AllFree(mem[..], blocks, lo, hi, freeList);
      OneFree(Blk(lo, hi - lo, false));
    }

    /** memcpy between two separate areas. */
    method CopyBytes(dst: nat, src: nat, len: nat)
      requires dst + len <= mem.Length && src + len <= mem.Length
      requires dst + len <= src || src + len <= dst
      modifies mem
      ensures Same(old(mem[..]), mem[..], 0, dst) && Same(old(mem[..]), mem[..], dst + len, mem.Length)
      ensures Moved(old(mem[..]), mem[..], src, dst, len)
    {
      for n := 0 to len
        invariant forall j :: 0 <= j < mem.Length && !(dst <= j < dst + len) ==> mem[j] == old(mem[j])
        invariant mem[dst..dst + n] == old(mem[src..src + n])
      {
        mem[dst + n] := mem[src + n];
      }
    }

    /** The old payload is copied into the block just served. */
    method CopyInto(ptr: nat, tmp: nat, size: nat, ghost at: nat, ghost from: nat)
      requires Valid() && Points(blocks, from, ptr) && Points(blocks, at, tmp)
      requires size == blocks[from].size < blocks[at].size
      modifies mem
      ensures Valid() && ptr != tmp && HEAD <= size
      ensures Moved(old(mem[..]), mem[..], ptr, tmp, size - HEAD)
      ensures UsersKept(old(mem[..]), mem[..], blocks, at)
      ensures HasHeader(mem[..], ptr) && Dog(mem[..], ptr) == IN_USE
    {
      hide AlignDown, AlignUp, FreeSum, Image, Tiled, UsersKept, Word;
      ghost var m := mem[..];
      ImageParts(m, blocks, lo, hi, freeList);
      BlockBounds(blocks, lo, hi, at);
      BlockBounds(blocks, lo, hi, from);
      Apart(blocks, lo, hi, at, from);
      CopyBytes(tmp, ptr, size - HEAD);
      SameWider(m, mem[..], tmp + (size - HEAD), blocks[at].Guard());
      PayloadImage(m, mem[..], blocks, lo, hi, freeList, at);
      LiveHeader(mem[..], blocks, lo, hi, freeList, from);
    }

    /** The rest of a reallocation: copy, then free the old block. */
    method MoveBlock(ptr: nat, tmp: nat, size: nat,
                     ghost m: seq<Byte>, ghost bs: seq<Blk>, ghost i: nat, ghost k: nat, ghost n: nat)
      requires Valid() && Fits(bs, n, k) && Points(bs, i, ptr) && size == bs[i].size < n
      requires blocks == Serve(bs, k, n) && tmp == Served(bs[k], n).addr + HEAD && UsersKept(m, mem[..], bs, k)
      requires ptr + size <= HEAD + |m|
      modifies this`freeList, this`free, this`blocks, mem
      ensures Valid() && tmp != ptr
      ensures Relocated(m, mem[..], bs, blocks, i, k, n, tmp)
    {
      hide AlignDown, AlignUp, FreeSum, Image, Serve, Served, Shift, ServedIndex, Released, Tiled, UsersKept, Word;
      ghost var m1, at, i' := mem[..], ServedIndex(bs, k, n), Shift(bs, k, n, i);
      ServedLarge(bs[k], n);
      ShiftAt(bs, k, n, i);
      CopyInto(ptr, tmp, size, at, i');
      ghost var m2 := mem[..];
      Deallocate(ptr, i');
      ReallocKeeps(m, m1, m2, mem[..], bs, k, n, i);
      MovedInside(m, m1, m2, mem[..], ptr, tmp, size - HEAD, Served(bs[k], n).End());
    }

    /** tuya_mem_heap_realloc of a live block: kept when large enough, otherwise moved
        with its old bytes; nothing changes when no larger block is to be had. */
    method Realloc(ptr: nat, request: nat, ghost i: nat) returns (r: nat, ghost k: nat)
      requires Valid() && request < WORD_SPACE
      requires ptr != 0 ==> HasHeader(mem[..], ptr) && (Dog(mem[..], ptr) == IN_USE ==> Points(blocks, i, ptr))
      modifies this`freeList, this`free, this`watermark, this`blocks, mem
      ensures Valid()
      ensures r == 0 || r == ptr ==> mem[..] == old(mem[..]) && blocks == old(blocks)
      ensures ptr != 0 && Dog(old(mem[..]), ptr) != IN_USE ==> r == 0
      ensures ptr == 0 && r != 0 ==>
        var n, bs := BlockSize(AtLeast4(request), align), old(blocks);
        Handed(bs, k, n, request, r) && blocks == Serve(bs, k, n) && UsersKept(old(mem[..]), mem[..], bs, k)
      ensures ptr != 0 && Dog(old(mem[..]), ptr) == IN_USE ==>
        var n, bs := BlockSize(AtLeast4(request), align), old(blocks);
        && (r == ptr <==> n <= bs[i].size)
        && (r == ptr ==> (ptr + AtLeast4(request) <= bs[i].Guard() <==> n >= AtLeast4(request)))
        && (r == 0 <==> n > bs[i].size && (n < AtLeast4(request) || forall j :: !Fits(bs, n, j)))
        && (r != 0 && r != ptr ==>
              && Handed(bs, k, n, request, r) && Relocated(old(mem[..]), mem[..], bs, blocks, i, k, n, r))
    {
      hide AlignDown, AlignUp, BlockSize, FreeSum, Image, Serve, Released, Tiled, UsersKept, Word;
      if ptr == 0 {
        r, k := Allocate(request);
        return;
      }
      ghost var bs, m, head := blocks, mem[..], freeList;
      var size := LoadWord(ptr - HEAD);
      if mem[ptr - HEAD + size - 1] != IN_USE {
        return 0, 0;
      }
      LiveHeader(m, bs, lo, hi, head, i);
      var asked := if request < 4 then 4 else request;
      var n := BlockSize(asked, align);
      ImageParts(m, bs, lo, hi, head);
      BlockBounds(bs, lo, hi, i);
      if n <= size {
        FirstAligned(base, align);
        KeptRoom(bs[i], asked, align, hi);
        return ptr, 0;
      }
      r, k := Allocate(asked);
      if r == 0 {
        return;
      }
      MoveBlock(ptr, r, size, m, bs, i, k, n);
    }
  }
}
