/** The blocks that tile a heap region: a size word, a next-pointer word while free,
    and a guard byte at the end of every block. */
module HeapMemory {
  import opened Bytes

  /// ---- Blocks ----------------------------------------------------------------------------

  datatype Blk = Blk(addr: nat, size: nat, used: bool) {
    function End(): nat { addr + size }

    /** Where the guard byte is. */
    function Guard(): int { addr + size - 1 }
  }

  const HEAD := 4
  const MIN_BLOCK := 12
  const IN_USE := 0x55
  const FREE := 0xaa

  /** Neighbours meet, and every block can hold header, link and guard. */
  predicate Tiled(bs: seq<Blk>, lo: nat, hi: nat) {
    if bs == [] then lo == hi
    else bs[0].addr == lo && bs[0].size >= MIN_BLOCK && Tiled(bs[1..], bs[0].End(), hi)
  }

  /** Where the blocks of a list end that starts at `lo`. */
  function EndOf(bs: seq<Blk>, lo: nat): nat {
    if bs == [] then lo else EndOf(bs[1..], bs[0].End())
  }

  /** The address of the first free block of the list, or what follows it. */
  function FirstFree(bs: seq<Blk>, tail: nat): nat {
    if bs == [] then tail
    else if !bs[0].used then bs[0].addr
    else FirstFree(bs[1..], tail)
  }

  /** The bytes of a block as the allocator keeps them. */
  predicate BlockCoded(m: seq<Byte>, b: Blk, next: nat) {
    && b.size >= MIN_BLOCK && b.End() <= |m|
    && Word(m, b.addr) == b.size
    && m[b.Guard()] == (if b.used then IN_USE else FREE)
    && (!b.used ==> Word(m, b.addr + HEAD) == next)
  }

  /** All blocks are coded, each free one linked to the next free one; the last
      free one to `tail`. */
  predicate Coded(m: seq<Byte>, bs: seq<Blk>, tail: nat) {
    bs == [] || (BlockCoded(m, bs[0], FirstFree(bs[1..], tail)) && Coded(m, bs[1..], tail))
  }

  predicate AllUsed(bs: seq<Blk>) {
    forall i :: 0 <= i < |bs| ==> bs[i].used
  }

  /** No two neighbours are both free. */
  predicate Coalesced(bs: seq<Blk>) {
    forall i :: 0 <= i < |bs| - 1 ==> bs[i].used || bs[i + 1].used
  }

  /// ---- Lists of blocks, cut and joined ----------------------------------------------------

  lemma {:induction false} TiledJoin(a: seq<Blk>, b: seq<Blk>, lo: nat, hi: nat)
    ensures Tiled(a + b, lo, hi) <==> Tiled(a, lo, EndOf(a, lo)) && Tiled(b, EndOf(a, lo), hi)
    decreases |a|
  {
    if a == [] {
      assert a + b == b;
    } else {
      assert (a + b)[1..] == a[1..] + b;
      TiledJoin(a[1..], b, a[0].End(), hi);
    }
  }

  lemma {:induction false} TiledEnd(bs: seq<Blk>, lo: nat, hi: nat)
    requires Tiled(bs, lo, hi)
    ensures EndOf(bs, lo) == hi && lo <= hi && (bs != [] ==> lo + MIN_BLOCK <= hi)
    ensures forall i :: 0 <= i < |bs| ==> lo <= bs[i].addr && bs[i].size >= MIN_BLOCK && bs[i].End() <= hi
    decreases |bs|
  {
    if bs != [] {
      TiledEnd(bs[1..], bs[0].End(), hi);
    }
  }

  lemma {:induction false} FirstFreeJoin(a: seq<Blk>, b: seq<Blk>, tail: nat)
    ensures FirstFree(a + b, tail) == FirstFree(a, FirstFree(b, tail))
    decreases |a|
  {
    if a == [] {
      assert a + b == b;
    } else {
      assert (a + b)[1..] == a[1..] + b;
      FirstFreeJoin(a[1..], b, tail);
    }
  }

  lemma {:induction false} FirstFreeUsed(a: seq<Blk>, tail: nat)
    requires AllUsed(a)
    ensures FirstFree(a, tail) == tail
    decreases |a|
  {
    if a != [] {
      FirstFreeUsed(a[1..], tail);
    }
  }

  lemma {:induction false} CodedJoin(m: seq<Byte>, a: seq<Blk>, b: seq<Blk>, tail: nat)
    ensures Coded(m, a + b, tail) <==> Coded(m, a, FirstFree(b, tail)) && Coded(m, b, tail)
    decreases |a|
  {
    if a == [] {
      assert a + b == b;
    } else {
      assert (a + b)[1..] == a[1..] + b;
      CodedJoin(m, a[1..], b, tail);
      FirstFreeJoin(a[1..], b, tail);
    }
  }

  /** Blocks read only their own bytes. */
  lemma {:induction false} CodedSame(m: seq<Byte>, m': seq<Byte>, bs: seq<Blk>, lo: nat, hi: nat, tail: nat)
    requires Tiled(bs, lo, hi) && hi <= |m| && Same(m, m', lo, hi) && Coded(m, bs, tail)
    ensures Coded(m', bs, tail)
    decreases |bs|
  {
    if bs != [] {
      TiledEnd(bs, lo, hi);
      CodedSame(m, m', bs[1..], bs[0].End(), hi, tail);
    }
  }

  lemma CodedOne(m: seq<Byte>, b: Blk, tail: nat)
    ensures Coded(m, [b], tail) <==> BlockCoded(m, b, tail)
    ensures FirstFree([b], tail) == if b.used then tail else b.addr
    ensures forall lo, hi :: Tiled([b], lo, hi) <==> b.addr == lo && b.size >= MIN_BLOCK && b.End() == hi
  {
    assert [b][1..] == [];
  }

  function FreeSum(bs: seq<Blk>): nat {
    if bs == [] then 0 else (if bs[0].used then 0 else bs[0].size) + FreeSum(bs[1..])
  }

  lemma {:induction false} FreeSumJoin(a: seq<Blk>, b: seq<Blk>)
    ensures FreeSum(a + b) == FreeSum(a) + FreeSum(b)
    decreases |a|
  {
    if a == [] {
      assert a + b == b;
    } else {
      assert (a + b)[1..] == a[1..] + b;
      FreeSumJoin(a[1..], b);
    }
  }

  /** Blocks tile the region and are coded in memory, with `head` in front of the
      free list. */
  predicate Loose(m: seq<Byte>, bs: seq<Blk>, lo: nat, hi: nat, head: nat) {
    && 0 < lo && hi <= |m| && hi < WORD_SPACE
    && Tiled(bs, lo, hi) && Coded(m, bs, 0)
    && head == FirstFree(bs, 0)
  }

  /** A heap image: in addition no two free blocks are neighbours. */
  predicate Image(m: seq<Byte>, bs: seq<Blk>, lo: nat, hi: nat, head: nat) {
    Loose(m, bs, lo, hi, head) && Coalesced(bs)
  }

  /** The blocks before, at and after a position, each with its own claims. */
  lemma ImageCut(m: seq<Byte>, a: seq<Blk>, x: Blk, b: seq<Blk>, lo: nat, hi: nat)
    requires hi <= |m|
    ensures Tiled(a + [x] + b, lo, hi) && Coded(m, a + [x] + b, 0) <==>
            && Tiled(a, lo, x.addr) && x.size >= MIN_BLOCK && Tiled(b, x.End(), hi)
            && Coded(m, a, FirstFree([x] + b, 0)) && BlockCoded(m, x, FirstFree(b, 0)) && Coded(m, b, 0)
    ensures FirstFree(a + [x] + b, 0) == FirstFree(a, if x.used then FirstFree(b, 0) else x.addr)
    ensures FirstFree([x] + b, 0) == if x.used then FirstFree(b, 0) else x.addr
  {
    assert a + [x] + b == a + ([x] + b);
    TiledJoin(a, [x] + b, lo, hi);
    TiledJoin([x], b, x.addr, hi);
    CodedJoin(m, a, [x] + b, 0);
    CodedJoin(m, [x], b, 0);
    CodedOne(m, x, FirstFree(b, 0));
    FirstFreeJoin(a, [x] + b, 0);
    FirstFreeJoin([x], b, 0);
    assert ([x] + b)[1..] == b;
    if Tiled(a, lo, x.addr) {
      TiledEnd(a, lo, x.addr);
    }
  }

  predicate MayMeet(a: seq<Blk>, b: seq<Blk>) {
    a == [] || b == [] || a[|a| - 1].used || b[0].used
  }

  lemma CoalescedCut(a: seq<Blk>, x: Blk, b: seq<Blk>)
    ensures Coalesced(a + [x] + b) <==>
            Coalesced(a) && Coalesced(b) && MayMeet(a, [x]) && MayMeet([x], b)
  {
    var s := a + [x] + b;
    if Coalesced(s) {
      forall i | 0 <= i < |a| - 1 ensures a[i].used || a[i + 1].used {
        assert s[i] == a[i] && s[i + 1] == a[i + 1];
      }
      forall i | 0 <= i < |b| - 1 ensures b[i].used || b[i + 1].used {
        assert s[i + |a| + 1] == b[i] && s[i + |a| + 2] == b[i + 1];
      }
      assert a != [] ==> s[|a| - 1] == a[|a| - 1];
      assert s[|a|] == x && (b != [] ==> s[|a| + 1] == b[0]);
    }
    if Coalesced(a) && Coalesced(b) && MayMeet(a, [x]) && MayMeet([x], b) {
      forall i | 0 <= i < |s| - 1 ensures s[i].used || s[i + 1].used {
        assert i > |a| ==> s[i] == b[i - |a| - 1] && s[i + 1] == b[i - |a|];
      }
    }
  }

  /// ---- Allocation -------------------------------------------------------------------------

  /** Writing the size word and the guard byte of a block. */
  function Shape(m: seq<Byte>, x: Blk): (m': seq<Byte>)
    requires x.size >= MIN_BLOCK && x.End() <= |m|
    ensures |m'| == |m|
  {
    SetWord(m, x.addr, x.size)[x.Guard() := if x.used then IN_USE else FREE]
  }

  /** Memory after the end of free block `x` was cut off as a used block of size n. */
  function Carve(m: seq<Byte>, x: Blk, n: nat): (m': seq<Byte>)
    requires x.End() <= |m| && n >= MIN_BLOCK && x.size >= n + MIN_BLOCK
    ensures |m'| == |m|
  {
    Shape(Shape(m, Blk(x.addr, x.size - n, false)), Blk(x.addr + (x.size - n), n, true))
  }

  lemma ShapeCoded(m: seq<Byte>, x: Blk)
    requires x.size >= MIN_BLOCK && x.End() <= |m| && x.size < WORD_SPACE
    ensures BlockCoded(Shape(m, x), x, Word(m, x.addr + HEAD))
    ensures Same(m, Shape(m, x), 0, x.addr) && Same(m, Shape(m, x), x.End(), |m|)
  {
    var w := SetWord(m, x.addr, x.size);
    var v: Byte := if x.used then IN_USE else FREE;
    WordSetWord(m, x.addr, x.size);
    SetWordElsewhere(m, x.addr, x.size, x.addr + HEAD);
    SetByteWord(w, x.Guard(), v, x.addr);
    SetByteWord(w, x.Guard(), v, x.addr + HEAD);
    SetWordSame(m, x.addr, x.size, 0, x.addr);
    SetWordSame(m, x.addr, x.size, x.End(), |m|);
    GuardSame(w, x, v);
    hide SetWord, Word;
  }

  lemma CarveCoded(m: seq<Byte>, x: Blk, n: nat, next: nat)
    requires BlockCoded(m, x, next) && !x.used && n >= MIN_BLOCK && x.size >= n + MIN_BLOCK
    requires x.End() < WORD_SPACE
    ensures
      var m' := Carve(m, x, n);
      && BlockCoded(m', Blk(x.addr, x.size - n, false), next)
      && BlockCoded(m', Blk(x.addr + (x.size - n), n, true), next)
      && Same(m, m', 0, x.addr) && Same(m, m', x.End(), |m|)
  {
    var rest, u := Blk(x.addr, x.size - n, false), Blk(x.addr + (x.size - n), n, true);
    var m1 := Shape(m, rest);
    var m' := Shape(m1, u);
    assert m' == Carve(m, x, n) && x.End() <= |m| && Word(m, rest.addr + HEAD) == next;
    hide *;
    ShapeCoded(m, rest);
    ShapeCoded(m1, u);
    SameChain(m, m1, m', 0, x.addr, 0, u.addr);
    SameChain(m, m1, m', rest.End(), |m|, x.End(), |m|);
    BlockKept(m1, m', rest, next);
    UsedAnyNext(m', u, Word(m1, u.addr + HEAD), next);
  }

  lemma UsedAnyNext(m: seq<Byte>, x: Blk, next: nat, next': nat)
    requires BlockCoded(m, x, next) && x.used
    ensures BlockCoded(m, x, next')
  {
  }

  /** Unchanged through two steps. */
  lemma SameChain(m: seq<Byte>, m1: seq<Byte>, m2: seq<Byte>, lo: nat, hi: nat, lo': nat, hi': nat)
    requires Same(m, m1, lo, hi) && Same(m1, m2, lo', hi')
    ensures Same(m, m2, if lo < lo' then lo' else lo, if hi < hi' then hi else hi')
  {
  }

  lemma BlockKept(m: seq<Byte>, m': seq<Byte>, x: Blk, next: nat)
    requires BlockCoded(m, x, next) && Same(m, m', 0, x.End())
    ensures BlockCoded(m', x, next)
  {
  }

  lemma CarveCoalesced(a: seq<Blk>, x: Blk, b: seq<Blk>, rest: Blk, u: Blk)
    requires Coalesced(a + [x] + b) && !x.used && !rest.used && u.used
    ensures Coalesced(a + [rest] + ([u] + b))
  {
    CoalescedCut(a, x, b);
    CoalescedCut(a, rest, [u] + b);
    CoalescedCut([], u, b);
    assert [] + [u] + b == [u] + b;
    hide Coalesced;
  }

  lemma CarveImage(m: seq<Byte>, a: seq<Blk>, x: Blk, b: seq<Blk>, lo: nat, hi: nat, head: nat, n: nat)
    requires Image(m, a + [x] + b, lo, hi, head) && !x.used
    requires n >= MIN_BLOCK && x.size >= n + MIN_BLOCK
    ensures x.End() <= |m|
    ensures
      var rest, u := Blk(x.addr, x.size - n, false), Blk(x.addr + (x.size - n), n, true);
      Image(Carve(m, x, n), a + [rest] + ([u] + b), lo, hi, head)
    ensures Same(m, Carve(m, x, n), 0, x.addr) && Same(m, Carve(m, x, n), x.End(), |m|)
  {
    var rest, u := Blk(x.addr, x.size - n, false), Blk(x.addr + (x.size - n), n, true);
    Middle(m, a, x, b, lo, hi, head);
    hide BlockCoded, Carve, Coded, Coalesced, FirstFree, Loose, Same, Tiled;
    CarveCoded(m, x, n, FirstFree(b, 0));
    CarveCoalesced(a, x, b, rest, u);
    CarveLoose(m, Carve(m, x, n), a, x, rest, u, b, lo, hi, head);
  }

  lemma Middle(m: seq<Byte>, a: seq<Blk>, x: Blk, b: seq<Blk>, lo: nat, hi: nat, head: nat)
    requires Loose(m, a + [x] + b, lo, hi, head)
    ensures BlockCoded(m, x, FirstFree(b, 0)) && x.size >= MIN_BLOCK
    ensures lo <= x.addr && x.End() <= hi <= |m| && hi < WORD_SPACE
  {
    ImageCut(m, a, x, b, lo, hi);
    TiledEnd(b, x.End(), hi);
    TiledEnd(a, lo, x.addr);
  }

  lemma CarveLoose(m: seq<Byte>, m': seq<Byte>, a: seq<Blk>, x: Blk, rest: Blk, u: Blk, b: seq<Blk>, lo: nat, hi: nat, head: nat)
    requires Loose(m, a + [x] + b, lo, hi, head) && !x.used && !rest.used && u.used && |m'| == |m|
    requires x.addr == rest.addr && rest.End() == u.addr && u.End() == x.End()
    requires BlockCoded(m', rest, FirstFree(b, 0)) && BlockCoded(m', u, FirstFree(b, 0))
    requires Same(m, m', 0, x.addr) && Same(m, m', x.End(), |m|)
    ensures Loose(m', a + [rest] + ([u] + b), lo, hi, head)
  {
    ImageCut(m, a, x, b, lo, hi);
    TiledEnd(b, x.End(), hi);
    TiledEnd(a, lo, x.addr);
    CodedSame(m, m', a, lo, x.addr, x.addr);
    CodedSame(m, m', b, x.End(), hi, 0);
    ImageCut(m', [], u, b, u.addr, hi);
    assert [] + [u] + b == [u] + b;
    ImageCut(m', a, rest, [u] + b, lo, hi);
    hide BlockCoded, FirstFree, Same;
  }

  lemma SetGuard(m: seq<Byte>, x: Blk, next: nat, used: bool)
    requires BlockCoded(m, x, next)
    ensures BlockCoded(m[x.Guard() := if used then IN_USE else FREE], x.(used := used),
                       Word(m, x.addr + HEAD))
  {
    SetByteWord(m, x.Guard(), if used then IN_USE else FREE, x.addr);
    SetByteWord(m, x.Guard(), if used then IN_USE else FREE, x.addr + HEAD);
  }

  lemma GuardSame(m: seq<Byte>, x: Blk, v: Byte)
    requires x.size >= MIN_BLOCK && x.End() <= |m|
    ensures Same(m, m[x.Guard() := v], 0, x.addr) && Same(m, m[x.Guard() := v], x.End(), |m|)
  {
  }

  lemma Exchange(a: seq<Blk>, x: Blk, y: Blk, b: seq<Blk>)
    requires Coalesced(a + [x] + b) && (y.used || (x.used == y.used))
    ensures Coalesced(a + [y] + b)
  {
    CoalescedCut(a, x, b);
    CoalescedCut(a, y, b);
  }

  /** Taking block `x` whole, with no free block before it. */
  lemma TakeFirst(m: seq<Byte>, a: seq<Blk>, x: Blk, b: seq<Blk>, lo: nat, hi: nat, head: nat)
    requires Image(m, a + [x] + b, lo, hi, head) && !x.used && AllUsed(a)
    ensures x.size >= MIN_BLOCK && x.End() <= |m|
    ensures head == x.addr && Word(m, x.addr + HEAD) == FirstFree(b, 0)
    ensures Image(m[x.Guard() := IN_USE], a + [x.(used := true)] + b, lo, hi, FirstFree(b, 0))
  {
    hide Coded, Coalesced, FirstFree, Same, Tiled, Word;
    ImageCut(m, a, x, b, lo, hi);
    TiledEnd(b, x.End(), hi);
    TiledEnd(a, lo, x.addr);
    var m' := m[x.Guard() := IN_USE];
    var u := x.(used := true);
    FirstFreeUsed(a, x.addr);
    FirstFreeUsed(a, FirstFree(b, 0));
    SetGuard(m, x, FirstFree(b, 0), true);
    GuardSame(m, x, IN_USE);
    UsedLinks(m, a, x.addr, FirstFree(b, 0));
    CodedSame(m, m', a, lo, x.addr, FirstFree(b, 0));
    CodedSame(m, m', b, x.End(), hi, 0);
    ImageCut(m', a, u, b, lo, hi);
    Exchange(a, x, u, b);
  }

  /** Taking block `x` whole behind the free block `p`. */
  lemma TakeAfter(m: seq<Byte>, a: seq<Blk>, p: Blk, c: seq<Blk>, x: Blk, b: seq<Blk>, lo: nat, hi: nat, head: nat)
    requires Image(m, (a + [p] + c) + [x] + b, lo, hi, head)
    requires !x.used && !p.used && AllUsed(c)
    ensures x.size >= MIN_BLOCK && x.End() <= |m| && p.addr + HEAD + 4 <= x.addr
    ensures Word(m, x.addr + HEAD) == FirstFree(b, 0)
    ensures Image(SetWord(m, p.addr + HEAD, FirstFree(b, 0))[x.Guard() := IN_USE],
                  (a + [p] + c) + [x.(used := true)] + b, lo, hi, head)
  {
    hide Coded, Coalesced, FirstFree, SetWord, Tiled, Word;
    var pre := a + [p] + c;
    ImageCut(m, pre, x, b, lo, hi);
    TiledEnd(b, x.End(), hi);
    FirstFreeBound(b, x.End(), hi);
    Relink(m, a, p, c, lo, x.addr, x.addr, FirstFree(b, 0));
    var m1 := SetWord(m, p.addr + HEAD, FirstFree(b, 0));
    var m' := m1[x.Guard() := IN_USE];
    var u := x.(used := true);
    BlockSame(m, m1, x, FirstFree(b, 0));
    SetGuard(m1, x, FirstFree(b, 0), true);
    GuardSame(m1, x, IN_USE);
    CodedSame(m1, m', pre, lo, x.addr, FirstFree(b, 0));
    CodedSame(m, m1, b, x.End(), hi, 0);
    CodedSame(m1, m', b, x.End(), hi, 0);
    ImageCut(m', pre, u, b, lo, hi);
    Exchange(pre, x, u, b);
  }

  lemma BlockSame(m: seq<Byte>, m': seq<Byte>, x: Blk, next: nat)
    requires BlockCoded(m, x, next) && Same(m, m', x.addr, x.End())
    ensures BlockCoded(m', x, next)
  {
  }

  lemma {:induction false} FirstFreeBound(b: seq<Blk>, lo: nat, hi: nat)
    requires Tiled(b, lo, hi)
    ensures FirstFree(b, 0) <= hi
    ensures FirstFree(b, 0) != 0 ==> FirstFree(b, 0) >= lo
    ensures lo > 0 ==> (FirstFree(b, 0) == lo <==> b != [] && !b[0].used)
    decreases |b|
  {
    if b != [] {
      TiledEnd(b, lo, hi);
      FirstFreeBound(b[1..], b[0].End(), hi);
    }
  }

  /** Used blocks hold no links, so what follows them does not matter. */
  lemma {:induction false} UsedLinks(m: seq<Byte>, a: seq<Blk>, tail: nat, tail': nat)
    requires AllUsed(a) && Coded(m, a, tail)
    ensures Coded(m, a, tail')
    decreases |a|
  {
    if a != [] {
      UsedLinks(m, a[1..], tail, tail');
    }
  }

  /** The blocks before `x`, ending in the last free one `p` and used ones. */
  lemma PredCut(m: seq<Byte>, a: seq<Blk>, p: Blk, c: seq<Blk>, lo: nat, hi: nat, tail: nat)
    requires hi <= |m| && AllUsed(c) && !p.used
    ensures Tiled(a + [p] + c, lo, hi) && Coded(m, a + [p] + c, tail) <==>
            && Tiled(a, lo, p.addr) && p.size >= MIN_BLOCK && Tiled(c, p.End(), hi)
            && Coded(m, a, p.addr) && BlockCoded(m, p, tail) && Coded(m, c, tail)
    ensures FirstFree(a + [p] + c, tail) == FirstFree(a, p.addr)
  {
    assert a + [p] + c == a + ([p] + c) && ([p] + c)[1..] == c;
    FirstFreeUsed(c, tail);
    TiledJoin(a, [p] + c, lo, hi);
    TiledJoin([p], c, p.addr, hi);
    CodedJoin(m, a, [p] + c, tail);
    CodedJoin(m, [p], c, tail);
    CodedOne(m, p, FirstFree(c, tail));
    FirstFreeJoin(a, [p] + c, tail);
    if Tiled(a, lo, p.addr) {
      TiledEnd(a, lo, p.addr);
    }
  }

  /** Linking the last free block `p` to another follower rewrites its link word. */
  lemma Relink(m: seq<Byte>, a: seq<Blk>, p: Blk, c: seq<Blk>, lo: nat, hi: nat, tail: nat, tail': nat)
    requires hi <= |m| && hi < WORD_SPACE && AllUsed(c) && !p.used && tail' < WORD_SPACE
    requires Tiled(a + [p] + c, lo, hi) && Coded(m, a + [p] + c, tail)
    ensures p.addr + HEAD + 4 <= p.End() <= hi && lo <= p.addr
    ensures Coded(SetWord(m, p.addr + HEAD, tail'), a + [p] + c, tail')
    ensures Same(m, SetWord(m, p.addr + HEAD, tail'), 0, lo)
    ensures Same(m, SetWord(m, p.addr + HEAD, tail'), hi, |m|)
    ensures forall tail'' :: FirstFree(a + [p] + c, tail'') == FirstFree(a, p.addr)
  {
    hide Coded, FirstFree, SetWord, Tiled, Word;
    var at := p.addr + HEAD;
    PredCut(m, a, p, c, lo, hi, tail);
    TiledEnd(a, lo, p.addr);
    TiledEnd(c, p.End(), hi);
    var m' := SetWord(m, at, tail');
    PredCut(m', a, p, c, lo, hi, tail');
    WordSetWord(m, at, tail');
    SetWordElsewhere(m, at, tail', p.addr);
    SetWordElsewhere(m, at, tail', p.Guard());
    SetWordSame(m, at, tail', 0, p.addr);
    SetWordSame(m, at, tail', p.End(), |m|);
    CodedSame(m, m', a, lo, p.addr, p.addr);
    UsedLinks(m, c, tail, tail');
    CodedSame(m, m', c, p.End(), hi, tail');
    forall tail''
      ensures FirstFree(a + [p] + c, tail'') == FirstFree(a, p.addr)
    {
      PredCut(m, a, p, c, lo, hi, tail'');
    }
  }

  /// ---- Release -----------------------------------------------------------------------------

  /** Memory after used block `x` was marked free and linked to `next`. */
  function Release(m: seq<Byte>, x: Blk, next: nat): (m': seq<Byte>)
    requires x.size >= MIN_BLOCK && x.End() <= |m|
    ensures |m'| == |m|
  {
    SetWord(m[x.Guard() := FREE], x.addr + HEAD, next)
  }

  lemma ReleaseCoded(m: seq<Byte>, x: Blk, before: nat, next: nat)
    requires BlockCoded(m, x, before) && next < WORD_SPACE
    ensures BlockCoded(Release(m, x, next), x.(used := false), next)
    ensures Same(m, Release(m, x, next), 0, x.addr) && Same(m, Release(m, x, next), x.End(), |m|)
  {
    var m1 := m[x.Guard() := FREE];
    var at := x.addr + HEAD;
    SetByteWord(m, x.Guard(), FREE, x.addr);
    GuardSame(m, x, FREE);
    WordSetWord(m1, at, next);
    SetWordElsewhere(m1, at, next, x.addr);
    SetWordElsewhere(m1, at, next, x.Guard());
    SetWordSame(m1, at, next, 0, x.addr);
    SetWordSame(m1, at, next, x.End(), |m|);
    hide SetWord, Word;
  }

  /** The released block stands alone in front of the free list. */
  lemma ReleaseFirst(m: seq<Byte>, a: seq<Blk>, x: Blk, b: seq<Blk>, lo: nat, hi: nat, head: nat)
    requires Loose(m, a + [x] + b, lo, hi, head) && x.used && AllUsed(a)
    ensures x.size >= MIN_BLOCK && x.End() <= |m| && head == FirstFree(b, 0)
    ensures Loose(Release(m, x, head), a + [x.(used := false)] + b, lo, hi, x.addr)
    ensures Same(m, Release(m, x, head), 0, x.addr) && Same(m, Release(m, x, head), x.End(), |m|)
  {
    hide BlockCoded, Coded, FirstFree, Release, Tiled, Word;
    ImageCut(m, a, x, b, lo, hi);
    TiledEnd(b, x.End(), hi);
    TiledEnd(a, lo, x.addr);
    FirstFreeBound(b, x.End(), hi);
    FirstFreeUsed(a, FirstFree(b, 0));
    FirstFreeUsed(a, x.addr);
    var m' := Release(m, x, head);
    var f := x.(used := false);
    ReleaseCoded(m, x, head, head);
    UsedLinks(m, a, head, x.addr);
    CodedSame(m, m', a, lo, x.addr, x.addr);
    CodedSame(m, m', b, x.End(), hi, 0);
    ImageCut(m', a, f, b, lo, hi);
  }

  /** The released block is linked behind the free block `p`. */
  lemma ReleaseAfter(m: seq<Byte>, a: seq<Blk>, p: Blk, c: seq<Blk>, x: Blk, b: seq<Blk>, lo: nat, hi: nat, head: nat)
    requires Loose(m, (a + [p] + c) + [x] + b, lo, hi, head) && x.used && !p.used && AllUsed(c)
    ensures x.size >= MIN_BLOCK && x.End() <= |m| && p.addr + HEAD + 4 <= x.addr
    ensures
      var m' := SetWord(Release(m, x, FirstFree(b, 0)), p.addr + HEAD, x.addr);
      Loose(m', (a + [p] + c) + [x.(used := false)] + b, lo, hi, head)
  {
    hide BlockCoded, Coded, FirstFree, Release, SetWord, Tiled, Word;
    var pre := a + [p] + c;
    var next := FirstFree(b, 0);
    ImageCut(m, pre, x, b, lo, hi);
    TiledEnd(b, x.End(), hi);
    TiledEnd(pre, lo, x.addr);
    FirstFreeBound(b, x.End(), hi);
    var m1 := Release(m, x, next);
    var f := x.(used := false);
    ReleaseCoded(m, x, next, next);
    CodedSame(m, m1, pre, lo, x.addr, next);
    CodedSame(m, m1, b, x.End(), hi, 0);
    Relink(m1, a, p, c, lo, x.addr, next, x.addr);
    var m' := SetWord(m1, p.addr + HEAD, x.addr);
    BlockSame(m1, m', f, next);
    CodedSame(m1, m', b, x.End(), hi, 0);
    ImageCut(m', pre, f, b, lo, hi);
  }

  /** Two touching blocks become one when the first one's size word grows. */
  lemma GrowCoded(m: seq<Byte>, p: Blk, x: Blk, next: nat)
    requires BlockCoded(m, p, next) && !p.used && x.size >= MIN_BLOCK
    requires p.End() == x.addr && x.End() <= |m| && x.End() < WORD_SPACE && m[x.Guard()] == FREE
    ensures
      var m' := SetWord(m, p.addr, p.size + x.size);
      && BlockCoded(m', Blk(p.addr, p.size + x.size, false), next)
      && Same(m, m', 0, p.addr) && Same(m, m', x.End(), |m|)
  {
    var size := p.size + x.size;
    WordSetWord(m, p.addr, size);
    SetWordElsewhere(m, p.addr, size, p.addr + HEAD);
    SetWordElsewhere(m, p.addr, size, x.Guard());
    SetWordSame(m, p.addr, size, 0, p.addr);
    SetWordSame(m, p.addr, size, x.End(), |m|);
    hide SetWord, Word;
  }

  /** A free block written into the gap between `a` and `b` completes the image. */
  lemma Rebuild(m: seq<Byte>, m': seq<Byte>, a: seq<Blk>, big: Blk, b: seq<Blk>, lo: nat, hi: nat)
    requires 0 < lo && hi <= |m| == |m'| && hi < WORD_SPACE && !big.used
    requires Tiled(a, lo, big.addr) && Tiled(b, big.End(), hi)
    requires Coded(m, a, big.addr) && Coded(m, b, 0) && BlockCoded(m', big, FirstFree(b, 0))
    requires Same(m, m', 0, big.addr) && Same(m, m', big.End(), |m|)
    ensures Loose(m', a + [big] + b, lo, hi, FirstFree(a, big.addr))
  {
    TiledEnd(b, big.End(), hi);
    CodedSame(m, m', a, lo, big.addr, big.addr);
    CodedSame(m, m', b, big.End(), hi, 0);
    ImageCut(m', a, big, b, lo, hi);
    hide BlockCoded, Coded, FirstFree, Tiled;
  }

  /** Two neighbours between `a` and `b`. */
  lemma PairCut(m: seq<Byte>, a: seq<Blk>, p: Blk, x: Blk, b: seq<Blk>, lo: nat, hi: nat, head: nat)
    requires Loose(m, a + [p] + ([x] + b), lo, hi, head) && !p.used
    ensures Tiled(a, lo, p.addr) && Tiled(b, x.End(), hi) && p.End() == x.addr
    ensures Coded(m, a, p.addr) && Coded(m, b, 0) && head == FirstFree(a, p.addr)
    ensures BlockCoded(m, p, if x.used then FirstFree(b, 0) else x.addr) && BlockCoded(m, x, FirstFree(b, 0))
    ensures FirstFree(b, 0) <= hi && x.End() <= hi <= |m| && hi < WORD_SPACE && 0 < lo <= p.addr
  {
    ImageCut(m, a, p, [x] + b, lo, hi);
    ImageCut(m, [], x, b, p.End(), hi);
    assert [] + [x] + b == [x] + b;
    TiledEnd(b, x.End(), hi);
    TiledEnd(a, lo, p.addr);
    FirstFreeBound(b, x.End(), hi);
    hide BlockCoded, Coded, FirstFree, Tiled;
  }

  lemma IntoCoded(m: seq<Byte>, p: Blk, x: Blk, next: nat)
    requires BlockCoded(m, p, next) && BlockCoded(m, x, next) && !p.used && x.used
    requires p.End() == x.addr && x.End() < WORD_SPACE && next < WORD_SPACE
    ensures
      var m' := SetWord(Release(m, x, next), p.addr, p.size + x.size);
      && BlockCoded(m', Blk(p.addr, p.size + x.size, false), next)
      && Same(m, m', 0, p.addr) && Same(m, m', x.End(), |m|)
  {
    var m1 := Release(m, x, next);
    ReleaseCoded(m, x, next, next);
    BlockSame(m, m1, p, next);
    GrowCoded(m1, p, x, next);
    hide Release, SetWord, Word;
  }

  /** The released block is swallowed by the free block right before it. */
  lemma ReleaseInto(m: seq<Byte>, a: seq<Blk>, p: Blk, x: Blk, b: seq<Blk>, lo: nat, hi: nat, head: nat)
    requires Loose(m, a + [p] + ([x] + b), lo, hi, head) && x.used && !p.used
    ensures x.size >= MIN_BLOCK && x.End() <= |m| && p.End() == x.addr && p.size + x.size < WORD_SPACE
    ensures
      var m' := SetWord(Release(m, x, FirstFree(b, 0)), p.addr, p.size + x.size);
      Loose(m', a + [Blk(p.addr, p.size + x.size, false)] + b, lo, hi, head)
  {
    PairCut(m, a, p, x, b, lo, hi, head);
    IntoCoded(m, p, x, FirstFree(b, 0));
    var m' := SetWord(Release(m, x, FirstFree(b, 0)), p.addr, p.size + x.size);
    hide Coded, FirstFree, Release, Same, SetWord, Tiled, Word;
    Rebuild(m, m', a, Blk(p.addr, p.size + x.size, false), b, lo, hi);
  }

  lemma MergeCoded(m: seq<Byte>, y: Blk, z: Blk, next: nat)
    requires BlockCoded(m, y, z.addr) && BlockCoded(m, z, next) && !y.used && !z.used
    requires y.End() == z.addr && z.End() < WORD_SPACE && next < WORD_SPACE
    ensures
      var m' := SetWord(SetWord(m, y.addr, y.size + z.size), y.addr + HEAD, next);
      && BlockCoded(m', Blk(y.addr, y.size + z.size, false), next)
      && Same(m, m', 0, y.addr) && Same(m, m', z.End(), |m|)
  {
    GrowCoded(m, y, z, z.addr);
    LinkCoded(SetWord(m, y.addr, y.size + z.size), Blk(y.addr, y.size + z.size, false), z.addr, next);
    hide SetWord, Word;
  }

  /** A free block swallows the free block right behind it. */
  lemma MergeNext(m: seq<Byte>, a: seq<Blk>, y: Blk, z: Blk, b: seq<Blk>, lo: nat, hi: nat, head: nat)
    requires Loose(m, a + [y] + ([z] + b), lo, hi, head) && !y.used && !z.used
    ensures y.size >= MIN_BLOCK && z.size >= MIN_BLOCK && y.End() == z.addr && z.End() <= |m|
    ensures Word(m, z.addr + HEAD) == FirstFree(b, 0) && Word(m, z.addr) == z.size && Word(m, y.addr) == y.size
    ensures
      var m' := SetWord(SetWord(m, y.addr, y.size + z.size), y.addr + HEAD, FirstFree(b, 0));
      Loose(m', a + [Blk(y.addr, y.size + z.size, false)] + b, lo, hi, head)
  {
    PairCut(m, a, y, z, b, lo, hi, head);
    MergeCoded(m, y, z, FirstFree(b, 0));
    var m' := SetWord(SetWord(m, y.addr, y.size + z.size), y.addr + HEAD, FirstFree(b, 0));
    hide Coded, FirstFree, Same, SetWord, Tiled, Word;
    Rebuild(m, m', a, Blk(y.addr, y.size + z.size, false), b, lo, hi);
  }

  lemma LinkCoded(m: seq<Byte>, x: Blk, before: nat, next: nat)
    requires BlockCoded(m, x, before) && !x.used && next < WORD_SPACE
    ensures
      var m' := SetWord(m, x.addr + HEAD, next);
      && BlockCoded(m', x, next) && Same(m, m', 0, x.addr) && Same(m, m', x.End(), |m|)
  {
    var at := x.addr + HEAD;
    WordSetWord(m, at, next);
    SetWordElsewhere(m, at, next, x.addr);
    SetWordElsewhere(m, at, next, x.Guard());
    SetWordSame(m, at, next, 0, x.addr);
    SetWordSame(m, at, next, x.End(), |m|);
    hide SetWord, Word;
  }
}
