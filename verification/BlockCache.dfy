/** The block device behind a read cache and a program cache. Reads return the
    device overlaid by what waits in the program cache; a run of programs ended by
    a sync puts the bytes on the device. */
module BlockCache {
  import opened BitMath
  import opened Bytes
  import opened Options
  import Names = NameSearch

  /// ---- Alignment ----------------------------------------------------------------------

  /** lfs_alignup. */
  function AlignUp(a: nat, align: nat): nat
    requires align > 0
  {
    AlignDown(a + align - 1, align)
  }

  /** `m` is a multiple of `n`. */
  predicate Divides(n: nat, m: nat) {
    n > 0 && m % n == 0
  }

  lemma Multiple(n: nat, m: nat)
    requires Divides(n, m)
    ensures m == m / n * n
  {
  }

  lemma DividesTrans(a: nat, b: nat, c: nat)
    requires Divides(a, b) && Divides(b, c)
    ensures Divides(a, c)
  {
    Multiple(a, b);
    Multiple(b, c);
    assert c == (c / b * (b / a)) * a by {
      assert c / b * (b / a * a) == (c / b * (b / a)) * a;
    }
    DivMod(c, a, c / b * (b / a), 0);
  }

  lemma DividesSum(n: nat, a: nat, b: nat)
    requires Divides(n, a) && Divides(n, b)
    ensures Divides(n, a + b)
  {
    Multiple(n, a);
    Multiple(n, b);
    assert (a / n + b / n) * n == a / n * n + b / n * n;
    DivMod(a + b, n, a / n + b / n, 0);
  }

  lemma MulMono(i: nat, j: nat, n: nat)
    requires i <= j
    ensures i * n <= j * n && j * n - i * n == (j - i) * n
  {
    assert (j - i) * n >= 0;
  }

  /** Multiples do not come closer than one step. */
  lemma DividesGap(n: nat, a: nat, b: nat)
    requires Divides(n, a) && Divides(n, b) && a < b
    ensures Divides(n, b - a) && b - a >= n
  {
    var i, j := a / n, b / n;
    Multiple(n, a);
    Multiple(n, b);
    if j <= i {
      MulMono(j, i, n);
    } else {
      MulMono(i, j, n);
      MulLess(0, j - i, n);
      DivMod(b - a, n, j - i, 0);
    }
  }

  lemma AlignedDown(a: nat, n: nat)
    requires n > 0
    ensures Divides(n, AlignDown(a, n)) && AlignDown(a, n) <= a < AlignDown(a, n) + n
  {
    DivMod(AlignDown(a, n), n, a / n, 0);
  }

  lemma AlignedUp(a: nat, n: nat)
    requires n > 0
    ensures Divides(n, AlignUp(a, n)) && a <= AlignUp(a, n) < a + n
  {
    AlignedDown(a + n - 1, n);
  }

  /** Rounding up stays below a multiple above. */
  lemma UpBelow(a: nat, n: nat, top: nat)
    requires n > 0 && a <= top && Divides(n, top)
    ensures AlignUp(a, n) <= top
  {
    AlignedUp(a, n);
    if top < AlignUp(a, n) {
      DividesGap(n, top, AlignUp(a, n));
    }
  }

  /// ---- When the read loop would stand still -------------------------------------------

  /** What is left of a direct read that must stop in front of the program cache. */
  ghost predicate NeverStalls(readSize: nat, progSize: nat)
    requires readSize > 0 && progSize > 0
  {
    forall off: nat, pOff: nat :: Divides(readSize, off) && Divides(progSize, pOff) && off < pOff ==>
      AlignDown(pOff - off, readSize) > 0
  }

  /** A direct read in front of the program cache always gets on exactly when the
      read size divides the program size. */
  lemma StallsIff(readSize: nat, progSize: nat)
    requires readSize > 0 && progSize > 0
    ensures NeverStalls(readSize, progSize) <==> Divides(readSize, progSize)
  {
    if Divides(readSize, progSize) {
      forall off: nat, pOff: nat | Divides(readSize, off) && Divides(progSize, pOff) && off < pOff
        ensures AlignDown(pOff - off, readSize) > 0
      {
        DividesTrans(readSize, progSize, pOff);
        DividesGap(readSize, off, pOff);
        AlignedDown(pOff - off, readSize);
      }
    } else {
      var off := AlignDown(progSize, readSize);
      AlignedDown(progSize, readSize);
      assert Divides(progSize, progSize);
      assert progSize - off < readSize;
      DivMod(progSize - off, readSize, 0, progSize - off);
    }
  }

  /// ---- Views ----------------------------------------------------------------------------

  datatype Geometry = Geometry(readSize: nat, progSize: nat, cacheSize: nat, blockSize: nat) {
    /** The asserts of lfs_init, and that reads are no coarser than programs. */
    predicate Valid() {
      && readSize > 0 && progSize > 0
      && Divides(readSize, cacheSize) && Divides(progSize, cacheSize) && Divides(cacheSize, blockSize)
      && Divides(readSize, progSize) && cacheSize > 0 && blockSize > 0
    }
  }

  /** The bytes held for a piece of a block. */
  datatype Cached = Cached(block: nat, off: nat, bytes: seq<Byte>) {
    function End(): nat { off + |bytes| }

    predicate Within(g: Geometry, n: nat) {
      block < n && End() <= g.blockSize && |bytes| <= g.cacheSize
    }
  }

  /** A block as readers shall see it. */
  function Seen(d: seq<Byte>, b: nat, pcache: Option<Cached>): (v: seq<Byte>)
    requires pcache.Some? && pcache.value.block == b ==> pcache.value.End() <= |d|
    ensures |v| == |d|
  {
    if pcache.Some? && pcache.value.block == b then Overwrite(d, pcache.value.off, pcache.value.bytes) else d
  }

  /** A piece of the seen block inside the program cache. */
  lemma SeenInside(d: seq<Byte>, c: Cached, off: nat, n: nat)
    requires c.End() <= |d| && c.off <= off && off + n <= c.End()
    ensures Seen(d, c.block, Some(c))[off..off + n] == c.bytes[off - c.off..off - c.off + n]
  {
    OverwriteInside(d, c.off, c.bytes, off, off + n);
  }

  /** A piece of it away from the program cache. */
  lemma SeenOutside(d: seq<Byte>, b: nat, pcache: Option<Cached>, off: nat, n: nat)
    requires off + n <= |d| && (pcache.Some? && pcache.value.block == b ==> pcache.value.End() <= |d|)
    requires pcache.Some? && pcache.value.block == b ==> off + n <= pcache.value.off || pcache.value.End() <= off
    ensures Seen(d, b, pcache)[off..off + n] == d[off..off + n]
  {
    if pcache.Some? && pcache.value.block == b {
      OverwriteAway(d, pcache.value.off, pcache.value.bytes, off, off + n);
    }
  }

  /** Bytes of the read cache are bytes of the seen block, if the program cache is
      not in the way. */
  lemma SeenCached(d: seq<Byte>, b: nat, pcache: Option<Cached>, buf: seq<Byte>, at: nat, off: nat, n: nat)
    requires at + |buf| <= |d| && buf == d[at..at + |buf|] && at <= off && off + n <= at + |buf|
    requires pcache.Some? && pcache.value.block == b ==> pcache.value.End() <= |d|
    requires pcache.Some? && pcache.value.block == b ==> off + n <= pcache.value.off || pcache.value.End() <= off
    ensures buf[off - at..off - at + n] == Seen(d, b, pcache)[off..off + n]
  {
    SeenOutside(d, b, pcache, off, n);
    SubSlice(d, at, at + |buf|, off - at, off - at + n);
  }

  lemma SubSlice(m: seq<Byte>, a: nat, b: nat, c: nat, d: nat)
    requires a <= b <= |m| && c <= d <= b - a
    ensures m[a..b][c..d] == m[a + c..a + d]
  {
    var x, y := m[a..b][c..d], m[a + c..a + d];
    assert |x| == |y| && forall i :: 0 <= i < |x| ==> x[i] == y[i];
  }

  lemma SliceJoin(v: seq<Byte>, lo: nat, mid: nat, hi: nat)
    requires lo <= mid <= hi <= |v|
    ensures v[lo..mid] + v[mid..hi] == v[lo..hi]
  {
  }

  function Least(a: int, b: int): int {
    if a < b then a else b
  }

  /** The piece that a cache load asks the device for. */
  lemma LoadSpan(g: Geometry, off: nat, hint: nat)
    requires g.Valid() && off < g.blockSize && hint >= 1
    ensures
      var lo := AlignDown(off, g.readSize);
      var n := Least(Least(AlignUp(off + hint, g.readSize), g.blockSize) - lo, g.cacheSize);
      && Divides(g.readSize, lo) && lo <= off < lo + n && lo + n <= g.blockSize && n <= g.cacheSize
  {
    AlignedDown(off, g.readSize);
    AlignedUp(off + hint, g.readSize);
    DividesGap(g.readSize, 0, g.cacheSize);
    hide AlignDown, AlignUp, Divides;
  }

  datatype Outcome = Ok(data: seq<Byte>) | Corrupt | Failed

  datatype Status = Done | Rejected | Broken

  /** Only bytes [lo, hi) of block `b` may differ. */
  ghost predicate WrittenAt(dev: seq<seq<Byte>>, dev': seq<seq<Byte>>, b: nat, lo: nat, hi: nat) {
    && |dev'| == |dev| && b < |dev| && lo <= hi <= |dev[b]| && |dev'[b]| == |dev[b]|
    && (forall c :: 0 <= c < |dev| && c != b ==> dev'[c] == dev[c])
    && dev'[b][..lo] == dev[b][..lo] && dev'[b][hi..] == dev[b][hi..]
  }

  /** The device has these bytes there. */
  predicate Holds(dev: seq<seq<Byte>>, b: nat, off: nat, bytes: seq<Byte>) {
    b < |dev| && off + |bytes| <= |dev[b]| && dev[b][off..off + |bytes|] == bytes
  }

  class Device {
    const g: Geometry
    var dev: seq<seq<Byte>>
    var rBlock: Option<nat>
    var rOff: nat
    var rSize: nat
    const rBuf: array<Byte>
    var pBlock: Option<nat>
    var pOff: nat
    var pSize: nat
    const pBuf: array<Byte>

    /** Whether the device always stores what it accepts. */
    const honest: bool

    /** Whether it never reports a failure of its own. */
    const sturdy: bool

    ghost predicate Shape()
      reads this, rBuf, pBuf
    {
      && g.Valid() && rBuf != pBuf && rBuf.Length == pBuf.Length == g.cacheSize
      && (forall b :: 0 <= b < |dev| ==> |dev[b]| == g.blockSize)
      && (rBlock.Some? ==> rSize <= g.cacheSize && RCache().Within(g, |dev|) && Divides(g.readSize, rOff))
      && (pBlock.Some? ==> pSize <= g.cacheSize && PCache().Within(g, |dev|) && Divides(g.progSize, pOff))
    }

    /** The read cache holds what is on the device. */
    ghost predicate Coherent()
      requires Shape()
      reads this, rBuf, pBuf
    {
      rBlock.Some? ==> rBuf[..rSize] == dev[rBlock.value][rOff..rOff + rSize]
    }

    ghost function RCache(): (c: Cached)
      requires rBlock.Some? && rSize <= rBuf.Length
      reads this, rBuf
      ensures |c.bytes| == rSize
    {
      Cached(rBlock.value, rOff, rBuf[..rSize])
    }

    ghost function PCache(): (c: Cached)
      requires pBlock.Some? && pSize <= pBuf.Length
      reads this, pBuf
      ensures |c.bytes| == pSize
    {
      Cached(pBlock.value, pOff, pBuf[..pSize])
    }

    /** What waits to be programmed. */
    ghost function Waiting(): Option<Cached>
      requires pBlock.Some? ==> pSize <= pBuf.Length
      reads this, pBuf
    {
      if pBlock.Some? then Some(PCache()) else None
    }

    /** A block as its readers shall see it, with or without the program cache. */
    ghost function View(b: nat, waiting: bool): (v: seq<Byte>)
      requires Shape() && b < |dev|
      reads this, rBuf, pBuf
      ensures |v| == g.blockSize
    {
      Seen(dev[b], b, if waiting then Waiting() else None)
    }

    constructor (g: Geometry, dev: seq<seq<Byte>>, honest: bool, sturdy: bool)
      requires g.Valid() && forall b :: 0 <= b < |dev| ==> |dev[b]| == g.blockSize
      ensures Shape() && Coherent() && this.g == g && this.dev == dev && pBlock == None
      ensures this.honest == honest && this.sturdy == sturdy
      ensures fresh(rBuf) && fresh(pBuf) && rBlock == None && forall k :: 0 <= k < rBuf.Length ==> rBuf[k] == 0xff
    {
      this.g, this.dev, this.honest, this.sturdy := g, dev, honest, sturdy;
      rBlock, rOff, rSize, pBlock, pOff, pSize := None, 0, 0, None, 0, 0;
      rBuf := new Byte[g.cacheSize](_ => 0xff);
      pBuf := new Byte[g.cacheSize](_ => 0xff);
    }

    /** The read cache claims these bytes of the device. */
    ghost predicate Claims(block: nat, off: nat, hint: nat)
      requires g.Valid() && off < g.blockSize
      reads this
    {
      && rBlock == Some(block) && rOff == AlignDown(off, g.readSize) && rOff <= off < rOff + rSize
      && rSize == Least(Least(AlignUp(off + hint, g.readSize), g.blockSize) - rOff, g.cacheSize)
    }

    /** The cache load of lfs_bd_read: aligned to the read size and covering `off`.
        When the device read `fails`, the cache claims bytes it never got: it tells
        the truth exactly if the bytes it held before happen to be those. */
    method Load(block: nat, off: nat, hint: nat, fails: bool) returns (ok: bool)
      requires Shape() && block < |dev| && off < g.blockSize && hint >= 1
      modifies this`rBlock, this`rOff, this`rSize, rBuf
      ensures Shape() && Claims(block, off, hint)
      ensures ok == !fails && (ok ==> Coherent())
      ensures !ok ==> rBuf[..] == old(rBuf[..])
      ensures !ok ==> (Coherent() <==> old(rBuf[..])[..rSize] == dev[block][rOff..rOff + rSize])
    {
      hide AlignDown, AlignUp, Divides;
      LoadSpan(g, off, hint);
      rBlock := Some(block);
      rOff := AlignDown(off, g.readSize);
      rSize := Least(Least(AlignUp(off + hint, g.readSize), g.blockSize) - rOff, g.cacheSize);
      if fails {
        assert rBuf[..rSize] == rBuf[..][..rSize];
        return false;
      }
      forall k | 0 <= k < rSize {
        rBuf[k] := dev[block][rOff + k];
      }
      ok := true;
    }

    /** One round of the loop of lfs_bd_read: some bytes, or at least a loaded cache. */
    method Step(waiting: bool, hint: nat, block: nat, off: nat, size: nat, fails: bool)
      returns (ok: bool, chunk: seq<Byte>)
      requires Shape() && hint >= 1 && block < |dev| && 0 < size && off + size <= g.blockSize
      modifies this`rBlock, this`rOff, this`rSize, rBuf
      ensures Shape() && View(block, waiting) == old(View(block, waiting)) && (ok ==> |chunk| <= size)
      ensures !fails ==> ok
      ensures ok && old(Coherent()) ==> Coherent() && chunk == View(block, waiting)[off..off + |chunk|]
      ensures ok && chunk == [] ==> !old(Loaded(block, off)) && Loaded(block, off)
      ensures old(Windowed(waiting, block, off, size)) ==>
                ok && unchanged(this, rBuf) && chunk == rBuf[off - rOff..off - rOff + size]
      ensures fails && old(Misses(waiting, hint, block, off, size)) ==>
                !ok && Claims(block, off, hint) && rBuf[..] == old(rBuf[..])
    {
      hide AlignDown, AlignUp, Coherent, Divides, Overwrite, Seen, Shape, View;
      ShapeParts();
      var diff := size;
      if waiting && pBlock == Some(block) && off < pOff + pSize {
        if off >= pOff {
          diff := Least(diff, pSize - (off - pOff));
          chunk := TakePending(block, off, diff);
          return true, chunk;
        }
        diff := Least(diff, pOff - off);
      }
      if rBlock == Some(block) && off < rOff + rSize {
        if off >= rOff {
          diff := Least(diff, rSize - (off - rOff));
          chunk := TakeCached(waiting, block, off, diff);
          return true, chunk;
        }
        diff := Least(diff, rOff - off);
      }
      ok, chunk := Fetch(waiting, hint, block, off, size, diff, fails);
    }

    lemma ShapeParts()
      requires Shape()
      ensures g.Valid() && rBuf != pBuf
      ensures (rBlock.Some? ==> rSize <= rBuf.Length) && (pBlock.Some? ==> pSize <= pBuf.Length)
    {
    }

    /** A read that the read cache answers in one piece. */
    ghost predicate Windowed(waiting: bool, block: nat, off: nat, size: nat)
      reads this
    {
      rBlock == Some(block) && rOff <= off && off + size <= rOff + rSize && Unhindered(waiting, block, off, size)
    }

    /** A read whose next byte is in neither cache and gets there by a load. */
    ghost predicate Misses(waiting: bool, hint: nat, block: nat, off: nat, size: nat)
      reads this
    {
      && !Loaded(block, off) && size < hint
      && (waiting && pBlock == Some(block) ==> off < pOff || pOff + pSize <= off)
    }

    method TakePending(block: nat, off: nat, n: nat) returns (chunk: seq<Byte>)
      requires Shape() && pBlock == Some(block) && block < |dev| && pOff <= off && off + n <= pOff + pSize
      ensures off + n <= g.blockSize && chunk == View(block, true)[off..off + n]
    {
      hide Divides, Overwrite, Seen;
      SeenInside(dev[block], PCache(), off, n);
      SubSlice(pBuf[..], 0, pSize, off - pOff, off - pOff + n);
      assert pBuf[..pSize] == pBuf[..][0..pSize];
      chunk := pBuf[off - pOff..off - pOff + n];
    }

    method TakeCached(waiting: bool, block: nat, off: nat, n: nat) returns (chunk: seq<Byte>)
      requires Shape() && Windowed(waiting, block, off, n)
      ensures off + n <= g.blockSize && block < |dev| && rSize <= rBuf.Length
      ensures chunk == rBuf[off - rOff..off - rOff + n]
      ensures Coherent() ==> chunk == View(block, waiting)[off..off + n]
    {
      hide Divides, Overwrite, Seen;
      if Coherent() {
        SeenCached(dev[block], block, if waiting then Waiting() else None, rBuf[..rSize], rOff, off, n);
      }
      SubSlice(rBuf[..], 0, rSize, off - rOff, off - rOff + n);
      assert rBuf[..rSize] == rBuf[..][0..rSize];
      chunk := rBuf[off - rOff..off - rOff + n];
    }

    /** Neither cache has the next byte: read the device directly in front of them, or
        load the read cache. */
    method Fetch(waiting: bool, hint: nat, block: nat, off: nat, size: nat, diff0: nat, fails: bool)
      returns (ok: bool, chunk: seq<Byte>)
      requires Shape() && hint >= 1 && block < |dev| && 0 < size && off + size <= g.blockSize
      requires !Loaded(block, off) && Unhindered(waiting, block, off, diff0) && diff0 <= size
      requires diff0 == size || (pBlock == Some(block) && off < pOff && diff0 == pOff - off)
               || (rBlock == Some(block) && off < rOff && diff0 == rOff - off)
      modifies this`rBlock, this`rOff, this`rSize, rBuf
      ensures Shape() && ok == !fails && View(block, waiting) == old(View(block, waiting))
      ensures ok && old(Coherent()) ==>
                Coherent() && |chunk| <= size && chunk == View(block, waiting)[off..off + |chunk|]
      ensures ok ==> |chunk| <= size
      ensures ok && chunk == [] ==> Loaded(block, off)
      ensures fails && size < hint ==> Claims(block, off, hint) && rBuf[..] == old(rBuf[..])
      ensures if Bypasses(hint, off, size) then unchanged(this, rBuf) else Claims(block, off, hint)
    {
      hide AlignDown, AlignUp, Divides, Overwrite, Seen;
      if size >= hint && off % g.readSize == 0 && size >= g.readSize {
        DirectGetsOn(off, block, size, diff0);
        var diff := AlignDown(diff0, g.readSize);
        if fails {
          return false, [];
        }
        SeenOutside(dev[block], block, if waiting then Waiting() else None, off, diff);
        chunk := dev[block][off..off + diff];
        return true, chunk;
      }
      ok := Load(block, off, hint, fails);
      chunk := [];
    }

    /** Large aligned reads leave the read cache alone; all others load it. */
    predicate Bypasses(hint: nat, off: nat, size: nat)
      requires g.readSize > 0
      reads this
    {
      hint <= size && off % g.readSize == 0 && g.readSize <= size
    }

    /** The next bytes are not among those waiting to be programmed. */
    ghost predicate Unhindered(waiting: bool, block: nat, off: nat, diff: nat)
      reads this
    {
      waiting && pBlock == Some(block) ==> off + diff <= pOff || pOff + pSize <= off
    }

    predicate Loaded(block: nat, off: nat)
      reads this
    {
      rBlock == Some(block) && rOff <= off < rOff + rSize
    }

    /** lfs_bd_read; `fault` is the round whose device read fails, if it makes one. */
    method Read(waiting: bool, hint: nat, block: nat, off0: nat, size0: nat, fault: Option<nat>) returns (r: Outcome)
      requires Shape() && hint >= 1
      requires off0 + size0 < WORD_SPACE && g.blockSize + hint + g.readSize < WORD_SPACE
      modifies this`rBlock, this`rOff, this`rSize, rBuf
      ensures Shape()
      ensures r.Corrupt? <==> off0 + size0 > g.blockSize || block >= |dev|
      ensures r.Failed? ==> fault.Some?
      ensures r.Ok? && old(Coherent()) ==> Coherent() && r.data == View(block, waiting)[off0..off0 + size0]
      ensures size0 > 0 && old(Windowed(waiting, block, off0, size0)) && !r.Corrupt? ==>
                r.Ok? && unchanged(this, rBuf) && rSize <= rBuf.Length && r.data == rBuf[off0 - rOff..off0 - rOff + size0]
      ensures size0 > 0 && fault == Some(0) && old(Misses(waiting, hint, block, off0, size0)) && !r.Corrupt? ==>
                r.Failed? && Claims(block, off0, hint) && rBuf[..] == old(rBuf[..])
    {
      hide AlignDown, AlignUp, Claims, Coherent, Divides, Misses, Overwrite, Seen, Shape, View;
      ShapeParts();
      if off0 + size0 > g.blockSize || block >= |dev| {
        return Corrupt;
      }
      var data, off, size, round := [], off0, size0, 0;
      ghost var coherent := Coherent();
      ghost var v := View(block, waiting);
      while size > 0
        invariant Shape() && off0 <= off && 0 <= size && off + size == off0 + size0
        invariant coherent ==> Coherent() && data == v[off0..off]
        invariant v == View(block, waiting)
        invariant old(Windowed(waiting, block, off0, size0)) && round > 0 ==>
                    unchanged(this, rBuf) && size == 0 && data == rBuf[off0 - rOff..off0 - rOff + size0]
        invariant round == 0 ==> off == off0 && unchanged(this, rBuf) && data == []
        invariant fault == Some(0) && old(Misses(waiting, hint, block, off0, size0)) ==> round == 0
        decreases size, if Loaded(block, off) then 0 else 1
      {
        var ok, chunk := Step(waiting, hint, block, off, size, fault == Some(round));
        if !ok {
          return Failed;
        }
        SliceJoin(v, off0, off, off + |chunk|);
        data, off, size, round := data + chunk, off + |chunk|, size - |chunk|, round + 1;
      }
      return Ok(data);
    }

    /** A direct read stops in front of a cache, but not before it started. */
    lemma DirectGetsOn(off: nat, block: nat, size: nat, diff: nat)
      requires Shape() && off % g.readSize == 0 && size >= g.readSize && diff <= size
      requires diff == size || (pBlock == Some(block) && off < pOff && diff == pOff - off)
               || (rBlock == Some(block) && off < rOff && diff == rOff - off)
      ensures 0 < AlignDown(diff, g.readSize) <= diff
    {
      AlignedDown(diff, g.readSize);
      if pBlock == Some(block) && off < pOff {
        DividesTrans(g.readSize, g.progSize, pOff);
        DividesGap(g.readSize, off, pOff);
      }
      if rBlock == Some(block) && off < rOff {
        DividesGap(g.readSize, off, rOff);
      }
    }

    /// ---- Programming ----------------------------------------------------------------

    method Arbitrary(n: nat) returns (s: seq<Byte>)
      ensures |s| == n
    {
      s := [];
      while |s| < n
        invariant |s| <= n
      {
        var b: Byte := *;
        s := s + [b];
      }
    }

    /** The program function of the device. It may fail, and a dishonest device may
        store something else without saying so. */
    method DeviceProg(block: nat, off: nat, data: seq<Byte>) returns (ok: bool)
      requires block < |dev| && off + |data| <= |dev[block]|
      modifies this`dev
      ensures WrittenAt(old(dev), dev, block, off, off + |data|)
      ensures sturdy ==> ok
      ensures ok && honest ==> dev[block] == Overwrite(old(dev[block]), off, data)
    {
      OverwriteEnds(dev[block], off, data);
      var junk := Arbitrary(|data|);
      OverwriteEnds(dev[block], off, junk);
      ok := *;
      if sturdy {
        ok := true;
      }
      var stored := if ok && honest then data else junk;
      dev := dev[block := Overwrite(dev[block], off, stored)];
    }

    /** lfs_bd_cmp in pieces of eight bytes: how the device compares with the bytes. */
    method Compare(hint: nat, block: nat, off: nat, data: seq<Byte>) returns (ok: bool, c: Names.Cmp)
      requires Shape() && Coherent() && hint >= |data| && off + |data| <= g.blockSize && block < |dev|
      requires g.blockSize + g.blockSize < WORD_SPACE && g.blockSize + hint + g.readSize < WORD_SPACE
      modifies this`rBlock, this`rOff, this`rSize, rBuf
      ensures Shape() && (ok ==> Coherent()) && (sturdy ==> ok)
      ensures ok ==> c == Names.Order(dev[block][off..off + |data|], data)
      ensures ok ==> (c == Names.EQ <==> dev[block][off..off + |data|] == data)
    {
      hide AlignDown, Coherent, Divides, Names.Order, Overwrite, Seen, Shape, View;
      ghost var d := dev[block];
      var i := 0;
      PlainView(block);
      ghost var stored := d[off..off + |data|];
      Names.OrderEq(stored, data);
      assert stored[0..] == stored && data[0..] == data;
      while i < |data|
        invariant Shape() && Coherent() && i <= |data| && block < |dev| && d == dev[block]
        invariant Names.Order(stored[i..], data[i..]) == Names.Order(stored, data)
      {
        PlainView(block);
        var diff := if |data| - i < 8 then |data| - i else 8;
        var fault: Option<nat> := *;
        if sturdy {
          fault := None;
        }
        var piece := Read(false, hint - i, block, off + i, diff, fault);
        if piece.Failed? {
          return false, Names.EQ;
        }
        PlainView(block);
        c := Names.MemCmp(piece.data, data[i..i + diff]);
        PieceOrder(d, off, data, i, diff);
        if c != Names.EQ {
          return true, c;
        }
        i := i + diff;
      }
      Names.OrderEq(stored[i..], data[i..]);
      return true, Names.EQ;
    }

    lemma PlainView(block: nat)
      requires Shape() && block < |dev|
      ensures View(block, false) == dev[block] && |dev[block]| == g.blockSize && g.Valid()
    {
    }

    /** The write of lfs_bd_flush, and its check. */
    method ProgramOut(block: nat, off: nat, data: seq<Byte>, validate: bool) returns (r: Status)
      requires Shape() && block < |dev| && off + |data| <= g.blockSize && 3 * g.blockSize < WORD_SPACE
      modifies this`dev, this`rBlock, this`rOff, this`rSize, rBuf
      ensures Shape() && WrittenAt(old(dev), dev, block, off, off + |data|)
      ensures r == Done && (validate || honest) ==> dev == Programmed(old(dev), block, off, data)
      ensures r == Rejected ==> validate && !honest && !Holds(dev, block, off, data)
      ensures sturdy ==> r != Broken
      ensures r == Done && (validate || old(rBlock) == None) ==> Coherent()
    {
      hide AlignDown, Divides, Overwrite;
      ghost var dev0 := dev;
      ReadFits(g);
      var ok := DeviceProg(block, off, data);
      if !ok {
        return Broken;
      }
      r := Done;
      if validate {
        rBlock := None;
        var fine, c := Compare(|data|, block, off, data);
        if !fine {
          return Broken;
        }
        if c != Names.EQ {
          HonestHolds(dev0, dev, block, off, data);
          return Rejected;
        }
        WrittenIs(dev0, dev, block, off, data);
      } else if honest {
        OverwriteInside(dev0[block], off, data, off, off + |data|);
        WrittenIs(dev0, dev, block, off, data);
      }
    }

    lemma HonestHolds(dev0: seq<seq<Byte>>, dev1: seq<seq<Byte>>, block: nat, off: nat, data: seq<Byte>)
      requires block < |dev0| && off + |data| <= |dev0[block]| && block < |dev1|
      ensures dev1[block] == Overwrite(dev0[block], off, data) ==> Holds(dev1, block, off, data)
    {
      OverwriteInside(dev0[block], off, data, off, off + |data|);
    }

    /** lfs_bd_flush: what waits goes out in whole program units, and the cache is
        empty again. */
    method Flush(validate: bool) returns (r: Status)
      requires Shape() && 3 * g.blockSize < WORD_SPACE
      modifies this`dev, this`rBlock, this`rOff, this`rSize, this`pBlock, rBuf, pBuf
      ensures Shape() && (pBlock == None || pBuf[..] == old(pBuf[..]))
      ensures old(pBlock) == None ==> r == Done && dev == old(dev) && pBlock == None && rBlock == old(rBlock)
      ensures old(pBlock).Some? ==> FlushFits() && WrittenAt(old(dev), dev, old(pBlock.value), pOff, pOff + Units())
      ensures r == Rejected ==> old(pBlock).Some? && validate && !honest && pBlock == old(pBlock)
                                && !Holds(dev, old(pBlock.value), pOff, old(pBuf[..Units()]))
      ensures sturdy ==> r != Broken
      ensures r == Done ==> pBlock == None && (old(rBlock) == None ==> Coherent())
      ensures r == Done && old(pBlock).Some? ==> forall k :: 0 <= k < pBuf.Length ==> pBuf[k] == 0xff
      ensures r == Done && old(pBlock).Some? && (validate || honest) ==>
                dev == Programmed(old(dev), old(pBlock.value), pOff, old(pBuf[..Units()]))
    {
      hide AlignUp, Divides, Overwrite, Programmed, WrittenAt;
      if pBlock == None {
        return Done;
      }
      FlushSpan(g, pOff, pSize);
      var data := pBuf[..AlignUp(pSize, g.progSize)];
      r := ProgramOut(pBlock.value, pOff, data, validate);
      if r != Done {
        return;
      }
      forall k | 0 <= k < pBuf.Length {
        pBuf[k] := 0xff;
      }
      pBlock := None;
    }

    /** The bytes that a flush programs. */
    ghost function Units(): nat
      requires g.Valid()
      reads this
    {
      AlignUp(pSize, g.progSize)
    }

    ghost predicate FlushFits()
      requires g.Valid()
      reads this
    {
      Units() <= g.cacheSize && pOff + Units() <= g.blockSize
    }

    /** Where a program may begin: in the window of the cache, or with the cache empty.
        A full cache is one whose flush failed, which callers drop first. */
    ghost predicate Ready(block: nat, off: nat)
      reads this
    {
      pBlock == None || (pBlock == Some(block) && pOff <= off < pOff + g.cacheSize && pSize < g.cacheSize)
    }

    /** A program that begins here leaves no bytes undefined in front of it. */
    ghost predicate Follows(block: nat, off: nat)
      requires g.Valid()
      reads this
    {
      if pBlock == None then Divides(g.progSize, off)
      else Ready(block, off) && off <= pOff + pSize
    }

    /** A program that begins exactly where the last one ended, or at a unit. */
    ghost predicate Exact(block: nat, off: nat)
      requires g.Valid()
      reads this
    {
      Follows(block, off) && (pBlock.Some? ==> off == pOff + pSize)
    }

    /** Bytes that fit go into the program cache. */
    method Put(block: nat, off: nat, chunk: seq<Byte>)
      requires Shape() && pBlock == Some(block) && pOff <= off && off + |chunk| <= pOff + g.cacheSize
      requires off + |chunk| <= g.blockSize
      modifies this`pSize, pBuf
      ensures Shape() && pSize == old(if off + |chunk| - pOff < pSize then pSize else off + |chunk| - pOff)
      ensures Painted(old(View(block, true)), View(block, true), old(Least(off, pOff + pSize) as nat), off, chunk)
      ensures rBuf[..] == old(rBuf[..])
    {
      hide AlignDown, Divides, Overwrite;
      ghost var buf, size := pBuf[..], pSize;
      forall k | 0 <= k < |chunk| {
        pBuf[off - pOff + k] := chunk[k];
      }
      var end := off + |chunk| - pOff;
      if pSize < end {
        pSize := end;
      }
      PutBuffer(buf, pBuf[..], off - pOff, chunk);
      PutView(dev[block], pOff, buf, size, off, chunk);
      assert pBuf[..pSize] == pBuf[..][..pSize] && buf[..size] == old(pBuf[..pSize]);
    }

    /** One round of the loop of lfs_bd_prog: fill the cache, and flush it when full. */
    method ProgStep(validate: bool, block: nat, off: nat, chunk: seq<Byte>) returns (r: Status)
      requires Shape() && block < |dev| && pBlock == Some(block) && pOff <= off && off + |chunk| <= pOff + g.cacheSize
      requires off + |chunk| <= g.blockSize && 3 * g.blockSize < WORD_SPACE && pSize < g.cacheSize
      modifies this`dev, this`rBlock, this`rOff, this`rSize, this`pBlock, this`pSize, rBuf, pBuf
      ensures Shape() && ElsewhereSame(old(dev), dev, block)
      ensures (sturdy ==> r != Broken) && (honest || !validate ==> r != Rejected)
      ensures r == Done ==> Follows(block, off + |chunk|) && (old(pOff + pSize) == off ==> Exact(block, off + |chunk|))
      ensures r == Done && (validate || honest) ==>
                Painted(old(View(block, true)), View(block, true), old(Least(off, pOff + pSize) as nat), off, chunk)
    {
      hide AlignDown, AlignUp, Divides, Overwrite, Painted;
      Put(block, off, chunk);
      r := Done;
      if pSize == g.cacheSize {
        WholeUnits(g, pOff);
        r := FlushFull(validate, block);
      }
    }

    /** Flushing a full cache does not change what readers see. */
    method FlushFull(validate: bool, block: nat) returns (r: Status)
      requires Shape() && block < |dev| && pBlock == Some(block) && pSize == g.cacheSize && 3 * g.blockSize < WORD_SPACE
      modifies this`dev, this`rBlock, this`rOff, this`rSize, this`pBlock, rBuf, pBuf
      ensures (sturdy ==> r != Broken) && (honest || !validate ==> r != Rejected)
      ensures Shape() && ElsewhereSame(old(dev), dev, block) && (r == Done ==> pBlock == None)
      ensures r == Done && (validate || honest) ==> View(block, true) == old(View(block, true))
    {
      hide AlignDown, AlignUp, Divides, Overwrite, Programmed;
      ghost var dev0, bytes := dev, pBuf[..pSize];
      WholeUnits(g, pOff);
      r := Flush(validate);
      if r == Done && (validate || honest) {
        FlushedView(dev0, dev, block, pOff, bytes);
      }
    }

    /** lfs_bd_prog. */
    method Prog(validate: bool, block: nat, off0: nat, data: seq<Byte>) returns (r: Status)
      requires Shape() && block < |dev| && off0 + |data| <= g.blockSize && 3 * g.blockSize < WORD_SPACE && Ready(block, off0)
      modifies this`dev, this`rBlock, this`rOff, this`rSize, this`pBlock, this`pOff, this`pSize, rBuf, pBuf
      ensures Shape() && ElsewhereSame(old(dev), dev, block)
      ensures (sturdy ==> r != Broken) && (honest || !validate ==> r != Rejected)
      ensures r == Done && data != [] ==> Follows(block, off0 + |data|)
      ensures r == Done && old(Exact(block, off0)) ==> Exact(block, off0 + |data|)
      ensures r == Done && (validate || honest) ==>
                Painted(old(View(block, true)), View(block, true), old(GapStart(block, off0)), off0, data)
    {
      hide AlignDown, Divides, Overwrite, Painted, Shape, View;
      r := Done;
      var i := 0;
      PlainView(block);
      GapBefore(block, off0);
      ghost var v, gap := View(block, true), GapStart(block, off0);
      ghost var sure := validate || honest;
      PaintNothing(v, gap, off0);
      while i < |data|
        invariant Shape() && ElsewhereSame(old(dev), dev, block) && i <= |data| && g.Valid()
        invariant if i == 0 then Ready(block, off0) && GapStart(block, off0) == gap else Follows(block, off0 + i)
        invariant old(Exact(block, off0)) ==> Exact(block, off0 + i)
        invariant r != Broken && r != Rejected
        invariant sure ==> Painted(v, View(block, true), gap, off0, data[..i])
        decreases |data| - i, if pBlock == None then 1 else 0
      {
        var off := off0 + i;
        if pBlock == Some(block) && off >= pOff && off < pOff + g.cacheSize {
          var diff := Least(|data| - i, g.cacheSize - (off - pOff));
          ghost var v1, gap1 := View(block, true), if off < pOff + pSize then off else pOff + pSize;
          r := ProgStep(validate, block, off, data[i..i + diff]);
          if r != Done {
            return;
          }
          if sure {
            PaintMore(v, v1, View(block, true), gap, gap1, off0, data, i, diff);
          }
          i := i + diff;
        } else {
          Prepare(block, off);
        }
      }
      assert data[..|data|] == data;
      r := Done;
    }

    /** The first byte that a program leaves open or writes. */
    ghost function GapStart(block: nat, off: nat): nat
      requires g.progSize > 0
      reads this
    {
      if pBlock == Some(block) then if off < pOff + pSize then off else pOff + pSize
      else AlignDown(off, g.progSize)
    }

    lemma GapBefore(block: nat, off: nat)
      requires Shape() && Ready(block, off)
      ensures GapStart(block, off) <= off && (Follows(block, off) ==> GapStart(block, off) == off)
    {
      AlignedDown(off, g.progSize);
      if pBlock == None && Divides(g.progSize, off) {
        WholeIsDown(off, g.progSize);
      }
      hide AlignDown, Divides;
    }

    /** The empty program cache is set up for a new place. */
    method Prepare(block: nat, off: nat)
      requires Shape() && block < |dev| && off < g.blockSize && pBlock == None
      modifies this`pBlock, this`pOff, this`pSize
      ensures Shape() && Ready(block, off) && pBlock == Some(block) && View(block, true) == old(View(block, true))
      ensures GapStart(block, off) == old(GapStart(block, off)) && pOff + pSize == old(GapStart(block, off)) <= off
      ensures old(Follows(block, off)) ==> Exact(block, off) && GapStart(block, off) == off
    {
      hide AlignDown, Divides, Overwrite;
      AlignedDown(off, g.progSize);
      GapBefore(block, off);
      PrepareFits(g, off);
      pBlock, pOff, pSize := Some(block), AlignDown(off, g.progSize), 0;
      OverwriteNothing(dev[block], pOff);
      assert pBuf[..0] == [];
    }

    /** lfs_bd_sync: the device holds what readers saw, except for the filler behind
        it that completes the last program unit, and both caches agree with it. */
    method Sync(validate: bool) returns (r: Status)
      requires Shape() && 3 * g.blockSize < WORD_SPACE
      modifies this`dev, this`rBlock, this`rOff, this`rSize, this`pBlock, rBuf, pBuf
      ensures (sturdy ==> r != Broken) && (honest || !validate ==> r != Rejected)
      ensures Shape() && (r == Done ==> pBlock == None && Coherent())
      ensures old(pBlock) == None ==> dev == old(dev)
      ensures old(pBlock).Some? ==> FlushFits() && WrittenAt(old(dev), dev, old(pBlock.value), pOff, pOff + Units())
      ensures old(pBlock).Some? && r == Done && (validate || honest) ==>
                && pOff + pSize <= pOff + Units()
                && Painted(old(View(pBlock.value, true)), dev[old(pBlock.value)], pOff + pSize, pOff + Units(), [])
    {
      hide AlignDown, AlignUp, Divides, Overwrite, Painted, Programmed, WrittenAt;
      rBlock := None;
      r := Flush(validate);
      if r == Done && old(pBlock).Some? && (validate || honest) {
        FlushSpan(g, pOff, pSize);
        FlushedView(old(dev), dev, old(pBlock.value), pOff, old(pBuf[..Units()]));
        SyncedView(old(dev[pBlock.value]), pOff, old(pBuf[..Units()]), pSize);
        assert old(pBuf[..Units()])[..pSize] == old(pBuf[..pSize]);
      }
      if r == Done {
        if !sturdy {
          r := *;
          if r == Rejected { r := Broken; }
        }
      }
    }

    /** A run of programs that follow each other from an aligned offset, ended by a
        sync, leaves the device holding exactly the bytes given, in order; around them
        only the rest of the last program unit changes. */
    method ProgramRun(validate: bool, block: nat, off0: nat, pieces: seq<seq<Byte>>) returns (r: Status)
      requires Shape() && pBlock == None && block < |dev| && Divides(g.progSize, off0)
      requires off0 + |Flat(pieces)| <= g.blockSize && 3 * g.blockSize < WORD_SPACE
      modifies this`dev, this`rBlock, this`rOff, this`rSize, this`pBlock, this`pOff, this`pSize, rBuf, pBuf
      ensures Shape() && ElsewhereSame(old(dev), dev, block)
      ensures (sturdy ==> r != Broken) && (honest || !validate ==> r != Rejected)
      ensures r == Done ==> pBlock == None && Coherent()
      ensures r == Done && (validate || honest) ==>
                OnDevice(old(dev)[block], dev[block], off0, Flat(pieces), AlignUp(off0 + |Flat(pieces)|, g.progSize))
    {
      hide AlignDown, AlignUp, Divides, Overwrite, Painted, Shape, View, WrittenAt;
      var off := off0;
      PlainView(block);
      ghost var v, sure := View(block, true), validate || honest;
      PaintNothing(v, off0, off0);
      EmptyView(block);
      for i := 0 to |pieces|
        invariant Shape() && ElsewhereSame(old(dev), dev, block) && off == off0 + |Flat(pieces[..i])|
        invariant g.Valid() && Exact(block, off)
        invariant sure ==> Painted(v, View(block, true), off0, off0, Flat(pieces[..i]))
      {
        FlatSnoc(pieces, i);
        ghost var v1 := View(block, true);
        GapBefore(block, off);
        r := Prog(validate, block, off, pieces[i]);
        if r != Done {
          return;
        }
        if sure {
          PaintOn(v, v1, View(block, true), off0, off0, Flat(pieces[..i]), pieces[i]);
        }
        off := off + |pieces[i]|;
      }
      assert pieces[..|pieces|] == pieces;
      ghost var v1, dev1 := View(block, true), dev;
      ghost var waiting := pBlock.Some?;
      EndsAligned(block, off);
      PlainView(block);
      r := Sync(validate);
      if waiting {
        WrittenElsewhere(dev1, dev, block, pOff, pOff + Units());
        ElsewhereChain(old(dev), dev1, dev, block);
        if r == Done && sure {
          PaintedOnDevice(v, v1, dev[block], off0, Flat(pieces), AlignUp(off, g.progSize));
        }
      } else if r == Done && sure {
        PaintedIsOnDevice(v, v1, off0, Flat(pieces));
      }
    }

    lemma EmptyView(block: nat)
      requires Shape() && block < |dev| && pBlock == None
      ensures View(block, true) == dev[block]
    {
    }

    lemma EndsAligned(block: nat, off: nat)
      requires Shape() && block < |dev| && Exact(block, off) && off <= g.blockSize
      ensures pBlock.Some? ==>
                && pBlock.value == block && pOff + pSize == off
                && pOff + Units() == AlignUp(off, g.progSize) && off <= AlignUp(off, g.progSize) <= g.blockSize
      ensures pBlock == None ==> AlignUp(off, g.progSize) == off && View(block, true) == dev[block]
    {
      if pBlock.Some? {
        FlushSpan(g, pOff, pSize);
      } else {
        AlignedUp(off, g.progSize);
        UpBelow(off, g.progSize, off);
      }
      hide AlignUp, Divides;
    }
  }

  /** The device after a program that worked. */
  function Programmed(dev: seq<seq<Byte>>, b: nat, off: nat, bytes: seq<Byte>): seq<seq<Byte>>
    requires b < |dev| && off + |bytes| <= |dev[b]|
  {
    dev[b := Overwrite(dev[b], off, bytes)]
  }

  /** What was written at a place is told by what is found there. */
  lemma WrittenIs(dev: seq<seq<Byte>>, dev': seq<seq<Byte>>, b: nat, off: nat, bytes: seq<Byte>)
    requires WrittenAt(dev, dev', b, off, off + |bytes|) && dev'[b][off..off + |bytes|] == bytes
    ensures dev' == Programmed(dev, b, off, bytes)
  {
    var hi := off + |bytes|;
    assert dev'[b] == dev'[b][..off] + dev'[b][off..hi] + dev'[b][hi..];
  }

  lemma ReadFits(g: Geometry)
    requires g.Valid()
    ensures g.readSize <= g.blockSize
  {
    DividesTrans(g.readSize, g.cacheSize, g.blockSize);
    DividesGap(g.readSize, 0, g.blockSize);
  }

  /** `v'` is `v` with `data` at `off`; only bytes from `gap` up to it are left open. */
  ghost predicate Painted(v: seq<Byte>, v': seq<Byte>, gap: nat, off: nat, data: seq<Byte>) {
    && gap <= off && off + |data| <= |v| == |v'|
    && forall k :: 0 <= k < |v| ==>
         && (k < gap || off + |data| <= k ==> v'[k] == v[k])
         && (off <= k < off + |data| ==> v'[k] == data[k - off])
  }

  ghost predicate ElsewhereSame(dev: seq<seq<Byte>>, dev': seq<seq<Byte>>, b: nat) {
    |dev'| == |dev| && forall c :: 0 <= c < |dev| && c != b ==> dev'[c] == dev[c]
  }

  lemma PutBuffer(buf: seq<Byte>, buf': seq<Byte>, at: nat, chunk: seq<Byte>)
    requires at + |chunk| <= |buf| == |buf'|
    requires forall k :: 0 <= k < |buf| ==> buf'[k] == if at <= k < at + |chunk| then chunk[k - at] else buf[k]
    ensures buf' == Overwrite(buf, at, chunk)
  {
  }

  lemma PutView(d: seq<Byte>, at: nat, buf: seq<Byte>, size: nat, off: nat, chunk: seq<Byte>)
    requires size <= |buf| && at + size <= |d| && at <= off && off + |chunk| <= |d| && off - at + |chunk| <= |buf|
    ensures
      var end := off + |chunk| - at;
      var size' := if end < size then size else end;
      Painted(Overwrite(d, at, buf[..size]), Overwrite(d, at, Overwrite(buf, off - at, chunk)[..size']),
              if off < at + size then off else at + size, off, chunk)
  {
  }

  /** Painting on from where the last painting ended. */
  lemma PaintOn(v: seq<Byte>, v1: seq<Byte>, v2: seq<Byte>, gap: nat, off: nat, a: seq<Byte>, b: seq<Byte>)
    requires Painted(v, v1, gap, off, a) && Painted(v1, v2, off + |a|, off + |a|, b)
    ensures Painted(v, v2, gap, off, a + b)
  {
  }

  /** A full cache is a whole number of program units. */
  lemma WholeUnits(g: Geometry, off: nat)
    requires g.Valid() && Divides(g.progSize, off)
    ensures AlignUp(g.cacheSize, g.progSize) == g.cacheSize && Divides(g.progSize, off + g.cacheSize)
  {
    UpBelow(g.cacheSize, g.progSize, g.cacheSize);
    AlignedUp(g.cacheSize, g.progSize);
    DividesSum(g.progSize, off, g.cacheSize);
  }

  lemma FlushedView(dev: seq<seq<Byte>>, dev': seq<seq<Byte>>, b: nat, at: nat, bytes: seq<Byte>)
    requires b < |dev| && at + |bytes| <= |dev[b]| && dev' == Programmed(dev, b, at, bytes)
    ensures dev'[b] == Overwrite(dev[b], at, bytes)
  {
  }

  lemma PaintNothing(v: seq<Byte>, gap: nat, off: nat)
    requires gap <= off <= |v|
    ensures Painted(v, v, gap, off, [])
  {
  }

  /** The next piece: the first one may leave a gap, later ones do not. */
  lemma PaintMore(v: seq<Byte>, v1: seq<Byte>, v2: seq<Byte>, gap: nat, gap1: nat, off: nat, data: seq<Byte>, i: nat, n: nat)
    requires i + n <= |data| && Painted(v, v1, gap, off, data[..i]) && Painted(v1, v2, gap1, off + i, data[i..i + n])
    requires if i == 0 then gap1 == gap else gap1 == off + i
    ensures Painted(v, v2, gap, off, data[..i + n])
  {
    hide Painted;
    if i == 0 {
      assert data[..i] == [] && data[..i + n] == data[i..i + n];
      PaintFirst(v, v1, v2, gap, off, data[..n]);
    } else {
      assert data[..i + n] == data[..i] + data[i..i + n];
      PaintOn(v, v1, v2, gap, off, data[..i], data[i..i + n]);
    }
  }

  lemma PaintFirst(v: seq<Byte>, v1: seq<Byte>, v2: seq<Byte>, gap: nat, off: nat, b: seq<Byte>)
    requires Painted(v, v1, gap, off, []) && Painted(v1, v2, gap, off, b)
    ensures Painted(v, v2, gap, off, b)
  {
  }

  lemma WholeIsDown(off: nat, n: nat)
    requires Divides(n, off)
    ensures AlignDown(off, n) == off
  {
  }

  lemma PrepareFits(g: Geometry, off: nat)
    requires g.Valid() && off < g.blockSize
    ensures off < AlignDown(off, g.progSize) + g.cacheSize
  {
    AlignedDown(off, g.progSize);
    DividesGap(g.progSize, 0, g.cacheSize);
  }

  lemma OverwriteNothing(m: seq<Byte>, off: nat)
    requires off <= |m|
    ensures Overwrite(m, off, []) == m
  {
  }

  /** All bytes of a run of programs. */
  function Flat(pieces: seq<seq<Byte>>): seq<Byte> {
    if pieces == [] then [] else Flat(pieces[..|pieces| - 1]) + pieces[|pieces| - 1]
  }

  lemma {:induction false} FlatSnoc(pieces: seq<seq<Byte>>, i: nat)
    requires i < |pieces|
    ensures Flat(pieces[..i + 1]) == Flat(pieces[..i]) + pieces[i]
    ensures |Flat(pieces[..i])| + |pieces[i]| <= |Flat(pieces)|
    decreases |pieces| - i
  {
    assert pieces[..i + 1][..i] == pieces[..i];
    if i + 1 < |pieces| {
      FlatSnoc(pieces, i + 1);
    } else {
      assert pieces[..i + 1] == pieces;
    }
  }

  /** The device holds `data` at `off`; otherwise only bytes up to `end` changed. */
  ghost predicate OnDevice(d: seq<Byte>, d': seq<Byte>, off: nat, data: seq<Byte>, end: nat) {
    && off + |data| <= end <= |d| == |d'| && d'[off..off + |data|] == data
    && forall k :: 0 <= k < |d| && (k < off || end <= k) ==> d'[k] == d[k]
  }

  lemma PaintedIsOnDevice(d: seq<Byte>, d': seq<Byte>, off: nat, data: seq<Byte>)
    requires Painted(d, d', off, off, data)
    ensures OnDevice(d, d', off, data, off + |data|)
  {
  }

  lemma PaintedOnDevice(d: seq<Byte>, v: seq<Byte>, d': seq<Byte>, off: nat, data: seq<Byte>, end: nat)
    requires Painted(d, v, off, off, data) && off + |data| <= end && Painted(v, d', off + |data|, end, [])
    ensures OnDevice(d, d', off, data, end)
  {
  }

  lemma SyncedView(d: seq<Byte>, at: nat, units: seq<Byte>, size: nat)
    requires at + |units| <= |d| && size <= |units|
    ensures Painted(Overwrite(d, at, units[..size]), Overwrite(d, at, units), at + size, at + |units|, [])
  {
  }

  lemma WrittenElsewhere(dev: seq<seq<Byte>>, dev': seq<seq<Byte>>, b: nat, lo: nat, hi: nat)
    requires WrittenAt(dev, dev', b, lo, hi)
    ensures ElsewhereSame(dev, dev', b)
  {
  }

  lemma ElsewhereChain(dev: seq<seq<Byte>>, dev1: seq<seq<Byte>>, dev2: seq<seq<Byte>>, b: nat)
    requires ElsewhereSame(dev, dev1, b) && ElsewhereSame(dev1, dev2, b)
    ensures ElsewhereSame(dev, dev2, b)
  {
  }

  lemma OverwriteEnds(m: seq<Byte>, off: nat, bytes: seq<Byte>)
    requires off + |bytes| <= |m|
    ensures Overwrite(m, off, bytes)[..off] == m[..off]
    ensures Overwrite(m, off, bytes)[off + |bytes|..] == m[off + |bytes|..]
  {
  }

  /** The next piece settles the comparison, unless it is the same. */
  lemma PieceOrder(d: seq<Byte>, off: nat, data: seq<Byte>, i: nat, n: nat)
    requires off + |data| <= |d| && i + n <= |data|
    ensures
      var stored := d[off..off + |data|];
      var c := Names.Order(d[off + i..off + i + n], data[i..i + n]);
      Names.Order(stored[i..], data[i..]) == if c == Names.EQ then Names.Order(stored[i + n..], data[i + n..]) else c
  {
    var stored := d[off..off + |data|];
    SubSlice(d, off, off + |data|, i, i + n);
    Names.OrderPrefix(stored[i..], data[i..], n);
    assert stored[i..][..n] == stored[i..i + n] && data[i..][..n] == data[i..i + n];
    assert stored[i..][n..] == stored[i + n..] && data[i..][n..] == data[i + n..];
    hide Names.Order;
  }

  /** A flush programs whole units and stays inside the block. */
  lemma FlushSpan(g: Geometry, off: nat, size: nat)
    requires g.Valid() && Divides(g.progSize, off) && off + size <= g.blockSize && size <= g.cacheSize
    ensures size <= AlignUp(size, g.progSize) <= g.cacheSize
    ensures AlignUp(off + size, g.progSize) == off + AlignUp(size, g.progSize) <= g.blockSize
  {
    AlignedUp(size, g.progSize);
    UpBelow(size, g.progSize, g.cacheSize);
    DividesTrans(g.progSize, g.cacheSize, g.blockSize);
    UpBelow(off + size, g.progSize, g.blockSize);
    UpShift(off, size, g.progSize);
  }

  lemma UpShift(off: nat, size: nat, n: nat)
    requires Divides(n, off)
    ensures AlignUp(off + size, n) == off + AlignUp(size, n)
  {
    var x := size + n - 1;
    Multiple(n, off);
    assert off + x == (off / n + x / n) * n + x % n by {
      assert (off / n + x / n) * n == off / n * n + x / n * n;
    }
    DivMod(off + x, n, off / n + x / n, x % n);
  }

  /// ---- After a failed read ----------------------------------------------------------------

  /** The same read again after the device failed under its cache load: it succeeds
      without asking the device, and returns what the cache held before. */
  method ReadAgain(d: Device, hint: nat, block: nat, off: nat, size: nat)
    returns (first: Outcome, again: Outcome, n: nat)
    requires d.Shape() && block < |d.dev| && off + size <= d.g.blockSize && 0 < size
    requires off + size < WORD_SPACE && d.g.blockSize + hint + d.g.readSize < WORD_SPACE
    requires d.Misses(false, hint, block, off, size)
    modifies d`rBlock, d`rOff, d`rSize, d.rBuf
    ensures d.Shape() && first.Failed? && 0 < n <= size
    ensures
      var at := AlignDown(off, d.g.readSize);
      && at <= off && off - at + n <= d.g.cacheSize && off + n <= |d.dev[block]|
      && again == Ok(old(d.rBuf[..])[off - at..off - at + n])
  {
    hide AlignDown, AlignUp, Divides;
    first := d.Read(false, hint, block, off, size, Some(0));
    n := if off + size <= d.rOff + d.rSize then size else d.rOff + d.rSize - off;
    var any: Option<nat> := *;
    again := d.Read(false, hint, block, off, n, any);
    assert d.rBuf[off - d.rOff..off - d.rOff + n] == d.rBuf[..][off - d.rOff..off - d.rOff + n];
  }

  /** A device that holds two sevens and whose first read fails: the second one
      returns the filler of the empty cache. */
  method ReadsWrong() returns (d: Device, again: Outcome)
    ensures fresh(d) && d.dev == [[7, 7]] && again == Ok([0xff])
  {
    d := new Device(Geometry(1, 1, 2, 2), [[7, 7]], true, false);
    ghost var was := d.rBuf[..];
    assert was[0..1] == [0xff];
    var first, n;
    first, again, n := ReadAgain(d, 2, 0, 0, 1);
  }
}
