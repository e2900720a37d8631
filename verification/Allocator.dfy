/** The block allocator: a lookahead bitmap that slides around the device, refilled
    by traversing the filesystem, with a count of blocks left to examine since the
    last acknowledgement. No block is handed out that is in use or was already
    handed out, over any run of the operations. */
module Allocator {
  import opened BitMath
  import opened Bytes
  import opened Options

  /// ---- Going around the device ----------------------------------------------------------

  /** The block at an unbounded position. */
  function At(x: nat, n: nat): (b: nat)
    requires n > 0
    ensures b < n
  {
    x % n
  }

  lemma AtUnique(x: nat, n: nat, q: nat, r: nat)
    requires n > 0 && x == q * n + r && r < n
    ensures At(x, n) == r
  {
    DivMod(x, n, q, r);
  }

  /** Moving on is the same from the block as from the position. */
  lemma AtAdd(x: nat, k: nat, n: nat)
    requires n > 0
    ensures At(At(x, n) + k, n) == At(x + k, n)
  {
    var y := At(x, n) + k;
    var q := x / n + y / n;
    assert x + k == q * n + At(y, n) by {
      assert x == x / n * n + At(x, n) && y == y / n * n + At(y, n);
      assert q * n == x / n * n + y / n * n;
    }
    AtUnique(x + k, n, q, At(y, n));
  }

  lemma NoMultiple(d: int, n: nat)
    ensures d * n <= 0 || d * n >= n
  {
    if d >= 1 {
      assert (d - 1) * n >= 0;
    } else {
      assert -d * n >= 0;
    }
  }

  /** Within one round no block comes twice. */
  lemma AtOnce(x: nat, y: nat, n: nat)
    requires n > 0 && x < y < x + n
    ensures At(x, n) != At(y, n)
  {
    assert x == x / n * n + At(x, n) && y == y / n * n + At(y, n);
    assert (y / n - x / n) * n == y / n * n - x / n * n;
    NoMultiple(y / n - x / n, n);
  }

  /** And every block comes. */
  lemma AtSome(b: nat, start: nat, n: nat)
    requires b < n
    ensures exists x :: start <= x < start + n && At(x, n) == b
  {
    var r := At(start, n);
    var k := if r <= b then b - r else b + n - r;
    AtAdd(start, k, n);
    if r <= b {
      AtUnique(b, n, 0, b);
    } else {
      AtUnique(b + n, n, 1, b);
    }
    assert At(start + k, n) == b;
  }

  /// ---- The offset of a block in the lookahead ---------------------------------------------

  /** lfs_alloc_lookahead's offset, with its 32-bit subtraction and addition. */
  function Offset(block: nat, off: nat, n: nat): nat
    requires n > 0
  {
    ((block - off) % WORD_SPACE + n) % WORD_SPACE % n
  }

  lemma Wrap(x: int)
    ensures 0 <= x < WORD_SPACE ==> x % WORD_SPACE == x
    ensures -WORD_SPACE <= x < 0 ==> x % WORD_SPACE == x + WORD_SPACE
    ensures WORD_SPACE <= x < 2 * WORD_SPACE ==> x % WORD_SPACE == x - WORD_SPACE
  {
  }

  lemma OffsetIs(block: nat, off: nat, n: nat)
    requires block < n <= WORD_SPACE / 2 && off < n
    ensures Offset(block, off, n) == if off <= block then block - off else block + n - off
  {
    Wrap(block - off);
    if off <= block {
      Wrap(block - off + n);
      AtUnique(block - off + n, n, 1, block - off);
    } else {
      Wrap(block - off + WORD_SPACE + n);
      AtUnique(block - off + n, n, 0, block - off + n);
    }
  }

  lemma OffsetBack(block: nat, off: nat, n: nat, k: nat)
    requires block < n <= WORD_SPACE / 2 && off < n && k < n
    ensures Offset(block, off, n) == k <==> At(off + k, n) == block
  {
    OffsetIs(block, off, n);
    if off + k < n {
      AtUnique(off + k, n, 0, off + k);
    } else {
      AtUnique(off + k, n, 1, off + k - n);
    }
  }

  ghost predicate OffsetsRight(n: nat)
    requires n > 0
  {
    forall block, off :: 0 <= off < n && 0 <= block < n ==> At(off + Offset(block, off, n), n) == block
  }

  /** The 32-bit formula is right for every block and offset exactly on devices of
      at most 2^31 blocks. */
  lemma OffsetExact(n: nat)
    requires 0 < n < WORD_SPACE
    ensures OffsetsRight(n) <==> n <= WORD_SPACE / 2
  {
    if n <= WORD_SPACE / 2 {
      forall block, off | 0 <= off < n && 0 <= block < n
        ensures At(off + Offset(block, off, n), n) == block
      {
        OffsetIs(block, off, n);
        OffsetBack(block, off, n, Offset(block, off, n));
      }
    } else {
      var block := n - 1;
      assert block % WORD_SPACE == block && (block + n) % WORD_SPACE == block + n - WORD_SPACE;
      AtUnique(block + n - WORD_SPACE, n, 0, block + n - WORD_SPACE);
      AtUnique(0 + Offset(block, 0, n), n, 0, block + n - WORD_SPACE);
      assert At(0 + Offset(block, 0, n), n) != block;
    }
  }

  /// ---- The allocator --------------------------------------------------------------------

  datatype Outcome = Found(block: nat) | NoSpace | Failed

  /** The blocks at a set of positions. */
  ghost function BlocksAt(taken: set<nat>, n: nat): set<nat>
    requires n > 0
  {
    set x | x in taken :: At(x, n)
  }

  class Lookahead {
    const blockCount: nat
    var off: nat
    var size: nat
    var i: nat
    var ack: nat
    const buffer: array<bool>

    /** What the filesystem holds right now, and the position that `off` stands for. */
    var inUse: set<nat>
    ghost var pos: nat
    /** Since the last acknowledgement: where examining began, which positions were
        handed out, and which blocks the traversals reported. */
    ghost var start: nat
    ghost var taken: set<nat>
    ghost var reported: set<nat>

    ghost predicate Valid()
      reads this, buffer
    {
      Sound() && Marks()
    }

    ghost predicate Sound()
      reads this, buffer
    {
      && 0 < blockCount <= WORD_SPACE / 2 && buffer.Length > 0
      && off == At(pos, blockCount) && i <= size <= buffer.Length && size <= blockCount
      && size - i <= ack <= blockCount && pos + i - start == blockCount - ack
      && (forall b :: b in inUse ==> b < blockCount)
      && (forall x :: x in taken ==> start <= x < pos + i)
      && (forall x :: start <= x < pos + i && x !in taken ==> At(x, blockCount) in reported)
    }

    /** The rest of the bitmap: free blocks are free, set ones were reported. */
    ghost predicate Marks()
      requires blockCount > 0 && size <= buffer.Length
      reads this, buffer
    {
      && (forall k :: i <= k < size && !buffer[k] ==> At(pos + k, blockCount) !in inUse)
      && (forall k :: i <= k < size && buffer[k] ==> At(pos + k, blockCount) in reported)
    }

    /** Blocks handed out since the last acknowledgement. */
    ghost function Pending(): set<nat>
      requires blockCount > 0
      reads this
    {
      BlocksAt(taken, blockCount)
    }

    constructor (blockCount: nat, bits: nat, off: nat, inUse: set<nat>)
      requires 0 < blockCount <= WORD_SPACE / 2 && bits > 0 && off < blockCount
      requires forall b :: b in inUse ==> b < blockCount
      ensures Valid() && this.blockCount == blockCount && this.inUse == inUse && Pending() == {}
      ensures reported == {} && ack == blockCount && buffer.Length == bits
    {
      this.blockCount, this.off := blockCount, off;
      buffer := new bool[bits](_ => false);
      size, i, ack := 0, 0, blockCount;
      this.inUse, pos, start, taken, reported := inUse, off, off, {}, {};
      new;
      AtUnique(off, blockCount, 0, off);
    }

    /** The filesystem changes: it may let go of blocks, and gains only blocks that
        were handed out. */
    method Commit(inUse': set<nat>)
      requires Valid() && inUse' <= inUse + Pending()
      modifies this`inUse
      ensures Valid() && inUse == inUse'
    {
      forall k | i <= k < size && !buffer[k]
        ensures At(pos + k, blockCount) !in inUse'
      {
        NotPending(pos + k);
      }
      inUse := inUse';
    }

    /** A position not yet examined names a block that was not handed out. */
    lemma NotPending(x: nat)
      requires Valid() && pos + i <= x < pos + size
      ensures At(x, blockCount) !in Pending()
    {
      forall y | y in taken
        ensures At(y, blockCount) != At(x, blockCount)
      {
        AtOnce(y, x, blockCount);
      }
    }

    /** The blocks of the window that are marked and not yet examined. */
    ghost function InWindow(): set<nat>
      requires blockCount > 0 && size <= buffer.Length
      reads this, buffer
    {
      set k | i <= k < size && buffer[k] :: At(pos + k, blockCount)
    }

    /** lfs_alloc_ack. */
    method Ack()
      requires Valid()
      modifies this`ack, this`start, this`taken, this`reported
      ensures Valid() && ack == blockCount && Pending() == {} && reported <= old(reported)
      ensures reported == InWindow()
    {
      ack := blockCount;
      start, taken := pos + i, {};
      reported := InWindow();
    }

    /** lfs_alloc_drop. */
    method Drop()
      requires Sound()
      modifies this`size, this`i, this`ack, this`start, this`taken
      ensures Valid() && ack == blockCount && size == i == 0 && Pending() == {}
    {
      size, i := 0, 0;
      start, taken := pos, {};
      ack := blockCount;
    }

    /** The callback of the traversal. */
    method Mark(block: nat)
      requires block < blockCount <= WORD_SPACE / 2 && off < blockCount && size <= buffer.Length && size <= blockCount
      modifies buffer
      ensures forall k :: 0 <= k < size ==> (buffer[k] <==> old(buffer[k]) || At(off + k, blockCount) == block)
    {
      var o := Offset(block, off, blockCount);
      if o < size {
        buffer[o] := true;
      }
      forall k | 0 <= k < size
        ensures buffer[k] <==> old(buffer[k]) || At(off + k, blockCount) == block
      {
        OffsetBack(block, off, blockCount, k);
      }
    }

    /** The traversal of lfs_fs_rawgc: every block in use is reported once, in some
        order. A traversal that fails does so after reporting `fails` of them. */
    method MarkUsed(fails: Option<nat>) returns (ok: bool)
      requires 0 < blockCount <= WORD_SPACE / 2 && off < blockCount && size <= buffer.Length && size <= blockCount
      requires (forall k :: 0 <= k < size ==> !buffer[k]) && forall b :: b in inUse ==> b < blockCount
      modifies buffer
      ensures ok <==> fails.None?
      ensures ok ==> forall k :: 0 <= k < size ==> (buffer[k] <==> At(off + k, blockCount) in inUse)
    {
      var rest, n := inUse, 0;
      while rest != {}
        invariant rest <= inUse
        invariant forall k :: 0 <= k < size ==> (buffer[k] <==> At(off + k, blockCount) in inUse - rest)
        decreases |rest|
      {
        if fails == Some(n) {
          return false;
        }
        var b :| b in rest;
        Mark(b);
        rest, n := rest - {b}, n + 1;
      }
      return fails.None?;
    }

    /** The window moves up to the first block not yet examined, and is cleared. */
    method Slide()
      requires Valid()
      modifies this`off, this`size, this`i, this`pos, buffer
      ensures Sound() && i == 0 && pos == old(pos + i)
      ensures size == if buffer.Length < ack then buffer.Length else ack
      ensures forall k :: 0 <= k < size ==> !buffer[k]
    {
      hide At;
      AtAdd(pos, i, blockCount);
      off := At(off + i, blockCount);
      pos := pos + i;
      size := if buffer.Length < ack then buffer.Length else ack;
      i := 0;
      for k := 0 to buffer.Length
        invariant forall j :: 0 <= j < k ==> !buffer[j]
        modifies buffer
      {
        buffer[k] := false;
      }
    }

    /** Marks found from the block are the marks found from the position. */
    lemma Marked()
      requires Sound() && i == 0 && inUse <= reported
      requires forall k :: 0 <= k < size ==> (buffer[k] <==> At(off + k, blockCount) in inUse)
      ensures Marks()
      ensures forall k :: 0 <= k < size ==> (buffer[k] <==> At(pos + k, blockCount) in inUse)
    {
      hide At;
      forall k | 0 <= k < size
        ensures buffer[k] <==> At(pos + k, blockCount) in inUse
      {
        AtAdd(pos, k, blockCount);
      }
    }

    /** lfs_fs_rawgc: the window is moved and scanned; after a failed traversal it is
        dropped and everything counts as unexamined. */
    method Gc(fails: Option<nat>) returns (ok: bool)
      requires Valid()
      modifies this`off, this`size, this`i, this`ack, this`pos, this`start, this`taken, this`reported, buffer
      ensures Valid() && (ok <==> fails.None?) && pos == old(pos + i)
      ensures ok ==> i == 0 && size == (if buffer.Length < ack then buffer.Length else ack)
      ensures ok ==> ack == old(ack) && Pending() == old(Pending()) && reported == old(reported) + inUse
      ensures ok ==> forall k :: 0 <= k < size ==> (buffer[k] <==> At(pos + k, blockCount) in inUse)
      ensures !ok ==> ack == blockCount && size == i == 0 && Pending() == {} && reported == old(reported)
    {
      hide At;
      Slide();
      ok := MarkUsed(fails);
      if ok {
        reported := reported + inUse;
        Marked();
      } else {
        Drop();
      }
    }

    /** The first step past the examined blocks. */
    lemma StepOn()
      requires Valid() && i < size
      ensures At(off + i, blockCount) == At(pos + i, blockCount)
      ensures At(pos + i, blockCount) !in Pending()
      ensures BlocksAt(taken + {pos + i}, blockCount) == Pending() + {At(pos + i, blockCount)}
      ensures buffer[i] ==> At(pos + i, blockCount) in reported
      ensures !buffer[i] ==> At(pos + i, blockCount) !in inUse
    {
      hide At;
      NotPending(pos + i);
      AtAdd(pos, i, blockCount);
    }

    /** Examining one block, which is not taken. */
    method Skip()
      requires Valid() && i < size && buffer[i]
      modifies this`i, this`ack
      ensures Valid() && i == old(i) + 1 && ack == old(ack) - 1
    {
      hide At;
      StepOn();
      i, ack := i + 1, ack - 1;
    }

    /** Examining one block and handing it out. */
    method Take() returns (block: nat)
      requires Valid() && i < size && !buffer[i]
      modifies this`i, this`ack, this`taken
      ensures Valid() && i == old(i) + 1 && ack == old(ack) - 1
      ensures block < blockCount && block !in inUse && block !in old(Pending())
      ensures Pending() == old(Pending()) + {block}
    {
      hide At;
      StepOn();
      block := At(off + i, blockCount);
      taken := taken + {pos + i};
      i, ack := i + 1, ack - 1;
    }

    /** The search through the window of lfs_alloc: the free block found, with the
        window moved past the used blocks behind it. */
    method Search() returns (found: bool, block: nat)
      requires Valid()
      modifies this`i, this`ack, this`taken
      ensures Valid()
      ensures found ==>
                && block < blockCount && block !in inUse && block !in old(Pending())
                && Pending() == old(Pending()) + {block}
      ensures found && i < size ==> !buffer[i]
      ensures !found ==> i == size && taken == old(taken) && ack == old(ack) - (size - old(i))
    {
      hide At;
      while i != size
        invariant Valid() && taken == old(taken) && ack + i == old(ack + i)
        decreases size - i
      {
        if !buffer[i] {
          block := Take();
          SkipUsed();
          return true, block;
        }
        Skip();
      }
      return false, 0;
    }

    /** Used blocks behind the one found count as examined right away, so that an
        acknowledgement does not bring them back. */
    method SkipUsed()
      requires Valid()
      modifies this`i, this`ack
      ensures Valid() && (i < size ==> !buffer[i])
    {
      hide At;
      while i != size && buffer[i]
        invariant Valid()
        decreases size - i
      {
        Skip();
      }
    }

    /** lfs_alloc; `faults` says which of its scans fail. What it returns is neither in
        use nor handed out since the last acknowledgement. Without space, every block was
        handed out, reported by an earlier scan, or is in use. */
    method Alloc(faults: seq<Option<nat>>) returns (r: Outcome, scans: nat)
      requires Valid()
      modifies this`off, this`size, this`i, this`ack, this`pos, this`start, this`taken, this`reported, buffer
      ensures Valid()
      ensures r.Found? ==>
                && r.block < blockCount && r.block !in inUse && r.block !in old(Pending())
                && Pending() == old(Pending()) + {r.block} && (i < size ==> !buffer[i])
      ensures r.NoSpace? ==>
                && ack == 0 && Pending() == old(Pending())
                && forall b :: 0 <= b < blockCount ==> b in Pending() || b in old(reported) || b in inUse
      ensures reported <= old(reported) + inUse
      ensures forall k :: 0 <= k < scans && k < |faults| && faults[k].Some? ==> r.Failed? && k == scans - 1
      ensures r.Failed? ==> ack == blockCount && Pending() == {} && 0 < scans <= |faults| && faults[scans - 1].Some?
    {
      hide At;
      scans := 0;
      while true
        invariant Valid() && Pending() == old(Pending()) && reported <= old(reported) + inUse
        invariant forall k :: 0 <= k < scans && k < |faults| ==> faults[k].None?
        decreases ack, if i == size then 1 else 0
      {
        var found, block := Search();
        if found {
          return Found(block), scans;
        }
        if ack == 0 {
          AllExamined();
          return NoSpace, scans;
        }
        var ok := Gc(if scans < |faults| then faults[scans] else None);
        scans := scans + 1;
        if !ok {
          return Failed, scans;
        }
      }
    }

    /** With nothing left to examine, every block was handed out or reported. */
    lemma AllExamined()
      requires Valid() && ack == 0
      ensures forall b :: 0 <= b < blockCount ==> b in Pending() || b in reported
    {
      forall b | 0 <= b < blockCount
        ensures b in Pending() || b in reported
      {
        AtSome(b, start, blockCount);
        var x :| start <= x < start + blockCount && At(x, blockCount) == b;
        assert x in taken ==> b in Pending();
      }
    }
  }
}