/** The global state: kept on disk as XOR deltas spread over all metadata pairs.
    Proved: every commit, compaction, split, drop and relocation conserves the XOR
    of all listed deltas, so that a mount scan recomputes the committed state. */
module GlobalState {
  import opened BitMath
  import opened Options

  /// ---- Twelve bytes of state ---------------------------------------------------------

  /** A state word is the set of its one bits: the block pair in bits 0 to 63, the
      tag in bits 64 to 95 (size from 64, id from 74, type from 84, flag 95). */
  type Word = set<nat>

  function Xor(a: Word, b: Word): Word { (a - b) + (b - a) }

  const SIZE_FIELD: Word := {64, 65, 66, 67, 68, 69, 70, 71, 72, 73}
  const FLAG := 95

  /** What of a state goes to disk: everything but the size field of the tag, which
      holds the orphan count and lives in memory only. */
  function Mask(g: Word): Word { g - SIZE_FIELD }

  predicate OnDisk(g: Word) { g !! SIZE_FIELD }

  lemma XorLaws(a: Word, b: Word, c: Word)
    ensures Xor(Xor(a, b), c) == Xor(a, Xor(b, c))
    ensures Xor(a, b) == Xor(b, a)
  {
  }

  lemma XorUnit(a: Word, b: Word)
    ensures Xor(a, {}) == a && Xor({}, a) == a && Xor(a, a) == {}
    ensures Xor(Xor(a, b), b) == a && Xor(b, Xor(a, b)) == a
  {
  }

  lemma SpliceAlgebra(a: Word, x: Word, m: Word, b: Word)
    ensures Xor(Xor(a, m), b) == Xor(Xor(Xor(Xor(a, x), b), x), m)
  {
  }

  lemma MaskLaws(a: Word, b: Word)
    ensures Mask(Xor(a, b)) == Xor(Mask(a), Mask(b))
    ensures OnDisk(a) && OnDisk(b) ==> OnDisk(Xor(a, b))
    ensures OnDisk(a) ==> Mask(a) == a
    ensures OnDisk(Mask(a)) && OnDisk({})
  {
  }

  lemma Cancel(m: Word, gdelta: Word, own: Word, d: Word)
    ensures Xor(Xor(Xor(m, gdelta), own), Xor(Xor(d, gdelta), own)) == Xor(m, d)
  {
  }

  /** The step all commits share: with the pair's old delta taken out and the
      difference put in, the sum follows the in-memory state. */
  lemma CommitAlgebra(sum: Word, own: Word, gdelta: Word, gdisk: Word, diff: Word)
    requires Xor(sum, gdelta) == Mask(gdisk) && OnDisk(gdelta)
    ensures Xor(Xor(sum, own), Xor(Mask(Xor(diff, gdelta)), own)) == Mask(Xor(gdisk, diff))
    ensures Mask(Xor(diff, gdelta)) == {} ==> sum == Mask(Xor(gdisk, diff))
  {
    hide Mask, OnDisk, Xor;
    XorUnit(sum, gdelta);
    MaskLaws(diff, gdelta);
    MaskLaws(gdisk, diff);
    MaskLaws(gdelta, gdelta);
    Cancel(Mask(gdisk), gdelta, own, Mask(diff));
    XorUnit(Mask(diff), gdelta);
    XorUnit(gdelta, gdelta);
  }

  /// ---- Numbers in a word ---------------------------------------------------------------

  /** The bits of `n`, placed from bit `at` on. */
  function OneBits(n: nat, at: nat): Word
    decreases n
  {
    if n == 0 then {} else (if n % 2 == 1 then {at} else {}) + OneBits(n / 2, at + 1)
  }

  /** The number in the `width` bits from bit `at` on. */
  function Value(w: Word, at: nat, width: nat): nat
    decreases width
  {
    if width == 0 then 0 else (if at in w then 1 else 0) + 2 * Value(w, at + 1, width - 1)
  }

  lemma {:induction false} BitsRange(n: nat, at: nat, width: nat)
    requires n < Pow2(width)
    ensures forall b :: b in OneBits(n, at) ==> at <= b < at + width
    decreases n
  {
    if n > 0 {
      BitsRange(n / 2, at + 1, width - 1);
    }
  }

  /** A field reads back as written, whatever stands in the other fields. */
  lemma {:induction false} ValueBits(n: nat, at: nat, width: nat, rest: Word)
    requires n < Pow2(width)
    requires forall b :: b in rest ==> !(at <= b < at + width)
    ensures Value(OneBits(n, at) + rest, at, width) == n
    decreases width
  {
    if width > 0 {
      BitsRange(n / 2, at + 1, width - 1);
      ValueBits(n / 2, at + 1, width - 1, rest + if n % 2 == 1 then {at} else {});
      assert OneBits(n, at) + rest == OneBits(n / 2, at + 1) + (rest + if n % 2 == 1 then {at} else {});
    }
  }

  /// ---- What a state word says -----------------------------------------------------------

  const TAG_FIELDS: Word := set b: nat | 64 <= b < 96
  const MOVE_FIELDS: Word := set b: nat | 0 <= b < 95 && !(64 <= b < 74)

  /** A move in progress: the id that moves away, and its pair. */
  datatype Move = NoMove | Move(id: nat, p0: nat, p1: nat)

  predicate ValidMove(m: Move) {
    m.Move? ==> m.id < 0x3ff && m.p0 < Pow2(32) && m.p1 < Pow2(32)
  }

  const DELETE_TYPE := 0x4ff

  function MoveBits(m: Move): Word {
    match m
    case NoMove => {}
    case Move(id, p0, p1) => OneBits(p1, 0) + OneBits(p0, 32) + OneBits(id, 74) + OneBits(DELETE_TYPE, 84)
  }

  /** lfs_gstate_hasmove and the fields of the move. */
  function ReadMove(w: Word): Move {
    if Value(w, 92, 3) == 0 then NoMove else Move(Value(w, 74, 10), Value(w, 32, 32), Value(w, 0, 32))
  }

  /** lfs_fs_prepmove: the flag and the size stay as they are. */
  function WithMove(w: Word, m: Move): Word {
    (w - MOVE_FIELDS) + MoveBits(m)
  }

  /** The orphan count, and the superblock flag above it. */
  function Size(w: Word): nat { Value(w, 64, 10) }

  /** lfs_fs_preporphans: the flag that goes to disk follows the count. */
  function WithSize(w: Word, size: nat): Word {
    (w - SIZE_FIELD - {FLAG}) + OneBits(size, 64) + if size != 0 then {FLAG} else {}
  }

  /// ---- Deltas in the logs --------------------------------------------------------------

  /** The MOVESTATE entries in the log of one pair, oldest first. */
  type Deltas = seq<Word>

  /** lfs_dir_getgstate: the last MOVESTATE entry counts. */
  function Latest(d: Deltas): Word {
    if d == [] then {} else d[|d| - 1]
  }

  /** The XOR of what all pairs of the tail list store. */
  function Sum(pairs: seq<Deltas>): Word {
    if pairs == [] then {} else Xor(Sum(pairs[..|pairs| - 1]), Latest(pairs[|pairs| - 1]))
  }

  predicate AllOnDisk(pairs: seq<Deltas>) {
    forall i :: 0 <= i < |pairs| ==> OnDisk(Latest(pairs[i]))
  }

  lemma {:induction false} SumConcat(a: seq<Deltas>, b: seq<Deltas>)
    ensures Sum(a + b) == Xor(Sum(a), Sum(b))
    decreases |b|
  {
    hide Latest, Xor;
    if b == [] {
      assert a + b == a;
      XorUnit(Sum(a), {});
    } else {
      var n := |b| - 1;
      assert (a + b)[..|a + b| - 1] == a + b[..n];
      SumConcat(a, b[..n]);
      XorLaws(Sum(a), Sum(b[..n]), Latest(b[n]));
    }
  }

  lemma SumOne(d: Deltas)
    ensures Sum([d]) == Latest(d)
  {
    assert [d][..0] == [];
    XorUnit(Latest(d), {});
    hide Latest, Xor;
  }

  /** Replacing the pairs [i, j) by others takes the old deltas out of the sum and
      puts the new ones in. */
  lemma SumSplice(pairs: seq<Deltas>, i: nat, j: nat, mid: seq<Deltas>)
    requires i <= j <= |pairs|
    ensures Sum(pairs[..i] + mid + pairs[j..]) == Xor(Xor(Sum(pairs), Sum(pairs[i..j])), Sum(mid))
  {
    hide Sum, Xor;
    SumConcat(pairs[..i] + mid, pairs[j..]);
    SumConcat(pairs[..i], mid);
    SumConcat(pairs[..i] + pairs[i..j], pairs[j..]);
    SumConcat(pairs[..i], pairs[i..j]);
    assert pairs == pairs[..i] + pairs[i..j] + pairs[j..];
    SpliceAlgebra(Sum(pairs[..i]), Sum(pairs[i..j]), Sum(mid), Sum(pairs[j..]));
  }

  lemma {:induction false} SumOnDisk(pairs: seq<Deltas>)
    requires AllOnDisk(pairs)
    ensures OnDisk(Sum(pairs))
  {
    hide Latest, OnDisk, Xor;
    MaskLaws({}, {});
    if pairs != [] {
      SumOnDisk(pairs[..|pairs| - 1]);
      MaskLaws(Sum(pairs[..|pairs| - 1]), Latest(pairs[|pairs| - 1]));
    }
  }

  /// ---- The balance between memory and disk --------------------------------------------------

  /** The XOR of all stored deltas and of the stolen ones is the committed state. */
  predicate Balanced(pairs: seq<Deltas>, gdelta: Word, gdisk: Word) {
    AllOnDisk(pairs) && OnDisk(gdelta) && Xor(Sum(pairs), gdelta) == Mask(gdisk)
  }

  /** What a commit stores, before the pair's own delta: the change of the state
      (nothing while relocating) and what was stolen from dropped pairs. */
  function Delta(gstate: Word, gdisk: Word, gdelta: Word, relocated: bool): Word {
    Mask(Xor(if relocated then {} else Xor(gstate, gdisk), gdelta))
  }

  /** A rewritten log holds one entry, or none when there is nothing to store. */
  function Fresh(delta: Word): Deltas {
    if delta != {} then [delta] else []
  }

  lemma SumUpdate(pairs: seq<Deltas>, i: nat, d: Deltas)
    requires i < |pairs|
    ensures Sum(pairs[i := d]) == Xor(Xor(Sum(pairs), Latest(pairs[i])), Latest(d))
  {
    hide Latest, Sum, Xor;
    SumSplice(pairs, i, i + 1, [d]);
    SumOne(pairs[i]);
    SumOne(d);
    assert pairs[i..i + 1] == [pairs[i]];
    assert pairs[i := d] == pairs[..i] + [d] + pairs[i + 1..];
  }

  lemma SumInsert(pairs: seq<Deltas>, i: nat, d: Deltas)
    requires i <= |pairs|
    ensures Sum(pairs[..i] + [d] + pairs[i..]) == Xor(Sum(pairs), Latest(d))
  {
    SumSplice(pairs, i, i, [d]);
    SumOne(d);
    assert pairs[i..i] == [] && Sum([]) == {};
    hide Latest, Sum, Xor;
    XorUnit(Sum(pairs), {});
  }

  lemma SumRemove(pairs: seq<Deltas>, i: nat)
    requires i < |pairs|
    ensures Sum(pairs[..i] + pairs[i + 1..]) == Xor(Sum(pairs), Latest(pairs[i]))
  {
    hide Latest, Sum, Xor;
    SumConcat(pairs[..i], pairs[i + 1..]);
    SumConcat(pairs[..i] + [pairs[i]], pairs[i + 1..]);
    SumConcat(pairs[..i], [pairs[i]]);
    SumOne(pairs[i]);
    Regroup(pairs, i);
    RemoveAlgebra(Sum(pairs[..i]), Latest(pairs[i]), Sum(pairs[i + 1..]));
  }

  lemma Regroup(pairs: seq<Deltas>, i: nat)
    requires i < |pairs|
    ensures pairs[..i] + [pairs[i]] + pairs[i + 1..] == pairs
  {
  }

  lemma RemoveAlgebra(a: Word, x: Word, b: Word)
    ensures Xor(a, b) == Xor(Xor(Xor(a, x), b), x)
  {
  }

  /** What storing a delta in place of `own` does to the sum. */
  lemma StoreLaws(sum: Word, own: Word, gstate: Word, gdisk: Word, gdelta: Word)
    requires Xor(sum, gdelta) == Mask(gdisk) && OnDisk(gdelta) && OnDisk(own)
    ensures forall relocated ::
              var target := if relocated then gdisk else gstate;
              var delta := Delta(gstate, gdisk, gdelta, relocated);
              && OnDisk(Xor(delta, own))
              && Xor(Xor(sum, own), Xor(delta, own)) == Mask(target) == Xor(Mask(target), {})
    ensures Delta(gstate, gdisk, gdelta, false) == {} ==> sum == Mask(gstate)
    ensures OnDisk({})
  {
    hide Mask, OnDisk, Sum, Xor;
    CommitAlgebra(sum, own, gdelta, gdisk, Xor(gstate, gdisk));
    CommitAlgebra(sum, own, gdelta, gdisk, {});
    XorUnit(gstate, gdisk);
    XorUnit(gdisk, {});
    XorUnit(Mask(gdisk), {});
    XorUnit(Mask(gstate), {});
    MaskLaws(Xor(Xor(gstate, gdisk), gdelta), own);
    MaskLaws(Xor({}, gdelta), own);
    MaskLaws(Delta(gstate, gdisk, gdelta, false), own);
    MaskLaws(Delta(gstate, gdisk, gdelta, true), own);
  }

  lemma AppendBalances(pairs: seq<Deltas>, gstate: Word, gdisk: Word, gdelta: Word, i: nat)
    requires Balanced(pairs, gdelta, gdisk) && i < |pairs|
    ensures
      var delta := Delta(gstate, gdisk, gdelta, false);
      var log := if delta != {} then pairs[i] + [Xor(delta, Latest(pairs[i]))] else pairs[i];
      Balanced(pairs[i := log], {}, gstate) && Sum(pairs[i := log]) == Mask(gstate)
  {
    var own := Latest(pairs[i]);
    var delta := Delta(gstate, gdisk, gdelta, false);
    var log := pairs[i] + [Xor(delta, own)];
    StoreLaws(Sum(pairs), own, gstate, gdisk, gdelta);
    SumUpdate(pairs, i, log);
    assert Latest(log) == Xor(delta, own) && pairs[i := pairs[i]] == pairs;
    hide Delta, Latest, Mask, OnDisk, Sum, Xor;
  }

  lemma CompactBalances(pairs: seq<Deltas>, gstate: Word, gdisk: Word, gdelta: Word, i: nat, relocated: bool)
    requires Balanced(pairs, gdelta, gdisk) && i < |pairs|
    ensures
      var log := Fresh(Xor(Delta(gstate, gdisk, gdelta, relocated), Latest(pairs[i])));
      var target := if relocated then gdisk else gstate;
      Balanced(pairs[i := log], {}, target) && Sum(pairs[i := log]) == Mask(target)
  {
    var own := Latest(pairs[i]);
    var delta := Xor(Delta(gstate, gdisk, gdelta, relocated), own);
    StoreLaws(Sum(pairs), own, gstate, gdisk, gdelta);
    SumUpdate(pairs, i, Fresh(delta));
    assert Latest(Fresh(delta)) == delta;
    hide Delta, Fresh, Latest, Mask, OnDisk, Sum, Xor;
  }

  lemma SplitBalances(pairs: seq<Deltas>, gstate: Word, gdisk: Word, gdelta: Word, i: nat, relocated: bool)
    requires Balanced(pairs, gdelta, gdisk) && i <= |pairs|
    ensures
      var log := Fresh(Delta(gstate, gdisk, gdelta, relocated));
      var target := if relocated then gdisk else gstate;
      var pairs' := pairs[..i] + [log] + pairs[i..];
      Balanced(pairs', {}, target) && Sum(pairs') == Mask(target)
  {
    var delta := Delta(gstate, gdisk, gdelta, relocated);
    MaskLaws({}, {});
    StoreLaws(Sum(pairs), {}, gstate, gdisk, gdelta);
    SumInsert(pairs, i, Fresh(delta));
    assert Latest(Fresh(delta)) == delta;
    XorUnit(delta, {});
    XorUnit(Sum(pairs), {});
    hide Delta, Fresh, Latest, Mask, OnDisk, Sum, Xor;
  }

  lemma StealBalances(pairs: seq<Deltas>, gdisk: Word, gdelta: Word, i: nat)
    requires Balanced(pairs, gdelta, gdisk) && i < |pairs|
    ensures Balanced(pairs[..i] + pairs[i + 1..], Xor(gdelta, Latest(pairs[i])), gdisk)
  {
    SumRemove(pairs, i);
    StealAlgebra(Sum(pairs), Latest(pairs[i]), gdelta);
    MaskLaws(gdelta, Latest(pairs[i]));
    hide Latest, Mask, OnDisk, Sum, Xor;
  }

  lemma StealAlgebra(sum: Word, own: Word, gdelta: Word)
    ensures Xor(Xor(sum, own), Xor(gdelta, own)) == Xor(sum, gdelta)
  {
  }

  /// ---- What a commit stores, and where ---------------------------------------------------

  /** What is stored, and what waits to be. */
  datatype Kept = Kept(pairs: seq<Deltas>, gdisk: Word, gdelta: Word)

  /** The change of the committed state together with what was stolen. */
  function Change(a: Kept, b: Kept): Word {
    Mask(Xor(Xor(b.gdisk, a.gdisk), a.gdelta))
  }

  /** What the `k`-th log that a compacting commit writes takes of the change: the first
      takes all that was stolen, and the first that stays where it is the new state. */
  function Share(how: How, k: nat, gstate: Word, a: Kept): Word
    requires how.Compacted? && k <= |how.splits|
  {
    Delta(gstate, if false in how.splits[..k] then gstate else a.gdisk, if k == 0 then a.gdelta else {},
          if k < |how.splits| then how.splits[k] else how.relocated)
  }

  /** A commit on pair `i` puts the change in that very pair, or partly in the tails it
      splits off right behind it. All other pairs keep their logs and their order. */
  ghost predicate Wrote(a: Kept, b: Kept, i: nat, how: How, gstate: Word) {
    var n := how.Splits();
    && i < |a.pairs| && |b.pairs| == |a.pairs| + n && b.gdelta == {}
    && b.gdisk == (if how.Stays() then gstate else a.gdisk)
    && b.pairs[..i] == a.pairs[..i] && b.pairs[i + 1 + n..] == a.pairs[i + 1..]
    && Sum(b.pairs[i..i + 1 + n]) == Xor(Latest(a.pairs[i]), Change(a, b))
    && match how
       case Appended =>
         && a.pairs[i] <= b.pairs[i] && Latest(b.pairs[i]) == Xor(Latest(a.pairs[i]), Change(a, b))
         && |b.pairs[i]| == |a.pairs[i]| + if Change(a, b) == {} then 0 else 1
       case Compacted(_, _) =>
         && (forall k :: 0 <= k < n ==> b.pairs[i + n - k] == Fresh(Share(how, k, gstate, a)))
         && b.pairs[i] == Fresh(Xor(Share(how, n, gstate, a), Latest(a.pairs[i])))
  }

  lemma WroteSum(a: Kept, b: Kept, i: nat, n: nat)
    requires i < |a.pairs| && |b.pairs| == |a.pairs| + n && OnDisk(a.gdelta)
    requires b.pairs[..i] == a.pairs[..i] && b.pairs[i + 1 + n..] == a.pairs[i + 1..]
    requires Xor(Sum(a.pairs), a.gdelta) == Mask(a.gdisk) && Sum(b.pairs) == Mask(b.gdisk)
    ensures Sum(b.pairs[i..i + 1 + n]) == Xor(Latest(a.pairs[i]), Change(a, b))
  {
    hide Latest, Mask, OnDisk, Sum, Xor;
    var mid := b.pairs[i..i + 1 + n];
    SumSplice(a.pairs, i, i + 1, mid);
    assert b.pairs == a.pairs[..i] + mid + a.pairs[i + 1..];
    assert a.pairs[i..i + 1] == [a.pairs[i]];
    SumOne(a.pairs[i]);
    ChangeIs(a, b);
    MidAlgebra(Sum(a.pairs), Latest(a.pairs[i]), Sum(mid), Mask(b.gdisk), Mask(a.gdisk), a.gdelta);
  }

  lemma ChangeIs(a: Kept, b: Kept)
    requires OnDisk(a.gdelta)
    ensures Change(a, b) == Xor(Xor(Mask(b.gdisk), Mask(a.gdisk)), a.gdelta)
  {
  }

  lemma BalancedParts(a: Kept)
    requires Balanced(a.pairs, a.gdelta, a.gdisk)
    ensures OnDisk(a.gdelta) && Xor(Sum(a.pairs), a.gdelta) == Mask(a.gdisk)
  {
  }

  lemma AppendWrote(a: Kept, b: Kept, i: nat, gstate: Word)
    requires OnDisk(a.gdelta) && Xor(Sum(a.pairs), a.gdelta) == Mask(a.gdisk) && Sum(b.pairs) == Mask(b.gdisk)
    requires i < |a.pairs| == |b.pairs| && b.gdelta == {} && b.gdisk == gstate && a.pairs[i] <= b.pairs[i]
    requires forall k :: 0 <= k < |a.pairs| && k != i ==> b.pairs[k] == a.pairs[k]
    requires Latest(b.pairs[i]) == Xor(Latest(a.pairs[i]), Change(a, b))
    requires |b.pairs[i]| == |a.pairs[i]| + if Change(a, b) == {} then 0 else 1
    ensures Wrote(a, b, i, Appended, gstate)
  {
    hide Change, Latest, Mask, OnDisk, Sum, Xor;
    assert b.pairs[..i] == a.pairs[..i] && b.pairs[i + 1..] == a.pairs[i + 1..];
    WroteSum(a, b, i, 0);
  }

  lemma CompactWrote(a: Kept, mid: seq<Deltas>, b: Kept, i: nat, how: How, gstate: Word)
    requires OnDisk(a.gdelta) && Xor(Sum(a.pairs), a.gdelta) == Mask(a.gdisk) && Sum(b.pairs) == Mask(b.gdisk)
    requires how.Compacted? && i < |a.pairs| && |mid| == |a.pairs| + |how.splits| && b.gdelta == {}
    requires b.gdisk == if how.Stays() then gstate else a.gdisk
    requires mid[..i + 1] == a.pairs[..i + 1] && mid[i + 1 + |how.splits|..] == a.pairs[i + 1..]
    requires forall m :: 0 <= m < |how.splits| ==> mid[i + |how.splits| - m] == Fresh(Share(how, m, gstate, a))
    requires |b.pairs| == |mid| && forall k :: 0 <= k < |mid| && k != i ==> b.pairs[k] == mid[k]
    requires b.pairs[i] == Fresh(Xor(Share(how, |how.splits|, gstate, a), Latest(a.pairs[i])))
    ensures Wrote(a, b, i, how, gstate)
  {
    hide Change, Fresh, Latest, Mask, OnDisk, Share, Sum, Xor;
    var n := |how.splits|;
    assert b.pairs[..i] == mid[..i] && mid[..i] == mid[..i + 1][..i] && a.pairs[..i] == a.pairs[..i + 1][..i];
    assert b.pairs[i + 1 + n..] == mid[i + 1 + n..];
    WroteSum(a, b, i, n);
  }

  lemma ShareIs(how: How, k: nat, gstate: Word, a: Kept)
    requires how.Compacted? && k <= |how.splits|
    ensures Share(how, k, gstate, a) ==
            Delta(gstate, if false in how.splits[..k] then gstate else a.gdisk, if k == 0 then a.gdelta else {},
                  if k < |how.splits| then how.splits[k] else how.relocated)
  {
    hide Delta;
  }

  lemma MovedUp(before: seq<Deltas>, after: seq<Deltas>, i: nat)
    requires i < |before| && |after| == |before| + 1
    requires after[..i + 1] == before[..i + 1] && after[i + 2..] == before[i + 1..]
    ensures forall x :: i + 1 <= x < |before| ==> after[x + 1] == before[x]
    ensures forall n :: i + 1 <= n <= |before| ==> after[n + 1..] == before[n..]
  {
    forall x | i + 1 <= x < |before|
      ensures after[x + 1] == before[x]
    {
      assert after[x + 1] == after[i + 2..][x - i - 1] && before[x] == before[i + 1..][x - i - 1];
    }
  }

  lemma MidAlgebra(sum: Word, own: Word, mid: Word, now: Word, was: Word, gdelta: Word)
    requires Xor(Xor(sum, own), mid) == now && Xor(sum, gdelta) == was
    ensures mid == Xor(own, Xor(Xor(now, was), gdelta))
  {
  }

  /// ---- The filesystem's global state -----------------------------------------------------

  class Lfs {
    var gstate: Word
    var gdisk: Word
    var gdelta: Word
    /** The pairs of the tail list, as the operation under way leaves them. */
    var pairs: seq<Deltas>

    predicate Conserved()
      reads this
    {
      Balanced(pairs, gdelta, gdisk)
    }

    function Now(): Kept
      reads this
    {
      Kept(pairs, gdisk, gdelta)
    }

    /** lfs_fs_prepmove changes the state in memory only. */
    method PrepMove(m: Move)
      requires Conserved()
      modifies this`gstate
      ensures Conserved() && gstate == WithMove(old(gstate), m)
    {
      gstate := WithMove(gstate, m);
    }

    /** lfs_fs_preporphans changes the state in memory only. */
    method PrepOrphans(orphans: int)
      requires Conserved() && orphans in {-1, 0, 1} && Size(gstate) + orphans >= 0
      modifies this`gstate
      ensures Conserved() && gstate == WithSize(old(gstate), Size(old(gstate)) + orphans)
    {
      gstate := WithSize(gstate, Size(gstate) + orphans);
    }

    /** lfs_dir_relocatingcommit, appending to pair `i`: a MOVESTATE entry is
        written only when something changed. */
    method Append(i: nat)
      requires Conserved() && i < |pairs|
      modifies this`gdisk, this`gdelta, this`pairs
      ensures Conserved() && gdisk == gstate && gdelta == {} && Sum(pairs) == Mask(gstate)
      ensures |pairs| == |old(pairs)| && old(pairs[i]) <= pairs[i]
      ensures forall k :: 0 <= k < |pairs| && k != i ==> pairs[k] == old(pairs)[k]
      ensures
        var change := Change(old(Now()), Now());
        && Latest(pairs[i]) == Xor(Latest(old(pairs[i])), change)
        && |pairs[i]| == |old(pairs[i])| + if change == {} then 0 else 1
    {
      AppendBalances(pairs, gstate, gdisk, gdelta, i);
      XorUnit(Latest(pairs[i]), {});
      XorLaws(Delta(gstate, gdisk, gdelta, false), Latest(pairs[i]), {});
      hide Balanced, Sum;
      var delta := Delta(gstate, gdisk, gdelta, false);
      if delta != {} {
        delta := Xor(delta, Latest(pairs[i]));
        pairs := pairs[i := pairs[i] + [delta]];
      } else {
        assert pairs[i := pairs[i]] == pairs;
      }
      gdisk, gdelta := gstate, {};
    }

    /** lfs_dir_compact on pair `i`: the rewritten log holds one MOVESTATE entry, or
        none when there is nothing to store. While relocating, the state is left
        for a later commit. */
    method Compact(i: nat, relocated: bool)
      requires Conserved() && i < |pairs|
      modifies this`gdisk, this`gdelta, this`pairs
      ensures Conserved() && gdelta == {} && Sum(pairs) == Mask(gdisk)
      ensures gdisk == if relocated then old(gdisk) else gstate
      ensures |pairs| == |old(pairs)|
      ensures pairs[i] == Fresh(Xor(Delta(gstate, old(gdisk), old(gdelta), relocated), Latest(old(pairs[i]))))
      ensures forall k :: 0 <= k < |pairs| && k != i ==> pairs[k] == old(pairs)[k]
    {
      CompactBalances(pairs, gstate, gdisk, gdelta, i, relocated);
      hide Balanced, Sum;
      var delta := Xor(Delta(gstate, gdisk, gdelta, relocated), Latest(pairs[i]));
      pairs := pairs[i := if delta != {} then [delta] else []];
      gdelta := {};
      if !relocated {
        gdisk := gstate;
      }
    }

    /** lfs_dir_split: a new pair behind `i`, whose log held nothing before. */
    method SplitTail(i: nat, relocated: bool)
      requires Conserved() && i < |pairs|
      modifies this`gdisk, this`gdelta, this`pairs
      ensures Conserved() && gdelta == {} && Sum(pairs) == Mask(gdisk)
      ensures gdisk == if relocated then old(gdisk) else gstate
      ensures |pairs| == |old(pairs)| + 1 && pairs[..i + 1] == old(pairs[..i + 1]) && pairs[i + 2..] == old(pairs[i + 1..])
      ensures pairs[i + 1] == Fresh(Delta(gstate, old(gdisk), old(gdelta), relocated))
    {
      SplitBalances(pairs, gstate, gdisk, gdelta, i + 1, relocated);
      hide Balanced, Sum;
      var delta := Delta(gstate, gdisk, gdelta, relocated);
      pairs := pairs[..i + 1] + [if delta != {} then [delta] else []] + pairs[i + 1..];
      gdelta := {};
      if !relocated {
        gdisk := gstate;
      }
    }

    /** The state of a pair that is about to be dropped moves to `gdelta`. */
    method Steal(i: nat)
      requires Conserved() && i < |pairs|
      modifies this`gdelta, this`pairs
      ensures Conserved() && gdelta == Xor(old(gdelta), Latest(old(pairs[i])))
      ensures pairs == old(pairs[..i]) + old(pairs[i + 1..])
    {
      StealBalances(pairs, gdisk, gdelta, i);
      gdelta := Xor(gdelta, Latest(pairs[i]));
      pairs := pairs[..i] + pairs[i + 1..];
    }

    /** Any commit on pair `i`: appended, or compacted after splitting off tails. */
    method Commit(i: nat, how: How)
      requires Conserved() && i < |pairs|
      modifies this`gdisk, this`gdelta, this`pairs
      ensures Conserved() && Sum(pairs) == Mask(gdisk)
      ensures Wrote(old(Now()), Now(), i, how, gstate)
    {
      hide Balanced, Change, Latest, Mask, Sum, Wrote, Xor;
      ghost var was := Now();
      BalancedParts(was);
      match how
      case Appended =>
        Append(i);
        AppendWrote(was, Now(), i, gstate);
      case Compacted(_, relocated) =>
        SplitAll(i, how);
        ghost var mid := pairs;
        ShareIs(how, |how.splits|, gstate, was);
        assert how.splits[..|how.splits|] == how.splits;
        Compact(i, relocated);
        CompactWrote(was, mid, Now(), i, how, gstate);
    }

    /** The splits in front of a compaction. */
    method SplitAll(i: nat, how: How)
      requires Conserved() && i < |pairs| && how.Compacted?
      modifies this`gdisk, this`gdelta, this`pairs
      ensures
        var n := |how.splits|;
        && Conserved() && |pairs| == |old(pairs)| + n
        && pairs[..i + 1] == old(pairs)[..i + 1] && pairs[i + 1 + n..] == old(pairs)[i + 1..]
        && (forall m :: 0 <= m < n ==> pairs[i + n - m] == Fresh(Share(how, m, gstate, old(Now()))))
        && gdelta == (if n == 0 then old(gdelta) else {})
        && gdisk == (if false in how.splits[..n] then gstate else old(gdisk))
    {
      hide Balanced, Delta, Fresh, Latest, Mask, Share, Sum, Xor;
      ghost var was := Now();
      var splits, k := how.splits, 0;
      while k < |splits|
        invariant 0 <= k <= |splits| && Conserved() && |pairs| == |was.pairs| + k
        invariant pairs[..i + 1] == was.pairs[..i + 1] && pairs[i + 1 + k..] == was.pairs[i + 1..]
        invariant forall m :: 0 <= m < k ==> pairs[i + k - m] == Fresh(Share(how, m, gstate, was))
        invariant gdelta == if k == 0 then was.gdelta else {}
        invariant gdisk == if false in splits[..k] then gstate else was.gdisk
      {
        ghost var before := pairs;
        ShareIs(how, k, gstate, was);
        SplitTail(i, splits[k]);
        MovedUp(before, pairs, i);
        assert splits[..k + 1] == splits[..k] + [splits[k]];
        k := k + 1;
      }
    }

    /** lfs_dir_drop, and the drop of an emptied pair after a commit: pair `i + 1`
        goes, its delta and its place in the list go to its predecessor. */
    method Drop(i: nat, how: How)
      requires Conserved() && i + 1 < |pairs|
      modifies this`gdisk, this`gdelta, this`pairs
      ensures Conserved() && Sum(pairs) == Mask(gdisk)
      ensures
        var was := Kept(old(pairs[..i + 1]) + old(pairs[i + 2..]), old(gdisk), Xor(old(gdelta), Latest(old(pairs[i + 1]))));
        Wrote(was, Now(), i, how, gstate)
    {
      Steal(i + 1);
      Commit(i, how);
    }

    /** Committing to the parent or the predecessor of a moved pair. A move pending
        in that very pair is completed along with it. */
    method Visit(stop: Stop)
      requires Conserved() && stop.pair < |pairs|
      modifies this
      ensures Conserved() && Sum(pairs) == Mask(gdisk)
      ensures Wrote(old(Now()), Now(), stop.pair, stop.how, gstate)
      ensures gstate == if stop.moveHere then WithMove(old(gstate), NoMove) else old(gstate)
    {
      if stop.moveHere {
        PrepMove(NoMove);
      }
      Commit(stop.pair, stop.how);
    }

    /** One turn of the relocation loop, for a pair that was compacted to another
        place: flag an orphan while the parent, if there is one, is updated, then let
        the predecessor, if there is one, point to the new place. When the parent had
        to move itself the loop goes on with it and the orphan stays flagged. */
    method Relocate(parent: Option<Stop>, pred: Option<Stop>) returns (ghost steps: seq<Step>)
      requires Conserved() && gdelta == {} && Sum(pairs) == Mask(gdisk)
      requires Turn(parent, pred).Within(|pairs|) && (parent.Some? ==> Size(gstate) < 0x1ff)
      modifies this
      ensures Conserved() && gdelta == {} && Sum(pairs) == Mask(gdisk) && |pairs| >= |old(pairs)|
      ensures Chained(old(Now()), Now(), steps) && StopsOf(steps) == Turn(parent, pred).Visits()
      ensures pred.Some? && !Turn(parent, pred).Again() ==> gdisk == gstate
      ensures Size(gstate) == Size(old(gstate)) + Turn(parent, pred).Orphans()
      ensures parent.None? && Size(old(gstate)) == 0 && !Turn(parent, pred).Completes() ==> gstate == old(gstate)
      ensures ReadMove(gstate) == if Turn(parent, pred).Completes() then NoMove else ReadMove(old(gstate))
    {
      hide Balanced, OneBits, ReadMove, Sum, Value, WithMove, WithSize, Wrote, Xor;
      steps := [];
      ghost var was := Now();
      if parent.Some? {
        SizeApart(gstate, Size(gstate) + 1);
        MoveApart(WithSize(gstate, Size(gstate) + 1));
        PrepOrphans(1);
        Visit(parent.value);
        WroteSizes(was, Now(), parent.value.pair, parent.value.how, gstate);
        steps := AddStep(was, was, Now(), steps, parent.value, gstate);
        if parent.value.how.Relocates() {
          return;
        }
      }
      if pred.Some? {
        var back := if parent.Some? then 1 else 0;
        if Size(gstate) > 0 {
          SizeBound(gstate);
          SizeApart(gstate, Size(gstate) - back);
          PrepOrphans(-back);
        }
        MoveApart(gstate);
        ghost var mid := Now();
        Visit(pred.value);
        WroteSizes(mid, Now(), pred.value.pair, pred.value.how, gstate);
        steps := AddStep(was, mid, Now(), steps, pred.value, gstate);
      }
    }

    /** lfs_dir_orphaningcommit: commit to pair `i`, then follow the relocations up and
        along the list; the script says what each turn finds. Nothing but the pairs of
        the script is written, each as by a commit of its own. */
    method OrphaningCommit(i: nat, how: How, turns: seq<Turn>) returns (orphaned: bool, ghost steps: seq<Step>)
      requires Conserved() && i < |pairs| && Size(gstate) + |turns| < 0x200
      requires Script(how, turns) && forall k :: 0 <= k < |turns| ==> turns[k].Within(|pairs|)
      modifies this
      ensures Conserved() && gdelta == {} && Sum(pairs) == Mask(gdisk)
      ensures Chained(old(Now()), Now(), steps) && StopsOf(steps) == [Stop(i, false, how)] + AllVisits(turns)
      ensures turns == [] || turns[|turns| - 1].pred.Some? ==> gdisk == gstate
      ensures Size(gstate) == Size(old(gstate)) + Flagged(turns)
      ensures orphaned <==> Size(gstate) > Size(old(gstate))
      ensures ReadMove(gstate) ==
              if exists k :: 0 <= k < |turns| && turns[k].Completes() then NoMove else ReadMove(old(gstate))
    {
      hide AllVisits, Balanced, Chained, Flagged, Mask, ReadMove, Size, StopsOf, Sum, WithMove, Wrote, Xor;
      hide Turn.Completes, Turn.Visits;
      ghost var was := Now();
      Commit(i, how);
      WroteSizes(was, Now(), i, how, gstate);
      ChainedNone(was);
      steps := AddStep(was, was, Now(), [], Stop(i, false, how), gstate);
      NoTurns(turns);
      orphaned := false;
      var k := 0;
      while k < |turns|
        invariant 0 <= k <= |turns| && Conserved() && gdelta == {} && Sum(pairs) == Mask(gdisk)
        invariant |pairs| >= |old(pairs)|
        invariant Chained(was, Now(), steps) && StopsOf(steps) == [Stop(i, false, how)] + AllVisits(turns[..k])
        invariant (if k == 0 then !how.Relocates() else turns[k - 1].pred.Some? && !turns[k - 1].Again()) ==>
                    gdisk == gstate
        invariant Size(gstate) == Size(old(gstate)) + Flagged(turns[..k])
        invariant orphaned <==> Flagged(turns[..k]) > 0
        invariant ReadMove(gstate) ==
                  if exists n :: 0 <= n < k && turns[n].Completes() then NoMove else ReadMove(old(gstate))
      {
        TurnsSnoc(turns, k);
        ghost var mid := Now();
        ghost var more := Relocate(turns[k].parent, turns[k].pred);
        assert turns[k] == Turn(turns[k].parent, turns[k].pred);
        ChainedConcat(was, mid, Now(), steps, more);
        StopsConcat(steps, more);
        steps := steps + more;
        if turns[k].Orphans() > 0 {
          orphaned := true;
        }
        k := k + 1;
      }
      assert turns[..k] == turns;
    }

    /** The scan of lfs_rawmount: XOR the deltas of all pairs; a set flag says that
        there are orphans to look for; `older` marks an old superblock version. */
    method Mount(older: bool)
      requires Conserved() && gdelta == {}
      modifies this`gstate, this`gdisk
      ensures Conserved() && gstate == gdisk && Mask(gdisk) == old(Mask(gdisk))
      ensures gstate == Booted(Sum(pairs), older)
    {
      var state: Word := if older then {73} else {};
      var k := 0;
      assert pairs[..0] == [];
      while k < |pairs|
        invariant 0 <= k <= |pairs|
        invariant AllOnDisk(pairs[..k]) && state == Sum(pairs[..k]) + (if older then {73} else {})
      {
        SumOnDisk(pairs[..k]);
        assert pairs[..k + 1][..k] == pairs[..k];
        MountStep(Sum(pairs[..k]), Latest(pairs[k]), older);
        hide Latest, OnDisk, Sum, Xor;
        state := Xor(state, Latest(pairs[k]));
        k := k + 1;
      }
      assert pairs[..k] == pairs;
      SumOnDisk(pairs);
      XorUnit(Sum(pairs), {});
      if FLAG in state {
        state := state + {64};
      }
      gstate, gdisk := state, state;
    }
  }

  /** The state that a mount makes of the sum of all deltas: a set flag says that there
      are orphans to look for, `older` that the superblock has an old version. */
  function Booted(sum: Word, older: bool): Word {
    sum + (if FLAG in sum then {64} else {}) + (if older then {73} else {})
  }

  /** How a commit reaches its pair: appended to the log, or compacted, with tails
      split off before (each possibly relocated) and possibly relocated itself. */
  datatype How = Appended | Compacted(splits: seq<bool>, relocated: bool) {
    predicate Relocates() { Compacted? && relocated }

    /** Some log that is written stays where it is, and takes the new state. */
    predicate Stays() { Compacted? && relocated ==> false in splits }

    function Splits(): nat { if Compacted? then |splits| else 0 }
  }

  /** A pair that a relocation has to update: whether a pending move lies in it, and
      how its commit goes. */
  datatype Stop = Stop(pair: nat, moveHere: bool, how: How)

  datatype Turn = Turn(parent: Option<Stop>, pred: Option<Stop>) {
    /** The parent had to move: the predecessor is left to a later clean-up. */
    predicate Cut() { parent.Some? && parent.value.how.Relocates() }

    /** Whether some pair had to move in this turn. */
    predicate Again() { Cut() || (pred.Some? && pred.value.how.Relocates()) }

    function Orphans(): nat { if Cut() then 1 else 0 }

    /** The commits of this turn, in order. */
    function Visits(): seq<Stop> {
      (if parent.Some? then [parent.value] else []) + (if !Cut() && pred.Some? then [pred.value] else [])
    }

    /** Whether a pending move is completed on the way. */
    predicate Completes() {
      (parent.Some? && parent.value.moveHere) || (!Cut() && pred.Some? && pred.value.moveHere)
    }

    predicate Within(n: nat) {
      && (parent.Some? ==> pred.Some? && parent.value.pair < n)
      && (pred.Some? ==> pred.value.pair < n)
    }
  }

  /** The loop runs as long as something had to move. */
  predicate Script(how: How, turns: seq<Turn>) {
    && (how.Relocates() <==> turns != [])
    && forall k :: 0 <= k < |turns| ==> (turns[k].Again() <==> k + 1 < |turns|)
  }

  function AllVisits(turns: seq<Turn>): seq<Stop> {
    if turns == [] then [] else AllVisits(turns[..|turns| - 1]) + turns[|turns| - 1].Visits()
  }

  lemma NoTurns(turns: seq<Turn>)
    ensures Flagged(turns[..0]) == 0 && AllVisits(turns[..0]) == [] && StopsOf([]) == []
  {
  }

  lemma TurnsSnoc(turns: seq<Turn>, k: nat)
    requires k < |turns|
    ensures AllVisits(turns[..k + 1]) == AllVisits(turns[..k]) + turns[k].Visits()
    ensures Flagged(turns[..k + 1]) == Flagged(turns[..k]) + turns[k].Orphans()
    ensures Flagged(turns[..k]) <= k
  {
    assert turns[..k + 1][..k] == turns[..k];
    FlaggedBound(turns[..k]);
  }

  /// ---- Commits in a row -----------------------------------------------------------------

  /** One commit, with the state in memory that it stored. */
  datatype Step = Step(before: Kept, after: Kept, stop: Stop, gstate: Word)

  function StopsOf(steps: seq<Step>): seq<Stop> {
    if steps == [] then [] else StopsOf(steps[..|steps| - 1]) + [steps[|steps| - 1].stop]
  }

  /** The commits lead from `a` to `b`, each writing to its own pair. */
  ghost predicate Chained(a: Kept, b: Kept, steps: seq<Step>)
    decreases |steps|
  {
    if steps == [] then a == b
    else
      var last := steps[|steps| - 1];
      && last.after == b && Wrote(last.before, b, last.stop.pair, last.stop.how, last.gstate)
      && Chained(a, last.before, steps[..|steps| - 1])
  }

  lemma ChainedNone(a: Kept)
    ensures Chained(a, a, [])
  {
  }

  lemma AddStep(a: Kept, b: Kept, c: Kept, steps: seq<Step>, stop: Stop, gstate: Word) returns (more: seq<Step>)
    requires Chained(a, b, steps) && Wrote(b, c, stop.pair, stop.how, gstate)
    ensures Chained(a, c, more) && StopsOf(more) == StopsOf(steps) + [stop]
  {
    hide Wrote;
    more := steps + [Step(b, c, stop, gstate)];
    assert more[..|steps|] == steps;
  }

  lemma {:induction false} ChainedConcat(a: Kept, b: Kept, c: Kept, steps: seq<Step>, more: seq<Step>)
    requires Chained(a, b, steps) && Chained(b, c, more)
    ensures Chained(a, c, steps + more)
    decreases |more|
  {
    hide Wrote;
    if more == [] {
      assert steps + more == steps;
    } else {
      ChainedConcat(a, b, more[|more| - 1].before, steps, more[..|more| - 1]);
      assert (steps + more)[..|steps + more| - 1] == steps + more[..|more| - 1];
    }
  }

  lemma {:induction false} StopsConcat(steps: seq<Step>, more: seq<Step>)
    ensures StopsOf(steps + more) == StopsOf(steps) + StopsOf(more)
    decreases |more|
  {
    if more == [] {
      assert steps + more == steps;
    } else {
      StopsConcat(steps, more[..|more| - 1]);
      assert (steps + more)[..|steps + more| - 1] == steps + more[..|more| - 1];
    }
  }

  lemma WroteSizes(a: Kept, b: Kept, i: nat, how: How, gstate: Word)
    requires Wrote(a, b, i, how, gstate)
    ensures |b.pairs| == |a.pairs| + how.Splits() && b.gdelta == {}
    ensures b.gdisk == if how.Stays() then gstate else a.gdisk
  {
  }

  /** Where pair `x` stands after the commits: tails split off in front of it move it up. */
  function Place(x: nat, steps: seq<Step>): nat
    decreases |steps|
  {
    if steps == [] then x
    else
      var y, last := Place(x, steps[..|steps| - 1]), steps[|steps| - 1].stop;
      if y <= last.pair then y else y + last.how.Splits()
  }

  predicate Visited(x: nat, steps: seq<Step>)
    decreases |steps|
  {
    steps != [] &&
    (Visited(x, steps[..|steps| - 1]) || Place(x, steps[..|steps| - 1]) == steps[|steps| - 1].stop.pair)
  }

  /** A pair that none of the commits writes to keeps its log. */
  lemma {:induction false} ChainKeeps(a: Kept, b: Kept, steps: seq<Step>, x: nat)
    requires Chained(a, b, steps) && x < |a.pairs| && !Visited(x, steps)
    ensures Place(x, steps) < |b.pairs| && b.pairs[Place(x, steps)] == a.pairs[x]
    decreases |steps|
  {
    if steps != [] {
      var init, last := steps[..|steps| - 1], steps[|steps| - 1];
      ChainKeeps(a, last.before, init, x);
      WroteElsewhere(last.before, b, last.stop.pair, last.stop.how, last.gstate, Place(x, init));
      hide Wrote;
    }
  }

  lemma WroteElsewhere(a: Kept, b: Kept, i: nat, how: How, gstate: Word, y: nat)
    requires Wrote(a, b, i, how, gstate) && y < |a.pairs| && y != i
    ensures
      var z := if y <= i then y else y + how.Splits();
      z < |b.pairs| && b.pairs[z] == a.pairs[y]
  {
    hide Latest, Sum, Share, Fresh, Change;
    if y < i {
      assert b.pairs[..i][y] == a.pairs[..i][y];
    } else {
      assert b.pairs[i + 1 + how.Splits()..][y - i - 1] == a.pairs[i + 1..][y - i - 1];
    }
  }

  /** The orphans left flagged by a run of turns. */
  function Flagged(turns: seq<Turn>): nat {
    if turns == [] then 0 else Flagged(turns[..|turns| - 1]) + turns[|turns| - 1].Orphans()
  }

  lemma {:induction false} FlaggedBound(turns: seq<Turn>)
    ensures Flagged(turns) <= |turns|
  {
    if turns != [] {
      FlaggedBound(turns[..|turns| - 1]);
    }
  }

  lemma MountStep(sum: Word, d: Word, older: bool)
    requires OnDisk(sum) && OnDisk(d)
    ensures var mark: Word := if older then {73} else {};
      Xor(sum + mark, d) == Xor(sum, d) + mark
  {
  }

  lemma Value1()
    ensures Pow2(10) == 1024
  {
    assert Pow2(5) == 32;
  }

  lemma SizeReads(w: Word, size: nat)
    requires size < 0x400
    ensures Size(WithSize(w, size)) == size
  {
    Value1();
    BitsRange(size, 64, 10);
    ValueBits(size, 64, 10, (w - SIZE_FIELD - {FLAG}) + if size != 0 then {FLAG} else {});
    assert WithSize(w, size) == OneBits(size, 64) + ((w - SIZE_FIELD - {FLAG}) + if size != 0 then {FLAG} else {});
  }

  /// ---- A recorded move survives ------------------------------------------------------------

  /** A field depends on its own bits only. */
  lemma {:induction false} ValueLocal(a: Word, b: Word, at: nat, width: nat)
    requires forall k :: at <= k < at + width ==> (k in a <==> k in b)
    ensures Value(a, at, width) == Value(b, at, width)
    decreases width
  {
    if width > 0 {
      ValueLocal(a, b, at + 1, width - 1);
    }
  }

  lemma FieldReads(w: Word, n: nat, at: nat, width: nat)
    requires n < Pow2(width)
    requires forall k :: at <= k < at + width ==> (k in w <==> k in OneBits(n, at))
    ensures Value(w, at, width) == n
  {
    ValueBits(n, at, width, {});
    assert OneBits(n, at) + {} == OneBits(n, at);
    ValueLocal(w, OneBits(n, at), at, width);
  }

  lemma DeleteTypeBits()
    ensures OneBits(DELETE_TYPE, 84) == {84, 85, 86, 87, 88, 89, 90, 91, 94}
    ensures OneBits(4, 92) == {94} && 4 < Pow2(3)
  {
    assert OneBits(1, 94) == {94} && OneBits(4, 92) == {94};
    assert OneBits(9, 91) == {91, 94};
    assert OneBits(39, 89) == {89, 90, 91, 94};
    assert OneBits(159, 87) == {87, 88, 89, 90, 91, 94};
    assert OneBits(639, 85) == {85, 86, 87, 88, 89, 90, 91, 94};
  }

  /** The four parts of a recorded move do not overlap. */
  lemma MoveBitsApart(m: Move, k: nat)
    requires m.Move? && ValidMove(m)
    ensures k < 32 ==> (k in MoveBits(m) <==> k in OneBits(m.p1, 0))
    ensures 32 <= k < 64 ==> (k in MoveBits(m) <==> k in OneBits(m.p0, 32))
    ensures 74 <= k < 84 ==> (k in MoveBits(m) <==> k in OneBits(m.id, 74))
    ensures 92 <= k < 95 ==> (k in MoveBits(m) <==> k in OneBits(4, 92))
  {
    Value1();
    DeleteTypeBits();
    hide OneBits, Pow2;
    BitsRange(m.p1, 0, 32);
    BitsRange(m.p0, 32, 32);
    BitsRange(m.id, 74, 10);
  }

  lemma MoveFieldReads(w: Word, m: Move, disk: Word, n: nat, at: nat, width: nat)
    requires Mask(disk) == Mask(WithMove(w, m)) && n < Pow2(width)
    requires at + width <= 64 || 74 <= at <= at + width <= 95
    requires forall k :: at <= k < at + width ==> (k in MoveBits(m) <==> k in OneBits(n, at))
    ensures Value(disk, at, width) == n
  {
    hide OneBits, MoveBits, Pow2, Value;
    forall k | at <= k < at + width
      ensures k in disk <==> k in OneBits(n, at)
    {
      assert k in MOVE_FIELDS && k !in SIZE_FIELD;
      assert k in Mask(disk) <==> k in Mask(WithMove(w, m));
    }
    FieldReads(disk, n, at, width);
  }

  lemma {:induction false} ValueBound(w: Word, at: nat, width: nat)
    ensures Value(w, at, width) < Pow2(width)
    decreases width
  {
    if width > 0 {
      ValueBound(w, at + 1, width - 1);
    }
  }

  lemma SizeBound(w: Word)
    ensures Size(w) < 0x400
  {
    Value1();
    hide Pow2, Value;
    ValueBound(w, 64, 10);
  }

  lemma SizeElsewhere(w: Word, size: nat, k: nat)
    requires size < 0x400 && (k < 64 || 74 <= k < 95)
    ensures k in WithSize(w, size) <==> k in w
  {
    Value1();
    hide OneBits, Pow2;
    BitsRange(size, 64, 10);
  }

  /** The orphan count and the recorded move do not touch each other. */
  lemma SizeApart(w: Word, size: nat)
    requires size < 0x400
    ensures Size(WithSize(w, size)) == size
    ensures ReadMove(WithSize(w, size)) == ReadMove(w)
  {
    hide OneBits, Pow2, Value, WithSize;
    SizeReads(w, size);
    forall k: nat | k < 64 || 74 <= k < 95
      ensures k in WithSize(w, size) <==> k in w
    {
      SizeElsewhere(w, size, k);
    }
    ValueLocal(WithSize(w, size), w, 92, 3);
    ValueLocal(WithSize(w, size), w, 74, 10);
    ValueLocal(WithSize(w, size), w, 32, 32);
    ValueLocal(WithSize(w, size), w, 0, 32);
  }

  lemma MoveApart(w: Word)
    ensures Size(WithMove(w, NoMove)) == Size(w)
    ensures ReadMove(WithMove(w, NoMove)) == NoMove
  {
    ValueLocal(WithMove(w, NoMove), w, 64, 10);
    MoveReadsBack(w, NoMove, WithMove(w, NoMove));
    hide Value;
  }

  /** What lfs_fs_prepmove notes is what the readers of the state see, also after
      the size field was masked off on the way to disk and set again by a mount. */
  lemma MoveReadsBack(w: Word, m: Move, disk: Word)
    requires ValidMove(m)
    requires Mask(disk) == Mask(WithMove(w, m))
    ensures ReadMove(disk) == m
  {
    Value1();
    DeleteTypeBits();
    if m.Move? {
      forall k: nat
        ensures k < 32 ==> (k in MoveBits(m) <==> k in OneBits(m.p1, 0))
        ensures 32 <= k < 64 ==> (k in MoveBits(m) <==> k in OneBits(m.p0, 32))
        ensures 74 <= k < 84 ==> (k in MoveBits(m) <==> k in OneBits(m.id, 74))
        ensures 92 <= k < 95 ==> (k in MoveBits(m) <==> k in OneBits(4, 92))
      {
        MoveBitsApart(m, k);
      }
      hide OneBits, Mask, MoveBits, Pow2, Value, WithMove;
      MoveFieldReads(w, m, disk, 4, 92, 3);
      MoveFieldReads(w, m, disk, m.id, 74, 10);
      MoveFieldReads(w, m, disk, m.p0, 32, 32);
      MoveFieldReads(w, m, disk, m.p1, 0, 32);
    } else {
      assert MoveBits(m) == OneBits(0, 92) == {};
      hide OneBits, Mask, MoveBits, Value, WithMove;
      MoveFieldReads(w, m, disk, 0, 92, 3);
    }
  }
}
