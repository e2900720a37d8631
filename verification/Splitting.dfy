/** Splitting a directory that no longer fits one metadata pair. Proved: the
    pieces, chained by hard tails, are the directory that was split. */
module Splitting {
  import opened BitMath
  import opened Options
  import opened Tags
  import opened MetadataLog
  import opened Compaction

  /** The part of the configuration that sizes a split. */
  datatype Config = Config(blockSize: nat, metadataMax: nat, progSize: nat) {
    predicate Valid() { progSize > 0 && blockSize >= 128 }

    /** Half a block rounded up to the program size, but never so much that
        tail, global state, move delete and CRC (40 bytes) no longer fit. */
    function SplitLimit(): nat
      requires Valid()
    {
      var max := if metadataMax != 0 then metadataMax else blockSize;
      var half := max / 2 + progSize - 1;
      var aligned := half - half % progSize;
      if blockSize - 40 < aligned then blockSize - 40 else aligned
    }
  }

  /** Bytes that a list of entries takes in a block. */
  function Size(out: seq<Entry>): nat {
    if out == [] then 0 else Size(out[..|out| - 1]) + out[|out| - 1].tag.DSize()
  }

  /** A lookup through a chain of hard tails. */
  function ChainAnswer(pieces: seq<seq<Entry>>, id: nat, q: Query): Option<Write> {
    if pieces == [] then None
    else
      var n := |Replay(pieces[0])|;
      if id < n then Answer(pieces[0], id, q) else ChainAnswer(pieces[1..], id - n, q)
  }

  /** The entries of a whole chain. */
  function ChainCount(pieces: seq<seq<Entry>>): nat {
    if pieces == [] then 0 else |Replay(pieces[0])| + ChainCount(pieces[1..])
  }

  lemma {:induction false} ChainEnds(pieces: seq<seq<Entry>>, id: nat, q: Query)
    requires id >= ChainCount(pieces)
    ensures ChainAnswer(pieces, id, q).None?
    decreases |pieces|
  {
    if pieces != [] {
      ChainEnds(pieces[1..], id - |Replay(pieces[0])|, q);
    }
  }

  /** `pieces` are the compactions of the consecutive ranges given by `cuts`. */
  ghost predicate Pieces(all: seq<Entry>, count: nat, cuts: seq<nat>, pieces: seq<seq<Entry>>) {
    && |cuts| == |pieces| + 1
    && cuts[0] <= count
    && if pieces == [] then cuts[0] == count
       else
         && cuts[0] <= cuts[1]
         && pieces[0] == Compacted(all, cuts[0], cuts[1])
         && Pieces(all, count, cuts[1..], pieces[1..])
  }

  lemma FirstPiece(all: seq<Entry>, count: nat, cuts: seq<nat>, pieces: seq<seq<Entry>>)
    requires Pieces(all, count, cuts, pieces) && cuts[0] < count
    ensures pieces != [] && |cuts| >= 2 && cuts[0] <= cuts[1] <= count && cuts[1..][0] == cuts[1]
    ensures pieces[0] == Compacted(all, cuts[0], cuts[1]) && Pieces(all, count, cuts[1..], pieces[1..])
  {
    hide Compacted;
  }

  lemma {:induction false} PiecesAnswer(all: seq<Entry>, cuts: seq<nat>, pieces: seq<seq<Entry>>, id: nat, slot: Kind)
    requires WellFormed(all) && AllNamed(Replay(all)) && AttrKind(slot)
    requires Pieces(all, |Replay(all)|, cuts, pieces) && cuts[0] <= id < |Replay(all)|
    ensures ChainAnswer(pieces, id - cuts[0], SlotQuery(slot)) == Answer(all, id, SlotQuery(slot))
    decreases |pieces|
  {
    hide AllNamed, Answer, Compacted, Pieces, Replay, WellFormed;
    FirstPiece(all, |Replay(all)|, cuts, pieces);
    PieceStep(all, cuts[0], cuts[1], id, slot);
    if cuts[1] <= id {
      PiecesAnswer(all, cuts[1..], pieces[1..], id, slot);
    }
  }

  lemma PieceStep(all: seq<Entry>, begin: nat, mid: nat, id: nat, slot: Kind)
    requires WellFormed(all) && AllNamed(Replay(all)) && AttrKind(slot)
    requires begin <= mid <= |Replay(all)| && begin <= id
    ensures |Replay(Compacted(all, begin, mid))| == mid - begin
    ensures id < mid ==>
              Answer(Compacted(all, begin, mid), id - begin, SlotQuery(slot)) == Answer(all, id, SlotQuery(slot))
  {
    CompactionCount(all, begin, mid);
    if id < mid {
      CompactionPreserves(all, begin, mid, id, slot);
    }
  }

  lemma PiecesFront(all: seq<Entry>, begin: nat, count: nat, cuts: seq<nat>, pieces: seq<seq<Entry>>)
    requires Pieces(all, count, cuts, pieces) && begin <= cuts[0]
    ensures Pieces(all, count, [begin] + cuts, [Compacted(all, begin, cuts[0])] + pieces)
  {
    assert ([begin] + cuts)[1..] == cuts;
    assert ([Compacted(all, begin, cuts[0])] + pieces)[1..] == pieces;
  }

  /** Every piece is a log of its own, and together they have the entries of the range. */
  lemma {:induction false} PiecesCount(all: seq<Entry>, cuts: seq<nat>, pieces: seq<seq<Entry>>)
    requires WellFormed(all) && AllNamed(Replay(all)) && Pieces(all, |Replay(all)|, cuts, pieces)
    ensures ChainCount(pieces) == |Replay(all)| - cuts[0]
    ensures forall i :: 0 <= i < |pieces| ==> WellFormed(pieces[i]) && AllNamed(Replay(pieces[i]))
    decreases |pieces|
  {
    hide AllNamed, Compacted, Replay, WellFormed;
    if pieces != [] {
      assert cuts[1..][0] == cuts[1];
      PiecesCount(all, cuts[1..], pieces[1..]);
      CompactedWellFormed(all, cuts[0], cuts[1]);
      CompactionCount(all, cuts[0], cuts[1]);
      assert pieces == [pieces[0]] + pieces[1..];
    }
  }

  /** The whole chain is the directory of the log it was made from: as many entries,
      and the same answer at every id. */
  lemma PiecesChain(all: seq<Entry>, cuts: seq<nat>, pieces: seq<seq<Entry>>)
    requires WellFormed(all) && AllNamed(Replay(all))
    requires Pieces(all, |Replay(all)|, cuts, pieces) && cuts[0] == 0
    ensures ChainCount(pieces) == |Replay(all)|
    ensures forall i :: 0 <= i < |pieces| ==> WellFormed(pieces[i]) && AllNamed(Replay(pieces[i]))
    ensures forall id: nat, slot: Kind :: AttrKind(slot) ==>
              ChainAnswer(pieces, id, SlotQuery(slot)) == Answer(all, id, SlotQuery(slot))
  {
    PiecesCount(all, cuts, pieces);
    hide AllNamed, ChainAnswer, ChainCount, Pieces, Replay, WellFormed;
    forall id: nat, slot: Kind | AttrKind(slot)
      ensures ChainAnswer(pieces, id, SlotQuery(slot)) == Answer(all, id, SlotQuery(slot))
    {
      if id < |Replay(all)| {
        PiecesAnswer(all, cuts, pieces, id, slot);
      } else {
        ChainEnds(pieces, id, SlotQuery(slot));
      }
    }
  }

  /** A piece that was split off holds one entry or keeps to the limit. */
  predicate Fits(cfg: Config, n: nat, piece: seq<Entry>)
    requires cfg.Valid()
  {
    n <= 1 || (n < 0xff && Size(piece) <= cfg.SplitLimit())
  }

  predicate AllFit(cfg: Config, pieces: seq<seq<Entry>>)
    requires cfg.Valid()
  {
    forall i :: 0 <= i < |pieces| ==> Fits(cfg, |Replay(pieces[i])|, pieces[i])
  }

  /** The split lies halfway between an earlier one and the end. */
  predicate Halves(p: nat, begin: nat, split: nat, end: nat) {
    begin <= p < split <= end && split == p + (end - p) / 2
  }

  /** An entry takes its tag of four bytes and its data, if it is not a deletion. */
  lemma {:induction false} SizeAdds(a: seq<Entry>, b: seq<Entry>, e: Entry)
    ensures Size(a + b) == Size(a) + Size(b)
    ensures Size([e]) == 4 + if e.tag.size == 0x3ff then 0 else e.tag.size
    decreases |b|
  {
    assert [e][..0] == [];
    if b == [] {
      assert a + b == a;
    } else {
      SizeAdds(a, b[..|b| - 1], e);
      assert (a + b)[..|a + b| - 1] == a + b[..|b| - 1];
    }
  }

  /** The limit is half of the space for metadata, rounded up to whole programs, or what
      leaves 40 bytes of the block, whichever is less. */
  lemma SplitLimitIs(cfg: Config, up: nat)
    requires cfg.Valid() && up % cfg.progSize == 0
    requires
      var half := (if cfg.metadataMax != 0 then cfg.metadataMax else cfg.blockSize) / 2;
      half <= up < half + cfg.progSize
    ensures cfg.SplitLimit() <= up && cfg.SplitLimit() + 40 <= cfg.blockSize
    ensures cfg.SplitLimit() == up || cfg.SplitLimit() + 40 == cfg.blockSize
  {
    var half := (if cfg.metadataMax != 0 then cfg.metadataMax else cfg.blockSize) / 2;
    RoundedUp(half, cfg.progSize);
    var x := half + cfg.progSize - 1;
    OneMultiple(x - x % cfg.progSize, up, half, cfg.progSize);
  }

  /** There is one multiple in every stretch of that length. */
  lemma OneMultiple(a: nat, b: nat, x: nat, n: nat)
    requires n > 0 && a % n == 0 && b % n == 0 && x <= a < x + n && x <= b < x + n
    ensures a == b
  {
    assert a == a / n * n && b == b / n * n;
    if a / n < b / n {
      MulLess(a / n, b / n, n);
    } else if b / n < a / n {
      MulLess(b / n, a / n, n);
    }
  }

  /** A piece of several entries leaves 40 bytes of the block free, and takes no more
      than half of the space for metadata, rounded up to whole programs. */
  lemma FittingLeavesRoom(cfg: Config, n: nat, piece: seq<Entry>)
    requires cfg.Valid() && n > 1 && Fits(cfg, n, piece)
    ensures Size(piece) + 40 <= cfg.blockSize && n < 255
    ensures
      var half := (if cfg.metadataMax != 0 then cfg.metadataMax else cfg.blockSize) / 2;
      exists up :: half <= up < half + cfg.progSize && up % cfg.progSize == 0 && Size(piece) <= up
  {
    var half := (if cfg.metadataMax != 0 then cfg.metadataMax else cfg.blockSize) / 2;
    RoundedUp(half, cfg.progSize);
  }

  lemma MultipleMod(q: nat, n: nat)
    requires n > 0
    ensures q * n % n == 0
  {
    DivMod(q * n, n, q, 0);
  }

  lemma RoundedUp(x: nat, n: nat)
    requires n > 0
    ensures
      var up := x + n - 1 - (x + n - 1) % n;
      x <= up < x + n && up % n == 0
  {
    var y := x + n - 1;
    assert y == y / n * n + y % n;
    MultipleMod(y / n, n);
  }

  /** The halving search for a first split that is guaranteed to fit. */
  method FindSplit(cfg: Config, log: seq<Entry>, attrs: seq<Entry>, begin: nat, end: nat) returns (split: nat)
    requires cfg.Valid() && begin <= end
    ensures begin <= split <= end && (begin < end ==> split < end)
    ensures Fits(cfg, end - split, Compacted(log + attrs, split, end))
    ensures split == begin <==> Fits(cfg, end - begin, Compacted(log + attrs, begin, end))
    ensures split != begin ==>
              exists p :: Halves(p, begin, split, end) && !Fits(cfg, end - p, Compacted(log + attrs, p, end))
  {
    split := begin;
    while end - split > 1
      invariant begin <= split <= end && (begin < end ==> split < end)
      invariant split != begin ==> !Fits(cfg, end - begin, Compacted(log + attrs, begin, end))
      invariant split != begin ==>
                  exists p :: Halves(p, begin, split, end) && !Fits(cfg, end - p, Compacted(log + attrs, p, end))
    {
      var out := Traverse(log, attrs, split, end);
      if end - split < 0xff && Size(out) <= cfg.SplitLimit() {
        break;
      }
      assert Halves(split, begin, split + (end - split) / 2, end);
      split := split + (end - split) / 2;
    }
  }

  /** The splitting loop: split off the end while it does not fit and a new pair
      can still be allocated (`room` of them). */
  method SplitTails(cfg: Config, log: seq<Entry>, attrs: seq<Entry>, room: nat)
    returns (tails: seq<seq<Entry>>, end: nat, ghost cuts: seq<nat>)
    requires cfg.Valid() && WellFormed(log + attrs) && AllNamed(Replay(log + attrs))
    ensures Pieces(log + attrs, |Replay(log + attrs)|, cuts, tails) && cuts[0] == end
    ensures AllFit(cfg, tails) && |tails| <= room
    ensures |tails| < room ==> Fits(cfg, end, Compacted(log + attrs, 0, end))
  {
    ghost var all := log + attrs;
    end := CountEntries(log + attrs);
    ghost var count := end;
    tails, cuts := [], [end];
    while true
      invariant |tails| <= room && count == |Replay(all)|
      invariant Pieces(all, count, cuts, tails) && cuts[0] == end <= count
      invariant AllFit(cfg, tails)
      decreases room - |tails|
    {
      var split := FindSplit(cfg, log, attrs, 0, end);
      if split == 0 || |tails| == room {
        return;
      }
      var tail := Traverse(log, attrs, split, end);
      PiecesFront(all, split, count, cuts, tails);
      CompactionCount(all, split, end);
      tails, cuts, end := [tail] + tails, [split] + cuts, split;
    }
  }

  /** lfs_dir_splittingcompact: split, possibly move everything off the superblock
      pair (`expand`), then compact what is left into the pair itself. */
  method SplittingCompact(cfg: Config, log: seq<Entry>, attrs: seq<Entry>, room: nat, expand: bool)
    returns (pieces: seq<seq<Entry>>)
    requires cfg.Valid() && WellFormed(log + attrs) && AllNamed(Replay(log + attrs))
    ensures 1 <= |pieces| <= room + 2 && ChainCount(pieces) == |Replay(log + attrs)|
    ensures forall i :: 0 <= i < |pieces| ==> WellFormed(pieces[i]) && AllNamed(Replay(pieces[i]))
    ensures forall id: nat, slot: Kind :: AttrKind(slot) ==>
              ChainAnswer(pieces, id, SlotQuery(slot)) == Answer(log + attrs, id, SlotQuery(slot))
    ensures expand ==> |pieces| >= 2 && Replay(pieces[0]) == []
    ensures AllFit(cfg, pieces[if expand then 2 else 1..])
    ensures !expand && |pieces| <= room ==> Fits(cfg, |Replay(pieces[0])|, pieces[0])
  {
    ghost var all := log + attrs;
    var tails, end, cuts := SplitTails(cfg, log, attrs, room);
    ghost var count := |Replay(all)|;
    ghost var split := tails;
    CompactionCount(all, 0, end);
    if expand {
      var tail := Traverse(log, attrs, 0, end);
      PiecesFront(all, 0, count, cuts, tails);
      tails, cuts, end := [tail] + tails, [0] + cuts, 0;
      CompactionCount(all, 0, end);
    }
    var head := Traverse(log, attrs, 0, end);
    PiecesFront(all, 0, count, cuts, tails);
    pieces, cuts := [head] + tails, [0] + cuts;
    assert pieces[if expand then 2 else 1..] == split;
    PiecesChain(all, cuts, pieces);
  }

  /** The entry count that lfs_dir_fetchmatch gathers while scanning a log. */
  method CountEntries(log: seq<Entry>) returns (count: nat)
    requires WellFormed(log)
    ensures count == |Replay(log)|
  {
    count := 0;
    var i := 0;
    assert log[..0] == [];
    while i < |log|
      invariant 0 <= i <= |log|
      invariant count == |Replay(log[..i])|
    {
      WellFormedPrefix(log, i + 1);
      assert log[..i + 1][..i] == log[..i];
      PadAt(Replay(log[..i]), log[i].tag.id);
      var tag := log[i].tag;
      if tag.kind.cls.Name? {
        if tag.id >= count {
          count := tag.id + 1;
        }
      } else if tag.kind.cls.Splice? {
        count := count + Signed(tag.kind.chunk);
      }
      i := i + 1;
    }
    assert log[..i] == log;
  }

  /** The walk that moves an open entry to the piece it now lives in. */
  method FollowSplit(pieces: seq<seq<Entry>>, id: nat) returns (k: nat, local: nat)
    requires |pieces| > 0 && forall i :: 0 <= i < |pieces| ==> WellFormed(pieces[i])
    ensures k < |pieces|
    ensures forall q :: Answer(pieces[k], local, q) == ChainAnswer(pieces, id, q)
  {
    k, local := 0, id;
    while true
      invariant k < |pieces|
      invariant forall q :: ChainAnswer(pieces[k..], local, q) == ChainAnswer(pieces, id, q)
      decreases |pieces| - k
    {
      var count := CountEntries(pieces[k]);
      forall q
        ensures ChainAnswer(pieces[k..], local, q) ==
                if local < count then Answer(pieces[k], local, q) else ChainAnswer(pieces[k + 1..], local - count, q)
      {
        assert pieces[k..][1..] == pieces[k + 1..];
      }
      if local < count || k + 1 == |pieces| {
        return;
      }
      k, local := k + 1, local - count;
    }
  }
}
