/** Compaction rewrites a log through lfs_dir_traverse and its filter. Proved:
    the rewritten log answers every lookup as the original does, also when the
    directory is split over several metadata pairs. */
module Compaction {
  import opened Options
  import opened Tags
  import opened MetadataLog

  /// ---- lfs_dir_traverse_filter -------------------------------------------

  /** Two writes of the same entry go to the same slot: names and structs are
      replaced by class, user attributes by exact type. */
  predicate SameSlot(a: Kind, b: Kind) {
    a.cls == b.cls && (a.cls.UserAttr? ==> a.chunk == b.chunk)
  }

  /** The mask the filter derives from the later tag: types with bit 0x100 set
      compare exactly, the others by class. */
  function FilterMask(kind: Kind): Mask {
    match kind.cls
    case Name | Struct | Splice | Tail => ByClass
    case From | UserAttr | Crc | Globals => Exact
  }

  /** lfs_dir_traverse_filter on one later entry `e`: drop the tag, or carry its
      id over a splice. */
  function FilterStep(t: Tag, e: Entry): Option<Tag> {
    if (SameKind(FilterMask(e.tag.kind), e.tag.kind, t.kind) && e.tag.id == t.id)
       || t.IsDelete()
       || (IsDelete(e) && e.tag.id == t.id)
    then None
    else if IsSplice(e) && e.tag.id <= t.id then
      if t.id + Signed(e.tag.kind.chunk) < 0 then None
      else Some(t.(id := t.id + Signed(e.tag.kind.chunk)))
    else Some(t)
  }

  /** The filter over all entries that follow the tag. */
  function Filter(t: Tag, rest: seq<Entry>): Option<Tag> {
    if rest == [] then Some(t)
    else
      match Filter(t, rest[..|rest| - 1])
      case None => None
      case Some(t') => FilterStep(t', rest[|rest| - 1])
  }

  /// ---- What a traversal emits ---------------------------------------------

  function Keep(e: Entry, t: Option<Tag>): seq<Entry> {
    if t.Some? then [Entry(t.value, e.data)] else []
  }

  /** Carry a list of surviving entries over one more log entry. */
  function FilterAll(out: seq<Entry>, e: Entry): seq<Entry> {
    if out == [] then []
    else
      var n := |out| - 1;
      FilterAll(out[..n], e) + Keep(out[n], FilterStep(out[n].tag, e))
  }

  /** The unique live entries of a log, all ids. */
  function Unique(all: seq<Entry>): seq<Entry> {
    if all == [] then []
    else
      var n := |all| - 1;
      FilterAll(Unique(all[..n]), all[n]) + if IsAttr(all[n]) then [all[n]] else []
  }

  /** An entry as it appears in the output for a range: moved down, or left out. */
  function Cut(e: Entry, begin: nat, end: nat): seq<Entry> {
    if begin <= e.tag.id < end then [Entry(e.tag.(id := e.tag.id - begin), e.data)] else []
  }

  /** The entries with an id in [begin, end), moved down to start at 0. */
  function Slice(out: seq<Entry>, begin: nat, end: nat): seq<Entry> {
    if out == [] then []
    else
      var n := |out| - 1;
      var e := out[n];
      Slice(out[..n], begin, end) + Cut(e, begin, end)
  }

  /** The directory part of the log that lfs_dir_compact writes. */
  function Compacted(all: seq<Entry>, begin: nat, end: nat): seq<Entry> {
    Slice(Unique(all), begin, end)
  }

  /// ---- The unique entries mirror replay -----------------------------------

  predicate AttrKind(k: Kind) {
    k.cls.Name? || k.cls.Struct? || k.cls.UserAttr?
  }

  /** The lookup that reads a slot. */
  function SlotQuery(slot: Kind): Query {
    Query(if slot.cls.UserAttr? then Exact else ByClass, slot)
  }

  /** The last entry of `out` for a slot of `id`. */
  function Find(out: seq<Entry>, id: nat, slot: Kind): Option<Entry> {
    if out == [] then None
    else
      var e := out[|out| - 1];
      if e.tag.id == id && SameSlot(e.tag.kind, slot) then Some(e)
      else Find(out[..|out| - 1], id, slot)
  }

  function Live(e: Option<Entry>): Option<Write> {
    if e.Some? && !e.value.tag.IsDelete() then Some(ToWrite(e.value)) else None
  }

  /** No slot is written twice. */
  predicate Distinct(out: seq<Entry>) {
    out == [] ||
    var init, e := out[..|out| - 1], out[|out| - 1];
    Distinct(init) && IsAttr(e) && Find(init, e.tag.id, e.tag.kind).None?
  }

  lemma FindSnoc(out: seq<Entry>, e: Entry, id: nat, slot: Kind)
    ensures Find(out + [e], id, slot) ==
            if e.tag.id == id && SameSlot(e.tag.kind, slot) then Some(e) else Find(out, id, slot)
    ensures Distinct(out + [e]) <==> Distinct(out) && IsAttr(e) && Find(out, e.tag.id, e.tag.kind).None?
  {
    assert (out + [e])[..|out|] == out;
  }

  lemma FindSlot(out: seq<Entry>, id: nat, a: Kind, b: Kind)
    requires SameSlot(a, b)
    ensures Find(out, id, a) == Find(out, id, b)
  {
  }

  /** Whether a later entry `e` drops the surviving entry `x`. */
  predicate Drops(e: Entry, x: Entry) {
    || x.tag.IsDelete()
    || (IsAttr(e) && e.tag.id == x.tag.id && SameSlot(e.tag.kind, x.tag.kind))
    || (IsDelete(e) && e.tag.id == x.tag.id)
  }

  lemma FilterStepId(x: Entry, e: Entry, id: nat)
    requires IsAttr(x) && (IsSplice(e) ==> IsCreate(e) || IsDelete(e))
    ensures FilterStep(x.tag, e).Some? <==> !Drops(e, x)
    ensures FilterStep(x.tag, e).Some? ==>
              && FilterStep(x.tag, e).value == x.tag.(id := FilterStep(x.tag, e).value.id)
              && (FilterStep(x.tag, e).value.id == id <==> Origin(e, id) == Some(x.tag.id))
    ensures Origin(e, id) == Some(x.tag.id) ==> !(IsDelete(e) && e.tag.id == x.tag.id)
  {
  }

  /** Filtering by one more entry moves every slot the way replay moves it. */
  lemma {:induction false} FindFilterAll(out: seq<Entry>, e: Entry, id: nat, slot: Kind)
    requires Distinct(out) && (IsSplice(e) ==> IsCreate(e) || IsDelete(e))
    ensures
      var r := Find(FilterAll(out, e), id, slot);
      match Origin(e, id)
      case None => r.None?
      case Some(o) =>
        match Find(out, o, slot)
        case None => r.None?
        case Some(x) =>
          r == if Drops(e, x) then None else Some(Entry(x.tag.(id := id), x.data))
    decreases |out|
  {
    if out != [] {
      var init, x := out[..|out| - 1], out[|out| - 1];
      FindFilterAll(init, e, id, slot);
      FilterStepId(x, e, id);
      assert FilterAll(out, e) == FilterAll(init, e) + Keep(x, FilterStep(x.tag, e));
      if Drops(e, x) {
        assert FilterAll(out, e) == FilterAll(init, e);
      } else {
        FindSnoc(FilterAll(init, e), Entry(FilterStep(x.tag, e).value, x.data), id, slot);
      }
      if SameSlot(x.tag.kind, slot) {
        FindSlot(init, x.tag.id, x.tag.kind, slot);
      }
    }
  }

  lemma FilterAllSnoc(init: seq<Entry>, x: Entry, e: Entry)
    ensures FilterAll(init + [x], e) == FilterAll(init, e) + Keep(x, FilterStep(x.tag, e))
  {
    assert (init + [x])[..|init|] == init;
  }

  lemma {:induction false} DistinctFilterAll(out: seq<Entry>, e: Entry)
    requires Distinct(out) && (IsSplice(e) ==> IsCreate(e) || IsDelete(e))
    ensures Distinct(FilterAll(out, e))
    decreases |out|
  {
    if out != [] {
      var init, x := out[..|out| - 1], out[|out| - 1];
      var t := FilterStep(x.tag, e);
      assert out == init + [x] && IsAttr(x) && Find(init, x.tag.id, x.tag.kind).None? && Distinct(init);
      hide Distinct, FilterAll, FilterStep, Find;
      DistinctFilterAll(init, e);
      FilterAllSnoc(init, x, e);
      FilterStepId(x, e, 0);
      if t.Some? {
        FilterStepId(x, e, t.value.id);
        FindFilterAll(init, e, t.value.id, x.tag.kind);
        FindSnoc(FilterAll(init, e), Entry(t.value, x.data), 0, x.tag.kind);
      } else {
        assert FilterAll(init, e) + [] == FilterAll(init, e);
      }
    }
  }

  lemma AppendableSplice(log: seq<Entry>)
    requires WellFormed(log) && log != []
    ensures WellFormed(log[..|log| - 1])
    ensures var e := log[|log| - 1]; IsSplice(e) ==> IsCreate(e) || IsDelete(e)
  {
  }

  /** One step of replay, slot by slot. */
  lemma ReplayStep(prev: seq<Entry>, e: Entry, id: nat, slot: Kind)
    requires WellFormed(prev + [e]) && AttrKind(slot)
    ensures
      var r := Answer(prev + [e], id, SlotQuery(slot));
      match Origin(e, id)
      case None => r.None?
      case Some(o) =>
        if IsAttr(e) && e.tag.id == id && SameSlot(e.tag.kind, slot) then r == Live(Some(e))
        else r == Answer(prev, o, SlotQuery(slot))
  {
    assert (prev + [e])[..|prev|] == prev;
    StepBack(prev + [e], id, SlotQuery(slot));
  }

  /** How one more log entry changes the surviving entries, slot by slot. */
  lemma UniqueStep(prev: seq<Entry>, e: Entry, id: nat, slot: Kind)
    requires Distinct(Unique(prev)) && (IsSplice(e) ==> IsCreate(e) || IsDelete(e))
    ensures Distinct(Unique(prev + [e]))
    ensures
      var r := Live(Find(Unique(prev + [e]), id, slot));
      match Origin(e, id)
      case None => r.None?
      case Some(o) =>
        if IsAttr(e) && e.tag.id == id && SameSlot(e.tag.kind, slot) then r == Live(Some(e))
        else r == Live(Find(Unique(prev), o, slot))
  {
    hide Answer, Distinct, Find, FilterAll;
    var out := Unique(prev);
    assert (prev + [e])[..|prev|] == prev;
    DistinctFilterAll(out, e);
    FindFilterAll(out, e, id, slot);
    if Origin(e, id).Some? {
      FindKind(out, Origin(e, id).value, slot);
    }
    if IsAttr(e) {
      FindFilterAll(out, e, e.tag.id, e.tag.kind);
      FindKind(out, e.tag.id, e.tag.kind);
      FindSnoc(FilterAll(out, e), e, id, slot);
    } else {
      assert Unique(prev + [e]) == FilterAll(out, e);
    }
  }

  /** The surviving entries of a log answer as replay does. */
  lemma {:induction false} UniqueAnswers(all: seq<Entry>, id: nat, slot: Kind)
    requires WellFormed(all) && AttrKind(slot)
    ensures Distinct(Unique(all))
    ensures Live(Find(Unique(all), id, slot)) == Answer(all, id, SlotQuery(slot))
    decreases |all|
  {
    if all != [] {
      var prev, e := all[..|all| - 1], all[|all| - 1];
      AppendableSplice(all);
      hide *;
      UniqueAnswers(prev, id, slot);
      assert all == prev + [e];
      UniqueStep(prev, e, id, slot);
      ReplayStep(prev, e, id, slot);
      if Origin(e, id).Some? {
        UniqueAnswers(prev, Origin(e, id).value, slot);
      }
    }
  }

  lemma FindKind(out: seq<Entry>, id: nat, slot: Kind)
    ensures var x := Find(out, id, slot);
      x.Some? ==> x.value.tag.id == id && SameSlot(x.value.tag.kind, slot)
  {
  }

  /// ---- The rewritten log is well formed -------------------------------------

  predicate SoundEntry(e: Entry) {
    && IsAttr(e)
    && e.tag.kind.chunk < 0x100 && e.tag.size < 0x400
    && (IsName(e) ==> e.tag.kind.chunk != 0 && !e.tag.IsDelete())
    && (!e.tag.IsDelete() ==> |e.data| == e.tag.size)
  }

  /** Every entry of the list comes after the name of its id. */
  predicate Tidy(out: seq<Entry>) {
    out == [] ||
    var init, e := out[..|out| - 1], out[|out| - 1];
    Tidy(init) && SoundEntry(e) && (IsName(e) || Find(init, e.tag.id, REG).Some?)
  }

  lemma TidyName(out: seq<Entry>, id: nat)
    requires Tidy(out)
    ensures var x := Find(out, id, REG);
      x.Some? ==> x.value.tag.id == id && IsName(x.value) && !x.value.tag.IsDelete()
  {
  }

  lemma TidySnoc(out: seq<Entry>, e: Entry)
    ensures Tidy(out + [e]) <==> Tidy(out) && SoundEntry(e) && (IsName(e) || Find(out, e.tag.id, REG).Some?)
  {
    assert (out + [e])[..|out|] == out;
  }

  lemma {:induction false} TidyFilterAll(out: seq<Entry>, e: Entry)
    requires Tidy(out) && Distinct(out) && (IsSplice(e) ==> IsCreate(e) || IsDelete(e))
    requires IsName(e) ==> Find(out, e.tag.id, REG).None?
    ensures Tidy(FilterAll(out, e))
    decreases |out|
  {
    if out != [] {
      var init, x := out[..|out| - 1], out[|out| - 1];
      var t := FilterStep(x.tag, e);
      assert out == init + [x];
      TidySnoc(init, x);
      FindSnoc(init, x, e.tag.id, REG);
      hide Distinct, FilterAll, FilterStep, Find, Tidy;
      TidyFilterAll(init, e);
      FilterAllSnoc(init, x, e);
      FilterStepId(x, e, 0);
      if t.Some? {
        FilterStepId(x, e, t.value.id);
        TidySnoc(FilterAll(init, e), Entry(t.value, x.data));
        TidyName(init, x.tag.id);
        FindFilterAll(init, e, t.value.id, REG);
      } else {
        assert FilterAll(init, e) + [] == FilterAll(init, e);
      }
    }
  }

  lemma AppendableAttr(prev: seq<Entry>, e: Entry)
    requires WellFormed(prev + [e])
    ensures WellFormed(prev) && (IsSplice(e) ==> IsCreate(e) || IsDelete(e))
    ensures IsAttr(e) ==> SoundEntry(e)
    ensures IsName(e) ==> Answer(prev, e.tag.id, NAME_QUERY).None?
    ensures IsAttr(e) && !IsName(e) ==> Answer(prev, e.tag.id, NAME_QUERY).Some?
  {
    assert (prev + [e])[..|prev|] == prev;
    if IsAttr(e) && e.tag.id < |Replay(prev)| {
      NameAnswer(prev, e.tag.id);
    }
  }

  lemma UniqueSnoc(prev: seq<Entry>, e: Entry)
    ensures Unique(prev + [e]) == FilterAll(Unique(prev), e) + if IsAttr(e) then [e] else []
  {
    assert (prev + [e])[..|prev|] == prev;
  }

  lemma {:induction false} UniqueTidy(all: seq<Entry>)
    requires WellFormed(all)
    ensures Tidy(Unique(all)) && Distinct(Unique(all))
    decreases |all|
  {
    if all != [] {
      var prev, e := all[..|all| - 1], all[|all| - 1];
      assert all == prev + [e];
      AppendableAttr(prev, e);
      hide Answer, Distinct, FilterAll, Find, Tidy, Unique, WellFormed;
      var out := Unique(prev);
      UniqueSnoc(prev, e);
      UniqueTidy(prev);
      UniqueAnswers(prev, e.tag.id, REG);
      TidyName(out, e.tag.id);
      TidyFilterAll(out, e);
      UniqueStep(prev, e, e.tag.id, REG);
      if IsAttr(e) {
        FindFilterAll(out, e, e.tag.id, REG);
        TidySnoc(FilterAll(out, e), e);
      } else {
        assert FilterAll(out, e) + [] == FilterAll(out, e);
      }
    }
  }

  /** An entry moved down into its range. */
  function Lowered(e: Entry, begin: nat): Entry
    requires begin <= e.tag.id
  {
    Entry(e.tag.(id := e.tag.id - begin), e.data)
  }

  lemma SliceSnoc(init: seq<Entry>, e: Entry, begin: nat, end: nat)
    ensures begin <= e.tag.id < end ==>
              Slice(init + [e], begin, end) == Slice(init, begin, end) + [Lowered(e, begin)]
    ensures !(begin <= e.tag.id < end) ==> Slice(init + [e], begin, end) == Slice(init, begin, end)
  {
    assert (init + [e])[..|init|] == init;
  }

  /** Cutting out a range of ids keeps the list tidy and only moves the ids. */
  lemma {:induction false} SliceFind(out: seq<Entry>, begin: nat, end: nat, id: nat, slot: Kind)
    requires begin <= id < end
    ensures
      var r := Find(Slice(out, begin, end), id - begin, slot);
      match Find(out, id, slot)
      case None => r.None?
      case Some(x) => r == Some(Entry(x.tag.(id := id - begin), x.data))
    decreases |out|
  {
    if out != [] {
      var init, e := out[..|out| - 1], out[|out| - 1];
      assert out == init + [e];
      SliceFind(init, begin, end, id, slot);
      SliceSnoc(init, e, begin, end);
      FindSnoc(init, e, id, slot);
      hide Find, Slice;
      if begin <= e.tag.id < end {
        FindSnoc(Slice(init, begin, end), Lowered(e, begin), id - begin, slot);
      }
    }
  }

  lemma {:induction false} SliceDistinct(out: seq<Entry>, begin: nat, end: nat)
    requires Distinct(out)
    ensures Distinct(Slice(out, begin, end))
    decreases |out|
  {
    hide Distinct, Find, SameSlot, Slice;
    if out == [] {
      NothingDistinct(begin, end);
    } else {
      var init, e := out[..|out| - 1], out[|out| - 1];
      assert out == init + [e];
      FindSnoc(init, e, 0, REG);
      SliceSnoc(init, e, begin, end);
      SliceDistinct(init, begin, end);
      if begin <= e.tag.id < end {
        SliceFind(init, begin, end, e.tag.id, e.tag.kind);
        FindSnoc(Slice(init, begin, end), Lowered(e, begin), 0, REG);
      }
    }
  }

  lemma NothingDistinct(begin: nat, end: nat)
    ensures Distinct(Slice([], begin, end))
  {
  }

  lemma {:induction false} SliceTidy(out: seq<Entry>, begin: nat, end: nat)
    requires Tidy(out)
    ensures Tidy(Slice(out, begin, end))
    decreases |out|
  {
    if out != [] {
      var init, e := out[..|out| - 1], out[|out| - 1];
      assert out == init + [e];
      TidySnoc(init, e);
      SliceSnoc(init, e, begin, end);
      hide Find, Slice, Tidy;
      SliceTidy(init, begin, end);
      if begin <= e.tag.id < end {
        SliceFind(init, begin, end, e.tag.id, REG);
        TidySnoc(Slice(init, begin, end), Lowered(e, begin));
      }
    }
  }

  lemma {:induction false} SliceIds(out: seq<Entry>, begin: nat, end: nat)
    ensures forall k :: 0 <= k < |Slice(out, begin, end)| ==> Slice(out, begin, end)[k].tag.id < end - begin
    decreases |out|
  {
    if out != [] {
      SliceIds(out[..|out| - 1], begin, end);
    }
  }

  /** A tidy list is a log of its own, and it reads as it is written. */
  lemma {:induction false} TidyReplay(out: seq<Entry>, m: nat, id: nat, slot: Kind)
    requires Tidy(out) && Distinct(out) && AttrKind(slot)
    requires m <= NO_ID && forall k :: 0 <= k < |out| ==> out[k].tag.id < m
    ensures WellFormed(out) && NoSplice(out) && |Replay(out)| <= m
    ensures Answer(out, id, SlotQuery(slot)) == Live(Find(out, id, slot))
    decreases |out|
  {
    if out != [] {
      var init, e := out[..|out| - 1], out[|out| - 1];
      assert out == init + [e];
      TidyReplay(init, m, id, slot);
      TidyReplay(init, m, e.tag.id, REG);
      TidyName(init, e.tag.id);
      if e.tag.id < |Replay(init)| {
        NameAnswer(init, e.tag.id);
      }
      if IsName(e) {
        FindSlot(init, e.tag.id, e.tag.kind, REG);
      }
      PadAt(Replay(init), e.tag.id);
      assert Appendable(init, e);
      assert (init + [e])[..|init|] == init;
      ReplayStep(init, e, id, slot);
    }
  }

  /// ---- Compaction preserves meaning -----------------------------------------

  lemma CompactedWellFormed(all: seq<Entry>, begin: nat, end: nat)
    requires WellFormed(all) && begin <= end <= |Replay(all)|
    ensures WellFormed(Compacted(all, begin, end)) && NoSplice(Compacted(all, begin, end))
    ensures |Replay(Compacted(all, begin, end))| <= end - begin
  {
    var out := Unique(all);
    UniqueTidy(all);
    SliceTidy(out, begin, end);
    SliceDistinct(out, begin, end);
    SliceIds(out, begin, end);
    CountBound(all);
    TidyReplay(Slice(out, begin, end), end - begin, 0, REG);
  }

  /** The compacted log answers every lookup in [begin, end) as the original
      log does, with the ids moved down by `begin`. */
  lemma CompactionPreserves(all: seq<Entry>, begin: nat, end: nat, id: nat, slot: Kind)
    requires WellFormed(all) && begin <= id < end <= |Replay(all)| && AttrKind(slot)
    ensures Answer(Compacted(all, begin, end), id - begin, SlotQuery(slot)) ==
            Answer(all, id, SlotQuery(slot))
  {
    hide Answer, Distinct, Find, Replay, Slice, Tidy, Unique, WellFormed;
    var out := Unique(all);
    UniqueTidy(all);
    SliceTidy(out, begin, end);
    SliceDistinct(out, begin, end);
    SliceIds(out, begin, end);
    CountBound(all);
    TidyReplay(Slice(out, begin, end), end - begin, id - begin, slot);
    SliceFind(out, begin, end, id, slot);
    UniqueAnswers(all, id, slot);
  }

  lemma CompactedNamed(all: seq<Entry>, begin: nat, end: nat, id: nat)
    requires WellFormed(all) && AllNamed(Replay(all)) && begin <= begin + id < end <= |Replay(all)|
    ensures WellFormed(Compacted(all, begin, end))
    ensures id < |Replay(Compacted(all, begin, end))| && HasName(Replay(Compacted(all, begin, end))[id])
  {
    CompactedWellFormed(all, begin, end);
    CompactionPreserves(all, begin, end, begin + id, REG);
    NameAnswer(all, begin + id);
    assert SlotQuery(REG) == NAME_QUERY;
    NameAnswer(Compacted(all, begin, end), id);
  }

  /** A compacted log has exactly the entries of its range, all named. */
  lemma CompactionCount(all: seq<Entry>, begin: nat, end: nat)
    requires WellFormed(all) && AllNamed(Replay(all)) && begin <= end <= |Replay(all)|
    ensures |Replay(Compacted(all, begin, end))| == end - begin
    ensures AllNamed(Replay(Compacted(all, begin, end)))
  {
    CompactedWellFormed(all, begin, end);
    if begin < end {
      CompactedNamed(all, begin, end, end - begin - 1);
    }
    forall id | 0 <= id < |Replay(Compacted(all, begin, end))|
      ensures HasName(Replay(Compacted(all, begin, end))[id])
    {
      CompactedNamed(all, begin, end, id);
    }
  }

  /** Entry names are found under a mask that hides the superblock; since a name
      is written once, this lookup follows from the lookup by class. */
  lemma {:induction false} VisibleAnswer(log: seq<Entry>, id: nat)
    requires WellFormed(log)
    ensures
      var n := Answer(log, id, NAME_QUERY);
      Answer(log, id, Query(Visible, REG)) ==
      if n.Some? && n.value.kind.chunk < 0x80 then n else None
  {
    hide Answer, Replay, WellFormed;
    if log == [] {
      NoAnswer(id, NAME_QUERY);
      NoAnswer(id, Query(Visible, REG));
    } else {
      var prev, e := log[..|log| - 1], log[|log| - 1];
      assert log == prev + [e];
      StepBack(log, id, NAME_QUERY);
      StepBack(log, id, Query(Visible, REG));
      AppendableAttr(prev, e);
      if Origin(e, id).Some? {
        VisibleAnswer(prev, Origin(e, id).value);
      }
    }
  }

  lemma NoAnswer(id: nat, q: Query)
    ensures Answer([], id, q) == None
  {
  }

  /// ---- lfs_dir_traverse -------------------------------------------------------

  /** What entry `j` contributes: nothing, or itself as the filter leaves it. */
  function EmitOf(all: seq<Entry>, j: nat): seq<Entry>
    requires j < |all|
  {
    if IsAttr(all[j]) then Keep(all[j], Filter(all[j].tag, all[j + 1..])) else []
  }

  /** The survivors among the first `i` entries, filtered by all that follow. */
  function Emitted(all: seq<Entry>, i: nat): seq<Entry>
    requires i <= |all|
  {
    if i == 0 then [] else Emitted(all, i - 1) + EmitOf(all, i - 1)
  }

  lemma {:induction false} FilterAllConcat(a: seq<Entry>, b: seq<Entry>, e: Entry)
    ensures FilterAll(a + b, e) == FilterAll(a, e) + FilterAll(b, e)
    decreases |b|
  {
    if b == [] {
      assert a + b == a;
    } else {
      assert (a + b)[..|a + b| - 1] == a + b[..|b| - 1];
      FilterAllConcat(a, b[..|b| - 1], e);
    }
  }

  lemma EmitSnoc(all: seq<Entry>, e: Entry, j: nat)
    requires j < |all|
    ensures EmitOf(all + [e], j) == FilterAll(EmitOf(all, j), e)
  {
    var rest := all[j + 1..];
    assert (all + [e])[j + 1..] == rest + [e] && (rest + [e])[..|rest|] == rest;
    var kept := EmitOf(all, j);
    if kept != [] {
      assert kept[..0] == [];
    }
  }

  lemma {:induction false} EmittedSnoc(all: seq<Entry>, e: Entry, i: nat)
    requires i <= |all|
    ensures Emitted(all + [e], i) == FilterAll(Emitted(all, i), e)
    decreases i
  {
    hide EmitOf, FilterAll;
    if i > 0 {
      EmittedSnoc(all, e, i - 1);
      EmitSnoc(all, e, i - 1);
      FilterAllConcat(Emitted(all, i - 1), EmitOf(all, i - 1), e);
    } else {
      FilterNothing(e);
    }
  }

  lemma FilterNothing(e: Entry)
    ensures FilterAll([], e) == []
  {
  }

  lemma {:induction false} EmittedUnique(all: seq<Entry>)
    ensures Emitted(all, |all|) == Unique(all)
    decreases |all|
  {
    if all != [] {
      var prev, e := all[..|all| - 1], all[|all| - 1];
      assert all == prev + [e];
      assert Emitted(all, |all|) == Emitted(all, |prev|) + EmitOf(all, |prev|);
      assert EmitOf(all, |prev|) == if IsAttr(e) then [e] else [];
      hide EmitOf, Emitted, FilterAll, Unique;
      EmittedUnique(prev);
      EmittedSnoc(prev, e, |prev|);
      UniqueSnoc(prev, e);
    }
  }

  lemma SliceConcat(a: seq<Entry>, b: seq<Entry>, begin: nat, end: nat)
    ensures Slice(a + b, begin, end) == Slice(a, begin, end) + Slice(b, begin, end)
    decreases |b|
  {
    if b == [] {
      assert a + b == a;
    } else {
      assert (a + b)[..|a + b| - 1] == a + b[..|b| - 1];
      SliceConcat(a, b[..|b| - 1], begin, end);
    }
  }

  /** The inner traversal: scan everything after the tag, first what is left of
      the log, then what is left of the attributes. */
  method TraverseFilter(all: seq<Entry>, from: nat, tag: Tag) returns (t: Option<Tag>)
    requires from <= |all|
    ensures t == Filter(tag, all[from..])
  {
    t := Some(tag);
    var j := from;
    while j < |all| && t.Some?
      invariant from <= j <= |all|
      invariant t == Filter(tag, all[from..j])
    {
      assert all[from..j + 1][..j - from] == all[from..j];
      t := FilterStep(t.value, all[j]);
      j := j + 1;
    }
    if t.None? {
      assert all[from..][..j - from] == all[from..j];
      FilterNone(tag, all[from..], j - from);
    } else {
      assert all[from..j] == all[from..];
    }
  }

  lemma {:induction false} FilterNone(t: Tag, rest: seq<Entry>, n: nat)
    requires n <= |rest| && Filter(t, rest[..n]).None?
    ensures Filter(t, rest).None?
    decreases |rest|
  {
    if n == |rest| {
      assert rest[..n] == rest;
    } else {
      assert rest[..|rest| - 1][..n] == rest[..n];
      FilterNone(t, rest[..|rest| - 1], n);
    }
  }

  /** One more source entry adds at most one entry to the output. */
  lemma EmittedStep(all: seq<Entry>, i: nat, begin: nat, end: nat)
    requires i < |all|
    ensures
      var e := all[i];
      var t := if IsAttr(e) then Filter(e.tag, all[i + 1..]) else None;
      Slice(Emitted(all, i + 1), begin, end) == Slice(Emitted(all, i), begin, end) +
      if t.Some? then Cut(Entry(t.value, e.data), begin, end) else []
  {
    var kept := EmitOf(all, i);
    SliceConcat(Emitted(all, i), kept, begin, end);
    assert kept != [] ==> kept[..0] == [];
  }

  /** lfs_dir_traverse as lfs_dir_compact calls it: log entries, then pending
      attributes, keeping names, structs and attributes that survive the filter
      and whose final id lies in [begin, end). */
  method Traverse(log: seq<Entry>, attrs: seq<Entry>, begin: nat, end: nat)
    returns (out: seq<Entry>)
    ensures out == Compacted(log + attrs, begin, end)
  {
    var all := log + attrs;
    assert Slice(Emitted(all, 0), begin, end) == [];
    EmittedUnique(all);
    hide EmitOf, Emitted, Filter, Slice, Unique;
    out := [];
    var i := 0;
    while i < |all|
      invariant 0 <= i <= |all|
      invariant out == Slice(Emitted(all, i), begin, end)
    {
      EmittedStep(all, i, begin, end);
      var e := all[i];
      i := i + 1;
      if IsAttr(e) {
        var t := TraverseFilter(all, i, e.tag);
        if t.Some? && begin <= t.value.id < end {
          out := out + [Entry(t.value.(id := t.value.id - begin), e.data)];
        }
      }
    }
  }
}
