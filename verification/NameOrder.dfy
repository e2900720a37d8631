/** Directories stay searchable. Proved: what littlefs writes (creates with their
    names, deletes, attributes, compacted logs and the pieces of a split) keeps the
    names sorted and complete, which is what the search for a name relies on. */
module NameOrder {
  import opened Bytes
  import opened Options
  import opened Tags
  import opened MetadataLog
  import opened Compaction
  import opened Splitting
  import opened NameSearch
  import opened MetadataPair
  import opened Durability
  import opened Rename

  /** Every entry has its name exactly if the search sees a name at every id. */
  lemma NamedComplete(log: seq<Entry>)
    requires WellFormed(log)
    ensures Complete(Keys(log)) <==> AllNamed(Replay(log))
  {
    KeysAnswer(log, 0);
    hide Answer, HasName, Keys, Replay, WellFormed;
    forall id | 0 <= id < |Replay(log)|
      ensures Keys(log)[id].Unnamed? <==> !HasName(Replay(log)[id])
    {
      KeysAnswer(log, id);
      NameAnswer(log, id);
    }
  }

  lemma OrderedSnoc(log: seq<Entry>, e: Entry)
    ensures Ordered(log + [e]) <==>
            Ordered(log) && Sorted(Keys(log + [e])) && (IsSplice(e) ==> Complete(Keys(log)))
  {
    assert (log + [e])[..|log|] == log;
  }

  lemma {:induction false} OrderedSorted(log: seq<Entry>)
    requires Ordered(log)
    ensures Sorted(Keys(log))
  {
  }

  lemma SortedPart(ks: seq<Key>, begin: nat, end: nat)
    requires Sorted(ks) && begin <= end <= |ks|
    ensures Sorted(ks[begin..end]) && (Complete(ks) ==> Complete(ks[begin..end]))
  {
    hide Less;
  }

  lemma SortedGap(ks: seq<Key>, id: nat)
    requires Sorted(ks) && id <= |ks|
    ensures Sorted(ks[..id] + [Unnamed] + ks[id..])
  {
    hide Less;
    var r := ks[..id] + [Unnamed] + ks[id..];
    assert forall k :: 0 <= k < |r| && k != id ==> r[k] == ks[if k < id then k else k - 1];
  }

  lemma SortedWithout(ks: seq<Key>, id: nat)
    requires Sorted(ks) && id < |ks|
    ensures Sorted(ks[..id] + ks[id + 1..]) && (Complete(ks) ==> Complete(ks[..id] + ks[id + 1..]))
  {
    hide Less;
    var r := ks[..id] + ks[id + 1..];
    assert forall k :: 0 <= k < |r| ==> r[k] == ks[if k < id then k else k + 1];
  }

  /** A file created with its name at the place that a search reported. */
  lemma CreateReady(log: seq<Entry>, id: nat, kind: Kind, name: Name)
    requires Ready(log) && id <= |Replay(log)| < NO_ID && FileName(kind, name)
    requires Border(Keys(log), name, id)
    ensures Ready(log + [Create(id)] + [NameEntry(kind, id, name)])
  {
    var ks := Keys(log);
    hide *;
    CreateReadyParts(log, id, kind, name);
    InsertKeepsSorted(ks, name, id);
    SortedGap(ks, id);
    OrderedSnoc(log, Create(id));
    OrderedSnoc(log + [Create(id)], NameEntry(kind, id, name));
    NotSplice(kind, id, name);
    CompleteInsert(ks, id, name);
    ReadyIs(log + [Create(id)] + [NameEntry(kind, id, name)]);
  }

  lemma NotSplice(kind: Kind, id: nat, name: Name)
    requires FileName(kind, name)
    ensures !IsSplice(NameEntry(kind, id, name))
  {
  }

  lemma ReadyIs(log: seq<Entry>)
    ensures Ready(log) <==> WellFormed(log) && Ordered(log) && Complete(Keys(log))
  {
  }

  lemma CompleteInsert(ks: seq<Key>, id: nat, name: Name)
    requires Complete(ks) && id <= |ks|
    ensures Complete(ks[..id] + [Named(name)] + ks[id..])
  {
  }

  lemma CreateReadyParts(log: seq<Entry>, id: nat, kind: Kind, name: Name)
    requires Ready(log) && id <= |Replay(log)| < NO_ID && FileName(kind, name)
    ensures id <= |Keys(log)| && Ordered(log) && Sorted(Keys(log)) && Complete(Keys(log))
    ensures Keys(log + [Create(id)]) == Keys(log)[..id] + [Unnamed] + Keys(log)[id..]
    ensures WellFormed(log + [Create(id)] + [NameEntry(kind, id, name)])
    ensures Keys(log + [Create(id)] + [NameEntry(kind, id, name)]) == Keys(log)[..id] + [Named(name)] + Keys(log)[id..]
  {
    OrderedSorted(log);
    hide Keys, Ordered, Replay, WellFormed;
    CreateEmpty(log, id);
    CreateNamed(log, id, kind, name);
  }

  lemma DeleteReady(log: seq<Entry>, id: nat)
    requires Ready(log) && id < |Replay(log)|
    ensures Ready(log + [DeleteOf(id)])
  {
    OrderedSorted(log);
    hide Keys, Ordered, Replay, WellFormed;
    DeleteKeys(log, id);
    SortedWithout(Keys(log), id);
    OrderedSnoc(log, DeleteOf(id));
  }

  /** Any other entry: attributes, tails, global state. */
  lemma PlainReady(log: seq<Entry>, e: Entry)
    requires Ready(log) && Appendable(log, e) && !IsSplice(e) && !IsName(e)
    ensures Ready(log + [e])
  {
    OrderedSorted(log);
    OrderedSnoc(log, e);
    AppendOne(log, e);
    assert (log + [e])[..|log|] == log;
    hide Appendable, Ordered, Replay, WellFormed;
  }

  lemma {:induction false} NeutralReady(log: seq<Entry>, extra: seq<Entry>)
    requires Ready(log) && AllNeutral(extra)
    ensures Ready(log + extra)
    decreases |extra|
  {
    hide Ready;
    if extra == [] {
      assert log + extra == log;
    } else {
      var init, e := extra[..|extra| - 1], extra[|extra| - 1];
      NeutralReady(log, init);
      NeutralFits(log + init, e);
      PlainReady(log + init, e);
      assert log + init + [e] == log + extra;
    }
  }

  lemma NeutralFits(log: seq<Entry>, e: Entry)
    requires Neutral(e)
    ensures Appendable(log, e) && !IsSplice(e) && !IsName(e)
  {
    hide Replay;
  }

  /** In a log without splices names only get more: if they end up sorted they
      were sorted all along. */
  lemma {:induction false} UnsplicedOrdered(log: seq<Entry>)
    requires WellFormed(log) && NoSplice(log) && Sorted(Keys(log))
    ensures Ordered(log)
    decreases |log|
  {
    if log != [] {
      var prev, e := log[..|log| - 1], log[|log| - 1];
      assert log == prev + [e] && !IsSplice(e);
      NameSlotFree(prev, e);
      KeysLess(Keys(prev), e);
      assert NoSplice(prev);
      hide Keys;
      UnsplicedOrdered(prev);
    }
  }

  lemma KeysLess(ks: seq<Key>, e: Entry)
    requires !IsSplice(e) && Sorted(ApplyKey(ks, e))
    requires IsName(e) && e.tag.id < |ks| ==> ks[e.tag.id].Unnamed?
    ensures Sorted(ks)
  {
    hide Less;
    PadKeysAt(ks, e.tag.id);
    var r := ApplyKey(ks, e);
    assert forall j :: 0 <= j < |ks| && !ks[j].Unnamed? ==> r[j] == ks[j];
  }

  /** Compaction keeps the names of its range. */
  lemma CompactedKeys(all: seq<Entry>, begin: nat, end: nat)
    requires WellFormed(all) && AllNamed(Replay(all)) && begin <= end <= |Replay(all)|
    ensures |Keys(all)| == |Replay(all)|
    ensures Keys(Compacted(all, begin, end)) == Keys(all)[begin..end]
  {
    hide *;
    CompactedCounts(all, begin, end);
    forall id | 0 <= id < end - begin
      ensures Keys(Compacted(all, begin, end))[id] == Keys(all)[begin..end][id]
    {
      CompactedKey(all, begin, end, id);
    }
  }

  lemma CompactedCounts(all: seq<Entry>, begin: nat, end: nat)
    requires WellFormed(all) && AllNamed(Replay(all)) && begin <= end <= |Replay(all)|
    ensures WellFormed(Compacted(all, begin, end)) && |Keys(Compacted(all, begin, end))| == end - begin
    ensures |Keys(all)| == |Replay(all)|
  {
    hide *;
    CompactedWellFormed(all, begin, end);
    CompactionCount(all, begin, end);
    KeysAnswer(Compacted(all, begin, end), 0);
    KeysAnswer(all, 0);
  }

  lemma CompactedKey(all: seq<Entry>, begin: nat, end: nat, id: nat)
    requires WellFormed(all) && AllNamed(Replay(all)) && begin <= end <= |Replay(all)| && id < end - begin
    ensures |Keys(Compacted(all, begin, end))| == end - begin && |Keys(all)| == |Replay(all)|
    ensures Keys(Compacted(all, begin, end))[id] == Keys(all)[begin + id]
  {
    hide *;
    CompactedCounts(all, begin, end);
    KeysAnswer(Compacted(all, begin, end), id);
    KeysAnswer(all, begin + id);
    NameSlot();
    CompactionPreserves(all, begin, end, begin + id, REG);
  }

  lemma NameSlot()
    ensures SlotQuery(REG) == NAME_QUERY && AttrKind(REG)
  {
  }

  /** So does a compacted log stay searchable. */
  lemma CompactedReady(all: seq<Entry>, begin: nat, end: nat)
    requires Ready(all) && begin <= end <= |Replay(all)|
    ensures Ready(Compacted(all, begin, end)) && |Keys(all)| == |Replay(all)|
    ensures Keys(Compacted(all, begin, end)) == Keys(all)[begin..end]
  {
    NamedComplete(all);
    OrderedSorted(all);
    hide AllNamed, Compacted, Keys, Ordered, Replay, WellFormed;
    CompactedKeys(all, begin, end);
    CompactedWellFormed(all, begin, end);
    SortedPart(Keys(all), begin, end);
    UnsplicedOrdered(Compacted(all, begin, end));
  }

  /** And a directory split over a chain of pairs, as the search over the chain
      demands. */
  lemma {:induction false} PiecesReady(all: seq<Entry>, cuts: seq<nat>, pieces: seq<seq<Entry>>)
    requires Ready(all) && Pieces(all, |Replay(all)|, cuts, pieces) && |Keys(all)| == |Replay(all)|
    ensures forall i :: 0 <= i < |pieces| ==> Ready(pieces[i])
    ensures ChainKeys(pieces) == Keys(all)[cuts[0]..]
    ensures Sorted(ChainKeys(pieces))
    decreases |pieces|
  {
    hide AllNamed, Compacted, Keys, Ready, Replay, Sorted, WellFormed;
    ReadySorted(all);
    if pieces != [] {
      assert cuts[1..][0] == cuts[1] <= |Replay(all)|;
      PiecesReady(all, cuts[1..], pieces[1..]);
      CompactedReady(all, cuts[0], cuts[1]);
      assert pieces == [pieces[0]] + pieces[1..];
      assert Keys(all)[cuts[0]..] == Keys(all)[cuts[0]..cuts[1]] + Keys(all)[cuts[1]..];
    }
    SortedPart(Keys(all), cuts[0], |Keys(all)|);
    assert Keys(all)[cuts[0]..] == Keys(all)[cuts[0]..|Keys(all)|];
  }

  lemma ReadySorted(log: seq<Entry>)
    requires Ready(log)
    ensures Sorted(Keys(log))
  {
    OrderedSorted(log);
  }

  /// ---- Whole runs of a pair --------------------------------------------------------------

  lemma RewriteReady(log: seq<Entry>, extra: seq<Entry>)
    requires Ready(log) && AllNeutral(extra)
    ensures Ready(Rewrite(log, extra))
  {
    hide *;
    CompactedReady(log, 0, |Replay(log)|);
    NeutralReady(Compacted(log, 0, |Replay(log)|), extra);
    RewriteIs(log, extra);
  }

  lemma RewriteIs(log: seq<Entry>, extra: seq<Entry>)
    ensures Rewrite(log, extra) == Compacted(log, 0, |Replay(log)|) + extra
  {
  }

  /** Changes that keep the directory searchable, by the lemmas above. */
  ghost predicate Keeps(s: State, ev: Event) {
    match ev
    case Commit(attrs, extra, _) => (s.ram.Idle? ==> Ready(s.ram.dir.log + attrs)) && AllNeutral(extra)
    case Fallback(extra, _) => AllNeutral(extra)
    case _ => true
  }

  ghost predicate AllKeep(s: State, evs: seq<Event>) {
    evs == [] ||
    var init := evs[..|evs| - 1];
    AllKeep(s, init) && Keeps(Run(s, init), evs[|evs| - 1])
  }

  ghost predicate Searchable(s: State) {
    Inv(s) && Ready(s.acked) && (s.flight.Some? ==> Ready(s.flight.value))
  }

  lemma SearchableStep(s: State, ev: Event)
    requires Searchable(s) && Keeps(s, ev)
    ensures Searchable(Exec(s, ev))
  {
    hide Ready, Rewrite;
    ExecKeeps(s, ev);
    match (ev, s.ram)
    case (Commit(attrs, extra, fcrc), Idle(dir)) =>
      RewriteReady(dir.log + attrs, extra);
    case (Fallback(extra, fcrc), Busy(dir, mode, stage, done, rest, _)) =>
      if mode.Append? && stage.Writing? {
        RewriteReady(dir.log + (done + rest), extra);
      }
    case _ =>
      hide Exec, Inv;
      OtherLogs(s, ev);
  }

  /** After every history the log that a fetch yields can be searched. */
  lemma {:induction false} SearchableAfterRun(s: State, evs: seq<Event>)
    requires Searchable(s) && AllKeep(s, evs)
    ensures Searchable(Run(s, evs))
    ensures
      var r := Run(s, evs);
      var dir := FetchOf(r.b0, r.b1);
      dir.Some? && Ready(dir.value.log)
    decreases |evs|
  {
    hide Exec, FetchOf, Inv, Keeps, Ready;
    if evs != [] {
      SearchableAfterRun(s, evs[..|evs| - 1]);
      SearchableStep(Run(s, evs[..|evs| - 1]), evs[|evs| - 1]);
    }
    FetchInv(Run(s, evs));
  }

  /// ---- Reading by name ----------------------------------------------------------------------

  lemma {:induction false} IndexOfUnique(ks: seq<Key>, name: Name, id: nat)
    requires Sorted(ks) && id < |ks| && ks[id] == Named(name)
    ensures IndexOf(ks, name) == Some(id)
  {
    IndexOfCorrect(ks, name);
    OrderEq(name, name);
    SortedAround(ks, id, name);
    hide Less;
  }

  /** What a read of a slot reports. */
  predicate Reported(w: Option<Write>, gsize: nat, got: Got, buffer: seq<Byte>) {
    match w
    case None => got == Missing
    case Some(w) => got.Got? && got.tag.kind == w.kind && got.tag.size == w.size && buffer == Fill(w.data, gsize)
  }

  /** lfs_dir_find on one pair, then lfs_dir_get: what a pair with a pending move says
      about a name is what replay with the move carried out says. */
  method ReadFile(log: seq<Entry>, behind: seq<seq<Byte>>, pending: Option<nat>, name: Name, slot: Kind, gsize: nat)
    returns (r: Outcome, got: Got, buffer: seq<Byte>)
    requires Ready(Effective(log, pending)) && AttrKind(slot) && |behind| == |log|
    ensures r.Found? <==> Exists(Effective(log, pending), name)
    ensures Reported(Lookup(Effective(log, pending), name, slot), gsize, got, buffer)
  {
    ghost var all := Effective(log, pending);
    ghost var ks := Keys(all);
    OrderedSorted(all);
    KeysAnswer(all, 0);
    IndexOfCorrect(ks, name);
    SlotIsAttr(slot);
    hide Answer, Complete, Effective, IndexOf, Keys, Ordered, Replay, Sliced, Sorted, WellFormed;
    var place;
    r, place := FetchMatch(log, name, pending);
    got, buffer := Missing, [];
    if r.Found? {
      IndexOfUnique(ks, name, r.id);
      ghost var k;
      got, buffer, k := GetSlice(log, behind, pending, r.id, SlotQuery(slot), 0, gsize);
      ghost var w := Answer(all, r.id, SlotQuery(slot));
      if w.Some? {
        SliceInside(behind[k], w.value, r.id, 0, gsize, got, buffer);
      }
    }
  }

  lemma SlotIsAttr(slot: Kind)
    requires AttrKind(slot)
    ensures AttrQuery(SlotQuery(slot))
  {
  }

  /** Deleting the moved entry, by the rename itself or by lfs_fs_demove, cannot be
      seen: reading any name of a pair that has the move pending, and of the pair after
      the delete with nothing pending, reports the same. */
  method DemoveUnseen(log: seq<Entry>, behind: seq<seq<Byte>>, m: nat, after: seq<Entry>, behind': seq<seq<Byte>>,
                      name: Name, slot: Kind, gsize: nat)
    returns (r: Outcome, got: Got, buffer: seq<Byte>, r': Outcome, got': Got, buffer': seq<Byte>)
    requires Ready(log) && m < |Replay(log)| && Ready(after) && Means(after, log + [DeleteOf(m)])
    requires AttrKind(slot) && |behind| == |log| && |behind'| == |after|
    ensures Reported(Lookup(log + [DeleteOf(m)], name, slot), gsize, got, buffer)
    ensures r'.Found? <==> r.Found?
    ensures got'.Got? <==> got.Got?
    ensures got.Got? ==> got'.tag.kind == got.tag.kind && got'.tag.size == got.tag.size && buffer' == buffer
  {
    DeleteReady(log, m);
    MeansSame(after, log + [DeleteOf(m)], name);
    EffectiveIs(log, m);
    EffectiveNone(after);
    hide Effective, Exists, Fill, Lookup, Means, Ready;
    r, got, buffer := ReadFile(log, behind, Some(m), name, slot, gsize);
    r', got', buffer' := ReadFile(after, behind', None, name, slot, gsize);
  }

  lemma EffectiveIs(log: seq<Entry>, m: nat)
    ensures Effective(log, Some(m)) == log + [DeleteOf(m)]
  {
  }

  lemma EffectiveNone(log: seq<Entry>)
    ensures Effective(log, None) == log
  {
  }
}
