/** Renaming a file across two metadata pairs takes two commits. Proved: before the
    first of them the file is reached by its old path, from then on by its new one,
    with its contents, and nothing else changes. That power losses leave no other
    states of the disk than these is proved in module RenameRun. */
module Rename {
  import opened Options
  import opened Tags
  import opened MetadataLog
  import opened Compaction
  import opened NameSearch
  import opened Durability

  /// ---- Lookup by name ------------------------------------------------------------

  function IndexOf(ks: seq<Key>, name: Name): Option<nat> {
    if ks == [] then None
    else
      match IndexOf(ks[..|ks| - 1], name)
      case Some(i) => Some(i)
      case None => if ks[|ks| - 1] == Named(name) then Some(|ks| - 1) else None
  }

  lemma {:induction false} IndexOfCorrect(ks: seq<Key>, name: Name)
    ensures match IndexOf(ks, name)
      case None => forall j :: 0 <= j < |ks| ==> ks[j] != Named(name)
      case Some(i) => i < |ks| && ks[i] == Named(name) && forall j :: 0 <= j < i ==> ks[j] != Named(name)
  {
    if ks != [] {
      IndexOfCorrect(ks[..|ks| - 1], name);
    }
  }

  predicate Exists(log: seq<Entry>, name: Name) {
    IndexOf(Keys(log), name).Some?
  }

  /** What a slot of the file with this name holds. */
  function Lookup(log: seq<Entry>, name: Name, slot: Kind): Option<Write> {
    match IndexOf(Keys(log), name)
    case None => None
    case Some(id) => Answer(log, id, SlotQuery(slot))
  }

  /** Two directories that no lookup by name can tell apart. */
  ghost predicate SameTo(a: seq<Entry>, b: seq<Entry>, name: Name) {
    && (Exists(a, name) <==> Exists(b, name))
    && forall slot: Kind :: AttrKind(slot) ==> Lookup(a, name, slot) == Lookup(b, name, slot)
  }

  lemma MeansKeys(a: seq<Entry>, b: seq<Entry>)
    requires Means(a, b)
    ensures Keys(a) == Keys(b)
  {
    KeysAnswer(a, 0);
    KeysAnswer(b, 0);
    forall i | 0 <= i < |Keys(a)|
      ensures Keys(a)[i] == Keys(b)[i]
    {
      KeysAnswer(a, i);
      KeysAnswer(b, i);
      assert AttrKind(REG) && SlotQuery(REG) == NAME_QUERY;
    }
  }

  lemma MeansSame(a: seq<Entry>, b: seq<Entry>, name: Name)
    requires Means(a, b)
    ensures SameTo(a, b, name)
  {
    MeansKeys(a, b);
    hide Answer, Keys, IndexOf, Replay, WellFormed;
  }

  /// ---- Deleting the old entry ---------------------------------------------------------

  lemma DeleteKeys(log: seq<Entry>, id: nat)
    requires WellFormed(log) && id < |Replay(log)|
    ensures WellFormed(log + [DeleteOf(id)])
    ensures |Keys(log)| == |Replay(log)|
    ensures Keys(log + [DeleteOf(id)]) == Keys(log)[..id] + Keys(log)[id + 1..]
  {
    hide Appendable, HasName, Pad, PadKeys, Replay, WellFormed;
    KeysAnswer(log, 0);
    assert (log + [DeleteOf(id)])[..|log|] == log;
    DeleteFits(log, id);
    AppendOne(log, DeleteOf(id));
  }

  lemma DeleteFits(log: seq<Entry>, id: nat)
    requires WellFormed(log) && id < |Replay(log)|
    ensures Appendable(log, DeleteOf(id))
  {
    CountBound(log);
    hide Replay, WellFormed;
  }

  lemma IndexOfSnoc(ks: seq<Key>, k: Key, name: Name)
    ensures IndexOf(ks + [k], name) ==
            match IndexOf(ks, name)
            case Some(i) => Some(i)
            case None => if k == Named(name) then Some(|ks|) else None
  {
    assert (ks + [k])[..|ks|] == ks;
  }

  lemma {:induction false} IndexOfRemoved(a: seq<Key>, k: Key, b: seq<Key>, name: Name)
    requires k != Named(name)
    ensures IndexOf(a + b, name) ==
            match IndexOf(a + [k] + b, name)
            case None => None
            case Some(j) => Some(if j <= |a| then j else j - 1)
    ensures match IndexOf(a + [k] + b, name)
      case None => true
      case Some(j) => j < |a| + 1 + |b| && j != |a|
    decreases |b|
  {
    hide IndexOf;
    if b == [] {
      assert a + b == a && a + [k] + b == a + [k];
      IndexOfSnoc(a, k, name);
      IndexOfCorrect(a, name);
    } else {
      var init, x := b[..|b| - 1], b[|b| - 1];
      assert a + b == a + init + [x] && a + [k] + b == a + [k] + init + [x];
      IndexOfRemoved(a, k, init, name);
      IndexOfSnoc(a + init, x, name);
      IndexOfSnoc(a + [k] + init, x, name);
    }
  }

  /** The deleted name is gone, every other name leads where it led. */
  lemma DeleteLookup(log: seq<Entry>, id: nat, name: Name)
    requires WellFormed(log) && Sorted(Keys(log)) && id < |Keys(log)| == |Replay(log)|
    requires Keys(log)[id].Named?
    ensures Keys(log)[id] == Named(name) ==> !Exists(log + [DeleteOf(id)], name)
    ensures Keys(log)[id] != Named(name) ==> SameTo(log + [DeleteOf(id)], log, name)
  {
    hide Answer, Keys, IndexOf, Less, Replay, WellFormed;
    var log' := log + [DeleteOf(id)];
    DeleteKeys(log, id);
    var ks := Keys(log);
    if ks[id] == Named(name) {
      SortedAround(ks, id, name);
      IndexOfCorrect(Keys(log'), name);
      OrderEq(name, name);
    } else {
      assert ks == ks[..id] + [ks[id]] + ks[id + 1..];
      IndexOfRemoved(ks[..id], ks[id], ks[id + 1..], name);
      IndexOfCorrect(ks, name);
      forall slot: Kind | AttrKind(slot)
        ensures Lookup(log', name, slot) == Lookup(log, name, slot)
      {
        var at := IndexOf(Keys(log'), name);
        if at.Some? {
          ReplayStep(log, DeleteOf(id), at.value, slot);
        }
      }
    }
  }

  /// ---- Creating the new entry ----------------------------------------------------------

  /** The structs and attributes of entry `from`, as FROM_MOVE emits them for `to`. */
  function Retarget(out: seq<Entry>, from: nat, to: nat): seq<Entry> {
    if out == [] then []
    else
      var e := out[|out| - 1];
      Retarget(out[..|out| - 1], from, to) +
      if e.tag.id == from && !IsName(e) then [Entry(e.tag.(id := to), e.data)] else []
  }

  /** Entries that belong to one existing, named id. */
  predicate BodyOf(moved: seq<Entry>, to: nat) {
    forall k :: 0 <= k < |moved| ==> SoundEntry(moved[k]) && !IsName(moved[k]) && moved[k].tag.id == to
  }

  lemma {:induction false} RetargetBody(out: seq<Entry>, from: nat, to: nat)
    requires Tidy(out)
    ensures BodyOf(Retarget(out, from, to), to)
    decreases |out|
  {
    if out != [] {
      RetargetBody(out[..|out| - 1], from, to);
    }
  }

  lemma {:induction false} RetargetFind(out: seq<Entry>, from: nat, to: nat, slot: Kind)
    requires !slot.cls.Name?
    ensures Live(Find(Retarget(out, from, to), to, slot)) == Live(Find(out, from, slot))
    decreases |out|
  {
    if out != [] {
      var init, e := out[..|out| - 1], out[|out| - 1];
      assert out == init + [e];
      RetargetFind(init, from, to, slot);
      FindSnoc(init, e, from, slot);
      if e.tag.id == from && !IsName(e) {
        FindSnoc(Retarget(init, from, to), Entry(e.tag.(id := to), e.data), to, slot);
      } else {
        assert Retarget(out, from, to) == Retarget(init, from, to);
      }
      hide Find;
    }
  }

  lemma BodyStep(log: seq<Entry>, e: Entry)
    requires WellFormed(log) && SoundEntry(e) && !IsName(e)
    requires e.tag.id < |Replay(log)| && HasName(Replay(log)[e.tag.id])
    ensures WellFormed(log + [e]) && |Replay(log + [e])| == |Replay(log)|
    ensures HasName(Replay(log + [e])[e.tag.id])
  {
    CountBound(log);
    AppendOne(log, e);
    PadAt(Replay(log), e.tag.id);
    HasNameSnoc(Replay(log)[e.tag.id], ToWrite(e));
  }

  /** Appending the body of an entry fills its slots and touches nothing else. */
  lemma {:induction false} BodyAnswers(log: seq<Entry>, moved: seq<Entry>, to: nat, id: nat, slot: Kind)
    requires WellFormed(log) && to < |Replay(log)| && HasName(Replay(log)[to])
    requires BodyOf(moved, to) && AttrKind(slot)
    ensures WellFormed(log + moved) && |Replay(log + moved)| == |Replay(log)|
    ensures HasName(Replay(log + moved)[to])
    ensures Answer(log + moved, id, SlotQuery(slot)) ==
            if id == to && Find(moved, to, slot).Some? then Live(Find(moved, to, slot))
            else Answer(log, id, SlotQuery(slot))
    decreases |moved|
  {
    hide Answer, AttrKind, Find, HasName, Live, Replay, WellFormed;
    NothingFound(to, slot);
    if moved == [] {
      assert log + moved == log;
    } else {
      var init, e := moved[..|moved| - 1], moved[|moved| - 1];
      Rejoin(log, moved);
      BodyAnswers(log, init, to, id, slot);
      BodyStep(log + init, e);
      ReplayStep(log + init, e, id, slot);
      FindSnoc(init, e, to, slot);
      assert moved == init + [e];
    }
  }

  lemma NothingFound(id: nat, slot: Kind)
    ensures Find([], id, slot).None?
  {
  }

  lemma Rejoin(log: seq<Entry>, moved: seq<Entry>)
    requires moved != []
    ensures log + moved[..|moved| - 1] + [moved[|moved| - 1]] == log + moved
  {
  }

  lemma {:induction false} BodyHasNoName(moved: seq<Entry>, to: nat)
    requires BodyOf(moved, to)
    ensures Find(moved, to, REG).None?
    decreases |moved|
  {
    if moved != [] {
      BodyHasNoName(moved[..|moved| - 1], to);
    }
  }

  /** The body holds no names, so the names stay what they were. */
  lemma {:induction false} BodyKeys(log: seq<Entry>, moved: seq<Entry>, to: nat)
    requires BodyOf(moved, to)
    ensures Keys(log + moved) == Keys(log)
    decreases |moved|
  {
    if moved == [] {
      assert log + moved == log;
    } else {
      BodyKeys(log, moved[..|moved| - 1], to);
      assert (log + moved)[..|log + moved| - 1] == log + moved[..|moved| - 1];
    }
  }

  /** CREATE and NAME put the name in at its id. */
  function Create(id: nat): Entry { Entry(Tag(CREATE, id, 0), []) }

  function NameEntry(kind: Kind, id: nat, name: Name): Entry {
    Entry(Tag(kind, id, |name|), name)
  }

  predicate FileName(kind: Kind, name: Name) {
    kind.cls.Name? && 0 < kind.chunk < 0x80 && |name| < DELETED_SIZE
  }

  lemma CreateEmpty(log: seq<Entry>, id: nat)
    requires WellFormed(log) && id <= |Replay(log)| < NO_ID
    ensures
      var log' := log + [Create(id)];
      && WellFormed(log') && |Replay(log')| == |Replay(log)| + 1 && Replay(log')[id] == []
      && |Keys(log)| == |Replay(log)|
      && Keys(log') == Keys(log)[..id] + [Unnamed] + Keys(log)[id..]
  {
    hide Appendable, HasName, Pad, PadKeys, WellFormed;
    assert (log + [Create(id)])[..|log|] == log;
    CreateFits(log, id);
    AppendOne(log, Create(id));
    KeysAnswer(log, 0);
  }

  lemma CreateFits(log: seq<Entry>, id: nat)
    requires id <= |Replay(log)| < NO_ID
    ensures Appendable(log, Create(id))
  {
    hide Replay;
  }

  lemma NameEmpty(log: seq<Entry>, e: Entry)
    requires WellFormed(log) && e.tag.id < |Replay(log)| && Replay(log)[e.tag.id] == []
    requires SoundEntry(e) && IsName(e) && |Keys(log)| == |Replay(log)|
    ensures WellFormed(log + [e]) && |Replay(log + [e])| == |Replay(log)|
    ensures HasName(Replay(log + [e])[e.tag.id])
    ensures Keys(log + [e]) == Keys(log)[e.tag.id := EntryKey(e)]
  {
    CountBound(log);
    AppendOne(log, e);
    assert (log + [e])[..|log|] == log;
    HasNameSnoc([], ToWrite(e));
    assert Pad(Replay(log), e.tag.id) == Replay(log) && PadKeys(Keys(log), e.tag.id) == Keys(log);
  }

  lemma CreateNamed(log: seq<Entry>, id: nat, kind: Kind, name: Name)
    requires WellFormed(log) && id <= |Replay(log)| < NO_ID && FileName(kind, name)
    ensures
      var log' := log + [Create(id)] + [NameEntry(kind, id, name)];
      && WellFormed(log + [Create(id)]) && WellFormed(log')
      && |Replay(log')| == |Replay(log)| + 1 && HasName(Replay(log')[id])
      && |Keys(log)| == |Replay(log)|
      && Keys(log') == Keys(log)[..id] + [Named(name)] + Keys(log)[id..]
  {
    CreateEmpty(log, id);
    KeysAnswer(log + [Create(id)], 0);
    hide HasName, Keys, Replay, WellFormed;
    NameEmpty(log + [Create(id)], NameEntry(kind, id, name));
  }

  /** The log of the target pair after the first commit of a rename. */
  function Created(log: seq<Entry>, id: nat, kind: Kind, name: Name, moved: seq<Entry>): seq<Entry> {
    log + [Create(id)] + [NameEntry(kind, id, name)] + moved
  }

  lemma CreatedKeys(log: seq<Entry>, id: nat, kind: Kind, name: Name, moved: seq<Entry>)
    requires WellFormed(log) && id <= |Replay(log)| < NO_ID && FileName(kind, name)
    requires BodyOf(moved, id)
    ensures id <= |Keys(log)|
    ensures Keys(Created(log, id, kind, name, moved)) == Keys(log)[..id] + [Named(name)] + Keys(log)[id..]
  {
    CreateNamed(log, id, kind, name);
    hide Keys, Replay, WellFormed;
    BodyKeys(log + [Create(id)] + [NameEntry(kind, id, name)], moved, id);
  }

  lemma IndexOfInserted(ks: seq<Key>, id: nat, name: Name)
    requires id <= |ks| && Named(name) !in ks
    ensures IndexOf(ks[..id] + [Named(name)] + ks[id..], name) == Some(id)
  {
    var ks' := ks[..id] + [Named(name)] + ks[id..];
    IndexOfCorrect(ks', name);
    hide IndexOf;
    assert ks'[id] == Named(name) && forall j :: 0 <= j < id ==> ks'[j] == ks[j];
    assert forall j :: id < j < |ks'| ==> ks'[j] == ks[j - 1];
  }

  lemma CreatedAnswer(log: seq<Entry>, id: nat, kind: Kind, name: Name, moved: seq<Entry>, at: nat, slot: Kind)
    requires WellFormed(log) && id <= |Replay(log)| < NO_ID && FileName(kind, name)
    requires BodyOf(moved, id) && AttrKind(slot)
    ensures
      var r := Answer(Created(log, id, kind, name, moved), at, SlotQuery(slot));
      && (at == id && !slot.cls.Name? ==> r == Live(Find(moved, id, slot)))
      && (at == id && slot == REG ==> r == Some(ToWrite(NameEntry(kind, id, name))))
      && (at < id ==> r == Answer(log, at, SlotQuery(slot)))
      && (at > id ==> r == Answer(log, at - 1, SlotQuery(slot)))
  {
    var mid := log + [Create(id)];
    var e := NameEntry(kind, id, name);
    CreateNamed(log, id, kind, name);
    hide Answer, AttrKind, BodyOf, Find, HasName, Keys, Live, Replay, WellFormed;
    BodyHasNoName(moved, id);
    BodyAnswers(mid + [e], moved, id, at, slot);
    ReplayStep(mid, e, at, slot);
    ReplayStep(log, Create(id), at, slot);
  }

  /** The new name leads to the moved body. */
  lemma CreatedFile(log: seq<Entry>, id: nat, kind: Kind, name: Name, moved: seq<Entry>, slot: Kind)
    requires WellFormed(log) && id <= |Replay(log)| < NO_ID && FileName(kind, name)
    requires BodyOf(moved, id) && Named(name) !in Keys(log) && AttrKind(slot) && !slot.cls.Name?
    ensures Exists(Created(log, id, kind, name, moved), name)
    ensures Lookup(Created(log, id, kind, name, moved), name, slot) == Live(Find(moved, id, slot))
    ensures Lookup(Created(log, id, kind, name, moved), name, REG) == Some(ToWrite(NameEntry(kind, id, name)))
  {
    CreatedKeys(log, id, kind, name, moved);
    IndexOfInserted(Keys(log), id, name);
    CreatedAnswer(log, id, kind, name, moved, id, slot);
    CreatedAnswer(log, id, kind, name, moved, id, REG);
    hide Answer, Created, Find, IndexOf, Keys, Replay, WellFormed;
  }

  /** Every other name leads where it led. */
  lemma CreatedOthers(log: seq<Entry>, id: nat, kind: Kind, name: Name, moved: seq<Entry>, other: Name)
    requires WellFormed(log) && id <= |Replay(log)| < NO_ID && FileName(kind, name)
    requires BodyOf(moved, id) && other != name
    ensures SameTo(Created(log, id, kind, name, moved), log, other)
  {
    var ks := Keys(log);
    CreatedKeys(log, id, kind, name, moved);
    IndexOfRemoved(ks[..id], Named(name), ks[id..], other);
    assert ks[..id] + ks[id..] == ks;
    var at := IndexOf(Keys(Created(log, id, kind, name, moved)), other);
    assert SameToIndex(at, IndexOf(ks, other), id);
    hide Answer, Created, IndexOf, Keys, Replay, WellFormed;
    forall slot: Kind | AttrKind(slot)
      ensures Lookup(Created(log, id, kind, name, moved), other, slot) == Lookup(log, other, slot)
    {
      if at.Some? {
        CreatedAnswer(log, id, kind, name, moved, at.value, slot);
      }
    }
  }

  /** An index behind an insertion at `id` and the index before it. */
  predicate SameToIndex(after: Option<nat>, before: Option<nat>, id: nat) {
    match after
    case None => before.None?
    case Some(j) => j != id && before == Some(if j < id then j else j - 1)
  }

  /// ---- The rename -------------------------------------------------------------------------

  /** What a mount finds on disk: the logs of the two pairs, and the move that the
      global state records for the old pair. */
  datatype Disk = Disk(oldLog: seq<Entry>, newLog: seq<Entry>, move: Option<nat>) {
    /** The old directory as lookups see it: a recorded move hides its entry. */
    function Old(): seq<Entry> { Effective(oldLog, move) }
  }

  /** What lfs_rawrename is asked to do: entry `from` of the old pair, called
      `oldName`, goes to the free place `to` of the new pair as `newName`. */
  datatype Request = Request(from: nat, oldName: Name, to: nat, kind: Kind, newName: Name)

  predicate Legal(d: Disk, r: Request) {
    && d.move.None?
    && WellFormed(d.oldLog) && Sorted(Keys(d.oldLog))
    && r.from < |Keys(d.oldLog)| && Keys(d.oldLog)[r.from] == Named(r.oldName)
    && WellFormed(d.newLog) && Named(r.newName) !in Keys(d.newLog)
    && r.to <= |Replay(d.newLog)| < NO_ID && FileName(r.kind, r.newName)
  }

  function Moved(d: Disk, r: Request): seq<Entry> {
    Retarget(Unique(d.oldLog), r.from, r.to)
  }

  /** The commits may be appended or compacted: the logs they leave mean the same. */
  ghost predicate AfterFirst(d: Disk, r: Request, d1: Disk) {
    && Means(d1.newLog, Created(d.newLog, r.to, r.kind, r.newName, Moved(d, r)))
    && d1.oldLog == d.oldLog && d1.move == Some(r.from)
  }

  ghost predicate AfterSecond(d: Disk, d1: Disk, d2: Disk) {
    && d1.move.Some? && Means(d2.oldLog, d1.oldLog + [DeleteOf(d1.move.value)])
    && d2.newLog == d1.newLog && d2.move.None?
  }

  /** The file is reached under the new name only, with its type and contents. */
  ghost predicate Done(d: Disk, r: Request, d': Disk) {
    && !Exists(d'.Old(), r.oldName) && Exists(d'.newLog, r.newName)
    && Lookup(d'.newLog, r.newName, REG) == Some(ToWrite(NameEntry(r.kind, r.to, r.newName)))
    && forall slot: Kind :: AttrKind(slot) && !slot.cls.Name? ==>
         Lookup(d'.newLog, r.newName, slot) == Lookup(d.Old(), r.oldName, slot)
  }

  /** No other name of either directory is affected. */
  ghost predicate OthersKept(d: Disk, r: Request, d': Disk) {
    && (forall m: Name :: m != r.oldName ==> SameTo(d'.Old(), d.Old(), m))
    && (forall m: Name :: m != r.newName ==> SameTo(d'.newLog, d.newLog, m))
  }

  lemma MovedContents(d: Disk, r: Request, slot: Kind)
    requires Legal(d, r) && AttrKind(slot)
    ensures BodyOf(Moved(d, r), r.to)
    ensures IndexOf(Keys(d.oldLog), r.oldName) == Some(r.from)
    ensures !slot.cls.Name? ==>
              Live(Find(Moved(d, r), r.to, slot)) == Lookup(d.oldLog, r.oldName, slot)
  {
    var ks := Keys(d.oldLog);
    UniqueTidy(d.oldLog);
    UniqueAnswers(d.oldLog, r.from, slot);
    RetargetBody(Unique(d.oldLog), r.from, r.to);
    IndexOfCorrect(ks, r.oldName);
    OrderEq(r.oldName, r.oldName);
    hide Answer, BodyOf, Find, IndexOf, Keys, Live, Replay, Retarget, Tidy, Unique, WellFormed;
    if !slot.cls.Name? {
      RetargetFind(Unique(d.oldLog), r.from, r.to, slot);
    }
  }

  /** The first commit is the point where the rename takes effect. */
  lemma FirstCommit(d: Disk, r: Request, d1: Disk)
    requires Legal(d, r) && AfterFirst(d, r, d1)
    ensures Done(d, r, d1) && OthersKept(d, r, d1)
  {
    MovedContents(d, r, REG);
    KeysAnswer(d.oldLog, 0);
    DeleteLookup(d.oldLog, r.from, r.oldName);
    MeansSame(d1.newLog, Created(d.newLog, r.to, r.kind, r.newName, Moved(d, r)), r.newName);
    hide Answer, BodyOf, Created, Exists, Find, IndexOf, Keys, Live, Lookup, Means, Replay, Sorted, WellFormed;
    CreatedFile(d.newLog, r.to, r.kind, r.newName, Moved(d, r), Kind(Struct, 0));
    forall slot: Kind | AttrKind(slot) && !slot.cls.Name?
      ensures Lookup(d1.newLog, r.newName, slot) == Lookup(d.Old(), r.oldName, slot)
    {
      MovedContents(d, r, slot);
      CreatedFile(d.newLog, r.to, r.kind, r.newName, Moved(d, r), slot);
    }
    forall m: Name | m != r.oldName
      ensures SameTo(d1.Old(), d.Old(), m)
    {
      DeleteLookup(d.oldLog, r.from, m);
    }
    forall m: Name | m != r.newName
      ensures SameTo(d1.newLog, d.newLog, m)
    {
      CreatedOthers(d.newLog, r.to, r.kind, r.newName, Moved(d, r), m);
      MeansSame(d1.newLog, Created(d.newLog, r.to, r.kind, r.newName, Moved(d, r)), m);
    }
  }

  /** Deleting the moved entry, by the rename itself or by lfs_fs_demove after a
      remount, changes no lookup in either directory. */
  lemma DemoveChangesNothing(d: Disk, d1: Disk, d2: Disk, name: Name)
    requires AfterSecond(d, d1, d2)
    ensures SameTo(d2.Old(), d1.Old(), name) && SameTo(d2.newLog, d1.newLog, name)
  {
    MeansSame(d2.oldLog, d1.oldLog + [DeleteOf(d1.move.value)], name);
  }

  lemma DemoveKeepsDone(d: Disk, r: Request, d1: Disk, d2: Disk)
    requires Done(d, r, d1) && OthersKept(d, r, d1) && AfterSecond(d, d1, d2)
    ensures Done(d, r, d2) && OthersKept(d, r, d2)
  {
    DemoveChangesNothing(d, d1, d2, r.oldName);
    hide Exists, Lookup, Means;
    forall m: Name | m != r.oldName
      ensures SameTo(d2.Old(), d.Old(), m)
    {
      assert SameTo(d1.Old(), d.Old(), m);
      DemoveChangesNothing(d, d1, d2, m);
    }
    forall m: Name | m != r.newName
      ensures SameTo(d2.newLog, d.newLog, m)
    {
      assert SameTo(d1.newLog, d.newLog, m);
    }
  }

  /** The three states of the disk that a rename goes through: before the first commit
      the file is found under the old name only, from then on under the new name only,
      with the same contents, and nothing else is ever affected. */
  lemma RenameIsAtomic(d: Disk, r: Request, d1: Disk, d2: Disk)
    requires Legal(d, r) && AfterFirst(d, r, d1) && AfterSecond(d, d1, d2)
    ensures Exists(d.Old(), r.oldName) && !Exists(d.newLog, r.newName)
    ensures Done(d, r, d1) && OthersKept(d, r, d1)
    ensures Done(d, r, d2) && OthersKept(d, r, d2)
  {
    MovedContents(d, r, REG);
    IndexOfCorrect(Keys(d.newLog), r.newName);
    assert Exists(d.Old(), r.oldName) && !Exists(d.newLog, r.newName);
    hide *;
    FirstCommit(d, r, d1);
    DemoveKeepsDone(d, r, d1, d2);
  }
}
