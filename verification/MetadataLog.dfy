/** The metadata log of a directory. Forward replay is the meaning of a log;
    the backward lookup of lfs_dir_getslice is proved to find exactly what
    replay leaves, with and without a pending move. */
module MetadataLog {
  import opened Bytes
  import opened Options
  import opened Tags

  /** One log entry: a tag and the data that follows it. */
  datatype Entry = Entry(tag: Tag, data: seq<Byte>)

  /** What a write leaves on the entry it belongs to: everything but the id. */
  datatype Write = Write(kind: Kind, size: nat, data: seq<Byte>)

  /** The writes a directory entry has received since it was created. */
  type File = seq<Write>

  predicate IsCreate(e: Entry) { e.tag.kind == CREATE }

  predicate IsDelete(e: Entry) { e.tag.kind == DELETE }

  predicate IsSplice(e: Entry) { e.tag.kind.cls.Splice? }

  predicate IsName(e: Entry) { e.tag.kind.cls.Name? }

  /** Names, structs and user attributes: the writes that belong to an id. */
  predicate IsAttr(e: Entry) {
    var c := e.tag.kind.cls; c.Name? || c.Struct? || c.UserAttr?
  }

  function ToWrite(e: Entry): Write {
    Write(e.tag.kind, e.tag.size, e.data)
  }

  /// ---- Forward replay --------------------------------------------------

  /** Make room for id `i`: a compacted log may name a high id first. */
  function Pad(fs: seq<File>, i: nat): seq<File>
    decreases i + 1 - |fs|
  {
    if i < |fs| then fs else Pad(fs + [[]], i)
  }

  lemma {:induction false} PadAt(fs: seq<File>, i: nat)
    ensures
      var r := Pad(fs, i);
      && |r| == (if i < |fs| then |fs| else i + 1)
      && (forall j :: 0 <= j < |fs| ==> r[j] == fs[j])
      && (forall j :: |fs| <= j < |r| ==> r[j] == [])
    decreases i + 1 - |fs|
  {
    if |fs| <= i {
      PadAt(fs + [[]], i);
    }
  }

  /** The effect of one entry on the directory. */
  function Apply(fs: seq<File>, e: Entry): seq<File> {
    var i := e.tag.id;
    if IsCreate(e) then
      if i <= |fs| then fs[..i] + [[]] + fs[i..] else fs
    else if IsDelete(e) then
      if i < |fs| then fs[..i] + fs[i + 1..] else fs
    else if IsAttr(e) then
      PadAt(fs, i);
      var p := Pad(fs, i);
      p[i := p[i] + [ToWrite(e)]]
    else
      fs
  }

  function Replay(log: seq<Entry>): seq<File> {
    if log == [] then [] else Apply(Replay(log[..|log| - 1]), log[|log| - 1])
  }

  predicate HasName(f: File) {
    exists k :: 0 <= k < |f| && f[k].kind.cls.Name?
  }

  predicate AllNamed(fs: seq<File>) {
    forall j :: 0 <= j < |fs| ==> HasName(fs[j])
  }

  predicate NoSplice(log: seq<Entry>) {
    forall k :: 0 <= k < |log| ==> !IsSplice(log[k])
  }

  /** What littlefs writers respect when they append `e` to `log`:
      splices stay in range, a name is written once in an entry's life (only the
      splice-free head of a compacted log may name ids out of order), and other
      attributes go to an entry that has its name. */
  predicate Appendable(log: seq<Entry>, e: Entry) {
    var fs := Replay(log);
    && e.tag.Valid()
    && (IsSplice(e) ==> (IsCreate(e) || IsDelete(e)) && e.tag.size == 0)
    && (IsCreate(e) ==> e.tag.id <= |fs| && |fs| < NO_ID)
    && (IsDelete(e) ==> e.tag.id < |fs|)
    && (IsAttr(e) ==> e.tag.id < NO_ID)
    && (IsAttr(e) && !IsName(e) ==> e.tag.id < |fs| && HasName(fs[e.tag.id]))
    && (IsName(e) ==>
          && e.tag.kind.chunk != 0 && !e.tag.IsDelete()
          && (e.tag.id < |fs| ==> !HasName(fs[e.tag.id]))
          && (e.tag.id < |fs| || NoSplice(log)))
    && (IsAttr(e) && !e.tag.IsDelete() ==> |e.data| == e.tag.size)
    && !e.tag.kind.cls.From?
  }

  predicate WellFormed(log: seq<Entry>) {
    log == [] || (WellFormed(log[..|log| - 1]) && Appendable(log[..|log| - 1], log[|log| - 1]))
  }

  lemma WellFormedPrefix(log: seq<Entry>, n: nat)
    requires WellFormed(log) && n <= |log|
    ensures WellFormed(log[..n])
  {
    if n == |log| {
      assert log[..n] == log;
    } else {
      WellFormedPrefix(log[..|log| - 1], n);
      assert log[..|log| - 1][..n] == log[..n];
    }
  }

  /** Ids always fit the ten bits of a tag, with 0x3ff left over. */
  lemma {:induction false} CountBound(log: seq<Entry>)
    requires WellFormed(log)
    ensures |Replay(log)| <= NO_ID
  {
    if log != [] {
      CountBound(log[..|log| - 1]);
      PadAt(Replay(log[..|log| - 1]), log[|log| - 1].tag.id);
    }
  }

  /// ---- Lookup: specification --------------------------------------------

  /** A lookup names a slot of a directory entry by type, under a mask. */
  datatype Query = Query(mask: Mask, kind: Kind)

  predicate Matches(q: Query, kind: Kind) {
    SameKind(q.mask, kind, q.kind)
  }

  /** Queries about names, structs and user attributes. */
  predicate AttrQuery(q: Query) {
    q.kind.cls.Name? || q.kind.cls.Struct? || q.kind.cls.UserAttr?
  }

  /** The last write to the queried slot; a deleted slot is empty. */
  function LastMatch(f: File, q: Query): Option<Write> {
    if f == [] then None
    else
      var w := f[|f| - 1];
      if Matches(q, w.kind) then
        if w.size == DELETED_SIZE then None else Some(w)
      else LastMatch(f[..|f| - 1], q)
  }

  lemma LastMatchSnoc(f: File, w: Write, q: Query)
    ensures LastMatch(f + [w], q) ==
            if Matches(q, w.kind) then if w.size == DELETED_SIZE then None else Some(w)
            else LastMatch(f, q)
  {
    assert (f + [w])[..|f|] == f;
  }

  /** The answer replay gives to a lookup at id `id`. */
  function Answer(log: seq<Entry>, id: nat, q: Query): Option<Write> {
    var fs := Replay(log);
    if id < |fs| then LastMatch(fs[id], q) else None
  }

  /// ---- Lookup: lfs_dir_getslice -----------------------------------------

  /** The entry lfs_dir_relocatingcommit appends for a DELETE of `id`. */
  function DeleteOf(id: nat): Entry {
    Entry(Tag(DELETE, id, 0), [])
  }

  /** A pair with a pending move reads as if the DELETE had been appended. */
  function Effective(log: seq<Entry>, pending: Option<nat>): seq<Entry> {
    match pending
    case None => log
    case Some(m) => log + [DeleteOf(m)]
  }

  function Zeros(n: nat): (r: seq<Byte>)
    ensures |r| == n
  {
    if n == 0 then [] else Zeros(n - 1) + [0]
  }

  /** The caller's buffer after a read of at most `gsize` bytes, zero filled. */
  function Fill(data: seq<Byte>, gsize: nat): (r: seq<Byte>)
    ensures |r| == gsize
  {
    if gsize <= |data| then data[..gsize] else data + Zeros(gsize - |data|)
  }

  /** The effect of the last entry on the file at `cur`, seen backwards. */
  function Origin(e: Entry, cur: nat): Option<nat> {
    if IsCreate(e) && e.tag.id == cur then None
    else if IsSplice(e) && e.tag.id <= cur then
      if cur - Signed(e.tag.kind.chunk) < 0 then None else Some(cur - Signed(e.tag.kind.chunk))
    else Some(cur)
  }

  /** The writes at an id, none if there is no such entry. */
  function FileAt(fs: seq<File>, i: nat): File {
    if i < |fs| then fs[i] else []
  }

  /** A splice that the directory has room for. */
  predicate SpliceFits(fs: seq<File>, e: Entry) {
    && (IsSplice(e) ==> IsCreate(e) || IsDelete(e))
    && (IsCreate(e) ==> e.tag.id <= |fs|) && (IsDelete(e) ==> e.tag.id < |fs|)
  }

  /** What one entry leaves at an id: what was at its origin, and the write itself. */
  lemma ApplyAt(fs: seq<File>, e: Entry, cur: nat)
    requires SpliceFits(fs, e)
    ensures FileAt(Apply(fs, e), cur) ==
            match Origin(e, cur)
            case None => []
            case Some(o) => FileAt(fs, o) + if IsAttr(e) && e.tag.id == cur then [ToWrite(e)] else []
  {
    if IsAttr(e) {
      PadAt(fs, e.tag.id);
    }
  }

  lemma AnswerIs(log: seq<Entry>, id: nat, q: Query)
    ensures Answer(log, id, q) == LastMatch(FileAt(Replay(log), id), q)
  {
  }

  lemma LastApplies(log: seq<Entry>)
    requires log != [] && WellFormed(log)
    ensures
      var prev, e := log[..|log| - 1], log[|log| - 1];
      && WellFormed(prev) && Appendable(prev, e) && SpliceFits(Replay(prev), e)
      && Replay(log) == Apply(Replay(prev), e)
  {
    hide Apply;
  }

  lemma {:induction false} StepBack(log: seq<Entry>, cur: nat, q: Query)
    requires log != [] && WellFormed(log) && AttrQuery(q)
    ensures
      var prev, e := log[..|log| - 1], log[|log| - 1];
      && (Origin(e, cur).None? ==> Answer(log, cur, q) == None)
      && (Origin(e, cur).Some? ==>
            Answer(log, cur, q) ==
            if IsAttr(e) && e.tag.id == cur && Matches(q, e.tag.kind) then
              if e.tag.IsDelete() then None else Some(ToWrite(e))
            else Answer(prev, Origin(e, cur).value, q))
  {
    hide Answer, Appendable, Apply, LastMatch, Replay, WellFormed;
    var prev, e := log[..|log| - 1], log[|log| - 1];
    LastApplies(log);
    ApplyAt(Replay(prev), e, cur);
    AnswerIs(log, cur, q);
    NothingMatches(q);
    if Origin(e, cur).Some? {
      var f := FileAt(Replay(prev), Origin(e, cur).value);
      AnswerIs(prev, Origin(e, cur).value, q);
      LastMatchSnoc(f, ToWrite(e), q);
      assert f + [] == f;
    }
  }

  lemma NothingMatches(q: Query)
    ensures LastMatch([], q) == None
  {
  }

  /** The walk stands at `cur` in the first `off` entries. */
  predicate Standing(log: seq<Entry>, off: nat, cur: int) {
    && off <= |log|
    && 0 <= cur < NO_ID
    && (cur < |Replay(log[..off])| || NoSplice(log[..off]))
  }

  const NAME_QUERY := Query(ByClass, REG)

  lemma HasNameSnoc(f: File, w: Write)
    ensures HasName(f + [w]) <==> HasName(f) || w.kind.cls.Name?
  {
    if HasName(f) {
      var k :| 0 <= k < |f| && f[k].kind.cls.Name?;
      assert (f + [w])[k] == f[k];
    }
    if w.kind.cls.Name? {
      assert (f + [w])[|f|] == w;
    }
  }

  /** Names are never deleted, so a lookup of the name tells if there is one. */
  lemma {:induction false} NamedFile(log: seq<Entry>, id: nat)
    requires WellFormed(log)
    ensures HasName(FileAt(Replay(log), id)) <==> Answer(log, id, NAME_QUERY).Some?
    decreases |log|
  {
    if log != [] {
      hide Answer, Appendable, Apply, HasName, Replay, WellFormed;
      var prev, e := log[..|log| - 1], log[|log| - 1];
      NoName();
      LastApplies(log);
      NameNotDeleted(prev, e);
      StepBack(log, id, NAME_QUERY);
      ApplyAt(Replay(prev), e, id);
      if Origin(e, id).Some? {
        var o := Origin(e, id).value;
        NamedFile(prev, o);
        HasNameSnoc(FileAt(Replay(prev), o), ToWrite(e));
        assert FileAt(Replay(prev), o) + [] == FileAt(Replay(prev), o);
      }
    }
  }

  lemma NoName()
    ensures !HasName([])
  {
  }

  lemma NameNotDeleted(log: seq<Entry>, e: Entry)
    requires Appendable(log, e)
    ensures IsName(e) ==> !e.tag.IsDelete()
    ensures Matches(NAME_QUERY, e.tag.kind) <==> IsName(e)
  {
  }

  lemma NameAnswer(log: seq<Entry>, id: nat)
    requires WellFormed(log) && id < |Replay(log)|
    ensures HasName(Replay(log)[id]) <==> Answer(log, id, NAME_QUERY).Some?
  {
    NamedFile(log, id);
    hide Answer, HasName, Replay, WellFormed;
  }

  /** A splice that moves (or creates) the entry at `cur`. */
  predicate Moves(e: Entry, cur: int) {
    IsSplice(e) && e.tag.id <= cur
  }

  lemma ApplyCount(fs: seq<File>, e: Entry)
    requires SpliceFits(fs, e)
    ensures |Apply(fs, e)| ==
            if IsCreate(e) then |fs| + 1
            else if IsDelete(e) then |fs| - 1
            else if IsAttr(e) && e.tag.id >= |fs| then e.tag.id + 1
            else |fs|
  {
    PadAt(fs, e.tag.id);
  }

  /** Only names of a log without splices may go to an id that does not exist yet. */
  lemma PadsUnspliced(log: seq<Entry>, e: Entry)
    requires Appendable(log, e) && IsAttr(e) && e.tag.id >= |Replay(log)|
    ensures NoSplice(log)
  {
    hide Replay;
  }

  /** The walk can stand in front of any entry that did not create what it looks at. */
  lemma StandBack(log: seq<Entry>, off: nat, cur: nat)
    requires 0 < off && WellFormed(log) && Standing(log, off, cur)
    requires !(IsCreate(log[off - 1]) && log[off - 1].tag.id == cur)
    ensures
      var e := log[off - 1];
      var o := if Moves(e, cur) then cur - Signed(e.tag.kind.chunk) else cur;
      o >= 0 && Standing(log, off - 1, o)
  {
    hide Appendable, Apply, HasName, Replay, WellFormed;
    var e, pre := log[off - 1], log[..off - 1];
    WellFormedPrefix(log, off);
    assert log[..off][..off - 1] == pre && log[..off][off - 1] == e;
    LastApplies(log[..off]);
    ApplyCount(Replay(pre), e);
    CountBound(pre);
    if IsAttr(e) && e.tag.id >= |Replay(pre)| {
      PadsUnspliced(pre, e);
    }
  }

  /** One step of the backward walk, with the id kept inside its ten bits. */
  lemma WalkStep(log: seq<Entry>, off: nat, cur: nat, q: Query)
    requires 0 < off && WellFormed(log) && AttrQuery(q) && Standing(log, off, cur)
    ensures
      var e := log[off - 1];
      var ans := Answer(log[..off], cur, q);
      var hit := Matches(q, e.tag.kind) && e.tag.id == cur;
      if Moves(e, cur) then
        if e.tag == Tag(CREATE, cur, e.tag.size) then ans == None
        else
          var o := cur - Signed(e.tag.kind.chunk);
          o >= 0 && !Matches(q, e.tag.kind) && Standing(log, off - 1, o) && ans == Answer(log[..off - 1], o, q)
      else if hit then ans == if e.tag.IsDelete() then None else Some(ToWrite(e))
      else Standing(log, off - 1, cur) && ans == Answer(log[..off - 1], cur, q)
  {
    hide Answer, Appendable, Apply, HasName, NoSplice, Replay, Standing, WellFormed;
    StandingOff(log, off, cur);
    WellFormedPrefix(log, off);
    assert log[..off][..off - 1] == log[..off - 1] && log[..off][off - 1] == log[off - 1];
    StepBack(log[..off], cur, q);
    if !(IsCreate(log[off - 1]) && log[off - 1].tag.id == cur) {
      StandBack(log, off, cur);
    }
  }

  lemma StandingOff(log: seq<Entry>, off: nat, cur: int)
    requires Standing(log, off, cur)
    ensures off <= |log|
  {
  }

  /** The id correction that a pending move makes before the walk. */
  function SyntheticMove(pending: Option<nat>, id: nat): int {
    if pending.Some? && pending.value <= id then -1 else 0
  }

  lemma WalkStart(log: seq<Entry>, pending: Option<nat>, id: nat, q: Query)
    requires WellFormed(Effective(log, pending)) && AttrQuery(q)
    requires id < |Replay(Effective(log, pending))|
    ensures WellFormed(log) && Standing(log, |log|, id - SyntheticMove(pending, id))
    ensures Answer(Effective(log, pending), id, q) ==
            Answer(log[..|log|], id - SyntheticMove(pending, id), q)
  {
    hide Answer, Appendable, Replay, WellFormed;
    assert log[..|log|] == log;
    match pending
    case None =>
      CountBound(log);
    case Some(m) =>
      var all := log + [DeleteOf(m)];
      CountBound(all);
      assert all[..|all|] == all && all[..|all| - 1] == log && all[|all| - 1] == DeleteOf(m);
      LastApplies(all);
      StandingAtEnd(all, id);
      WalkStep(all, |all|, id, q);
      StandingPrefix(all, log, id - SyntheticMove(pending, id));
  }

  lemma StandingAtEnd(log: seq<Entry>, id: nat)
    requires id < |Replay(log)| <= NO_ID
    ensures Standing(log, |log|, id)
  {
    assert log[..|log|] == log;
  }

  lemma StandingPrefix(all: seq<Entry>, log: seq<Entry>, cur: int)
    requires |all| == |log| + 1 && all[..|log|] == log && Standing(all, |log|, cur)
    ensures Standing(log, |log|, cur)
  {
    assert log[..|log|] == log;
  }

  lemma EmptyAnswer(log: seq<Entry>, cur: nat, q: Query)
    ensures Answer(log[..0], cur, q).None?
  {
  }

  lemma HitSize(log: seq<Entry>, k: nat, q: Query)
    requires WellFormed(log) && k < |log| && AttrQuery(q) && Matches(q, log[k].tag.kind) && !log[k].tag.IsDelete()
    ensures |log[k].data| == log[k].tag.size
  {
    WellFormedPrefix(log, k + 1);
    LastApplies(log[..k + 1]);
    hide WellFormed;
  }

  /** What a slice finds: no entry, a range that leaves the block, or the tag. */
  datatype Got = Missing | PastBlock | Got(tag: Tag)

  /** The slice of an entry with `room` bytes of the block from its data on: as many
      bytes as the entry has, but from `goff` on, so possibly past its end. */
  predicate Sliced(room: seq<Byte>, w: Write, id: nat, goff: nat, gsize: nat, got: Got, buffer: seq<Byte>) {
    var n := if w.size < gsize then w.size else gsize;
    if goff + n > |room| then got == PastBlock
    else got == Got(Tag(w.kind, id, w.size)) && buffer == room[goff..goff + n] + Zeros(gsize - n)
  }

  /** A slice that stays inside the entry: a piece of its data, or all of it. */
  lemma SliceInside(behind: seq<Byte>, w: Write, id: nat, goff: nat, gsize: nat, got: Got, buffer: seq<Byte>)
    requires Sliced(w.data + behind, w, id, goff, gsize, got, buffer) && |w.data| == w.size
    ensures goff + gsize <= w.size ==> got == Got(Tag(w.kind, id, w.size)) && buffer == w.data[goff..goff + gsize]
    ensures goff == 0 ==> got == Got(Tag(w.kind, id, w.size)) && buffer == Fill(w.data, gsize)
  {
  }

  /** lfs_dir_getslice: walk the log backwards with a running id correction. `behind`
      are the bytes of the block behind each entry, and `k` is the entry found. */
  method GetSlice(log: seq<Entry>, behind: seq<seq<Byte>>, pending: Option<nat>, id: nat, q: Query,
                  goff: nat, gsize: nat)
    returns (got: Got, buffer: seq<Byte>, ghost k: nat)
    requires WellFormed(Effective(log, pending)) && AttrQuery(q) && |behind| == |log|
    requires id < |Replay(Effective(log, pending))|
    ensures var w := Answer(Effective(log, pending), id, q);
      match w
      case None => got == Missing
      case Some(w) =>
        && k < |log| && ToWrite(log[k]) == w && |w.data| == w.size
        && Sliced(w.data + behind[k], w, id, goff, gsize, got, buffer)
  {
    hide Answer, Replay, Standing, WellFormed;
    got, buffer, k := Missing, Zeros(gsize), 0;
    var gdiff := SyntheticMove(pending, id);
    var off := |log|;
    WalkStart(log, pending, id, q);

    while off > 0
      invariant 0 <= off <= |log| && 0 <= id - gdiff && Standing(log, off, id - gdiff)
      invariant Answer(Effective(log, pending), id, q) == Answer(log[..off], id - gdiff, q)
    {
      WalkStep(log, off, id - gdiff, q);
      off := off - 1;
      var e := log[off];
      if Moves(e, id - gdiff) {
        if e.tag.kind == CREATE && e.tag.id == id - gdiff {
          return;
        }
        gdiff := gdiff + Signed(e.tag.kind.chunk);
      }
      if Matches(q, e.tag.kind) && e.tag.id == id - gdiff {
        if e.tag.IsDelete() {
          return;
        }
        k := off;
        HitSize(log, k, q);
        var diff := if e.tag.size < gsize then e.tag.size else gsize;
        var room := e.data + behind[off];
        if goff + diff > |room| {
          return PastBlock, buffer, off;
        }
        return Got(e.tag.(id := e.tag.id + gdiff)), room[goff..goff + diff] + Zeros(gsize - diff), off;
      }
    }
    EmptyAnswer(log, id - gdiff, q);
  }
}
