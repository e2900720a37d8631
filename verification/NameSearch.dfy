/** Finding a name while scanning a log forwards (lfs_dir_fetchmatch with
    lfs_dir_find_match). Proved: on a sorted log the scan returns the live entry
    with that name, or the place where inserting it keeps the directory sorted. */
module NameSearch {
  import opened Bytes
  import opened Options
  import opened Tags
  import opened MetadataLog
  import opened Compaction

  type Name = seq<Byte>

  /** How a name on disk compares with the name searched for. */
  datatype Cmp = EQ | LT | GT

  /// ---- The order of names ---------------------------------------------------

  /** Bytewise, and a longer name precedes its own proper prefix. */
  function Order(disk: Name, name: Name): Cmp {
    if disk == [] && name == [] then EQ
    else if name == [] then LT
    else if disk == [] then GT
    else if disk[0] < name[0] then LT
    else if disk[0] > name[0] then GT
    else Order(disk[1..], name[1..])
  }

  lemma {:induction false} OrderEq(a: Name, b: Name)
    ensures Order(a, b) == EQ <==> a == b
    ensures Order(a, b) == LT <==> Order(b, a) == GT
    ensures Order(a, b) == GT <==> Order(b, a) == LT
  {
    if a != [] && b != [] {
      OrderEq(a[1..], b[1..]);
      assert a == [a[0]] + a[1..] && b == [b[0]] + b[1..];
    }
  }

  lemma {:induction false} OrderTrans(a: Name, b: Name, c: Name)
    requires Order(a, b) == LT && Order(b, c) == LT
    ensures Order(a, c) == LT
  {
    if a != [] && b != [] && c != [] && a[0] == b[0] && b[0] == c[0] {
      OrderTrans(a[1..], b[1..], c[1..]);
    }
  }

  /** Two names part at byte `k`: they are the same in front of it. */
  predicate PartAt(a: Name, b: Name, k: nat) {
    k <= |a| && k <= |b| && a[..k] == b[..k]
  }

  /** A name goes before another if its byte is smaller where they part, or if it goes
      on where the other one ends. */
  lemma {:induction false} OrderParts(a: Name, b: Name)
    ensures Order(a, b) == LT <==>
            exists k: nat :: PartAt(a, b, k) && k < |a| && (k == |b| || a[k] < b[k])
    ensures Order(a, b) == GT <==>
            exists k: nat :: PartAt(a, b, k) && k < |b| && (k == |a| || a[k] > b[k])
  {
    hide PartAt;
    PartFirst(a, b);
    if a != [] && b != [] && a[0] == b[0] {
      OrderParts(a[1..], b[1..]);
      PartNext(a, b);
    }
  }

  lemma PartFirst(a: Name, b: Name)
    ensures PartAt(a, b, 0)
    ensures forall k: nat :: PartAt(a, b, k) && k > 0 ==> a != [] && b != [] && a[0] == b[0]
    ensures forall k: nat :: PartAt(a, b, k) ==> k <= |a| && k <= |b|
  {
    forall k: nat | PartAt(a, b, k) && k > 0
      ensures a[0] == b[0]
    {
      assert a[..k][0] == b[..k][0];
    }
  }

  lemma PartNext(a: Name, b: Name)
    requires a != [] && b != [] && a[0] == b[0]
    ensures forall k: nat :: k > 0 && PartAt(a, b, k) ==> PartAt(a[1..], b[1..], k - 1)
    ensures forall k: nat :: PartAt(a[1..], b[1..], k) ==> PartAt(a, b, k + 1)
  {
    forall k: nat | k > 0 && PartAt(a, b, k)
      ensures PartAt(a[1..], b[1..], k - 1)
    {
      assert a[1..][..k - 1] == a[..k][1..] && b[1..][..k - 1] == b[..k][1..];
    }
    forall k: nat | PartAt(a[1..], b[1..], k)
      ensures PartAt(a, b, k + 1)
    {
      assert a[..k + 1] == [a[0]] + a[1..][..k] && b[..k + 1] == [b[0]] + b[1..][..k];
    }
  }

  /** memcmp on two runs of the same length. */
  method MemCmp(a: Name, b: Name) returns (c: Cmp)
    requires |a| == |b|
    ensures c == Order(a, b)
  {
    var i := 0;
    while i < |a|
      invariant 0 <= i <= |a|
      invariant Order(a[i..], b[i..]) == Order(a, b)
    {
      if a[i] != b[i] {
        return if a[i] < b[i] then LT else GT;
      }
      assert a[i..][1..] == a[i + 1..] && b[i..][1..] == b[i + 1..];
      i := i + 1;
    }
    c := EQ;
  }

  lemma {:induction false} OrderPrefix(a: Name, b: Name, n: nat)
    requires n <= |a| && n <= |b|
    ensures Order(a, b) == if Order(a[..n], b[..n]) == EQ then Order(a[n..], b[n..]) else Order(a[..n], b[..n])
    decreases n
  {
    if n == 0 {
      assert a[0..] == a && b[0..] == b;
    } else if a[0] == b[0] {
      OrderPrefix(a[1..], b[1..], n - 1);
      assert a[..n][1..] == a[1..][..n - 1] && b[..n][1..] == b[1..][..n - 1];
      assert a[1..][n - 1..] == a[n..] && b[1..][n - 1..] == b[n..];
    }
  }

  /** lfs_bd_cmp: compare in chunks of at most eight bytes. */
  method BdCmp(disk: Name, name: Name) returns (c: Cmp)
    requires |disk| == |name|
    ensures c == Order(disk, name)
  {
    var i := 0;
    assert disk[0..] == disk && name[0..] == name;
    while i < |disk|
      invariant 0 <= i <= |disk|
      invariant Order(disk[i..], name[i..]) == Order(disk, name)
    {
      var diff := if |disk| - i < 8 then |disk| - i else 8;
      c := MemCmp(disk[i..i + diff], name[i..i + diff]);
      OrderPrefix(disk[i..], name[i..], diff);
      assert disk[i..][..diff] == disk[i..i + diff] && name[i..][..diff] == name[i..i + diff];
      assert disk[i..][diff..] == disk[i + diff..] && name[i..][diff..] == name[i + diff..];
      if c != EQ {
        return;
      }
      i := i + diff;
    }
    c := EQ;
  }

  /** lfs_dir_find_match: compare the common length, then the lengths. */
  method FindMatch(disk: Name, name: Name) returns (c: Cmp)
    ensures c == Order(disk, name)
  {
    var diff := if |name| < |disk| then |name| else |disk|;
    c := BdCmp(disk[..diff], name[..diff]);
    OrderPrefix(disk, name, diff);
    if c == EQ && |name| != |disk| {
      c := if |name| < |disk| then LT else GT;
    }
  }

  /// ---- The names of a directory -----------------------------------------------

  /** The superblock's name is hidden from name lookups. */
  datatype Key = Unnamed | Hidden | Named(name: Name)

  function KeyOf(w: Option<Write>): Key {
    if w.None? then Unnamed else if w.value.kind.chunk < 0x80 then Named(w.value.data) else Hidden
  }

  function EntryKey(e: Entry): Key {
    if e.tag.kind.chunk < 0x80 then Named(e.data) else Hidden
  }

  function PadKeys(ks: seq<Key>, i: nat): seq<Key>
    decreases i + 1 - |ks|
  {
    if i < |ks| then ks else PadKeys(ks + [Unnamed], i)
  }

  lemma {:induction false} PadKeysAt(ks: seq<Key>, i: nat)
    ensures
      var r := PadKeys(ks, i);
      && |r| == (if i < |ks| then |ks| else i + 1)
      && (forall j :: 0 <= j < |ks| ==> r[j] == ks[j])
      && (forall j :: |ks| <= j < |r| ==> r[j] == Unnamed)
    decreases i + 1 - |ks|
  {
    if |ks| <= i {
      PadKeysAt(ks + [Unnamed], i);
    }
  }

  function ApplyKey(ks: seq<Key>, e: Entry): seq<Key> {
    var i := e.tag.id;
    if IsCreate(e) then
      if i <= |ks| then ks[..i] + [Unnamed] + ks[i..] else ks
    else if IsDelete(e) then
      if i < |ks| then ks[..i] + ks[i + 1..] else ks
    else if IsName(e) then
      PadKeysAt(ks, i);
      PadKeys(ks, i)[i := EntryKey(e)]
    else ks
  }

  /** The names of the entries of a log, by id. */
  function Keys(log: seq<Entry>): seq<Key> {
    if log == [] then [] else ApplyKey(Keys(log[..|log| - 1]), log[|log| - 1])
  }

  /** The names are those that replay leaves. */
  lemma {:induction false} KeysAnswer(log: seq<Entry>, id: nat)
    requires WellFormed(log)
    ensures |Keys(log)| == |Replay(log)|
    ensures id < |Keys(log)| ==> Keys(log)[id] == KeyOf(Answer(log, id, NAME_QUERY))
  {
    if log != [] {
      var prev, e := log[..|log| - 1], log[|log| - 1];
      assert log == prev + [e];
      ReplayStep(prev, e, id, REG);
      assert SlotQuery(REG) == NAME_QUERY;
      AppendableAttr(prev, e);
      KeysAnswer(prev, if Origin(e, id).Some? then Origin(e, id).value else 0);
      KeysStep(prev, e, id);
      hide Answer, Keys, Replay, WellFormed;
    }
  }

  /** How one entry changes the names, in number and one by one. */
  lemma KeysStep(prev: seq<Entry>, e: Entry, id: nat)
    requires WellFormed(prev + [e]) && |Keys(prev)| == |Replay(prev)|
    ensures |Keys(prev + [e])| == |Replay(prev + [e])|
    ensures id < |Keys(prev + [e])| ==>
              Keys(prev + [e])[id] ==
              match Origin(e, id)
              case None => Unnamed
              case Some(o) =>
                if IsName(e) && e.tag.id == id then EntryKey(e)
                else if o < |Keys(prev)| then Keys(prev)[o] else Unnamed
    ensures forall o :: Origin(e, id) == Some(o) && o >= |Replay(prev)| ==> Answer(prev, o, NAME_QUERY).None?
  {
    hide Answer, Appendable, Keys, Replay, WellFormed;
    LastStep(prev, e);
    KeysApply(Keys(prev), Replay(prev), e, id);
    forall o | Origin(e, id) == Some(o) && o >= |Replay(prev)|
      ensures Answer(prev, o, NAME_QUERY).None?
    {
      NoFile(prev, o);
    }
  }

  lemma NoFile(log: seq<Entry>, id: nat)
    requires id >= |Replay(log)|
    ensures Answer(log, id, NAME_QUERY).None?
  {
  }

  lemma LastStep(prev: seq<Entry>, e: Entry)
    requires WellFormed(prev + [e])
    ensures Replay(prev + [e]) == Apply(Replay(prev), e) && Keys(prev + [e]) == ApplyKey(Keys(prev), e)
    ensures IsAttr(e) && !IsName(e) ==> e.tag.id < |Replay(prev)|
    ensures IsSplice(e) ==> IsCreate(e) || IsDelete(e)
  {
    assert (prev + [e])[..|prev|] == prev;
    hide Apply, ApplyKey;
  }

  /** Files and names change alike. */
  lemma KeysApply(ks: seq<Key>, fs: seq<File>, e: Entry, id: nat)
    requires |ks| == |fs| && (IsAttr(e) && !IsName(e) ==> e.tag.id < |fs|)
    requires IsSplice(e) ==> IsCreate(e) || IsDelete(e)
    ensures |ApplyKey(ks, e)| == |Apply(fs, e)|
    ensures id < |ApplyKey(ks, e)| ==>
              ApplyKey(ks, e)[id] ==
              match Origin(e, id)
              case None => Unnamed
              case Some(o) =>
                if IsName(e) && e.tag.id == id then EntryKey(e) else if o < |ks| then ks[o] else Unnamed
  {
    PadAt(fs, e.tag.id);
    PadKeysAt(ks, e.tag.id);
  }

  predicate Less(a: Key, b: Key) {
    match (a, b)
    case (Hidden, Named(_)) => true
    case (Named(x), Named(y)) => Order(x, y) == LT
    case _ => false
  }

  /** Strictly increasing, entries that have no name yet left aside. */
  predicate Sorted(ks: seq<Key>) {
    forall i, j :: 0 <= i < j < |ks| && !ks[i].Unnamed? && !ks[j].Unnamed? ==> Less(ks[i], ks[j])
  }

  predicate Complete(ks: seq<Key>) {
    forall i :: 0 <= i < |ks| ==> !ks[i].Unnamed?
  }

  /** Writers keep the names sorted and name an entry before the next splice. */
  predicate Ordered(log: seq<Entry>) {
    log == [] ||
    var prev, e := log[..|log| - 1], log[|log| - 1];
    Ordered(prev) && Sorted(Keys(log)) && (IsSplice(e) ==> Complete(Keys(prev)))
  }

  /// ---- The scan -------------------------------------------------------------------

  /** The best tag so far: none (-1), or a kind and an id, marked invalid when it
      is only the place where the name would go. */
  datatype Best = NoBest | Best(kind: Kind, id: nat, valid: bool) {
    /** The id field of the best tag. */
    function Id(): nat { if NoBest? then NO_ID else id }
  }

  /** What a splice does to the best tag. */
  function SpliceBest(best: Best, e: Entry): Best {
    if best.NoBest? then best
    else if IsDelete(e) && e.tag.id == best.id then best.(valid := false)
    else if e.tag.id <= best.id && best.id + Signed(e.tag.kind.chunk) >= 0 then
      best.(id := best.id + Signed(e.tag.kind.chunk))
    else best
  }

  /** What a name that compares as `c` does to the best tag. */
  function NameBest(best: Best, tag: Tag, c: Cmp): Best {
    if c == EQ then Best(tag.kind, tag.id, true)
    else if best.Best? && tag.kind == best.kind && tag.id == best.id then NoBest
    else if c == GT && tag.id <= best.Id() then Best(tag.kind, tag.id, false)
    else best
  }

  function StepBest(best: Best, e: Entry, name: Name): Best {
    if IsSplice(e) then SpliceBest(best, e)
    else if IsName(e) && e.tag.kind.chunk < 0x80 then NameBest(best, e.tag, Order(e.data, name))
    else best
  }

  predicate Before(k: Key, name: Name) {
    k.Hidden? || (k.Named? && Order(k.name, name) == LT)
  }

  predicate After(k: Key, name: Name) {
    k.Named? && Order(k.name, name) == GT
  }

  /** The best tag is the entry with the name, or the border between the names
      before it and the names after it. */
  predicate Placed(ks: seq<Key>, best: Best, name: Name) {
    if best.Best? && best.valid then best.id < |ks| && ks[best.id] == Named(name)
    else forall i :: 0 <= i < |ks| && !ks[i].Unnamed? ==>
           if i < best.Id() then Before(ks[i], name) else After(ks[i], name)
  }

  /** An unnamed entry can stand after the place only behind a named one. */
  predicate Anchored(ks: seq<Key>, best: Best, spliced: bool) {
    best.Best? && !best.valid ==>
      && (!spliced ==> best.id < |ks|)
      && (!spliced || (exists u :: best.id <= u < |ks| && ks[u].Unnamed?) ==>
            best.id < |ks| && !ks[best.id].Unnamed?)
  }

  predicate Scanned(ks: seq<Key>, best: Best, name: Name, spliced: bool) {
    |ks| <= NO_ID && Sorted(ks) && Placed(ks, best, name) && Anchored(ks, best, spliced)
  }

  lemma CreateKeeps(ks: seq<Key>, best: Best, name: Name, spliced: bool, e: Entry)
    requires Scanned(ks, best, name, spliced) && Complete(ks)
    requires IsCreate(e) && e.tag.id <= |ks| < NO_ID
    ensures Placed(ApplyKey(ks, e), SpliceBest(best, e), name)
    ensures Anchored(ApplyKey(ks, e), SpliceBest(best, e), true)
  {
    var i := e.tag.id;
    var ks' := ApplyKey(ks, e);
    assert forall j :: 0 <= j < |ks'| && j != i ==> ks'[j] == ks[if j < i then j else j - 1];
  }

  lemma DeleteKeeps(ks: seq<Key>, best: Best, name: Name, spliced: bool, e: Entry)
    requires Scanned(ks, best, name, spliced) && Complete(ks)
    requires IsDelete(e) && e.tag.id < |ks|
    ensures Placed(ApplyKey(ks, e), SpliceBest(best, e), name)
    ensures Anchored(ApplyKey(ks, e), SpliceBest(best, e), true)
  {
    var i := e.tag.id;
    var ks' := ApplyKey(ks, e);
    assert forall j :: 0 <= j < |ks'| ==> ks'[j] == ks[if j < i then j else j + 1];
    if best.Best? && best.valid {
      SortedAround(ks, best.id, name);
    }
  }

  /** In a sorted directory everything lies on its side of the name. */
  lemma SortedAround(ks: seq<Key>, id: nat, name: Name)
    requires Sorted(ks) && id < |ks| && ks[id] == Named(name)
    ensures forall j :: 0 <= j < |ks| && !ks[j].Unnamed? && j != id ==>
              if j < id then Before(ks[j], name) else After(ks[j], name)
  {
    forall j | 0 <= j < |ks| && !ks[j].Unnamed? && j != id
      ensures if j < id then Before(ks[j], name) else After(ks[j], name)
    {
      if j < id {
        assert Less(ks[j], ks[id]);
      } else {
        assert Less(ks[id], ks[j]);
        OrderEq(name, ks[j].name);
      }
    }
  }

  lemma NameKeepsFound(ks: seq<Key>, best: Best, name: Name, spliced: bool, e: Entry)
    requires Scanned(ks, best, name, spliced) && best.Best? && best.valid
    requires IsName(e) && e.tag.id < NO_ID && Sorted(ApplyKey(ks, e))
    requires e.tag.id < |ks| ==> ks[e.tag.id].Unnamed?
    ensures StepBest(best, e, name) == best && Placed(ApplyKey(ks, e), best, name)
  {
    var ks', i := ApplyKey(ks, e), e.tag.id;
    PadKeysAt(ks, i);
    SortedAround(ks', best.id, name);
    assert ks'[i] == EntryKey(e) && i != best.id;
    OrderEq(e.data, name);
  }

  /** A name that goes before the one searched for lies before the place. */
  lemma BeforeThePlace(ks: seq<Key>, best: Best, name: Name, spliced: bool, e: Entry)
    requires Scanned(ks, best, name, spliced) && best.Best? && !best.valid
    requires IsName(e) && e.tag.id < NO_ID && Sorted(ApplyKey(ks, e))
    requires if e.tag.id < |ks| then ks[e.tag.id].Unnamed? else !spliced
    requires !After(EntryKey(e), name)
    ensures e.tag.id < best.id
  {
    var ks', i := ApplyKey(ks, e), e.tag.id;
    PadKeysAt(ks, i);
    if best.id <= i {
      var anchor := ks[best.id];
      assert best.id < i && After(anchor, name) && ks'[best.id] == anchor && ks'[i] == EntryKey(e);
      assert Less(anchor, EntryKey(e));
      OrderEq(anchor.name, name);
      OrderTrans(name, anchor.name, e.data);
      OrderEq(e.data, name);
    }
  }

  lemma NameKeepsPlace(ks: seq<Key>, best: Best, name: Name, spliced: bool, e: Entry)
    requires Scanned(ks, best, name, spliced) && !(best.Best? && best.valid)
    requires IsName(e) && e.tag.id < NO_ID && Sorted(ApplyKey(ks, e))
    requires if e.tag.id < |ks| then ks[e.tag.id].Unnamed? else !spliced
    ensures Placed(ApplyKey(ks, e), StepBest(best, e, name), name)
  {
    var ks', i := ApplyKey(ks, e), e.tag.id;
    PadKeysAt(ks, i);
    OrderEq(e.data, name);
    if best.Best? && !After(EntryKey(e), name) {
      BeforeThePlace(ks, best, name, spliced, e);
    }
    if After(EntryKey(e), name) && i <= best.Id() {
      forall j | i < j < |ks'| && !ks'[j].Unnamed?
        ensures After(ks'[j], name)
      {
        assert Less(ks'[i], ks'[j]);
        OrderEq(e.data, ks'[j].name);
        OrderTrans(name, e.data, ks'[j].name);
        OrderEq(name, ks'[j].name);
      }
    }
  }

  lemma NameKeepsAnchor(ks: seq<Key>, best: Best, name: Name, spliced: bool, e: Entry)
    requires Scanned(ks, best, name, spliced) && !(best.Best? && best.valid)
    requires IsName(e) && e.tag.id < NO_ID && Sorted(ApplyKey(ks, e))
    requires if e.tag.id < |ks| then ks[e.tag.id].Unnamed? else !spliced
    ensures Anchored(ApplyKey(ks, e), StepBest(best, e, name), spliced)
  {
    PadKeysAt(ks, e.tag.id);
  }

  /// ---- The whole scan ----------------------------------------------------------------

  /** The best tag after scanning a log. */
  function Scan(log: seq<Entry>, name: Name): Best {
    if log == [] then NoBest
    else StepBest(Scan(log[..|log| - 1], name), log[|log| - 1], name)
  }

  lemma {:induction false} ScanInvariant(log: seq<Entry>, name: Name)
    requires WellFormed(log) && Ordered(log)
    ensures Scanned(Keys(log), Scan(log, name), name, !NoSplice(log))
    decreases |log|
  {
    if log != [] {
      var prev, e := log[..|log| - 1], log[|log| - 1];
      assert log == prev + [e];
      ScanInvariant(prev, name);
      KeysAnswer(prev, e.tag.id);
      CountBound(log);
      KeysAnswer(log, 0);
      ScanStep(prev, e, name);
    }
  }

  lemma ScanStep(prev: seq<Entry>, e: Entry, name: Name)
    requires WellFormed(prev + [e]) && Ordered(prev + [e])
    requires Scanned(Keys(prev), Scan(prev, name), name, !NoSplice(prev))
    requires |Keys(prev)| == |Replay(prev)|
    ensures Placed(Keys(prev + [e]), Scan(prev + [e], name), name)
    ensures Anchored(Keys(prev + [e]), Scan(prev + [e], name), !NoSplice(prev + [e]))
  {
    assert (prev + [e])[..|prev|] == prev;
    var ks, best, spliced := Keys(prev), Scan(prev, name), !NoSplice(prev);
    NameSlotFree(prev, e);
    assert NoSplice(prev + [e]) <==> NoSplice(prev) && !IsSplice(e) by {
      assert (prev + [e])[|prev|] == e;
      assert forall k :: 0 <= k < |prev| ==> (prev + [e])[k] == prev[k];
    }
    if IsCreate(e) {
      CreateKeeps(ks, best, name, spliced, e);
    } else if IsDelete(e) {
      DeleteKeeps(ks, best, name, spliced, e);
    } else if IsName(e) {
      if best.Best? && best.valid {
        NameKeepsFound(ks, best, name, spliced, e);
      } else {
        NameKeepsPlace(ks, best, name, spliced, e);
        NameKeepsAnchor(ks, best, name, spliced, e);
      }
    }
  }

  lemma NameSlotFree(prev: seq<Entry>, e: Entry)
    requires WellFormed(prev + [e])
    ensures IsName(e) ==> if e.tag.id < |Keys(prev)| then Keys(prev)[e.tag.id].Unnamed? else NoSplice(prev)
  {
    assert (prev + [e])[..|prev|] == prev;
    KeysAnswer(prev, e.tag.id);
    if IsName(e) && e.tag.id < |Keys(prev)| {
      NameAnswer(prev, e.tag.id);
    }
  }

  /** Everything before `place` goes before the name, everything else after it. */
  predicate Border(ks: seq<Key>, name: Name, place: nat) {
    forall i :: 0 <= i < |ks| ==> if i < place then Before(ks[i], name) else After(ks[i], name)
  }

  /** Inserting at the border keeps a directory sorted. */
  lemma InsertKeepsSorted(ks: seq<Key>, name: Name, place: nat)
    requires Sorted(ks) && Border(ks, name, place) && place <= |ks|
    ensures Sorted(ks[..place] + [Named(name)] + ks[place..])
  {
    var r := ks[..place] + [Named(name)] + ks[place..];
    forall i, j | 0 <= i < j < |r| && !r[i].Unnamed? && !r[j].Unnamed?
      ensures Less(r[i], r[j])
    {
      assert forall k :: 0 <= k < |r| && k != place ==> r[k] == ks[if k < place then k else k - 1];
      if i == place {
        OrderEq(r[j].name, name);
      }
    }
  }

  /** The outcome of a fetch: the tag, NOENT, or zero ("not in this pair"). */
  datatype Outcome = Found(kind: Kind, id: nat) | NoEntry | Next

  /** What lfs_dir_fetchmatch returns for a best tag and a count. */
  function Conclude(best: Best, count: nat): Outcome {
    if best.Best? && best.valid then Found(best.kind, best.id)
    else if best.Id() < count then NoEntry
    else Next
  }

  lemma ScanEnds(log: seq<Entry>, name: Name)
    requires WellFormed(log) && Ordered(log) && Complete(Keys(log))
    ensures var ks, best := Keys(log), Scan(log, name);
      if best.Best? && best.valid then best.id < |ks| && ks[best.id] == Named(name)
      else Border(ks, name, best.Id()) && Named(name) !in ks
    ensures |Keys(log)| == |Replay(log)| <= NO_ID
  {
    ScanInvariant(log, name);
    KeysAnswer(log, 0);
    OrderEq(name, name);
  }

  lemma ScanPrefix(log: seq<Entry>, i: nat, name: Name)
    requires WellFormed(log) && i < |log|
    ensures Scan(log[..i + 1], name) == StepBest(Scan(log[..i], name), log[i], name)
    ensures IsSplice(log[i]) ==> IsCreate(log[i]) || IsDelete(log[i])
    ensures |Replay(log[..i + 1])| ==
            if IsName(log[i]) then
              if log[i].tag.id < |Replay(log[..i])| then |Replay(log[..i])| else log[i].tag.id + 1
            else if IsSplice(log[i]) then |Replay(log[..i])| + Signed(log[i].tag.kind.chunk)
            else |Replay(log[..i])|
  {
    WellFormedPrefix(log, i + 1);
    assert log[..i + 1][..i] == log[..i];
    PadAt(Replay(log[..i]), log[i].tag.id);
  }

  /** What a fetch promises about the names it searched. */
  predicate Located(ks: seq<Key>, name: Name, moving: bool, r: Outcome, place: nat) {
    && (r.Found? <==> Named(name) in ks)
    && (r.Found? ==> place == r.id < |ks| && ks[r.id] == Named(name))
    && (!r.Found? ==> Border(ks, name, place))
    && (r.Next? ==> place >= |ks|)
    && (!moving ==> place <= |ks| && (r.NoEntry? ==> place < |ks|))
  }

  lemma ConcludeLocates(log: seq<Entry>, name: Name, moving: bool, count: nat)
    requires WellFormed(log) && Ordered(log) && Complete(Keys(log))
    requires count == |Replay(log)| + if moving then 1 else 0
    ensures var best := Scan(log, name);
      Located(Keys(log), name, moving, Conclude(best, count), if best.Id() < count then best.Id() else count)
  {
    ScanEnds(log, name);
    hide Keys, Ordered, Replay, Scan, WellFormed;
  }

  /** lfs_dir_fetchmatch with the name comparison: one forward pass that keeps
      the best tag and the entry count, then the pending move, then the verdict.
      `place` is the id handed back to the caller. */
  method FetchMatch(log: seq<Entry>, name: Name, pending: Option<nat>) returns (r: Outcome, place: nat)
    requires WellFormed(Effective(log, pending)) && Ordered(Effective(log, pending))
    requires Complete(Keys(Effective(log, pending)))
    ensures Located(Keys(Effective(log, pending)), name, pending.Some?, r, place)
  {
    hide Complete, Effective, Keys, Located, Ordered, Replay, Scan, WellFormed;
    WellFormedEffective(log, pending);
    EmptyScan(log, name);
    ScanEffective(log, name, pending);
    ConcludeLocates(Effective(log, pending), name, pending.Some?, |Replay(log)|);
    var best, count := NoBest, 0;
    var i := 0;
    while i < |log|
      invariant 0 <= i <= |log|
      invariant best == Scan(log[..i], name) && count == |Replay(log[..i])|
    {
      ScanPrefix(log, i, name);
      var tag := log[i].tag;
      if tag.kind.cls.Name? {
        if tag.id >= count {
          count := tag.id + 1;
        }
        if tag.kind.chunk < 0x80 {
          var c := FindMatch(log[i].data, name);
          best := NameBest(best, tag, c);
        }
      } else if tag.kind.cls.Splice? {
        count := count + Signed(tag.kind.chunk);
        best := SpliceBest(best, log[i]);
      }
      i := i + 1;
    }
    assert log[..i] == log;
    if pending.Some? {
      if best.Id() == pending.value {
        best := best.(valid := false);
      } else if best.Best? && pending.value < best.Id() {
        best := best.(id := best.id - 1);
      }
    }
    place := if best.Id() < count then best.Id() else count;
    r := Conclude(best, count);
  }

  lemma EmptyScan(log: seq<Entry>, name: Name)
    ensures Scan(log[..0], name) == NoBest && Replay(log[..0]) == []
  {
  }

  lemma WellFormedEffective(log: seq<Entry>, pending: Option<nat>)
    requires WellFormed(Effective(log, pending))
    ensures WellFormed(log)
  {
    assert pending.Some? ==> Effective(log, pending)[..|log|] == log;
  }

  /** The pending move is the last step of the scan. */
  lemma ScanEffective(log: seq<Entry>, name: Name, pending: Option<nat>)
    requires WellFormed(Effective(log, pending))
    ensures Scan(Effective(log, pending), name) ==
            if pending.Some? then SpliceBest(Scan(log, name), DeleteOf(pending.value)) else Scan(log, name)
    ensures |Replay(log)| == |Replay(Effective(log, pending))| + if pending.Some? then 1 else 0
    ensures pending.Some? ==> pending.value < NO_ID
  {
    WellFormedEffective(log, pending);
    CountBound(log);
    assert pending.Some? ==> Effective(log, pending)[..|log|] == log;
  }

  /// ---- The search over a chain of hard tails (lfs_dir_find) ---------------------

  function ChainKeys(pieces: seq<seq<Entry>>): seq<Key> {
    if pieces == [] then [] else Keys(pieces[0]) + ChainKeys(pieces[1..])
  }

  predicate Ready(log: seq<Entry>) {
    WellFormed(log) && Ordered(log) && Complete(Keys(log))
  }

  lemma {:induction false} ChainSplit(pieces: seq<seq<Entry>>, k: nat)
    requires k < |pieces|
    ensures ChainKeys(pieces) == ChainKeys(pieces[..k]) + (Keys(pieces[k]) + ChainKeys(pieces[k + 1..]))
    decreases k
  {
    hide Keys;
    if k == 0 {
      assert ChainKeys(pieces) == [] + ChainKeys(pieces);
    } else {
      ChainSplit(pieces[1..], k - 1);
      assert pieces[1..][..k - 1] == pieces[..k][1..] && pieces[1..][k..] == pieces[k + 1..];
      assert ChainKeys(pieces[..k]) == Keys(pieces[0]) + ChainKeys(pieces[..k][1..]);
    }
  }

  predicate AllBefore(ks: seq<Key>, name: Name) {
    forall i :: 0 <= i < |ks| ==> Before(ks[i], name)
  }

  /** The verdict on one pair settles the whole sorted chain. */
  lemma VerdictLifts(front: seq<Key>, ks: seq<Key>, back: seq<Key>, name: Name, r: Outcome, place: nat)
    requires Sorted(front + (ks + back)) && Complete(back)
    requires AllBefore(front, name) && Located(ks, name, false, r, place)
    requires r.Next? ==> back == []
    ensures r.Found? <==> Named(name) in front + (ks + back)
    ensures !r.Found? ==> Border(front + (ks + back), name, |front| + place)
  {
    var all := front + (ks + back);
    var at := |front| + place;
    OrderEq(name, name);
    if r.Found? {
      assert all[at] == Named(name);
    } else {
      forall i | 0 <= i < |all|
        ensures if i < at then Before(all[i], name) else After(all[i], name)
      {
        if i >= |front| + |ks| {
          assert all[i] == back[i - |front| - |ks|];
          assert all[at] == ks[place] && Less(all[at], all[i]);
          OrderEq(all[at].name, name);
          OrderEq(all[i].name, name);
          OrderTrans(name, all[at].name, all[i].name);
        } else if i >= |front| {
          assert all[i] == ks[i - |front|];
        } else {
          assert all[i] == front[i];
        }
      }
    }
  }

  lemma {:induction false} ChainComplete(pieces: seq<seq<Entry>>)
    requires forall i :: 0 <= i < |pieces| ==> Ready(pieces[i])
    ensures Complete(ChainKeys(pieces))
    decreases |pieces|
  {
    if pieces != [] {
      ChainComplete(pieces[1..]);
      assert Ready(pieces[0]);
    }
  }

  /** The inner loop of lfs_dir_find: fetch pair after pair until one answers.
      `k` is the pair that answered and `place` the id in it. */
  method FindInChain(pieces: seq<seq<Entry>>, name: Name) returns (r: Outcome, k: nat, place: nat)
    requires |pieces| > 0 && Sorted(ChainKeys(pieces))
    requires forall i :: 0 <= i < |pieces| ==> Ready(pieces[i])
    ensures k < |pieces|
    ensures r.Found? <==> Named(name) in ChainKeys(pieces)
    ensures r.Found? ==> place == r.id < |Keys(pieces[k])| && Keys(pieces[k])[r.id] == Named(name)
    ensures !r.Found? ==> Border(ChainKeys(pieces), name, |ChainKeys(pieces[..k])| + place)
  {
    hide Keys, Less, Order, Ordered, Sorted, WellFormed;
    k := 0;
    while true
      invariant k < |pieces| && AllBefore(ChainKeys(pieces[..k]), name)
      decreases |pieces| - k
    {
      assert Ready(pieces[k]);
      r, place := FetchMatch(pieces[k], name, None);
      ChainSplit(pieces, k);
      if !r.Next? || k + 1 == |pieces| {
        ChainComplete(pieces[k + 1..]);
        VerdictLifts(ChainKeys(pieces[..k]), Keys(pieces[k]), ChainKeys(pieces[k + 1..]), name, r, place);
        return;
      }
      ChainSplit(pieces[..k + 1], k);
      assert pieces[..k + 1][..k] == pieces[..k] && pieces[..k + 1][k + 1..] == [];
      k := k + 1;
    }
  }
}
