/** A metadata pair on a device that can lose power at any program step. Two
    blocks with revision counters; commits are appended to one of them or
    compacted into the other. The checksum is an ideal validity mark and programs
    take effect in order. Proved: after any history a fetch yields the log of the
    last completed commit or of the commit in flight. */
module MetadataPair {
  import opened Bytes
  import opened Options
  import opened MetadataLog
  import opened Compaction

  /// ---- Blocks -------------------------------------------------------------------

  /** What a commit's checksum covers: the revision for the first commit of a
      block, and the entries of the commit. */
  datatype Sum = Sum(rev: Option<nat>, entries: seq<Entry>)

  /** One programmed unit: an entry, a sealing checksum (with or without the
      forward checksum of the erased region behind it), or a torn program. */
  datatype Unit = Put(e: Entry) | Seal(sum: Sum, fcrc: bool) | Torn

  /** A block since its last erase; behind the units it is still erased. */
  datatype Block = Block(rev: nat, units: seq<Unit>)

  /** Programming at unit `off`: garbage unless that is erased flash. */
  function Program(b: Block, off: nat, u: Unit): Block {
    if off == |b.units| && (off > 0 ==> b.units[off - 1] != Torn)
    then b.(units := b.units + [u])
    else b.(units := b.units + [Torn])
  }

  /// ---- Scanning one block -----------------------------------------------------------

  /** `log`: what valid commits add up to; `off`: units up to the last of them;
      `temp`: entries read since; `stopped`: cannot continue; `clean`: nothing
      follows the last commit and its forward checksum was written. */
  datatype Scan = Scan(log: Option<seq<Entry>>, off: nat, temp: seq<Entry>, stopped: bool, clean: bool)

  const START := Scan(None, 0, [], false, false)

  /** The checksum that a seal must carry at this point of the scan. */
  function Expected(s: Scan, rev: nat): Sum {
    Sum(if s.log.None? then Some(rev) else None, s.temp)
  }

  function Committed(s: Scan): seq<Entry> {
    (if s.log.None? then [] else s.log.value) + s.temp
  }

  function ScanUnit(s: Scan, rev: nat, i: nat, u: Unit): Scan {
    if s.stopped then s
    else
      match u
      case Put(e) => s.(temp := s.temp + [e], clean := false)
      case Torn => s.(stopped := true, clean := false)
      case Seal(sum, fcrc) =>
        if sum == Expected(s, rev) then Scan(Some(Committed(s)), i + 1, [], false, fcrc)
        else s.(stopped := true, clean := false)
  }

  function ScanUnits(rev: nat, units: seq<Unit>): Scan {
    if units == [] then START
    else
      var n := |units| - 1;
      ScanUnit(ScanUnits(rev, units[..n]), rev, n, units[n])
  }

  function ScanOf(b: Block): Scan { ScanUnits(b.rev, b.units) }

  lemma ScanSnoc(b: Block, u: Unit)
    ensures ScanOf(b.(units := b.units + [u])) == ScanUnit(ScanOf(b), b.rev, |b.units|, u)
  {
    assert (b.units + [u])[..|b.units|] == b.units;
  }

  /** A scan that ends clean has read everything and every unit is intact. */
  lemma {:induction false} ScanReach(rev: nat, units: seq<Unit>)
    ensures var s := ScanUnits(rev, units);
      && s.off <= |units|
      && (s.clean ==> s.off == |units| && s.temp == [] && s.log.Some? && !s.stopped)
      && (!s.stopped && units != [] ==> units[|units| - 1] != Torn)
  {
    if units != [] {
      ScanReach(rev, units[..|units| - 1]);
    }
  }

  /// ---- What a scan reads --------------------------------------------------------------

  /** The entries of one commit, and whether its seal carries a forward checksum. */
  datatype Batch = Batch(entries: seq<Entry>, fcrc: bool)

  function Puts(es: seq<Entry>): (us: seq<Unit>)
    ensures |us| == |es|
  {
    if es == [] then [] else Puts(es[..|es| - 1]) + [Put(es[|es| - 1])]
  }

  /** The units of whole commits; the first one covers the revision. */
  function Written(rev: nat, batches: seq<Batch>): seq<Unit> {
    if batches == [] then []
    else
      var n := |batches| - 1;
      Written(rev, batches[..n]) + Puts(batches[n].entries) +
      [Seal(Sum(if n == 0 then Some(rev) else None, batches[n].entries), batches[n].fcrc)]
  }

  function EntriesOf(batches: seq<Batch>): seq<Entry> {
    if batches == [] then [] else EntriesOf(batches[..|batches| - 1]) + batches[|batches| - 1].entries
  }

  /** `s` is what scanning the units must give: they are whole commits, then entries of
      one without its seal, and then the end, a torn unit, or a seal that does not fit.
      The block is clean exactly when nothing follows the commits and the last of them
      carries a forward checksum. */
  predicate Reads(rev: nat, units: seq<Unit>, batches: seq<Batch>, s: Scan) {
    var whole := Written(rev, batches) + Puts(s.temp);
    && s.log == (if batches == [] then None else Some(EntriesOf(batches)))
    && s.off == |Written(rev, batches)|
    && |whole| <= |units| && units[..|whole|] == whole
    && (s.clean <==> units == whole && s.temp == [] && batches != [] && batches[|batches| - 1].fcrc)
    && if s.stopped then |whole| < |units| && Unfit(rev, batches, s.temp, units[|whole|]) else units == whole
  }

  predicate Unfit(rev: nat, batches: seq<Batch>, temp: seq<Entry>, u: Unit) {
    u.Torn? || (u.Seal? && u.sum != Sum(if batches == [] then Some(rev) else None, temp))
  }

  lemma PutsSnoc(es: seq<Entry>, e: Entry)
    ensures Puts(es + [e]) == Puts(es) + [Put(e)]
  {
    assert (es + [e])[..|es|] == es;
  }

  lemma WrittenSnoc(rev: nat, batches: seq<Batch>, b: Batch)
    ensures Written(rev, batches + [b]) ==
            Written(rev, batches) + Puts(b.entries) +
            [Seal(Sum(if batches == [] then Some(rev) else None, b.entries), b.fcrc)]
    ensures EntriesOf(batches + [b]) == EntriesOf(batches) + b.entries
  {
    assert (batches + [b])[..|batches|] == batches;
  }

  /** A scan reads whole commits up to the first unit that does not fit. */
  lemma {:induction false} ScanReads(rev: nat, units: seq<Unit>) returns (batches: seq<Batch>)
    ensures Reads(rev, units, batches, ScanUnits(rev, units))
    decreases |units|
  {
    if units == [] {
      batches := [];
    } else {
      var n := |units| - 1;
      var s := ScanUnits(rev, units[..n]);
      batches := ScanReads(rev, units[..n]);
      assert units == units[..n] + [units[n]];
      batches := ReadsStep(rev, units[..n], units[n], batches, s);
    }
  }

  lemma ReadsStep(rev: nat, units: seq<Unit>, u: Unit, batches: seq<Batch>, s: Scan) returns (more: seq<Batch>)
    requires Reads(rev, units, batches, s)
    ensures Reads(rev, units + [u], more, ScanUnit(s, rev, |units|, u))
  {
    hide Puts, Written, EntriesOf;
    var whole := Written(rev, batches) + Puts(s.temp);
    more := batches;
    assert (units + [u])[..|whole|] == whole;
    NothingPut();
    if !s.stopped {
      match u {
        case Put(e) =>
          PutsSnoc(s.temp, e);
          assert Written(rev, batches) + Puts(s.temp + [e]) == units + [u];
        case Torn =>
        case Seal(sum, fcrc) =>
          if sum == Expected(s, rev) {
            more := batches + [Batch(s.temp, fcrc)];
            WrittenSnoc(rev, batches, Batch(s.temp, fcrc));
            assert Written(rev, more) == units + [u] && Written(rev, more) + [] == Written(rev, more);
          }
      }
    }
  }

  lemma NothingPut()
    ensures Puts([]) == [] && EntriesOf([]) == []
  {
  }

  /** And what was written is read: scanning whole commits gives their entries. */
  lemma {:induction false} WrittenReads(rev: nat, batches: seq<Batch>)
    ensures
      var s := ScanUnits(rev, Written(rev, batches));
      && s.log == (if batches == [] then None else Some(EntriesOf(batches))) && s.temp == [] && !s.stopped
      && s.off == |Written(rev, batches)|
      && (s.clean <==> batches != [] && batches[|batches| - 1].fcrc)
    decreases |batches|
  {
    if batches != [] {
      var n := |batches| - 1;
      var front, b := Written(rev, batches[..n]), batches[n];
      WrittenReads(rev, batches[..n]);
      PutsRead(rev, front, b.entries);
      ScanSnoc(Block(rev, front + Puts(b.entries)), Seal(Sum(if n == 0 then Some(rev) else None, b.entries), b.fcrc));
      assert n == 0 ==> [] + b.entries == b.entries;
      hide ScanUnits, Puts, Written;
    }
  }

  lemma {:induction false} PutsRead(rev: nat, front: seq<Unit>, es: seq<Entry>)
    requires !ScanUnits(rev, front).stopped && ScanUnits(rev, front).temp == []
    ensures
      var s, s' := ScanUnits(rev, front), ScanUnits(rev, front + Puts(es));
      s'.log == s.log && s'.off == s.off && s'.temp == es && !s'.stopped
    decreases |es|
  {
    if es == [] {
      assert front + Puts(es) == front;
    } else {
      var init, e := es[..|es| - 1], es[|es| - 1];
      PutsRead(rev, front, init);
      ScanSnoc(Block(rev, front + Puts(init)), Put(e));
      assert front + Puts(es) == front + Puts(init) + [Put(e)] && init + [e] == es;
      hide ScanUnits;
    }
  }

  /// ---- Fetching a pair ----------------------------------------------------------------

  /** The signed distance between two revision counters, ignoring overflow. */
  function Scmp(a: nat, b: nat): int {
    var d := (a - b) % WORD_SPACE;
    if d < WORD_SPACE / 2 then d else d - WORD_SPACE
  }

  function NextRev(rev: nat): (r: nat)
    ensures r < WORD_SPACE
  {
    (rev + 1) % WORD_SPACE
  }

  /** Revisions count up by one and start over behind the last. */
  lemma NextRevIs(rev: nat)
    requires rev < WORD_SPACE
    ensures NextRev(rev) == if rev == 0xffff_ffff then 0 else rev + 1
  {
  }

  /** The distance is the difference taken as a signed 32-bit number. */
  lemma ScmpIs(a: nat, b: nat)
    ensures -0x8000_0000 <= Scmp(a, b) < 0x8000_0000 && (a - b - Scmp(a, b)) % WORD_SPACE == 0
  {
    var d := (a - b) % WORD_SPACE;
    assert a - b == (a - b) / WORD_SPACE * WORD_SPACE + d;
  }

  /** Across any wrap-around the successor compares as newer, both ways round. */
  lemma NextIsNewer(rev: nat)
    requires rev < WORD_SPACE
    ensures Scmp(NextRev(rev), rev) > 0 && !(Scmp(rev, NextRev(rev)) > 0)
  {
    if rev + 1 < WORD_SPACE {
      assert (rev + 1 - rev) % WORD_SPACE == 1 && (rev - (rev + 1)) % WORD_SPACE == WORD_SPACE - 1;
    } else {
      assert (0 - rev) % WORD_SPACE == 1;
    }
  }

  /** The directory as it stands in memory: which block is current, its revision,
      where its commits end, what they say, and whether the rest is erased. */
  datatype Mdir = Mdir(second: bool, rev: nat, off: nat, log: seq<Entry>, erased: bool)

  function ReadBlock(second: bool, b: Block): Option<Mdir> {
    var s := ScanOf(b);
    if s.log.None? then None else Some(Mdir(second, b.rev, s.off, s.log.value, s.clean))
  }

  /** The block with the more recent revision first, the other one if that holds
      no valid commit. */
  function FetchOf(b0: Block, b1: Block): Option<Mdir> {
    var second := Scmp(b1.rev, b0.rev) > 0;
    var first := ReadBlock(second, if second then b1 else b0);
    if first.Some? then first else ReadBlock(!second, if second then b0 else b1)
  }

  /** lfs_dir_fetchmatch, the part that picks a block and scans its commits. */
  method Fetch(b0: Block, b1: Block) returns (dir: Option<Mdir>)
    ensures dir == FetchOf(b0, b1)
  {
    var second := false;
    if Scmp(b1.rev, b0.rev) > 0 {
      second := true;
    }
    var tries := 0;
    while tries < 2
      invariant 0 <= tries <= 2
      invariant second == ((Scmp(b1.rev, b0.rev) > 0) != (tries % 2 == 1))
      invariant tries >= 1 ==> ReadBlock(!second, if second then b0 else b1).None?
      invariant tries == 2 ==> ReadBlock(second, if second then b1 else b0).None?
    {
      var block := if second then b1 else b0;
      var s := START;
      var i := 0;
      while i < |block.units| && !s.stopped
        invariant 0 <= i <= |block.units|
        invariant s == ScanUnits(block.rev, block.units[..i])
      {
        assert block.units[..i + 1][..i] == block.units[..i];
        s := ScanUnit(s, block.rev, i, block.units[i]);
        i := i + 1;
      }
      ScanStops(block.rev, block.units, i);
      if s.log.Some? {
        return Some(Mdir(second, block.rev, s.off, s.log.value, s.clean));
      }
      second, tries := !second, tries + 1;
    }
    dir := None;
  }

  lemma {:induction false} ScanStops(rev: nat, units: seq<Unit>, i: nat)
    requires i <= |units| && (i < |units| ==> ScanUnits(rev, units[..i]).stopped)
    ensures ScanUnits(rev, units) == ScanUnits(rev, units[..i])
    decreases |units|
  {
    if i == |units| {
      assert units[..i] == units;
    } else {
      var n := |units| - 1;
      assert units[..n][..i] == units[..i];
      ScanStops(rev, units[..n], i);
    }
  }

  /** A pair can be fetched exactly if a block holds a commit that validates. Of two
      such blocks the one with the more recent revision wins. The directory says what
      its whole commits say, and more can be appended exactly if nothing follows them
      and the last one carries a forward checksum. */
  lemma FetchedReads(b0: Block, b1: Block) returns (batches: seq<Batch>)
    ensures FetchOf(b0, b1).None? <==> ScanOf(b0).log.None? && ScanOf(b1).log.None?
    ensures FetchOf(b0, b1).Some? ==>
      var dir := FetchOf(b0, b1).value;
      var b := if dir.second then b1 else b0;
      && (ScanOf(b0).log.Some? && ScanOf(b1).log.Some? ==> (dir.second <==> Scmp(b1.rev, b0.rev) > 0))
      && dir.rev == b.rev && batches != [] && dir.log == EntriesOf(batches)
      && dir.off == |Written(b.rev, batches)| <= |b.units| && b.units[..dir.off] == Written(b.rev, batches)
      && (dir.erased <==> b.units == Written(b.rev, batches) && batches[|batches| - 1].fcrc)
  {
    hide Puts, Written, EntriesOf, ScanUnits, Scmp;
    var dir := FetchOf(b0, b1);
    var b := if dir.Some? && dir.value.second then b1 else b0;
    batches := ScanReads(b.rev, b.units);
    var s, written := ScanUnits(b.rev, b.units), Written(b.rev, batches);
    NothingPut();
    assert written + [] == written;
    assert (written + Puts(s.temp))[..|written|] == written;
  }

  /// ---- The pair as a state machine -------------------------------------------------------

  datatype Mode = Append | Compact

  /** A commit erases and heads the other block when it compacts, writes its
      entries one by one, and seals. */
  datatype Stage = Erasing | Heading | Writing | Sealed

  datatype Ram =
    | Off
    | Idle(dir: Mdir)
    | Busy(dir: Mdir, mode: Mode, stage: Stage, done: seq<Entry>, rest: seq<Entry>, fcrc: bool)

  /** `acked` is the log of the last commit that returned (or was recovered by a
      mount), `flight` the log of a commit that has not returned. */
  datatype State = State(b0: Block, b1: Block, ram: Ram, acked: seq<Entry>, flight: Option<seq<Entry>>) {
    function Get(second: bool): Block { if second then b1 else b0 }

    function Set(second: bool, b: Block): State {
      if second then this.(b1 := b) else this.(b0 := b)
    }
  }

  /** The block that a commit writes to. */
  function Target(dir: Mdir, mode: Mode): bool {
    if mode.Append? then dir.second else !dir.second
  }

  function Base(dir: Mdir, mode: Mode): seq<Entry> {
    if mode.Append? then dir.log else []
  }

  /** The events of a history. The parameters stand for what the device and the
      rest of the filesystem decide: attributes to commit, entries that compaction
      adds (tail and global state), room for a forward checksum, what flash holds
      after an erase, and what a torn erase or header leaves. */
  datatype Event =
    | Mount
    | Commit(attrs: seq<Entry>, extra: seq<Entry>, fcrc: bool)
    | Fallback(extra: seq<Entry>, fcrc: bool)
    | Advance(blank: nat)
    | Finish
    | PowerLoss(torn: bool, left: Block)

  /** The log that compaction writes for a log with its pending attributes. */
  function Rewrite(log: seq<Entry>, extra: seq<Entry>): seq<Entry> {
    Compacted(log, 0, |Replay(log)|) + extra
  }

  function StartCompact(s: State, dir: Mdir, log: seq<Entry>, extra: seq<Entry>, fcrc: bool): State {
    s.(ram := Busy(dir, Compact, Erasing, [], Rewrite(log, extra), fcrc), flight := Some(Rewrite(log, extra)))
  }

  /** One program step of the commit in progress. */
  function AdvanceBusy(s: State, blank: nat): State
    requires s.ram.Busy?
  {
    var r := s.ram;
    var second := Target(r.dir, r.mode);
    var b := s.Get(second);
    var off := (if r.mode.Append? then r.dir.off else 0) + |r.done|;
    match r.stage
    case Erasing => s.Set(second, Block(blank % WORD_SPACE, [])).(ram := r.(stage := Heading))
    case Heading => s.Set(second, b.(rev := NextRev(r.dir.rev))).(ram := r.(stage := Writing))
    case Writing =>
      if r.rest != [] then
        s.Set(second, Program(b, off, Put(r.rest[0])))
         .(ram := r.(done := r.done + [r.rest[0]], rest := r.rest[1..]))
      else
        var rev := if r.mode.Append? then None else Some(NextRev(r.dir.rev));
        s.Set(second, Program(b, off, Seal(Sum(rev, r.done), r.fcrc))).(ram := r.(stage := Sealed))
    case Sealed => s
  }

  /** What an interrupted erase may leave: a block without a valid commit or, of a
      block that had some, whatever commits under the same revision. */
  predicate ErasePart(b: Block, left: Block) {
    left.rev < WORD_SPACE && (ScanOf(left).log.Some? ==> ScanOf(b).log.Some? && left.rev == b.rev)
  }

  /** What the program step that is under way leaves when power fails. */
  function Tear(s: State, left: Block): State
    requires s.ram.Busy?
  {
    var r := s.ram;
    var second := Target(r.dir, r.mode);
    var b := s.Get(second);
    match r.stage
    case Erasing => if ErasePart(b, left) then s.Set(second, left) else s
    case Heading => s.Set(second, b.(rev := left.rev % WORD_SPACE))
    case Writing => s.Set(second, b.(units := b.units + [Torn]))
    case Sealed => s
  }

  /** One event; events that do not apply change nothing. */
  function Exec(s: State, ev: Event): State {
    match (ev, s.ram)
    case (Mount, Off) =>
      var dir := FetchOf(s.b0, s.b1);
      if dir.None? then s else s.(ram := Idle(dir.value), acked := dir.value.log, flight := None)
    case (Commit(attrs, extra, fcrc), Idle(dir)) =>
      if dir.erased then
        s.(ram := Busy(dir, Append, Writing, [], attrs, fcrc), flight := Some(dir.log + attrs))
      else StartCompact(s, dir, dir.log + attrs, extra, fcrc)
    case (Fallback(extra, fcrc), Busy(dir, mode, stage, done, rest, _)) =>
      if mode.Append? && stage.Writing? then
        StartCompact(s, dir, dir.log + (done + rest), extra, fcrc)
      else s
    case (Advance(blank), Busy(_, _, _, _, _, _)) => AdvanceBusy(s, blank)
    case (Finish, Busy(dir, mode, stage, done, rest, _)) =>
      if stage.Sealed? then
        var b := s.Get(Target(dir, mode));
        var log := Base(dir, mode) + done;
        s.(ram := Idle(Mdir(Target(dir, mode), b.rev, |b.units|, log, dir.erased)), acked := log, flight := None)
      else s
    case (PowerLoss(torn, left), Busy(_, _, _, _, _, _)) =>
      (if torn then Tear(s, left) else s).(ram := Off)
    case (PowerLoss(_, _), Idle(_)) => s.(ram := Off)
    case _ => s
  }

  function Run(s: State, evs: seq<Event>): State {
    if evs == [] then s else Exec(Run(s, evs[..|evs| - 1]), evs[|evs| - 1])
  }

  /// ---- What every event keeps ----------------------------------------------------------------

  /** The block `second` holds `log` and a fetch will choose it. */
  predicate Wins(s: State, second: bool, log: seq<Entry>) {
    var w, o := s.Get(second), s.Get(!second);
    && w.rev < WORD_SPACE && o.rev < WORD_SPACE
    && ScanOf(w).log == Some(log)
    && (ScanOf(o).log.Some? ==> w.rev == NextRev(o.rev))
  }

  lemma WinsFetch(s: State, second: bool, log: seq<Entry>)
    requires Wins(s, second, log)
    ensures
      var b := s.Get(second);
      FetchOf(s.b0, s.b1) == Some(Mdir(second, b.rev, ScanOf(b).off, log, ScanOf(b).clean))
  {
    NextIsNewer(s.Get(!second).rev);
  }

  /** All units of the block are intact and the last commit is its end, but for
      the entries `temp` of a commit that is being written. */
  predicate Open(b: Block, off: nat, temp: seq<Entry>) {
    var sc := ScanOf(b);
    !sc.stopped && sc.temp == temp && off + |temp| == |b.units|
  }

  predicate Writable(s: State, dir: Mdir) {
    dir.rev == s.Get(dir.second).rev && (dir.erased ==> Open(s.Get(dir.second), dir.off, []))
  }

  predicate BusyOk(s: State, r: Ram)
    requires r.Busy?
  {
    var base := Base(r.dir, r.mode);
    var t := s.Get(Target(r.dir, r.mode));
    var w := s.Get(r.dir.second);
    && s.acked == r.dir.log
    && s.flight == Some(base + (r.done + r.rest))
    && (r.mode.Append? ==> r.stage.Writing? || r.stage.Sealed?)
    && (r.stage.Erasing? || r.stage.Heading? ==> r.done == [])
    && if r.stage.Sealed? then
         && r.rest == [] && Wins(s, Target(r.dir, r.mode), base + r.done)
         && Open(t, |t.units|, [])
       else
         && Wins(s, r.dir.second, r.dir.log) && r.dir.rev == w.rev
         && (r.stage.Heading? ==> t.units == [])
         && (r.stage.Writing? ==>
               && Open(t, if r.mode.Append? then r.dir.off else 0, r.done)
               && (r.mode.Compact? ==> ScanOf(t).log.None? && t.rev == NextRev(w.rev)))
  }

  predicate Inv(s: State) {
    match s.ram
    case Off =>
      var dir := FetchOf(s.b0, s.b1);
      && dir.Some? && Wins(s, dir.value.second, dir.value.log)
      && (dir.value.log == s.acked || s.flight == Some(dir.value.log))
    case Idle(dir) =>
      Wins(s, dir.second, dir.log) && dir.log == s.acked && s.flight.None? && Writable(s, dir)
    case Busy(_, _, _, _, _, _) => BusyOk(s, s.ram)
  }

  lemma MountKeeps(s: State)
    requires Inv(s) && s.ram.Off?
    ensures Inv(Exec(s, Mount))
  {
    var dir := FetchOf(s.b0, s.b1).value;
    WinsFetch(s, dir.second, dir.log);
    var b := s.Get(dir.second);
    ScanReach(b.rev, b.units);
  }

  lemma CommitKeeps(s: State, attrs: seq<Entry>, extra: seq<Entry>, fcrc: bool)
    requires Inv(s) && s.ram.Idle?
    ensures Inv(Exec(s, Commit(attrs, extra, fcrc)))
  {
    hide FetchOf, NextRev, Rewrite, Scmp;
    assert [] + attrs == attrs;
    var all := Rewrite(s.ram.dir.log + attrs, extra);
    assert [] + ([] + all) == all;
  }

  lemma FallbackKeeps(s: State, extra: seq<Entry>, fcrc: bool)
    requires Inv(s) && s.ram.Busy?
    ensures Inv(Exec(s, Fallback(extra, fcrc)))
  {
    hide FetchOf, NextRev, Rewrite, Scmp;
    var r := s.ram;
    var all := Rewrite(r.dir.log + (r.done + r.rest), extra);
    assert [] + ([] + all) == all;
  }

  lemma AdvanceEraseKeeps(s: State, blank: nat)
    requires Inv(s) && s.ram.Busy? && (s.ram.stage.Erasing? || s.ram.stage.Heading?)
    ensures Inv(Exec(s, Advance(blank)))
  {
    hide FetchOf, NextRev, Rewrite, Scmp;
  }

  lemma AdvancePutKeeps(s: State, blank: nat)
    requires Inv(s) && s.ram.Busy? && s.ram.stage.Writing? && s.ram.rest != []
    ensures Inv(Exec(s, Advance(blank)))
  {
    hide FetchOf, NextRev, Rewrite, ScanUnits, Scmp;
    var r := s.ram;
    var t := s.Get(Target(r.dir, r.mode));
    ScanSnoc(t, Put(r.rest[0]));
    ScanReach(t.rev, t.units);
    assert r.done + r.rest == (r.done + [r.rest[0]]) + r.rest[1..];
  }

  lemma AdvanceSealKeeps(s: State, blank: nat)
    requires Inv(s) && s.ram.Busy? && s.ram.stage.Writing? && s.ram.rest == []
    ensures Inv(Exec(s, Advance(blank)))
  {
    hide FetchOf, NextRev, Rewrite, ScanUnits, Scmp;
    var r := s.ram;
    var t := s.Get(Target(r.dir, r.mode));
    var rev := if r.mode.Append? then None else Some(NextRev(r.dir.rev));
    ScanSnoc(t, Seal(Sum(rev, r.done), r.fcrc));
    ScanReach(t.rev, t.units);
    assert r.done + r.rest == r.done;
  }

  lemma FinishKeeps(s: State)
    requires Inv(s) && s.ram.Busy?
    ensures Inv(Exec(s, Finish))
  {
  }

  /** A torn step never validates and never disturbs the block that wins. */
  lemma TearKeeps(s: State, left: Block)
    requires s.ram.Busy? && BusyOk(s, s.ram) && !s.ram.stage.Sealed?
    ensures Wins(Tear(s, left), s.ram.dir.second, s.ram.dir.log)
  {
    ScanSnoc(s.Get(Target(s.ram.dir, s.ram.mode)), Torn);
    hide NextRev, ScanUnits;
  }

  lemma PowerLossKeeps(s: State, torn: bool, left: Block)
    requires Inv(s) && s.ram.Busy?
    ensures Inv(Exec(s, PowerLoss(torn, left)))
  {
    var r := s.ram;
    var s' := Exec(s, PowerLoss(torn, left));
    var second := if r.stage.Sealed? then Target(r.dir, r.mode) else r.dir.second;
    var log := if r.stage.Sealed? then Base(r.dir, r.mode) + r.done else r.dir.log;
    assert r.stage.Sealed? ==> r.done + r.rest == r.done;
    if !r.stage.Sealed? {
      TearKeeps(s, left);
    }
    hide NextRev, ScanOf, ScanUnits;
    assert Wins(s', second, log);
    WinsFetch(s', second, log);
  }

  lemma ExecKeeps(s: State, ev: Event)
    requires Inv(s)
    ensures Inv(Exec(s, ev))
  {
    match (ev, s.ram)
    case (Mount, Off) => MountKeeps(s);
    case (Commit(attrs, extra, fcrc), Idle(_)) => CommitKeeps(s, attrs, extra, fcrc);
    case (Fallback(extra, fcrc), Busy(_, _, _, _, _, _)) => FallbackKeeps(s, extra, fcrc);
    case (Advance(blank), Busy(_, _, _, _, _, _)) =>
      if s.ram.stage.Erasing? || s.ram.stage.Heading? {
        AdvanceEraseKeeps(s, blank);
      } else if s.ram.stage.Writing? {
        if s.ram.rest != [] {
          AdvancePutKeeps(s, blank);
        } else {
          AdvanceSealKeeps(s, blank);
        }
      }
    case (Finish, Busy(_, _, _, _, _, _)) => FinishKeeps(s);
    case (PowerLoss(torn, left), Busy(_, _, _, _, _, _)) => PowerLossKeeps(s, torn, left);
    case (PowerLoss(_, _), Idle(dir)) => WinsFetch(s, dir.second, dir.log);
    case _ =>
  }

  /** Power-loss atomicity over whole runs: whatever happened, a fetch yields the
      log of the last commit that returned, or of the commit in flight. */
  lemma {:induction false} FetchAfterRun(s: State, evs: seq<Event>)
    requires Inv(s)
    ensures Inv(Run(s, evs))
    ensures
      var r := Run(s, evs);
      var dir := FetchOf(r.b0, r.b1);
      dir.Some? && (dir.value.log == r.acked || r.flight == Some(dir.value.log))
    decreases |evs|
  {
    if evs != [] {
      FetchAfterRun(s, evs[..|evs| - 1]);
      ExecKeeps(Run(s, evs[..|evs| - 1]), evs[|evs| - 1]);
    }
    var r := Run(s, evs);
    FetchInv(r);
  }

  lemma FetchInv(r: State)
    requires Inv(r)
    ensures
      var dir := FetchOf(r.b0, r.b1);
      dir.Some? && (dir.value.log == r.acked || r.flight == Some(dir.value.log))
  {
    match r.ram
    case Off =>
    case Idle(dir) => WinsFetch(r, dir.second, dir.log);
    case Busy(dir, mode, stage, done, rest, _) =>
      if stage.Sealed? {
        WinsFetch(r, Target(dir, mode), Base(dir, mode) + done);
        assert done + rest == done;
      } else {
        WinsFetch(r, dir.second, dir.log);
      }
  }

  /// ---- Commits come to their end, and a torn one is noticed -----------------------------------

  /** The program steps that a commit has yet to take. */
  function Remaining(ram: Ram): nat
    requires ram.Busy?
  {
    match ram.stage
    case Erasing => |ram.rest| + 3
    case Heading => |ram.rest| + 2
    case Writing => |ram.rest| + 1
    case Sealed => 0
  }

  lemma AdvanceRemains(s: State)
    requires s.ram.Busy? && !s.ram.stage.Sealed?
    ensures Exec(s, Advance(0)).ram.Busy? && Remaining(Exec(s, Advance(0)).ram) < Remaining(s.ram)
  {
  }

  function Advances(n: nat): seq<Event> {
    if n == 0 then [] else [Advance(0)] + Advances(n - 1)
  }

  lemma {:induction false} RunConcat(s: State, a: seq<Event>, b: seq<Event>)
    ensures Run(s, a + b) == Run(Run(s, a), b)
    decreases |b|
  {
    hide Exec;
    if b == [] {
      assert a + b == a;
    } else {
      RunConcat(s, a, b[..|b| - 1]);
      assert (a + b)[..|a + b| - 1] == a + b[..|b| - 1];
    }
  }

  lemma RunOne(s: State, ev: Event)
    ensures Run(s, []) == s && Run(s, [ev]) == Exec(s, ev)
  {
    hide Exec;
    assert [ev][..0] == [];
  }

  /** What stays the same while a commit runs, and what its seal says in the end. */
  predicate SameCommit(s: State, t: State) {
    && s.ram.Busy? && t.ram.Busy? && t.acked == s.acked && t.flight == s.flight
    && t.ram.dir == s.ram.dir && t.ram.mode == s.ram.mode && t.ram.fcrc == s.ram.fcrc
    && (t.ram.stage.Sealed? && !s.ram.stage.Sealed? ==>
          ScanOf(t.Get(Target(t.ram.dir, t.ram.mode))).clean == t.ram.fcrc)
  }

  lemma SealClean(s: State)
    requires Inv(s) && s.ram.Busy? && s.ram.stage.Writing? && s.ram.rest == []
    ensures
      var t := Exec(s, Advance(0));
      t.ram.Busy? && ScanOf(t.Get(Target(s.ram.dir, s.ram.mode))).clean == s.ram.fcrc
  {
    hide FetchOf, NextRev, Rewrite, ScanUnits, Scmp;
    var r := s.ram;
    var b := s.Get(Target(r.dir, r.mode));
    var rev := if r.mode.Append? then None else Some(NextRev(r.dir.rev));
    ScanSnoc(b, Seal(Sum(rev, r.done), r.fcrc));
    ScanReach(b.rev, b.units);
  }

  lemma AdvanceSame(s: State)
    requires Inv(s) && s.ram.Busy? && !s.ram.stage.Sealed?
    ensures Inv(Exec(s, Advance(0))) && SameCommit(s, Exec(s, Advance(0)))
  {
    hide Inv, Program, ScanOf;
    ExecKeeps(s, Advance(0));
    if s.ram.stage.Writing? && s.ram.rest == [] {
      SealClean(s);
    }
  }

  lemma {:induction false} RunsToSeal(s: State) returns (n: nat)
    requires Inv(s) && s.ram.Busy? && !s.ram.stage.Sealed?
    ensures
      var t := Run(s, Advances(n));
      Inv(t) && SameCommit(s, t) && t.ram.stage.Sealed?
    decreases Remaining(s.ram)
  {
    hide Inv, Exec, Remaining, Run, ScanOf;
    var s1 := Exec(s, Advance(0));
    RunOne(s, Advance(0));
    AdvanceRemains(s);
    AdvanceSame(s);
    if s1.ram.stage.Sealed? {
      n := 1;
      assert Advances(1) == [Advance(0)] + Advances(0) == [Advance(0)];
    } else {
      var m := RunsToSeal(s1);
      RunConcat(s, [Advance(0)], Advances(m));
      n := m + 1;
    }
  }

  lemma FinishEnds(s: State)
    requires Inv(s) && s.ram.Busy? && s.ram.stage.Sealed?
    ensures
      var t := Exec(s, Finish);
      && Inv(t) && t.ram.Idle? && s.flight == Some(t.acked) && t.ram.dir.log == t.acked
      && t.b0 == s.b0 && t.b1 == s.b1
      && t.ram.dir.second == Target(s.ram.dir, s.ram.mode)
  {
    ExecKeeps(s, Finish);
    assert s.ram.done + s.ram.rest == s.ram.done;
    hide Wins, FetchOf;
  }

  /** What a commit of attributes leaves behind: appended, or compacted into the other
      block when nothing can be appended. */
  function LeftBy(dir: Mdir, attrs: seq<Entry>, extra: seq<Entry>): seq<Entry> {
    if dir.erased then dir.log + attrs else Rewrite(dir.log + attrs, extra)
  }

  /** A fetch finds this log in this block, with room for more behind it or not. */
  predicate Finds(s: State, second: bool, log: seq<Entry>, erased: bool) {
    var dir := FetchOf(s.b0, s.b1);
    dir.Some? && dir.value.second == second && dir.value.log == log && dir.value.erased == erased
  }

  lemma IdleFinds(t: State)
    requires Inv(t) && t.ram.Idle?
    ensures Finds(t, t.ram.dir.second, t.acked, ScanOf(t.Get(t.ram.dir.second)).clean)
  {
    WinsFetch(t, t.ram.dir.second, t.ram.dir.log);
    hide FetchOf, ScanUnits;
  }

  /** Left alone, a commit under way ends with its log in its block, and the next fetch
      can append behind it exactly if its seal carries a forward checksum. */
  lemma CommitEnds(s: State) returns (n: nat)
    requires Inv(s) && s.ram.Busy? && !s.ram.stage.Sealed?
    ensures
      var t := Run(s, Advances(n) + [Finish]);
      && Inv(t) && t.ram.Idle? && s.flight == Some(t.acked) && t.ram.dir.log == t.acked
      && Finds(t, Target(s.ram.dir, s.ram.mode), t.acked, s.ram.fcrc)
  {
    hide Exec, Finds, Inv, Run, ScanOf;
    n := RunsToSeal(s);
    var t := Run(s, Advances(n));
    RunConcat(s, Advances(n), [Finish]);
    RunOne(t, Finish);
    FinishEnds(t);
    IdleFinds(Exec(t, Finish));
  }

  lemma CommitBegins(s: State, attrs: seq<Entry>, extra: seq<Entry>, fcrc: bool)
    requires Inv(s) && s.ram.Idle?
    ensures
      var dir, t := s.ram.dir, Exec(s, Commit(attrs, extra, fcrc));
      && Inv(t) && t.ram.Busy? && !t.ram.stage.Sealed? && t.ram.fcrc == fcrc && t.ram.dir == dir
      && t.ram.mode == (if dir.erased then Append else Compact) && t.flight == Some(LeftBy(dir, attrs, extra))
  {
    ExecKeeps(s, Commit(attrs, extra, fcrc));
    hide Inv, Rewrite;
  }

  /** A commit that is not interrupted ends with the attributes committed. */
  lemma CommitCompletes(s: State, attrs: seq<Entry>, extra: seq<Entry>, fcrc: bool) returns (n: nat)
    requires Inv(s) && s.ram.Idle?
    ensures
      var dir, t := s.ram.dir, Run(s, [Commit(attrs, extra, fcrc)] + (Advances(n) + [Finish]));
      && Inv(t) && t.ram.Idle? && t.acked == t.ram.dir.log == LeftBy(dir, attrs, extra)
      && Finds(t, if dir.erased then dir.second else !dir.second, t.acked, fcrc)
  {
    hide Exec, Finds, Inv, LeftBy, Run;
    CommitBegins(s, attrs, extra, fcrc);
    n := CommitEnds(Exec(s, Commit(attrs, extra, fcrc)));
    RunConcat(s, [Commit(attrs, extra, fcrc)], Advances(n) + [Finish]);
    RunOne(s, Commit(attrs, extra, fcrc));
  }

  /** So does one that turns to compaction half way: it ends in the other block, with
      the log it would have left there in the first place. */
  lemma FallbackCompletes(s: State, extra: seq<Entry>, fcrc: bool) returns (n: nat)
    requires Inv(s) && s.ram.Busy? && s.ram.mode.Append? && s.ram.stage.Writing?
    ensures
      var t := Run(s, [Fallback(extra, fcrc)] + (Advances(n) + [Finish]));
      && Inv(t) && t.ram.Idle? && t.acked == t.ram.dir.log == Rewrite(s.flight.value, extra)
      && Finds(t, !s.ram.dir.second, t.acked, fcrc)
  {
    FallbackBegins(s, extra, fcrc);
    hide Exec, Finds, Inv, Rewrite, Run;
    n := CommitEnds(Exec(s, Fallback(extra, fcrc)));
    RunConcat(s, [Fallback(extra, fcrc)], Advances(n) + [Finish]);
    RunOne(s, Fallback(extra, fcrc));
  }

  lemma FallbackBegins(s: State, extra: seq<Entry>, fcrc: bool)
    requires Inv(s) && s.ram.Busy? && s.ram.mode.Append? && s.ram.stage.Writing?
    ensures s.flight.Some?
    ensures
      var t := Exec(s, Fallback(extra, fcrc));
      && Inv(t) && t.ram.Busy? && !t.ram.stage.Sealed? && t.ram.fcrc == fcrc
      && t.ram.dir == s.ram.dir && t.ram.mode == Compact && t.flight == Some(Rewrite(s.flight.value, extra))
  {
    ExecKeeps(s, Fallback(extra, fcrc));
    hide Wins, FetchOf, Rewrite, ScanOf;
  }

  /** An append that lost power, once it wrote anything or was torn, is noticed: the next
      mount finds the old log and will not append behind it again. */
  lemma TornAppendNoticed(s: State, torn: bool, left: Block)
    requires Inv(s) && s.ram.Busy? && s.ram.mode.Append? && s.ram.stage.Writing? && (torn || s.ram.done != [])
    ensures
      var t := Exec(Exec(s, PowerLoss(torn, left)), Mount);
      t.ram.Idle? && t.ram.dir.log == t.acked == s.acked && !t.ram.dir.erased && t.ram.dir.second == s.ram.dir.second
  {
    var b := s.Get(s.ram.dir.second);
    ScanSnoc(b, Torn);
    ScanReach(b.rev, b.units);
    ScanReach(b.rev, b.units + [Torn]);
    var t := Exec(s, PowerLoss(torn, left));
    PowerLossKeeps(s, torn, left);
    TearKeeps(s, left);
    hide NextRev, Scmp, ScanUnits, Rewrite;
    WinsFetch(t, s.ram.dir.second, s.ram.dir.log);
  }

  /** A power loss may leave any of these behind: a half-erased block, a header with a
      wrong revision, a torn unit. */
  lemma TornLeaves(s: State, left: Block)
    requires s.ram.Busy?
    ensures
      var second := Target(s.ram.dir, s.ram.mode);
      var t := Exec(s, PowerLoss(true, left));
      && t.ram.Off? && t.Get(!second) == s.Get(!second)
      && (s.ram.stage.Erasing? && ErasePart(s.Get(second), left) ==> t.Get(second) == left)
      && (s.ram.stage.Heading? && left.rev < WORD_SPACE ==> t.Get(second).rev == left.rev)
      && (s.ram.stage.Writing? ==> t.Get(second).units == s.Get(second).units + [Torn])
  {
  }
}
