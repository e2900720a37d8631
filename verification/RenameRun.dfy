/** A rename over two metadata pairs on a device that loses power at any program
    step. The two pairs run as in module MetadataPair; the move is noted in the global
    state, whose delta is sealed in the same commit as the new name, and a mount
    finds it again in the deltas of all logs. Proved: after every sequence of program
    steps, power losses, mounts and clean-ups exactly one of the two names leads to
    the file, with the same contents, and no other name is affected. */
module RenameRun {
  import opened BitMath
  import opened Bytes
  import opened Options
  import opened Tags
  import opened MetadataLog
  import opened Compaction
  import opened NameSearch
  import opened MetadataPair
  import opened Durability
  import opened Rename
  import opened NameOrder
  import opened StateWords
  import G = GlobalState

  /// ---- One commit with its global state ---------------------------------------------------

  /** A change to a directory, without global state. */
  ghost predicate Change(log: seq<Entry>, attrs: seq<Entry>) {
    Ready(log + attrs) && Stateless(attrs)
  }

  /** `f` is the directory of pair `i` with the change, and the deltas of all pairs
      with those of `f` sum to the state. */
  ghost predicate Stores(pairs: seq<G.Deltas>, i: nat, log: seq<Entry>, attrs: seq<Entry>, gstate: G.Word, f: seq<Entry>)
    requires i < |pairs|
  {
    Means(f, log + attrs) && Ready(f) && G.Balanced(pairs[i := DeltasOf(f)], {}, gstate)
  }

  /** The balance before a commit on pair `i`. */
  ghost predicate Settled(pairs: seq<G.Deltas>, i: nat, log: seq<Entry>, gstate: G.Word, gdisk: G.Word) {
    && i < |pairs| && pairs[i] == DeltasOf(log) && G.Balanced(pairs, {}, gdisk)
    && InWords(gstate) && InWords(gdisk)
  }

  lemma ReadyParts(log: seq<Entry>)
    requires Ready(log)
    ensures WellFormed(log) && AllNamed(Replay(log)) && Means(log, log)
  {
    hide Keys, Ordered, WellFormed;
    NamedComplete(log);
  }

  lemma Assoc(a: seq<Entry>, b: seq<Entry>, c: seq<Entry>)
    ensures a + (b + c) == a + b + c
  {
  }

  lemma AppendStores(pairs: seq<G.Deltas>, i: nat, log: seq<Entry>, attrs: seq<Entry>, gstate: G.Word, gdisk: G.Word)
    requires Settled(pairs, i, log, gstate, gdisk) && Change(log, attrs)
    ensures Stores(pairs, i, log, attrs, gstate, log + (attrs + Appended(log, gstate, gdisk)))
  {
    hide G.Balanced, G.Delta, G.Latest, G.Sum, G.Xor, Appended, DeltasOf, InWords, Means, Ready, Stateless;
    var app := Appended(log, gstate, gdisk);
    WrittenNeutral(log, gstate, gdisk);
    ReadyParts(log + attrs);
    MeansNeutral(log + attrs, app);
    NeutralReady(log + attrs, app);
    Assoc(log, attrs, app);
    DeltasConcat(log + attrs, app);
    DeltasConcat(log, attrs);
    DeltasConcat(log, app);
    StatelessDeltas(attrs);
    assert DeltasOf(log) + [] == DeltasOf(log);
    AppendedDeltas(log, gstate, gdisk);
    G.AppendBalances(pairs, gstate, gdisk, {}, i);
  }

  lemma RewriteStores(pairs: seq<G.Deltas>, i: nat, log: seq<Entry>, attrs: seq<Entry>, more: seq<Entry>,
                      tail: seq<Entry>, gstate: G.Word, gdisk: G.Word)
    requires Settled(pairs, i, log, gstate, gdisk) && Change(log, attrs)
    requires AllNeutral(more) && AllNeutral(tail) && Stateless(tail)
    ensures Stores(pairs, i, log, attrs, gstate, Rewrite(log + (attrs + more), tail + Rewritten(log, gstate, gdisk)))
  {
    hide *;
    var all, extra := log + (attrs + more), tail + Rewritten(log, gstate, gdisk);
    ChangeIs(log, attrs);
    Assoc(log, attrs, more);
    ReadyParts(log + attrs);
    NeutralMeans(log + attrs, more);
    NeutralReady(log + attrs, more);
    ReadyParts(all);
    WrittenNeutral(log, gstate, gdisk);
    NeutralBoth(tail, Rewritten(log, gstate, gdisk));
    RewriteMeans(all, extra);
    MeansTrans(Rewrite(all, extra), all, log + attrs);
    RewriteReady(all, extra);
    RewriteBalances(pairs, i, log, all, tail, gstate, gdisk);
    StoresIs(pairs, i, log, attrs, gstate, Rewrite(all, extra));
  }

  lemma ChangeIs(log: seq<Entry>, attrs: seq<Entry>)
    ensures Change(log, attrs) <==> Ready(log + attrs) && Stateless(attrs)
  {
  }

  lemma StoresIs(pairs: seq<G.Deltas>, i: nat, log: seq<Entry>, attrs: seq<Entry>, gstate: G.Word, f: seq<Entry>)
    requires i < |pairs|
    ensures Stores(pairs, i, log, attrs, gstate, f) <==>
            Means(f, log + attrs) && Ready(f) && G.Balanced(pairs[i := DeltasOf(f)], {}, gstate)
  {
  }

  lemma NeutralMeans(log: seq<Entry>, extra: seq<Entry>)
    requires WellFormed(log) && AllNeutral(extra)
    ensures Means(log + extra, log)
  {
    MeansNeutral(log, extra);
  }

  lemma RewriteMeans(log: seq<Entry>, extra: seq<Entry>)
    requires WellFormed(log) && AllNamed(Replay(log)) && AllNeutral(extra)
    ensures Means(Rewrite(log, extra), log)
  {
    MeansRewrite(log, extra);
  }

  lemma NeutralBoth(a: seq<Entry>, b: seq<Entry>)
    requires AllNeutral(a) && AllNeutral(b)
    ensures AllNeutral(a + b)
  {
  }

  lemma RewriteBalances(pairs: seq<G.Deltas>, i: nat, log: seq<Entry>, all: seq<Entry>, tail: seq<Entry>,
                        gstate: G.Word, gdisk: G.Word)
    requires Settled(pairs, i, log, gstate, gdisk) && WellFormed(all) && Stateless(tail)
    ensures
      var f := Rewrite(all, tail + Rewritten(log, gstate, gdisk));
      i < |pairs| && G.Balanced(pairs[i := DeltasOf(f)], {}, gstate)
  {
    hide Compacted, DeltasOf, InWords, Replay, Rewritten, Stateless, WellFormed;
    hide G.Balanced, G.Delta, G.Fresh, G.Latest, G.Sum, G.Xor;
    var out, delta := Compacted(all, 0, |Replay(all)|), Rewritten(log, gstate, gdisk);
    CompactedStateless(all, 0, |Replay(all)|);
    StatelessDeltas(out);
    StatelessDeltas(tail);
    DeltasConcat(out, tail + delta);
    DeltasConcat(tail, delta);
    assert [] + ([] + DeltasOf(delta)) == DeltasOf(delta);
    RewrittenDeltas(log, gstate, gdisk);
    G.CompactBalances(pairs, gstate, gdisk, {}, i, false);
  }

  /// ---- A commit under way ---------------------------------------------------------------------

  /** The commit that lfs_dir_commit makes of a change: the delta goes behind it, or
      into the compacted log. */
  function CommitOf(dir: Mdir, attrs: seq<Entry>, gstate: G.Word, gdisk: G.Word, tail: seq<Entry>, fcrc: bool): Event {
    Commit(attrs + (if dir.erased then Appended(dir.log, gstate, gdisk) else []),
           tail + Rewritten(dir.log, gstate, gdisk), fcrc)
  }

  predicate Tails(tail: seq<Entry>) {
    AllNeutral(tail) && Stateless(tail)
  }

  ghost predicate InFlight(s: State, pairs: seq<G.Deltas>, i: nat, attrs: seq<Entry>, gstate: G.Word, gdisk: G.Word) {
    && s.ram.Busy? && s.flight.Some?
    && Settled(pairs, i, s.acked, gstate, gdisk) && Change(s.acked, attrs)
    && Stores(pairs, i, s.acked, attrs, gstate, s.flight.value)
    && (s.ram.mode.Append? ==> s.flight.value == s.acked + (attrs + Appended(s.acked, gstate, gdisk)))
  }

  lemma CommitStarts(s: State, pairs: seq<G.Deltas>, i: nat, attrs: seq<Entry>, gstate: G.Word, gdisk: G.Word,
                     tail: seq<Entry>, fcrc: bool)
    requires Inv(s) && s.ram.Idle? && Tails(tail)
    requires Settled(pairs, i, s.acked, gstate, gdisk) && Change(s.acked, attrs)
    ensures
      var s' := Exec(s, CommitOf(s.ram.dir, attrs, gstate, gdisk, tail, fcrc));
      Inv(s') && s'.acked == s.acked && InFlight(s', pairs, i, attrs, gstate, gdisk)
  {
    hide AllNeutral, Appended, Change, Inv, Rewrite, Rewritten, Settled, Stateless, Stores;
    ExecKeeps(s, CommitOf(s.ram.dir, attrs, gstate, gdisk, tail, fcrc));
    IdleLog(s);
    assert attrs + [] == attrs;
    NothingNeutral();
    AppendStores(pairs, i, s.acked, attrs, gstate, gdisk);
    RewriteStores(pairs, i, s.acked, attrs, [], tail, gstate, gdisk);
  }

  lemma FallbackStays(s: State, pairs: seq<G.Deltas>, i: nat, attrs: seq<Entry>, gstate: G.Word, gdisk: G.Word,
                      tail: seq<Entry>, fcrc: bool)
    requires Inv(s) && InFlight(s, pairs, i, attrs, gstate, gdisk) && Tails(tail)
    ensures
      var s' := Exec(s, Fallback(tail + Rewritten(s.acked, gstate, gdisk), fcrc));
      Inv(s') && s'.acked == s.acked && InFlight(s', pairs, i, attrs, gstate, gdisk)
  {
    hide AllNeutral, Appended, Change, Inv, Rewrite, Rewritten, Settled, Stateless, Stores;
    ExecKeeps(s, Fallback(tail + Rewritten(s.acked, gstate, gdisk), fcrc));
    FlightIs(s);
    WrittenNeutral(s.acked, gstate, gdisk);
    RewriteStores(pairs, i, s.acked, attrs, Appended(s.acked, gstate, gdisk), tail, gstate, gdisk);
  }

  lemma NothingNeutral()
    ensures AllNeutral([])
  {
  }

  lemma FlightIs(s: State)
    requires Inv(s) && s.ram.Busy?
    ensures s.acked == s.ram.dir.log
    ensures s.ram.mode.Append? ==> s.flight == Some(s.ram.dir.log + (s.ram.done + s.ram.rest))
  {
  }

  lemma AdvanceStays(s: State, pairs: seq<G.Deltas>, i: nat, attrs: seq<Entry>, gstate: G.Word, gdisk: G.Word, blank: nat)
    requires Inv(s) && InFlight(s, pairs, i, attrs, gstate, gdisk)
    ensures
      var s' := Exec(s, Advance(blank));
      Inv(s') && s'.acked == s.acked && s'.flight == s.flight && InFlight(s', pairs, i, attrs, gstate, gdisk)
  {
    hide Appended, Change, Inv, Settled, Stores;
    ExecKeeps(s, Advance(blank));
  }

  lemma FinishStores(s: State)
    requires Inv(s) && s.ram.Busy? && s.ram.stage.Sealed?
    ensures
      var s' := Exec(s, Finish);
      Inv(s') && s'.ram.Idle? && s.flight == Some(s'.acked) && s'.flight.None?
  {
    ExecKeeps(s, Finish);
    OtherLogs(s, Finish);
    hide Inv;
  }

  lemma LossStops(s: State, torn: bool, left: Block)
    requires Inv(s) && !s.ram.Off?
    ensures
      var s' := Exec(s, PowerLoss(torn, left));
      Inv(s') && s'.ram.Off? && s'.acked == s.acked && s'.flight == s.flight
  {
    ExecKeeps(s, PowerLoss(torn, left));
    OtherLogs(s, PowerLoss(torn, left));
    hide Inv;
  }

  lemma BootResolves(s: State)
    requires Inv(s) && s.ram.Off?
    ensures
      var s' := Exec(s, Mount);
      Inv(s') && s'.ram.Idle? && s'.flight.None? && (s'.acked == s.acked || s.flight == Some(s'.acked))
  {
    ExecKeeps(s, Mount);
    FetchInv(s);
    OtherLogs(s, Mount);
    hide Inv;
  }

  lemma IdleLog(s: State)
    requires Inv(s) && s.ram.Idle?
    ensures s.ram.dir.log == s.acked && s.flight.None?
  {
  }

  /// ---- Two pairs, one filesystem ----------------------------------------------------------------

  /** A rename to be carried out: what is on disk before, the request, the two blocks
      of the old pair, and the deltas of all pairs that it does not touch. */
  datatype Job = Job(d: Disk, r: Request, p0: nat, p1: nat, others: seq<G.Deltas>) {
    /** The move that the first commit records. */
    function Noted(): G.Move { G.Move(r.from, p0, p1) }
  }

  function Pairs(j: Job, src: seq<Entry>, dst: seq<Entry>): seq<G.Deltas> {
    [DeltasOf(src), DeltasOf(dst)] + j.others
  }

  /** lfs_pair_cmp: pairs with a block in common are the same pair. */
  predicate SamePair(a0: nat, a1: nat, b0: nat, b1: nat) {
    a0 == b0 || a1 == b1 || a0 == b1 || a1 == b0
  }

  /** The move that hides an entry of the old pair, if there is one. */
  function PendingIn(j: Job, m: G.Move): Option<nat> {
    if m.Move? && SamePair(m.p0, m.p1, j.p0, j.p1) then Some(m.id) else None
  }

  /** What the logs of all pairs say about a move. */
  predicate Recorded(j: Job, src: seq<Entry>, dst: seq<Entry>, m: G.Move) {
    G.AllOnDisk(Pairs(j, src, dst)) && G.ReadMove(G.Sum(Pairs(j, src, dst))) == m
  }

  /** The attributes of the first commit. */
  function FirstAttrs(j: Job): seq<Entry> {
    [Create(j.r.to), NameEntry(j.r.kind, j.r.to, j.r.newName)] + Moved(j.d, j.r)
  }

  function SecondAttrs(j: Job): seq<Entry> { [DeleteOf(j.r.from)] }

  /** Where a rename can start: both directories can be searched, the search gave the
      ids of the request, and no move is pending. */
  ghost predicate Workable(j: Job) {
    && Legal(j.d, j.r) && Ready(j.d.oldLog) && Ready(j.d.newLog)
    && Border(Keys(j.d.newLog), j.r.newName, j.r.to)
    && G.ValidMove(j.Noted()) && Recorded(j, j.d.oldLog, j.d.newLog, G.NoMove)
  }

  /** What the program is doing: nothing, the first commit of the rename, between its
      commits, or the commit that deletes the old entry. */
  datatype Stand = Quiet | First | Between | Second

  datatype Mem = Down | Up(gstate: G.Word, gdisk: G.Word, stand: Stand)

  datatype Fs = Fs(src: State, dst: State, mem: Mem)

  datatype FsEvent =
    | Boot(older: bool)
    | Begin(tail: seq<Entry>, fcrc: bool)
    | GoOn(tail: seq<Entry>, fcrc: bool)
    | Demove(tail: seq<Entry>, fcrc: bool)
    | Turn(blank: nat)
    | Retreat(tail: seq<Entry>, fcrc: bool)
    | Return
    | Crash(torn: bool, left: Block)

  /** One event; events that do not apply change nothing. `Begin` is lfs_rawrename up to
      its first commit, after lfs_fs_forceconsistency found no move to clean up; `GoOn`
      is its second part; `Demove` is the clean-up. */
  function FsExec(j: Job, s: Fs, ev: FsEvent): Fs {
    match (ev, s.mem)
    case (Boot(older), Down) =>
      var src, dst := Exec(s.src, Mount), Exec(s.dst, Mount);
      if src.ram.Idle? && dst.ram.Idle? then
        var g := G.Booted(G.Sum(Pairs(j, src.ram.dir.log, dst.ram.dir.log)), older);
        Fs(src, dst, Up(g, g, Quiet))
      else s
    case (Begin(tail, fcrc), Up(gstate, gdisk, Quiet)) =>
      if Tails(tail) && s.src.ram.Idle? && s.dst.ram.Idle? && G.ReadMove(gdisk).NoMove?
         && Legal(Disk(s.src.ram.dir.log, s.dst.ram.dir.log, None), j.r)
      then
        var g := G.WithMove(gstate, j.Noted());
        Fs(s.src, Exec(s.dst, CommitOf(s.dst.ram.dir, FirstAttrs(j), g, gdisk, tail, fcrc)), Up(g, gdisk, First))
      else s
    case (GoOn(tail, fcrc), Up(gstate, gdisk, Between)) =>
      if Tails(tail) && s.src.ram.Idle? && G.ReadMove(gstate).Move? then Delete(s, j.r.from, gstate, gdisk, tail, fcrc)
      else s
    case (Demove(tail, fcrc), Up(gstate, gdisk, Quiet)) =>
      var m := PendingIn(j, G.ReadMove(gdisk));
      if Tails(tail) && s.src.ram.Idle? && m.Some? then Delete(s, m.value, gstate, gdisk, tail, fcrc) else s
    case (Turn(blank), Up(_, _, stand)) =>
      if stand.First? then s.(dst := Exec(s.dst, Advance(blank)))
      else if stand.Second? then s.(src := Exec(s.src, Advance(blank)))
      else s
    case (Retreat(tail, fcrc), Up(gstate, gdisk, stand)) =>
      if !Tails(tail) then s
      else if stand.First? && s.dst.ram.Busy? then
        s.(dst := Exec(s.dst, Fallback(tail + Rewritten(s.dst.ram.dir.log, gstate, gdisk), fcrc)))
      else if stand.Second? && s.src.ram.Busy? then
        s.(src := Exec(s.src, Fallback(tail + Rewritten(s.src.ram.dir.log, gstate, gdisk), fcrc)))
      else s
    case (Return, Up(gstate, gdisk, stand)) =>
      if stand.First? && s.dst.ram.Busy? && s.dst.ram.stage.Sealed? then
        Fs(s.src, Exec(s.dst, Finish), Up(gstate, gstate, Between))
      else if stand.Second? && s.src.ram.Busy? && s.src.ram.stage.Sealed? then
        Fs(Exec(s.src, Finish), s.dst, Up(gstate, gstate, Quiet))
      else s
    case (Crash(torn, left), Up(_, _, _)) =>
      Fs(Exec(s.src, PowerLoss(torn, left)), Exec(s.dst, PowerLoss(torn, left)), Down)
    case _ => s
  }

  /** The commit that deletes the moved entry and takes the move out of the state. */
  function Delete(s: Fs, id: nat, gstate: G.Word, gdisk: G.Word, tail: seq<Entry>, fcrc: bool): Fs
    requires s.src.ram.Idle?
  {
    var g := G.WithMove(gstate, G.NoMove);
    Fs(Exec(s.src, CommitOf(s.src.ram.dir, [DeleteOf(id)], g, gdisk, tail, fcrc)), s.dst, Up(g, gdisk, Second))
  }

  function FsRun(j: Job, s: Fs, evs: seq<FsEvent>): Fs {
    if evs == [] then s else FsExec(j, FsRun(j, s, evs[..|evs| - 1]), evs[|evs| - 1])
  }

  /// ---- What every event keeps -------------------------------------------------------------------

  /** A log of the new pair that holds the renamed file and records the move. */
  ghost predicate IsFirst(j: Job, f: seq<Entry>) {
    Means(f, j.d.newLog + FirstAttrs(j)) && Ready(f) && Recorded(j, j.d.oldLog, f, j.Noted())
  }

  /** A log of the old pair without the old entry, with no move recorded any more. */
  ghost predicate IsSecond(j: Job, dst: seq<Entry>, f: seq<Entry>) {
    Means(f, j.d.oldLog + SecondAttrs(j)) && Ready(f) && Recorded(j, f, dst, G.NoMove)
  }

  /** Nothing has happened yet, or the first commit is in flight. */
  ghost predicate Early(j: Job, s: Fs) {
    && s.src.acked == j.d.oldLog && s.src.flight.None? && s.dst.acked == j.d.newLog
    && (s.dst.flight.Some? ==> IsFirst(j, s.dst.flight.value))
  }

  /** The first commit is done, the second may be in flight. */
  ghost predicate Midway(j: Job, s: Fs) {
    && s.src.acked == j.d.oldLog && s.dst.flight.None? && IsFirst(j, s.dst.acked)
    && (s.src.flight.Some? ==> IsSecond(j, s.dst.acked, s.src.flight.value))
  }

  ghost predicate Over(j: Job, s: Fs) {
    s.src.flight.None? && s.dst.flight.None? && IsFirst(j, s.dst.acked) && IsSecond(j, s.dst.acked, s.src.acked)
  }

  ghost predicate MemOk(j: Job, s: Fs) {
    match s.mem
    case Down => s.src.ram.Off? && s.dst.ram.Off?
    case Up(gstate, gdisk, stand) =>
      && InWords(gstate) && InWords(gdisk) && G.Balanced(Pairs(j, s.src.acked, s.dst.acked), {}, gdisk)
      && match stand
         case Quiet => s.src.ram.Idle? && s.dst.ram.Idle? && gstate == gdisk
         case First =>
           && Early(j, s) && s.src.ram.Idle? && gstate == G.WithMove(gdisk, j.Noted())
           && InFlight(s.dst, Pairs(j, j.d.oldLog, j.d.newLog), 1, FirstAttrs(j), gstate, gdisk)
         case Between => Midway(j, s) && s.src.ram.Idle? && s.dst.ram.Idle? && gstate == gdisk
         case Second =>
           && Midway(j, s) && s.dst.ram.Idle? && gstate == G.WithMove(gdisk, G.NoMove)
           && InFlight(s.src, Pairs(j, j.d.oldLog, s.dst.acked), 0, SecondAttrs(j), gstate, gdisk)
  }

  ghost predicate FsInv(j: Job, s: Fs) {
    Inv(s.src) && Inv(s.dst) && (Early(j, s) || Midway(j, s) || Over(j, s)) && MemOk(j, s)
  }

  /** The new name is there to stay. */
  ghost predicate Passed(j: Job, s: Fs) { Midway(j, s) || Over(j, s) }

  /// ---- The two commits ------------------------------------------------------------------------

  lemma FirstChange(j: Job)
    requires Workable(j)
    ensures Change(j.d.newLog, FirstAttrs(j))
    ensures j.d.newLog + FirstAttrs(j) == Created(j.d.newLog, j.r.to, j.r.kind, j.r.newName, Moved(j.d, j.r))
  {
    hide Change, FirstAttrs, Stateless, Workable;
    hide BodyOf, Border, FileName, Keys, Legal, Moved, Ready, Recorded, Replay, WellFormed;
    FirstIsCreated(j);
    WorkableParts(j);
    BodyStateless(j);
    LegalParts(j);
    CreatedReady(j.d, j.r);
    ChangeIs(j.d.newLog, FirstAttrs(j));
  }

  lemma FirstIsCreated(j: Job)
    ensures j.d.newLog + FirstAttrs(j) == Created(j.d.newLog, j.r.to, j.r.kind, j.r.newName, Moved(j.d, j.r))
  {
    hide Moved;
  }

  lemma WorkableParts(j: Job)
    requires Workable(j)
    ensures G.ValidMove(j.Noted())
    ensures Legal(j.d, j.r) && Ready(j.d.oldLog) && Ready(j.d.newLog) && Border(Keys(j.d.newLog), j.r.newName, j.r.to)
  {
  }

  /** The directory with the moved entry can be searched. */
  lemma CreatedReady(d: Disk, r: Request)
    requires Legal(d, r) && Ready(d.newLog) && Border(Keys(d.newLog), r.newName, r.to)
    ensures Ready(Created(d.newLog, r.to, r.kind, r.newName, Moved(d, r)))
  {
    assert AttrKind(REG);
    assert r.to <= |Replay(d.newLog)| < NO_ID && FileName(r.kind, r.newName) && WellFormed(d.newLog);
    hide BodyOf, Border, FileName, Keys, Legal, Moved, Ready, Replay, WellFormed;
    MovedContents(d, r, REG);
    CreateReady(d.newLog, r.to, r.kind, r.newName);
    CreateNamed(d.newLog, r.to, r.kind, r.newName);
    BodyReady(d.newLog + [Create(r.to)] + [NameEntry(r.kind, r.to, r.newName)], Moved(d, r), r.to);
  }

  lemma LegalParts(j: Job)
    requires Legal(j.d, j.r)
    ensures WellFormed(j.d.newLog) && j.r.to <= |Replay(j.d.newLog)| < NO_ID && FileName(j.r.kind, j.r.newName)
    ensures WellFormed(j.d.oldLog) && |Keys(j.d.oldLog)| == |Replay(j.d.oldLog)| && j.r.from < |Replay(j.d.oldLog)|
  {
    KeysAnswer(j.d.oldLog, 0);
  }

  lemma BodyStateless(j: Job)
    requires Legal(j.d, j.r)
    ensures Stateless(FirstAttrs(j))
  {
    assert AttrKind(REG);
    hide Keys, Legal, Moved, Replay, WellFormed;
    MovedContents(j.d, j.r, REG);
    LegalParts(j);
  }

  /** The body of an entry keeps the directory searchable. */
  lemma {:induction false} BodyReady(log: seq<Entry>, moved: seq<Entry>, to: nat)
    requires Ready(log) && BodyOf(moved, to) && to < |Replay(log)| && HasName(Replay(log)[to])
    ensures Ready(log + moved)
    decreases |moved|
  {
    hide Ready, Replay, HasName;
    if moved == [] {
      assert log + moved == log;
    } else {
      var init, e := moved[..|moved| - 1], moved[|moved| - 1];
      BodyReady(log, init, to);
      ReadyParts(log);
      assert AttrKind(REG);
      BodyAnswers(log, init, to, 0, REG);
      BodyFits(log + init, e);
      PlainReady(log + init, e);
      assert log + init + [e] == log + moved;
    }
  }

  lemma BodyFits(log: seq<Entry>, e: Entry)
    requires WellFormed(log) && SoundEntry(e) && !IsName(e)
    requires e.tag.id < |Replay(log)| && HasName(Replay(log)[e.tag.id])
    ensures Appendable(log, e) && !IsSplice(e)
  {
    CountBound(log);
    hide Replay, WellFormed;
  }

  lemma SecondChange(j: Job)
    requires Workable(j)
    ensures Change(j.d.oldLog, SecondAttrs(j))
  {
    hide Keys, Legal, Ready, Recorded, Replay, WellFormed;
    LegalParts(j);
    DeleteReady(j.d.oldLog, j.r.from);
  }

  lemma PairsAfter(j: Job, src: seq<Entry>, dst: seq<Entry>, f: seq<Entry>)
    ensures Pairs(j, src, dst)[0] == DeltasOf(src) && Pairs(j, src, dst)[1] == DeltasOf(dst)
    ensures Pairs(j, src, dst)[0 := DeltasOf(f)] == Pairs(j, f, dst)
    ensures Pairs(j, src, dst)[1 := DeltasOf(f)] == Pairs(j, src, f)
  {
    hide DeltasOf;
  }

  /** When the logs balance with a state, they record the move of that state. */
  lemma BalancedMove(j: Job, src: seq<Entry>, dst: seq<Entry>, g: G.Word)
    requires G.Balanced(Pairs(j, src, dst), {}, g)
    ensures Recorded(j, src, dst, G.ReadMove(g))
  {
    var sum := G.Sum(Pairs(j, src, dst));
    G.XorUnit(sum, {});
    assert sum == G.Mask(g);
    hide DeltasOf, G.Sum, G.Value;
    G.ValueLocal(sum, g, 92, 3);
    G.ValueLocal(sum, g, 74, 10);
    G.ValueLocal(sum, g, 32, 32);
    G.ValueLocal(sum, g, 0, 32);
  }

  lemma NotedReads(j: Job, w: G.Word)
    requires G.ValidMove(j.Noted())
    ensures G.ReadMove(G.WithMove(w, j.Noted())) == j.Noted() && G.ReadMove(G.WithMove(w, G.NoMove)) == G.NoMove
  {
    hide G.WithMove, G.ReadMove, G.Mask;
    G.MoveReadsBack(w, j.Noted(), G.WithMove(w, j.Noted()));
    G.MoveReadsBack(w, G.NoMove, G.WithMove(w, G.NoMove));
  }

  lemma NotedInWords(j: Job, w: G.Word)
    requires G.ValidMove(j.Noted()) && InWords(w)
    ensures InWords(G.WithMove(w, j.Noted())) && InWords(G.WithMove(w, G.NoMove))
  {
    G.Value1();
    G.DeleteTypeBits();
    hide G.OneBits, Pow2;
    G.BitsRange(j.p1, 0, 32);
    G.BitsRange(j.p0, 32, 32);
    G.BitsRange(j.r.from, 74, 10);
  }

  /** The first commit in flight is what a mount will take for it. */
  lemma FirstStores(j: Job, gdisk: G.Word, f: seq<Entry>)
    requires Workable(j)
    requires Stores(Pairs(j, j.d.oldLog, j.d.newLog), 1, j.d.newLog, FirstAttrs(j), G.WithMove(gdisk, j.Noted()), f)
    ensures IsFirst(j, f)
  {
    hide G.Balanced, Means, Pairs, Ready, Recorded, FirstAttrs, G.ReadMove, G.WithMove, Legal, Border;
    PairsAfter(j, j.d.oldLog, j.d.newLog, f);
    NotedReads(j, gdisk);
    BalancedMove(j, j.d.oldLog, f, G.WithMove(gdisk, j.Noted()));
  }

  lemma SecondStores(j: Job, gdisk: G.Word, dst: seq<Entry>, f: seq<Entry>)
    requires Workable(j)
    requires Stores(Pairs(j, j.d.oldLog, dst), 0, j.d.oldLog, SecondAttrs(j), G.WithMove(gdisk, G.NoMove), f)
    ensures IsSecond(j, dst, f)
  {
    hide G.Balanced, Means, Pairs, Ready, Recorded, SecondAttrs, G.ReadMove, G.WithMove, Legal, Border;
    PairsAfter(j, j.d.oldLog, dst, f);
    NotedReads(j, gdisk);
    BalancedMove(j, f, dst, G.WithMove(gdisk, G.NoMove));
  }

  /// ---- Every event ------------------------------------------------------------------------------

  /** What a step must keep. */
  ghost predicate Stays(j: Job, s: Fs, s': Fs) {
    FsInv(j, s') && (Passed(j, s) ==> Passed(j, s'))
  }

  lemma BootedState(j: Job, src: seq<Entry>, dst: seq<Entry>, older: bool)
    requires G.AllOnDisk(Pairs(j, src, dst)) && forall k :: 0 <= k < |j.others| ==> InWords(G.Latest(j.others[k]))
    ensures
      var g := G.Booted(G.Sum(Pairs(j, src, dst)), older);
      InWords(g) && G.Balanced(Pairs(j, src, dst), {}, g)
  {
    var sum := G.Sum(Pairs(j, src, dst));
    LatestInWords(src);
    LatestInWords(dst);
    SumInWords(Pairs(j, src, dst));
    G.SumOnDisk(Pairs(j, src, dst));
    G.XorUnit(sum, {});
    G.MaskLaws(sum, {});
    hide DeltasOf, G.Sum, G.Xor, G.Latest;
  }

  lemma {:induction false} SumInWords(pairs: seq<G.Deltas>)
    requires forall k :: 0 <= k < |pairs| ==> InWords(G.Latest(pairs[k]))
    ensures InWords(G.Sum(pairs))
  {
    if pairs != [] {
      SumInWords(pairs[..|pairs| - 1]);
    }
  }

  /** In each of the three phases the logs hold nothing that stays in memory. */
  lemma PhaseOnDisk(j: Job, s: Fs)
    requires Workable(j) && (Early(j, s) || Passed(j, s))
    ensures G.AllOnDisk(Pairs(j, s.src.acked, s.dst.acked))
  {
    hide Pairs, G.AllOnDisk, Means, Ready, Legal, Border;
  }

  ghost predicate OthersInWords(j: Job) {
    forall k :: 0 <= k < |j.others| ==> InWords(G.Latest(j.others[k]))
  }

  lemma BootKeeps(j: Job, s: Fs, older: bool)
    requires Workable(j) && OthersInWords(j) && FsInv(j, s) && s.mem.Down?
    ensures Stays(j, s, FsExec(j, s, Boot(older)))
  {
    hide G.Booted, Exec, Inv, IsFirst, IsSecond, Pairs, Workable, OthersInWords;
    hide G.AllOnDisk, G.Balanced, G.Sum, InWords;
    BootResolves(s.src);
    BootResolves(s.dst);
    var s' := FsExec(j, s, Boot(older));
    IdleLog(Exec(s.src, Mount));
    IdleLog(Exec(s.dst, Mount));
    assert Early(j, s') || Passed(j, s');
    PhaseOnDisk(j, s');
    OthersAre(j);
    BootedState(j, s'.src.acked, s'.dst.acked, older);
  }

  lemma OthersAre(j: Job)
    ensures OthersInWords(j) <==> forall k :: 0 <= k < |j.others| ==> InWords(G.Latest(j.others[k]))
  {
  }

  /** After the first commit the file is gone from under its old name, so that a
      second attempt is refused; and before the clean-up a move is pending. */
  lemma BeginsEarly(j: Job, s: Fs, gdisk: G.Word)
    requires Workable(j) && (Early(j, s) || Passed(j, s))
    requires G.Balanced(Pairs(j, s.src.acked, s.dst.acked), {}, gdisk) && G.ReadMove(gdisk).NoMove?
    requires Legal(Disk(s.src.acked, s.dst.acked, None), j.r)
    ensures Early(j, s) && !Passed(j, s)
  {
    BalancedMove(j, s.src.acked, s.dst.acked, gdisk);
    hide Means, Ready, G.Balanced, G.ReadMove, G.Sum, Pairs, Border, Keys, Replay, WellFormed, Answer, G.AllOnDisk;
    if Over(j, s) {
      SecondGone(j, s.src.acked);
      StillThere(Disk(s.src.acked, s.dst.acked, None), j.r);
      assert false;
    }
  }

  lemma StillThere(d: Disk, r: Request)
    requires Legal(d, r)
    ensures Exists(d.oldLog, r.oldName)
  {
    assert AttrKind(REG);
    hide Legal;
    MovedContents(d, r, REG);
  }

  lemma SecondGone(j: Job, f: seq<Entry>)
    requires Legal(j.d, j.r) && Means(f, j.d.oldLog + SecondAttrs(j))
    ensures !Exists(f, j.r.oldName)
  {
    var log := j.d.oldLog;
    KeysAnswer(log, 0);
    hide Answer, Exists, Keys, Means, Replay, Sorted, WellFormed;
    DeleteLookup(log, j.r.from, j.r.oldName);
    MeansSame(f, log + SecondAttrs(j), j.r.oldName);
  }

  lemma SettledFirst(j: Job, gdisk: G.Word)
    requires Workable(j) && InWords(gdisk) && G.Balanced(Pairs(j, j.d.oldLog, j.d.newLog), {}, gdisk)
    ensures Settled(Pairs(j, j.d.oldLog, j.d.newLog), 1, j.d.newLog, G.WithMove(gdisk, j.Noted()), gdisk)
  {
    hide Pairs, G.Balanced, InWords, G.WithMove, Legal, Ready, Border, Recorded;
    PairsAfter(j, j.d.oldLog, j.d.newLog, []);
    NotedInWords(j, gdisk);
    assert |Pairs(j, j.d.oldLog, j.d.newLog)| >= 2 by { PairsMany(j, j.d.oldLog, j.d.newLog); }
  }

  lemma PairsMany(j: Job, src: seq<Entry>, dst: seq<Entry>)
    ensures |Pairs(j, src, dst)| >= 2
  {
  }

  lemma SettledSecond(j: Job, dst: seq<Entry>, gdisk: G.Word)
    requires Workable(j) && InWords(gdisk) && G.Balanced(Pairs(j, j.d.oldLog, dst), {}, gdisk)
    ensures Settled(Pairs(j, j.d.oldLog, dst), 0, j.d.oldLog, G.WithMove(gdisk, G.NoMove), gdisk)
  {
    hide Pairs, G.Balanced, InWords, G.WithMove, Legal, Ready, Border, Recorded;
    PairsAfter(j, j.d.oldLog, dst, []);
    NotedInWords(j, gdisk);
    PairsMany(j, j.d.oldLog, dst);
  }

  lemma BeginKeeps(j: Job, s: Fs, tail: seq<Entry>, fcrc: bool)
    requires Workable(j) && FsInv(j, s) && s.mem.Up? && s.mem.stand.Quiet?
    ensures Stays(j, s, FsExec(j, s, Begin(tail, fcrc)))
  {
    hide CommitOf, Exec, Inv, InWords, IsFirst, IsSecond, Legal, Pairs, Settled, Stores, Tails, Workable;
    hide Change, FirstAttrs, G.Balanced, G.ReadMove, G.WithMove, Ready;
    IdleLog(s.src);
    IdleLog(s.dst);
    var gdisk := s.mem.gdisk;
    if Tails(tail) && G.ReadMove(gdisk).NoMove? && Legal(Disk(s.src.acked, s.dst.acked, None), j.r) {
      BeginsEarly(j, s, gdisk);
      FirstChange(j);
      SettledFirst(j, gdisk);
      var g := G.WithMove(gdisk, j.Noted());
      CommitStarts(s.dst, Pairs(j, j.d.oldLog, j.d.newLog), 1, FirstAttrs(j), g, gdisk, tail, fcrc);
      var dst' := Exec(s.dst, CommitOf(s.dst.ram.dir, FirstAttrs(j), g, gdisk, tail, fcrc));
      FirstStores(j, gdisk, dst'.flight.value);
      NotedIn(j, gdisk);
    }
  }

  lemma NotedIn(j: Job, gdisk: G.Word)
    requires Workable(j) && InWords(gdisk)
    ensures InWords(G.WithMove(gdisk, j.Noted())) && InWords(G.WithMove(gdisk, G.NoMove))
  {
    hide InWords, G.WithMove, Legal, Ready, Border, Recorded;
    NotedInWords(j, gdisk);
  }

  /** The commit that deletes the old entry, from the rename or from the clean-up. */
  lemma DeleteCommitKeeps(j: Job, s: Fs, gdisk: G.Word, tail: seq<Entry>, fcrc: bool)
    requires Workable(j) && FsInv(j, s) && s.mem.Up? && s.mem.gstate == s.mem.gdisk == gdisk
    requires Midway(j, s) && s.src.ram.Idle? && s.dst.ram.Idle? && Tails(tail)
    ensures Stays(j, s, Delete(s, j.r.from, gdisk, gdisk, tail, fcrc))
  {
    hide CommitOf, Exec, Inv, InWords, IsFirst, IsSecond, Pairs, Settled, Stores, Tails, Workable;
    hide Change, G.Balanced, G.ReadMove, G.WithMove, Ready;
    IdleLog(s.src);
    SecondChange(j);
    SettledSecond(j, s.dst.acked, gdisk);
    var g := G.WithMove(gdisk, G.NoMove);
    CommitStarts(s.src, Pairs(j, j.d.oldLog, s.dst.acked), 0, SecondAttrs(j), g, gdisk, tail, fcrc);
    var src' := Exec(s.src, CommitOf(s.src.ram.dir, SecondAttrs(j), g, gdisk, tail, fcrc));
    SecondStores(j, gdisk, s.dst.acked, src'.flight.value);
    NotedIn(j, gdisk);
  }

  lemma GoOnKeeps(j: Job, s: Fs, tail: seq<Entry>, fcrc: bool)
    requires Workable(j) && FsInv(j, s) && s.mem.Up? && s.mem.stand.Between?
    ensures Stays(j, s, FsExec(j, s, GoOn(tail, fcrc)))
  {
    hide Exec, Inv, InWords, IsFirst, IsSecond, Pairs, Tails, Workable, Delete, G.Balanced, G.ReadMove;
    if Tails(tail) && G.ReadMove(s.mem.gstate).Move? {
      DeleteCommitKeeps(j, s, s.mem.gdisk, tail, fcrc);
    }
  }

  /** A pending move can only be the one that the first commit noted. */
  lemma PendingIsNoted(j: Job, s: Fs, gdisk: G.Word)
    requires Workable(j) && (Early(j, s) || Passed(j, s))
    requires G.Balanced(Pairs(j, s.src.acked, s.dst.acked), {}, gdisk)
    requires s.src.flight.None? && s.dst.flight.None?
    ensures Early(j, s) && !Midway(j, s) ==> PendingIn(j, G.ReadMove(gdisk)) == None
    ensures (Early(j, s) && !Midway(j, s)) || Over(j, s) ==> G.ReadMove(gdisk).NoMove?
    ensures Midway(j, s) ==> G.ReadMove(gdisk) == j.Noted() && PendingIn(j, G.ReadMove(gdisk)) == Some(j.r.from)
    ensures Over(j, s) ==> PendingIn(j, G.ReadMove(gdisk)) == None
  {
    hide Pairs, G.Balanced, G.ReadMove, G.Sum, G.AllOnDisk, Means, Ready, Legal, Border;
    BalancedMove(j, s.src.acked, s.dst.acked, gdisk);
  }

  lemma DemoveKeeps(j: Job, s: Fs, tail: seq<Entry>, fcrc: bool)
    requires Workable(j) && FsInv(j, s) && s.mem.Up? && s.mem.stand.Quiet?
    ensures Stays(j, s, FsExec(j, s, Demove(tail, fcrc)))
  {
    hide Exec, Inv, InWords, IsFirst, IsSecond, Pairs, Tails, Workable, Delete, PendingIn, G.Balanced, G.ReadMove;
    IdleLog(s.src);
    IdleLog(s.dst);
    PendingIsNoted(j, s, s.mem.gdisk);
    if Tails(tail) && PendingIn(j, G.ReadMove(s.mem.gdisk)).Some? {
      DeleteCommitKeeps(j, s, s.mem.gdisk, tail, fcrc);
    }
  }

  lemma TurnKeeps(j: Job, s: Fs, blank: nat)
    requires Workable(j) && FsInv(j, s) && s.mem.Up?
    ensures Stays(j, s, FsExec(j, s, Turn(blank)))
  {
    hide Exec, Inv, InWords, InFlight, IsFirst, IsSecond, Pairs, Workable, FirstAttrs, SecondAttrs, G.Balanced;
    hide G.WithMove;
    var gstate, gdisk := s.mem.gstate, s.mem.gdisk;
    if s.mem.stand.First? {
      AdvanceStays(s.dst, Pairs(j, j.d.oldLog, j.d.newLog), 1, FirstAttrs(j), gstate, gdisk, blank);
    } else if s.mem.stand.Second? {
      AdvanceStays(s.src, Pairs(j, j.d.oldLog, s.dst.acked), 0, SecondAttrs(j), gstate, gdisk, blank);
    }
  }

  lemma InFlightParts(s: State, pairs: seq<G.Deltas>, i: nat, attrs: seq<Entry>, gstate: G.Word, gdisk: G.Word)
    requires InFlight(s, pairs, i, attrs, gstate, gdisk)
    ensures s.ram.Busy? && s.flight.Some? && i < |pairs|
    ensures Stores(pairs, i, s.acked, attrs, gstate, s.flight.value)
    ensures InWords(gstate) && G.Balanced(pairs[i := DeltasOf(s.flight.value)], {}, gstate)
  {
  }

  lemma RetreatFirst(j: Job, s: Fs, tail: seq<Entry>, fcrc: bool)
    requires Workable(j) && FsInv(j, s) && s.mem.Up? && s.mem.stand.First? && Tails(tail)
    ensures Stays(j, s, FsExec(j, s, Retreat(tail, fcrc)))
  {
    hide Exec, Inv, InWords, InFlight, IsFirst, IsSecond, Pairs, Tails, Workable, FirstAttrs, SecondAttrs;
    hide Rewritten, Stores, G.Balanced, G.WithMove;
    var gstate, gdisk := s.mem.gstate, s.mem.gdisk;
    var pairs := Pairs(j, j.d.oldLog, j.d.newLog);
    InFlightParts(s.dst, pairs, 1, FirstAttrs(j), gstate, gdisk);
    FlightIs(s.dst);
    FallbackStays(s.dst, pairs, 1, FirstAttrs(j), gstate, gdisk, tail, fcrc);
    var dst' := Exec(s.dst, Fallback(tail + Rewritten(s.dst.acked, gstate, gdisk), fcrc));
    InFlightParts(dst', pairs, 1, FirstAttrs(j), gstate, gdisk);
    FirstStores(j, gdisk, dst'.flight.value);
  }

  lemma RetreatSecond(j: Job, s: Fs, tail: seq<Entry>, fcrc: bool)
    requires Workable(j) && FsInv(j, s) && s.mem.Up? && s.mem.stand.Second? && Tails(tail)
    ensures Stays(j, s, FsExec(j, s, Retreat(tail, fcrc)))
  {
    hide Exec, Inv, InWords, InFlight, IsFirst, IsSecond, Pairs, Tails, Workable, FirstAttrs, SecondAttrs;
    hide Rewritten, Stores, G.Balanced, G.WithMove;
    var gstate, gdisk := s.mem.gstate, s.mem.gdisk;
    var pairs := Pairs(j, j.d.oldLog, s.dst.acked);
    InFlightParts(s.src, pairs, 0, SecondAttrs(j), gstate, gdisk);
    FlightIs(s.src);
    FallbackStays(s.src, pairs, 0, SecondAttrs(j), gstate, gdisk, tail, fcrc);
    var src' := Exec(s.src, Fallback(tail + Rewritten(s.src.acked, gstate, gdisk), fcrc));
    InFlightParts(src', pairs, 0, SecondAttrs(j), gstate, gdisk);
    SecondStores(j, gdisk, s.dst.acked, src'.flight.value);
  }

  lemma ReturnKeeps(j: Job, s: Fs)
    requires Workable(j) && FsInv(j, s) && s.mem.Up?
    ensures Stays(j, s, FsExec(j, s, Return))
  {
    hide Exec, Inv, InWords, InFlight, IsFirst, IsSecond, Pairs, Workable, FirstAttrs, SecondAttrs, Stores;
    hide DeltasOf, G.Balanced, G.WithMove;
    var gstate, gdisk := s.mem.gstate, s.mem.gdisk;
    if s.mem.stand.First? && s.dst.ram.Busy? && s.dst.ram.stage.Sealed? {
      var pairs := Pairs(j, j.d.oldLog, j.d.newLog);
      InFlightParts(s.dst, pairs, 1, FirstAttrs(j), gstate, gdisk);
      PairsAfter(j, j.d.oldLog, j.d.newLog, s.dst.flight.value);
      FinishStores(s.dst);
    } else if s.mem.stand.Second? && s.src.ram.Busy? && s.src.ram.stage.Sealed? {
      var pairs := Pairs(j, j.d.oldLog, s.dst.acked);
      InFlightParts(s.src, pairs, 0, SecondAttrs(j), gstate, gdisk);
      PairsAfter(j, j.d.oldLog, s.dst.acked, s.src.flight.value);
      FinishStores(s.src);
    }
  }

  lemma CrashKeeps(j: Job, s: Fs, torn: bool, left: Block)
    requires Workable(j) && FsInv(j, s) && s.mem.Up?
    ensures Stays(j, s, FsExec(j, s, Crash(torn, left)))
  {
    hide Exec, Inv, InWords, IsFirst, IsSecond, Pairs, Workable, FirstAttrs, SecondAttrs, G.Balanced, G.WithMove;
    hide Change, Settled, Stores;
    LossStops(s.src, torn, left);
    LossStops(s.dst, torn, left);
  }

  lemma FsExecKeeps(j: Job, s: Fs, ev: FsEvent)
    requires Workable(j) && OthersInWords(j) && FsInv(j, s)
    ensures Stays(j, s, FsExec(j, s, ev))
  {
    hide FsInv, OthersInWords, Passed, Workable;
    match (ev, s.mem)
    case (Boot(older), Down) => BootKeeps(j, s, older);
    case (Begin(tail, fcrc), Up(_, _, Quiet)) => BeginKeeps(j, s, tail, fcrc);
    case (GoOn(tail, fcrc), Up(_, _, Between)) => GoOnKeeps(j, s, tail, fcrc);
    case (Demove(tail, fcrc), Up(_, _, Quiet)) => DemoveKeeps(j, s, tail, fcrc);
    case (Turn(blank), Up(_, _, _)) => TurnKeeps(j, s, blank);
    case (Retreat(tail, fcrc), Up(_, _, stand)) =>
      if Tails(tail) && stand.First? {
        RetreatFirst(j, s, tail, fcrc);
      } else if Tails(tail) && stand.Second? {
        RetreatSecond(j, s, tail, fcrc);
      } else {
        assert FsExec(j, s, ev) == s;
      }
    case (Return, Up(_, _, _)) => ReturnKeeps(j, s);
    case (Crash(torn, left), Up(_, _, _)) => CrashKeeps(j, s, torn, left);
    case _ => assert FsExec(j, s, ev) == s;
  }

  /// ---- What a mount would find -----------------------------------------------------------------

  /** The log that a fetch yields. */
  function Fetched(s: State): seq<Entry> {
    var dir := FetchOf(s.b0, s.b1);
    if dir.Some? then dir.value.log else []
  }

  /** The disk as a mount would find it now: the fetched logs, and the move in the sum
      of the deltas of all pairs. The pairs are distinct, so the new pair has no
      pending move. */
  function View(j: Job, s: Fs): Disk {
    var src, dst := Fetched(s.src), Fetched(s.dst);
    Disk(src, dst, PendingIn(j, G.ReadMove(G.Sum(Pairs(j, src, dst)))))
  }

  /** The file is reached under the old name only, with its contents. */
  ghost predicate Untouched(d: Disk, r: Request, v: Disk) {
    && Exists(v.Old(), r.oldName) && !Exists(v.newLog, r.newName)
    && forall slot: Kind :: AttrKind(slot) ==> Lookup(v.Old(), r.oldName, slot) == Lookup(d.Old(), r.oldName, slot)
  }

  lemma FetchedIs(s: State)
    requires Inv(s)
    ensures Fetched(s) == s.acked || s.flight == Some(Fetched(s))
    ensures s.ram.Idle? ==> Fetched(s) == s.acked == s.ram.dir.log
  {
    FetchInv(s);
    if s.ram.Idle? {
      IdleLog(s);
    }
    hide Inv;
  }

  /** The old log as it stands between the two commits, beside this new log. */
  function MidDisk(j: Job, dst: seq<Entry>): Disk { Disk(j.d.oldLog, dst, Some(j.r.from)) }

  ghost predicate AtFirst(j: Job, v: Disk) { AfterFirst(j.d, j.r, v) }

  ghost predicate AtSecond(j: Job, v: Disk) {
    AfterFirst(j.d, j.r, MidDisk(j, v.newLog)) && AfterSecond(j.d, MidDisk(j, v.newLog), v)
  }

  lemma IsFirstView(j: Job, dst: seq<Entry>)
    requires Workable(j) && IsFirst(j, dst)
    ensures AtFirst(j, MidDisk(j, dst))
    ensures PendingIn(j, G.ReadMove(G.Sum(Pairs(j, j.d.oldLog, dst)))) == Some(j.r.from)
  {
    hide Means, Ready, Pairs, G.AllOnDisk, G.Sum, G.ReadMove;
    FirstChange(j);
  }

  lemma IsSecondView(j: Job, dst: seq<Entry>, src: seq<Entry>)
    requires Workable(j) && IsFirst(j, dst) && IsSecond(j, dst, src)
    ensures AtSecond(j, Disk(src, dst, None))
    ensures PendingIn(j, G.ReadMove(G.Sum(Pairs(j, src, dst)))) == None
  {
    hide Means, Ready, Pairs, G.AllOnDisk, G.Sum, G.ReadMove, IsFirst, Workable, AfterFirst;
    IsFirstView(j, dst);
  }

  /** The disk is always as before, or as after the first, or as after the second
      commit. */
  lemma ViewIs(j: Job, s: Fs)
    requires Workable(j) && FsInv(j, s)
    ensures View(j, s) == j.d || AtFirst(j, View(j, s)) || AtSecond(j, View(j, s))
    ensures Passed(j, s) ==> AtFirst(j, View(j, s)) || AtSecond(j, View(j, s))
  {
    hide Inv, IsFirst, IsSecond, Pairs, PendingIn, Fetched, AtFirst, AtSecond, MemOk, Workable, G.Sum, G.ReadMove;
    FetchedIs(s.src);
    FetchedIs(s.dst);
    var src, dst := Fetched(s.src), Fetched(s.dst);
    if IsFirst(j, dst) {
      IsFirstView(j, dst);
      if IsSecond(j, dst, src) {
        IsSecondView(j, dst, src);
      }
    }
    WorkableDisk(j);
  }

  lemma WorkableDisk(j: Job)
    requires Workable(j)
    ensures j.d.move.None? && PendingIn(j, G.ReadMove(G.Sum(Pairs(j, j.d.oldLog, j.d.newLog)))) == None
  {
    hide Ready, Pairs, G.AllOnDisk, G.Sum, G.ReadMove, Border;
  }

  lemma ViewVerdict(j: Job, v: Disk)
    requires Workable(j) && (v == j.d || AtFirst(j, v) || AtSecond(j, v))
    ensures OthersKept(j.d, j.r, v)
    ensures v == j.d ==> Untouched(j.d, j.r, v)
    ensures AtFirst(j, v) || AtSecond(j, v) ==> Done(j.d, j.r, v)
  {
    WorkableParts(j);
    hide AfterFirst, AfterSecond, Done, Exists, Legal, Lookup, OthersKept, Workable;
    if v == j.d {
      NothingDone(j.d, j.r);
    }
    if AtFirst(j, v) {
      FirstCommit(j.d, j.r, v);
    }
    if AtSecond(j, v) {
      FirstCommit(j.d, j.r, MidDisk(j, v.newLog));
      DemoveKeepsDone(j.d, j.r, MidDisk(j, v.newLog), v);
    }
  }

  lemma NothingDone(d: Disk, r: Request)
    requires Legal(d, r)
    ensures Untouched(d, r, d) && OthersKept(d, r, d)
  {
    StillThere(d, r);
    IndexOfCorrect(Keys(d.newLog), r.newName);
    hide Keys, IndexOf, Sorted, WellFormed, Replay, Answer;
  }

  /// ---- Whole runs ---------------------------------------------------------------------------------

  /** Both pairs at rest and powered off, each with its log. */
  ghost predicate Started(j: Job, s: Fs) {
    && Inv(s.src) && Inv(s.dst) && s.mem.Down? && s.src.ram.Off? && s.dst.ram.Off?
    && s.src.acked == j.d.oldLog && s.src.flight.None? && s.dst.acked == j.d.newLog && s.dst.flight.None?
  }

  lemma {:induction false} FsRunKeeps(j: Job, s: Fs, evs: seq<FsEvent>)
    requires Workable(j) && OthersInWords(j) && FsInv(j, s)
    ensures FsInv(j, FsRun(j, s, evs))
    ensures Passed(j, s) ==> Passed(j, FsRun(j, s, evs))
    decreases |evs|
  {
    hide Workable, OthersInWords, FsInv, Passed, FsExec;
    if evs != [] {
      FsRunKeeps(j, s, evs[..|evs| - 1]);
      FsExecKeeps(j, FsRun(j, s, evs[..|evs| - 1]), evs[|evs| - 1]);
    }
  }

  /** A rename is atomic over whole runs: whatever sequence of program steps, power
      losses, mounts, attempts and clean-ups happened, a mount finds the file under
      exactly one of the two names, with its contents, and no other name affected. */
  lemma RenameRuns(j: Job, s: Fs, evs: seq<FsEvent>)
    requires Workable(j) && OthersInWords(j) && Started(j, s)
    ensures
      var v := View(j, FsRun(j, s, evs));
      && OthersKept(j.d, j.r, v)
      && (Untouched(j.d, j.r, v) <==> !Done(j.d, j.r, v))
  {
    StartedInv(j, s);
    hide FsInv, OthersInWords, OthersKept, View, Workable;
    FsRunKeeps(j, s, evs);
    ViewIs(j, FsRun(j, s, evs));
    ViewVerdict(j, View(j, FsRun(j, s, evs)));
    hide Exists, Lookup;
  }

  lemma StartedInv(j: Job, s: Fs)
    requires Started(j, s)
    ensures FsInv(j, s)
  {
    hide Inv;
  }

  /** And it is durable: once the first commit has returned, the file is found under
      the new name after whatever happens next. */
  lemma RenameStays(j: Job, s: Fs, evs: seq<FsEvent>, more: seq<FsEvent>)
    requires Workable(j) && OthersInWords(j) && Started(j, s)
    requires FsRun(j, s, evs).mem.Up? && FsRun(j, s, evs).mem.stand.Between?
    ensures
      var v := View(j, FsRun(j, FsRun(j, s, evs), more));
      Done(j.d, j.r, v) && OthersKept(j.d, j.r, v)
  {
    StartedInv(j, s);
    var r := FsRun(j, s, evs);
    FsRunKeeps(j, s, evs);
    assert Passed(j, r);
    hide FsInv, OthersInWords, OthersKept, View, Workable, Done, Passed;
    FsRunKeeps(j, r, more);
    ViewIs(j, FsRun(j, r, more));
    ViewVerdict(j, View(j, FsRun(j, r, more)));
  }

  /** Mounted and at rest, with no move left, the old entry is deleted for good or was
      never moved. */
  lemma CleanedUp(j: Job, s: Fs)
    requires Workable(j) && FsInv(j, s) && s.mem.Up? && s.mem.stand.Quiet? && G.ReadMove(s.mem.gdisk).NoMove?
    ensures View(j, s) == j.d || AtSecond(j, View(j, s))
  {
    hide Inv, IsFirst, IsSecond, Pairs, PendingIn, Fetched, AtFirst, AtSecond, Workable, InWords, G.Sum;
    hide G.ReadMove, G.Balanced;
    IdleLog(s.src);
    IdleLog(s.dst);
    FetchedIs(s.src);
    FetchedIs(s.dst);
    PendingIsNoted(j, s, s.mem.gdisk);
    WorkableDisk(j);
    if Over(j, s) {
      IsSecondView(j, s.dst.acked, s.src.acked);
    }
  }

  /// ---- A rename that is left alone comes to its end ---------------------------------------------

  /** Program steps, and a commit that starts with an event and then runs to its return. */
  function Turns(n: nat): seq<FsEvent> {
    if n == 0 then [] else [Turn(0)] + Turns(n - 1)
  }

  function Committing(ev: FsEvent, n: nat): seq<FsEvent> { [ev] + (Turns(n) + [Return]) }

  lemma {:induction false} FsRunConcat(j: Job, s: Fs, a: seq<FsEvent>, b: seq<FsEvent>)
    ensures FsRun(j, s, a + b) == FsRun(j, FsRun(j, s, a), b)
    decreases |b|
  {
    hide FsExec;
    if b == [] {
      assert a + b == a;
    } else {
      FsRunConcat(j, s, a, b[..|b| - 1]);
      assert (a + b)[..|a + b| - 1] == a + b[..|b| - 1];
    }
  }

  lemma FsRunOne(j: Job, s: Fs, ev: FsEvent)
    ensures FsRun(j, s, [ev]) == FsExec(j, s, ev)
  {
    hide FsExec;
    assert [ev][..0] == [];
    assert FsRun(j, s, []) == s;
  }

  lemma FsRunFirst(j: Job, s: Fs, ev: FsEvent, rest: seq<FsEvent>)
    ensures FsRun(j, s, [ev] + rest) == FsRun(j, FsExec(j, s, ev), rest)
  {
    hide FsExec, FsRun;
    FsRunConcat(j, s, [ev], rest);
    FsRunOne(j, s, ev);
  }

  /** The state whose commit is under way. */
  function Working(t: Fs): State
    requires t.mem.Up?
  {
    if t.mem.stand.First? then t.dst else t.src
  }

  ghost predicate InCommit(t: Fs) {
    t.mem.Up? && (t.mem.stand.First? || t.mem.stand.Second?) && Working(t).ram.Busy?
  }

  lemma {:induction false} RunsToSeal(j: Job, t: Fs) returns (n: nat)
    requires InCommit(t)
    ensures
      var t' := FsRun(j, t, Turns(n));
      InCommit(t') && Working(t').ram.stage.Sealed? && t'.mem == t.mem
    decreases Remaining(Working(t).ram)
  {
    hide Exec, Remaining, FsRun;
    n := 0;
    assert FsRun(j, t, []) == t by { FsRunNone(j, t); }
    if !Working(t).ram.stage.Sealed? {
      AdvanceRemains(Working(t));
      var m := RunsToSeal(j, FsExec(j, t, Turn(0)));
      FsRunFirst(j, t, Turn(0), Turns(m));
      n := m + 1;
    }
  }

  lemma FsRunNone(j: Job, t: Fs)
    ensures FsRun(j, t, []) == t
  {
  }

  lemma BusyInCommit(j: Job, t: Fs)
    requires FsInv(j, t) && t.mem.Up? && (t.mem.stand.First? || t.mem.stand.Second?)
    ensures InCommit(t)
  {
    hide Inv, Settled, Stores, Change;
  }

  lemma StandPassed(j: Job, t: Fs)
    requires FsInv(j, t) && t.mem.Up?
    ensures t.mem.stand.Between? || t.mem.stand.Second? ==> Passed(j, t)
  {
    hide Inv;
  }

  /** A commit under way takes its steps and returns. */
  lemma CommitReturns(j: Job, t: Fs) returns (n: nat)
    requires Workable(j) && OthersInWords(j) && InCommit(t) && FsInv(j, t)
    ensures
      var t' := FsRun(j, t, Turns(n) + [Return]);
      && FsInv(j, t') && Passed(j, t') && t'.mem.Up? && t'.mem.gdisk == t'.mem.gstate == t.mem.gstate
      && t'.mem.stand == if t.mem.stand.First? then Between else Quiet
  {
    hide Exec, FsInv, FsRun, OthersInWords, Passed, Turns, Workable;
    n := RunsToSeal(j, t);
    var t1 := FsRun(j, t, Turns(n));
    FsRunKeeps(j, t, Turns(n));
    FsExecKeeps(j, t1, Return);
    FsRunConcat(j, t, Turns(n), [Return]);
    FsRunOne(j, t1, Return);
    StandPassed(j, t1);
    StandPassed(j, FsExec(j, t1, Return));
  }

  /** An event that starts a commit, and the commit. */
  lemma CommitRuns(j: Job, s: Fs, ev: FsEvent) returns (n: nat)
    requires Workable(j) && OthersInWords(j) && FsInv(j, s) && FsExec(j, s, ev).mem.Up?
    requires FsExec(j, s, ev).mem.stand.First? || FsExec(j, s, ev).mem.stand.Second?
    ensures
      var t, t' := FsExec(j, s, ev), FsRun(j, s, Committing(ev, n));
      && FsInv(j, t') && Passed(j, t') && t'.mem.Up? && t'.mem.gdisk == t'.mem.gstate == t.mem.gstate
      && t'.mem.stand == if t.mem.stand.First? then Between else Quiet
  {
    hide FsExec, FsInv, FsRun, InCommit, OthersInWords, Passed, Turns, Workable;
    FsExecKeeps(j, s, ev);
    BusyInCommit(j, FsExec(j, s, ev));
    n := CommitReturns(j, FsExec(j, s, ev));
    FsRunFirst(j, s, ev, Turns(n) + [Return]);
  }

  /** Mounting, from any state of the disk, takes from it the logs and the move that the
      view says. */
  lemma BootsUp(j: Job, s: Fs, older: bool)
    requires Workable(j) && OthersInWords(j) && FsInv(j, s) && s.mem.Down?
    ensures
      var t := FsExec(j, s, Boot(older));
      && FsInv(j, t) && t.mem.Up? && t.mem.stand.Quiet? && t.src.ram.Idle? && t.dst.ram.Idle?
      && View(j, t) == View(j, s)
      && View(j, s) == Disk(t.src.ram.dir.log, t.dst.ram.dir.log, PendingIn(j, G.ReadMove(t.mem.gdisk)))
      && (G.ReadMove(t.mem.gdisk).NoMove? <==> PendingIn(j, G.ReadMove(t.mem.gdisk)).None?)
  {
    hide G.Booted, Exec, FsInv, Inv, OthersInWords, Pairs, PendingIn, Workable, View, Fetched;
    hide G.Sum, G.ReadMove;
    FsExecKeeps(j, s, Boot(older));
    DownParts(j, s);
    BootResolves(s.src);
    BootResolves(s.dst);
    BootBlocks(s.src);
    BootBlocks(s.dst);
    var t := FsExec(j, s, Boot(older));
    MemoryIsView(j, t);
    ViewByBlocks(j, s, t);
    MoveIsPending(j, t);
  }

  lemma DownParts(j: Job, s: Fs)
    requires FsInv(j, s) && s.mem.Down?
    ensures Inv(s.src) && Inv(s.dst) && s.src.ram.Off? && s.dst.ram.Off?
  {
    hide Inv;
  }

  lemma BootBlocks(s: State)
    ensures Exec(s, Mount).b0 == s.b0 && Exec(s, Mount).b1 == s.b1
  {
    hide FetchOf;
  }

  lemma ViewByBlocks(j: Job, s: Fs, t: Fs)
    requires s.src.b0 == t.src.b0 && s.src.b1 == t.src.b1 && s.dst.b0 == t.dst.b0 && s.dst.b1 == t.dst.b1
    ensures View(j, s) == View(j, t)
  {
    hide FetchOf, Pairs, PendingIn, G.Sum, G.ReadMove;
  }

  lemma MoveIsPending(j: Job, t: Fs)
    requires Workable(j) && FsInv(j, t) && t.mem.Up? && t.src.ram.Idle? && t.dst.ram.Idle?
    ensures G.ReadMove(t.mem.gdisk).NoMove? <==> PendingIn(j, G.ReadMove(t.mem.gdisk)).None?
  {
    hide Inv, IsFirst, IsSecond, Pairs, PendingIn, Workable, InWords, G.ReadMove, G.Balanced;
    IdleLog(t.src);
    IdleLog(t.dst);
    PendingIsNoted(j, t, t.mem.gdisk);
    NothingPending(j);
  }

  lemma NothingPending(j: Job)
    ensures PendingIn(j, G.NoMove) == None && PendingIn(j, j.Noted()) == Some(j.r.from)
  {
  }

  /** Without power loss, from any start, a rename runs to its end. */
  lemma RenameCompletes(j: Job, s: Fs, older: bool, tail: seq<Entry>, fcrc: bool) returns (n: nat, m: nat)
    requires Workable(j) && OthersInWords(j) && Started(j, s) && Tails(tail)
    ensures
      var t := FsRun(j, s, [Boot(older)] + (Committing(Begin(tail, fcrc), n) + Committing(GoOn(tail, fcrc), m)));
      && FsInv(j, t) && t.mem.Up? && t.mem.stand.Quiet? && G.ReadMove(t.mem.gdisk).NoMove?
      && AtSecond(j, View(j, t)) && Done(j.d, j.r, View(j, t))
  {
    hide AtFirst, AtSecond, Committing, CommitOf, Done, Exec, FsInv, FsRun, Inv, IsFirst, IsSecond, Legal;
    hide OthersInWords, Pairs, Passed, PendingIn, Started, View, Workable;
    hide G.Sum, G.ReadMove, G.WithMove, FirstAttrs, Tails;
    StartedInv(j, s);
    StartedView(j, s);
    BootsUp(j, s, older);
    var t1 := FsExec(j, s, Boot(older));
    WorkableParts(j);
    QuietStates(j, t1);
    n := CommitRuns(j, t1, Begin(tail, fcrc));
    var t2 := FsRun(j, t1, Committing(Begin(tail, fcrc), n));
    PassedBetween(j, t2);
    m := CommitRuns(j, t2, GoOn(tail, fcrc));
    NotedReads(j, t2.mem.gstate);
    FsRunConcat(j, t1, Committing(Begin(tail, fcrc), n), Committing(GoOn(tail, fcrc), m));
    FsRunFirst(j, s, Boot(older), Committing(Begin(tail, fcrc), n) + Committing(GoOn(tail, fcrc), m));
    var t := FsRun(j, t2, Committing(GoOn(tail, fcrc), m));
    QuietEnd(j, t);
    ViewVerdict(j, View(j, t));
  }

  /** At rest, nothing waits in memory. */
  lemma QuietStates(j: Job, t: Fs)
    requires FsInv(j, t) && t.mem.Up? && t.mem.stand.Quiet?
    ensures t.mem.gstate == t.mem.gdisk && t.src.ram.Idle? && t.dst.ram.Idle?
  {
    hide Inv;
  }

  lemma StartedView(j: Job, s: Fs)
    requires Workable(j) && Started(j, s)
    ensures View(j, s) == j.d && s.mem.Down? && Legal(j.d, j.r)
  {
    hide Inv, Pairs, PendingIn, Fetched, Legal, Ready, Border, G.Sum, G.ReadMove;
    FetchedIs(s.src);
    FetchedIs(s.dst);
    WorkableDisk(j);
  }

  lemma QuietEnd(j: Job, t: Fs)
    requires Workable(j) && FsInv(j, t) && t.mem.Up? && t.mem.stand.Quiet? && G.ReadMove(t.mem.gdisk).NoMove?
    requires Passed(j, t)
    ensures AtSecond(j, View(j, t))
  {
    hide AtSecond, FsInv, Means, Passed, View, Workable, G.ReadMove;
    CleanedUp(j, t);
    ViewIs(j, t);
    WorkableDisk(j);
  }

  lemma PassedBetween(j: Job, t: Fs)
    requires Workable(j) && FsInv(j, t) && t.mem.Up? && t.mem.stand.Between?
    ensures t.src.ram.Idle? && G.ReadMove(t.mem.gstate).Move?
  {
    hide Inv, IsFirst, IsSecond, Pairs, PendingIn, Workable, InWords, G.ReadMove, G.Balanced;
    IdleLog(t.src);
    IdleLog(t.dst);
    PendingIsNoted(j, t, t.mem.gdisk);
  }

  /// ---- And one that is cut short is cleaned up -----------------------------------------------------

  /** The clean-up deletes what was moved: wherever a move is pending, it runs to an end
      with the old entry gone for good and no move left. */
  lemma DemoveCleansUp(j: Job, s: Fs, tail: seq<Entry>, fcrc: bool) returns (n: nat)
    requires Workable(j) && OthersInWords(j) && FsInv(j, s) && s.mem.Up? && s.mem.stand.Quiet? && Tails(tail)
    requires PendingIn(j, G.ReadMove(s.mem.gdisk)).Some?
    ensures
      var t := FsRun(j, s, Committing(Demove(tail, fcrc), n));
      && FsInv(j, t) && t.mem.Up? && t.mem.stand.Quiet? && G.ReadMove(t.mem.gdisk) == G.NoMove
      && AtSecond(j, View(j, t)) && Done(j.d, j.r, View(j, t))
  {
    hide AtFirst, AtSecond, Committing, CommitOf, Done, Exec, FsInv, FsRun, Inv, IsFirst, IsSecond, Legal;
    hide OthersInWords, Pairs, Passed, PendingIn, View, Workable, G.Sum, G.ReadMove, G.WithMove, Tails;
    WorkableParts(j);
    QuietStates(j, s);
    n := CommitRuns(j, s, Demove(tail, fcrc));
    NotedReads(j, s.mem.gstate);
    var t := FsRun(j, s, Committing(Demove(tail, fcrc), n));
    QuietEnd(j, t);
    ViewVerdict(j, View(j, t));
  }

  /** Recovery: whenever power is lost, mounting and, if a move is found, cleaning up end
      with no move left: either the rename never happened, or the old entry is gone. */
  lemma CrashRecovers(j: Job, s: Fs, torn: bool, left: Block, older: bool, tail: seq<Entry>, fcrc: bool)
    returns (more: seq<FsEvent>)
    requires Workable(j) && OthersInWords(j) && FsInv(j, s) && s.mem.Up? && Tails(tail)
    ensures more == [] || exists n: nat :: more == Committing(Demove(tail, fcrc), n)
    ensures
      var down := FsExec(j, s, Crash(torn, left));
      var t := FsRun(j, down, [Boot(older)] + more);
      && down.mem.Down? && FsInv(j, t) && t.mem.Up? && t.mem.stand.Quiet? && G.ReadMove(t.mem.gdisk).NoMove?
      && (View(j, down) == j.d ==> View(j, t) == j.d)
      && (View(j, down) != j.d ==> AtSecond(j, View(j, t)))
  {
    hide AtFirst, AtSecond, Committing, Done, Exec, FsInv, FsRun, Inv, Legal, OthersInWords, Passed, PendingIn;
    hide View, Workable, G.Sum, G.ReadMove, Tails;
    var down := FsExec(j, s, Crash(torn, left));
    FsExecKeeps(j, s, Crash(torn, left));
    BootsUp(j, down, older);
    WorkableDisk(j);
    var t1 := FsExec(j, down, Boot(older));
    FsRunNone(j, t1);
    more := [];
    if G.ReadMove(t1.mem.gdisk).NoMove? {
      CleanedUp(j, t1);
    } else {
      var n := DemoveCleansUp(j, t1, tail, fcrc);
      more := Committing(Demove(tail, fcrc), n);
    }
    FsRunFirst(j, down, Boot(older), more);
  }

  /** A commit that falls back to compaction goes on as one, with the same end. */
  lemma RetreatCompacts(j: Job, s: Fs, tail: seq<Entry>, fcrc: bool) returns (n: nat)
    requires Workable(j) && OthersInWords(j) && FsInv(j, s) && InCommit(s) && Tails(tail)
    requires Working(s).ram.mode.Append? && Working(s).ram.stage.Writing?
    ensures
      var t, t' := FsExec(j, s, Retreat(tail, fcrc)), FsRun(j, s, Committing(Retreat(tail, fcrc), n));
      && t.mem == s.mem && InCommit(t) && Working(t).ram.mode.Compact? && Working(t).ram.stage.Erasing?
      && FsInv(j, t') && Passed(j, t') && t'.mem.Up? && t'.mem.gdisk == s.mem.gstate
      && t'.mem.stand == if s.mem.stand.First? then Between else Quiet
  {
    hide Committing, FsInv, FsRun, OthersInWords, Passed, Workable, Tails, Inv;
    n := CommitRuns(j, s, Retreat(tail, fcrc));
  }

  /// ---- A place to start from -----------------------------------------------------------------------

  lemma OneName(name: Name)
    requires FileName(REG, name)
    ensures
      var log := [NameEntry(REG, 0, name)];
      Ready([]) && Ready(log) && Keys([]) == [] && Replay([]) == [] && |Replay(log)| == 1 && Keys(log) == [Named(name)]
  {
    var none: seq<Entry> := [];
    var e := NameEntry(REG, 0, name);
    assert none + [e] == [e] && [e][..0] == none;
    assert Replay(none) == [] && Keys(none) == [] && Appendable(none, e);
    AppendOne(none, e);
    PadAt([], 0);
    PadKeysAt([], 0);
    assert Keys([e]) == [Named(name)] && |Replay([e])| == 1;
    assert Ready(none);
  }

  lemma NoMoveAtAll()
    ensures G.ReadMove({}) == G.NoMove && G.AllOnDisk([[], []]) && G.Sum([[], []]) == {}
  {
    G.BitsRange(0, 92, 3);
    G.ValueBits(0, 92, 3, {});
    assert G.OneBits(0, 92) + {} == {};
    G.SumOne([]);
    G.SumConcat([[]], [[]]);
    var none: G.Deltas := [];
    assert [none] + [none] == [none, none];
    G.XorUnit({}, {});
  }

  /** Renaming the only file of one directory into an empty one, on a device where both
      pairs were just written: all that the results of this module ask for is met. */
  lemma SmallRename() returns (j: Job, s: Fs)
    ensures Workable(j) && OthersInWords(j) && Started(j, s)
  {
    var a, b: Name := [97], [98];
    var log := [NameEntry(REG, 0, a)];
    j := Job(Disk(log, [], None), Request(0, a, 0, REG, b), 2, 3, []);
    OneName(a);
    ReadyParts(log);
    ReadyParts([]);
    NoMoveAtAll();
    assert DeltasOf([]) == [] && DeltasOf(log) == [] by {
      StatelessDeltas(log);
    }
    assert Pairs(j, log, []) == [[], []];
    assert G.ValidMove(j.Noted()) by {
      assert Pow2(2) == 4;
      Pow2Grows(2, 32);
    }
    hide Keys, Replay, Ready, WellFormed, Faithful, DeltasOf, G.Sum, G.ReadMove;
    assert Sorted(Keys(log));
    assert Workable(j);
    var blank := Block(0, []);
    assert ScanOf(blank) == START;
    FormattedIsFaithful(1, log, true, blank, false);
    FormattedIsFaithful(1, [], true, blank, false);
    var src := State(Block(1, Puts(log) + [Seal(Sum(Some(1), log), true)]), blank, Off, log, None);
    var dst := State(Block(1, Puts([]) + [Seal(Sum(Some(1), []), true)]), blank, Off, [], None);
    s := Fs(src, dst, Down);
    FaithfulInv(Traced(src, log, None));
    FaithfulInv(Traced(dst, [], None));
  }

  lemma FaithfulInv(t: Traced)
    requires Faithful(t)
    ensures Inv(t.s)
  {
  }

  /// ---- A first commit that fails with an error ----------------------------------------------------

  /** What any commit on the new pair does to the file, by the state in memory: the old
      name still leads to it exactly if no move of it is noted there. */
  lemma NextCommit(j: Job, gstate: G.Word, attrs: seq<Entry>, f: seq<Entry>)
    requires Workable(j) && PendingIn(j, G.ReadMove(gstate)) in {None, Some(j.r.from)}
    requires Stores([DeltasOf(j.d.oldLog), DeltasOf(j.d.newLog)] + j.others, 1, j.d.newLog, attrs, gstate, f)
    ensures
      var v := Disk(j.d.oldLog, f, PendingIn(j, G.ReadMove(G.Sum(Pairs(j, j.d.oldLog, f)))));
      && (Exists(v.Old(), j.r.oldName) <==> PendingIn(j, G.ReadMove(gstate)).None?)
      && (Exists(v.newLog, j.r.newName) <==> Exists(j.d.newLog + attrs, j.r.newName))
  {
    assert Pairs(j, j.d.oldLog, j.d.newLog) == [DeltasOf(j.d.oldLog), DeltasOf(j.d.newLog)] + j.others;
    hide Pairs, PendingIn, G.Balanced, G.Sum, G.ReadMove, Exists, DeltasOf, Means, Ready;
    PairsAfter(j, j.d.oldLog, j.d.newLog, f);
    BalancedMove(j, j.d.oldLog, f, gstate);
    MeansSame(f, j.d.newLog + attrs, j.r.newName);
    EffectiveNone(j.d.oldLog);
    StillThere(j.d, j.r);
    OldGone(j);
  }

  /** The first commit may also return an error, for lack of space say. The move stays
      noted in memory then, and the next commit, whatever it is for, records it: here
      one on the new pair that changes nothing. The file is found under neither name. */
  lemma RefusedRenameLoses(j: Job, gdisk: G.Word)
    requires Workable(j) && InWords(gdisk) && G.Balanced(Pairs(j, j.d.oldLog, j.d.newLog), {}, gdisk)
    ensures
      var f := j.d.newLog + Appended(j.d.newLog, G.WithMove(gdisk, j.Noted()), gdisk);
      var v := Disk(j.d.oldLog, f, PendingIn(j, G.ReadMove(G.Sum(Pairs(j, j.d.oldLog, f)))));
      !Exists(v.Old(), j.r.oldName) && !Exists(v.newLog, j.r.newName)
  {
    hide Pairs, PendingIn, Settled, G.Balanced, G.Sum, G.ReadMove, G.WithMove, Exists, Appended;
    var log, g := j.d.newLog, G.WithMove(gdisk, j.Noted());
    var pairs := Pairs(j, j.d.oldLog, log);
    var f := log + Appended(log, g, gdisk);
    SettledFirst(j, gdisk);
    EmptyChange(log);
    AppendStores(pairs, 1, log, [], g, gdisk);
    assert [] + Appended(log, g, gdisk) == Appended(log, g, gdisk) && log + [] == log;
    PairsMany(j, j.d.oldLog, log);
    PairsAfter(j, j.d.oldLog, log, f);
    BalancedMove(j, j.d.oldLog, f, g);
    NotedReads(j, gdisk);
    NotedPending(j);
    MeansSame(f, log, j.r.newName);
    NothingDone(j.d, j.r);
    OldGone(j);
  }

  lemma EmptyChange(log: seq<Entry>)
    requires Ready(log)
    ensures Change(log, [])
  {
    assert log + [] == log;
  }

  lemma NotedPending(j: Job)
    ensures PendingIn(j, j.Noted()) == Some(j.r.from)
  {
  }

  lemma OldGone(j: Job)
    requires Legal(j.d, j.r)
    ensures !Exists(Effective(j.d.oldLog, Some(j.r.from)), j.r.oldName)
  {
    KeysAnswer(j.d.oldLog, 0);
    hide Exists, Keys, Replay, Sorted, WellFormed;
    DeleteLookup(j.d.oldLog, j.r.from, j.r.oldName);
  }

  /// ---- What the lookups of a mounted filesystem see -------------------------------------------------

  /** Memory agrees with the disk: the pending move that lookups apply is the one that
      a mount would find. */
  lemma MemoryIsView(j: Job, s: Fs)
    requires Workable(j) && FsInv(j, s) && s.mem.Up? && s.src.ram.Idle? && s.dst.ram.Idle?
    ensures View(j, s) == Disk(s.src.ram.dir.log, s.dst.ram.dir.log, PendingIn(j, G.ReadMove(s.mem.gdisk)))
    ensures Ready(View(j, s).Old()) && Ready(View(j, s).newLog)
  {
    hide Inv, IsFirst, IsSecond, Pairs, PendingIn, Fetched, Workable, InWords, G.Sum, G.ReadMove, G.Balanced;
    hide G.AllOnDisk, Ready;
    FetchedIs(s.src);
    FetchedIs(s.dst);
    BalancedMove(j, s.src.acked, s.dst.acked, s.mem.gdisk);
    IdleLog(s.src);
    IdleLog(s.dst);
    PendingIsNoted(j, s, s.mem.gdisk);
    PhaseReady(j, s);
  }

  lemma PhaseReady(j: Job, s: Fs)
    requires Workable(j) && (Early(j, s) || Passed(j, s)) && s.src.flight.None? && s.dst.flight.None?
    ensures Ready(s.src.acked) && Ready(s.dst.acked)
    ensures Midway(j, s) ==> Ready(Effective(s.src.acked, Some(j.r.from)))
  {
    hide Means, Ready, Recorded, Legal, Border, Stateless;
    if Midway(j, s) {
      SecondChange(j);
    }
  }

  /** Reading a file of the old directory while mounted reports what the view says. */
  method ReadOld(j: Job, s: Fs, behind: seq<seq<Byte>>, name: Name, slot: Kind, gsize: nat)
    returns (r: Outcome, got: Got, buffer: seq<Byte>)
    requires Workable(j) && FsInv(j, s) && s.mem.Up? && s.src.ram.Idle? && s.dst.ram.Idle?
    requires AttrKind(slot) && |behind| == |s.src.ram.dir.log|
    ensures r.Found? <==> Exists(View(j, s).Old(), name)
    ensures Reported(Lookup(View(j, s).Old(), name, slot), gsize, got, buffer)
  {
    hide AttrKind, Effective, Exists, FsInv, Lookup, PendingIn, Ready, Reported, View, Workable, G.ReadMove;
    MemoryIsView(j, s);
    r, got, buffer := ReadFile(s.src.ram.dir.log, behind, PendingIn(j, G.ReadMove(s.mem.gdisk)), name, slot, gsize);
  }

  /** So does reading a file of the new directory. */
  method ReadNew(j: Job, s: Fs, behind: seq<seq<Byte>>, name: Name, slot: Kind, gsize: nat)
    returns (r: Outcome, got: Got, buffer: seq<Byte>)
    requires Workable(j) && FsInv(j, s) && s.mem.Up? && s.src.ram.Idle? && s.dst.ram.Idle?
    requires AttrKind(slot) && |behind| == |s.dst.ram.dir.log|
    ensures r.Found? <==> Exists(View(j, s).newLog, name)
    ensures Reported(Lookup(View(j, s).newLog, name, slot), gsize, got, buffer)
  {
    hide AttrKind, Effective, Exists, FsInv, Lookup, PendingIn, Ready, Reported, View, Workable, G.ReadMove;
    MemoryIsView(j, s);
    EffectiveNone(s.dst.ram.dir.log);
    r, got, buffer := ReadFile(s.dst.ram.dir.log, behind, None, name, slot, gsize);
  }
}
