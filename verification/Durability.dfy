/** From logs to contents: across appends, compactions and power losses, what a
    fetched directory says is what replaying every committed change says. */
module Durability {
  import opened Bytes
  import opened Options
  import opened Tags
  import opened MetadataLog
  import opened Compaction
  import opened MetadataPair

  /** Two logs that no lookup of a name, struct or attribute can tell apart. */
  ghost predicate Means(a: seq<Entry>, b: seq<Entry>) {
    && WellFormed(a) && WellFormed(b)
    && |Replay(a)| == |Replay(b)|
    && forall id: nat, slot: Kind :: AttrKind(slot) ==>
         Answer(a, id, SlotQuery(slot)) == Answer(b, id, SlotQuery(slot))
  }

  /** Entries that belong to no id: tails, global state, checksums. */
  predicate Neutral(e: Entry) {
    e.tag.Valid() && (e.tag.kind.cls.Tail? || e.tag.kind.cls.Globals? || e.tag.kind.cls.Crc?)
  }

  /** A change that the filesystem may commit: every entry is appendable, and a
      name goes to an entry that exists. */
  predicate Proper(log: seq<Entry>, attrs: seq<Entry>)
    decreases |attrs|
  {
    attrs == [] ||
    var e := attrs[0];
    && Appendable(log, e)
    && (IsName(e) ==> e.tag.id < |Replay(log)|)
    && Proper(log + [e], attrs[1..])
  }

  lemma AppendOne(log: seq<Entry>, e: Entry)
    requires WellFormed(log) && Appendable(log, e)
    ensures WellFormed(log + [e]) && Replay(log + [e]) == Apply(Replay(log), e)
  {
    assert (log + [e])[..|log|] == log;
  }

  lemma MeansNamed(a: seq<Entry>, b: seq<Entry>, id: nat)
    requires Means(a, b) && id < |Replay(a)|
    ensures HasName(Replay(a)[id]) <==> HasName(Replay(b)[id])
  {
    NameAnswer(a, id);
    NameAnswer(b, id);
    assert SlotQuery(REG) == NAME_QUERY && AttrKind(REG);
  }

  lemma MeansAllNamed(a: seq<Entry>, b: seq<Entry>)
    requires Means(a, b) && AllNamed(Replay(a))
    ensures AllNamed(Replay(b))
  {
    forall id | 0 <= id < |Replay(b)|
      ensures HasName(Replay(b)[id])
    {
      MeansNamed(a, b, id);
    }
  }

  /** The number of entries after one more log entry. */
  function CountAfter(n: nat, e: Entry): nat {
    if IsCreate(e) && e.tag.id <= n then n + 1
    else if IsDelete(e) && e.tag.id < n then n - 1
    else if IsAttr(e) && e.tag.id >= n then e.tag.id + 1
    else n
  }

  lemma CountStep(log: seq<Entry>, e: Entry)
    ensures |Replay(log + [e])| == CountAfter(|Replay(log)|, e)
  {
    assert (log + [e])[..|log|] == log;
    PadAt(Replay(log), e.tag.id);
  }

  /** Committing the same entry keeps two logs indistinguishable. */
  lemma MeansStep(a: seq<Entry>, b: seq<Entry>, e: Entry)
    requires Means(a, b) && Appendable(a, e) && (IsName(e) ==> e.tag.id < |Replay(a)|)
    ensures Appendable(b, e)
    ensures Means(a + [e], b + [e])
  {
    if IsAttr(e) && e.tag.id < |Replay(a)| {
      MeansNamed(a, b, e.tag.id);
    }
    AppendOne(a, e);
    AppendOne(b, e);
    CountStep(a, e);
    CountStep(b, e);
    hide Answer, Appendable, Replay, WellFormed;
    forall id: nat, slot: Kind | AttrKind(slot)
      ensures Answer(a + [e], id, SlotQuery(slot)) == Answer(b + [e], id, SlotQuery(slot))
    {
      ReplayStep(a, e, id, slot);
      ReplayStep(b, e, id, slot);
    }
  }

  lemma ProperHead(log: seq<Entry>, attrs: seq<Entry>)
    requires attrs != []
    ensures Proper(log, attrs) <==>
            var e := attrs[0];
            && Appendable(log, e) && (IsName(e) ==> e.tag.id < |Replay(log)|)
            && Proper(log + [e], attrs[1..])
  {
  }

  lemma NoAnswer(log: seq<Entry>, id: nat, q: Query)
    requires id >= |Replay(log)|
    ensures Answer(log, id, q).None?
  {
  }

  /** A whole change keeps two logs indistinguishable. */
  lemma {:induction false} MeansCommit(a: seq<Entry>, b: seq<Entry>, attrs: seq<Entry>)
    requires Means(a, b) && Proper(a, attrs)
    ensures Proper(b, attrs) && Means(a + attrs, b + attrs)
    decreases |attrs|
  {
    assert attrs == [] ==> Proper(b, attrs);
    assert |Replay(a)| == |Replay(b)|;
    hide *;
    if attrs == [] {
      assert a + attrs == a && b + attrs == b;
    } else {
      var e := attrs[0];
      ProperHead(a, attrs);
      ProperHead(b, attrs);
      MeansStep(a, b, e);
      MeansCommit(a + [e], b + [e], attrs[1..]);
      Regroup(a, attrs);
      Regroup(b, attrs);
    }
  }

  lemma Regroup(log: seq<Entry>, attrs: seq<Entry>)
    requires attrs != []
    ensures log + [attrs[0]] + attrs[1..] == log + attrs
  {
  }

  lemma {:induction false} MeansNeutral(log: seq<Entry>, extra: seq<Entry>)
    requires WellFormed(log) && forall k :: 0 <= k < |extra| ==> Neutral(extra[k])
    ensures Means(log + extra, log)
    decreases |extra|
  {
    if extra == [] {
      assert log + extra == log;
    } else {
      var init, e := extra[..|extra| - 1], extra[|extra| - 1];
      MeansNeutral(log, init);
      AppendOne(log + init, e);
      CountStep(log + init, e);
      hide Answer, Appendable, Replay, WellFormed;
      assert log + init + [e] == log + extra;
      forall id: nat, slot: Kind | AttrKind(slot)
        ensures Answer(log + extra, id, SlotQuery(slot)) == Answer(log, id, SlotQuery(slot))
      {
        ReplayStep(log + init, e, id, slot);
      }
    }
  }

  lemma CompactedAnswer(log: seq<Entry>, id: nat, slot: Kind)
    requires WellFormed(log) && AllNamed(Replay(log)) && AttrKind(slot)
    ensures Answer(Compacted(log, 0, |Replay(log)|), id, SlotQuery(slot)) == Answer(log, id, SlotQuery(slot))
  {
    if id < |Replay(log)| {
      CompactionPreserves(log, 0, |Replay(log)|, id, slot);
    } else {
      CompactionCount(log, 0, |Replay(log)|);
      NoAnswer(Compacted(log, 0, |Replay(log)|), id, SlotQuery(slot));
      NoAnswer(log, id, SlotQuery(slot));
    }
  }

  /** Compaction writes a log that cannot be told from the one it replaces. */
  lemma MeansRewrite(log: seq<Entry>, extra: seq<Entry>)
    requires WellFormed(log) && AllNamed(Replay(log))
    requires forall k :: 0 <= k < |extra| ==> Neutral(extra[k])
    ensures Means(Rewrite(log, extra), log)
  {
    var out := Compacted(log, 0, |Replay(log)|);
    CompactedWellFormed(log, 0, |Replay(log)|);
    CompactionCount(log, 0, |Replay(log)|);
    MeansNeutral(out, extra);
    hide Answer, AllNamed, Compacted, Replay, WellFormed;
    forall id: nat, slot: Kind | AttrKind(slot)
      ensures Answer(out, id, SlotQuery(slot)) == Answer(log, id, SlotQuery(slot))
    {
      CompactedAnswer(log, id, slot);
    }
    MeansTrans(out + extra, out, log);
  }

  lemma MeansTrans(a: seq<Entry>, b: seq<Entry>, c: seq<Entry>)
    requires Means(a, b) && Means(b, c)
    ensures Means(a, c) && Means(b, a)
  {
  }

  /// ---- Whole runs ---------------------------------------------------------------------

  /** A run of a pair together with everything that was ever committed: `hist`
      is the plain concatenation of the changes behind `acked`, never compacted,
      and `coming` the same for the commit in flight. */
  datatype Traced = Traced(s: State, hist: seq<Entry>, coming: Option<seq<Entry>>)

  predicate AllNeutral(extra: seq<Entry>) {
    forall k :: 0 <= k < |extra| ==> Neutral(extra[k])
  }

  /** What the filesystem may ask of the pair. */
  predicate Allowed(s: State, ev: Event) {
    match ev
    case Commit(attrs, extra, _) =>
      s.ram.Idle? ==>
        Proper(s.ram.dir.log, attrs) && AllNamed(Replay(s.ram.dir.log + attrs)) && AllNeutral(extra)
    case Fallback(extra, _) => AllNeutral(extra)
    case _ => true
  }

  function Follow(t: Traced, ev: Event): Traced {
    if !Allowed(t.s, ev) then t
    else
      var s' := Exec(t.s, ev);
      match (ev, t.s.ram)
      case (Commit(attrs, _, _), Idle(_)) => Traced(s', t.hist, Some(t.hist + attrs))
      case (Finish, Busy(_, _, stage, _, _, _)) =>
        if stage.Sealed? && t.coming.Some? then Traced(s', t.coming.value, None) else t.(s := s')
      case (Mount, Off) =>
        if s'.ram.Off? then t
        else if t.s.flight == Some(s'.acked) && t.coming.Some? then Traced(s', t.coming.value, None)
        else Traced(s', t.hist, None)
      case _ => t.(s := s')
  }

  function FollowAll(t: Traced, evs: seq<Event>): Traced {
    if evs == [] then t else Follow(FollowAll(t, evs[..|evs| - 1]), evs[|evs| - 1])
  }

  /** The memory of the pair and the true history agree. */
  ghost predicate Faithful(t: Traced) {
    && Inv(t.s)
    && Means(t.s.acked, t.hist) && AllNamed(Replay(t.s.acked))
    && (t.s.flight.Some? <==> t.coming.Some?)
    && (t.s.flight.Some? ==>
          Means(t.s.flight.value, t.coming.value) && AllNamed(Replay(t.s.flight.value)))
  }

  lemma FollowCommit(t: Traced, attrs: seq<Entry>, extra: seq<Entry>, fcrc: bool)
    requires Faithful(t) && t.s.ram.Idle? && Allowed(t.s, Commit(attrs, extra, fcrc))
    ensures Faithful(Follow(t, Commit(attrs, extra, fcrc)))
  {
    var log := t.s.ram.dir.log;
    ExecKeeps(t.s, Commit(attrs, extra, fcrc));
    assert log == t.s.acked;
    MeansCommit(log, t.hist, attrs);
    MeansRewrite(log + attrs, extra);
    MeansTrans(Rewrite(log + attrs, extra), log + attrs, t.hist + attrs);
    MeansAllNamed(log + attrs, Rewrite(log + attrs, extra));
    hide AllNamed, Inv, Means, Proper, Replay, Rewrite;
  }

  lemma FollowFallback(t: Traced, extra: seq<Entry>, fcrc: bool)
    requires Faithful(t) && t.s.ram.Busy? && AllNeutral(extra)
    ensures Faithful(Follow(t, Fallback(extra, fcrc)))
  {
    var r := t.s.ram;
    ExecKeeps(t.s, Fallback(extra, fcrc));
    if r.mode.Append? && r.stage.Writing? {
      var log := r.dir.log + (r.done + r.rest);
      assert t.s.flight == Some(log);
      MeansRewrite(log, extra);
      MeansTrans(Rewrite(log, extra), log, t.coming.value);
      MeansTrans(Rewrite(log, extra), log, log) by { assert Means(log, log); }
      MeansAllNamed(log, Rewrite(log, extra));
    }
    hide AllNamed, Inv, Means, Replay, Rewrite;
  }

  /** What the other events do to the committed log and the one in flight. */
  lemma OtherLogs(s: State, ev: Event)
    requires Inv(s) && !(ev.Commit? && s.ram.Idle?) && !(ev.Fallback? && s.ram.Busy?)
    ensures
      var s' := Exec(s, ev);
      if ev.Finish? && s.ram.Busy? && s.ram.stage.Sealed? then s.flight == Some(s'.acked) && s'.flight.None?
      else if ev.Mount? && s.ram.Off? && !s'.ram.Off? then
        (s'.acked == s.acked || s.flight == Some(s'.acked)) && s'.flight.None?
      else s'.acked == s.acked && s'.flight == s.flight
  {
    if ev.Finish? && s.ram.Busy? && s.ram.stage.Sealed? {
      assert s.ram.done + s.ram.rest == s.ram.done;
    }
  }

  lemma FollowOther(t: Traced, ev: Event)
    requires Faithful(t) && Allowed(t.s, ev)
    requires !(ev.Commit? && t.s.ram.Idle?) && !(ev.Fallback? && t.s.ram.Busy?)
    ensures Faithful(Follow(t, ev))
  {
    hide AllNamed, Exec, Inv, Means, Replay, Rewrite;
    ExecKeeps(t.s, ev);
    OtherLogs(t.s, ev);
  }

  /** Durability of contents: after any history of commits, compactions and power
      losses, every lookup in the fetched log is answered as by replaying all
      changes committed so far, or those and the change in flight. */
  lemma {:induction false} ContentsAfterRun(t: Traced, evs: seq<Event>)
    requires Faithful(t)
    ensures
      var r := FollowAll(t, evs);
      var dir := FetchOf(r.s.b0, r.s.b1);
      && Faithful(r)
      && dir.Some?
      && (Means(dir.value.log, r.hist) || (r.coming.Some? && Means(dir.value.log, r.coming.value)))
    decreases |evs|
  {
    if evs != [] {
      var p, ev := FollowAll(t, evs[..|evs| - 1]), evs[|evs| - 1];
      ContentsAfterRun(t, evs[..|evs| - 1]);
      FollowKeeps(p, ev);
    }
    FetchInv(FollowAll(t, evs).s);
    hide Inv, Means, Replay;
  }

  lemma FollowKeeps(t: Traced, ev: Event)
    requires Faithful(t)
    ensures Faithful(Follow(t, ev))
  {
    if Allowed(t.s, ev) {
      match (ev, t.s.ram)
      case (Commit(attrs, extra, fcrc), Idle(_)) => FollowCommit(t, attrs, extra, fcrc);
      case (Fallback(extra, fcrc), Busy(_, _, _, _, _, _)) => FollowFallback(t, extra, fcrc);
      case _ => FollowOther(t, ev);
    }
  }

  /// ---- What a history records ---------------------------------------------------------

  /** Allowed events happen to the pair as they are. */
  lemma FollowExec(t: Traced, ev: Event)
    requires Allowed(t.s, ev) && t.coming.None? == t.s.flight.None?
    ensures Follow(t, ev).s == Exec(t.s, ev)
    ensures ev.Advance? ==> Follow(t, ev) == t.(s := Exec(t.s, ev))
  {
    hide FetchOf, Rewrite, Proper, Replay, AllNamed;
  }

  lemma FollowConcat(t: Traced, a: seq<Event>, b: seq<Event>)
    ensures FollowAll(t, a + b) == FollowAll(FollowAll(t, a), b)
    decreases |b|
  {
    hide Follow;
    if b == [] {
      assert a + b == a;
    } else {
      FollowConcat(t, a, b[..|b| - 1]);
      assert (a + b)[..|a + b| - 1] == a + b[..|b| - 1];
    }
  }

  lemma FollowOne(t: Traced, ev: Event)
    ensures FollowAll(t, []) == t && FollowAll(t, [ev]) == Follow(t, ev)
  {
    hide Follow;
    assert [ev][..0] == [];
  }

  lemma {:induction false} FollowAdvances(t: Traced, n: nat)
    requires t.s.ram.Busy?
    ensures FollowAll(t, Advances(n)) == t.(s := Run(t.s, Advances(n)))
    decreases n
  {
    FollowOne(t, Advance(0));
    RunOne(t.s, Advance(0));
    if n > 0 {
      StillBusy(t.s);
      FollowConcat(t, [Advance(0)], Advances(n - 1));
      RunConcat(t.s, [Advance(0)], Advances(n - 1));
      FollowAdvances(t.(s := Exec(t.s, Advance(0))), n - 1);
    }
    hide Exec;
  }

  lemma StillBusy(s: State)
    requires s.ram.Busy?
    ensures Exec(s, Advance(0)).ram.Busy?
  {
  }

  /** A commit that returned is part of the history from then on: what the pair says
      afterwards is what all changes before it and its own mean. */
  lemma CommitIsKept(t: Traced, attrs: seq<Entry>, extra: seq<Entry>, fcrc: bool) returns (n: nat)
    requires Faithful(t) && t.s.ram.Idle? && Allowed(t.s, Commit(attrs, extra, fcrc))
    ensures
      var r := FollowAll(t, [Commit(attrs, extra, fcrc)] + (Advances(n) + [Finish]));
      && Faithful(r) && r.s.ram.Idle? && r.hist == t.hist + attrs && r.coming.None?
      && r.s.ram.dir.log == r.s.acked && Means(r.s.acked, t.hist + attrs)
  {
    hide AllNamed, Allowed, Exec, FetchOf, Finds, Inv, Means, Run;
    var ev := Commit(attrs, extra, fcrc);
    CommitBegins(t.s, attrs, extra, fcrc);
    FollowKeeps(t, ev);
    var t1 := Follow(t, ev);
    CommitFollows(t, attrs, extra, fcrc);
    n := RunsToSeal(t1.s);
    FollowAdvances(t1, n);
    var t2 := FollowAll(t1, Advances(n));
    FollowOne(t2, Finish);
    FinishEnds(t2.s);
    FinishFollows(t2);
    FollowConcat(t1, Advances(n), [Finish]);
    FollowOne(t, ev);
    FollowConcat(t, [ev], Advances(n) + [Finish]);
    ContentsAfterRun(t, [ev] + (Advances(n) + [Finish]));
  }

  lemma CommitFollows(t: Traced, attrs: seq<Entry>, extra: seq<Entry>, fcrc: bool)
    requires t.s.ram.Idle? && Allowed(t.s, Commit(attrs, extra, fcrc))
    ensures Follow(t, Commit(attrs, extra, fcrc)) ==
            Traced(Exec(t.s, Commit(attrs, extra, fcrc)), t.hist, Some(t.hist + attrs))
  {
    hide Allowed, Exec;
  }

  lemma FinishFollows(t: Traced)
    requires t.s.ram.Busy? && t.s.ram.stage.Sealed? && t.coming.Some?
    ensures Follow(t, Finish) == Traced(Exec(t.s, Finish), t.coming.value, None)
  {
    hide Exec;
  }

  /// ---- Where histories start ----------------------------------------------------------

  lemma {:induction false} FirstScan(rev: nat, log: seq<Entry>)
    ensures ScanUnits(rev, Puts(log)) == Scan(None, 0, log, false, false)
    decreases |log|
  {
    if log != [] {
      var n := |log| - 1;
      FirstScan(rev, log[..n]);
      ScanSnoc(Block(rev, Puts(log[..n])), Put(log[n]));
      assert log[..n] + [log[n]] == log;
    }
  }

  lemma OneCommit(rev: nat, log: seq<Entry>, fcrc: bool)
    ensures ScanOf(Block(rev, Puts(log) + [Seal(Sum(Some(rev), log), fcrc)])).log == Some(log)
  {
    hide Puts, ScanUnits;
    FirstScan(rev, log);
    ScanSnoc(Block(rev, Puts(log)), Seal(Sum(Some(rev), log), fcrc));
    assert [] + log == log;
  }

  /** A pair that was just written is a place to start from: one block with one
      commit, at any revision, and a partner without a valid commit. */
  lemma FormattedIsFaithful(rev: nat, log: seq<Entry>, fcrc: bool, other: Block, second: bool)
    requires rev < WORD_SPACE && other.rev < WORD_SPACE && ScanOf(other).log.None?
    requires WellFormed(log) && AllNamed(Replay(log))
    ensures
      var b := Block(rev, Puts(log) + [Seal(Sum(Some(rev), log), fcrc)]);
      var s := if second then State(other, b, Off, log, None) else State(b, other, Off, log, None);
      Faithful(Traced(s, log, None))
  {
    var seal := Seal(Sum(Some(rev), log), fcrc);
    var b := Block(rev, Puts(log) + [seal]);
    var s := if second then State(other, b, Off, log, None) else State(b, other, Off, log, None);
    hide AllNamed, FetchOf, Puts, NextRev, Replay, ScanUnits, WellFormed;
    OneCommit(rev, log, fcrc);
    WinsFetch(s, second, log);
    assert Means(log, log);
  }
}
