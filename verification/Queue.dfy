/** The blocking bounded queue of port/linux/tkl_queue.c: a monitor with two condition
    variables and two counts of waiters, run by any number of threads in any order. */
module Queue {

  type Msg = nat
  type Tid = nat

  /// ---- The queue as a value ----------------------------------------------------------------

  datatype Ring = Ring(contents: seq<Msg>, bounds: nat, fullWaiters: nat, emptyWaiters: nat) {
    predicate Full() { |contents| == bounds }
    predicate Empty() { contents == [] }

    function Put(x: Msg): Ring { this.(contents := contents + [x]) }

    function Rest(): Ring
      requires !Empty()
    {
      this.(contents := contents[1..])
    }
  }

  /// ---- Threads ------------------------------------------------------------------------------

  /** The third argument of post and fetch: no wait, a wait with a timeout, or one
      without. */
  datatype Wait = NoWait | Timed | Forever

  /** One side of the monitor: who is blocked, who was woken and has yet to run, who
      gave up waiting and has yet to run, and who of them waits with a timeout. */
  datatype Side = Side(blocked: set<Tid>, woken: set<Tid>, late: set<Tid>, timed: set<Tid>) {
    predicate Valid() {
      blocked !! woken && blocked !! late && woken !! late
    }

    function All(): set<Tid> { blocked + woken + late }

    function Count(): nat { |blocked| + |woken| + |late| }

    function Block(t: Tid, wait: Wait): Side {
      this.(blocked := blocked + {t}, timed := if wait.Timed? then timed + {t} else timed - {t})
    }

    function Wake(t: Tid): Side { this.(blocked := blocked - {t}, woken := woken + {t}) }

    function GiveUp(t: Tid): Side { this.(blocked := blocked - {t}, late := late + {t}) }

    function Swallow(t: Tid): Side { this.(woken := woken - {t}, late := late + {t}) }

    function Leave(t: Tid): Side { this.(woken := woken - {t}, late := late - {t}) }
  }

  /** All threads, and what went in and out. `entered` and `left` record the ring,
      `posted` and `fetched` what callers were told. */
  datatype State = State(
    ring: Ring, producers: Side, consumers: Side, mail: map<Tid, Msg>,
    entered: seq<Msg>, left: seq<Msg>, posted: seq<Msg>, fetched: seq<Msg>, signalFailed: bool)

  /** What can happen next. `sig` says whether signalling works, `target` whom the
      signal wakes. A wait with a timeout may end by `TimeOut`, or by `Swallow` when it was
      signalled and reports a timeout all the same. */
  datatype Event =
    | Post(t: Tid, x: Msg, wait: Wait, sig: bool, target: Tid)
    | Fetch(t: Tid, wait: Wait, sig: bool, target: Tid)
    | ResumePost(t: Tid, sig: bool, target: Tid)
    | ResumeFetch(t: Tid, sig: bool, target: Tid)
    | Spurious(t: Tid)
    | TimeOut(t: Tid)
    | Swallow(t: Tid)

  predicate Idle(s: State, t: Tid) {
    t !in s.producers.All() && t !in s.consumers.All()
  }

  /** A signal wakes a blocked thread if there is one. */
  predicate MayWake(side: Side, target: Tid) {
    side.blocked == {} || target in side.blocked
  }

  function Signal(side: Side, target: Tid): Side {
    if target in side.blocked then side.Wake(target) else side
  }

  predicate Enabled(s: State, e: Event) {
    match e
    case Post(t, _, _, _, target) => Idle(s, t) && MayWake(s.consumers, target)
    case Fetch(t, _, _, target) => Idle(s, t) && MayWake(s.producers, target)
    case ResumePost(t, _, target) =>
      t in s.producers.woken + s.producers.late && t in s.mail && MayWake(s.consumers, target)
    case ResumeFetch(t, _, target) => t in s.consumers.woken + s.consumers.late && MayWake(s.producers, target)
    case Spurious(t) => t in s.producers.blocked + s.consumers.blocked
    case TimeOut(t) =>
      if t in s.producers.blocked then t in s.producers.timed else t in s.consumers.blocked && t in s.consumers.timed
    case Swallow(t) =>
      if t in s.producers.woken then t in s.producers.timed else t in s.consumers.woken && t in s.consumers.timed
  }

  /** The end of a push: the message is in, and a waiting consumer is signalled; when
      that fails, the caller is told the push failed. */
  function Push(s: State, x: Msg, sig: bool, target: Tid): State {
    var s1 := s.(ring := s.ring.Put(x), entered := s.entered + [x]);
    if s.ring.emptyWaiters == 0 then s1.(posted := s.posted + [x])
    else if !sig then s1.(signalFailed := true)
    else s1.(posted := s.posted + [x], consumers := Signal(s.consumers, target))
  }

  function Pop(s: State, sig: bool, target: Tid): State
    requires !s.ring.Empty()
  {
    var x := s.ring.contents[0];
    var s1 := s.(ring := s.ring.Rest(), left := s.left + [x]);
    if s.ring.fullWaiters == 0 then s1.(fetched := s.fetched + [x])
    else if !sig then s1.(signalFailed := true)
    else s1.(fetched := s.fetched + [x], producers := Signal(s.producers, target))
  }

  /** A thread that runs after its wait is no longer counted. */
  function PostResumed(s: State, t: Tid): State {
    s.(ring := s.ring.(fullWaiters := Less(s.ring.fullWaiters)), producers := s.producers.Leave(t))
  }

  function FetchResumed(s: State, t: Tid): State {
    s.(ring := s.ring.(emptyWaiters := Less(s.ring.emptyWaiters)), consumers := s.consumers.Leave(t))
  }

  function Exec(s: State, e: Event): State
    requires Enabled(s, e)
  {
    match e
    case Post(t, x, wait, sig, target) =>
      if !s.ring.Full() then Push(s, x, sig, target)
      else if wait.NoWait? then s
      else s.(ring := s.ring.(fullWaiters := s.ring.fullWaiters + 1),
              producers := s.producers.Block(t, wait), mail := s.mail[t := x])
    case Fetch(t, wait, sig, target) =>
      if !s.ring.Empty() then Pop(s, sig, target)
      else if wait.NoWait? then s
      else s.(ring := s.ring.(emptyWaiters := s.ring.emptyWaiters + 1), consumers := s.consumers.Block(t, wait))
    case ResumePost(t, sig, target) =>
      var s1 := PostResumed(s, t);
      if t in s.producers.late || s1.ring.Full() then s1 else Push(s1, s.mail[t], sig, target)
    case ResumeFetch(t, sig, target) =>
      var s1 := FetchResumed(s, t);
      if t in s.consumers.late || s1.ring.Empty() then s1 else Pop(s1, sig, target)
    case Spurious(t) =>
      if t in s.producers.blocked then s.(producers := s.producers.Wake(t))
      else s.(consumers := s.consumers.Wake(t))
    case TimeOut(t) =>
      if t in s.producers.blocked then s.(producers := s.producers.GiveUp(t))
      else s.(consumers := s.consumers.GiveUp(t))
    case Swallow(t) =>
      if t in s.producers.woken then s.(producers := s.producers.Swallow(t))
      else s.(consumers := s.consumers.Swallow(t))
  }

  /** A counter going down. */
  function Less(n: nat): nat {
    if n == 0 then 0 else n - 1
  }

  /// ---- What every step keeps -----------------------------------------------------------------

  /** The counters count, and the ring holds what entered and has not left. */
  ghost predicate Inv(s: State) {
    && s.producers.Valid() && s.consumers.Valid()
    && s.ring.bounds > 0 && |s.ring.contents| <= s.ring.bounds
    && s.ring.fullWaiters == s.producers.Count() && s.ring.emptyWaiters == s.consumers.Count()
    && s.producers.All() <= s.mail.Keys
    && s.left + s.ring.contents == s.entered
    && (!s.signalFailed ==> s.posted == s.entered && s.fetched == s.left)
  }

  /** While a consumer sleeps, every queued message has a woken consumer coming for it,
      or is one of the `taken` ones that the thread running now is about to take. */
  ghost predicate ConsumersServed(s: State, taken: nat) {
    s.consumers.blocked != {} ==> |s.ring.contents| <= |s.consumers.woken| + taken
  }

  /** While a producer sleeps, every free place has a woken producer coming for it, or
      is one of those that the thread running now is about to fill. */
  ghost predicate ProducersServed(s: State, filled: nat) {
    s.producers.blocked != {} ==> s.ring.bounds - |s.ring.contents| <= |s.producers.woken| + filled
  }

  /** A step forgets nobody on either side. */
  ghost predicate KeepsServed(s: State, s': State, taken: nat, filled: nat) {
    && (ConsumersServed(s, taken) ==> ConsumersServed(s', 0))
    && (ProducersServed(s, filled) ==> ProducersServed(s', 0))
  }

  /** No lost wake-up. */
  ghost predicate NoneForgotten(s: State) { ConsumersServed(s, 0) && ProducersServed(s, 0) }

  lemma Moved(side: Side, t: Tid)
    requires side.Valid()
    ensures t in side.blocked ==>
              && side.Wake(t).Valid() && side.Wake(t).Count() == side.Count()
              && |side.Wake(t).woken| == |side.woken| + 1
              && side.GiveUp(t).Valid() && side.GiveUp(t).Count() == side.Count()
    ensures t in side.woken ==>
              && side.Swallow(t).Valid() && side.Swallow(t).Count() == side.Count()
              && |side.Swallow(t).woken| == |side.woken| - 1
    ensures t in side.woken + side.late ==> side.Leave(t).Valid() && side.Leave(t).Count() == side.Count() - 1
    ensures t in side.woken ==> |side.Leave(t).woken| == |side.woken| - 1
    ensures t in side.late ==> side.Leave(t).woken == side.woken
  {
    if t in side.woken {
      assert side.late - {t} == side.late;
    }
    if t in side.late {
      assert side.woken - {t} == side.woken;
    }
  }

  lemma SameThreads(side: Side, t: Tid)
    ensures t in side.blocked ==> side.Wake(t).All() == side.All() && side.GiveUp(t).All() == side.All()
    ensures t in side.woken ==> side.Swallow(t).All() == side.All()
    ensures side.Leave(t).All() <= side.All()
  {
  }

  lemma Blocked(side: Side, t: Tid, wait: Wait)
    requires side.Valid() && t !in side.All()
    ensures side.Block(t, wait).Valid() && side.Block(t, wait).Count() == side.Count() + 1
    ensures side.Block(t, wait).All() == side.All() + {t}
  {
    var more := side.blocked + {t};
    assert |more| == |side.blocked| + 1;
    assert more !! side.woken && more !! side.late;
    assert more + side.woken + side.late == side.All() + {t};
  }

  lemma Signalled(side: Side, target: Tid)
    requires side.Valid() && MayWake(side, target)
    ensures Signal(side, target).Valid() && Signal(side, target).Count() == side.Count()
    ensures Signal(side, target).All() == side.All()
    ensures side.blocked != {} ==> |Signal(side, target).woken| == |side.woken| + 1
    ensures side.blocked == {} ==> Signal(side, target) == side
  {
    hide Side.All, Side.Count, Side.Valid;
    Moved(side, target);
    SameThreads(side, target);
  }

  lemma PushKeeps(s: State, x: Msg, sig: bool, target: Tid)
    requires Inv(s) && !s.ring.Full() && MayWake(s.consumers, target)
    ensures Inv(Push(s, x, sig, target))
    ensures !Push(s, x, sig, target).signalFailed ==> KeepsServed(s, Push(s, x, sig, target), 0, 1)
    ensures s.signalFailed ==> Push(s, x, sig, target).signalFailed
  {
    hide Side.Valid, Side.All, Signal;
    Signalled(s.consumers, target);
    NoWaiters(s.consumers);
    var r := Push(s, x, sig, target);
    assert r.left + r.ring.contents == s.left + s.ring.contents + [x];
  }

  lemma NoWaiters(side: Side)
    ensures side.Count() == 0 ==> side.blocked == {}
  {
  }

  lemma PopKeeps(s: State, sig: bool, target: Tid)
    requires Inv(s) && !s.ring.Empty() && MayWake(s.producers, target)
    ensures Inv(Pop(s, sig, target))
    ensures !Pop(s, sig, target).signalFailed ==> KeepsServed(s, Pop(s, sig, target), 1, 0)
    ensures s.signalFailed ==> Pop(s, sig, target).signalFailed
  {
    hide Side.Valid, Side.All, Signal;
    Signalled(s.producers, target);
    NoWaiters(s.producers);
    var r := Pop(s, sig, target);
    assert s.ring.contents == [s.ring.contents[0]] + s.ring.contents[1..];
    assert r.left + r.ring.contents == s.left + s.ring.contents;
  }

  lemma PostKeeps(s: State, t: Tid, x: Msg, wait: Wait, sig: bool, target: Tid)
    requires Inv(s) && Enabled(s, Post(t, x, wait, sig, target))
    ensures
      var s' := Exec(s, Post(t, x, wait, sig, target));
      Inv(s') && (!s'.signalFailed ==> KeepsServed(s, s', 0, 0))
  {
    hide Side.Valid, Side.Count, Push;
    if !s.ring.Full() {
      PushKeeps(s, x, sig, target);
    } else {
      Blocked(s.producers, t, wait);
    }
  }

  lemma FetchKeeps(s: State, t: Tid, wait: Wait, sig: bool, target: Tid)
    requires Inv(s) && Enabled(s, Fetch(t, wait, sig, target))
    ensures
      var s' := Exec(s, Fetch(t, wait, sig, target));
      Inv(s') && (!s'.signalFailed ==> KeepsServed(s, s', 0, 0))
  {
    hide Side.Valid, Side.Count, Pop;
    if !s.ring.Empty() {
      PopKeeps(s, sig, target);
    } else {
      Blocked(s.consumers, t, wait);
    }
  }

  lemma PostResumedKeeps(s: State, t: Tid)
    requires Inv(s) && t in s.producers.woken + s.producers.late
    ensures
      var s1 := PostResumed(s, t);
      && Inv(s1) && (ConsumersServed(s, 0) ==> ConsumersServed(s1, 0))
      && (ProducersServed(s, 0) ==> ProducersServed(s1, if t in s.producers.late then 0 else 1))
  {
    hide Side.All, Side.Count, Side.Valid;
    Moved(s.producers, t);
    SameThreads(s.producers, t);
  }

  lemma FetchResumedKeeps(s: State, t: Tid)
    requires Inv(s) && t in s.consumers.woken + s.consumers.late
    ensures
      var s1 := FetchResumed(s, t);
      && Inv(s1) && (ProducersServed(s, 0) ==> ProducersServed(s1, 0))
      && (ConsumersServed(s, 0) ==> ConsumersServed(s1, if t in s.consumers.late then 0 else 1))
  {
    hide Side.All, Side.Count, Side.Valid;
    Moved(s.consumers, t);
    SameThreads(s.consumers, t);
  }

  lemma ResumePostKeeps(s: State, t: Tid, sig: bool, target: Tid)
    requires Inv(s) && Enabled(s, ResumePost(t, sig, target))
    ensures
      var s' := Exec(s, ResumePost(t, sig, target));
      Inv(s') && (!s'.signalFailed ==> KeepsServed(s, s', 0, 0))
  {
    hide Side.Count, Push, Side.Valid, Signal;
    var s1 := PostResumed(s, t);
    PostResumedKeeps(s, t);
    if t !in s.producers.late && !s1.ring.Full() {
      PushKeeps(s1, s.mail[t], sig, target);
    }
  }

  lemma ResumeFetchKeeps(s: State, t: Tid, sig: bool, target: Tid)
    requires Inv(s) && Enabled(s, ResumeFetch(t, sig, target))
    ensures
      var s' := Exec(s, ResumeFetch(t, sig, target));
      Inv(s') && (!s'.signalFailed ==> KeepsServed(s, s', 0, 0))
  {
    hide Side.Count, Pop, Side.Valid, Signal;
    var s1 := FetchResumed(s, t);
    FetchResumedKeeps(s, t);
    if t !in s.consumers.late && !s1.ring.Empty() {
      PopKeeps(s1, sig, target);
    }
  }

  /** A wait with a timeout on this side that takes a signal and reports the timeout. */
  predicate SwallowedByConsumer(s: State, e: Event) { e.Swallow? && e.t !in s.producers.woken }

  predicate SwallowedByProducer(s: State, e: Event) { e.Swallow? && e.t in s.producers.woken }

  /** Every step keeps the counters and the order of messages, and every step but a
      swallowed signal forgets no sleeper; a swallowed signal concerns its own side. */
  lemma StepKeeps(s: State, e: Event)
    requires Inv(s) && Enabled(s, e)
    ensures Inv(Exec(s, e))
    ensures !Exec(s, e).signalFailed && ConsumersServed(s, 0) && !SwallowedByConsumer(s, e) ==>
              ConsumersServed(Exec(s, e), 0)
    ensures !Exec(s, e).signalFailed && ProducersServed(s, 0) && !SwallowedByProducer(s, e) ==>
              ProducersServed(Exec(s, e), 0)
    ensures s.signalFailed ==> Exec(s, e).signalFailed
  {
    hide Enabled, Exec, Inv, ConsumersServed, ProducersServed;
    if s.signalFailed {
      FaultStays(s, e);
    }
    match e
    case Post(t, x, wait, sig, target) => PostKeeps(s, t, x, wait, sig, target);
    case Fetch(t, wait, sig, target) => FetchKeeps(s, t, wait, sig, target);
    case ResumePost(t, sig, target) => ResumePostKeeps(s, t, sig, target);
    case ResumeFetch(t, sig, target) => ResumeFetchKeeps(s, t, sig, target);
    case Spurious(t) => MoveKeeps(s, e, t);
    case TimeOut(t) => MoveKeeps(s, e, t);
    case Swallow(t) => MoveKeeps(s, e, t);
  }

  lemma FaultStays(s: State, e: Event)
    requires Enabled(s, e) && s.signalFailed
    ensures Exec(s, e).signalFailed
  {
  }

  lemma MoveKeeps(s: State, e: Event, t: Tid)
    requires Inv(s) && Enabled(s, e) && (e == Spurious(t) || e == TimeOut(t) || e == Swallow(t))
    ensures Inv(Exec(s, e))
    ensures ConsumersServed(s, 0) && !SwallowedByConsumer(s, e) ==> ConsumersServed(Exec(s, e), 0)
    ensures ProducersServed(s, 0) && !SwallowedByProducer(s, e) ==> ProducersServed(Exec(s, e), 0)
  {
    hide Side.Valid, Side.Count, Side.All;
    var s' := Exec(s, e);
    if s'.consumers == s.consumers {
      SideMoves(s.producers, s'.producers, t);
    } else {
      SideMoves(s.consumers, s'.consumers, t);
    }
  }

  /** A thread that changes its mind without running stays counted. */
  lemma SideMoves(side: Side, side': Side, t: Tid)
    requires side.Valid()
    requires (t in side.blocked && side' == side.Wake(t)) || (t in side.blocked && side' == side.GiveUp(t))
             || (t in side.woken && side' == side.Swallow(t))
    ensures side'.Valid() && side'.Count() == side.Count() && side'.All() == side.All()
    ensures t in side.blocked ==> side'.blocked <= side.blocked && |side'.woken| >= |side.woken|
  {
    hide Side.All, Side.Count, Side.Valid;
    Moved(side, t);
    SameThreads(side, t);
  }

  /** Exactly when a swallowed signal leaves a sleeper behind: when someone sleeps on
      that side and every woken thread was needed. */
  lemma SwallowForgets(s: State, t: Tid)
    requires Inv(s) && Enabled(s, Swallow(t))
    ensures t !in s.producers.woken ==>
              (ConsumersServed(Exec(s, Swallow(t)), 0) <==>
                (s.consumers.blocked != {} ==> |s.ring.contents| < |s.consumers.woken|))
    ensures t in s.producers.woken ==>
              (ProducersServed(Exec(s, Swallow(t)), 0) <==>
                (s.producers.blocked != {} ==> s.ring.bounds - |s.ring.contents| < |s.producers.woken|))
  {
    hide Side.Valid, Side.Count;
    if t in s.producers.woken {
      Moved(s.producers, t);
    } else {
      Moved(s.consumers, t);
    }
  }

  /// ---- Whole runs -----------------------------------------------------------------------------

  function Start(bounds: nat): State {
    State(Ring([], bounds, 0, 0), Side({}, {}, {}, {}), Side({}, {}, {}, {}), map[], [], [], [], [], false)
  }

  ghost predicate Possible(s: State, es: seq<Event>)
    decreases |es|
  {
    es == [] || (Enabled(s, es[0]) && Possible(Exec(s, es[0]), es[1..]))
  }

  ghost function Run(s: State, es: seq<Event>): State
    requires Possible(s, es)
    decreases |es|
  {
    if es == [] then s else Run(Exec(s, es[0]), es[1..])
  }

  lemma {:induction false} RunKeeps(s: State, es: seq<Event>)
    requires Inv(s) && Possible(s, es)
    ensures Inv(Run(s, es))
    ensures s.signalFailed ==> Run(s, es).signalFailed
    decreases |es|
  {
    if es != [] {
      StepKeeps(s, es[0]);
      RunKeeps(Exec(s, es[0]), es[1..]);
    }
  }

  /** No fetch, or no post, of the run waits with a timeout. */
  predicate NoTimedFetch(es: seq<Event>) {
    forall e :: e in es && e.Fetch? ==> !e.wait.Timed?
  }

  predicate NoTimedPost(es: seq<Event>) {
    forall e :: e in es && e.Post? ==> !e.wait.Timed?
  }

  lemma TimedStep(s: State, e: Event)
    requires Enabled(s, e)
    ensures s.consumers.timed == {} && !(e.Fetch? && e.wait.Timed?) ==>
              Exec(s, e).consumers.timed == {} && !SwallowedByConsumer(s, e)
    ensures s.producers.timed == {} && !(e.Post? && e.wait.Timed?) ==>
              Exec(s, e).producers.timed == {} && !SwallowedByProducer(s, e)
  {
  }

  lemma {:induction false} ConsumersRun(s: State, es: seq<Event>)
    requires Inv(s) && Possible(s, es) && ConsumersServed(s, 0) && !Run(s, es).signalFailed
    requires s.consumers.timed == {} && NoTimedFetch(es)
    ensures ConsumersServed(Run(s, es), 0)
    decreases |es|
  {
    hide ConsumersServed, Enabled, Exec, Inv;
    if es != [] {
      StepKeeps(s, es[0]);
      TimedStep(s, es[0]);
      RunKeeps(Exec(s, es[0]), es[1..]);
      ConsumersRun(Exec(s, es[0]), es[1..]);
    }
  }

  lemma {:induction false} ProducersRun(s: State, es: seq<Event>)
    requires Inv(s) && Possible(s, es) && ProducersServed(s, 0) && !Run(s, es).signalFailed
    requires s.producers.timed == {} && NoTimedPost(es)
    ensures ProducersServed(Run(s, es), 0)
    decreases |es|
  {
    hide ProducersServed, Enabled, Exec, Inv;
    if es != [] {
      StepKeeps(s, es[0]);
      TimedStep(s, es[0]);
      RunKeeps(Exec(s, es[0]), es[1..]);
      ProducersRun(Exec(s, es[0]), es[1..]);
    }
  }

  /** With timeouts nobody is forgotten either as long as none swallows a signal. */
  lemma {:induction false} SwallowFreeRun(s: State, es: seq<Event>)
    requires Inv(s) && Possible(s, es) && NoneForgotten(s) && !Run(s, es).signalFailed
    requires forall e :: e in es ==> !e.Swallow?
    ensures NoneForgotten(Run(s, es))
    decreases |es|
  {
    hide ConsumersServed, ProducersServed, Enabled, Exec, Inv;
    if es != [] {
      StepKeeps(s, es[0]);
      RunKeeps(Exec(s, es[0]), es[1..]);
      SwallowFreeRun(Exec(s, es[0]), es[1..]);
    }
  }

  /** Whatever the threads do: what was fetched and what is queued is what was posted,
      in order. If no fetch waits with a timeout, no consumer sleeps while there is a
      message that no one woken is coming for; if no post does, no producer sleeps
      beside a free place. With timeouts that still holds if none swallows a signal.
      All but the first presume that signals work. */
  lemma QueueRuns(bounds: nat, es: seq<Event>)
    requires bounds > 0 && Possible(Start(bounds), es)
    ensures
      var s := Run(Start(bounds), es);
      && s.left + s.ring.contents == s.entered && |s.ring.contents| <= bounds
      && (!s.signalFailed ==> s.fetched + s.ring.contents == s.posted)
      && (!s.signalFailed && NoTimedFetch(es) ==> ConsumersServed(s, 0))
      && (!s.signalFailed && NoTimedPost(es) ==> ProducersServed(s, 0))
      && (!s.signalFailed && (forall e :: e in es ==> !e.Swallow?) ==> NoneForgotten(s))
  {
    RunKeeps(Start(bounds), es);
    StartBounds(Start(bounds), es);
    if !Run(Start(bounds), es).signalFailed {
      if NoTimedFetch(es) {
        ConsumersRun(Start(bounds), es);
      }
      if NoTimedPost(es) {
        ProducersRun(Start(bounds), es);
      }
      if forall e :: e in es ==> !e.Swallow? {
        SwallowFreeRun(Start(bounds), es);
      }
    }
  }

  lemma {:induction false} StartBounds(s: State, es: seq<Event>)
    requires Possible(s, es)
    ensures Run(s, es).ring.bounds == s.ring.bounds
    decreases |es|
  {
    if es != [] {
      StartBounds(Exec(s, es[0]), es[1..]);
    }
  }

  /** A run in which a swallowed signal leaves a consumer asleep beside a message: one
      consumer waits with a timeout, one without, a message arrives and its signal is
      lost on the first. */
  lemma MessageLeftLying()
    ensures
      var es := [Fetch(1, Timed, true, 0), Fetch(2, Forever, true, 0), Post(3, 7, NoWait, true, 1), Swallow(1),
                 ResumeFetch(1, true, 0)];
      Possible(Start(4), es) && !Run(Start(4), es).signalFailed
      && Run(Start(4), es).ring.contents == [7] && Run(Start(4), es).consumers == Side({2}, {}, {}, {1})
  {
    var s0 := Start(4);
    var s1 := Exec(s0, Fetch(1, Timed, true, 0));
    assert s1.consumers == Side({1}, {}, {}, {1});
    assert s1.ring == Ring([], 4, 0, 1) && s1.producers == Side({}, {}, {}, {});
    var s2 := Exec(s1, Fetch(2, Forever, true, 0));
    assert s2.consumers == Side({1, 2}, {}, {}, {1});
    assert s2.ring == Ring([], 4, 0, 2) && s2.producers == Side({}, {}, {}, {});
    var s3 := Exec(s2, Post(3, 7, NoWait, true, 1));
    assert s3.consumers == Side({2}, {1}, {}, {1});
    assert s3.ring == Ring([7], 4, 0, 2) && s3.producers == Side({}, {}, {}, {});
    var s4 := Exec(s3, Swallow(1));
    assert s4.consumers == Side({2}, {}, {1}, {1});
    assert s4.ring == Ring([7], 4, 0, 2) && s4.producers == Side({}, {}, {}, {});
    var s5 := Exec(s4, ResumeFetch(1, true, 0));
    assert s5.consumers == Side({2}, {}, {}, {1}) && s5.ring == Ring([7], 4, 0, 1);
    RunFive(s0, Fetch(1, Timed, true, 0), Fetch(2, Forever, true, 0), Post(3, 7, NoWait, true, 1), Swallow(1),
            ResumeFetch(1, true, 0));
  }

  lemma RunFive(s: State, a: Event, b: Event, c: Event, d: Event, e: Event)
    requires Enabled(s, a) && Enabled(Exec(s, a), b) && Enabled(Exec(Exec(s, a), b), c)
    requires Enabled(Exec(Exec(Exec(s, a), b), c), d) && Enabled(Exec(Exec(Exec(Exec(s, a), b), c), d), e)
    ensures Possible(s, [a, b, c, d, e])
    ensures Run(s, [a, b, c, d, e]) == Exec(Exec(Exec(Exec(Exec(s, a), b), c), d), e)
  {
    hide Enabled, Exec;
    assert [a, b, c, d, e][1..] == [b, c, d, e] && [b, c, d, e][1..] == [c, d, e];
    assert [c, d, e][1..] == [d, e] && [d, e][1..] == [e] && [e][1..] == [];
    var s4 := Exec(Exec(Exec(Exec(s, a), b), c), d);
    var s1, s2, s3 := Exec(s, a), Exec(Exec(s, a), b), Exec(Exec(Exec(s, a), b), c);
    assert Possible(s4, [e]) && Run(s4, [e]) == Exec(s4, e);
    assert Possible(s3, [d, e]) && Run(s3, [d, e]) == Run(s4, [e]);
    assert Possible(s2, [c, d, e]) && Run(s2, [c, d, e]) == Run(s3, [d, e]);
    assert Possible(s1, [b, c, d, e]) && Run(s1, [b, c, d, e]) == Run(s2, [c, d, e]);
  }

  /// ---- The monitor's critical sections ------------------------------------------------------

  /** What a section reports: whether the caller got what it wanted, and whether a
      signal was due. */
  datatype Report = Report(ok: bool, signal: bool)

  /** What a push without a wait does to a ring, and what it reports. */
  predicate TryPushed(q: Ring, x: Msg, sig: bool, r: Report, q': Ring) {
    if q.Full() then r == Report(false, false) && q' == q
    else q' == q.Put(x) && r.signal == (q.emptyWaiters != 0) && r.ok == (r.signal ==> sig)
  }

  predicate TryPopped(q: Ring, sig: bool, r: Report, x: Msg, q': Ring) {
    if q.Empty() then r == Report(false, false) && q' == q
    else
      && x == q.contents[0] && q' == q.Rest()
      && r.signal == (q.fullWaiters != 0) && r.ok == (r.signal ==> sig)
  }

  /** A push up to its wait: it is counted as waiting, or done. */
  predicate PushEntered(q: Ring, x: Msg, wait: bool, sig: bool, waits: bool, r: Report, q': Ring) {
    && (waits <==> wait && q.Full())
    && if waits then r == Report(false, false) && q' == q.(fullWaiters := q.fullWaiters + 1)
       else TryPushed(q, x, sig, r, q')
  }

  predicate PopEntered(q: Ring, wait: bool, sig: bool, waits: bool, r: Report, x: Msg, q': Ring) {
    && (waits <==> wait && q.Empty())
    && if waits then r == Report(false, false) && q' == q.(emptyWaiters := q.emptyWaiters + 1)
       else TryPopped(q, sig, r, x, q')
  }

  /** The rest of it after the wait; `woken` is false after a timeout. */
  predicate PushLeft(q: Ring, x: Msg, woken: bool, sig: bool, r: Report, q': Ring) {
    var q1 := q.(fullWaiters := Less(q.fullWaiters));
    if !woken then r == Report(false, false) && q' == q1 else TryPushed(q1, x, sig, r, q')
  }

  predicate PopLeft(q: Ring, woken: bool, sig: bool, r: Report, x: Msg, q': Ring) {
    var q1 := q.(emptyWaiters := Less(q.emptyWaiters));
    if !woken then r == Report(false, false) && q' == q1 else TryPopped(q1, sig, r, x, q')
  }

  /** The state records what the caller of a push was told, and whom its signal woke. */
  predicate PushTold(s: State, s': State, x: Msg, sig: bool, target: Tid, r: Report) {
    && s'.posted == (if r.ok then s.posted + [x] else s.posted)
    && s'.consumers == (if r.signal && sig then Signal(s.consumers, target) else s.consumers)
    && s'.signalFailed == (s.signalFailed || (r.signal && !sig))
    && s'.fetched == s.fetched && s'.left == s.left
  }

  predicate PopTold(s: State, s': State, x: Msg, sig: bool, target: Tid, r: Report) {
    && s'.fetched == (if r.ok then s.fetched + [x] else s.fetched)
    && s'.producers == (if r.signal && sig then Signal(s.producers, target) else s.producers)
    && s'.signalFailed == (s.signalFailed || (r.signal && !sig))
    && s'.posted == s.posted && s'.entered == s.entered
  }

  /** The state machine does what the critical sections do: whatever `EnterPush` leaves
      and reports is what the event of a post leaves and records. */
  lemma PostIsEnterPush(s: State, t: Tid, x: Msg, wait: Wait, sig: bool, target: Tid, waits: bool, r: Report, q': Ring)
    requires Enabled(s, Post(t, x, wait, sig, target))
    requires PushEntered(s.ring, x, !wait.NoWait?, sig, waits, r, q')
    ensures
      var s' := Exec(s, Post(t, x, wait, sig, target));
      && s'.ring == q' && PushTold(s, s', x, sig, target, r)
      && s'.producers == (if waits then s.producers.Block(t, wait) else s.producers)
  {
  }

  lemma ResumePostIsLeavePush(s: State, t: Tid, sig: bool, target: Tid, r: Report, q': Ring)
    requires Enabled(s, ResumePost(t, sig, target))
    requires PushLeft(s.ring, s.mail[t], t !in s.producers.late, sig, r, q')
    ensures
      var s' := Exec(s, ResumePost(t, sig, target));
      s'.ring == q' && PushTold(s, s', s.mail[t], sig, target, r) && s'.producers == s.producers.Leave(t)
  {
  }

  lemma FetchIsEnterPop(s: State, t: Tid, wait: Wait, sig: bool, target: Tid, waits: bool, r: Report, x: Msg, q': Ring)
    requires Enabled(s, Fetch(t, wait, sig, target))
    requires PopEntered(s.ring, !wait.NoWait?, sig, waits, r, x, q')
    ensures
      var s' := Exec(s, Fetch(t, wait, sig, target));
      && s'.ring == q' && PopTold(s, s', x, sig, target, r)
      && s'.consumers == (if waits then s.consumers.Block(t, wait) else s.consumers)
  {
  }

  lemma ResumeFetchIsLeavePop(s: State, t: Tid, sig: bool, target: Tid, r: Report, x: Msg, q': Ring)
    requires Enabled(s, ResumeFetch(t, sig, target))
    requires PopLeft(s.ring, t !in s.consumers.late, sig, r, x, q')
    ensures
      var s' := Exec(s, ResumeFetch(t, sig, target));
      s'.ring == q' && PopTold(s, s', x, sig, target, r) && s'.consumers == s.consumers.Leave(t)
  {
  }

  /** The `n` elements from `out` on, around the end of the array. */
  function Around(a: seq<Msg>, out: nat, n: nat): (s: seq<Msg>)
    requires out < |a| && n <= |a|
    ensures |s| == n
  {
    if out + n <= |a| then a[out..out + n] else a[out..] + a[..out + n - |a|]
  }

  lemma AroundMore(a: seq<Msg>, out: nat, n: nat, at: nat, x: Msg)
    requires out < |a| && n < |a| && at == if out + n < |a| then out + n else out + n - |a|
    ensures at < |a| && Around(a[at := x], out, n + 1) == Around(a, out, n) + [x]
  {
    var a' := a[at := x];
    if out + n < |a| {
      assert a'[out..out + n + 1] == a[out..out + n] + [x];
    } else {
      assert a'[..at + 1] == a[..at] + [x] && a'[out..] == a[out..];
    }
  }

  lemma AroundLess(a: seq<Msg>, out: nat, n: nat)
    requires out < |a| && 0 < n <= |a|
    ensures Around(a, out, n) == [a[out]] + Around(a, if out + 1 < |a| then out + 1 else 0, n - 1)
  {
    assert a[out..] == [a[out]] + a[out + 1..];
    if out + n <= |a| {
      assert a[out..out + n] == [a[out]] + a[out + 1..out + n];
    }
  }

  class RpaQueue {
    const bounds: nat
    const data: array<Msg>
    var nelts: nat
    var inIdx: nat
    var outIdx: nat
    var fullWaiters: nat
    var emptyWaiters: nat

    ghost predicate Valid()
      reads this
    {
      && bounds > 0 && data.Length == bounds && outIdx < bounds && nelts <= bounds
      && inIdx == if outIdx + nelts < bounds then outIdx + nelts else outIdx + nelts - bounds
    }

    /** The messages from the oldest to the newest. */
    ghost function Contents(): (s: seq<Msg>)
      requires Valid()
      reads this, data
      ensures |s| == nelts
    {
      Around(data[..], outIdx, nelts)
    }

    ghost function Value(): Ring
      requires Valid()
      reads this, data
    {
      Ring(Contents(), bounds, fullWaiters, emptyWaiters)
    }

    constructor (bounds: nat)
      requires bounds > 0
      ensures Valid() && Value() == Start(bounds).ring
    {
      this.bounds, data := bounds, new Msg[bounds];
      nelts, inIdx, outIdx, fullWaiters, emptyWaiters := 0, 0, 0, 0, 0;
    }

    method Insert(x: Msg)
      requires Valid() && nelts < bounds
      modifies this`nelts, this`inIdx, data
      ensures Valid() && Value() == old(Value()).Put(x)
    {
      AroundMore(data[..], outIdx, nelts, inIdx, x);
      data[inIdx] := x;
      inIdx := inIdx + 1;
      if inIdx >= bounds {
        inIdx := inIdx - bounds;
      }
      nelts := nelts + 1;
    }

    method Remove() returns (x: Msg)
      requires Valid() && nelts > 0
      modifies this`nelts, this`outIdx
      ensures Valid() && x == old(Contents())[0] && Value() == old(Value()).Rest()
    {
      AroundLess(data[..], outIdx, nelts);
      x := data[outIdx];
      nelts := nelts - 1;
      outIdx := outIdx + 1;
      if outIdx >= bounds {
        outIdx := outIdx - bounds;
      }
    }

    /** rpa_queue_trypush, and the last part of every push. */
    method TryPush(x: Msg, sig: bool) returns (r: Report)
      requires Valid()
      modifies this`nelts, this`inIdx, data
      ensures Valid() && TryPushed(old(Value()), x, sig, r, Value())
    {
      if nelts == bounds {
        return Report(false, false);
      }
      Insert(x);
      if emptyWaiters != 0 {
        return Report(sig, true);
      }
      r := Report(true, false);
    }

    /** rpa_queue_trypop, and the last part of every pop. */
    method TryPop(sig: bool) returns (r: Report, x: Msg)
      requires Valid()
      modifies this`nelts, this`outIdx
      ensures Valid() && TryPopped(old(Value()), sig, r, x, Value())
    {
      if nelts == 0 {
        return Report(false, false), 0;
      }
      x := Remove();
      if fullWaiters != 0 {
        return Report(sig, true), x;
      }
      r := Report(true, false);
    }

    /** rpa_queue_timedpush up to its wait: nothing to wait for, or counted as waiting. */
    method EnterPush(x: Msg, wait: bool, sig: bool) returns (waits: bool, r: Report)
      requires Valid()
      modifies this`nelts, this`inIdx, this`fullWaiters, data
      ensures Valid() && PushEntered(old(Value()), x, wait, sig, waits, r, Value())
    {
      if wait && nelts == bounds {
        fullWaiters := fullWaiters + 1;
        return true, Report(false, false);
      }
      r := TryPush(x, sig);
      waits := false;
    }

    /** Its rest, when the wait is over: `woken` is false after a timeout. */
    method LeavePush(x: Msg, woken: bool, sig: bool) returns (r: Report)
      requires Valid() && fullWaiters > 0
      modifies this`nelts, this`inIdx, this`fullWaiters, data
      ensures Valid() && PushLeft(old(Value()), x, woken, sig, r, Value())
    {
      fullWaiters := fullWaiters - 1;
      if !woken {
        return Report(false, false);
      }
      r := TryPush(x, sig);
    }

    /** rpa_queue_timedpop up to its wait. */
    method EnterPop(wait: bool, sig: bool) returns (waits: bool, r: Report, x: Msg)
      requires Valid()
      modifies this`nelts, this`outIdx, this`emptyWaiters
      ensures Valid() && PopEntered(old(Value()), wait, sig, waits, r, x, Value())
    {
      if wait && nelts == 0 {
        emptyWaiters := emptyWaiters + 1;
        return true, Report(false, false), 0;
      }
      r, x := TryPop(sig);
      waits := false;
    }

    /** Its rest, when the wait is over. */
    method LeavePop(woken: bool, sig: bool) returns (r: Report, x: Msg)
      requires Valid() && emptyWaiters > 0
      modifies this`nelts, this`outIdx, this`emptyWaiters
      ensures Valid() && PopLeft(old(Value()), woken, sig, r, x, Value())
    {
      emptyWaiters := emptyWaiters - 1;
      if !woken {
        return Report(false, false), 0;
      }
      r, x := TryPop(sig);
    }
  }
}
