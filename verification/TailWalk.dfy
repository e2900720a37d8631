/** Walking the list of metadata pairs from tail to tail, with Brent's cycle
    detection: on every finite map of tails the walk ends, reports corruption
    exactly when the list loops, and otherwise meets every pair once. */
module TailWalk {
  import opened Options

  const NULL := 0xffff_ffff

  datatype Pair = Pair(a: nat, b: nat)

  predicate IsNull(p: Pair) {
    p.a == NULL || p.b == NULL
  }

  /** The same pair, in either order. */
  predicate IsSync(p: Pair, q: Pair) {
    (p.a == q.a && p.b == q.b) || (p.a == q.b && p.b == q.a)
  }

  /** What fetching finds: each pair's tail, whichever way round the pair is given. */
  ghost predicate Tails(m: map<Pair, Pair>) {
    forall p :: p in m ==> Pair(p.b, p.a) in m && m[Pair(p.b, p.a)] == m[p]
  }

  /** The pair after `k` hops, unless the list ended before. */
  function At(m: map<Pair, Pair>, start: Pair, k: nat): Option<Pair> {
    if k == 0 then if IsNull(start) then None else Some(start)
    else Hop(m, At(m, start, k - 1))
  }

  function Hop(m: map<Pair, Pair>, p: Option<Pair>): Option<Pair> {
    if p.None? || p.value !in m || IsNull(m[p.value]) then None else Some(m[p.value])
  }

  ghost predicate Loops(m: map<Pair, Pair>, start: Pair) {
    forall k :: At(m, start, k).Some?
  }

  /// ---- Lists that end, lists that loop ---------------------------------------------------

  lemma {:induction false} EndStays(m: map<Pair, Pair>, start: Pair, j: nat, k: nat)
    requires j <= k && At(m, start, j) == None
    ensures At(m, start, k) == None
    decreases k - j
  {
    if j < k {
      EndStays(m, start, j, k - 1);
    }
  }

  lemma HopSync(m: map<Pair, Pair>, p: Pair, q: Pair)
    requires Tails(m) && IsSync(p, q)
    ensures Hop(m, Some(p)) == Hop(m, Some(q))
  {
    assert q == p || q == Pair(p.b, p.a);
    assert p == q || p == Pair(q.b, q.a);
  }

  /** From a pair met twice on, the list repeats. */
  lemma {:induction false} Repeats(m: map<Pair, Pair>, start: Pair, i: nat, j: nat, k: nat)
    requires Tails(m) && i < j && k > 0
    requires At(m, start, i).Some? && At(m, start, j).Some? && IsSync(At(m, start, i).value, At(m, start, j).value)
    ensures At(m, start, i + k) == At(m, start, j + k)
    decreases k
  {
    if k == 1 {
      HopSync(m, At(m, start, i).value, At(m, start, j).value);
    } else {
      Repeats(m, start, i, j, k - 1);
    }
  }

  /** A list that meets a pair twice never ends. */
  lemma {:induction false} RepeatLoops(m: map<Pair, Pair>, start: Pair, i: nat, j: nat, k: nat)
    requires Tails(m) && i < j
    requires At(m, start, i).Some? && At(m, start, j).Some? && IsSync(At(m, start, i).value, At(m, start, j).value)
    ensures At(m, start, k).Some?
    decreases k
  {
    if k <= j {
      if At(m, start, k) == None {
        EndStays(m, start, k, j);
      }
    } else {
      RepeatLoops(m, start, i, j, i + (k - j));
      Repeats(m, start, i, j, k - j);
    }
  }

  /** The first `n` pairs of the list. */
  function First(m: map<Pair, Pair>, start: Pair, n: nat): seq<Pair>
    requires n > 0 ==> At(m, start, n - 1).Some?
  {
    if n == 0 then []
    else
      EndBefore(m, start, n - 1);
      First(m, start, n - 1) + [At(m, start, n - 1).value]
  }

  lemma EndBefore(m: map<Pair, Pair>, start: Pair, n: nat)
    requires At(m, start, n).Some?
    ensures forall k :: 0 <= k <= n ==> At(m, start, k).Some?
  {
    forall k | 0 <= k <= n
      ensures At(m, start, k).Some?
    {
      if At(m, start, k) == None {
        EndStays(m, start, k, n);
      }
    }
  }

  lemma {:induction false} FirstAt(m: map<Pair, Pair>, start: Pair, n: nat)
    requires n > 0 ==> At(m, start, n - 1).Some?
    ensures |First(m, start, n)| == n
    ensures forall k :: 0 <= k < n ==> At(m, start, k) == Some(First(m, start, n)[k])
    decreases n
  {
    if n > 0 {
      EndBefore(m, start, n - 1);
      FirstAt(m, start, n - 1);
    }
  }

  /** More entries than values: two are the same. */
  lemma {:induction false} Pigeonhole(s: seq<Pair>, keys: set<Pair>)
    requires |s| > |keys| && forall p :: p in s ==> p in keys
    ensures exists i, j :: 0 <= i < j < |s| && s[i] == s[j]
    decreases |s|
  {
    var n := |s| - 1;
    var front := s[..n];
    if i :| 0 <= i < n && s[i] == s[n] {
    } else {
      assert forall p :: p in front ==> p in keys - {s[n]};
      Pigeonhole(front, keys - {s[n]});
      var i, j :| 0 <= i < j < |front| && front[i] == front[j];
      assert s[i] == s[j];
    }
  }

  /** A list with more hops than the map has pairs repeats itself within that many. */
  lemma LoopFound(m: map<Pair, Pair>, start: Pair) returns (mu: nat, lambda: nat)
    requires At(m, start, |m| + 1).Some?
    ensures lambda > 0 && mu + lambda <= |m|
    ensures At(m, start, mu) == At(m, start, mu + lambda) && At(m, start, mu).Some?
  {
    var n := |m| + 1;
    EndBefore(m, start, n);
    FirstAt(m, start, n);
    var s := First(m, start, n);
    forall p | p in s
      ensures p in m.Keys
    {
      var k :| 0 <= k < n && s[k] == p;
      assert At(m, start, k + 1).Some?;
    }
    assert |m.Keys| == |m|;
    Pigeonhole(s, m.Keys);
    var i, j :| 0 <= i < j < |s| && s[i] == s[j];
    mu, lambda := i, j - i;
  }

  /// ---- Brent's algorithm --------------------------------------------------------------------

  /** The pairs between the tortoise and the walk were all compared with it. */
  ghost predicate Unseen(m: map<Pair, Pair>, start: Pair, tau: nat, n: nat) {
    At(m, start, tau).Some? &&
    forall j :: tau < j < n && At(m, start, j).Some? ==> !IsSync(At(m, start, j).value, At(m, start, tau).value)
  }

  /** A tortoise inside the loop is met again after one round. */
  lemma MetAgain(m: map<Pair, Pair>, start: Pair, mu: nat, lambda: nat, tau: nat, n: nat)
    requires Tails(m) && lambda > 0 && At(m, start, mu) == At(m, start, mu + lambda) && At(m, start, mu).Some?
    requires mu <= tau && Unseen(m, start, tau, n)
    ensures n <= tau + lambda
  {
    if mu < tau {
      Repeats(m, start, mu, mu + lambda, tau - mu);
    }
    assert At(m, start, tau + lambda) == At(m, start, tau);
  }

  datatype Result = Done | Cycle | FetchFailed

  ghost predicate Distinct(s: seq<Pair>) {
    forall i, j :: 0 <= i < j < |s| ==> !IsSync(s[i], s[j])
  }

  /** What a walk over the tail list has done when it comes back. */
  ghost predicate Walked(m: map<Pair, Pair>, start: Pair, r: Result, visited: seq<Pair>) {
    && (r == Cycle <==> Loops(m, start))
    && (r != Cycle ==> At(m, start, |visited|) == None && Distinct(visited))
    && (forall k :: 0 <= k < |visited| ==> At(m, start, k) == Some(visited[k]))
    && (r == FetchFailed <==> r != Cycle && visited != [] && visited[|visited| - 1] !in m)
  }

  /** A list that has ended met every pair once. */
  lemma EndedDistinct(m: map<Pair, Pair>, start: Pair, n: nat)
    requires Tails(m) && (n > 0 ==> At(m, start, n - 1).Some?) && At(m, start, n) == None
    ensures Distinct(First(m, start, n)) && !Loops(m, start)
  {
    var s := First(m, start, n);
    FirstAt(m, start, n);
    forall i, j | 0 <= i < j < |s|
      ensures !IsSync(s[i], s[j])
    {
      assert At(m, start, i).Some? && At(m, start, j).Some?;
      if IsSync(s[i], s[j]) {
        RepeatLoops(m, start, i, j, n);
      }
    }
  }

  lemma CycleLoops(m: map<Pair, Pair>, start: Pair, tau: nat, n: nat)
    requires Tails(m) && tau < n && At(m, start, tau).Some? && At(m, start, n).Some?
    requires IsSync(At(m, start, n).value, At(m, start, tau).value)
    ensures Loops(m, start)
  {
    forall k
      ensures At(m, start, k).Some?
    {
      RepeatLoops(m, start, tau, n, k);
    }
  }

  lemma StartAt(m: map<Pair, Pair>, start: Pair)
    ensures At(m, start, 0) == if IsNull(start) then None else Some(start)
    ensures First(m, start, 0) == []
  {
  }

  lemma FirstSnoc(m: map<Pair, Pair>, start: Pair, n: nat)
    requires At(m, start, n).Some?
    ensures n > 0 ==> At(m, start, n - 1).Some?
    ensures First(m, start, n + 1) == First(m, start, n) + [At(m, start, n).value]
  {
    EndBefore(m, start, n);
  }

  lemma HopAt(m: map<Pair, Pair>, start: Pair, n: nat)
    requires At(m, start, n).Some?
    ensures At(m, start, n + 1) == Hop(m, At(m, start, n))
  {
  }

  /** How far the walk can have come: to the end, or less than three times around. */
  lemma WalkBound(m: map<Pair, Pair>, start: Pair, mu: nat, lambda: nat, tau: nat, n: nat)
    requires Tails(m) && n > 0 && At(m, start, n - 1).Some? && tau < n <= 2 * tau + 2 && Unseen(m, start, tau, n)
    requires At(m, start, |m| + 1).Some? ==>
               && lambda > 0 && mu + lambda <= |m| && tau <= 2 * |m|
               && At(m, start, mu) == At(m, start, mu + lambda) && At(m, start, mu).Some?
    ensures n <= 3 * |m| + 1 && (At(m, start, n).Some? ==> n <= 3 * |m|)
  {
    if At(m, start, |m| + 1).Some? {
      if mu <= tau && lambda <= tau + 2 {
        MetAgain(m, start, mu, lambda, tau, n);
      }
    } else {
      if n > |m| + 1 {
        EndStays(m, start, |m| + 1, n - 1);
      }
    }
  }

  /** The tortoise moves on only while it is not yet inside the loop, or its period is
      shorter than the loop. */
  lemma NotCaught(m: map<Pair, Pair>, start: Pair, mu: nat, lambda: nat, tau: nat, n: nat)
    requires Tails(m) && lambda > 0 && mu + lambda <= |m|
    requires At(m, start, mu) == At(m, start, mu + lambda) && At(m, start, mu).Some?
    requires n == 2 * tau + 2 && Unseen(m, start, tau, n + 1)
    ensures n <= 2 * |m|
  {
    if mu <= tau && lambda <= tau + 2 {
      MetAgain(m, start, mu, lambda, tau, n + 1);
    }
  }

  lemma UnseenSnoc(m: map<Pair, Pair>, start: Pair, tau: nat, n: nat)
    requires Unseen(m, start, tau, n) && tau < n && At(m, start, n).Some?
    requires !IsSync(At(m, start, n).value, At(m, start, tau).value)
    ensures Unseen(m, start, tau, n + 1)
  {
  }

  lemma CycleWalked(m: map<Pair, Pair>, start: Pair, tau: nat, n: nat)
    requires Tails(m) && tau < n && At(m, start, tau).Some? && At(m, start, n).Some?
    requires IsSync(At(m, start, n).value, At(m, start, tau).value) && (n > 0 ==> At(m, start, n - 1).Some?)
    ensures Walked(m, start, Cycle, First(m, start, n))
  {
    CycleLoops(m, start, tau, n);
    FirstAt(m, start, n);
  }

  lemma EndWalked(m: map<Pair, Pair>, start: Pair, n: nat)
    requires Tails(m) && (n > 0 ==> At(m, start, n - 1).Some?) && At(m, start, n) == None
    ensures
      var failed := n > 0 && At(m, start, n - 1).value !in m;
      Walked(m, start, if failed then FetchFailed else Done, First(m, start, n))
  {
    EndedDistinct(m, start, n);
    FirstAt(m, start, n);
  }

  /** The walk of mount, traversal and predecessor search, over the tails as fetching
      finds them. */
  method Walk(m: map<Pair, Pair>, start: Pair) returns (r: Result, visited: seq<Pair>)
    requires Tails(m)
    ensures Walked(m, start, r, visited)
    ensures |visited| <= 3 * |m| + 1
  {
    hide At, First, Tails, Unseen, Walked;
    var tail, tortoise := start, Pair(NULL, NULL);
    var i, period := 1, 1;
    visited := [];
    ghost var tau := 0;
    ghost var looping := At(m, start, |m| + 1).Some?;
    ghost var mu, lambda := 0, 1;
    if looping {
      mu, lambda := LoopFound(m, start);
    }
    StartAt(m, start);
    while !IsNull(tail)
      invariant At(m, start, |visited|) == if IsNull(tail) then None else Some(tail)
      invariant |visited| > 0 ==> At(m, start, |visited| - 1).Some? && At(m, start, |visited| - 1).value in m
      invariant visited == First(m, start, |visited|) && |visited| <= 3 * |m| + 1
      invariant !IsNull(tail) ==> |visited| <= 3 * |m|
      invariant if visited == [] then i == period == 1 && IsNull(tortoise)
                else tau < |visited| <= tau + period && i == |visited| - tau && period == tau + 2
                     && At(m, start, tau) == Some(tortoise) && Unseen(m, start, tau, |visited|)
      invariant looping ==> tau <= 2 * |m|
      decreases 3 * |m| + 2 - |visited|
    {
      var n := |visited|;
      FirstSnoc(m, start, n);
      if IsSync(tail, tortoise) {
        CycleWalked(m, start, tau, n);
        return Cycle, visited;
      }
      if n > 0 {
        UnseenSnoc(m, start, tau, n);
      }
      if i == period {
        if looping && n > 0 {
          NotCaught(m, start, mu, lambda, tau, n);
        }
        tortoise, i, period := tail, 0, period * 2;
        tau := n;
        UnseenNow(m, start, n);
      }
      i := i + 1;
      visited := visited + [tail];
      HopAt(m, start, n);
      if tail !in m {
        EndWalked(m, start, n + 1);
        return FetchFailed, visited;
      }
      tail := m[tail];
      WalkBound(m, start, mu, lambda, tau, n + 1);
    }
    EndWalked(m, start, |visited|);
    r := Done;
  }

  lemma UnseenNow(m: map<Pair, Pair>, start: Pair, n: nat)
    requires At(m, start, n).Some?
    ensures Unseen(m, start, n, n + 1)
  {
  }
}