/** Under a fair schedule every call returns, however many new calls and refreshes start meanwhile. */
module FairRuns {
  import opened Wrappers
  import opened Lifecycle
  import opened LifecycleMoves
  import opened LifecycleInvariant
  import opened LifecycleSafety
  import opened LifecycleLoads
  import opened LifecycleProgress
  import opened CloseTermination

  /** The thread joins others that are not done yet. */
  predicate Pending(s: State, i: nat)
    requires i < |s.threads|
  {
    Joins(s.threads[i]) && !CanRun(s, s.threads[i], i)
  }

  predicate Served(s: State, step: Step, i: nat) { i < |s.threads| && (Actor(s, step) == i || Pending(s, i)) }

  /** No unfinished thread is passed over for ever, except while it joins others that are not done. For a
      thread that waits for a lock this is the absence of starvation that Go's locks provide, and for a
      thread inside a `Load` it says that the `Load` returns. */
  ghost predicate Fair(run: nat -> State, schedule: nat -> Step) {
    forall k: nat, i: nat | i < |run(k).threads| && !Finished(run(k).threads[i]) ::
      exists m: nat | m >= k :: Served(run(m), schedule(m), i)
  }

  // ----- one thread along a run

  /** Threads that never wait for other threads to finish. */
  predicate Simple(t: Thread) { KindOf(t) == BindKind || KindOf(t) == CallbackKind || IsReload(t) }

  lemma SimpleNeverJoins(t: Thread)
    requires Simple(t)
    ensures !Joins(t)
  {
  }

  lemma StepOfThread(s: State, step: Step, i: nat)
    requires Enabled(s, step) && i < |s.threads|
    ensures i < |Effect(s, step).threads|
    ensures var t, t' := s.threads[i], Effect(s, step).threads[i];
      && (if Actor(s, step) == i then Descends(t, t') else t' == t)
      && (Simple(t) <==> Simple(t'))
  {
    var s', a := Effect(s, step), Actor(s, step);
    hide Effect, Enabled, LockMove, MutexMove, BindMove, CloseMove, DetachMove, Next, KindOf, Descends;
    StepMoves(s, step);
    OthersStay(s, s', a);
    if a == i {
      RoundMoves(s, s', i);
      if IsReload(s.threads[i]) { GoroutineMoves(s, s', i); }
      NewIsNotSimple(s.threads[i], s'.threads[i]);
    }
  }

  lemma NewIsNotSimple(t: Thread, t': Thread)
    ensures t.NewWait? && t'.CloseEnter? ==> !Simple(t) && !Simple(t')
  {
  }

  lemma DescendsTransitive(t: Thread, t': Thread, t'': Thread)
    requires Descends(t, t') && Descends(t', t'')
    ensures Descends(t, t'')
  {
    hide PcRank, TodoRank, ReloadRank;
  }

  /** Along a run a thread stays where it is or gets nearer to its return. */
  lemma {:induction false} ThreadDescends(run: nat -> State, schedule: nat -> Step, k: nat, m: nat, i: nat)
    requires EndlessRun(run, schedule) && k <= m && i < |run(k).threads|
    ensures i < |run(m).threads|
    ensures var t, t' := run(k).threads[i], run(m).threads[i];
      (t' == t || Descends(t, t')) && (Simple(t) <==> Simple(t'))
  {
    hide Enabled, Effect, Inv, Descends, Simple;
    if k < m {
      ThreadDescends(run, schedule, k, m - 1, i);
      assert Taken(run(m - 1), schedule(m - 1), run(m));
      StepOfThread(run(m - 1), schedule(m - 1), i);
      var t, t', t'' := run(k).threads[i], run(m - 1).threads[i], run(m).threads[i];
      if t' != t && t'' != t' { DescendsTransitive(t, t', t''); }
    }
  }

  lemma DescendsStrictly(t: Thread, t': Thread)
    requires Descends(t, t')
    ensures t != t' && !Finished(t)
  {
  }

  /** What has returned stays returned. */
  lemma FinishedStays(run: nat -> State, schedule: nat -> Step, k: nat, m: nat, i: nat)
    requires EndlessRun(run, schedule) && k <= m && i < |run(k).threads| && Finished(run(k).threads[i])
    ensures i < |run(m).threads| && run(m).threads[i] == run(k).threads[i]
  {
    hide EndlessRun, Finished, Descends, Simple;
    ThreadDescends(run, schedule, k, m, i);
    if Descends(run(k).threads[i], run(m).threads[i]) { DescendsStrictly(run(k).threads[i], run(m).threads[i]); }
  }

  /** A thread that is where it was has been there in between. */
  lemma Unmoved(run: nat -> State, schedule: nat -> Step, k: nat, n: nat, m: nat, i: nat)
    requires EndlessRun(run, schedule) && k <= n <= m && i < |run(k).threads|
    requires i < |run(m).threads| && run(m).threads[i] == run(k).threads[i]
    ensures i < |run(n).threads| && run(n).threads[i] == run(k).threads[i]
  {
    hide EndlessRun, Descends, Simple;
    ThreadDescends(run, schedule, k, n, i);
    ThreadDescends(run, schedule, n, m, i);
    var t, t' := run(k).threads[i], run(n).threads[i];
    if t' != t {
      DescendsTransitive(t, t', t);
      DescendsStrictly(t, t);
    }
  }

  /** A thread that is served, and not for waiting, gets nearer to its return. */
  lemma ServedDescends(run: nat -> State, schedule: nat -> Step, k: nat, i: nat) returns (m: nat)
    requires EndlessRun(run, schedule) && Fair(run, schedule)
    requires i < |run(k).threads| && !Finished(run(k).threads[i])
    requires forall later: nat | later >= k && i < |run(later).threads| && run(later).threads[i] == run(k).threads[i] ::
      !Pending(run(later), i)
    ensures m > k && i < |run(m).threads| && Descends(run(k).threads[i], run(m).threads[i])
  {
    hide Inv, Enabled, Effect, Descends, Finished, Pending, Actor;
    var n: nat :| n >= k && Served(run(n), schedule(n), i);
    ThreadDescends(run, schedule, k, n, i);
    if run(n).threads[i] == run(k).threads[i] {
      assert Taken(run(n), schedule(n), run(n + 1));
      StepOfThread(run(n), schedule(n), i);
      m := n + 1;
    } else {
      m := n;
      assert n != k;
    }
  }

  // ----- threads that wait for nobody

  lemma {:induction false} SimpleReturns(run: nat -> State, schedule: nat -> Step, k: nat, i: nat) returns (m: nat)
    requires EndlessRun(run, schedule) && Fair(run, schedule) && i < |run(k).threads| && Simple(run(k).threads[i])
    ensures m >= k && i < |run(m).threads| && Finished(run(m).threads[i])
    decreases PcRank(run(k).threads[i]), TodoRank(run(k).threads[i]), ReloadRank(run(k).threads[i])
  {
    hide EndlessRun, Fair, Simple, Finished, CanRun, Joins, PcRank, TodoRank, ReloadRank;
    if Finished(run(k).threads[i]) {
      return k;
    }
    SimpleNeverJoins(run(k).threads[i]);
    var n := ServedDescends(run, schedule, k, i);
    ThreadDescends(run, schedule, k, n, i);
    m := SimpleReturns(run, schedule, n, i);
  }

  ghost predicate SimpleDone(s: State, n: nat) {
    n <= |s.threads| && forall i | 0 <= i < n && Simple(s.threads[i]) :: Finished(s.threads[i])
  }

  lemma SimpleDoneStays(run: nat -> State, schedule: nat -> Step, k: nat, m: nat, n: nat)
    requires EndlessRun(run, schedule) && k <= m && SimpleDone(run(k), n)
    ensures SimpleDone(run(m), n)
  {
    hide EndlessRun, Simple, Finished;
    if n > 0 { ThreadDescends(run, schedule, k, m, n - 1); }
    forall i | 0 <= i < n && Simple(run(m).threads[i]) ensures Finished(run(m).threads[i]) {
      ThreadDescends(run, schedule, k, m, i);
      FinishedStays(run, schedule, k, m, i);
    }
  }

  /** Some time later, all threads there are now that wait for nobody have returned. */
  lemma {:induction false} AllSimpleReturn(run: nat -> State, schedule: nat -> Step, k: nat, n: nat) returns (m: nat)
    requires EndlessRun(run, schedule) && Fair(run, schedule) && n <= |run(k).threads|
    ensures m >= k && SimpleDone(run(m), n)
    decreases n
  {
    hide EndlessRun, Fair, Simple, Finished;
    if n == 0 {
      return k;
    }
    m := AllSimpleReturn(run, schedule, k, n - 1);
    ThreadDescends(run, schedule, k, m, n - 1);
    if Simple(run(m).threads[n - 1]) {
      var m' := SimpleReturns(run, schedule, m, n - 1);
      ThreadDescends(run, schedule, m, m', n - 1);
      SimpleDoneStays(run, schedule, m, m', n - 1);
      m := m';
    }
  }

  // ----- what a joining thread waits for is done some time

  /** While a call waits for its goroutines it starts no more of them. */
  lemma NoMoreChildren(s: State, step: Step, i: nat, j: nat)
    requires Enabled(s, step) && i < |s.threads| && (s.threads[i].RefreshWait? || s.threads[i].NewWait?)
    requires j < |Effect(s, step).threads| && IsReload(Effect(s, step).threads[j])
    requires Effect(s, step).threads[j].parent == i
    ensures j < |s.threads| && IsReload(s.threads[j]) && s.threads[j].parent == i
  {
    var s', a := Effect(s, step), Actor(s, step);
    hide Effect, Enabled, Moves;
    StepMoves(s, step);
    OthersStay(s, s', a);
    RoundMoves(s, s', a);
    if j == a { GoroutineMoves(s, s', a); }
  }

  lemma {:induction false} ChildrenAreOld(
    run: nat -> State, schedule: nat -> Step, k: nat, m: nat, i: nat, j: nat)
    requires EndlessRun(run, schedule) && k <= m && i < |run(k).threads| && i < |run(m).threads|
    requires run(k).threads[i].RefreshWait? || run(k).threads[i].NewWait?
    requires run(m).threads[i] == run(k).threads[i]
    requires j < |run(m).threads| && IsReload(run(m).threads[j]) && run(m).threads[j].parent == i
    ensures j < |run(k).threads|
  {
    hide Enabled, Effect, Inv;
    if k < m {
      Unmoved(run, schedule, k, m - 1, m, i);
      assert Taken(run(m - 1), schedule(m - 1), run(m));
      NoMoreChildren(run(m - 1), schedule(m - 1), i, j);
      ChildrenAreOld(run, schedule, k, m - 1, i, j);
    }
  }

  /** Once `closed` is set no bind comes into flight. */
  lemma NoMoreBinds(s: State, step: Step, j: nat)
    requires Enabled(s, step) && s.closed && j < |Effect(s, step).threads| && InFlight(Effect(s, step).threads[j])
    ensures Effect(s, step).closed && j < |s.threads| && InFlight(s.threads[j])
  {
    var s', a := Effect(s, step), Actor(s, step);
    hide Effect, Enabled, Moves, InFlight;
    StepMoves(s, step);
    OthersStay(s, s', a);
    NoBindStarts(s, s', a);
  }

  lemma NoBindStarts(s: State, s': State, i: nat)
    requires Moves(s, s', i) && s.closed
    ensures s'.closed && (InFlight(s'.threads[i]) ==> i < |s.threads| && InFlight(s.threads[i]))
    ensures |s'.threads| > |s.threads| && i < |s.threads| ==> !InFlight(s'.threads[|s.threads|])
  {
    hide LockMove, MutexMove, DetachMove, NewMove, Descends, Next, Spawning;
  }

  lemma {:induction false} BindsAreOld(run: nat -> State, schedule: nat -> Step, k: nat, m: nat, j: nat)
    requires EndlessRun(run, schedule) && k <= m && run(k).closed
    requires j < |run(m).threads| && InFlight(run(m).threads[j])
    ensures j < |run(k).threads| && InFlight(run(k).threads[j])
  {
    hide Enabled, Effect, Inv, InFlight;
    if k < m {
      WorkNeverGrows(run, schedule, k, m - 1);
      assert Taken(run(m - 1), schedule(m - 1), run(m));
      NoMoreBinds(run(m - 1), schedule(m - 1), j);
      BindsAreOld(run, schedule, k, m - 1, j);
    }
  }

  /** When the threads there were at `k` have returned, a join begun at `k` can end. */
  lemma RefreshJoinEnds(run: nat -> State, schedule: nat -> Step, k: nat, n: nat, m: nat, i: nat)
    requires EndlessRun(run, schedule) && k <= n <= m && i < |run(k).threads| && i < |run(m).threads|
    requires run(k).threads[i].RefreshWait? || run(k).threads[i].NewWait?
    requires SimpleDone(run(n), |run(k).threads|) && run(m).threads[i] == run(k).threads[i]
    ensures !Pending(run(m), i)
  {
    hide EndlessRun, Finished, Simple;
    forall j | 0 <= j < |run(m).threads| && Reloading(run(m).threads[j]) ensures run(m).threads[j].parent != i {
      if run(m).threads[j].parent == i {
        ChildrenAreOld(run, schedule, k, m, i, j);
        SimpleDoneStays(run, schedule, n, m, |run(k).threads|);
        ReloadingIsUnfinished(run(m).threads[j]);
      }
    }
  }

  lemma ReloadingIsUnfinished(t: Thread)
    requires Reloading(t)
    ensures Simple(t) && !Finished(t)
  {
  }

  lemma InFlightIsUnfinished(t: Thread)
    requires InFlight(t)
    ensures Simple(t) && !Finished(t)
  {
  }

  lemma CloseJoinEnds(run: nat -> State, schedule: nat -> Step, k: nat, n: nat, m: nat, i: nat)
    requires EndlessRun(run, schedule) && k <= n <= m && i < |run(k).threads| && i < |run(m).threads|
    requires run(k).threads[i].CloseWait?
    requires SimpleDone(run(n), |run(k).threads|) && run(m).threads[i] == run(k).threads[i]
    ensures !Pending(run(m), i)
  {
    hide EndlessRun, Finished, Simple;
    WaitingIsClosed(run, schedule, k, i);
    WorkNeverGrows(run, schedule, k, n);
    forall j | 0 <= j < |run(m).threads| ensures !InFlight(run(m).threads[j]) {
      if InFlight(run(m).threads[j]) {
        BindsAreOld(run, schedule, k, m, j);
        ThreadDescends(run, schedule, k, n, j);
        SimpleDoneStays(run, schedule, n, m, |run(k).threads|);
        InFlightIsUnfinished(run(m).threads[j]);
      }
    }
    EndlessKeepsInv(run, schedule, m);
    CountPositive(run(m).threads);
  }

  lemma WaitingIsClosed(run: nat -> State, schedule: nat -> Step, k: nat, i: nat)
    requires EndlessRun(run, schedule) && i < |run(k).threads| && run(k).threads[i].CloseWait?
    ensures run(k).closed
  {
    hide EndlessRun;
    EndlessKeepsInv(run, schedule, k);
  }

  lemma JoinDescends(run: nat -> State, schedule: nat -> Step, k: nat, i: nat) returns (m: nat)
    requires EndlessRun(run, schedule) && Fair(run, schedule) && i < |run(k).threads|
    requires Joins(run(k).threads[i]) && !run(k).threads[i].CloseEnter?
    ensures m > k && i < |run(m).threads| && Descends(run(k).threads[i], run(m).threads[i])
  {
    hide EndlessRun, Fair, Descends, Pending, SimpleDone, Simple;
    var n := AllSimpleReturn(run, schedule, k, |run(k).threads|);
    ThreadDescends(run, schedule, k, n, i);
    if run(n).threads[i] != run(k).threads[i] {
      m := n;
      assert n != k;
    } else {
      forall later: nat | later >= n && i < |run(later).threads| && run(later).threads[i] == run(n).threads[i]
        ensures !Pending(run(later), i)
      {
        if run(k).threads[i].CloseWait? { CloseJoinEnds(run, schedule, k, n, later, i); }
        else { RefreshJoinEnds(run, schedule, k, n, later, i); }
      }
      m := ServedDescends(run, schedule, n, i);
    }
  }

  // ----- Close, and every call

  /** A `Close` under way stays the one runner of `closeOnce` until it is done. */
  lemma {:induction false} RunnerKeepsOnce(run: nat -> State, schedule: nat -> Step, k: nat, m: nat)
    requires EndlessRun(run, schedule) && k <= m && (run(k).once.Running? || run(k).once == Ran)
    ensures run(m).once == run(k).once || run(m).once == Ran
  {
    hide Enabled, Effect, Inv;
    if k < m {
      RunnerKeepsOnce(run, schedule, k, m - 1);
      EndlessKeepsInv(run, schedule, m - 1);
      assert Taken(run(m - 1), schedule(m - 1), run(m));
      StepOfOnce(run(m - 1), schedule(m - 1));
    }
  }

  lemma StepOfOnce(s: State, step: Step)
    requires Inv(s) && Enabled(s, step) && (s.once.Running? || s.once == Ran)
    ensures Effect(s, step).once == s.once || Effect(s, step).once == Ran
  {
    hide Effect, Enabled, Inv, ThreadMove, LockMove, MutexMove, BindMove, DetachMove, NewMove, Descends, Next, Runner;
    StepMoves(s, step);
  }

  lemma RunnerRuns(s: State, i: nat)
    requires Inv(s) && s.once == Running(i)
    ensures i < |s.threads| && !Finished(s.threads[i]) && !s.threads[i].CloseEnter?
  {
  }

  lemma {:induction false} RunnerFinishes(run: nat -> State, schedule: nat -> Step, k: nat, i: nat) returns (m: nat)
    requires EndlessRun(run, schedule) && Fair(run, schedule)
    requires i < |run(k).threads| && run(k).once == Running(i)
    ensures m >= k && run(m).once == Ran
    decreases PcRank(run(k).threads[i]), TodoRank(run(k).threads[i]), ReloadRank(run(k).threads[i])
  {
    hide EndlessRun, Fair, Inv, Finished, Joins, CanRun, PcRank, TodoRank, ReloadRank;
    EndlessKeepsInv(run, schedule, k);
    RunnerRuns(run(k), i);
    var n: nat;
    if Joins(run(k).threads[i]) { n := JoinDescends(run, schedule, k, i); }
    else { n := ServedDescends(run, schedule, k, i); }
    RunnerKeepsOnce(run, schedule, k, n);
    m := n;
    if run(n).once != Ran { m := RunnerFinishes(run, schedule, n, i); }
  }

  /** A `Close` that finds another one under way waits for it and returns, and one that finds none starts. */
  lemma EnterDescends(run: nat -> State, schedule: nat -> Step, k: nat, i: nat) returns (m: nat)
    requires EndlessRun(run, schedule) && Fair(run, schedule)
    requires i < |run(k).threads| && run(k).threads[i].CloseEnter?
    ensures m > k && i < |run(m).threads| && Descends(run(k).threads[i], run(m).threads[i])
  {
    hide EndlessRun, Fair, Descends, Inv;
    if n: nat :| n >= k && run(n).once.Running? {
      EndlessKeepsInv(run, schedule, n);
      RunnerRuns(run(n), run(n).once.runner);
      var r := RunnerFinishes(run, schedule, n, run(n).once.runner);
      ThreadDescends(run, schedule, k, r, i);
      m := r;
      if run(r).threads[i] == run(k).threads[i] {
        forall later: nat | later >= r ensures run(later).once == Ran { RunnerKeepsOnce(run, schedule, r, later); }
        m := ServedDescends(run, schedule, r, i);
      } else {
        assert r != k;
      }
    } else {
      m := ServedDescends(run, schedule, k, i);
    }
  }

  /** In every endless fair run every call returns, whatever new calls and refreshes start for ever: `Bind`,
      `Close`, `RefreshAll`, `New` and the callbacks. */
  lemma {:induction false} EveryCallReturns(run: nat -> State, schedule: nat -> Step, k: nat, i: nat) returns (m: nat)
    requires EndlessRun(run, schedule) && Fair(run, schedule) && i < |run(k).threads|
    ensures m >= k && i < |run(m).threads| && Finished(run(m).threads[i])
    decreases PcRank(run(k).threads[i]), TodoRank(run(k).threads[i]), ReloadRank(run(k).threads[i])
  {
    hide EndlessRun, Fair, Finished, CanRun, Joins, PcRank, TodoRank, ReloadRank;
    if Finished(run(k).threads[i]) {
      return k;
    }
    var n: nat;
    if run(k).threads[i].CloseEnter? { n := EnterDescends(run, schedule, k, i); }
    else if Joins(run(k).threads[i]) { n := JoinDescends(run, schedule, k, i); }
    else { n := ServedDescends(run, schedule, k, i); }
    m := EveryCallReturns(run, schedule, n, i);
  }

  lemma {:induction false} CloseStaysClose(run: nat -> State, schedule: nat -> Step, k: nat, m: nat, i: nat)
    requires EndlessRun(run, schedule) && k <= m && i < |run(k).threads| && KindOf(run(k).threads[i]) == CloseKind
    ensures i < |run(m).threads| && KindOf(run(m).threads[i]) == CloseKind
  {
    hide Enabled, Effect, Inv, KindOf;
    if k < m {
      CloseStaysClose(run, schedule, k, m - 1, i);
      assert Taken(run(m - 1), schedule(m - 1), run(m));
      StepOfClose(run(m - 1), schedule(m - 1), i);
    }
  }

  lemma StepOfClose(s: State, step: Step, i: nat)
    requires Enabled(s, step) && i < |s.threads| && KindOf(s.threads[i]) == CloseKind
    ensures i < |Effect(s, step).threads| && KindOf(Effect(s, step).threads[i]) == CloseKind
  {
    var s', a := Effect(s, step), Actor(s, step);
    hide Effect, Enabled, LockMove, MutexMove, BindMove, CloseMove, DetachMove, Next, Descends;
    StepMoves(s, step);
    OthersStay(s, s', a);
  }

  /** Every `Close` returns in every endless fair run, and then every registered source is closed and
      detached and no bind is in flight. */
  lemma CloseReturns(run: nat -> State, schedule: nat -> Step, k: nat, i: nat) returns (m: nat)
    requires EndlessRun(run, schedule) && Fair(run, schedule)
    requires i < |run(k).threads| && KindOf(run(k).threads[i]) == CloseKind
    ensures m >= k && i < |run(m).threads| && run(m).threads[i].CloseReturned?
    ensures run(m).once == Ran && FullyClosed(run(m))
  {
    hide EndlessRun, Fair, FullyClosed;
    m := EveryCallReturns(run, schedule, k, i);
    CloseStaysClose(run, schedule, k, m, i);
    EndlessKeepsInv(run, schedule, m);
    ReturnedMeansRan(run(m), i);
    RanIsFullyClosed(run(m));
  }

  lemma ReturnedMeansRan(s: State, i: nat)
    requires Inv(s) && i < |s.threads| && KindOf(s.threads[i]) == CloseKind && Finished(s.threads[i])
    ensures s.threads[i].CloseReturned? && s.once == Ran
  {
  }

  // ----- the hypothesis

  /** One `RefreshAll` is at its check, and it is the only holder of the store's lock. */
  predicate ReadsAlone(s: State, a: nat) {
    s.writer == None && s.readers == {a} && a < |s.threads| && s.threads[a].RefreshCheck?
  }

  lemma RefreshStarts(s: State)
    requires s.published
    ensures Enabled(s, Start(CallRefreshAll))
    ensures Effect(s, Start(CallRefreshAll)) == s.(threads := s.threads + [RefreshEnter])
  {
    hide RunEffect, PickEffect, LoadEffect;
  }

  lemma RefreshEnters(s: State, n: nat)
    requires n < |s.threads| && s.threads[n].RefreshEnter? && s.writer == None
    ensures Enabled(s, Run(n))
    ensures Effect(s, Run(n)) == s.(threads := s.threads[n := RefreshCheck], readers := s.readers + {n})
  {
    hide PickEffect, LoadEffect, BindRun, CloseRun, DrainRun, CallbackRun, NewRun;
  }

  lemma RefreshLeaves(s: State, a: nat)
    requires a < |s.threads| && s.threads[a].RefreshCheck?
    ensures Enabled(s, Run(a))
    ensures var next := if s.closed then RefreshRefused else RefreshSpawn(Polled(s), Polled(s));
      Effect(s, Run(a)) == s.(threads := s.threads[a := next], readers := s.readers - {a})
  {
    hide PickEffect, LoadEffect, BindRun, CloseRun, DrainRun, CallbackRun, NewRun, Polled;
  }

  /** The reader inside hands the read lock on to a new `RefreshAll`, and so a writer is kept out. */
  lemma ReaderHandsOn(s: State, a: nat)
    requires s.published && ReadsAlone(s, a)
    ensures var n, s1 := |s.threads|, Effect(s, Start(CallRefreshAll));
      && !LockFree(s1) && Enabled(s1, Run(n))
      && var s2 := Effect(s1, Run(n));
      && !LockFree(s2) && Enabled(s2, Run(a))
      && var s3 := Effect(s2, Run(a));
      && s3.published && ReadsAlone(s3, n)
  {
    hide Effect, Enabled;
    var n := |s.threads|;
    RefreshStarts(s);
    var s1 := Effect(s, Start(CallRefreshAll));
    RefreshEnters(s1, n);
    RefreshLeaves(Effect(s1, Run(n)), a);
  }

  /** The state after `k` steps of handing on, three steps for each new reader. */
  function Relay(s: State, a: nat, k: nat): State
    requires s.published && ReadsAlone(s, a)
    decreases k
  {
    ReaderHandsOn(s, a);
    var n, s1 := |s.threads|, Effect(s, Start(CallRefreshAll));
    var s2 := Effect(s1, Run(n));
    if k == 0 then s
    else if k == 1 then s1
    else if k == 2 then s2
    else Relay(Effect(s2, Run(a)), n, k - 3)
  }

  function RelayStep(s: State, a: nat, k: nat): Step
    requires s.published && ReadsAlone(s, a)
    decreases k
  {
    ReaderHandsOn(s, a);
    var n, s1 := |s.threads|, Effect(s, Start(CallRefreshAll));
    if k == 0 then Start(CallRefreshAll)
    else if k == 1 then Run(n)
    else if k == 2 then Run(a)
    else RelayStep(Effect(Effect(s1, Run(n)), Run(a)), n, k - 3)
  }

  lemma {:induction false} RelayGoesOn(s: State, a: nat, k: nat)
    requires s.published && ReadsAlone(s, a)
    ensures Taken(Relay(s, a, k), RelayStep(s, a, k), Relay(s, a, k + 1)) && !LockFree(Relay(s, a, k))
    decreases k
  {
    hide Effect, Enabled;
    ReaderHandsOn(s, a);
    RefreshStarts(s);
    if k >= 3 {
      var n, s1 := |s.threads|, Effect(s, Start(CallRefreshAll));
      RelayGoesOn(Effect(Effect(s1, Run(n)), Run(a)), n, k - 3);
    }
  }

  /** Fairness is needed. With a reader inside and a lock that never favours writers, there is an endless run
      in which calls of `RefreshAll` hand the read lock on to each other for ever: each of them gets on, the
      lock is never free, and no bind commits and no `Close` begins. */
  lemma ReadersCanHandOn(s: State, a: nat) returns (run: nat -> State, schedule: nat -> Step)
    requires Inv(s) && s.published && ReadsAlone(s, a)
    ensures run(0) == s && EndlessRun(run, schedule)
    ensures forall k: nat :: !LockFree(run(k))
    ensures forall k: nat, i: nat | i < |run(k).threads| && WantsWrite(run(k).threads[i]) ::
      !Enabled(run(k), Run(i))
  {
    hide Inv, Relay, RelayStep;
    run := (k: nat) => if s.published && ReadsAlone(s, a) then Relay(s, a, k) else s;
    schedule := (k: nat) => if s.published && ReadsAlone(s, a) then RelayStep(s, a, k) else Start(CallClose);
    RelayStarts(s, a);
    forall k: nat ensures Taken(run(k), schedule(k), run(k + 1)) && !LockFree(run(k)) { RelayGoesOn(s, a, k); }
    forall k: nat, i: nat | i < |run(k).threads| && WantsWrite(run(k).threads[i]) ensures !Enabled(run(k), Run(i)) {
      WritersNeedTheLock(run(k), i);
    }
  }

  lemma RelayStarts(s: State, a: nat)
    requires s.published && ReadsAlone(s, a)
    ensures Relay(s, a, 0) == s
  {
  }

  lemma WritersNeedTheLock(s: State, i: nat)
    requires i < |s.threads| && WantsWrite(s.threads[i]) && !LockFree(s)
    ensures !Enabled(s, Run(i))
  {
  }

  /** The last state of a finite run, after `n` more calls of `Bind` without a source. */
  function Idle(s: State, n: nat): State { s.(threads := s.threads + seq(n, _ => BindRejected)) }

  function Extended(states: seq<State>, k: nat): State
    requires states != []
  {
    if k < |states| then states[k] else Idle(states[|states| - 1], k - (|states| - 1))
  }

  function ExtendedStep(steps: seq<Step>, k: nat): Step {
    if k < |steps| then steps[k] else Start(CallBind(None))
  }

  /** From every reachable state of a published store there is an endless fair run. */
  lemma FairRunsExist(s: State) returns (run: nat -> State, schedule: nat -> Step)
    requires Inv(s) && s.published
    ensures run(0) == s && EndlessRun(run, schedule) && Fair(run, schedule)
  {
    hide Inv, Effect, Enabled, Finished, Idle;
    var states, steps := CallsCanReturn(s, _ => LoadFailed);
    run := (k: nat) => Extended(states, k);
    schedule := (k: nat) => ExtendedStep(steps, k);
    IdleZero(states[|steps|]);
    forall k: nat ensures Taken(run(k), schedule(k), run(k + 1)) {
      if k < |steps| {
        assert Follows(states[k], steps[k], states[k + 1]);
      } else {
        StaysPublished(states, steps, |steps|);
        IdleStep(states[|steps|], k - |steps|);
      }
    }
    assert EndlessRun(run, schedule);
    forall k: nat, i: nat | i < |run(k).threads| && !Finished(run(k).threads[i])
      ensures exists m: nat | m >= k :: Served(run(m), schedule(m), i)
    {
      var last := k + |steps|;
      ThreadDescends(run, schedule, k, last, i);
      assert run(last) == Idle(states[|steps|], k);
      IdleIsFinished(states[|steps|], k, i);
      ActsBetween(run, schedule, k, last, i);
    }
  }

  lemma IdleZero(s: State)
    ensures Idle(s, 0) == s
  {
  }

  lemma IdleStep(s: State, n: nat)
    requires s.published
    ensures Taken(Idle(s, n), Start(CallBind(None)), Idle(s, n + 1))
  {
  }

  lemma IdleIsFinished(s: State, n: nat, i: nat)
    requires !Unfinished(s) && i < |Idle(s, n).threads|
    ensures Finished(Idle(s, n).threads[i])
  {
  }

  lemma {:induction false} StaysPublished(states: seq<State>, steps: seq<Step>, k: nat)
    requires Leads(states, steps) && k <= |steps| && states[0].published
    ensures states[k].published
  {
    hide Effect, Enabled, Polite;
    if k > 0 {
      StaysPublished(states, steps, k - 1);
      assert Follows(states[k - 1], steps[k - 1], states[k]);
      StepMoves(states[k - 1], steps[k - 1]);
    }
  }

  lemma {:induction false} ActsBetween(run: nat -> State, schedule: nat -> Step, k: nat, m: nat, i: nat)
    requires EndlessRun(run, schedule) && k <= m && i < |run(k).threads| && i < |run(m).threads|
    requires run(m).threads[i] != run(k).threads[i]
    ensures exists n: nat | n >= k :: Served(run(n), schedule(n), i)
  {
    hide Enabled, Effect, Inv, Pending;
    ThreadDescends(run, schedule, k, m - 1, i);
    assert Taken(run(m - 1), schedule(m - 1), run(m));
    StepOfThread(run(m - 1), schedule(m - 1), i);
    if Actor(run(m - 1), schedule(m - 1)) == i {
      assert Served(run(m - 1), schedule(m - 1), i);
    } else {
      ActsBetween(run, schedule, k, m - 1, i);
    }
  }
}
