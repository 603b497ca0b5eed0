/** The work of `Close`, while new calls and refreshes may start for ever: under any schedule it takes finitely
    many steps and is never blocked for good. That it ends under a fair schedule is shown in `FairRuns`. */
module CloseTermination {
  import opened Lifecycle
  import opened LifecycleMoves
  import opened LifecycleInvariant
  import opened LifecycleProgress

  /** The work a `Close` depends on: its own, and that of the accepted binds it waits for. */
  predicate CloseWork(t: Thread) { InFlight(t) || Runner(t) }

  function WorkPoints(t: Thread): nat { if CloseWork(t) then PcRank(t) else 0 }

  function WorkElements(t: Thread): nat { if CloseWork(t) then TodoRank(t) else 0 }

  function WorkLast(t: Thread): nat { if CloseWork(t) then ReloadRank(t) else 0 }

  datatype Work = Work(points: nat, elements: nat, last: nat)

  predicate Less(a: Work, b: Work) {
    || a.points < b.points
    || (a.points == b.points && a.elements < b.elements)
    || (a.points == b.points && a.elements == b.elements && a.last < b.last)
  }

  function WorkLeft(s: State): Work {
    Work(Total(s.threads, WorkPoints), Total(s.threads, WorkElements), Total(s.threads, WorkLast))
  }

  predicate WorkStep(s: State, step: Step) {
    Actor(s, step) < |s.threads| && CloseWork(s.threads[Actor(s, step)])
  }

  /** What a step adds to a total over the threads: the move of its thread, and what that spawned. */
  function Gain(s: State, s': State, i: nat, rank: Thread -> nat): int
    requires ThreadMove(s, s', i)
  {
    (if i < |s.threads| then rank(s'.threads[i]) - rank(s.threads[i]) else rank(s'.threads[i]))
    + if i < |s.threads| < |s'.threads| then rank(s'.threads[|s.threads|]) else 0
  }

  lemma TotalGains(s: State, s': State, i: nat, rank: Thread -> nat)
    requires ThreadMove(s, s', i)
    ensures Total(s'.threads, rank) == Total(s.threads, rank) + Gain(s, s', i, rank)
  {
    if i < |s.threads| {
      TotalMoves(s, s', i, rank);
    } else {
      TotalSpawn(s.threads, s'.threads[i], rank);
    }
  }

  /** With `closed` set, no step adds to the work left, and a step of the work itself reduces it. */
  lemma WorkShrinks(s: State, step: Step)
    requires Inv(s) && Enabled(s, step) && s.closed
    ensures WorkLeft(Effect(s, step)) == WorkLeft(s) || Less(WorkLeft(Effect(s, step)), WorkLeft(s))
    ensures WorkStep(s, step) ==> Less(WorkLeft(Effect(s, step)), WorkLeft(s))
  {
    hide Effect, Enabled, Inv;
    var s', i := Effect(s, step), Actor(s, step);
    StepMoves(s, step);
    WorkOf(s, s', i);
    TotalGains(s, s', i, WorkPoints);
    TotalGains(s, s', i, WorkElements);
    TotalGains(s, s', i, WorkLast);
    assert ThreadMove(s, s', i);
    hide Moves, ThreadMove, CloseWork, WorkPoints, WorkElements, WorkLast;
  }

  function WorkIn(t: Thread): Work { Work(WorkPoints(t), WorkElements(t), WorkLast(t)) }

  /** No thread takes up work once `closed` is set, and one that has work moves on with it. */
  lemma WorkOf(s: State, s': State, i: nat)
    requires Inv(s) && s.closed && Moves(s, s', i)
    ensures var w, w' := WorkIn(Was(s, i)), WorkIn(s'.threads[i]);
      if CloseWork(Was(s, i)) then Less(w', w) else w' == w == Work(0, 0, 0)
    ensures i < |s.threads| && |s'.threads| > |s.threads| ==> WorkIn(s'.threads[|s.threads|]) == Work(0, 0, 0)
  {
    hide LockMove, MutexMove, DetachMove, NewMove, Next;
    hide LockInv, MutexInv, CancelInv, CallbacksInv, DrainInv, ReloadInv, AttachInv, ActiveInv;
  }

  // ----- whole runs

  /** An endless run, with any new calls, from a reachable state. */
  ghost predicate EndlessRun(run: nat -> State, schedule: nat -> Step) {
    && Inv(run(0))
    && forall k: nat :: Taken(run(k), schedule(k), run(k + 1))
  }

  predicate Taken(s: State, step: Step, s': State) { Enabled(s, step) && s' == Effect(s, step) }

  lemma TakenKeeps(s: State, step: Step, s': State)
    requires Inv(s) && s.closed && Taken(s, step, s')
    ensures s'.closed
    ensures WorkLeft(s') == WorkLeft(s) || Less(WorkLeft(s'), WorkLeft(s))
    ensures WorkStep(s, step) ==> Less(WorkLeft(s'), WorkLeft(s))
  {
    WorkShrinks(s, step);
    StepMoves(s, step);
  }

  lemma {:induction false} EndlessKeepsInv(run: nat -> State, schedule: nat -> Step, k: nat)
    requires EndlessRun(run, schedule)
    ensures Inv(run(k))
  {
    hide Inv, Enabled, Effect;
    if k > 0 {
      EndlessKeepsInv(run, schedule, k - 1);
      assert Taken(run(k - 1), schedule(k - 1), run(k));
      StepKeepsInv(run(k - 1), schedule(k - 1));
    }
  }

  lemma {:induction false} WorkNeverGrows(run: nat -> State, schedule: nat -> Step, from: nat, k: nat)
    requires EndlessRun(run, schedule) && from <= k && run(from).closed
    ensures run(k).closed
    ensures WorkLeft(run(k)) == WorkLeft(run(from)) || Less(WorkLeft(run(k)), WorkLeft(run(from)))
  {
    hide Inv, Taken;
    if from < k {
      WorkNeverGrows(run, schedule, from, k - 1);
      EndlessKeepsInv(run, schedule, k - 1);
      assert Taken(run(k - 1), schedule(k - 1), run(k));
      TakenKeeps(run(k - 1), schedule(k - 1), run(k));
    }
  }

  /** In every endless run, once `closed` is set, the work of `Close` and of the binds it waits for takes
      finitely many steps, whatever the schedule. */
  lemma {:induction false} CloseWorkIsFinite(run: nat -> State, schedule: nat -> Step, from: nat)
    requires EndlessRun(run, schedule) && run(from).closed
    ensures exists last: nat :: NoWorkFrom(run, schedule, last)
    decreases WorkLeft(run(from)).points, WorkLeft(run(from)).elements, WorkLeft(run(from)).last
  {
    hide Inv, Taken, WorkStep;
    if k: nat :| k >= from && WorkStep(run(k), schedule(k)) {
      WorkNeverGrows(run, schedule, from, k);
      EndlessKeepsInv(run, schedule, k);
      assert Taken(run(k), schedule(k), run(k + 1));
      TakenKeeps(run(k), schedule(k), run(k + 1));
      CloseWorkIsFinite(run, schedule, k + 1);
    } else {
      assert NoWorkFrom(run, schedule, from);
    }
  }

  ghost predicate NoWorkFrom(run: nat -> State, schedule: nat -> Step, last: nat) {
    forall k: nat | k >= last :: !WorkStep(run(k), schedule(k))
  }

  // ----- and it is never blocked for good

  /** The step advances the work of `Close`, or runs a thread that holds a lock. */
  predicate Helps(s: State, step: Step) {
    && Internal(step) && Enabled(s, step) && Actor(s, step) < |s.threads|
    && var t := s.threads[Actor(s, step)];
    CloseWork(t) || HoldsWrite(t) || HoldsRead(t) || InLoad(t)
  }

  /** Until a `Close` under way is done, a step of its work is enabled or a lock is held by a thread whose
      next step is enabled. */
  lemma CloseIsNeverBlocked(s: State)
    requires Inv(s) && s.once.Running?
    ensures exists step :: Helps(s, step)
  {
    if !NothingHeld(s) {
      HeldHelps(s);
    } else {
      var r := s.once.runner;
      if s.threads[r].CloseWait? && s.bindWG != 0 {
        CountPositive(s.threads);
        var j :| 0 <= j < |s.threads| && InFlight(s.threads[j]);
        WorkHelps(s, j);
      } else {
        WorkHelps(s, r);
      }
    }
  }

  lemma HeldHelps(s: State)
    requires LockInv(s) && MutexInv(s) && !NothingHeld(s)
    ensures exists step :: Helps(s, step)
  {
    if s.writer.Some? {
      assert Helps(s, Run(s.writer.value));
    } else if s.readers != {} {
      var i :| i in s.readers;
      assert Helps(s, Run(i));
    } else {
      var src :| src in s.held;
      assert Helps(s, LoadReturn(s.held[src], LoadFailed));
    }
  }

  lemma WorkHelps(s: State, i: nat)
    requires NothingHeld(s) && i < |s.threads| && CloseWork(s.threads[i])
    requires s.threads[i].CloseWait? ==> s.bindWG == 0
    ensures exists step :: Helps(s, step)
  {
    var t := s.threads[i];
    if (t.CloseCancel? || t.CloseDetach?) && t.todo != {} {
      var src :| src in t.todo;
      assert Helps(s, Pick(i, src));
    } else if InLoad(t) {
      assert Helps(s, LoadReturn(i, LoadFailed));
    } else {
      assert Helps(s, Run(i));
    }
  }
}
