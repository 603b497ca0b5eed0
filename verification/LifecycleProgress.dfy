/** The lifecycle does not deadlock and its calls terminate. */
module LifecycleProgress {
  import opened Wrappers
  import opened Lifecycle
  import opened LifecycleMoves
  import opened LifecycleInvariant

  /** A step of a call already made: no new call, and no watcher firing. */
  predicate Internal(step: Step) { !step.Start? && !step.Fire? }

  /** Go's RWMutex admits no new reader while a writer waits. */
  predicate Polite(s: State, step: Step) {
    step.Run? && step.i < |s.threads| && WantsRead(s.threads[step.i]) ==>
      forall j | 0 <= j < |s.threads| :: !WantsWrite(s.threads[j])
  }

  predicate Unfinished(s: State) { exists i | 0 <= i < |s.threads| :: !Finished(s.threads[i]) }

  ghost predicate CanStep(s: State) { exists step :: Internal(step) && Enabled(s, step) && Polite(s, step) }

  lemma Witness(s: State, step: Step)
    requires Internal(step) && Enabled(s, step) && Polite(s, step)
    ensures CanStep(s)
  {
  }

  /** A thread holding a lock can always go on: it never waits for anything while holding it. A thread
      holding a source's mutex is inside that source's `Load`, which can return with any result. */
  lemma HoldersGoOn(s: State)
    requires LockInv(s) && MutexInv(s)
    ensures s.writer.Some? ==> Enabled(s, Run(s.writer.value)) && Polite(s, Run(s.writer.value))
    ensures forall i | i in s.readers :: Enabled(s, Run(i)) && Polite(s, Run(i))
    ensures forall src, r | src in s.held :: Enabled(s, LoadReturn(s.held[src], r))
  {
  }

  lemma HoldersCanStep(s: State)
    requires LockInv(s) && MutexInv(s)
    requires s.writer.Some? || s.readers != {} || s.held != map[]
    ensures CanStep(s)
  {
    HoldersGoOn(s);
    if s.writer.Some? {
      Witness(s, Run(s.writer.value));
    } else if s.readers != {} {
      var i :| i in s.readers;
      Witness(s, Run(i));
    } else {
      var src :| src in s.held;
      Witness(s, LoadReturn(s.held[src], LoadFailed));
    }
  }

  predicate NothingHeld(s: State) { s.writer == None && s.readers == {} && s.held == map[] }

  /** The points where a thread waits for other threads rather than for a lock. */
  predicate Joins(t: Thread) { t.CloseEnter? || t.CloseWait? || t.RefreshWait? || t.NewWait? }

  lemma ReadersCanStep(s: State, i: nat)
    requires NothingHeld(s) && i < |s.threads| && WantsRead(s.threads[i])
    ensures CanStep(s)
  {
    if w :| 0 <= w < |s.threads| && WantsWrite(s.threads[w]) {
      Witness(s, Run(w));
    } else {
      Witness(s, Run(i));
    }
  }

  /** With no lock held, every unfinished thread that is not joining others can step. */
  lemma OthersCanStep(s: State, i: nat)
    requires LockInv(s) && NothingHeld(s)
    requires i < |s.threads| && !Finished(s.threads[i]) && !Joins(s.threads[i])
    ensures CanStep(s)
  {
    var t := s.threads[i];
    if t.CloseCancel? || t.CloseDetach? || t.RefreshSpawn? || t.NewSpawn? || t.NewAttach? {
      PickOrRun(s, i, t.todo);
    } else if InLoad(t) {
      Witness(s, LoadReturn(i, LoadFailed));
    } else if WantsRead(t) {
      ReadersCanStep(s, i);
    } else {
      Witness(s, Run(i));
    }
  }

  lemma PickOrRun(s: State, i: nat, todo: set<Source>)
    requires NothingHeld(s) && i < |s.threads|
    requires
      || s.threads[i] == CloseCancel(todo) || s.threads[i] == CloseDetach(todo)
      || (s.threads[i].RefreshSpawn? && s.threads[i].todo == todo)
      || s.threads[i] == NewSpawn(todo) || s.threads[i] == NewAttach(todo)
    ensures CanStep(s)
  {
    if todo == {} {
      Witness(s, Run(i));
    } else {
      var src :| src in todo;
      Witness(s, Pick(i, src));
    }
  }

  /** No deadlock: in every reachable state with an unfinished call, some step of a call already made is
      enabled, even under a lock that prefers waiting writers. */
  lemma NeverStuck(s: State)
    requires Inv(s) && Unfinished(s)
    ensures CanStep(s)
  {
    if !NothingHeld(s) {
      HoldersCanStep(s);
    } else {
      var i :| 0 <= i < |s.threads| && !Finished(s.threads[i]);
      if !Joins(s.threads[i]) {
        OthersCanStep(s, i);
      } else {
        JoinersCanStep(s, i);
      }
    }
  }

  lemma WaitGroupCanStep(s: State)
    requires Inv(s) && NothingHeld(s) && s.bindWG != 0
    ensures CanStep(s)
  {
    CountPositive(s.threads);
    var j :| 0 <= j < |s.threads| && InFlight(s.threads[j]);
    OthersCanStep(s, j);
  }

  lemma ChildrenCanStep(s: State, i: nat)
    requires Inv(s) && NothingHeld(s) && !ChildrenDone(s, i)
    ensures CanStep(s)
  {
    var j :| 0 <= j < |s.threads| && Reloading(s.threads[j]) && s.threads[j].parent == i;
    OthersCanStep(s, j);
  }

  lemma WaitersCanStep(s: State, i: nat)
    requires Inv(s) && NothingHeld(s) && i < |s.threads|
    requires s.threads[i].CloseWait? || s.threads[i].RefreshWait? || s.threads[i].NewWait?
    ensures CanStep(s)
  {
    if s.threads[i].CloseWait? && s.bindWG != 0 {
      WaitGroupCanStep(s);
    } else if !s.threads[i].CloseWait? && !ChildrenDone(s, i) {
      ChildrenCanStep(s, i);
    } else {
      Witness(s, Run(i));
    }
  }

  /** What a joining thread waits for is either done or can step: joins never form a cycle. */
  lemma JoinersCanStep(s: State, i: nat)
    requires Inv(s) && NothingHeld(s) && i < |s.threads| && Joins(s.threads[i])
    ensures CanStep(s)
  {
    if !s.threads[i].CloseEnter? {
      WaitersCanStep(s, i);
    } else if s.once.Running? {
      var r := s.once.runner;
      if s.threads[r].CloseWait? { WaitersCanStep(s, r); } else { OthersCanStep(s, r); }
    } else {
      Witness(s, Run(i));
    }
  }

  // ----- termination

  function Total(threads: seq<Thread>, rank: Thread -> nat): nat {
    if threads == [] then 0 else Total(threads[..|threads| - 1], rank) + rank(threads[|threads| - 1])
  }

  lemma {:induction false} TotalBecome(threads: seq<Thread>, i: nat, t: Thread, rank: Thread -> nat)
    requires i < |threads|
    ensures Total(threads[i := t], rank) == Total(threads, rank) + rank(t) - rank(threads[i])
  {
    var n := |threads| - 1;
    if i < n {
      TotalBecome(threads[..n], i, t, rank);
      assert threads[i := t][..n] == threads[..n][i := t];
    } else {
      assert threads[i := t][..n] == threads[..n];
    }
  }

  lemma TotalSpawn(threads: seq<Thread>, t: Thread, rank: Thread -> nat)
    ensures Total(threads + [t], rank) == Total(threads, rank) + rank(t)
  {
    assert (threads + [t])[..|threads|] == threads;
  }

  /** The measure: remaining program points, then remaining range elements, then reload goroutines. */
  function Points(s: State): nat { Total(s.threads, PcRank) }

  function Elements(s: State): nat { Total(s.threads, TodoRank) }

  function Reloads(s: State): nat { Total(s.threads, ReloadRank) }

  predicate Smaller(s': State, s: State) {
    || Points(s') < Points(s)
    || (Points(s') == Points(s) && Elements(s') < Elements(s))
    || (Points(s') == Points(s) && Elements(s') == Elements(s) && Reloads(s') < Reloads(s))
  }

  lemma TotalMoves(s: State, s': State, i: nat, rank: Thread -> nat)
    requires ThreadMove(s, s', i) && i < |s.threads|
    ensures Total(s'.threads, rank) == Total(s.threads, rank) + rank(s'.threads[i]) - rank(s.threads[i])
                                     + if |s'.threads| > |s.threads| then rank(s'.threads[|s.threads|]) else 0
  {
    TotalBecome(s.threads, i, s'.threads[i], rank);
    if |s'.threads| > |s.threads| {
      TotalSpawn(s.threads[i := s'.threads[i]], s'.threads[|s.threads|], rank);
    }
  }

  /** Every step of a call already made, whoever takes it, lowers the measure. */
  lemma StepsDescend(s: State, step: Step)
    requires Enabled(s, step) && Internal(step)
    ensures Smaller(Effect(s, step), s)
  {
    hide Effect, Enabled;
    var s', i := Effect(s, step), Actor(s, step);
    StepMoves(s, step);
    ActorExists(s, step);
    TotalMoves(s, s', i, PcRank);
    TotalMoves(s, s', i, TodoRank);
    TotalMoves(s, s', i, ReloadRank);
  }

  lemma ActorExists(s: State, step: Step)
    requires Enabled(s, step) && Internal(step)
    ensures Actor(s, step) < |s.threads|
  {
  }

  /** No schedule runs the calls already made for ever: any infinite sequence of states stops following
      the steps of those calls at some point. */
  lemma {:induction false} NoEndlessSchedule(run: nat -> State, schedule: nat -> Step, from: nat)
    ensures exists k: nat :: k >= from && !Follows(run(k), schedule(k), run(k + 1))
    decreases Points(run(from)), Elements(run(from)), Reloads(run(from))
  {
    if Follows(run(from), schedule(from), run(from + 1)) {
      StepsDescend(run(from), schedule(from));
      NoEndlessSchedule(run, schedule, from + 1);
    }
  }

  predicate Follows(s: State, step: Step, s': State) {
    Internal(step) && Enabled(s, step) && s' == Effect(s, step)
  }

  /** A finite schedule from one state to another. */
  ghost predicate Leads(states: seq<State>, steps: seq<Step>) {
    && |states| == |steps| + 1
    && forall k | 0 <= k < |steps| :: Follows(states[k], steps[k], states[k + 1]) && Polite(states[k], steps[k])
  }

  /** Every `Load` of the schedule returns what its source is given to return. */
  ghost predicate LoadsGive(states: seq<State>, steps: seq<Step>, loads: Source -> LoadResult) {
    forall k | 0 <= k < |steps| && k < |states| :: Gives(states[k], steps[k], loads)
  }

  predicate Gives(s: State, step: Step, loads: Source -> LoadResult) {
    step.LoadReturn? ==>
      step.i < |s.threads| && InLoad(s.threads[step.i]) && step.loaded == loads(s.threads[step.i].src)
  }

  /** The step, with what the source is given to return if it is the return of a `Load`. */
  function Giving(s: State, step: Step, loads: Source -> LoadResult): Step
    requires Enabled(s, step)
  {
    if step.LoadReturn? then LoadReturn(step.i, loads(s.threads[step.i].src)) else step
  }

  lemma GivingIsEnabled(s: State, step: Step, loads: Source -> LoadResult)
    requires Internal(step) && Enabled(s, step) && Polite(s, step)
    ensures var given := Giving(s, step, loads);
      Internal(given) && Enabled(s, given) && Polite(s, given) && Gives(s, given, loads)
  {
  }

  /** From every reachable state the calls already made can all be run to their returns, whatever their loads
      return, and by `NoEndlessSchedule` and `NeverStuck` every schedule of them does so. */
  lemma {:induction false} CallsCanReturn(s: State, loads: Source -> LoadResult)
    returns (states: seq<State>, steps: seq<Step>)
    requires Inv(s)
    ensures Leads(states, steps) && states[0] == s && LoadsGive(states, steps, loads)
    ensures Inv(states[|steps|]) && !Unfinished(states[|steps|])
    decreases Points(s), Elements(s), Reloads(s)
  {
    hide Effect, Enabled, Inv, Polite, Giving, Gives, Leads, Unfinished, Points, Elements, Reloads;
    if !Unfinished(s) {
      states, steps := [s], [];
      LeadsNowhere(s, loads);
      return;
    }
    NeverStuck(s);
    var some :| Internal(some) && Enabled(s, some) && Polite(s, some);
    GivingIsEnabled(s, some, loads);
    var step := Giving(s, some, loads);
    StepsDescend(s, step);
    StepKeepsInv(s, step);
    var rest, tail := CallsCanReturn(Effect(s, step), loads);
    LeadsFrom(s, step, rest, tail, loads);
    LeadsLength(rest, tail);
    states, steps := [s] + rest, [step] + tail;
  }

  lemma LeadsNowhere(s: State, loads: Source -> LoadResult)
    ensures Leads([s], []) && LoadsGive([s], [], loads)
  {
  }

  lemma LeadsLength(states: seq<State>, steps: seq<Step>)
    requires Leads(states, steps)
    ensures |states| == |steps| + 1
  {
  }

  lemma LeadsFrom(s: State, step: Step, rest: seq<State>, tail: seq<Step>, loads: Source -> LoadResult)
    requires Leads(rest, tail) && Follows(s, step, rest[0]) && Polite(s, step)
    requires LoadsGive(rest, tail, loads) && Gives(s, step, loads)
    ensures Leads([s] + rest, [step] + tail) && LoadsGive([s] + rest, [step] + tail, loads)
  {
    hide Effect, Polite, Gives;
    var states, steps := [s] + rest, [step] + tail;
    assert forall k | 0 < k < |steps| :: steps[k] == tail[k - 1] && states[k] == rest[k - 1];
  }
}
