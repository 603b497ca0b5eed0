/** What a store holds when `New` returns (keystore/keystore_constructor.go). */
module LifecycleNew {
  import opened LoadOrder
  import opened Lifecycle
  import opened LifecycleMoves
  import opened LifecycleInvariant
  import opened LifecycleSafety
  import opened LifecycleLoads

  /** No call has been made on the store yet, and no watcher has called back. */
  predicate Quiet(steps: seq<Step>, k: nat)
    requires k <= |steps|
  {
    forall m | 0 <= m < k :: !steps[m].Start? && !steps[m].Fire?
  }

  /** What the goroutines of `loadSources` have stored so far, in the order in which they stored it. */
  function StoredLoads(states: seq<State>, steps: seq<Step>, k: nat): seq<Load>
    requires k <= |steps| < |states|
  {
    if k == 0 then []
    else StoredLoads(states, steps, k - 1) + LoadsOfStep(states[k - 1], steps[k - 1])
  }

  function LoadsOfStep(s: State, step: Step): seq<Load> {
    if step.Run? && step.i < |s.threads| && s.threads[step.i].ReloadStore?
    then [Load(s.threads[step.i].src.id, s.threads[step.i].keys)]
    else []
  }

  /** A goroutine has loaded the source with this ID and stored its keys. */
  ghost predicate DoneFor(s: State, id: string) {
    exists j | 0 <= j < |s.threads| :: s.threads[j].ReloadDone? && s.threads[j].ok && s.threads[j].src.id == id
  }

  /** `New` and its goroutines are alone, and each registered source has at most one goroutine. */
  ghost predicate Alone(s: State) {
    && |s.threads| > 0 && (Constructing(s.threads[0]) || s.threads[0].NewReturned?)
    && (forall id | id in s.sources :: s.sources[id].id == id)
    && Goroutines(s) && OnePerSource(s) && RangeOpen(s)
  }

  ghost predicate Goroutines(s: State) {
    forall j | 0 < j < |s.threads| ::
      IsReload(s.threads[j]) && s.threads[j].parent == 0 && Registered(s, s.threads[j].src)
  }

  ghost predicate OnePerSource(s: State)
    requires Goroutines(s)
  {
    forall i, j | 0 < i < |s.threads| && 0 < j < |s.threads| && s.threads[i].src == s.threads[j].src :: i == j
  }

  /** What `New` still has to hand out is registered and has no goroutine yet. */
  ghost predicate RangeOpen(s: State)
    requires Goroutines(s) && |s.threads| > 0
  {
    s.threads[0].NewSpawn? ==>
      && s.threads[0].todo <= s.sources.Values
      && forall j | 0 < j < |s.threads| :: s.threads[j].src !in s.threads[0].todo
  }

  lemma NoSourceAdded(s: State, s': State, i: nat)
    requires Moves(s, s', i) && Alone(s) && i < |s.threads|
    ensures s'.sources == s.sources
  {
    hide LockMove, MutexMove, CloseMove, DetachMove, NewMove, Descends, Next, ThreadMove;
  }

  lemma SpawnedByNew(s: State, s': State, i: nat)
    requires Moves(s, s', i) && Alone(s) && i < |s.threads| < |s'.threads|
    ensures i == 0 && s.threads[0].NewSpawn? && s'.threads[0].NewSpawn?
    ensures HandsOut(s, s', 0, s.threads[0].todo, s'.threads[0].todo)
  {
    hide LockMove, MutexMove, BindMove, CloseMove, DetachMove, NewMove, Descends, HandsOut;
  }

  lemma NewThreadMoves(s: State, s': State)
    requires Moves(s, s', 0) && Alone(s)
    ensures Constructing(s'.threads[0]) || s'.threads[0].NewReturned? || s'.threads[0].CloseEnter?
    ensures s'.threads[0].NewSpawn? ==> s.threads[0].NewSpawn? && |s'.threads| > |s.threads|
  {
    hide LockMove, MutexMove, BindMove, CloseMove, DetachMove, ThreadMove;
  }

  lemma GoroutineStaysAlone(s: State, s': State, i: nat)
    requires Moves(s, s', i) && Alone(s) && 0 < i < |s.threads|
    ensures Alone(s')
  {
    hide Moves, Constructing;
    OthersStay(s, s', i);
    NoSourceAdded(s, s', i);
    assert IsReload(s.threads[i]);
    GoroutineMoves(s, s', i);
    if |s'.threads| > |s.threads| { SpawnedByNew(s, s', i); }
    SameGoroutines(s, s');
  }

  lemma SameGoroutines(s: State, s': State)
    requires Alone(s) && |s'.threads| == |s.threads| && s'.sources == s.sources && s'.threads[0] == s.threads[0]
    requires forall j | 0 < j < |s.threads| ::
      IsReload(s'.threads[j]) && s'.threads[j].parent == 0 && s'.threads[j].src == s.threads[j].src
    ensures Alone(s')
  {
    hide Constructing;
    forall j | 0 < j < |s.threads| ensures Registered(s', s'.threads[j].src) {
      assert Registered(s, s.threads[j].src);
    }
    assert Goroutines(s');
    assert OnePerSource(s');
  }

  lemma NewStaysAlone(s: State, s': State)
    requires Moves(s, s', 0) && Alone(s) && !s'.threads[0].CloseEnter?
    ensures Alone(s')
  {
    hide Moves, Constructing, HandsOut;
    OthersStay(s, s', 0);
    NoSourceAdded(s, s', 0);
    NewThreadMoves(s, s');
    forall j | 0 < j < |s.threads| ensures IsReload(s'.threads[j]) && Registered(s', s'.threads[j].src) {
      assert IsReload(s.threads[j]) && Registered(s, s.threads[j].src);
    }
    if |s'.threads| > |s.threads| {
      SpawnedByNew(s, s', 0);
      HandedOutIsFresh(s, s');
    } else {
      assert Goroutines(s');
    }
  }

  lemma HandedOutIsFresh(s: State, s': State)
    requires Alone(s) && Others(s, s', 0) && s'.sources == s.sources
    requires s.threads[0].NewSpawn? && s'.threads[0].NewSpawn?
    requires HandsOut(s, s', 0, s.threads[0].todo, s'.threads[0].todo)
    ensures Alone(s')
  {
    var n := |s.threads|;
    var src := s'.threads[n].src;
    assert src in s.sources.Values;
    assert Registered(s', src);
    forall j | 0 < j < |s'.threads|
      ensures IsReload(s'.threads[j]) && s'.threads[j].parent == 0 && Registered(s', s'.threads[j].src)
    {
      assert j < n ==> IsReload(s.threads[j]) && Registered(s, s.threads[j].src);
    }
    assert Goroutines(s');
  }

  lemma StaysAlone(s: State, s': State, i: nat)
    requires Moves(s, s', i) && Alone(s) && i < |s.threads|
    ensures |s'.threads| > 0 && (Alone(s') || KindOf(s'.threads[0]) == CloseKind)
  {
    hide Moves, Alone;
    OthersStay(s, s', i);
    if i > 0 {
      GoroutineStaysAlone(s, s', i);
    } else if !s'.threads[0].CloseEnter? {
      NewStaysAlone(s, s');
    }
  }

  lemma CloseStays(s: State, s': State, i: nat)
    requires Moves(s, s', i) && i < |s.threads| && KindOf(s.threads[0]) == CloseKind
    ensures |s'.threads| > 0 && KindOf(s'.threads[0]) == CloseKind
  {
    hide LockMove, MutexMove, BindMove, CloseMove, DetachMove, Descends, Next;
    OthersStay(s, s', i);
  }

  lemma {:induction false} AloneUntilCalled(states: seq<State>, steps: seq<Step>, k: nat)
    requires IsRun(states, steps) && k < |states| && Quiet(steps, k)
    ensures |states[k].threads| > 0
    ensures Alone(states[k]) || KindOf(states[k].threads[0]) == CloseKind
  {
    hide Effect, Enabled, Moves, Alone;
    if k == 0 {
      StartsAlone(states[0]);
    } else {
      AloneUntilCalled(states, steps, k - 1);
      var s, step := states[k - 1], steps[k - 1];
      StepMoves(s, step);
      InternalActor(s, step);
      if Alone(s) { StaysAlone(s, states[k], Actor(s, step)); } else { CloseStays(s, states[k], Actor(s, step)); }
    }
  }

  lemma StartsAlone(s: State)
    requires Init(s)
    ensures |s.threads| > 0 && (Alone(s) || KindOf(s.threads[0]) == CloseKind)
  {
  }

  lemma InternalActor(s: State, step: Step)
    requires Enabled(s, step) && !step.Start? && !step.Fire?
    ensures Actor(s, step) < |s.threads|
  {
  }

  // ----- the history

  /** The stores so far are the repository, one for each source that a goroutine is done with. */
  ghost predicate HistoryOf(s: State, loads: seq<Load>) {
    && s.repository == StoredAll([], loads)
    && DistinctSources(loads)
    && forall id :: NamesSource(loads, id) <==> DoneFor(s, id)
  }

  lemma OneMoreStore(s: State, loads: seq<Load>, load: Load)
    requires s.repository == StoredAll([], loads)
    ensures StoredAll([], loads + [load]) == Stored(s.repository, load)
  {
    assert (loads + [load])[..|loads|] == loads;
  }

  lemma NamesOneMore(loads: seq<Load>, load: Load, id: string)
    ensures NamesSource(loads + [load], id) <==> NamesSource(loads, id) || id == load.source
  {
    var all := loads + [load];
    assert all[|loads|] == load;
    if NamesSource(loads, id) {
      var i :| 0 <= i < |loads| && loads[i].source == id;
      assert all[i].source == id;
    }
    if i :| 0 <= i < |all| && all[i].source == id {
      assert i < |loads| ==> loads[i].source == id;
    }
  }

  /** The goroutines that are done change only by the step of one that stores. */
  lemma DoneChanges(s: State, step: Step, id: string)
    requires Enabled(s, step) && !step.Start? && !step.Fire?
    ensures DoneFor(Effect(s, step), id) <==>
      DoneFor(s, id) || (LoadsOfStep(s, step) != [] && LoadsOfStep(s, step)[0].source == id)
  {
    hide Effect, Enabled;
    var s' := Effect(s, step);
    InternalActor(s, step);
    ThreadsStay(s, step);
    if DoneFor(s, id) {
      var j :| 0 <= j < |s.threads| && s.threads[j].ReloadDone? && s.threads[j].ok && s.threads[j].src.id == id;
      DoneNeverMoves(s, step, j);
      assert s'.threads[j].ReloadDone? && s'.threads[j].ok && s'.threads[j].src.id == id;
    }
    if LoadsOfStep(s, step) != [] {
      StoringFinishes(s, step);
      var j, src := step.i, s.threads[step.i].src;
      assert s'.threads[j].ReloadDone? && s'.threads[j].ok && s'.threads[j].src == src;
    }
    if j :| 0 <= j < |s'.threads| && s'.threads[j].ReloadDone? && s'.threads[j].ok && s'.threads[j].src.id == id {
      if j < |s.threads| && s.threads[j].ReloadDone? {
        DoneNeverMoves(s, step, j);
        assert s.threads[j].ok && s.threads[j].src.id == id;
      } else {
        FinishStores(s, step, j);
      }
    }
  }

  lemma ThreadsStay(s: State, step: Step)
    requires Enabled(s, step)
    ensures |s.threads| <= |Effect(s, step).threads|
  {
    hide Effect, Enabled, Moves;
    StepMoves(s, step);
    OthersStay(s, Effect(s, step), Actor(s, step));
  }

  lemma StoringFinishes(s: State, step: Step)
    requires Enabled(s, step) && LoadsOfStep(s, step) != []
    ensures var t, t' := s.threads[step.i], Effect(s, step).threads[step.i]; t' == ReloadDone(t.parent, t.src, true)
  {
    hide Effect, Enabled, Moves;
    StepMoves(s, step);
    Took(s, Effect(s, step), step.i);
  }

  /** While `New` is alone, only the goroutines write. */
  lemma OnlyGoroutinesWrite(s: State, step: Step)
    requires Enabled(s, step) && Alone(s)
    ensures Effect(s, step).repository ==
      if LoadsOfStep(s, step) == [] then s.repository else Stored(s.repository, LoadsOfStep(s, step)[0])
  {
    hide Effect, Stored;
    StepWrites(s, step);
  }

  lemma StorerIsNew(s: State, step: Step)
    requires Enabled(s, step) && Alone(s) && LoadsOfStep(s, step) != []
    ensures !DoneFor(s, LoadsOfStep(s, step)[0].source)
  {
    hide Enabled;
    var i := step.i;
    var src := s.threads[i].src;
    assert i > 0 && Registered(s, src);
    forall j | 0 < j < |s.threads| && j != i ensures s.threads[j].src.id != src.id {
      assert Registered(s, s.threads[j].src);
    }
  }

  lemma HistoryGrows(s: State, step: Step, loads: seq<Load>)
    requires Enabled(s, step) && Alone(s) && HistoryOf(s, loads) && !step.Start? && !step.Fire?
    ensures HistoryOf(Effect(s, step), loads + LoadsOfStep(s, step))
  {
    hide Effect, Enabled, Alone, LoadsOfStep, StoredAll, DoneFor, NamesSource, Stored;
    var s', more := Effect(s, step), LoadsOfStep(s, step);
    OnlyGoroutinesWrite(s, step);
    forall id ensures NamesSource(loads + more, id) <==> DoneFor(s', id) {
      DoneChanges(s, step, id);
      if more == [] { assert loads + more == loads; } else { OneAtATime(s, step); NamesOneMore(loads, more[0], id); }
    }
    if more == [] {
      assert loads + more == loads;
    } else {
      OneAtATime(s, step);
      StorerIsNew(s, step);
      OneMoreStore(s, loads, more[0]);
      StaysDistinct(loads, more[0]);
    }
  }

  lemma OneAtATime(s: State, step: Step)
    ensures LoadsOfStep(s, step) != [] ==> LoadsOfStep(s, step) == [LoadsOfStep(s, step)[0]]
  {
  }

  lemma StaysDistinct(loads: seq<Load>, load: Load)
    requires DistinctSources(loads) && !NamesSource(loads, load.source)
    ensures DistinctSources(loads + [load])
  {
    forall i | 0 <= i < |loads| ensures loads[i].source != load.source {
      assert NamesSource(loads, loads[i].source);
    }
  }

  lemma {:induction false} HistoryUntilCalled(states: seq<State>, steps: seq<Step>, k: nat)
    requires IsRun(states, steps) && k < |states| && Quiet(steps, k) && Alone(states[k])
    ensures HistoryOf(states[k], StoredLoads(states, steps, k))
  {
    hide Effect, Enabled, Alone, LoadsOfStep, HistoryOf;
    if k == 0 {
      HistoryStarts(states[0]);
    } else {
      var s, step := states[k - 1], steps[k - 1];
      AloneUntilCalled(states, steps, k - 1);
      if !Alone(s) {
        ClosingStays(s, step);
        AloneIsNoClose(states[k]);
      }
      HistoryUntilCalled(states, steps, k - 1);
      HistoryGrows(s, step, StoredLoads(states, steps, k - 1));
    }
  }

  lemma HistoryStarts(s: State)
    requires Init(s)
    ensures HistoryOf(s, [])
  {
  }

  lemma AloneIsNoClose(s: State)
    requires Alone(s)
    ensures KindOf(s.threads[0]) != CloseKind
  {
  }

  lemma ClosingStays(s: State, step: Step)
    requires Enabled(s, step) && !step.Start? && !step.Fire? && |s.threads| > 0 && KindOf(s.threads[0]) == CloseKind
    ensures |Effect(s, step).threads| > 0 && KindOf(Effect(s, step).threads[0]) == CloseKind
  {
    hide Effect, Enabled, Moves, KindOf;
    StepMoves(s, step);
    InternalActor(s, step);
    CloseStays(s, Effect(s, step), Actor(s, step));
  }

  // ----- the contents

  /** The sources that are done are all the registered ones. */
  ghost predicate AllDone(s: State) { forall id :: DoneFor(s, id) <==> id in s.sources }

  lemma DoneIsRegistered(s: State, id: string)
    requires Alone(s) && DoneFor(s, id)
    ensures id in s.sources
  {
    var j :| 0 <= j < |s.threads| && s.threads[j].ReloadDone? && s.threads[j].ok && s.threads[j].src.id == id;
    assert j > 0 && Registered(s, s.threads[j].src);
  }

  lemma AttachingIsAllDone(s: State)
    requires Alone(s) && RoundsInv(s) && s.threads[0].NewAttach?
    ensures AllDone(s)
  {
    assert RoundOk(s, 0);
    forall id ensures DoneFor(s, id) <==> id in s.sources {
      if DoneFor(s, id) { DoneIsRegistered(s, id); }
      if id in s.sources {
        assert Registered(s, s.sources[id]);
        var j :| 0 <= j < |s.threads| && s.threads[j] == ReloadDone(0, s.sources[id], true);
        assert s.threads[j].ReloadDone? && s.threads[j].ok && s.threads[j].src.id == id;
      }
    }
  }

  lemma ReturnedComesFrom(s: State, step: Step)
    requires Enabled(s, step) && !step.Start? && !step.Fire? && Alone(s)
    requires |Effect(s, step).threads| > 0 && Effect(s, step).threads[0].NewReturned?
    ensures s.threads[0].NewReturned? || s.threads[0].NewAttach?
    ensures Effect(s, step).sources == s.sources
  {
    hide Effect, Enabled, Moves;
    StepMoves(s, step);
    InternalActor(s, step);
    OthersStay(s, Effect(s, step), Actor(s, step));
    NoSourceAdded(s, Effect(s, step), Actor(s, step));
    Took(s, Effect(s, step), Actor(s, step));
  }

  lemma {:induction false} AllDoneUntilCalled(states: seq<State>, steps: seq<Step>, k: nat)
    requires IsRun(states, steps) && k < |states| && Quiet(steps, k) && Alone(states[k])
    requires states[k].threads[0].NewAttach? || states[k].threads[0].NewReturned?
    ensures AllDone(states[k])
  {
    hide Effect, Enabled, Alone, Inv, RoundsInv, LoadsOfStep, DoneFor;
    AloneUntilCalled(states, steps, k);
    if states[k].threads[0].NewAttach? {
      RunKeepsRounds(states, steps, k);
      AttachingIsAllDone(states[k]);
    } else if k > 0 {
      var s, step := states[k - 1], steps[k - 1];
      AloneUntilCalled(states, steps, k - 1);
      if !Alone(s) {
        ClosingStays(s, step);
        AloneIsNoClose(states[k]);
      }
      ReturnedComesFrom(s, step);
      AllDoneUntilCalled(states, steps, k - 1);
      forall id ensures DoneFor(states[k], id) <==> id in states[k].sources {
        DoneChanges(s, step, id);
        if DoneFor(states[k], id) { DoneIsRegistered(states[k], id); }
      }
    }
  }

  /** When `New` returns, and until a call is made or a watcher calls back, the repository is what the
      goroutines have stored, in the order in which they did: one load for each registered source, and for
      nothing else. If no load carries a key that names another load's source, the repository holds exactly
      the loaded keys, whatever the interleaving. */
  lemma NewHoldsWhatWasLoaded(states: seq<State>, steps: seq<Step>, k: nat)
    requires IsRun(states, steps) && k < |states| && Quiet(steps, k)
    requires |states[k].threads| > 0 && (states[k].threads[0].NewAttach? || states[k].threads[0].NewReturned?)
    ensures var s, loads := states[k], StoredLoads(states, steps, k);
      && s.repository == StoredAll([], loads)
      && DistinctSources(loads)
      && (forall id :: NamesSource(loads, id) <==> id in s.sources)
      && (NoForeignKeys(loads) ==> forall key :: multiset(s.repository)[key] == Copies(loads, key))
  {
    hide Alone, LoadsOfStep, DoneFor, StoredLoads, StoredAll, NoForeignKeys, Copies;
    var s, loads := states[k], StoredLoads(states, steps, k);
    AloneUntilCalled(states, steps, k);
    HistoryUntilCalled(states, steps, k);
    AllDoneUntilCalled(states, steps, k);
    if NoForeignKeys(loads) {
      forall key ensures multiset(s.repository)[key] == Copies(loads, key) { FinalContents([], loads, key); }
    }
  }
}
