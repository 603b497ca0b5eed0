/** What the result of each call means, over whole runs. */
module LifecycleOutcomes {
  import opened Wrappers
  import opened Keys
  import opened LoadOrder
  import Text
  import opened Lifecycle
  import opened LifecycleMoves
  import opened LifecycleInvariant
  import opened LifecycleSafety
  import opened LifecycleLoads
  import opened LifecycleProgress

  // ----- how calls start

  /** A published store takes every call. A bind goes to its reservation unless its source is nil or has an ID
      of nothing but white space, which is rejected with nothing changed. */
  lemma CallsStart(s: State, call: Call)
    requires s.published
    ensures Enabled(s, Start(call))
    ensures var s' := Effect(s, Start(call));
      && s' == s.(threads := s'.threads) && |s'.threads| == |s.threads| + 1 && s'.threads[..|s.threads|] == s.threads
      && var t := s'.threads[|s.threads|];
      match call
      case CallBind(source) =>
        if source.Some? && exists i | 0 <= i < |source.value.id| :: !Text.IsSpace(source.value.id[i])
        then t == BindEnter(source.value) else t == BindRejected
      case CallClose => t == CloseEnter
      case CallRefreshAll => t == RefreshEnter
  {
  }

  /** A watcher can call whenever its source holds a callback and nobody holds the source's mutex. */
  lemma WatchersCanCall(s: State, src: Source, r: LoadResult)
    requires src in s.callbacks && src !in s.held
    ensures Enabled(s, Fire(src, r))
    ensures var s' := Effect(s, Fire(src, r)); s'.threads == s.threads + [CallbackEnter(src, r)]
  {
  }

  /** The lock lets in one writer or any number of readers, and it keeps out nobody else. */
  lemma LocksAdmitExactly(s: State, i: nat)
    requires i < |s.threads|
    ensures WantsWrite(s.threads[i]) ==> (Enabled(s, Run(i)) <==> s.writer == None && s.readers == {})
    ensures WantsRead(s.threads[i]) ==> (Enabled(s, Run(i)) <==> s.writer == None)
  {
  }

  /** A call of a source's method waits for the source's mutex and for nothing else; setting or removing a
      callback waits only for sources that refresh themselves, since it does nothing for others. */
  lemma MethodsWaitExactly(s: State, i: nat, src: Source)
    requires i < |s.threads|
    ensures var t, free := s.threads[i], src !in s.held;
      && (t == BindLoad(src) ==> (Enabled(s, Run(i)) <==> free))
      && (t.ReloadLoad? && t.src == src ==> (Enabled(s, Run(i)) <==> free))
      && (t.CloseCancel? ==> (Enabled(s, Pick(i, src)) <==> src in t.todo && free))
      && (t.CloseRelease? && t.src == src ==> (Enabled(s, Run(i)) <==> free))
      && (t == BindAttach(src) ==> (Enabled(s, Run(i)) <==> src.selfRefreshing ==> free))
      && (t.CloseDetach? || t.NewAttach? ==>
            (Enabled(s, Pick(i, src)) <==> src in t.todo && (src.selfRefreshing ==> free)))
    ensures forall r :: Enabled(s, Fire(src, r)) <==> src in s.callbacks && src !in s.held
  {
  }

  /** The other waits: for the binds in flight, for the goroutines of a round, and for the `Close` that runs. */
  lemma WaitsExactly(s: State, i: nat)
    requires i < |s.threads|
    ensures var t, can := s.threads[i], Enabled(s, Run(i));
      && (t.CloseWait? ==> (can <==> s.bindWG == 0))
      && (t.CloseEnter? ==> (can <==> s.once == NotRun || s.once == Ran))
      && (t.RefreshWait? || t.NewWait? ==>
            (can <==> forall j | 0 <= j < |s.threads| :: !(Reloading(s.threads[j]) && s.threads[j].parent == i)))
      && (t.CloseCancel? || t.CloseDetach? || t.RefreshSpawn? || t.NewSpawn? || t.NewAttach? ==>
            (can <==> t.todo == {}))
  {
  }

  // ----- one step

  predicate SameKind(t: Thread, t': Thread) { KindOf(t') == KindOf(t) || t'.CloseEnter? }

  /** A thread that differs after a step has taken it. */
  lemma ActsOrStays(s: State, step: Step, i: nat)
    requires Enabled(s, step) && i < |Effect(s, step).threads|
    ensures
      || (i < |s.threads| && Effect(s, step).threads[i] == s.threads[i])
      || (Actor(s, step) == i && Next(s, Effect(s, step), i, Was(s, i), Effect(s, step).threads[i])
          && (i < |s.threads| ==> !Finished(s.threads[i]) && SameKind(s.threads[i], Effect(s, step).threads[i])))
      || (i >= |s.threads| && Effect(s, step).threads[i].ReloadLoad?)
  {
    hide Effect, Enabled, Moves, Next, KindOf;
    StepMoves(s, step);
    OthersStay(s, Effect(s, step), Actor(s, step));
    Took(s, Effect(s, step), Actor(s, step));
    if i == Actor(s, step) < |s.threads| { ActorIsUnfinished(s, Effect(s, step), i); }
  }

  lemma ActorIsUnfinished(s: State, s': State, i: nat)
    requires Moves(s, s', i) && i < |s.threads|
    ensures !Finished(s.threads[i])
  {
    hide LockMove, MutexMove, BindMove, CloseMove, DetachMove, NewMove, Next, ThreadMove;
  }

  predicate OnlyRuns(t: Thread) {
    t.BindReserve? || t.BindCommit? || t.ReloadStore? || t.CallbackBody? || t.RefreshCheck? || t.NewWait?
  }

  /** Which step a thread at these points takes. */
  lemma StepAt(s: State, step: Step, i: nat)
    requires Enabled(s, step) && i < |s.threads| && Actor(s, step) == i
    ensures OnlyRuns(s.threads[i]) ==> step == Run(i)
    ensures InLoad(s.threads[i]) ==> step.LoadReturn? && step.i == i
  {
  }

  lemma LoadGives(s: State, i: nat, r: LoadResult)
    requires Enabled(s, LoadReturn(i, r))
    ensures var t, t' := s.threads[i], Effect(s, LoadReturn(i, r)).threads[i];
      && (t.BindLoading? ==> t' == BindLoaded(t.src, r))
      && (t.ReloadLoading? && r.Loaded? ==> t' == ReloadStore(t.parent, t.src, r.keys))
      && (t.ReloadLoading? && r.LoadFailed? ==> t' == ReloadDone(t.parent, t.src, false))
  {
    hide RunEffect, PickEffect;
  }

  // ----- Bind

  predicate PastReserve(t: Thread) { InFlight(t) || t.BindReturned? }

  predicate HasResult(t: Thread) { t.BindLoaded? || t.BindCommit? }

  predicate PastCommit(t: Thread) {
    t.BindAttach? || ((t.BindSignal? || t.BindReturned?) && t.outcome in {Bound, Failed, Interrupted})
  }

  predicate OutcomeIs(t: Thread, outcome: BindOutcome) { (t.BindSignal? || t.BindReturned?) && t.outcome == outcome }

  predicate Taken(s: State, id: string) { id in s.sources || id in s.loading }

  /** What the reservation decides. */
  predicate Reserves(s: State, step: Step, i: nat, t: Thread)
    requires PastReserve(t)
  {
    && step == Run(i) && i < |s.threads| && s.threads[i] == BindReserve(t.src)
    && (OutcomeIs(t, Refused) <==> s.closed)
    && (OutcomeIs(t, Duplicate) <==> !s.closed && Taken(s, t.src.id))
  }

  lemma ReserveStep(s: State, step: Step, i: nat)
    requires Enabled(s, step) && i < |Effect(s, step).threads| && PastReserve(Effect(s, step).threads[i])
    ensures var t' := Effect(s, step).threads[i];
      || Reserves(s, step, i, t')
      || (i < |s.threads| && PastReserve(s.threads[i]) && s.threads[i].src == t'.src
          && (OutcomeIs(s.threads[i], Refused) <==> OutcomeIs(t', Refused))
          && (OutcomeIs(s.threads[i], Duplicate) <==> OutcomeIs(t', Duplicate)))
  {
    hide Effect, Enabled;
    ActsOrStays(s, step, i);
    if i < |s.threads| && Actor(s, step) == i { StepAt(s, step, i); }
  }

  lemma {:induction false} ReserveOf(states: seq<State>, steps: seq<Step>, k: nat, i: nat) returns (r: nat)
    requires IsRun(states, steps) && k < |states| && i < |states[k].threads| && PastReserve(states[k].threads[i])
    ensures r < k && Reserves(states[r], steps[r], i, states[k].threads[i])
  {
    hide Effect, Enabled, PastReserve, OutcomeIs, Taken;
    if k == 0 {
      StartsBare(states[0], i);
    } else {
      ReserveStep(states[k - 1], steps[k - 1], i);
      if Reserves(states[k - 1], steps[k - 1], i, states[k].threads[i]) {
        r := k - 1;
      } else {
        r := ReserveOf(states, steps, k - 1, i);
      }
    }
  }

  lemma StartsBare(s: State, i: nat)
    requires Init(s) && i < |s.threads|
    ensures !PastReserve(s.threads[i]) && !IsReload(s.threads[i])
    ensures !s.threads[i].CallbackBody? && !s.threads[i].CallbackReturned? && !s.threads[i].RefreshRefused?
  {
  }

  /** The `Load` of the bind has returned at step `l`. */
  lemma ResultStep(s: State, step: Step, i: nat)
    requires Enabled(s, step) && i < |Effect(s, step).threads| && HasResult(Effect(s, step).threads[i])
    ensures i < |s.threads|
    ensures var t, t' := s.threads[i], Effect(s, step).threads[i];
      || (HasResult(t) && t.src == t'.src && t.result == t'.result)
      || (step == LoadReturn(i, t'.result) && t == BindLoading(t'.src))
  {
    hide Effect, Enabled;
    ActsOrStays(s, step, i);
    if i < |s.threads| && Actor(s, step) == i {
      StepAt(s, step, i);
      if InLoad(s.threads[i]) { LoadGives(s, i, step.loaded); }
    }
  }

  lemma {:induction false} ResultOf(states: seq<State>, steps: seq<Step>, k: nat, i: nat) returns (l: nat)
    requires IsRun(states, steps) && k < |states| && i < |states[k].threads| && HasResult(states[k].threads[i])
    ensures l < k && steps[l] == LoadReturn(i, states[k].threads[i].result)
    ensures i < |states[l].threads| && states[l].threads[i] == BindLoading(states[k].threads[i].src)
  {
    hide Effect, Enabled, PastReserve;
    if k == 0 {
      StartsBare(states[0], i);
      HasResultIsPast(states[0].threads[i]);
    } else {
      ResultStep(states[k - 1], steps[k - 1], i);
      if HasResult(states[k - 1].threads[i]) {
        l := ResultOf(states, steps, k - 1, i);
      } else {
        l := k - 1;
      }
    }
  }

  lemma HasResultIsPast(t: Thread)
    requires HasResult(t) || PastCommit(t)
    ensures PastReserve(t)
  {
  }

  /** What the commit decides. */
  predicate Decides(s: State, step: Step, i: nat, t: Thread)
    requires PastCommit(t)
  {
    && step == Run(i) && i < |s.threads| && s.threads[i].BindCommit? && s.threads[i].src == t.src
    && (OutcomeIs(t, Failed) <==> s.threads[i].result.LoadFailed?)
    && (OutcomeIs(t, Interrupted) <==> s.threads[i].result.Loaded? && s.closed)
    && (t.BindAttach? || OutcomeIs(t, Bound) <==> s.threads[i].result.Loaded? && !s.closed)
  }

  lemma CommitStep(s: State, step: Step, i: nat)
    requires Enabled(s, step) && i < |Effect(s, step).threads| && PastCommit(Effect(s, step).threads[i])
    ensures i < |s.threads|
    ensures var t, t' := s.threads[i], Effect(s, step).threads[i];
      || Decides(s, step, i, t')
      || (PastCommit(t) && t.src == t'.src
          && (OutcomeIs(t, Failed) <==> OutcomeIs(t', Failed))
          && (OutcomeIs(t, Interrupted) <==> OutcomeIs(t', Interrupted))
          && (t.BindAttach? || OutcomeIs(t, Bound) <==> t'.BindAttach? || OutcomeIs(t', Bound)))
  {
    hide Effect, Enabled;
    ActsOrStays(s, step, i);
    if i < |s.threads| && Actor(s, step) == i { StepAt(s, step, i); }
  }

  lemma {:induction false} CommitOf(states: seq<State>, steps: seq<Step>, k: nat, i: nat) returns (c: nat)
    requires IsRun(states, steps) && k < |states| && i < |states[k].threads| && PastCommit(states[k].threads[i])
    ensures c < k && Decides(states[c], steps[c], i, states[k].threads[i])
  {
    hide Effect, Enabled, PastReserve, PastCommit, OutcomeIs;
    if k == 0 {
      StartsBare(states[0], i);
      HasResultIsPast(states[0].threads[i]);
    } else {
      CommitStep(states[k - 1], steps[k - 1], i);
      if Decides(states[k - 1], steps[k - 1], i, states[k].threads[i]) {
        c := k - 1;
      } else {
        c := CommitOf(states, steps, k - 1, i);
      }
    }
  }

  /** What each result of a `Bind` that got past its checks of the source means: ErrClosed before the
      reservation if and only if the store was closed at it; "already bound" if and only if the store was open
      and the ID registered or reserved; otherwise the bind was accepted, and then its load returned and it
      came to its commit. It failed if and only if its own load failed, was turned away as ErrClosed if and
      only if the load succeeded and the store was closed at the commit, and is bound if and only if the load
      succeeded and the store was open. */
  lemma BindOutcomes(states: seq<State>, steps: seq<Step>, k: nat, i: nat) returns (r: nat, l: nat, c: nat)
    requires IsRun(states, steps) && k < |states| && i < |states[k].threads| && states[k].threads[i].BindReturned?
    ensures var src, outcome := states[k].threads[i].src, states[k].threads[i].outcome;
      && r < k && steps[r] == Run(i) && i < |states[r].threads| && states[r].threads[i] == BindReserve(src)
      && (outcome == Refused <==> states[r].closed)
      && (outcome == Duplicate <==> !states[r].closed && Taken(states[r], src.id))
      && (!states[r].closed && !Taken(states[r], src.id) ==>
            && r < l < c < k && steps[l].LoadReturn? && steps[l].i == i
            && i < |states[l].threads| && states[l].threads[i] == BindLoading(src)
            && steps[c] == Run(i) && i < |states[c].threads| && states[c].threads[i] == BindCommit(src, steps[l].loaded)
            && (outcome == Failed <==> steps[l].loaded.LoadFailed?)
            && (outcome == Interrupted <==> steps[l].loaded.Loaded? && states[c].closed)
            && (outcome == Bound <==> steps[l].loaded.Loaded? && !states[c].closed))
  {
    hide Effect, Enabled, IsRun, Taken;
    var t := states[k].threads[i];
    l, c := 0, 0;
    r := ReserveOf(states, steps, k, i);
    if t.outcome in {Bound, Failed, Interrupted} {
      c := CommitOf(states, steps, k, i);
      l := ResultOf(states, steps, c, i);
      r := ReserveOf(states, steps, l, i);
    }
  }

  lemma CommitAttaches(s: State, i: nat)
    requires Enabled(s, Run(i)) && s.threads[i].BindCommit? && s.threads[i].result.Loaded? && !s.closed
    ensures i < |Effect(s, Run(i)).threads| && PastCommit(Effect(s, Run(i)).threads[i])
  {
    hide Effect, Moves;
    StepMoves(s, Run(i));
    Took(s, Effect(s, Run(i)), i);
  }

  /** So without a `Close`, a bind of a free ID whose load succeeds ends bound, with its source registered and
      its keys the ones the commit left in the repository for it. */
  lemma OpenBindSucceeds(states: seq<State>, steps: seq<Step>, k: nat, i: nat) returns (r: nat, l: nat, c: nat)
    requires IsRun(states, steps) && k < |states| && i < |states[k].threads| && states[k].threads[i].BindReturned?
    requires !states[k].closed
    ensures r < k && i < |states[r].threads| && states[r].threads[i] == BindReserve(states[k].threads[i].src)
    ensures !Taken(states[r], states[k].threads[i].src.id) ==>
      && r < l < c < k && steps[l].LoadReturn? && steps[l].i == i
      && (steps[l].loaded.Loaded? ==>
            && states[k].threads[i].outcome == Bound && Registered(states[k], states[k].threads[i].src)
            && i < |states[c + 1].threads| && PastCommit(states[c + 1].threads[i])
            && Holds(multiset(states[c + 1].repository), states[k].threads[i].src.id, steps[l].loaded.keys))
  {
    hide Effect, Enabled, Taken, Holds, Registered, Stored;
    r, l, c := BindOutcomes(states, steps, k, i);
    var src := states[k].threads[i].src;
    if states[r].closed { ClosedStays(states, steps, r, k); }
    if !Taken(states[r], src.id) {
      if states[c].closed { ClosedStays(states, steps, c, k); }
      if steps[l].loaded.Loaded? {
        var m := BoundIsStored(states, steps, k, i);
        StepWrites(states[c], steps[c]);
        CommitAttaches(states[c], i);
        StoredHolds(states[c].repository, src.id, steps[l].loaded.keys);
      }
    }
  }

  // ----- goroutines, callbacks, RefreshAll and New

  predicate Reloaded(t: Thread) { t.ReloadStore? || t.ReloadDone? }

  lemma ReloadStep(s: State, step: Step, j: nat)
    requires Enabled(s, step) && j < |Effect(s, step).threads| && Reloaded(Effect(s, step).threads[j])
    ensures j < |s.threads| && IsReload(s.threads[j])
    ensures var t, t' := s.threads[j], Effect(s, step).threads[j];
      && t.src == t'.src
      && if Reloaded(t) then
           && ((t.ReloadStore? || t.ok) <==> (t'.ReloadStore? || t'.ok))
           && (t'.ReloadStore? ==> t == t')
         else
           && t.ReloadLoading? && step.LoadReturn? && step.i == j
           && (step.loaded.Loaded? <==> (t'.ReloadStore? || t'.ok))
           && (t'.ReloadStore? ==> t'.keys == step.loaded.keys)
  {
    hide Effect, Enabled;
    ActsOrStays(s, step, j);
    if j < |s.threads| && Actor(s, step) == j {
      StepAt(s, step, j);
      if InLoad(s.threads[j]) { LoadGives(s, j, step.loaded); }
    }
  }

  /** A goroutine of `loadSources` fails if and only if its `Load` does, and what it stores is what its `Load`
      returned. */
  lemma {:induction false} ReloadOutcome(states: seq<State>, steps: seq<Step>, k: nat, j: nat) returns (l: nat)
    requires IsRun(states, steps) && k < |states| && j < |states[k].threads| && Reloaded(states[k].threads[j])
    ensures l < k && steps[l].LoadReturn? && steps[l].i == j
    ensures j < |states[l].threads| && states[l].threads[j].ReloadLoading?
    ensures states[l].threads[j].src == states[k].threads[j].src
    ensures var t := states[k].threads[j];
      && (steps[l].loaded.Loaded? <==> (t.ReloadStore? || t.ok))
      && (t.ReloadStore? ==> t.keys == steps[l].loaded.keys)
  {
    hide Effect, Enabled, PastReserve;
    if k == 0 {
      StartsBare(states[0], j);
    } else {
      ReloadStep(states[k - 1], steps[k - 1], j);
      if Reloaded(states[k - 1].threads[j]) {
        l := ReloadOutcome(states, steps, k - 1, j);
      } else {
        l := k - 1;
      }
    }
  }

  lemma CallbackStep(s: State, step: Step, i: nat)
    requires Enabled(s, step) && i < |Effect(s, step).threads|
    ensures var t' := Effect(s, step).threads[i];
      && (t'.CallbackReturned? ==>
            && i < |s.threads|
            && (|| s.threads[i] == t'
                || (&& step == Run(i) && s.threads[i].CallbackBody?
                    && t'.ok == (!s.closed && s.threads[i].result.Loaded?))))
      && (t'.CallbackBody? ==>
            i < |s.threads| && (s.threads[i] == t' || s.threads[i] == CallbackEnter(t'.src, t'.result)))
      && (t'.CallbackEnter? ==>
            (i < |s.threads| && s.threads[i] == t') || step == Fire(t'.src, t'.result))
  {
    hide Effect, Enabled;
    ActsOrStays(s, step, i);
    if i < |s.threads| && Actor(s, step) == i { StepAt(s, step, i); }
    StartGives(s, step);
    match step
    case Start(_) =>
    case Fire(_, _) =>
    case _ => OtherActor(s, step);
  }

  lemma OtherActor(s: State, step: Step)
    requires Enabled(s, step) && !step.Start? && !step.Fire?
    ensures Actor(s, step) < |s.threads|
  {
  }

  lemma StartGives(s: State, step: Step)
    requires Enabled(s, step)
    ensures step.Fire? ==> Effect(s, step).threads == s.threads + [CallbackEnter(step.source, step.fired)]
    ensures step.Start? ==>
      |Effect(s, step).threads| == |s.threads| + 1 && !Effect(s, step).threads[|s.threads|].CallbackEnter?
  {
    hide RunEffect, PickEffect, LoadEffect;
  }

  lemma {:induction false} FiredAt(states: seq<State>, steps: seq<Step>, k: nat, i: nat) returns (f: nat)
    requires IsRun(states, steps) && k < |states| && i < |states[k].threads|
    requires states[k].threads[i].CallbackEnter? || states[k].threads[i].CallbackBody?
    ensures f < k && steps[f] == Fire(states[k].threads[i].src, states[k].threads[i].result)
  {
    hide Effect, Enabled;
    f := 0;
    if k > 0 {
      var s, t := states[k - 1], states[k].threads[i];
      CallbackStep(s, steps[k - 1], i);
      if i < |s.threads| && (s.threads[i] == t || s.threads[i] == CallbackEnter(t.src, t.result)) {
        f := FiredAt(states, steps, k - 1, i);
      } else {
        f := k - 1;
      }
    }
  }

  /** A refresh callback returns no error if and only if the store was open when it ran and what the watcher
      gave it could be built; then it has stored just that. */
  lemma {:induction false} CallbackOutcome(states: seq<State>, steps: seq<Step>, k: nat, i: nat)
    returns (f: nat, b: nat)
    requires IsRun(states, steps) && k < |states| && i < |states[k].threads| && states[k].threads[i].CallbackReturned?
    ensures f < b < k && steps[f].Fire? && steps[b] == Run(i) && i < |states[b].threads|
    ensures states[b].threads[i] == CallbackBody(steps[f].source, steps[f].fired)
    ensures states[k].threads[i].ok <==> !states[b].closed && steps[f].fired.Loaded?
    ensures states[k].threads[i].ok ==>
      states[b + 1].repository == Stored(states[b].repository, Load(steps[f].source.id, steps[f].fired.keys))
  {
    hide Effect, Enabled, Stored;
    f, b := 0, 0;
    if k > 0 {
      var s, step := states[k - 1], steps[k - 1];
      CallbackStep(s, step, i);
      if s.threads[i] == states[k].threads[i] {
        f, b := CallbackOutcome(states, steps, k - 1, i);
      } else {
        f := FiredAt(states, steps, k - 1, i);
        b := k - 1;
        StepWrites(s, step);
      }
    } else {
      StartsBare(states[0], i);
    }
  }

  lemma RefreshStep(s: State, step: Step, i: nat)
    requires Enabled(s, step) && i < |Effect(s, step).threads|
    requires var t' := Effect(s, step).threads[i]; t'.RefreshRefused? || Round(t')
    ensures i < |s.threads|
    ensures var t, t' := s.threads[i], Effect(s, step).threads[i];
      || ((t.RefreshRefused? || Round(t)) && (t.RefreshRefused? <==> t'.RefreshRefused?))
      || (step == Run(i) && t.RefreshCheck? && (t'.RefreshRefused? <==> s.closed))
  {
    hide Effect, Enabled, Polled, ChildrenDone, ChildrenOk, HandsOut;
    ActsOrStays(s, step, i);
    if i < |s.threads| && Actor(s, step) == i { StepAt(s, step, i); }
  }

  /** `RefreshAll` is refused as ErrClosed if and only if the store was closed at its check. */
  lemma {:induction false} RefreshOutcome(states: seq<State>, steps: seq<Step>, k: nat, i: nat) returns (m: nat)
    requires IsRun(states, steps) && k < |states| && i < |states[k].threads|
    requires states[k].threads[i].RefreshRefused? || Round(states[k].threads[i])
    ensures m < k && steps[m] == Run(i) && i < |states[m].threads| && states[m].threads[i].RefreshCheck?
    ensures states[k].threads[i].RefreshRefused? <==> states[m].closed
  {
    hide Effect, Enabled;
    m := 0;
    if k > 0 {
      var s := states[k - 1];
      RefreshStep(s, steps[k - 1], i);
      if s.threads[i].RefreshRefused? || Round(s.threads[i]) {
        m := RefreshOutcome(states, steps, k - 1, i);
      } else {
        m := k - 1;
      }
    }
  }

  // ----- New

  /** Thread 0 has left the loading round of `New`. */
  predicate Loaded0(s: State) { |s.threads| > 0 && (s.threads[0].NewAttach? || s.threads[0].NewReturned?) }

  predicate Failed0(s: State) { |s.threads| > 0 && KindOf(s.threads[0]) == CloseKind }

  ghost predicate NoneFailed(s: State) {
    forall j | 0 <= j < |s.threads| && IsReload(s.threads[j]) && s.threads[j].parent == 0 ::
      s.threads[j].ReloadDone? && s.threads[j].ok
  }

  ghost predicate SomeFailed(s: State) { exists src :: FailedBy(s, 0, src) }

  lemma AllDoneMeansNoneFailed(s: State)
    requires ChildrenDone(s, 0) && ChildrenOk(s, 0)
    ensures NoneFailed(s)
  {
  }

  lemma NotOkMeansSomeFailed(s: State)
    requires !ChildrenOk(s, 0)
    ensures SomeFailed(s)
  {
    var j :| 0 <= j < |s.threads| && s.threads[j].ReloadDone? && s.threads[j].parent == 0 && !s.threads[j].ok;
    assert s.threads[j] == ReloadDone(0, s.threads[j].src, false);
    assert FailedBy(s, 0, s.threads[j].src);
  }

  lemma NoneFailedStays(s: State, s': State, a: nat)
    requires Moves(s, s', a) && NoneFailed(s) && Loaded0(s)
    ensures NoneFailed(s')
  {
    hide Moves;
    OthersStay(s, s', a);
    RoundMoves(s, s', a);
    forall j | 0 <= j < |s'.threads| && IsReload(s'.threads[j]) && s'.threads[j].parent == 0
      ensures s'.threads[j].ReloadDone? && s'.threads[j].ok
    {
      if j < |s.threads| {
        if j == a { GoroutineMoves(s, s', a); }
        assert IsReload(s.threads[j]) && s.threads[j].parent == 0;
      } else {
        SpawnedGoroutine(s, s', a);
        Took(s, s', a);
      }
    }
  }

  /** `New` leaves its loading round when its goroutines are done, for attaching if none has failed and for
      closing if one has. */
  lemma NewStep(s: State, step: Step)
    requires Enabled(s, step) && |s.threads| > 0
    requires Loaded0(s) ==> NoneFailed(s)
    requires Failed0(s) ==> SomeFailed(s)
    ensures var s' := Effect(s, step);
      && |s'.threads| > 0
      && (Loaded0(s') ==> NoneFailed(s')) && (Failed0(s') ==> SomeFailed(s'))
  {
    var s', a := Effect(s, step), Actor(s, step);
    hide Effect, Enabled, Moves, NoneFailed, KindOf, ChildrenDone, ChildrenOk;
    StepMoves(s, step);
    OthersStay(s, s', a);
    ThreadZero(s, step);
    if Loaded0(s) {
      NoneFailedStays(s, s', a);
    } else if Loaded0(s') {
      AllDoneMeansNoneFailed(s);
      NoneFailedSame(s, s', a);
    }
    if Failed0(s') {
      if !Failed0(s) { NotOkMeansSomeFailed(s); }
      SomeFailedStays(s, s', a);
    }
  }

  lemma ThreadZero(s: State, step: Step)
    requires Enabled(s, step) && |s.threads| > 0
    ensures var s' := Effect(s, step);
      && |s'.threads| > 0
      && (Loaded0(s) ==> Loaded0(s'))
      && (Loaded0(s') && !Loaded0(s) ==>
            s.threads[0].NewWait? && Actor(s, step) == 0 && ChildrenDone(s, 0) && ChildrenOk(s, 0))
      && (Failed0(s') && !Failed0(s) ==> s.threads[0].NewWait? && !ChildrenOk(s, 0))
  {
    hide Effect, Enabled, Moves, ChildrenDone, ChildrenOk;
    StepMoves(s, step);
    OthersStay(s, Effect(s, step), Actor(s, step));
    if Actor(s, step) == 0 {
      NewNext(s, Effect(s, step));
    }
  }

  lemma NewNext(s: State, s': State)
    requires Moves(s, s', 0) && |s.threads| > 0
    ensures |s'.threads| > 0
    ensures Loaded0(s) ==> Loaded0(s')
    ensures Loaded0(s') && !Loaded0(s) ==> s.threads[0].NewWait? && ChildrenDone(s, 0) && ChildrenOk(s, 0)
    ensures Failed0(s') && !Failed0(s) ==> s.threads[0].NewWait? && !ChildrenOk(s, 0)
  {
    hide LockMove, MutexMove, BindMove, CloseMove, DetachMove, ThreadMove, ChildrenDone, ChildrenOk, HandsOut, Polled;
    OthersStay(s, s', 0);
  }

  /** A step of `New` out of its loading round changes no goroutine. */
  lemma NoneFailedSame(s: State, s': State, a: nat)
    requires Moves(s, s', a) && NoneFailed(s) && a == 0 < |s.threads| && s.threads[0].NewWait? && Loaded0(s')
    ensures NoneFailed(s')
  {
    hide Moves;
    OthersStay(s, s', a);
    forall j | 0 <= j < |s'.threads| && IsReload(s'.threads[j]) && s'.threads[j].parent == 0
      ensures s'.threads[j].ReloadDone? && s'.threads[j].ok
    {
      if j < |s.threads| {
        assert IsReload(s.threads[j]) && s.threads[j].parent == 0;
      } else {
        SpawnedGoroutine(s, s', a);
      }
    }
  }

  lemma SomeFailedStays(s: State, s': State, a: nat)
    requires Moves(s, s', a) && SomeFailed(s)
    ensures SomeFailed(s')
  {
    hide Moves, FailedBy;
    var src :| FailedBy(s, 0, src);
    DoneStays(s, s', a, 0, src);
    assert FailedBy(s', 0, src);
  }

  /** `New`, once its options are applied, ends with an error if and only if one of its loads has failed: when
      it attaches or has returned the store, none has, and when it has turned to closing, one has. */
  lemma {:induction false} NewOutcome(states: seq<State>, steps: seq<Step>, k: nat)
    requires IsRun(states, steps) && k < |states| && states[0].threads != [CloseEnter]
    ensures |states[k].threads| > 0
    ensures Loaded0(states[k]) ==> NoneFailed(states[k])
    ensures Failed0(states[k]) ==> SomeFailed(states[k])
  {
    hide Effect, Enabled, NoneFailed, SomeFailed, Loaded0, Failed0;
    if k == 0 {
      NewStarts(states[0]);
    } else {
      NewOutcome(states, steps, k - 1);
      NewStep(states[k - 1], steps[k - 1]);
    }
  }

  lemma NewStarts(s: State)
    requires Init(s) && s.threads != [CloseEnter]
    ensures |s.threads| > 0 && !Loaded0(s) && !Failed0(s)
  {
  }

  /** The state in which `New` has applied its options. */
  function Made(sources: map<string, Source>): State {
    State([], sources, map[], false, NotRun, 0, None, {}, map[], {}, {}, [NewSpawn(sources.Values)], false)
  }

  lemma LedIsRun(states: seq<State>, steps: seq<Step>)
    requires Leads(states, steps) && Init(states[0])
    ensures IsRun(states, steps)
  {
    hide Effect, Enabled, Polite, Init;
    forall k | 0 <= k < |steps| ensures Enabled(states[k], steps[k]) && states[k + 1] == Effect(states[k], steps[k]) {
      assert Follows(states[k], steps[k], states[k + 1]);
    }
  }

  lemma FailureWasGiven(states: seq<State>, steps: seq<Step>, k: nat, j: nat, loads: Source -> LoadResult)
    requires IsRun(states, steps) && Leads(states, steps) && LoadsGive(states, steps, loads)
    requires k < |states| && j < |states[k].threads| && states[k].threads[j].ReloadDone? && !states[k].threads[j].ok
    ensures loads(states[k].threads[j].src).LoadFailed?
  {
    hide Effect, Enabled, Leads;
    var l := ReloadOutcome(states, steps, k, j);
    assert Gives(states[l], steps[l], loads);
  }

  /** Whatever sources the options register under their own IDs, when every load succeeds `New` can be run to
      its end, and then it has returned the store. */
  lemma NewCanSucceed(sources: map<string, Source>, keys: Source -> seq<Key>)
    returns (states: seq<State>, steps: seq<Step>)
    requires forall id | id in sources :: sources[id].id == id
    ensures IsRun(states, steps) && states[0] == Made(sources)
    ensures states[|steps|].published && Loaded0(states[|steps|]) && !Unfinished(states[|steps|])
  {
    hide Effect, Enabled, Inv, Leads, IsRun, LoadsGive, Failed0, SomeFailed, Unfinished;
    var loads := (src: Source) => Loaded(keys(src));
    MadeIsInitial(sources);
    InitEstablishesInv(Made(sources));
    states, steps := CallsCanReturn(Made(sources), loads);
    LeadsLength(states, steps);
    LedIsRun(states, steps);
    NewOutcome(states, steps, |steps|);
    if SomeFailed(states[|steps|]) {
      var j := FailedGoroutine(states[|steps|]);
      FailureWasGiven(states, steps, |steps|, j, loads);
      assert false;
    }
    NewIsOver(states[|steps|]);
  }

  lemma MadeIsInitial(sources: map<string, Source>)
    requires forall id | id in sources :: sources[id].id == id
    ensures Init(Made(sources)) && Made(sources).threads != [CloseEnter]
  {
  }

  lemma FailedGoroutine(s: State) returns (j: nat)
    requires SomeFailed(s)
    ensures j < |s.threads| && s.threads[j].ReloadDone? && !s.threads[j].ok
  {
    var src :| FailedBy(s, 0, src);
    j :| 0 <= j < |s.threads| && s.threads[j] == ReloadDone(0, src, false);
  }

  lemma NewIsOver(s: State)
    requires Inv(s) && !Unfinished(s) && !Failed0(s)
    ensures s.published && Loaded0(s)
  {
    assert NewInv(s);
  }

  // ----- a bind from rest

  /** Only thread `i`, a bind of the source, is under way, the store is open, and until the reservation the
      source's ID is free. */
  ghost predicate OnlyBinding(s: State, i: nat, src: Source) {
    && i < |s.threads| && !s.closed && BindUnderWay(s.threads[i], src)
    && (forall j | 0 <= j < |s.threads| && j != i :: Finished(s.threads[j]))
    && (s.threads[i].BindEnter? || s.threads[i].BindReserve? ==> !Taken(s, src.id))
  }

  predicate BindUnderWay(t: Thread, src: Source) { KindOf(t) == BindKind && !t.BindRejected? && t.src == src }

  lemma BindGoesOn(s: State, s': State, i: nat, src: Source)
    requires Moves(s, s', i) && i < |s.threads| && BindUnderWay(s.threads[i], src) && !Finished(s.threads[i])
    ensures |s'.threads| == |s.threads| && BindUnderWay(s'.threads[i], src) && s'.closed == s.closed
    ensures s'.threads[i].BindEnter? || s'.threads[i].BindReserve? ==>
      s.threads[i].BindEnter? && s'.sources == s.sources && s'.loading == s.loading
  {
    hide LockMove, MutexMove, DetachMove, Descends;
  }

  lemma OnlyActorLeft(s: State, step: Step, i: nat, src: Source)
    requires OnlyBinding(s, i, src) && Internal(step) && Enabled(s, step)
    ensures Actor(s, step) == i
  {
    hide Effect, Enabled, Moves;
    ActorExists(s, step);
    StepMoves(s, step);
    ActorIsUnfinished(s, Effect(s, step), Actor(s, step));
  }

  lemma StillOnlyBinding(s: State, step: Step, i: nat, src: Source)
    requires OnlyBinding(s, i, src) && Internal(step) && Enabled(s, step)
    ensures OnlyBinding(Effect(s, step), i, src)
  {
    hide Effect, Enabled, Moves, KindOf;
    OnlyActorLeft(s, step, i, src);
    StepMoves(s, step);
    ActorIsUnfinished(s, Effect(s, step), i);
    OthersStay(s, Effect(s, step), i);
    BindGoesOn(s, Effect(s, step), i, src);
  }

  lemma {:induction false} OnlyBindingLasts(states: seq<State>, steps: seq<Step>, k: nat, i: nat, src: Source)
    requires Leads(states, steps) && k < |states| && OnlyBinding(states[0], i, src)
    ensures OnlyBinding(states[k], i, src)
  {
    hide OnlyBinding, Effect, Enabled, Polite, Internal;
    if k > 0 {
      OnlyBindingLasts(states, steps, k - 1, i, src);
      assert Follows(states[k - 1], steps[k - 1], states[k]);
      StillOnlyBinding(states[k - 1], steps[k - 1], i, src);
    }
  }

  lemma NothingReserved(s: State)
    requires Inv(s) && !Unfinished(s)
    ensures forall id :: id !in s.loading
  {
    assert ReservedInv(s);
    assert forall id :: id in s.loading ==> ReservedBy(s, id);
  }

  lemma BindStarts(s: State, src: Source)
    requires Inv(s) && s.published && !s.closed && !Unfinished(s) && !Text.Blank(src.id) && src.id !in s.sources
    ensures var start := Start(CallBind(Some(src)));
      Enabled(s, start) && Inv(Effect(s, start)) && OnlyBinding(Effect(s, start), |s.threads|, src)
  {
    hide Inv;
    NothingReserved(s);
    StepKeepsInv(s, Start(CallBind(Some(src))));
  }

  lemma RunGoesOn(states: seq<State>, steps: seq<Step>, step: Step, more: seq<State>, tail: seq<Step>)
    requires IsRun(states, steps) && Leads(more, tail)
    requires Enabled(states[|steps|], step) && more[0] == Effect(states[|steps|], step)
    ensures IsRun(states + more, steps + [step] + tail)
  {
    hide Effect, Enabled, Polite, Init;
    var all, taken := states + more, steps + [step] + tail;
    forall k | 0 <= k < |taken| ensures Enabled(all[k], taken[k]) && all[k + 1] == Effect(all[k], taken[k]) {
      if k > |steps| {
        var m := k - |steps| - 1;
        assert Follows(more[m], tail[m], more[m + 1]);
      }
    }
  }

  /** Binding works: at any moment of any run at which the store is open and the calls made are over, `Bind` of a
      source with a free ID whose load succeeds can be run to its end, and then it has returned success, the
      source is registered, and its keys are the ones the repository holds for it. */
  lemma BindCanSucceed(states: seq<State>, steps: seq<Step>, src: Source, keys: seq<Key>)
    returns (more: seq<State>, tail: seq<Step>)
    requires IsRun(states, steps)
    requires var s := states[|states| - 1];
      s.published && !s.closed && !Unfinished(s) && !Text.Blank(src.id) && src.id !in s.sources
    ensures more != [] && IsRun(states + more, steps + [Start(CallBind(Some(src)))] + tail)
    ensures var i, last := |states[|states| - 1].threads|, more[|more| - 1];
      i < |last.threads| && last.threads[i] == BindReturned(src, Bound) && Registered(last, src)
      && Holds(multiset(last.repository), src.id, keys)
  {
    hide Effect, Enabled, Inv, Leads, IsRun, LoadsGive, Unfinished, OnlyBinding, Registered, Taken, Holds, PastCommit;
    RunLength(states, steps);
    var s, start, loads := states[|steps|], Start(CallBind(Some(src))), (any: Source) => Loaded(keys);
    var i := |s.threads|;
    RunKeepsInv(states, steps, |steps|);
    BindStarts(s, src);
    more, tail := CallsCanReturn(Effect(s, start), loads);
    LeadsLength(more, tail);
    RunGoesOn(states, steps, start, more, tail);
    OnlyBindingLasts(more, tail, |tail|, i, src);
    BindIsOver(more[|tail|], i, src);
    var all, taken := states + more, steps + [start] + tail;
    var r, l, c := OpenBindSucceeds(all, taken, |all| - 1, i);
    assert r >= |states| by {
      if r < |states| { ThreadsGrow(states, steps, r, |steps|); }
    }
    OnlyBindingLasts(more, tail, r - |states|, i, src);
    FreeAtReserve(all[r], i, src);
    assert taken[l] == tail[l - |states|];
    LoadWasGiven(more, tail, l - |states|, loads);
    NothingStoredSince(more, tail, c + 1 - |states|, |tail|, i, src);
  }

  lemma PastCommitStays(s: State, step: Step, i: nat, src: Source)
    requires OnlyBinding(s, i, src) && PastCommit(s.threads[i]) && Internal(step) && Enabled(s, step)
    ensures var s' := Effect(s, step);
      i < |s'.threads| && PastCommit(s'.threads[i]) && s'.repository == s.repository
  {
    hide Effect, Enabled, Moves, KindOf, Stored;
    OnlyActorLeft(s, step, i, src);
    StepMoves(s, step);
    Took(s, Effect(s, step), i);
    ActorIsUnfinished(s, Effect(s, step), i);
    StepWrites(s, step);
  }

  lemma {:induction false} NothingStoredSince(
    states: seq<State>, steps: seq<Step>, a: nat, k: nat, i: nat, src: Source)
    requires Leads(states, steps) && a <= k < |states| && OnlyBinding(states[0], i, src)
    requires i < |states[a].threads| && PastCommit(states[a].threads[i])
    ensures i < |states[k].threads| && PastCommit(states[k].threads[i]) && states[k].repository == states[a].repository
  {
    hide OnlyBinding, Effect, Enabled, Polite, Internal, PastCommit;
    if a < k {
      NothingStoredSince(states, steps, a, k - 1, i, src);
      OnlyBindingLasts(states, steps, k - 1, i, src);
      assert Follows(states[k - 1], steps[k - 1], states[k]);
      PastCommitStays(states[k - 1], steps[k - 1], i, src);
    }
  }

  lemma RunLength(states: seq<State>, steps: seq<Step>)
    requires IsRun(states, steps)
    ensures |states| == |steps| + 1
  {
  }

  lemma LoadWasGiven(states: seq<State>, steps: seq<Step>, l: nat, loads: Source -> LoadResult)
    requires LoadsGive(states, steps, loads) && l < |steps| && l < |states| && steps[l].LoadReturn?
    ensures exists src :: steps[l].loaded == loads(src)
  {
    assert Gives(states[l], steps[l], loads);
  }

  lemma FreeAtReserve(s: State, i: nat, src: Source)
    requires OnlyBinding(s, i, src) && s.threads[i].BindReserve?
    ensures !Taken(s, src.id)
  {
  }

  lemma BindIsOver(s: State, i: nat, src: Source)
    requires OnlyBinding(s, i, src) && !Unfinished(s)
    ensures i < |s.threads| && s.threads[i].BindReturned? && s.threads[i].src == src && !s.closed
  {
  }
}
