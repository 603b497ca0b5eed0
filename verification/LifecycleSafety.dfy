/** Safety of the lifecycle over whole runs. */
module LifecycleSafety {
  import opened Keys
  import opened LoadOrder
  import opened Lifecycle
  import opened LifecycleMoves
  import opened LifecycleInvariant

  // ----- Close

  ghost predicate FullyClosed(s: State) {
    && s.callbacks == {}
    && (forall id | id in s.sources :: s.sources[id] in s.stopped)
    && s.loading == map[] && s.bindWG == 0
    && (forall i | 0 <= i < |s.threads| :: !InFlight(s.threads[i]))
    && (forall i | 0 <= i < |s.threads| && CutShort(s.threads[i]) :: s.threads[i].src in s.stopped)
  }

  lemma RanIsFullyClosed(s: State)
    requires Inv(s) && s.once == Ran
    ensures FullyClosed(s)
  {
    CountPositive(s.threads);
    forall id | id in s.sources ensures s.sources[id] in s.stopped {
      assert Registered(s, s.sources[id]);
    }
    assert forall id | id in s.loading :: ReservedBy(s, id);
    assert forall src | src in s.callbacks :: Registered(s, src);
  }

  /** `closed` stays set, a finished `Close` stays finished, and no new `RefreshAll` passes a set `closed`. */
  lemma StepKeepsClosed(s: State, step: Step)
    requires Enabled(s, step)
    ensures s.closed ==> Effect(s, step).closed
    ensures s.once == Ran && CloseInv(s) ==> Effect(s, step).once == Ran
  {
    StepMoves(s, step);
  }

  lemma StepKeepsOldRefreshes(s: State, step: Step, p: nat)
    requires Enabled(s, step) && s.closed
    requires p < |Effect(s, step).threads| && PastCheck(Effect(s, step).threads[p])
    ensures p < |s.threads| && PastCheck(s.threads[p])
  {
    var i := Actor(s, step);
    StepMoves(s, step);
    MovesOthers(s, Effect(s, step), i);
    if p != i {
      assert p < |s.threads|;
    } else {
      assert PastCheck(Was(s, i));
    }
  }

  lemma {:induction false} RanStays(states: seq<State>, steps: seq<Step>, k: nat, m: nat)
    requires IsRun(states, steps) && k <= m < |states| && states[k].once == Ran
    ensures states[m].once == Ran
  {
    hide Effect, Enabled, CloseInv;
    if k < m {
      RanStays(states, steps, k, m - 1);
      assert CloseInv(states[m - 1]) by { RunKeepsInv(states, steps, m - 1); }
      StepKeepsClosed(states[m - 1], steps[m - 1]);
    }
  }

  /** When a `Close` call has returned, and for ever after, every registered source is closed, no source
      holds a callback into the store, no bind is in flight, and every bind that was turned away by the
      `Close` has had its source closed. This covers a source whose bind had committed but not attached. */
  lemma CloseStopsEverySource(states: seq<State>, steps: seq<Step>, k: nat, i: nat, m: nat)
    requires IsRun(states, steps) && k <= m < |states|
    requires i < |states[k].threads| && states[k].threads[i].CloseReturned?
    ensures FullyClosed(states[m])
  {
    RunKeepsInv(states, steps, k);
    RanStays(states, steps, k, m);
    RunKeepsInv(states, steps, m);
    RanIsFullyClosed(states[m]);
  }

  // ----- bookkeeping

  /** In every reachable state the two maps are disjoint, each reserved ID belongs to exactly one bind in
      flight, and the wait group counts the accepted binds that have not returned. */
  lemma ReservationsAreExact(states: seq<State>, steps: seq<Step>, k: nat)
    requires IsRun(states, steps) && k < |states|
    ensures states[k].sources.Keys !! states[k].loading.Keys
    ensures forall id :: id in states[k].loading <==> ReservedBy(states[k], id)
    ensures forall i, j | 0 <= i < |states[k].threads| && 0 <= j < |states[k].threads|
                       && Reserved(states[k].threads[i]) && Reserved(states[k].threads[j]) ::
              states[k].threads[i].src.id == states[k].threads[j].src.id ==> i == j
    ensures states[k].bindWG == InFlightCount(states[k].threads)
  {
    RunKeepsInv(states, steps, k);
  }

  /** While the store serves, every registered self-refreshing source holds its callback, or the bind
      that registered it is about to attach it. */
  lemma ServingSourcesAreActive(states: seq<State>, steps: seq<Step>, k: nat, id: string)
    requires IsRun(states, steps) && k < |states| && Serving(states[k])
    requires id in states[k].sources && states[k].sources[id].selfRefreshing
    ensures states[k].sources[id] in states[k].callbacks || Attaching(states[k], states[k].sources[id])
  {
    RunKeepsInv(states, steps, k);
    assert Registered(states[k], states[k].sources[id]);
  }

  // ----- what a closed store can still do

  /** The three kinds of step that write the repository, and what they write. */
  function Written(s: State, step: Step): seq<Key>
    requires Enabled(s, step)
  {
    if !step.Run? then s.repository
    else
      match s.threads[step.i]
      case BindCommit(src, Loaded(keys)) =>
        if s.closed then s.repository else Stored(s.repository, Load(src.id, keys))
      case CallbackBody(src, Loaded(keys)) =>
        if s.closed then s.repository else Stored(s.repository, Load(src.id, keys))
      case ReloadStore(_, src, keys) => Stored(s.repository, Load(src.id, keys))
      case _ => s.repository
  }

  lemma BindWrites(s: State, i: nat)
    requires Enabled(s, Run(i)) && i < |s.threads| && KindOf(s.threads[i]) == BindKind
    ensures BindRun(s, i).repository == Written(s, Run(i))
  {
    hide Stored, Enabled;
  }

  lemma CloseWrites(s: State, i: nat)
    requires i < |s.threads|
    ensures CloseRun(s, i).repository == s.repository
  {
  }

  lemma DrainWrites(s: State, i: nat)
    requires i < |s.threads|
    ensures DrainRun(s, i).repository == s.repository
  {
  }

  lemma OtherWrites(s: State, i: nat)
    requires Enabled(s, Run(i))
    ensures KindOf(s.threads[i]) == RefreshKind ==> RefreshRun(s, i).repository == Written(s, Run(i))
    ensures KindOf(s.threads[i]) == CallbackKind ==> CallbackRun(s, i).repository == Written(s, Run(i))
    ensures KindOf(s.threads[i]) == NewKind ==> NewRun(s, i).repository == Written(s, Run(i))
  {
  }

  lemma RunWrites(s: State, i: nat)
    requires Enabled(s, Run(i))
    ensures RunEffect(s, i).repository == Written(s, Run(i))
  {
    hide BindRun, CloseRun, DrainRun, RefreshRun, CallbackRun, NewRun;
    match KindOf(s.threads[i])
    case BindKind => BindWrites(s, i);
    case CloseKind => if PastWait(s.threads[i]) { DrainWrites(s, i); } else { CloseWrites(s, i); }
    case _ => OtherWrites(s, i);
  }

  lemma StepWrites(s: State, step: Step)
    requires Enabled(s, step)
    ensures Effect(s, step).repository == Written(s, step)
  {
    hide RunEffect;
    if step.Run? {
      RunWrites(s, step.i);
    }
  }

  /** Once `closed` is set no source is added, no ID is reserved, the wait group is not incremented, and
      the repository changes only through a goroutine of `loadSources`. */
  lemma ClosedStoreIsFrozen(s: State, step: Step)
    requires Inv(s) && Enabled(s, step) && s.closed
    ensures var s' := Effect(s, step);
      && s'.closed && s'.sources == s.sources && s'.loading.Items <= s.loading.Items && s'.bindWG <= s.bindWG
      && (s'.repository != s.repository ==> step.Run? && s.threads[step.i].ReloadStore?)
  {
    StepMoves(s, step);
    StepWrites(s, step);
  }

  /** A `RefreshAll` past its check after `closed` was set was past it already when `closed` was set. */
  lemma {:induction false} PastCheckIsOld(states: seq<State>, steps: seq<Step>, k: nat, m: nat, p: nat)
    requires IsRun(states, steps) && k <= m < |states| && states[k].closed
    requires p < |states[m].threads| && PastCheck(states[m].threads[p])
    ensures p < |states[k].threads| && PastCheck(states[k].threads[p])
  {
    hide Effect;
    if k < m {
      ClosedStays(states, steps, k, m - 1);
      StepKeepsOldRefreshes(states[m - 1], steps[m - 1], p);
      PastCheckIsOld(states, steps, k, m - 1, p);
    }
  }

  lemma {:induction false} ClosedStays(states: seq<State>, steps: seq<Step>, k: nat, m: nat)
    requires IsRun(states, steps) && k <= m < |states| && states[k].closed
    ensures states[m].closed
  {
    hide Effect;
    if k < m {
      ClosedStays(states, steps, k, m - 1);
      StepKeepsClosed(states[m - 1], steps[m - 1]);
    }
  }

  /** In any run, once `closed` is set the repository is written only for a `RefreshAll` that was already
      past its own check at that moment: never by a bind and never by a refresh callback. */
  lemma OnlyOldRefreshesWrite(states: seq<State>, steps: seq<Step>, k: nat, m: nat)
    requires IsRun(states, steps) && k <= m < |steps| && states[k].closed
    requires states[m + 1].repository != states[m].repository
    ensures steps[m].Run? && steps[m].i < |states[m].threads| && states[m].threads[steps[m].i].ReloadStore?
    ensures var p := states[m].threads[steps[m].i].parent;
      p < |states[k].threads| && PastCheck(states[k].threads[p])
  {
    ClosedStays(states, steps, k, m);
    RunKeepsInv(states, steps, m);
    ClosedStoreIsFrozen(states[m], steps[m]);
    var p := states[m].threads[steps[m].i].parent;
    assert PastCheck(states[m].threads[p]);
    PastCheckIsOld(states, steps, k, m, p);
  }
}
