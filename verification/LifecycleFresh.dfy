/** How new the keys are that a `RefreshAll` leaves in the store. */
module LifecycleFresh {
  import opened Wrappers
  import opened LoadOrder
  import opened Lifecycle
  import opened LifecycleMoves
  import opened LifecycleInvariant
  import opened LifecycleSafety
  import opened LifecycleLoads

  // ----- who can write for a source

  /** Every source that a refresh concerns is registered; a callback belongs to a self-refreshing one. */
  predicate CallerOk(s: State, t: Thread) {
    && (t.CallbackEnter? || t.CallbackBody? ==> t.src.selfRefreshing && Registered(s, t.src))
    && (IsReload(t) ==> Registered(s, t.src))
    && (Round(t) ==> forall src | src in t.polled :: Registered(s, src) && !src.selfRefreshing)
    && (t.NewSpawn? ==> forall src | src in t.todo :: Registered(s, src))
  }

  ghost predicate CallersInv(s: State) { forall i | 0 <= i < |s.threads| :: CallerOk(s, s.threads[i]) }

  lemma StaysOk(s: State, s': State, t: Thread)
    requires CallerOk(s, t) && forall src | Registered(s, src) :: Registered(s', src)
    ensures CallerOk(s', t)
  {
    hide Registered;
  }

  lemma StaysKnown(s: State, s': State, i: nat)
    requires Moves(s, s', i) && BindInv(s)
    ensures forall src | Registered(s, src) :: Registered(s', src)
  {
    hide LockMove, MutexMove, CloseMove, DetachMove, NewMove, Descends, Next;
    OthersStay(s, s', i);
    RegisteredKept(s, s', i);
  }

  lemma PolledIsOk(s: State)
    requires MapsInv(s)
    ensures forall src | src in Polled(s) :: Registered(s, src) && !src.selfRefreshing
  {
  }

  lemma CallbackMoves(s: State, s': State, i: nat)
    requires Moves(s, s', i)
    ensures var t, t' := Was(s, i), s'.threads[i];
      && (t'.CallbackEnter? ==> t'.src in s.callbacks)
      && (t'.CallbackBody? ==> t.CallbackEnter? && t'.src == t.src)
      && (t'.NewSpawn? ==> t.NewSpawn? && t'.todo <= t.todo)
  {
    hide LockMove, MutexMove, BindMove, CloseMove, DetachMove, ThreadMove, Polled, ChildrenDone, ChildrenOk;
  }

  /** The thread that takes the step. */
  lemma ActorOk(s: State, s': State, i: nat)
    requires Moves(s, s', i) && CallersInv(s) && BindInv(s) && CallbacksInv(s)
    ensures CallerOk(s, s'.threads[i])
  {
    hide Moves, Registered, Polled, IsReload;
    PolledIsOk(s);
    CallbackMoves(s, s', i);
    RoundMoves(s, s', i);
    if i < |s.threads| {
      assert CallerOk(s, s.threads[i]);
      if IsReload(s.threads[i]) { GoroutineMoves(s, s', i); }
    } else {
      NoGoroutine();
    }
  }

  lemma NoGoroutine()
    ensures !IsReload(BindRejected)
  {
  }

  lemma StepKeepsCallers(s: State, step: Step)
    requires Inv(s) && RoundsInv(s) && CallersInv(s) && Enabled(s, step)
    ensures CallersInv(Effect(s, step))
  {
    hide Effect, Enabled, Moves, CallerOk, RoundOk, ChildrenInv;
    var s', i := Effect(s, step), Actor(s, step);
    StepMoves(s, step);
    OthersStay(s, s', i);
    StaysKnown(s, s', i);
    ActorOk(s, s', i);
    forall j | 0 <= j < |s'.threads| ensures CallerOk(s', s'.threads[j]) {
      if j == i {
        StaysOk(s, s', s'.threads[i]);
      } else if j < |s.threads| {
        StaysOk(s, s', s.threads[j]);
      } else {
        SpawnedOk(s, s', i);
        StaysOk(s, s', s'.threads[j]);
      }
    }
  }

  lemma SpawnedOk(s: State, s': State, i: nat)
    requires Moves(s, s', i) && CallersInv(s) && RoundsInv(s) && i < |s.threads| < |s'.threads|
    ensures CallerOk(s, s'.threads[|s.threads|])
  {
    hide LockMove, MutexMove, BindMove, CloseMove, DetachMove, NewMove, Descends, ChildrenInv, Registered;
    assert RoundOk(s, i) && CallerOk(s, s.threads[i]);
  }

  lemma {:induction false} RunKeepsCallers(states: seq<State>, steps: seq<Step>, k: nat)
    requires IsRun(states, steps) && k < |states|
    ensures CallersInv(states[k])
  {
    hide Inv, RoundsInv, Effect, Enabled, CallersInv;
    if k == 0 {
      StartsKnown(states[0]);
    } else {
      RunKeepsCallers(states, steps, k - 1);
      RunKeepsRounds(states, steps, k - 1);
      StepKeepsCallers(states[k - 1], steps[k - 1]);
    }
  }

  lemma StartsKnown(s: State)
    requires Init(s)
    ensures CallersInv(s)
  {
  }

  /** What a step stores in the repository, if anything. */
  function StoredBy(s: State, step: Step): Option<Load> {
    if !step.Run? || step.i >= |s.threads| then None
    else
      match s.threads[step.i]
      case BindCommit(src, Loaded(keys)) => if s.closed then None else Some(Load(src.id, keys))
      case CallbackBody(src, Loaded(keys)) => if s.closed then None else Some(Load(src.id, keys))
      case ReloadStore(_, src, keys) => Some(Load(src.id, keys))
      case _ => None
  }

  lemma StepStores(s: State, step: Step)
    requires Enabled(s, step)
    ensures Effect(s, step).repository ==
      if StoredBy(s, step).Some? then Stored(s.repository, StoredBy(s, step).value) else s.repository
  {
    hide Effect, Stored;
    StepWrites(s, step);
  }

  predicate StoresTo(s: State, step: Step, id: string) {
    StoredBy(s, step).Some? && StoredBy(s, step).value.source == id
  }

  /** Only a goroutine of `loadSources` stores keys of a registered source that does not refresh itself. */
  lemma OnlyReloadsStore(s: State, step: Step, src: Source)
    requires BindInv(s) && CallersInv(s) && Enabled(s, step)
    requires Registered(s, src) && !src.selfRefreshing && StoresTo(s, step, src.id)
    ensures step.Run? && step.i < |s.threads| && s.threads[step.i].ReloadStore? && s.threads[step.i].src == src
  {
    hide Enabled;
    assert CallerOk(s, s.threads[step.i]);
    assert src.id !in s.loading;
  }

  // ----- one goroutine

  /** The goroutine is inside its `Load`, or has a result it has not stored. */
  predicate MidLoad(s: State, j: nat) {
    j < |s.threads| && (s.threads[j].ReloadLoading? || s.threads[j].ReloadStore?)
  }

  lemma LoadBegins(s: State, step: Step, j: nat)
    requires Enabled(s, step) && MidLoad(Effect(s, step), j) && !MidLoad(s, j)
    ensures step == Run(j) && j < |s.threads| && s.threads[j].ReloadLoad?
  {
    var s', i := Effect(s, step), Actor(s, step);
    hide Effect, Enabled, Moves;
    StepMoves(s, step);
    OthersStay(s, s', i);
    ReloadMoves(s, s', i);
    OnlyRunBegins(s, step);
  }

  lemma ReloadMoves(s: State, s': State, i: nat)
    requires Moves(s, s', i)
    ensures var t, t' := Was(s, i), s'.threads[i];
      && !t'.ReloadLoad?
      && (t'.ReloadLoading? ==> t.ReloadLoad?)
      && (t'.ReloadStore? ==> t.ReloadLoading?)
      && (t.ReloadLoad? ==> t'.ReloadLoading?)
      && !t.ReloadDone?
  {
    hide LockMove, MutexMove, BindMove, CloseMove, DetachMove, ThreadMove, Polled, ChildrenDone, ChildrenOk, HandsOut;
  }

  lemma OnlyRunBegins(s: State, step: Step)
    requires Enabled(s, step)
    ensures var i := Actor(s, step); i < |s.threads| && s.threads[i].ReloadLoad? ==> step == Run(i)
  {
  }

  lemma NotYetBegun(s: State, step: Step, j: nat)
    requires Enabled(s, step) && j < |Effect(s, step).threads| && Effect(s, step).threads[j].ReloadLoad?
    ensures !MidLoad(s, j) && (j < |s.threads| ==> s.threads[j].ReloadLoad?)
  {
    var s', i := Effect(s, step), Actor(s, step);
    hide Effect, Enabled, Moves;
    StepMoves(s, step);
    OthersStay(s, s', i);
    ReloadMoves(s, s', i);
  }

  lemma {:induction false} NeverBegunBefore(states: seq<State>, steps: seq<Step>, x: nat, m: nat, j: nat)
    requires IsRun(states, steps) && x <= m < |states|
    requires j < |states[m].threads| ==> states[m].threads[j].ReloadLoad?
    ensures !MidLoad(states[x], j)
    decreases m
  {
    hide Effect, Enabled;
    if x < m {
      if j < |states[m].threads| {
        NotYetBegun(states[m - 1], steps[m - 1], j);
      } else {
        ThreadsGrow(states, steps, m - 1, m);
      }
      NeverBegunBefore(states, steps, x, m - 1, j);
    }
  }

  /** The `Load` of a goroutine began at one step, before which it was not in it and after which it was. */
  lemma {:induction false} LoadBegan(states: seq<State>, steps: seq<Step>, m: nat, j: nat) returns (begun: nat)
    requires IsRun(states, steps) && m < |states| && MidLoad(states[m], j)
    ensures begun < m && steps[begun] == Run(j)
    ensures j < |states[begun].threads| && states[begun].threads[j].ReloadLoad?
    ensures forall x | 0 <= x <= m :: MidLoad(states[x], j) <==> begun < x
    decreases m
  {
    hide Effect, Enabled, MidLoad;
    if m == 0 {
      StartsUnloaded(states[0], j);
    } else if MidLoad(states[m - 1], j) {
      begun := LoadBegan(states, steps, m - 1, j);
    } else {
      LoadBegins(states[m - 1], steps[m - 1], j);
      begun := m - 1;
      forall x | 0 <= x <= begun ensures !MidLoad(states[x], j) { NeverBegunBefore(states, steps, x, begun, j); }
    }
  }

  lemma StartsUnloaded(s: State, j: nat)
    requires Init(s)
    ensures !MidLoad(s, j)
  {
  }

  // ----- the last store

  lemma {:induction false} LastStore(states: seq<State>, steps: seq<Step>, first: nat, k: nat, id: string)
    returns (m: nat)
    requires first < k < |states| && k <= |steps| && StoresTo(states[first], steps[first], id)
    ensures first <= m < k && StoresTo(states[m], steps[m], id)
    ensures forall n | m < n < k :: !StoresTo(states[n], steps[n], id)
    decreases k - first
  {
    hide StoresTo;
    if n :| first < n < k && StoresTo(states[n], steps[n], id) {
      m := LastStore(states, steps, n, k, id);
    } else {
      m := first;
    }
  }

  /** No store since `m` of another source carries a key that names this one. */
  ghost predicate NoForeignStores(states: seq<State>, steps: seq<Step>, m: nat, k: nat, id: string)
    requires k < |states| && k <= |steps|
  {
    forall n, key | m < n < k && StoredBy(states[n], steps[n]).Some?
                    && StoredBy(states[n], steps[n]).value.source != id
                    && key in StoredBy(states[n], steps[n]).value.keys :: key.source != id
  }

  lemma {:induction false} LastStoreHolds(states: seq<State>, steps: seq<Step>, m: nat, k: nat, id: string)
    requires IsRun(states, steps) && m < k < |states| && StoresTo(states[m], steps[m], id)
    requires forall n | m < n < k :: !StoresTo(states[n], steps[n], id)
    requires NoForeignStores(states, steps, m, k, id)
    ensures Holds(multiset(states[k].repository), id, StoredBy(states[m], steps[m]).value.keys)
    decreases k
  {
    hide Effect, Enabled, StoredBy, Stored, Holds;
    var keys, n := StoredBy(states[m], steps[m]).value.keys, k - 1;
    StepStores(states[n], steps[n]);
    if n == m {
      StoredHolds(states[m].repository, id, keys);
    } else {
      LastStoreHolds(states, steps, m, n, id);
      if StoredBy(states[n], steps[n]).Some? {
        assert !StoresTo(states[n], steps[n], id);
        HoldsSurvives(states[n].repository, StoredBy(states[n], steps[n]).value, id, keys);
      }
    }
  }

  lemma StoresIsStoredBy(states: seq<State>, steps: seq<Step>, m: nat, i: nat, src: Source)
    requires Stores(states, steps, m, i, src)
    ensures StoresTo(states[m], steps[m], src.id)
  {
    hide Stored;
  }

  lemma {:induction false} PolledStays(states: seq<State>, steps: seq<Step>, n: nat, k: nat, src: Source)
    requires IsRun(states, steps) && n <= k < |states| && Registered(states[n], src)
    ensures Registered(states[k], src)
  {
    hide Effect, Enabled, Inv, Registered;
    if n < k {
      PolledStays(states, steps, n, k - 1, src);
      RunKeepsInv(states, steps, k - 1);
      StaysRegistered(states[k - 1], steps[k - 1], src);
    }
  }

  /** When a `RefreshAll` has returned without an error, the repository holds for each source it polled the
      keys of one goroutine that stored them after the check: its own, or that of a `RefreshAll` running
      beside it; unless another source has since stored a key that names this one. The goroutine's `Load`
      began at or after the check if and only if the goroutine was not already inside it, or holding its
      result, when the check was made. So what is held is as new as the check whenever no other `RefreshAll`
      was loading the source at that moment. */
  lemma RefreshAllIsFresh(states: seq<State>, steps: seq<Step>, k: nat, i: nat, src: Source)
    returns (check: nat, m: nat, begun: nat)
    requires IsRun(states, steps) && k < |states|
    requires i < |states[k].threads| && states[k].threads[i].RefreshReturned? && states[k].threads[i].ok
    requires src in states[k].threads[i].polled
    ensures check < m < k && Checks(states[check], i, states[k].threads[i].polled)
    ensures steps[m].Run? && steps[m].i < |states[m].threads|
    ensures var t := states[m].threads[steps[m].i];
      && t.ReloadStore? && t.src == src
      && (NoForeignStores(states, steps, m, k, src.id) ==> Holds(multiset(states[k].repository), src.id, t.keys))
    ensures begun < m && steps[begun] == Run(steps[m].i)
    ensures steps[m].i < |states[begun].threads| && states[begun].threads[steps[m].i].ReloadLoad?
    ensures begun >= check <==> !MidLoad(states[check], steps[m].i)
  {
    hide Effect, Enabled, Inv, RoundsInv, CallersInv, Stored, Holds, StoredBy, Polled, Stores, StoresTo;
    check := RefreshAllLoadsAll(states, steps, k, i);
    var first :| check < first < k && Stores(states, steps, first, i, src);
    StoresIsStoredBy(states, steps, first, i, src);
    m := LastStore(states, steps, first, k, src.id);
    if NoForeignStores(states, steps, m, k, src.id) { LastStoreHolds(states, steps, m, k, src.id); }
    RunKeepsInv(states, steps, check);
    PolledAtCheck(states[check], i, states[k].threads[i].polled, src);
    PolledStays(states, steps, check, m, src);
    StorerAt(states, steps, m, src);
    begun := LoadBegan(states, steps, m, steps[m].i);
  }

  lemma PolledAtCheck(s: State, i: nat, polled: set<Source>, src: Source)
    requires Inv(s) && Checks(s, i, polled) && src in polled
    ensures Registered(s, src) && !src.selfRefreshing
  {
    PolledIsOk(s);
  }

  lemma StorerAt(states: seq<State>, steps: seq<Step>, m: nat, src: Source)
    requires IsRun(states, steps) && m < |steps| && StoresTo(states[m], steps[m], src.id)
    requires Registered(states[m], src) && !src.selfRefreshing
    ensures steps[m].Run? && steps[m].i < |states[m].threads|
    ensures var t := states[m].threads[steps[m].i];
      t.ReloadStore? && t.src == src && StoredBy(states[m], steps[m]) == Some(Load(src.id, t.keys))
    ensures MidLoad(states[m], steps[m].i)
  {
    hide Effect;
    RunKeepsInv(states, steps, m);
    RunKeepsCallers(states, steps, m);
    OnlyReloadsStore(states[m], steps[m], src);
  }
}
