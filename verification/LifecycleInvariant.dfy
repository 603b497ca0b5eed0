/** What holds in every reachable state of the lifecycle. */
module LifecycleInvariant {
  import opened Wrappers
  import opened Lifecycle
  import opened LifecycleMoves

  /** How many binds the wait group counts. */
  function InFlightCount(threads: seq<Thread>): nat {
    if threads == [] then 0
    else InFlightCount(threads[..|threads| - 1]) + if InFlight(threads[|threads| - 1]) then 1 else 0
  }

  lemma {:induction false} CountBecome(threads: seq<Thread>, i: nat, t: Thread)
    requires i < |threads|
    ensures InFlightCount(threads[i := t])
         == InFlightCount(threads) + (if InFlight(t) then 1 else 0) - (if InFlight(threads[i]) then 1 else 0)
  {
    var n := |threads| - 1;
    if i < n {
      CountBecome(threads[..n], i, t);
      assert threads[i := t][..n] == threads[..n][i := t];
    } else {
      assert threads[i := t][..n] == threads[..n];
    }
  }

  lemma CountSpawn(threads: seq<Thread>, t: Thread)
    ensures InFlightCount(threads + [t]) == InFlightCount(threads) + if InFlight(t) then 1 else 0
  {
    assert (threads + [t])[..|threads|] == threads;
  }

  lemma {:induction false} CountPositive(threads: seq<Thread>)
    ensures InFlightCount(threads) > 0 <==> exists i | 0 <= i < |threads| :: InFlight(threads[i])
  {
    if threads != [] {
      var n := |threads| - 1;
      CountPositive(threads[..n]);
      assert forall i | 0 <= i < n :: threads[i] == threads[..n][i];
      if exists i | 0 <= i < |threads| :: InFlight(threads[i]) {
        var i :| 0 <= i < |threads| && InFlight(threads[i]);
        assert i < n ==> InFlight(threads[..n][i]);
      }
    }
  }

  predicate Registered(s: State, src: Source) { src.id in s.sources && s.sources[src.id] == src }

  /** `sourcesMU`: one writer or some readers, and the holders are exactly the threads in critical sections. */
  ghost predicate LockInv(s: State) {
    && (s.writer.Some? ==> s.writer.value < |s.threads| && HoldsWrite(s.threads[s.writer.value]) && s.readers == {})
    && (forall i | 0 <= i < |s.threads| && HoldsWrite(s.threads[i]) :: s.writer == Some(i))
    && (forall i | i in s.readers :: i < |s.threads| && HoldsRead(s.threads[i]))
    && (forall i | 0 <= i < |s.threads| && HoldsRead(s.threads[i]) :: i in s.readers)
  }

  /** A source's mutex is held between two steps only by a thread inside that source's `Load`. */
  ghost predicate MutexInv(s: State) {
    && (forall src | src in s.held ::
          && s.held[src] < |s.threads| && InLoad(s.threads[s.held[src]])
          && s.threads[s.held[src]].src == src && src.locksWhileLoading)
    && (forall i | 0 <= i < |s.threads| && InLoad(s.threads[i]) && s.threads[i].src.locksWhileLoading ::
          s.threads[i].src in s.held && s.held[s.threads[i].src] == i)
  }

  /** Maps are keyed by source ID and disjoint. Each reserved ID belongs to exactly one bind. */
  ghost predicate BindInv(s: State) { MapsInv(s) && ReservedInv(s) }

  ghost predicate MapsInv(s: State) {
    && s.sources.Keys !! s.loading.Keys
    && (forall id | id in s.sources :: s.sources[id].id == id)
    && (forall id | id in s.loading :: s.loading[id].id == id)
    && (forall i | 0 <= i < |s.threads| && s.threads[i].BindAttach? :: Registered(s, s.threads[i].src))
  }

  ghost predicate ReservedInv(s: State) {
    && (forall i | 0 <= i < |s.threads| && Reserved(s.threads[i]) ::
          s.threads[i].src.id in s.loading && s.loading[s.threads[i].src.id] == s.threads[i].src)
    && (forall i, j | 0 <= i < |s.threads| && 0 <= j < |s.threads| && Reserved(s.threads[i]) && Reserved(s.threads[j])
            && s.threads[i].src.id == s.threads[j].src.id :: i == j)
    && (forall id | id in s.loading :: ReservedBy(s, id))
  }

  ghost predicate ReservedBy(s: State, id: string) {
    exists i | 0 <= i < |s.threads| :: Reserved(s.threads[i]) && s.threads[i].src.id == id
  }

  ghost predicate WaitGroupInv(s: State) { s.bindWG == InFlightCount(s.threads) }

  /** `closeOnce` has at most one runner, and `closed` is set exactly once its marking is done. */
  ghost predicate CloseInv(s: State) {
    && (s.once.Running? ==> s.once.runner < |s.threads| && Runner(s.threads[s.once.runner]))
    && (forall i | 0 <= i < |s.threads| && Runner(s.threads[i]) :: s.once == Running(i))
    && (s.closed <==> s.once == Ran || (s.once.Running? && !BeforeMark(s.threads[s.once.runner])))
    && (s.once == Ran || (s.once.Running? && PastWait(s.threads[s.once.runner])) ==> s.bindWG == 0)
    && (forall i | 0 <= i < |s.threads| && s.threads[i].CloseReturned? :: s.once == Ran)
  }

  ghost predicate StillToCancel(s: State, src: Source) {
    && s.once.Running? && s.once.runner < |s.threads|
    && s.threads[s.once.runner].CloseCancel? && src in s.threads[s.once.runner].todo
  }

  /** Every accepted bind that `Close` cuts short has its source closed by that `Close`. */
  ghost predicate CancelInv(s: State) {
    forall i | 0 <= i < |s.threads| && CutShort(s.threads[i]) ::
      if s.closed then s.threads[i].src in s.stopped || StillToCancel(s, s.threads[i].src)
      else Reserved(s.threads[i])
  }

  /** Only registered self-refreshing sources hold, or are about to get, a callback. */
  ghost predicate CallbacksInv(s: State) {
    && (forall src | src in s.callbacks :: src.selfRefreshing && Registered(s, src))
    && (|s.threads| > 0 && s.threads[0].NewAttach? ==> forall src | src in s.threads[0].todo :: Registered(s, src))
  }

  /** `Close` is in its final pass, or done. */
  predicate Draining(s: State) {
    s.once == Ran || (s.once.Running? && s.once.runner < |s.threads| && PastWait(s.threads[s.once.runner]))
  }

  predicate DrainDone(s: State, src: Source) {
    && src in s.stopped && src !in s.callbacks
  }

  /** The final pass of `Close` covers every registered source. */
  ghost predicate DrainInv(s: State)
    requires CloseInv(s)
  {
    && (s.once == Ran ==> forall src | Registered(s, src) :: DrainDone(s, src))
    && (s.once.Running? && s.threads[s.once.runner].CloseDetach? ==>
          forall src | Registered(s, src) :: src in s.threads[s.once.runner].todo || DrainDone(s, src))
    && (s.once.Running? && s.threads[s.once.runner].CloseRelease? ==>
          && s.threads[s.once.runner].src !in s.callbacks
          && forall src | Registered(s, src) ::
               src in s.threads[s.once.runner].todo || src == s.threads[s.once.runner].src || DrainDone(s, src))
  }

  /** Before `New` returns, thread 0 is its own thread and no caller has reached the store. */
  ghost predicate NewInv(s: State) {
    && |s.threads| > 0
    && (forall i | 0 < i < |s.threads| :: !Constructing(s.threads[i]) && !s.threads[i].NewReturned?)
    && (s.published <==> s.threads[0].NewReturned?)
    && (!s.published ==>
          && s.bindWG == 0 && s.loading == map[]
          && (forall i | 0 < i < |s.threads| :: KindOf(s.threads[i]) == CallbackKind || IsReload(s.threads[i]))
          && (Constructing(s.threads[0]) || KindOf(s.threads[0]) == CloseKind)
          && (Constructing(s.threads[0]) ==> s.once == NotRun))
  }

  /** A goroutine of `loadSources` runs only while the call that started it is inside `loadSources`. */
  ghost predicate ReloadInv(s: State) {
    forall i | 0 <= i < |s.threads| && Reloading(s.threads[i]) ::
      && s.threads[i].parent < |s.threads|
      && (PastCheck(s.threads[s.threads[i].parent]) || s.threads[s.threads[i].parent].NewSpawn?
          || s.threads[s.threads[i].parent].NewWait?)
  }

  /** While `New` attaches, every registered self-refreshing source is attached or on its list. */
  ghost predicate AttachInv(s: State) {
    |s.threads| > 0 && s.threads[0].NewAttach? ==> forall src | Registered(s, src) && src.selfRefreshing ::
      src in s.callbacks || src in s.threads[0].todo
  }

  /** The store is in its callers' hands and `Close` has not begun to detach. */
  predicate Serving(s: State) {
    && s.published && s.once != Ran
    && (s.once.Running? && s.once.runner < |s.threads| ==> !Detaching(s.threads[s.once.runner]))
  }

  /** While serving, every registered self-refreshing source is attached, or its bind is about to attach it. */
  ghost predicate ActiveInv(s: State) {
    Serving(s) ==> forall src | Registered(s, src) && src.selfRefreshing :: src in s.callbacks || Attaching(s, src)
  }

  ghost predicate Attaching(s: State, src: Source) {
    exists i | 0 <= i < |s.threads| :: s.threads[i] == BindAttach(src)
  }

  ghost predicate Inv(s: State) {
    && LockInv(s) && MutexInv(s) && BindInv(s) && WaitGroupInv(s) && CloseInv(s)
    && CancelInv(s) && CallbacksInv(s) && DrainInv(s) && NewInv(s) && ReloadInv(s) && AttachInv(s) && ActiveInv(s)
  }

  lemma InitEstablishesInv(s: State)
    requires Init(s)
    ensures Inv(s)
  {
    assert s.threads[..0] == [];
    assert InFlightCount(s.threads) == 0;
    forall src | Registered(s, src) ensures src in s.sources.Values { }
  }

  // ----- preservation, one conjunct of the invariant at a time

  /** All threads but `i` are as they were; a thread beyond them is a new goroutine of `i`. */
  ghost predicate Others(s: State, s': State, i: nat) {
    && i < |s'.threads| && |s.threads| <= |s'.threads|
    && (forall j | 0 <= j < |s.threads| && j != i :: s'.threads[j] == s.threads[j])
    && (forall j | |s.threads| <= j < |s'.threads| && j != i ::
          s'.threads[j].ReloadLoad? && s'.threads[j].parent == i && Spawning(Was(s, i), s'.threads[i]))
  }

  lemma MovesOthers(s: State, s': State, i: nat)
    requires ThreadMove(s, s', i)
    ensures Others(s, s', i)
  {
  }

  lemma LockKept(s: State, s': State, i: nat)
    requires Others(s, s', i) && LockMove(s, s', i, Was(s, i), s'.threads[i])
    requires LockInv(s)
    ensures LockInv(s')
  {
  }

  lemma MutexKept(s: State, s': State, i: nat)
    requires Others(s, s', i) && MutexMove(s, s', i, Was(s, i), s'.threads[i])
    requires MutexInv(s)
    ensures MutexInv(s')
  {
    forall src | src in s'.held
      ensures s'.held[src] < |s'.threads| && InLoad(s'.threads[s'.held[src]])
      ensures s'.threads[s'.held[src]].src == src && src.locksWhileLoading
    {
    }
  }

  /** Reservations survive a step of thread `i`, except its own when the step ends it. */
  lemma ReservationsKept(s: State, s': State, i: nat)
    requires Others(s, s', i) && BindMove(s, s', Was(s, i), s'.threads[i])
    requires BindInv(s)
    ensures forall id | id in s'.loading :: ReservedBy(s', id)
  {
    forall id | id in s'.loading ensures ReservedBy(s', id) {
      if id in s.loading {
        var j :| 0 <= j < |s.threads| && Reserved(s.threads[j]) && s.threads[j].src.id == id;
        assert Reserved(s'.threads[j]) && s'.threads[j].src.id == id;
      } else {
        assert Reserved(s'.threads[i]) && s'.threads[i].src.id == id;
      }
    }
  }

  lemma ReservedKept(s: State, s': State, i: nat)
    requires Others(s, s', i) && BindMove(s, s', Was(s, i), s'.threads[i])
    requires BindInv(s)
    ensures ReservedInv(s')
  {
    ReservationsKept(s, s', i);
  }

  lemma MapsKept(s: State, s': State, i: nat)
    requires Others(s, s', i) && BindMove(s, s', Was(s, i), s'.threads[i])
    requires BindInv(s)
    ensures MapsInv(s')
  {
  }

  lemma WaitGroupKept(s: State, s': State, i: nat)
    requires ThreadMove(s, s', i) && BindMove(s, s', Was(s, i), s'.threads[i])
    requires WaitGroupInv(s)
    ensures WaitGroupInv(s')
  {
    if i < |s.threads| {
      CountBecome(s.threads, i, s'.threads[i]);
      if |s'.threads| > |s.threads| {
        CountSpawn(s.threads[i := s'.threads[i]], s'.threads[|s.threads|]);
      }
    } else {
      CountSpawn(s.threads, s'.threads[i]);
    }
  }

  lemma CloseKept(s: State, s': State, i: nat)
    requires Others(s, s', i) && BindMove(s, s', Was(s, i), s'.threads[i])
    requires CloseMove(s, s', i, Was(s, i), s'.threads[i])
    requires CloseInv(s) && WaitGroupInv(s)
    ensures CloseInv(s')
  {
    CountPositive(s.threads);
    if i < |s.threads| && InFlight(s.threads[i]) {
      assert s.bindWG > 0;
    }
  }

  lemma CancelKept(s: State, s': State, i: nat)
    requires Others(s, s', i) && BindMove(s, s', Was(s, i), s'.threads[i])
    requires CloseMove(s, s', i, Was(s, i), s'.threads[i])
    requires BindInv(s) && CloseInv(s) && CancelInv(s) && CloseInv(s')
    ensures CancelInv(s')
  {
    var t, t' := Was(s, i), s'.threads[i];
    forall j | 0 <= j < |s'.threads| && CutShort(s'.threads[j])
      ensures if s'.closed then s'.threads[j].src in s'.stopped || StillToCancel(s', s'.threads[j].src)
              else Reserved(s'.threads[j])
    {
      var src := s'.threads[j].src;
      if s.closed {
        assert CutShort(Was(s, j)) && Was(s, j).src == src;
        if src !in s.stopped {
          assert StillToCancel(s, src);
        }
      } else if s'.closed {
        assert t.CloseMark?;
        assert s.loading[src.id] == src;
      }
    }
  }

  lemma RegisteredKept(s: State, s': State, i: nat)
    requires Others(s, s', i) && BindMove(s, s', Was(s, i), s'.threads[i])
    requires BindInv(s)
    ensures forall src | Registered(s, src) :: Registered(s', src)
  {
  }

  lemma CallbacksKept(s: State, s': State, i: nat)
    requires Others(s, s', i) && BindMove(s, s', Was(s, i), s'.threads[i])
    requires DetachMove(s, s', Was(s, i), s'.threads[i]) && NewMove(s, s', i, Was(s, i), s'.threads[i])
    requires BindInv(s) && CallbacksInv(s) && CloseInv(s) && NewInv(s)
    ensures CallbacksInv(s')
  {
    RegisteredKept(s, s', i);
    forall src | src in s'.callbacks ensures src.selfRefreshing && Registered(s', src) {
      if src !in s.callbacks {
        assert i == 0 || Was(s, i) == BindAttach(src);
        assert Registered(s, src);
      }
    }
  }

  /** During the final pass no source is added and only the pass itself touches callbacks. */
  lemma QuietWhileDraining(s: State, s': State, i: nat)
    requires Others(s, s', i) && BindMove(s, s', Was(s, i), s'.threads[i])
    requires DetachMove(s, s', Was(s, i), s'.threads[i])
    requires WaitGroupInv(s) && CloseInv(s) && NewInv(s) && Draining(s)
    ensures s'.sources == s.sources
    ensures !Detaching(Was(s, i)) ==> s'.callbacks == s.callbacks
    ensures !InFlight(Was(s, i)) && !Constructing(Was(s, i))
  {
    CountPositive(s.threads);
    assert !InFlight(Was(s, i));
  }

  lemma DrainKept(s: State, s': State, i: nat)
    requires Others(s, s', i) && BindMove(s, s', Was(s, i), s'.threads[i])
    requires CloseMove(s, s', i, Was(s, i), s'.threads[i])
    requires DetachMove(s, s', Was(s, i), s'.threads[i])
    requires WaitGroupInv(s) && CloseInv(s) && CallbacksInv(s) && DrainInv(s) && NewInv(s) && CloseInv(s')
    ensures DrainInv(s')
  {
    if Draining(s) {
      QuietWhileDraining(s, s', i);
      assert forall src :: Registered(s', src) == Registered(s, src);
      assert s'.callbacks <= s.callbacks;
      assert forall src :: DrainDone(s, src) ==> DrainDone(s', src);
    }
  }

  lemma NewKept(s: State, s': State, i: nat)
    requires Others(s, s', i) && BindMove(s, s', Was(s, i), s'.threads[i])
    requires CloseMove(s, s', i, Was(s, i), s'.threads[i])
    requires NewMove(s, s', i, Was(s, i), s'.threads[i])
    requires CloseInv(s) && NewInv(s) && CloseInv(s')
    ensures NewInv(s')
  {
  }

  lemma ReloadKept(s: State, s': State, i: nat)
    requires Others(s, s', i) && NewMove(s, s', i, Was(s, i), s'.threads[i])
    requires ReloadInv(s)
    ensures ReloadInv(s')
  {
  }

  lemma AttachingKept(s: State, s': State, i: nat, src: Source)
    requires Others(s, s', i) && Attaching(s, src) && Was(s, i) != BindAttach(src)
    ensures Attaching(s', src)
  {
    var j :| 0 <= j < |s.threads| && s.threads[j] == BindAttach(src);
    assert s'.threads[j] == BindAttach(src);
  }

  lemma StaysActive(s: State, s': State, i: nat, src: Source)
    requires Others(s, s', i) && BindMove(s, s', Was(s, i), s'.threads[i])
    requires DetachMove(s, s', Was(s, i), s'.threads[i]) && !Detaching(s'.threads[i])
    requires src in s.callbacks || Attaching(s, src) || (src.id !in s.sources && Registered(s', src))
    requires src.selfRefreshing
    ensures src in s'.callbacks || Attaching(s', src)
  {
    if src.id !in s.sources && Registered(s', src) {
      assert s'.threads[i] == BindAttach(src);
    } else if src !in s.callbacks && Was(s, i) != BindAttach(src) {
      AttachingKept(s, s', i, src);
    }
  }

  lemma AttachKept(s: State, s': State, i: nat)
    requires Others(s, s', i) && BindMove(s, s', Was(s, i), s'.threads[i])
    requires DetachMove(s, s', Was(s, i), s'.threads[i]) && NewMove(s, s', i, Was(s, i), s'.threads[i])
    requires CloseInv(s) && NewInv(s) && AttachInv(s) && CloseInv(s') && NewInv(s')
    ensures AttachInv(s')
  {
  }

  lemma ServingKept(s: State, s': State, i: nat)
    requires Others(s, s', i) && CloseMove(s, s', i, Was(s, i), s'.threads[i])
    requires NewMove(s, s', i, Was(s, i), s'.threads[i])
    requires CloseInv(s) && NewInv(s) && CloseInv(s') && Serving(s')
    ensures Serving(s) || (Was(s, i) == NewAttach({}) && i == 0)
    ensures !Detaching(s'.threads[i])
  {
  }

  lemma ActiveKept(s: State, s': State, i: nat)
    requires Others(s, s', i) && BindMove(s, s', Was(s, i), s'.threads[i])
    requires CloseMove(s, s', i, Was(s, i), s'.threads[i])
    requires DetachMove(s, s', Was(s, i), s'.threads[i]) && NewMove(s, s', i, Was(s, i), s'.threads[i])
    requires BindInv(s) && CloseInv(s) && NewInv(s) && AttachInv(s) && ActiveInv(s) && CloseInv(s')
    ensures ActiveInv(s')
  {
    if Serving(s') {
      ServingKept(s, s', i);
      forall src | Registered(s', src) && src.selfRefreshing ensures src in s'.callbacks || Attaching(s', src) {
        if Serving(s) {
          StaysActive(s, s', i, src);
        }
      }
    }
  }

  /** Every step keeps the invariant. */
  lemma StepKeepsInv(s: State, step: Step)
    requires Inv(s) && Enabled(s, step)
    ensures Inv(Effect(s, step))
  {
    var s', i := Effect(s, step), Actor(s, step);
    StepMoves(s, step);
    MovesOthers(s, s', i);
    LockKept(s, s', i);
    MutexKept(s, s', i);
    ReservedKept(s, s', i);
    MapsKept(s, s', i);
    WaitGroupKept(s, s', i);
    CloseKept(s, s', i);
    CancelKept(s, s', i);
    CallbacksKept(s, s', i);
    DrainKept(s, s', i);
    NewKept(s, s', i);
    ReloadKept(s, s', i);
    AttachKept(s, s', i);
    ActiveKept(s, s', i);
  }

  /** The invariant holds in every state of every run, whatever the interleaving. */
  lemma {:induction false} RunKeepsInv(states: seq<State>, steps: seq<Step>, k: nat)
    requires IsRun(states, steps) && k < |states|
    ensures Inv(states[k])
  {
    if k == 0 {
      InitEstablishesInv(states[0]);
    } else {
      RunKeepsInv(states, steps, k - 1);
      StepKeepsInv(states[k - 1], steps[k - 1]);
    }
  }
}
