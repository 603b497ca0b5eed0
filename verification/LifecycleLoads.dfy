/** What the loading calls deliver: `Bind`, and the rounds of `loadSources` that `RefreshAll` and `New` run. */
module LifecycleLoads {
  import opened LoadOrder
  import opened Lifecycle
  import opened LifecycleMoves
  import opened LifecycleInvariant
  import opened LifecycleSafety

  /** A `RefreshAll` that has taken its snapshot of the sources. */
  predicate Round(t: Thread) { t.RefreshSpawn? || t.RefreshWait? || t.RefreshReturned? }

  predicate ChildOf(t: Thread, i: nat, src: Source) { IsReload(t) && t.parent == i && t.src == src }

  /** Thread `i` has handed the source to a goroutine. */
  ghost predicate HandedOut(s: State, i: nat, src: Source) {
    exists j | 0 <= j < |s.threads| :: ChildOf(s.threads[j], i, src)
  }

  /** A goroutine of thread `i` has loaded the source and stored its keys. */
  ghost predicate LoadedBy(s: State, i: nat, src: Source) {
    exists j | 0 <= j < |s.threads| :: s.threads[j] == ReloadDone(i, src, true)
  }

  /** A goroutine of thread `i` has failed to load the source. */
  ghost predicate FailedBy(s: State, i: nat, src: Source) {
    exists j | 0 <= j < |s.threads| :: s.threads[j] == ReloadDone(i, src, false)
  }

  /** A goroutine has a parent, which has started its round, and loads a source of that round. */
  ghost predicate ChildrenInv(s: State) {
    forall j | 0 <= j < |s.threads| && IsReload(s.threads[j]) ::
      && s.threads[j].parent < |s.threads|
      && !s.threads[s.threads[j].parent].RefreshEnter? && !s.threads[s.threads[j].parent].RefreshCheck?
      && (Round(s.threads[s.threads[j].parent]) ==> s.threads[j].src in s.threads[s.threads[j].parent].polled)
  }

  /** What the round of thread `i` owes to its sources. */
  ghost predicate RoundOk(s: State, i: nat)
    requires i < |s.threads|
  {
    match s.threads[i]
    case RefreshSpawn(polled, todo) => todo <= polled && forall src | src in polled - todo :: HandedOut(s, i, src)
    case RefreshWait(polled) => forall src | src in polled :: HandedOut(s, i, src)
    case RefreshReturned(polled, ok) =>
      if ok then forall src | src in polled :: LoadedBy(s, i, src)
      else exists src | src in polled :: FailedBy(s, i, src)
    case NewSpawn(todo) => forall src | Registered(s, src) && src !in todo :: HandedOut(s, i, src)
    case NewWait => forall src | Registered(s, src) :: HandedOut(s, i, src)
    case NewAttach(_) => forall src | Registered(s, src) :: LoadedBy(s, i, src)
    case _ => true
  }

  ghost predicate RoundsInv(s: State) { ChildrenInv(s) && forall i | 0 <= i < |s.threads| :: RoundOk(s, i) }

  // ----- preservation

  lemma GoroutineMoves(s: State, s': State, i: nat)
    requires Moves(s, s', i) && i < |s.threads| && IsReload(s.threads[i])
    ensures IsReload(s'.threads[i]) && s'.threads[i].parent == s.threads[i].parent
    ensures s'.threads[i].src == s.threads[i].src && !s.threads[i].ReloadDone?
  {
    hide LockMove, MutexMove, BindMove, CloseMove, DetachMove, NewMove;
  }

  lemma OthersStay(s: State, s': State, i: nat)
    requires Moves(s, s', i)
    ensures Others(s, s', i) && |s'.threads| <= |s.threads| + 1
  {
    hide LockMove, MutexMove, BindMove, CloseMove, DetachMove, NewMove, Descends, Next;
    MovesOthers(s, s', i);
  }

  lemma HandedOutStays(s: State, s': State, i: nat, p: nat, src: Source)
    requires Moves(s, s', i) && HandedOut(s, p, src)
    ensures HandedOut(s', p, src)
  {
    hide Moves;
    var j :| 0 <= j < |s.threads| && ChildOf(s.threads[j], p, src);
    OthersStay(s, s', i);
    if j == i { GoroutineMoves(s, s', i); }
    assert ChildOf(s'.threads[j], p, src);
  }

  lemma DoneStays(s: State, s': State, i: nat, p: nat, src: Source)
    requires Moves(s, s', i)
    ensures LoadedBy(s, p, src) ==> LoadedBy(s', p, src)
    ensures FailedBy(s, p, src) ==> FailedBy(s', p, src)
  {
    hide Moves;
    OthersStay(s, s', i);
    if i < |s.threads| && s.threads[i].ReloadDone? { GoroutineMoves(s, s', i); }
    if LoadedBy(s, p, src) {
      var j :| 0 <= j < |s.threads| && s.threads[j] == ReloadDone(p, src, true);
      assert s'.threads[j] == ReloadDone(p, src, true);
    }
    if FailedBy(s, p, src) {
      var j :| 0 <= j < |s.threads| && s.threads[j] == ReloadDone(p, src, false);
      assert s'.threads[j] == ReloadDone(p, src, false);
    }
  }

  /** Into a round there is one way: the check of a `RefreshAll`, which takes the whole snapshot. */
  lemma RoundMoves(s: State, s': State, i: nat)
    requires Moves(s, s', i)
    ensures var t, t' := Was(s, i), s'.threads[i];
      && (Round(t) ==> Round(t') && t'.polled == t.polled)
      && (Round(t') && !Round(t) ==> t.RefreshCheck? && !s.closed && t' == RefreshSpawn(Polled(s), Polled(s)))
      && (t'.RefreshEnter? || t'.RefreshCheck? ==> t.RefreshEnter? || i >= |s.threads|)
      && (IsReload(t') ==> IsReload(t))
  {
    hide LockMove, MutexMove, BindMove, CloseMove, DetachMove, Polled, ThreadMove, ChildrenDone, ChildrenOk;
  }

  lemma SpawnedGoroutine(s: State, s': State, i: nat)
    requires Moves(s, s', i) && i < |s.threads| < |s'.threads|
    ensures s'.threads[|s.threads|].ReloadLoad? && s'.threads[|s.threads|].parent == i
    ensures s'.threads[i].RefreshSpawn? || s'.threads[i].NewSpawn?
    ensures s'.threads[i].RefreshSpawn? ==>
      s.threads[i].RefreshSpawn? && s'.threads[i].polled == s.threads[i].polled
      && s'.threads[|s.threads|].src in s.threads[i].todo
  {
    hide LockMove, MutexMove, BindMove, CloseMove, DetachMove, NewMove, Descends, Polled, ChildrenDone, ChildrenOk;
  }

  lemma ChildrenKept(s: State, s': State, i: nat)
    requires Moves(s, s', i) && RoundsInv(s)
    ensures ChildrenInv(s')
  {
    hide Moves;
    OthersStay(s, s', i);
    RoundMoves(s, s', i);
    forall j | 0 <= j < |s'.threads| && IsReload(s'.threads[j])
      ensures s'.threads[j].parent < |s'.threads|
      ensures var p := s'.threads[s'.threads[j].parent];
        !p.RefreshEnter? && !p.RefreshCheck? && (Round(p) ==> s'.threads[j].src in p.polled)
    {
      if j < |s.threads| {
        if j == i { GoroutineMoves(s, s', i); }
        assert IsReload(s.threads[j]);
      } else {
        SpawnedGoroutine(s, s', i);
        assert RoundOk(s, i);
      }
    }
  }

  /** What the other rounds have, they keep. */
  lemma OtherRoundKept(s: State, s': State, i: nat, p: nat)
    requires Moves(s, s', i) && RoundsInv(s) && p < |s.threads| && p != i
    requires NewInv(s) && WaitGroupInv(s)
    ensures RoundOk(s', p)
  {
    hide Moves, ChildrenInv;
    OthersStay(s, s', i);
    assert RoundOk(s, p);
    forall src ensures HandedOut(s, p, src) ==> HandedOut(s', p, src) {
      if HandedOut(s, p, src) { HandedOutStays(s, s', i, p, src); }
    }
    forall src
      ensures LoadedBy(s, p, src) ==> LoadedBy(s', p, src)
      ensures FailedBy(s, p, src) ==> FailedBy(s', p, src)
    {
      DoneStays(s, s', i, p, src);
    }
    if Constructing(s.threads[p]) {
      NothingRegisters(s, s', i);
    }
  }

  /** While `New` is constructing, no source is added. */
  lemma NothingRegisters(s: State, s': State, i: nat)
    requires Moves(s, s', i) && NewInv(s) && WaitGroupInv(s) && !s.published
    ensures s'.sources == s.sources
  {
    hide LockMove, MutexMove, CloseMove, DetachMove, NewMove, Descends, Next, ThreadMove;
    CountPositive(s.threads);
  }

  /** A source that leaves the range has been handed out. */
  lemma HandsOutKeeps(s: State, s': State, i: nat, todo: set<Source>, todo': set<Source>, src: Source)
    requires Moves(s, s', i) && HandsOut(s, s', i, todo, todo') && src !in todo'
    requires src !in todo ==> HandedOut(s, i, src)
    ensures HandedOut(s', i, src)
  {
    hide Moves;
    if src in todo {
      assert ChildOf(s'.threads[|s.threads|], i, src);
    } else {
      HandedOutStays(s, s', i, i, src);
    }
  }

  lemma DoneAndOk(s: State, i: nat, src: Source)
    requires HandedOut(s, i, src) && ChildrenDone(s, i) && ChildrenOk(s, i)
    ensures LoadedBy(s, i, src)
  {
    var j :| 0 <= j < |s.threads| && ChildOf(s.threads[j], i, src);
    assert s.threads[j] == ReloadDone(i, src, true);
  }

  lemma DoneAndNotOk(s: State, i: nat)
    requires ChildrenInv(s) && i < |s.threads| && Round(s.threads[i]) && !ChildrenOk(s, i)
    ensures exists src | src in s.threads[i].polled :: FailedBy(s, i, src)
  {
    var j :| 0 <= j < |s.threads| && s.threads[j].ReloadDone? && s.threads[j].parent == i && !s.threads[j].ok;
    var src := s.threads[j].src;
    assert s.threads[j] == ReloadDone(i, src, false);
    assert IsReload(s.threads[j]) && src in s.threads[i].polled;
  }

  lemma Took(s: State, s': State, i: nat)
    requires Moves(s, s', i)
    ensures i < |s'.threads| && Next(s, s', i, Was(s, i), s'.threads[i])
    ensures i < |s.threads| ==> KindOf(s'.threads[i]) == KindOf(s.threads[i]) || s'.threads[i].CloseEnter?
    ensures Constructing(s'.threads[i]) ==> i < |s.threads| && Constructing(s.threads[i])
    ensures i < |s.threads| ==> !s.threads[i].RefreshReturned?
  {
    hide LockMove, MutexMove, BindMove, CloseMove, DetachMove, Next, KindOf;
  }

  /** The round that takes the step: out of the check, through its range, and to its result. */
  lemma RefreshKept(s: State, s': State, i: nat)
    requires Moves(s, s', i) && RoundsInv(s) && Round(s'.threads[i])
    ensures RoundOk(s', i)
  {
    hide Moves, ChildrenInv, ChildrenDone, ChildrenOk, HandsOut, Polled;
    RoundMoves(s, s', i);
    Took(s, s', i);
    if i < |s.threads| {
      assert RoundOk(s, i);
      match s.threads[i]
      case RefreshCheck =>
      case RefreshSpawn(polled, todo) =>
        if todo == {} {
          forall src | src in polled ensures HandedOut(s', i, src) { HandedOutStays(s, s', i, i, src); }
        } else {
          RangeShrinks(s, s', i);
          forall src | src in polled - s'.threads[i].todo ensures HandedOut(s', i, src) {
            HandsOutKeeps(s, s', i, todo, s'.threads[i].todo, src);
          }
        }
      case RefreshWait(polled) => RefreshReturns(s, s', i);
      case _ =>
    }
  }

  lemma RangeShrinks(s: State, s': State, i: nat)
    requires i < |s.threads| && i < |s'.threads| && s.threads[i].RefreshSpawn? && s'.threads[i].RefreshSpawn?
    requires HandsOut(s, s', i, s.threads[i].todo, s'.threads[i].todo)
    ensures s'.threads[i].todo <= s.threads[i].todo
  {
  }

  lemma RefreshReturns(s: State, s': State, i: nat)
    requires Moves(s, s', i) && RoundsInv(s) && i < |s.threads| && s.threads[i].RefreshWait?
    ensures s'.threads[i].RefreshReturned? && RoundOk(s', i)
  {
    hide Moves, ChildrenDone, ChildrenOk, HandsOut, Polled;
    Took(s, s', i);
    assert RoundOk(s, i);
    var polled := s.threads[i].polled;
    if ChildrenOk(s, i) {
      forall src | src in polled ensures LoadedBy(s', i, src) {
        DoneAndOk(s, i, src);
        DoneStays(s, s', i, i, src);
      }
    } else {
      DoneAndNotOk(s, i);
      var src :| src in polled && FailedBy(s, i, src);
      DoneStays(s, s', i, i, src);
    }
  }

  lemma NewRoundKept(s: State, s': State, i: nat)
    requires Moves(s, s', i) && RoundsInv(s) && NewInv(s) && WaitGroupInv(s) && Constructing(s'.threads[i])
    ensures RoundOk(s', i)
  {
    hide Moves, ChildrenInv, ChildrenDone, ChildrenOk, HandsOut, Polled, KindOf, HandedOut, LoadedBy;
    Took(s, s', i);
    NothingRegisters(s, s', i);
    assert RoundOk(s, i);
    match s.threads[i]
    case NewSpawn(todo) =>
      forall src | Registered(s', src) && (s'.threads[i].NewSpawn? ==> src !in s'.threads[i].todo)
        ensures HandedOut(s', i, src)
      {
        if todo == {} { HandedOutStays(s, s', i, i, src); }
        else { HandsOutKeeps(s, s', i, todo, s'.threads[i].todo, src); }
      }
    case NewWait =>
      forall src | Registered(s', src) ensures LoadedBy(s', i, src) {
        DoneAndOk(s, i, src);
        DoneStays(s, s', i, i, src);
      }
    case NewAttach(_) =>
      forall src | Registered(s', src) ensures LoadedBy(s', i, src) { DoneStays(s, s', i, i, src); }
  }

  lemma StepKeepsRounds(s: State, step: Step)
    requires Inv(s) && RoundsInv(s) && Enabled(s, step)
    ensures RoundsInv(Effect(s, step))
  {
    hide Moves, ChildrenInv, RoundOk, Effect, Enabled, LockInv, MutexInv, CloseInv, NewInv;
    var s', i := Effect(s, step), Actor(s, step);
    StepMoves(s, step);
    ChildrenKept(s, s', i);
    OthersStay(s, s', i);
    forall p | 0 <= p < |s'.threads| ensures RoundOk(s', p) {
      if p < |s.threads| && p != i {
        OtherRoundKept(s, s', i, p);
      } else if p == i && Round(s'.threads[i]) {
        RefreshKept(s, s', i);
      } else if p == i && Constructing(s'.threads[i]) {
        NewRoundKept(s, s', i);
      } else {
        NoRound(s', p);
      }
    }
  }

  lemma NoRound(s: State, p: nat)
    requires p < |s.threads| && !Round(s.threads[p]) && !Constructing(s.threads[p])
    ensures RoundOk(s, p)
  {
  }

  lemma {:induction false} RunKeepsRounds(states: seq<State>, steps: seq<Step>, k: nat)
    requires IsRun(states, steps) && k < |states|
    ensures Inv(states[k]) && RoundsInv(states[k])
  {
    hide Inv, Effect, Enabled;
    RunKeepsInv(states, steps, k);
    if k > 0 {
      RunKeepsRounds(states, steps, k - 1);
      StepKeepsRounds(states[k - 1], steps[k - 1]);
    }
  }

  // ----- whole runs: what has been stored

  /** At step `m` a goroutine of thread `i` stores the keys it has loaded from the source. */
  ghost predicate Stores(states: seq<State>, steps: seq<Step>, m: nat, i: nat, src: Source) {
    && m < |steps| && m + 1 < |states| && steps[m].Run? && steps[m].i < |states[m].threads|
    && var t := states[m].threads[steps[m].i];
    && t.ReloadStore? && t.parent == i && t.src == src
    && states[m + 1].repository == Stored(states[m].repository, Load(src.id, t.keys))
  }

  lemma OnlyRunStores(s: State, step: Step)
    requires Enabled(s, step) && Actor(s, step) < |s.threads| && s.threads[Actor(s, step)].ReloadStore?
    ensures step == Run(Actor(s, step))
  {
  }

  /** The step that finishes a successful goroutine is the one that stores. */
  lemma FinishStores(s: State, step: Step, j: nat)
    requires Enabled(s, step) && var s' := Effect(s, step);
      j < |s'.threads| && s'.threads[j].ReloadDone? && s'.threads[j].ok
    requires j < |s.threads| ==> !s.threads[j].ReloadDone?
    ensures step == Run(j) && j < |s.threads| && s.threads[j].ReloadStore?
    ensures var t, t' := s.threads[j], Effect(s, step).threads[j];
      && t.parent == t'.parent && t.src == t'.src
      && Effect(s, step).repository == Stored(s.repository, Load(t.src.id, t.keys))
  {
    var s', i := Effect(s, step), Actor(s, step);
    hide Effect, Enabled, Moves, Stored, KindOf;
    StepMoves(s, step);
    OthersStay(s, s', i);
    RoundMoves(s, s', i);
    Took(s, s', i);
    OnlyRunStores(s, step);
    StepWrites(s, step);
  }

  lemma {:induction false} DoneWasStored(states: seq<State>, steps: seq<Step>, k: nat, j: nat) returns (m: nat)
    requires IsRun(states, steps) && k < |states|
    requires j < |states[k].threads| && states[k].threads[j].ReloadDone? && states[k].threads[j].ok
    ensures m < k && Stores(states, steps, m, states[k].threads[j].parent, states[k].threads[j].src)
  {
    hide Effect, Enabled, Stored;
    if k > 0 {
      var s := states[k - 1];
      if j < |s.threads| && s.threads[j].ReloadDone? {
        DoneNeverMoves(s, steps[k - 1], j);
        m := DoneWasStored(states, steps, k - 1, j);
      } else {
        FinishStores(s, steps[k - 1], j);
        m := k - 1;
      }
    }
  }

  lemma DoneNeverMoves(s: State, step: Step, j: nat)
    requires Enabled(s, step) && j < |s.threads| && s.threads[j].ReloadDone?
    ensures j < |Effect(s, step).threads| && Effect(s, step).threads[j] == s.threads[j]
  {
    var s', i := Effect(s, step), Actor(s, step);
    hide Effect, Enabled, Moves;
    StepMoves(s, step);
    OthersStay(s, s', i);
    if i == j { GoroutineMoves(s, s', i); }
  }

  /** Thread `i` sees the store open and takes its snapshot. */
  predicate Checks(s: State, i: nat, polled: set<Source>) {
    && i < |s.threads| && s.threads[i].RefreshCheck? && !s.closed
    && polled == Polled(s)
  }

  lemma CheckedMeans(s: State, i: nat, polled: set<Source>)
    requires Checks(s, i, polled)
    ensures forall src :: src in polled <==> src in s.sources.Values && !src.selfRefreshing
  {
  }

  lemma {:induction false} RoundWasChecked(states: seq<State>, steps: seq<Step>, k: nat, i: nat) returns (m: nat)
    requires IsRun(states, steps) && k < |states| && i < |states[k].threads| && Round(states[k].threads[i])
    ensures m < k && Checks(states[m], i, states[k].threads[i].polled)
  {
    hide Effect, Enabled, Polled;
    if k > 0 {
      var s, s' := states[k - 1], states[k];
      RoundComesFrom(s, steps[k - 1], i);
      if Round(s.threads[i]) {
        m := RoundWasChecked(states, steps, k - 1, i);
      } else {
        m := k - 1;
      }
    }
  }

  lemma RoundComesFrom(s: State, step: Step, p: nat)
    requires Enabled(s, step) && p < |Effect(s, step).threads| && Round(Effect(s, step).threads[p])
    ensures p < |s.threads|
    ensures var polled := Effect(s, step).threads[p].polled;
      (Round(s.threads[p]) && s.threads[p].polled == polled) || Checks(s, p, polled)
  {
    var s', i := Effect(s, step), Actor(s, step);
    hide Effect, Enabled, Moves;
    StepMoves(s, step);
    OthersStay(s, s', i);
    RoundMoves(s, s', i);
  }

  /** Before its check, a `RefreshAll` has not started any goroutine. */
  lemma {:induction false} NothingBeforeCheck(states: seq<State>, steps: seq<Step>, m: nat, k: nat, i: nat)
    requires IsRun(states, steps) && m <= k < |states| && i < |states[k].threads| && i < |states[m].threads|
    requires states[k].threads[i].RefreshEnter? || states[k].threads[i].RefreshCheck?
    ensures states[m].threads[i].RefreshEnter? || states[m].threads[i].RefreshCheck?
  {
    hide Effect, Enabled, Moves;
    if m < k {
      var s, s', step := states[k - 1], states[k], steps[k - 1];
      ThreadsGrow(states, steps, m, k - 1);
      StepMoves(s, step);
      OthersStay(s, s', Actor(s, step));
      RoundMoves(s, s', Actor(s, step));
      NothingBeforeCheck(states, steps, m, k - 1, i);
    }
  }

  lemma {:induction false} ThreadsGrow(states: seq<State>, steps: seq<Step>, m: nat, k: nat)
    requires IsRun(states, steps) && m <= k < |states|
    ensures |states[m].threads| <= |states[k].threads|
  {
    hide Effect, Enabled, Moves;
    if m < k {
      ThreadsGrow(states, steps, m, k - 1);
      StepMoves(states[k - 1], steps[k - 1]);
      OthersStay(states[k - 1], states[k], Actor(states[k - 1], steps[k - 1]));
    }
  }

  /** `RefreshAll`: it polls exactly the sources that were registered and not self-refreshing when it saw
      the store open. If it returns no error, each of them has been loaded and stored since; if it returns
      an error, one of them has failed to load. */
  lemma RefreshAllLoadsAll(states: seq<State>, steps: seq<Step>, k: nat, i: nat) returns (check: nat)
    requires IsRun(states, steps) && k < |states|
    requires i < |states[k].threads| && states[k].threads[i].RefreshReturned?
    ensures check < k && Checks(states[check], i, states[k].threads[i].polled)
    ensures forall src :: src in states[k].threads[i].polled <==>
      src in states[check].sources.Values && !src.selfRefreshing
    ensures states[k].threads[i].ok ==>
      forall src | src in states[k].threads[i].polled :: exists m | check < m < k :: Stores(states, steps, m, i, src)
    ensures !states[k].threads[i].ok ==>
      exists src | src in states[k].threads[i].polled :: FailedBy(states[k], i, src)
  {
    hide Stores, IsRun, Inv, ChildrenInv, Checks, Stored;
    check := RoundWasChecked(states, steps, k, i);
    CheckedMeans(states[check], i, states[k].threads[i].polled);
    RunKeepsRounds(states, steps, k);
    assert RoundOk(states[k], i);
    if states[k].threads[i].ok {
      forall src | src in states[k].threads[i].polled
        ensures exists m | check < m < k :: Stores(states, steps, m, i, src)
      {
        var j :| 0 <= j < |states[k].threads| && states[k].threads[j] == ReloadDone(i, src, true);
        var m := DoneWasStored(states, steps, k, j);
        StoredAfterCheck(states, steps, m, check, i, src, states[k].threads[i].polled);
      }
    }
  }

  lemma StoredAfterCheck(
    states: seq<State>, steps: seq<Step>, m: nat, check: nat, i: nat, src: Source, polled: set<Source>)
    requires IsRun(states, steps) && check < |states|
    requires Stores(states, steps, m, i, src) && Checks(states[check], i, polled)
    ensures check < m
  {
    hide Inv, RoundOk, Stored, Polled, IsRun;
    if m <= check {
      RunKeepsRounds(states, steps, m);
      var j := steps[m].i;
      assert IsReload(states[m].threads[j]);
      NothingBeforeCheck(states, steps, m, check, i);
    }
  }

  /** `New` attaches callbacks only after every registered source has been loaded and stored. */
  lemma NewLoadsAll(states: seq<State>, steps: seq<Step>, k: nat, src: Source)
    requires IsRun(states, steps) && k < |states| && |states[k].threads| > 0 && states[k].threads[0].NewAttach?
    requires Registered(states[k], src)
    ensures exists m | 0 <= m < k :: Stores(states, steps, m, 0, src)
  {
    hide Stores, IsRun, Inv, ChildrenInv, Stored;
    RunKeepsRounds(states, steps, k);
    assert RoundOk(states[k], 0);
    var j :| 0 <= j < |states[k].threads| && states[k].threads[j] == ReloadDone(0, src, true);
    var m := DoneWasStored(states, steps, k, j);
  }

  // ----- Bind

  /** A bind that has committed. */
  predicate Committed(t: Thread) { t.BindAttach? || ((t.BindSignal? || t.BindReturned?) && t.outcome == Bound) }

  /** At step `m` the bind of thread `i` stores the keys it has loaded, in an open store. */
  ghost predicate Commits(states: seq<State>, steps: seq<Step>, m: nat, i: nat, src: Source) {
    && m < |steps| && m + 1 < |states| && steps[m] == Run(i) && i < |states[m].threads|
    && var t := states[m].threads[i];
    && t.BindCommit? && t.src == src && t.result.Loaded? && !states[m].closed
    && states[m + 1].repository == Stored(states[m].repository, Load(src.id, t.result.keys))
  }

  lemma OnlyRunCommits(s: State, step: Step)
    requires Enabled(s, step)
    ensures var i := Actor(s, step); i < |s.threads| && s.threads[i].BindCommit? ==> step == Run(i)
  {
  }

  lemma CommitMoves(s: State, s': State, i: nat)
    requires Moves(s, s', i) && Committed(s'.threads[i])
    ensures i < |s.threads|
    ensures var t, t' := s.threads[i], s'.threads[i];
      || (Committed(t) && t.src == t'.src)
      || (t.BindCommit? && t.src == t'.src && t.result.Loaded? && !s.closed && t'.BindAttach?)
  {
    hide LockMove, MutexMove, BindMove, CloseMove, DetachMove, ThreadMove, Polled, ChildrenDone, ChildrenOk, HandsOut;
  }

  lemma NewIsNoBind(s: State, s': State, i: nat)
    requires Moves(s, s', i)
    ensures i < |s.threads| < |s'.threads| ==> !Committed(s'.threads[|s.threads|])
  {
    hide LockMove, MutexMove, BindMove, CloseMove, DetachMove, NewMove, Descends, Next;
  }

  lemma CommittedComesFrom(s: State, step: Step, p: nat)
    requires Enabled(s, step) && p < |Effect(s, step).threads| && Committed(Effect(s, step).threads[p])
    ensures p < |s.threads|
    ensures var t, t' := s.threads[p], Effect(s, step).threads[p];
      || (Committed(t) && t.src == t'.src)
      || (step == Run(p) && t.BindCommit? && t.src == t'.src && t.result.Loaded? && !s.closed
          && t'.BindAttach? && Effect(s, step).repository == Stored(s.repository, Load(t.src.id, t.result.keys)))
  {
    var s', i := Effect(s, step), Actor(s, step);
    hide Effect, Enabled, Moves, Stored, Committed;
    StepMoves(s, step);
    OthersStay(s, s', i);
    if i == p { CommitMoves(s, s', i); }
    NewIsNoBind(s, s', i);
    OnlyRunCommits(s, step);
    StepWrites(s, step);
  }

  /** A bind that returns success has stored its keys in an open store, and its source is registered then
      and for ever after. */
  lemma {:induction false} BoundIsStored(states: seq<State>, steps: seq<Step>, k: nat, i: nat) returns (m: nat)
    requires IsRun(states, steps) && k < |states| && i < |states[k].threads| && Committed(states[k].threads[i])
    ensures m < k && Commits(states, steps, m, i, states[k].threads[i].src)
    ensures Registered(states[k], states[k].threads[i].src)
  {
    hide Effect, Enabled, Inv, Stored, Registered;
    if k > 0 {
      var s, step, src := states[k - 1], steps[k - 1], states[k].threads[i].src;
      CommittedComesFrom(s, step, i);
      if Committed(s.threads[i]) {
        m := BoundIsStored(states, steps, k - 1, i);
        RunKeepsInv(states, steps, k - 1);
        StaysRegistered(s, step, src);
      } else {
        m := k - 1;
        RunKeepsInv(states, steps, k);
        AttachingIsRegistered(states[k], i);
      }
    }
  }

  lemma StaysRegistered(s: State, step: Step, src: Source)
    requires Inv(s) && Enabled(s, step) && Registered(s, src)
    ensures Registered(Effect(s, step), src)
  {
    var s', i := Effect(s, step), Actor(s, step);
    hide Effect, Enabled, LockMove, MutexMove, CloseMove, DetachMove, NewMove, Descends, Next;
    StepMoves(s, step);
    OthersStay(s, s', i);
    RegisteredKept(s, s', i);
  }

  lemma AttachingIsRegistered(s: State, i: nat)
    requires Inv(s) && i < |s.threads| && s.threads[i].BindAttach?
    ensures Registered(s, s.threads[i].src)
  {
  }
}
