/** What one step of the lifecycle may change, part of the state by part. */
module LifecycleMoves {
  import opened Wrappers
  import opened Lifecycle

  // Thread `i` goes from `t` to `t'`; a thread that starts counts as coming from `BindRejected`.

  function Was(s: State, i: nat): Thread { if i < |s.threads| then s.threads[i] else BindRejected }

  predicate Spawning(t: Thread, t': Thread) {
    (t.RefreshSpawn? && t'.RefreshSpawn?) || (t.NewSpawn? && t'.NewSpawn?)
  }

  predicate ThreadMove(s: State, s': State, i: nat) {
    if i < |s'.threads| == |s.threads| then s'.threads == s.threads[i := s'.threads[i]]
    else if i == |s.threads| then |s'.threads| == i + 1 && s'.threads == s.threads + [s'.threads[i]]
    else
      && i < |s.threads| && |s'.threads| == |s.threads| + 1
      && s'.threads == s.threads[i := s'.threads[i]] + [s'.threads[|s.threads|]]
      && s'.threads[|s.threads|].ReloadLoad? && s'.threads[|s.threads|].parent == i
      && Spawning(s.threads[i], s'.threads[i])
  }

  predicate LockMove(s: State, s': State, i: nat, t: Thread, t': Thread) {
    && s'.writer == (if HoldsWrite(t') then Some(i) else if HoldsWrite(t) then None else s.writer)
    && s'.readers == (if HoldsRead(t') then s.readers + {i} else if HoldsRead(t) then s.readers - {i} else s.readers)
    && (HoldsWrite(t') ==> LockFree(s))
    && (HoldsRead(t') ==> s.writer == None)
  }

  predicate MutexMove(s: State, s': State, i: nat, t: Thread, t': Thread) {
    && !(InLoad(t) && InLoad(t'))
    && (InLoad(t') ==> t'.src !in s.held && s'.held == HoldFor(s, i, t'.src))
    && (InLoad(t) ==> (t.src in s.held ==> s.held[t.src] == i) && s'.held == s.held - {t.src})
    && (!InLoad(t) && !InLoad(t') ==> s'.held == s.held)
  }

  predicate BindMove(s: State, s': State, t: Thread, t': Thread) {
    && (Reserved(t') && !Reserved(t) ==>
          && !s.closed && t'.src.id !in s.sources && t'.src.id !in s.loading
          && s'.loading == s.loading[t'.src.id := t'.src])
    && (Reserved(t) && !Reserved(t') ==> s'.loading == s.loading - {t.src.id})
    && (Reserved(t) && Reserved(t') ==> t'.src == t.src)
    && (Reserved(t) == Reserved(t') ==> s'.loading == s.loading)
    && (t'.BindAttach? ==>
          !s.closed && Reserved(t) && t.src == t'.src && s'.sources == s.sources[t'.src.id := t'.src])
    && (!t'.BindAttach? ==> s'.sources == s.sources)
    && s'.bindWG == s.bindWG + (if InFlight(t') then 1 else 0) - (if InFlight(t) then 1 else 0)
    && (InFlight(t') && !InFlight(t) ==> !s.closed)
    && (CutShort(t') ==> (CutShort(t) && t.src == t'.src) || !s.closed)
    && (CutShort(t') && !Reserved(t') ==> s.closed || (CutShort(t) && !Reserved(t)))
  }

  predicate CloseMove(s: State, s': State, i: nat, t: Thread, t': Thread) {
    && (Runner(t') && !Runner(t) ==> t'.CloseBegin? && s.once == NotRun && s'.once == Running(i))
    && (Runner(t) && !Runner(t') ==> t == CloseDetach({}) && t'.CloseReturned? && s'.once == Ran)
    && (Runner(t) == Runner(t') ==> s'.once == s.once)
    && (t'.CloseReturned? && !Runner(t) ==> s.once == Ran)
    && s'.closed == (s.closed || t.CloseMark?)
    && (t.CloseMark? ==> t' == CloseCancel(s.loading.Values))
    && (Runner(t) && Runner(t') && !t.CloseMark? ==> BeforeMark(t) == BeforeMark(t'))
    && (PastWait(t') ==> PastWait(t) || (t.CloseWait? && s.bindWG == 0))
    && (PastWait(t) && Runner(t') ==> PastWait(t'))
    && (Detaching(t) && Runner(t') ==> Detaching(t'))
    && (t.CloseCancel? ==> t.todo <= (if t'.CloseCancel? then t'.todo else {}) + s'.stopped)
    && s.stopped <= s'.stopped
  }

  predicate DetachMove(s: State, s': State, t: Thread, t': Thread) {
    && (t.BindAttach? ==> s'.callbacks == Attached(s, t.src))
    && (t.CloseDetach? && t'.CloseRelease? ==>
          && t'.todo == t.todo - {t'.src}
          && s'.callbacks == (if t'.src.selfRefreshing then s.callbacks - {t'.src} else s.callbacks))
    && (t.NewAttach? && t'.NewAttach? ==>
          exists src | src in t.todo :: t'.todo == t.todo - {src} && s'.callbacks == Attached(s, src))
    && (!t.BindAttach? && !(t.CloseDetach? && t'.CloseRelease?) && !(t.NewAttach? && t'.NewAttach?) ==>
          s'.callbacks == s.callbacks)
    && (t.CloseRelease? ==> t' == CloseDetach(t.todo) && s'.stopped == s.stopped + {t.src})
    && (t'.CloseDetach? ==> t.CloseRelease? || (t.CloseCollect? && t'.todo == s.sources.Values))
    && (t'.CloseRelease? ==> t.CloseDetach?)
  }

  predicate NewMove(s: State, s': State, i: nat, t: Thread, t': Thread) {
    && (Constructing(t') ==> Constructing(t))
    && (Constructing(t) ==> Constructing(t') || t'.NewReturned? || t'.CloseEnter?)
    && (t'.NewReturned? ==> t == NewAttach({}))
    && s'.published == (s.published || t'.NewReturned?)
    && (t.NewWait? && t'.NewAttach? ==> t'.todo == s.sources.Values)
    && (t'.NewAttach? ==> t.NewWait? || t.NewAttach?)
    && !t.NewReturned?
    && (i < |s.threads| ==> KindOf(t') == KindOf(t) || (t.NewWait? && t'.CloseEnter?))
    && (i < |s.threads| && IsReload(t) ==> IsReload(t'))
    && (i >= |s.threads| ==> KindOf(t') == CallbackKind || s.published)
    && (Reloading(t') ==> Reloading(t) && t.parent == t'.parent)
    && (PastCheck(t) || t.NewSpawn? || t.NewWait? ==>
          PastCheck(t') || t'.NewSpawn? || t'.NewWait? || ChildrenDone(s, i))
    && (PastCheck(t') ==> PastCheck(t) || !s.closed)
  }

  /** How far a thread is from its return, leaving out ranges still to be walked and reload goroutines. */
  function PcRank(t: Thread): nat {
    match t
    case BindEnter(_) => 8
    case BindReserve(_) => 7
    case BindLoad(_) => 6
    case BindLoading(_) => 5
    case BindLoaded(_, _) => 4
    case BindCommit(_, _) => 3
    case BindAttach(_) => 2
    case BindSignal(_, _) => 1
    case CloseEnter => 9
    case CloseBegin => 8
    case CloseMark => 7
    case CloseCancel(_) => 6
    case CloseWait => 5
    case CloseGather => 4
    case CloseCollect => 3
    case CloseDetach(_) => 2
    case CloseRelease(_, _) => 2
    case RefreshEnter => 4
    case RefreshCheck => 3
    case RefreshSpawn(_, _) => 2
    case RefreshWait(_) => 1
    case CallbackEnter(_, _) => 2
    case CallbackBody(_, _) => 1
    case NewSpawn(_) => 12
    case NewWait => 11
    case NewAttach(_) => 10
    case _ => 0
  }

  /** The elements of the range a thread still has to walk. */
  function TodoRank(t: Thread): nat {
    match t
    case CloseCancel(todo) => |todo|
    case CloseDetach(todo) => |todo|
    case CloseRelease(todo, _) => |todo|
    case RefreshSpawn(_, todo) => |todo|
    case NewSpawn(todo) => |todo|
    case NewAttach(todo) => |todo|
    case _ => 0
  }

  function ReloadRank(t: Thread): nat {
    match t
    case ReloadLoad(_, _) => 3
    case ReloadLoading(_, _) => 2
    case ReloadStore(_, _, _) => 1
    case CloseRelease(_, _) => 1
    case _ => 0
  }

  /** A step takes its thread nearer to its return, in the lexicographic order of the three ranks. */
  predicate Descends(t: Thread, t': Thread) {
    || PcRank(t') < PcRank(t)
    || (PcRank(t') == PcRank(t) && TodoRank(t') < TodoRank(t))
    || (PcRank(t') == PcRank(t) && TodoRank(t') == TodoRank(t) && ReloadRank(t') < ReloadRank(t))
  }

  /** A round hands one source of its range to a new goroutine. */
  predicate HandsOut(s: State, s': State, i: nat, todo: set<Source>, todo': set<Source>) {
    && |s'.threads| == |s.threads| + 1 && s'.threads[|s.threads|].ReloadLoad?
    && s'.threads[|s.threads|].parent == i && s'.threads[|s.threads|].src in todo
    && todo' == todo - {s'.threads[|s.threads|].src}
  }

  /** Where a call can start, and where the loading calls can go from each of their program points. */
  predicate Next(s: State, s': State, i: nat, t: Thread, t': Thread) {
    match t
    case BindRejected =>
      || t'.BindEnter? || t'.BindRejected? || t'.CloseEnter? || t'.RefreshEnter?
      || (t'.CallbackEnter? && t'.src in s.callbacks)
    case BindEnter(src) => t' == BindReserve(src)
    case BindReserve(src) =>
      t' == if s.closed then BindReturned(src, Refused)
            else if src.id in s.sources || src.id in s.loading then BindReturned(src, Duplicate)
            else BindLoad(src)
    case BindLoad(src) => t' == BindLoading(src)
    case BindLoading(src) => t'.BindLoaded? && t'.src == src
    case BindLoaded(src, result) => t' == BindCommit(src, result)
    case BindCommit(src, result) =>
      t' == if result.LoadFailed? then BindSignal(src, Failed)
            else if s.closed then BindSignal(src, Interrupted)
            else BindAttach(src)
    case BindAttach(src) => t' == BindSignal(src, Bound)
    case BindSignal(src, outcome) => t' == BindReturned(src, outcome)
    case RefreshEnter => t' == RefreshCheck
    case RefreshCheck => t' == if s.closed then RefreshRefused else RefreshSpawn(Polled(s), Polled(s))
    case RefreshSpawn(polled, todo) =>
      if todo == {} then t' == RefreshWait(polled)
      else t'.RefreshSpawn? && t'.polled == polled && HandsOut(s, s', i, todo, t'.todo)
    case RefreshWait(polled) => ChildrenDone(s, i) && t' == RefreshReturned(polled, ChildrenOk(s, i))
    case ReloadLoad(parent, src) => t' == ReloadLoading(parent, src)
    case ReloadLoading(parent, src) =>
      t' == ReloadDone(parent, src, false) || (t'.ReloadStore? && t'.parent == parent && t'.src == src)
    case ReloadStore(parent, src, _) => t' == ReloadDone(parent, src, true)
    case CallbackEnter(src, result) => t' == CallbackBody(src, result)
    case CallbackBody(_, result) => t' == CallbackReturned(!s.closed && result.Loaded?)
    case NewSpawn(todo) =>
      if todo == {} then t' == NewWait else t'.NewSpawn? && HandsOut(s, s', i, todo, t'.todo)
    case NewWait => ChildrenDone(s, i) && t' == if ChildrenOk(s, i) then NewAttach(s.sources.Values) else CloseEnter
    case NewAttach(_) => t'.NewAttach? || t'.NewReturned?
    case _ => true
  }

  predicate Moves(s: State, s': State, i: nat) {
    && ThreadMove(s, s', i)
    && var t, t' := Was(s, i), s'.threads[i];
    && LockMove(s, s', i, t, t') && MutexMove(s, s', i, t, t') && BindMove(s, s', t, t')
    && CloseMove(s, s', i, t, t') && DetachMove(s, s', t, t') && NewMove(s, s', i, t, t')
    && (i < |s.threads| ==> Descends(t, t')) && Next(s, s', i, t, t')
  }

  lemma BindEnterMoves(s: State, i: nat)
    requires Enabled(s, Run(i)) && s.threads[i].BindEnter?
    ensures Moves(s, Effect(s, Run(i)), i)
  {
    hide PickEffect, LoadEffect, CloseRun, DrainRun, RefreshRun, CallbackRun, NewRun;
  }

  lemma BindRefusedMoves(s: State, i: nat)
    requires Enabled(s, Run(i)) && s.threads[i].BindReserve? && s.closed
    ensures Moves(s, Effect(s, Run(i)), i)
  {
    hide PickEffect, LoadEffect, CloseRun, DrainRun, RefreshRun, CallbackRun, NewRun;
  }

  lemma BindDuplicateMoves(s: State, i: nat)
    requires Enabled(s, Run(i)) && s.threads[i].BindReserve? && !s.closed
    requires s.threads[i].src.id in s.sources || s.threads[i].src.id in s.loading
    ensures Moves(s, Effect(s, Run(i)), i)
  {
    hide PickEffect, LoadEffect, CloseRun, DrainRun, RefreshRun, CallbackRun, NewRun;
  }

  lemma BindReservedMoves(s: State, i: nat)
    requires Enabled(s, Run(i)) && s.threads[i].BindReserve? && !s.closed
    requires s.threads[i].src.id !in s.sources && s.threads[i].src.id !in s.loading
    ensures Moves(s, Effect(s, Run(i)), i)
  {
    hide PickEffect, LoadEffect, CloseRun, DrainRun, RefreshRun, CallbackRun, NewRun;
  }

  lemma BindLoadMoves(s: State, i: nat)
    requires Enabled(s, Run(i)) && s.threads[i].BindLoad?
    ensures Moves(s, Effect(s, Run(i)), i)
  {
    hide PickEffect, LoadEffect, CloseRun, DrainRun, RefreshRun, CallbackRun, NewRun;
  }

  lemma BindLoadedMoves(s: State, i: nat)
    requires Enabled(s, Run(i)) && s.threads[i].BindLoaded?
    ensures Moves(s, Effect(s, Run(i)), i)
  {
    hide PickEffect, LoadEffect, CloseRun, DrainRun, RefreshRun, CallbackRun, NewRun;
  }

  lemma BindFailedMoves(s: State, i: nat)
    requires Enabled(s, Run(i)) && s.threads[i].BindCommit? && s.threads[i].result.LoadFailed?
    ensures Moves(s, Effect(s, Run(i)), i)
  {
    hide PickEffect, LoadEffect, CloseRun, DrainRun, RefreshRun, CallbackRun, NewRun;
  }

  lemma BindInterruptedMoves(s: State, i: nat)
    requires Enabled(s, Run(i)) && s.threads[i].BindCommit? && s.threads[i].result.Loaded? && s.closed
    ensures Moves(s, Effect(s, Run(i)), i)
  {
    hide PickEffect, LoadEffect, CloseRun, DrainRun, RefreshRun, CallbackRun, NewRun;
  }

  lemma BindCommittedMoves(s: State, i: nat)
    requires Enabled(s, Run(i)) && s.threads[i].BindCommit? && s.threads[i].result.Loaded? && !s.closed
    ensures Moves(s, Effect(s, Run(i)), i)
  {
    hide PickEffect, LoadEffect, CloseRun, DrainRun, RefreshRun, CallbackRun, NewRun;
  }

  lemma BindAttachMoves(s: State, i: nat)
    requires Enabled(s, Run(i)) && s.threads[i].BindAttach?
    ensures Moves(s, Effect(s, Run(i)), i)
  {
    hide PickEffect, LoadEffect, CloseRun, DrainRun, RefreshRun, CallbackRun, NewRun;
  }

  lemma BindSignalMoves(s: State, i: nat)
    requires Enabled(s, Run(i)) && s.threads[i].BindSignal?
    ensures Moves(s, Effect(s, Run(i)), i)
  {
    hide PickEffect, LoadEffect, CloseRun, DrainRun, RefreshRun, CallbackRun, NewRun;
  }

  lemma CloseFirstMoves(s: State, i: nat)
    requires Enabled(s, Run(i)) && s.threads[i].CloseEnter? && s.once != Ran
    ensures Moves(s, Effect(s, Run(i)), i)
  {
    hide PickEffect, LoadEffect, BindRun, DrainRun, RefreshRun, CallbackRun, NewRun;
  }

  lemma CloseAgainMoves(s: State, i: nat)
    requires Enabled(s, Run(i)) && s.threads[i].CloseEnter? && s.once == Ran
    ensures Moves(s, Effect(s, Run(i)), i)
  {
    hide PickEffect, LoadEffect, BindRun, DrainRun, RefreshRun, CallbackRun, NewRun;
  }

  lemma CloseBeginMoves(s: State, i: nat)
    requires Enabled(s, Run(i)) && s.threads[i].CloseBegin?
    ensures Moves(s, Effect(s, Run(i)), i)
  {
    hide PickEffect, LoadEffect, BindRun, DrainRun, RefreshRun, CallbackRun, NewRun;
  }

  lemma CloseMarkMoves(s: State, i: nat)
    requires Enabled(s, Run(i)) && s.threads[i].CloseMark?
    ensures Moves(s, Effect(s, Run(i)), i)
  {
    hide PickEffect, LoadEffect, BindRun, DrainRun, RefreshRun, CallbackRun, NewRun;
  }

  lemma CloseCancelMoves(s: State, i: nat)
    requires Enabled(s, Run(i)) && s.threads[i].CloseCancel?
    ensures Moves(s, Effect(s, Run(i)), i)
  {
    hide PickEffect, LoadEffect, BindRun, DrainRun, RefreshRun, CallbackRun, NewRun;
  }

  lemma CloseWaitMoves(s: State, i: nat)
    requires Enabled(s, Run(i)) && s.threads[i].CloseWait?
    ensures Moves(s, Effect(s, Run(i)), i)
  {
    hide PickEffect, LoadEffect, BindRun, DrainRun, RefreshRun, CallbackRun, NewRun;
  }

  lemma CloseGatherMoves(s: State, i: nat)
    requires Enabled(s, Run(i)) && s.threads[i].CloseGather?
    ensures Moves(s, Effect(s, Run(i)), i)
  {
    hide PickEffect, LoadEffect, BindRun, CloseRun, RefreshRun, CallbackRun, NewRun;
  }

  lemma CloseCollectMoves(s: State, i: nat)
    requires Enabled(s, Run(i)) && s.threads[i].CloseCollect?
    ensures Moves(s, Effect(s, Run(i)), i)
  {
    hide PickEffect, LoadEffect, BindRun, CloseRun, RefreshRun, CallbackRun, NewRun;
  }

  lemma CloseDetachMoves(s: State, i: nat)
    requires Enabled(s, Run(i)) && s.threads[i].CloseDetach?
    ensures Moves(s, Effect(s, Run(i)), i)
  {
    hide PickEffect, LoadEffect, BindRun, CloseRun, RefreshRun, CallbackRun, NewRun;
  }

  lemma CloseReleaseMoves(s: State, i: nat)
    requires Enabled(s, Run(i)) && s.threads[i].CloseRelease?
    ensures Moves(s, Effect(s, Run(i)), i)
  {
    hide PickEffect, LoadEffect, BindRun, CloseRun, RefreshRun, CallbackRun, NewRun;
  }

  lemma RefreshEnterMoves(s: State, i: nat)
    requires Enabled(s, Run(i)) && s.threads[i].RefreshEnter?
    ensures Moves(s, Effect(s, Run(i)), i)
  {
    hide PickEffect, LoadEffect, BindRun, CloseRun, DrainRun, CallbackRun, NewRun;
  }

  lemma RefreshRefusedMoves(s: State, i: nat)
    requires Enabled(s, Run(i)) && s.threads[i].RefreshCheck? && s.closed
    ensures Moves(s, Effect(s, Run(i)), i)
  {
    hide PickEffect, LoadEffect, BindRun, CloseRun, DrainRun, CallbackRun, NewRun;
  }

  lemma RefreshAcceptedMoves(s: State, i: nat)
    requires Enabled(s, Run(i)) && s.threads[i].RefreshCheck? && !s.closed
    ensures Moves(s, Effect(s, Run(i)), i)
  {
    hide PickEffect, LoadEffect, BindRun, CloseRun, DrainRun, CallbackRun, NewRun;
  }

  lemma RefreshSpawnMoves(s: State, i: nat)
    requires Enabled(s, Run(i)) && s.threads[i].RefreshSpawn?
    ensures Moves(s, Effect(s, Run(i)), i)
  {
    hide PickEffect, LoadEffect, BindRun, CloseRun, DrainRun, CallbackRun, NewRun;
  }

  lemma RefreshWaitMoves(s: State, i: nat)
    requires Enabled(s, Run(i)) && s.threads[i].RefreshWait?
    ensures Moves(s, Effect(s, Run(i)), i)
  {
    hide PickEffect, LoadEffect, BindRun, CloseRun, DrainRun, CallbackRun, NewRun;
  }

  lemma ReloadLoadMoves(s: State, i: nat)
    requires Enabled(s, Run(i)) && s.threads[i].ReloadLoad?
    ensures Moves(s, Effect(s, Run(i)), i)
  {
    hide PickEffect, LoadEffect, BindRun, CloseRun, DrainRun, CallbackRun, NewRun;
  }

  lemma ReloadStoreMoves(s: State, i: nat)
    requires Enabled(s, Run(i)) && s.threads[i].ReloadStore?
    ensures Moves(s, Effect(s, Run(i)), i)
  {
    hide PickEffect, LoadEffect, BindRun, CloseRun, DrainRun, CallbackRun, NewRun;
  }

  lemma CallbackEnterMoves(s: State, i: nat)
    requires Enabled(s, Run(i)) && s.threads[i].CallbackEnter?
    ensures Moves(s, Effect(s, Run(i)), i)
  {
    hide PickEffect, LoadEffect, BindRun, CloseRun, DrainRun, RefreshRun, NewRun;
  }

  lemma CallbackDroppedMoves(s: State, i: nat)
    requires Enabled(s, Run(i)) && s.threads[i].CallbackBody? && (s.closed || s.threads[i].result.LoadFailed?)
    ensures Moves(s, Effect(s, Run(i)), i)
  {
    hide PickEffect, LoadEffect, BindRun, CloseRun, DrainRun, RefreshRun, NewRun;
  }

  lemma CallbackStoredMoves(s: State, i: nat)
    requires Enabled(s, Run(i)) && s.threads[i].CallbackBody? && !s.closed && s.threads[i].result.Loaded?
    ensures Moves(s, Effect(s, Run(i)), i)
  {
    hide PickEffect, LoadEffect, BindRun, CloseRun, DrainRun, RefreshRun, NewRun;
  }

  lemma NewSpawnMoves(s: State, i: nat)
    requires Enabled(s, Run(i)) && s.threads[i].NewSpawn?
    ensures Moves(s, Effect(s, Run(i)), i)
  {
    hide PickEffect, LoadEffect, BindRun, CloseRun, DrainRun, RefreshRun, CallbackRun;
  }

  lemma NewWaitMoves(s: State, i: nat)
    requires Enabled(s, Run(i)) && s.threads[i].NewWait?
    ensures Moves(s, Effect(s, Run(i)), i)
  {
    hide PickEffect, LoadEffect, BindRun, CloseRun, DrainRun, RefreshRun, CallbackRun;
  }

  lemma NewAttachMoves(s: State, i: nat)
    requires Enabled(s, Run(i)) && s.threads[i].NewAttach?
    ensures Moves(s, Effect(s, Run(i)), i)
  {
    hide PickEffect, LoadEffect, BindRun, CloseRun, DrainRun, RefreshRun, CallbackRun;
  }

  lemma CloseCancelPickMoves(s: State, i: nat, src: Source)
    requires Enabled(s, Pick(i, src)) && s.threads[i].CloseCancel?
    ensures Moves(s, Effect(s, Pick(i, src)), i)
  {
    hide LoadEffect, RunEffect;
  }

  lemma CloseDetachPickMoves(s: State, i: nat, src: Source)
    requires Enabled(s, Pick(i, src)) && s.threads[i].CloseDetach?
    ensures Moves(s, Effect(s, Pick(i, src)), i)
  {
    hide LoadEffect, RunEffect;
  }

  lemma RefreshSpawnPickMoves(s: State, i: nat, src: Source)
    requires Enabled(s, Pick(i, src)) && s.threads[i].RefreshSpawn?
    ensures Moves(s, Effect(s, Pick(i, src)), i)
  {
    hide LoadEffect, RunEffect;
  }

  lemma NewSpawnPickMoves(s: State, i: nat, src: Source)
    requires Enabled(s, Pick(i, src)) && s.threads[i].NewSpawn?
    ensures Moves(s, Effect(s, Pick(i, src)), i)
  {
    hide LoadEffect, RunEffect;
  }

  lemma NewAttachPickMoves(s: State, i: nat, src: Source)
    requires Enabled(s, Pick(i, src)) && s.threads[i].NewAttach?
    ensures Moves(s, Effect(s, Pick(i, src)), i)
  {
    hide LoadEffect, RunEffect;
  }

  lemma BindLoadingMoves(s: State, i: nat, r: LoadResult)
    requires Enabled(s, LoadReturn(i, r)) && s.threads[i].BindLoading?
    ensures Moves(s, Effect(s, LoadReturn(i, r)), i)
  {
    hide PickEffect, RunEffect;
  }

  lemma ReloadFailedMoves(s: State, i: nat, r: LoadResult)
    requires Enabled(s, LoadReturn(i, r)) && s.threads[i].ReloadLoading? && r.LoadFailed?
    ensures Moves(s, Effect(s, LoadReturn(i, r)), i)
  {
    hide PickEffect, RunEffect;
  }

  lemma ReloadLoadedMoves(s: State, i: nat, r: LoadResult)
    requires Enabled(s, LoadReturn(i, r)) && s.threads[i].ReloadLoading? && r.Loaded?
    ensures Moves(s, Effect(s, LoadReturn(i, r)), i)
  {
    hide PickEffect, RunEffect;
  }

  lemma StartMoves(s: State, call: Call)
    requires Enabled(s, Start(call))
    ensures Moves(s, Effect(s, Start(call)), |s.threads|)
  {
    hide PickEffect, LoadEffect, RunEffect;
  }

  lemma FireMoves(s: State, src: Source, r: LoadResult)
    requires Enabled(s, Fire(src, r))
    ensures Moves(s, Effect(s, Fire(src, r)), |s.threads|)
  {
    hide PickEffect, LoadEffect, RunEffect;
  }

  /** The thread a step runs; a thread that starts is the one after the last. */
  function Actor(s: State, step: Step): nat {
    match step
    case Start(_) => |s.threads|
    case Fire(_, _) => |s.threads|
    case Run(i) => i
    case Pick(i, _) => i
    case LoadReturn(i, _) => i
  }

  lemma RunMoves(s: State, i: nat)
    requires Enabled(s, Run(i))
    ensures Moves(s, Effect(s, Run(i)), i)
  {
    match s.threads[i] {
      case BindEnter(_) => BindEnterMoves(s, i);
      case BindReserve(src) =>
        if s.closed { BindRefusedMoves(s, i); }
        else if src.id in s.sources || src.id in s.loading { BindDuplicateMoves(s, i); }
        else { BindReservedMoves(s, i); }
      case BindLoad(_) => BindLoadMoves(s, i);
      case BindLoaded(_, _) => BindLoadedMoves(s, i);
      case BindCommit(_, result) =>
        if result.LoadFailed? { BindFailedMoves(s, i); }
        else if s.closed { BindInterruptedMoves(s, i); }
        else { BindCommittedMoves(s, i); }
      case BindAttach(_) => BindAttachMoves(s, i);
      case BindSignal(_, _) => BindSignalMoves(s, i);
      case CloseEnter => if s.once == Ran { CloseAgainMoves(s, i); } else { CloseFirstMoves(s, i); }
      case CloseBegin => CloseBeginMoves(s, i);
      case CloseMark => CloseMarkMoves(s, i);
      case CloseCancel(_) => CloseCancelMoves(s, i);
      case CloseWait => CloseWaitMoves(s, i);
      case CloseGather => CloseGatherMoves(s, i);
      case CloseCollect => CloseCollectMoves(s, i);
      case CloseDetach(_) => CloseDetachMoves(s, i);
      case CloseRelease(_, _) => CloseReleaseMoves(s, i);
      case RefreshEnter => RefreshEnterMoves(s, i);
      case RefreshCheck => if s.closed { RefreshRefusedMoves(s, i); } else { RefreshAcceptedMoves(s, i); }
      case RefreshSpawn(_, _) => RefreshSpawnMoves(s, i);
      case RefreshWait(_) => RefreshWaitMoves(s, i);
      case ReloadLoad(_, _) => ReloadLoadMoves(s, i);
      case ReloadStore(_, _, _) => ReloadStoreMoves(s, i);
      case CallbackEnter(_, _) => CallbackEnterMoves(s, i);
      case CallbackBody(_, result) =>
        if s.closed || result.LoadFailed? { CallbackDroppedMoves(s, i); } else { CallbackStoredMoves(s, i); }
      case NewSpawn(_) => NewSpawnMoves(s, i);
      case NewWait => NewWaitMoves(s, i);
      case NewAttach(_) => NewAttachMoves(s, i);
    }
  }

  lemma StepMoves(s: State, step: Step)
    requires Enabled(s, step)
    ensures Moves(s, Effect(s, step), Actor(s, step))
  {
    match step
    case Start(call) => StartMoves(s, call);
    case Fire(src, r) => FireMoves(s, src, r);
    case Run(i) => RunMoves(s, i);
    case Pick(i, src) => {
      match s.threads[i] {
        case CloseCancel(_) => CloseCancelPickMoves(s, i, src);
        case CloseDetach(_) => CloseDetachPickMoves(s, i, src);
        case RefreshSpawn(_, _) => RefreshSpawnPickMoves(s, i, src);
        case NewSpawn(_) => NewSpawnPickMoves(s, i, src);
        case NewAttach(_) => NewAttachPickMoves(s, i, src);
      }
    }
    case LoadReturn(i, r) =>
      if s.threads[i].BindLoading? { BindLoadingMoves(s, i, r); }
      else if r.Loaded? { ReloadLoadedMoves(s, i, r); }
      else { ReloadFailedMoves(s, i, r); }
  }
}
