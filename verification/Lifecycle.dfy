/** The concurrent lifecycle of a store (keystore/keystore.go, keystore/keystore_constructor.go) as a step
    system: any number of `Bind`, `Close`, `RefreshAll` and refresh-callback calls, interleaved.

    A step runs a thread from one blocking point to the next. Taking `sourcesMU`, running a critical
    section, entering and leaving a source's `Load`, calling another source method, waiting on the wait
    group and waiting for goroutines are separate steps. The key set's lock guards a body that calls
    nothing that blocks, so `Replace` is atomic. */
module Lifecycle {
  import opened Wrappers
  import opened Keys
  import opened LoadOrder
  import Text

  /** A source object. Attributes that never change are in the value; what changes is in the state.
      Some sources hold their own mutex for the whole of `Load`, others only at its two ends. */
  datatype Source = Source(handle: nat, id: string, selfRefreshing: bool, locksWhileLoading: bool)

  /** `Load` followed by `buildCandidates`: the keys, or an error from either. */
  datatype LoadResult = Loaded(keys: seq<Key>) | LoadFailed

  /** `Refused` and `Interrupted` are both ErrClosed: before the reservation, and at the commit. */
  datatype BindOutcome = Bound | Refused | Duplicate | Failed | Interrupted

  datatype Thread =
    // Bind
    | BindEnter(src: Source)
    | BindReserve(src: Source)
    | BindLoad(src: Source)
    | BindLoading(src: Source)
    | BindLoaded(src: Source, result: LoadResult)
    | BindCommit(src: Source, result: LoadResult)
    | BindAttach(src: Source)
    | BindSignal(src: Source, outcome: BindOutcome)
    | BindReturned(src: Source, outcome: BindOutcome)
    | BindRejected
    // Close
    | CloseEnter
    | CloseBegin
    | CloseMark
    | CloseCancel(todo: set<Source>)
    | CloseWait
    | CloseGather
    | CloseCollect
    | CloseDetach(todo: set<Source>)
    | CloseRelease(todo: set<Source>, src: Source)
    | CloseReturned
    // RefreshAll, and the goroutines of loadSources
    | RefreshEnter
    | RefreshCheck
    | RefreshRefused
    | RefreshSpawn(polled: set<Source>, todo: set<Source>)
    | RefreshWait(polled: set<Source>)
    | RefreshReturned(polled: set<Source>, ok: bool)
    | ReloadLoad(parent: nat, src: Source)
    | ReloadLoading(parent: nat, src: Source)
    | ReloadStore(parent: nat, src: Source, keys: seq<Key>)
    | ReloadDone(parent: nat, src: Source, ok: bool)
    // a refresh callback called by a source's watcher
    | CallbackEnter(src: Source, result: LoadResult)
    | CallbackBody(src: Source, result: LoadResult)
    | CallbackReturned(ok: bool)
    // New, after its options
    | NewSpawn(todo: set<Source>)
    | NewWait
    | NewAttach(todo: set<Source>)
    | NewReturned

  /** The state of `closeOnce`. */
  datatype Once = NotRun | Running(runner: nat) | Ran

  datatype State = State(
    repository: seq<Key>,
    sources: map<string, Source>,
    loading: map<string, Source>,
    closed: bool,
    once: Once,
    bindWG: int,
    writer: Option<nat>,           // sourcesMU: the thread holding the write lock
    readers: set<nat>,             // sourcesMU: the threads holding a read lock
    held: map<Source, nat>,        // each source's own mutex: the thread holding it
    callbacks: set<Source>,        // sources holding a callback into the store
    stopped: set<Source>,          // sources whose Close has been called
    threads: seq<Thread>,
    published: bool)               // New has returned the store to its caller

  datatype Call = CallBind(source: Option<Source>) | CallClose | CallRefreshAll

  datatype Step =
    | Start(call: Call)
    | Fire(source: Source, fired: LoadResult)      // a watcher reads its callback and calls it
    | Run(i: nat)
    | Pick(i: nat, source: Source)                 // the next element of a range over a map or slice
    | LoadReturn(i: nat, loaded: LoadResult)

  // ----- what a thread holds, wants and has promised

  predicate HoldsWrite(t: Thread) { t.BindReserve? || t.BindCommit? || t.CloseMark? }

  predicate HoldsRead(t: Thread) { t.CloseCollect? || t.RefreshCheck? || t.CallbackBody? }

  predicate WantsWrite(t: Thread) { t.BindEnter? || t.BindLoaded? || t.CloseBegin? }

  predicate WantsRead(t: Thread) { t.CloseGather? || t.RefreshEnter? || t.CallbackEnter? }

  predicate InLoad(t: Thread) { t.BindLoading? || t.ReloadLoading? }

  /** The bind holds the reservation of its source's ID. */
  predicate Reserved(t: Thread) { t.BindLoad? || t.BindLoading? || t.BindLoaded? || t.BindCommit? }

  /** The bind is counted by the wait group. */
  predicate InFlight(t: Thread) { Reserved(t) || t.BindAttach? || t.BindSignal? }

  /** The thread inside `closeOnce.Do`. */
  predicate Runner(t: Thread) {
    || t.CloseBegin? || t.CloseMark? || t.CloseCancel? || t.CloseWait? || t.CloseGather? || t.CloseCollect?
    || t.CloseDetach? || t.CloseRelease?
  }

  predicate BeforeMark(t: Thread) { t.CloseBegin? || t.CloseMark? }

  predicate PastWait(t: Thread) { t.CloseGather? || t.CloseCollect? || t.CloseDetach? || t.CloseRelease? }

  predicate Detaching(t: Thread) { t.CloseDetach? || t.CloseRelease? }

  predicate Constructing(t: Thread) { t.NewSpawn? || t.NewWait? || t.NewAttach? }

  predicate Reloading(t: Thread) { t.ReloadLoad? || t.ReloadLoading? || t.ReloadStore? }

  predicate IsReload(t: Thread) { Reloading(t) || t.ReloadDone? }

  /** A `RefreshAll` that has seen the store open. */
  predicate PastCheck(t: Thread) { t.RefreshSpawn? || t.RefreshWait? }

  predicate Finished(t: Thread) {
    || t.BindReturned? || t.BindRejected? || t.CloseReturned? || t.RefreshRefused? || t.RefreshReturned?
    || t.ReloadDone? || t.CallbackReturned? || t.NewReturned?
  }

  /** The bind was accepted and has been, or will be, turned away by a `Close`. */
  predicate CutShort(t: Thread) { Reserved(t) || ((t.BindSignal? || t.BindReturned?) && t.outcome == Interrupted) }

  // ----- initial states

  /** `New` after its options: sources registered under their own IDs, nothing loaded or attached.
      When an option fails, `New` goes straight to closing what was registered. */
  ghost predicate Init(s: State) {
    && (forall id | id in s.sources :: s.sources[id].id == id)
    && s.repository == [] && s.loading == map[] && !s.closed && s.once == NotRun && s.bindWG == 0
    && s.writer == None && s.readers == {} && s.held == map[] && s.callbacks == {} && s.stopped == {}
    && (s.threads == [NewSpawn(s.sources.Values)] || s.threads == [CloseEnter]) && !s.published
  }

  // ----- steps

  predicate LockFree(s: State) { s.writer == None && s.readers == {} }

  predicate ChildrenDone(s: State, i: nat) {
    forall j | 0 <= j < |s.threads| && Reloading(s.threads[j]) :: s.threads[j].parent != i
  }

  predicate ChildrenOk(s: State, i: nat) {
    forall j | 0 <= j < |s.threads| && s.threads[j].ReloadDone? && s.threads[j].parent == i :: s.threads[j].ok
  }

  /** The source's own mutex is free, or the call does nothing because the source is not self-refreshing. */
  predicate CanAttach(s: State, src: Source) { src.selfRefreshing ==> src !in s.held }

  predicate CanRun(s: State, t: Thread, i: nat) {
    match t
    case BindEnter(_) => LockFree(s)
    case BindReserve(_) => true
    case BindLoad(src) => src !in s.held
    case BindLoaded(_, _) => LockFree(s)
    case BindCommit(_, _) => true
    case BindAttach(src) => CanAttach(s, src)
    case BindSignal(_, _) => true
    case CloseEnter => !s.once.Running?
    case CloseBegin => LockFree(s)
    case CloseMark => true
    case CloseCancel(todo) => todo == {}
    case CloseWait => s.bindWG == 0
    case CloseGather => s.writer == None
    case CloseCollect => true
    case CloseDetach(todo) => todo == {}
    case CloseRelease(_, src) => src !in s.held
    case RefreshEnter => s.writer == None
    case RefreshCheck => true
    case RefreshSpawn(_, todo) => todo == {}
    case RefreshWait(_) => ChildrenDone(s, i)
    case ReloadLoad(_, src) => src !in s.held
    case ReloadStore(_, _, _) => true
    case CallbackEnter(_, _) => s.writer == None
    case CallbackBody(_, _) => true
    case NewSpawn(todo) => todo == {}
    case NewWait => ChildrenDone(s, i)
    case NewAttach(todo) => todo == {}
    case _ => false
  }

  predicate CanPick(s: State, t: Thread, src: Source) {
    match t
    case CloseCancel(todo) => src in todo && src !in s.held
    case CloseDetach(todo) => src in todo && CanAttach(s, src)
    case RefreshSpawn(_, todo) => src in todo
    case NewSpawn(todo) => src in todo
    case NewAttach(todo) => src in todo && CanAttach(s, src)
    case _ => false
  }

  predicate Enabled(s: State, step: Step) {
    match step
    case Start(_) => s.published
    case Fire(src, _) => src in s.callbacks && src !in s.held
    case Run(i) => i < |s.threads| && CanRun(s, s.threads[i], i)
    case Pick(i, src) => i < |s.threads| && CanPick(s, s.threads[i], src)
    case LoadReturn(i, _) =>
      && i < |s.threads| && InLoad(s.threads[i])
      && (s.threads[i].src in s.held ==> s.held[s.threads[i].src] == i)
  }

  function Become(s: State, i: nat, t: Thread): State
    requires i < |s.threads|
  {
    s.(threads := s.threads[i := t])
  }

  function Spawn(s: State, t: Thread): State { s.(threads := s.threads + [t]) }

  function HoldFor(s: State, i: nat, src: Source): map<Source, nat> {
    if src.locksWhileLoading then s.held[src := i] else s.held
  }

  function Attached(s: State, src: Source): set<Source> {
    if src.selfRefreshing then s.callbacks + {src} else s.callbacks
  }

  function BindRun(s: State, i: nat): State
    requires i < |s.threads|
  {
    match s.threads[i]
    case BindEnter(src) => s.(threads := s.threads[i := BindReserve(src)], writer := Some(i))
    case BindReserve(src) =>
      if s.closed then s.(threads := s.threads[i := BindReturned(src, Refused)], writer := None)
      else if src.id in s.sources || src.id in s.loading then
        s.(threads := s.threads[i := BindReturned(src, Duplicate)], writer := None)
      else
        s.(threads := s.threads[i := BindLoad(src)], writer := None, loading := s.loading[src.id := src],
           bindWG := s.bindWG + 1)
    case BindLoad(src) => s.(threads := s.threads[i := BindLoading(src)], held := HoldFor(s, i, src))
    case BindLoaded(src, result) => s.(threads := s.threads[i := BindCommit(src, result)], writer := Some(i))
    case BindCommit(src, result) =>
      if result.LoadFailed? || s.closed then
        var outcome := if result.LoadFailed? then Failed else Interrupted;
        s.(threads := s.threads[i := BindSignal(src, outcome)], writer := None, loading := s.loading - {src.id})
      else
        s.(threads := s.threads[i := BindAttach(src)], writer := None, loading := s.loading - {src.id},
           repository := Stored(s.repository, Load(src.id, result.keys)), sources := s.sources[src.id := src])
    case BindAttach(src) => s.(threads := s.threads[i := BindSignal(src, Bound)], callbacks := Attached(s, src))
    case BindSignal(src, outcome) => s.(threads := s.threads[i := BindReturned(src, outcome)], bindWG := s.bindWG - 1)
    case _ => s
  }

  function CloseRun(s: State, i: nat): State
    requires i < |s.threads|
  {
    match s.threads[i]
    case CloseEnter =>
      if s.once == Ran then Become(s, i, CloseReturned)
      else s.(threads := s.threads[i := CloseBegin], once := Running(i))
    case CloseBegin => s.(threads := s.threads[i := CloseMark], writer := Some(i))
    case CloseMark => s.(threads := s.threads[i := CloseCancel(s.loading.Values)], closed := true, writer := None)
    case CloseCancel(_) => Become(s, i, CloseWait)
    case CloseWait => Become(s, i, CloseGather)
    case _ => s
  }

  /** The part of `Close` after the wait. */
  function DrainRun(s: State, i: nat): State
    requires i < |s.threads|
  {
    match s.threads[i]
    case CloseGather => s.(threads := s.threads[i := CloseCollect], readers := s.readers + {i})
    case CloseCollect => s.(threads := s.threads[i := CloseDetach(s.sources.Values)], readers := s.readers - {i})
    case CloseDetach(_) => s.(threads := s.threads[i := CloseReturned], once := Ran)
    case CloseRelease(todo, src) => s.(threads := s.threads[i := CloseDetach(todo)], stopped := s.stopped + {src})
    case _ => s
  }

  /** The snapshot `RefreshAll` takes: the registered sources that do not refresh themselves. */
  function Polled(s: State): set<Source> { set src | src in s.sources.Values && !src.selfRefreshing }

  function RefreshRun(s: State, i: nat): State
    requires i < |s.threads|
  {
    match s.threads[i]
    case RefreshEnter => s.(threads := s.threads[i := RefreshCheck], readers := s.readers + {i})
    case RefreshCheck =>
      if s.closed then s.(threads := s.threads[i := RefreshRefused], readers := s.readers - {i})
      else s.(threads := s.threads[i := RefreshSpawn(Polled(s), Polled(s))], readers := s.readers - {i})
    case RefreshSpawn(polled, _) => Become(s, i, RefreshWait(polled))
    case RefreshWait(polled) => Become(s, i, RefreshReturned(polled, ChildrenOk(s, i)))
    case ReloadLoad(parent, src) =>
      s.(threads := s.threads[i := ReloadLoading(parent, src)], held := HoldFor(s, i, src))
    case ReloadStore(parent, src, keys) =>
      s.(threads := s.threads[i := ReloadDone(parent, src, true)],
         repository := Stored(s.repository, Load(src.id, keys)))
    case _ => s
  }

  function CallbackRun(s: State, i: nat): State
    requires i < |s.threads|
  {
    match s.threads[i]
    case CallbackEnter(src, result) =>
      s.(threads := s.threads[i := CallbackBody(src, result)], readers := s.readers + {i})
    case CallbackBody(src, result) =>
      if s.closed || result.LoadFailed? then
        s.(threads := s.threads[i := CallbackReturned(false)], readers := s.readers - {i})
      else
        s.(threads := s.threads[i := CallbackReturned(true)], readers := s.readers - {i},
           repository := Stored(s.repository, Load(src.id, result.keys)))
    case _ => s
  }

  function NewRun(s: State, i: nat): State
    requires i < |s.threads|
  {
    match s.threads[i]
    case NewSpawn(_) => Become(s, i, NewWait)
    case NewWait => Become(s, i, if ChildrenOk(s, i) then NewAttach(s.sources.Values) else CloseEnter)
    case NewAttach(_) => s.(threads := s.threads[i := NewReturned], published := true)
    case _ => s
  }

  datatype Kind = BindKind | CloseKind | RefreshKind | CallbackKind | NewKind

  function KindOf(t: Thread): Kind {
    if t.BindEnter? || t.BindReserve? || InFlight(t) || t.BindReturned? || t.BindRejected? then BindKind
    else if t.CloseEnter? || Runner(t) || t.CloseReturned? then CloseKind
    else if t.CallbackEnter? || t.CallbackBody? || t.CallbackReturned? then CallbackKind
    else if Constructing(t) || t.NewReturned? then NewKind
    else RefreshKind
  }

  function RunEffect(s: State, i: nat): State
    requires i < |s.threads|
  {
    match KindOf(s.threads[i])
    case BindKind => BindRun(s, i)
    case CloseKind => if PastWait(s.threads[i]) then DrainRun(s, i) else CloseRun(s, i)
    case RefreshKind => RefreshRun(s, i)
    case CallbackKind => CallbackRun(s, i)
    case NewKind => NewRun(s, i)
  }

  function PickEffect(s: State, i: nat, src: Source): State
    requires i < |s.threads|
  {
    match s.threads[i]
    case CloseCancel(todo) => s.(threads := s.threads[i := CloseCancel(todo - {src})], stopped := s.stopped + {src})
    case CloseDetach(todo) =>
      s.(threads := s.threads[i := CloseRelease(todo - {src}, src)],
         callbacks := if src.selfRefreshing then s.callbacks - {src} else s.callbacks)
    case RefreshSpawn(polled, todo) => Spawn(Become(s, i, RefreshSpawn(polled, todo - {src})), ReloadLoad(i, src))
    case NewSpawn(todo) => Spawn(Become(s, i, NewSpawn(todo - {src})), ReloadLoad(i, src))
    case NewAttach(todo) => s.(threads := s.threads[i := NewAttach(todo - {src})], callbacks := Attached(s, src))
    case _ => s
  }

  function LoadEffect(s: State, i: nat, r: LoadResult): State
    requires i < |s.threads|
  {
    match s.threads[i]
    case BindLoading(src) => s.(threads := s.threads[i := BindLoaded(src, r)], held := s.held - {src})
    case ReloadLoading(parent, src) =>
      var next := if r.Loaded? then ReloadStore(parent, src, r.keys) else ReloadDone(parent, src, false);
      s.(threads := s.threads[i := next], held := s.held - {src})
    case _ => s
  }

  function FirstThread(call: Call): Thread {
    match call
    case CallBind(source) =>
      if source == None || Text.Blank(source.value.id) then BindRejected else BindEnter(source.value)
    case CallClose => CloseEnter
    case CallRefreshAll => RefreshEnter
  }

  function Effect(s: State, step: Step): State
    requires Enabled(s, step)
  {
    match step
    case Start(call) => Spawn(s, FirstThread(call))
    case Fire(src, r) => Spawn(s, CallbackEnter(src, r))
    case Run(i) => RunEffect(s, i)
    case Pick(i, src) => PickEffect(s, i, src)
    case LoadReturn(i, r) => LoadEffect(s, i, r)
  }

  // ----- runs

  /** A run: an initial state and steps, each enabled in the state it is taken from. */
  ghost predicate IsRun(states: seq<State>, steps: seq<Step>) {
    && |states| == |steps| + 1
    && Init(states[0])
    && forall k | 0 <= k < |steps| :: Enabled(states[k], steps[k]) && states[k + 1] == Effect(states[k], steps[k])
  }
}
