/** The rotating source and the store it feeds (keysource/randomsource/randomsource.go, keystore/keystore.go):
    which publication an active store holds. */
module Feeding {
  import opened Wrappers
  import opened Keys
  import opened LoadOrder
  import opened Selection
  import opened Epochs
  import opened RandomSource
  import opened Rotations
  import opened Rollover

  /** Where the store is with the source. A publication is named by the number of rotations up to it. */
  datatype Binding = Unbound | Loaded(n: nat) | Committed | Active

  datatype Watcher = Waiting | Calling(n: nat)

  datatype World = World(
    ticks: seq<Tick>,            // the source's rotations, successful or not
    callback: bool,
    started: bool,
    closed: bool,
    binding: Binding,
    watcher: Watcher,
    storeClosed: bool,
    repository: seq<Key>,
    accepted: seq<nat>)          // the publications the store has accepted, in order

  datatype Step =
    | LoadSource(tick: Tick)     // `Load`, called by the bind: it rotates
    | Commit | Attach
    | TimerFires(tick: Tick)     // the watcher rotates when its deadline is reached
    | Call
    | Detach | CloseSource | CloseStore
    | OtherStore(load: Load)     // another source delivers, no key of this one among its keys

  /** `buildCandidates`, as a function. */
  function Built(candidates: seq<KeyCandidate>, backendFor: BackendFor): Option<seq<Key>> {
    if forall i | 0 <= i < |candidates| :: backendFor(candidates[i].material).Some? then
      Some(seq(|candidates|, i requires 0 <= i < |candidates| && backendFor(candidates[i].material).Some? =>
        NewKey(candidates[i], backendFor(candidates[i].material).value)))
    else None
  }

  lemma BuiltExactly(keys: seq<Key>, candidates: seq<KeyCandidate>, backendFor: BackendFor)
    ensures Built(candidates, backendFor) == Some(keys) <==> BuiltFrom(keys, candidates, backendFor)
  {
    if BuiltFrom(keys, candidates, backendFor) {
      assert Built(candidates, backendFor).value == keys;
    }
  }

  /** The keys of the `n`th publication, if it was one and could be built. */
  function Handed(c: Config, backendFor: BackendFor, ticks: seq<Tick>, n: nat): Option<seq<Key>>
    requires c.lifetime > 0
  {
    if 0 < n <= |ticks| && Publication(c, ticks[..n]).Ok?
    then Built(Publication(c, ticks[..n]).value, backendFor)
    else None
  }

  function NextDeadline(c: Config, ticks: seq<Tick>): Time
    requires c.lifetime > 0
  {
    Deadline(After(c, ticks).base, After(c, ticks).epoch, c.lifetime)
  }

  predicate Enabled(c: Config, w: World, step: Step)
    requires c.lifetime > 0
  {
    match step
    case LoadSource(_) => w.binding == Unbound
    case Commit => w.binding.Loaded?
    case Attach => w.binding == Committed
    case TimerFires(tick) => w.started && w.watcher == Waiting && tick.now >= NextDeadline(c, w.ticks)
    case Call => w.watcher.Calling?
    case Detach => w.binding == Active
    case CloseSource => true
    case CloseStore => true
    case OtherStore(load) => load.source != c.id && forall k | k in load.keys :: k.source != c.id
  }

  /** The store takes a publication, or refuses it. */
  function Taken(c: Config, backendFor: BackendFor, w: World, n: nat): Option<seq<Key>>
    requires c.lifetime > 0
  {
    if w.storeClosed then None else Handed(c, backendFor, w.ticks, n)
  }

  function Accepting(c: Config, w: World, n: nat, keys: seq<Key>): World {
    w.(repository := Stored(w.repository, Load(c.id, keys)), accepted := w.accepted + [n])
  }

  function Effect(c: Config, backendFor: BackendFor, w: World, step: Step): World
    requires c.lifetime > 0 && Enabled(c, w, step)
  {
    match step
    case LoadSource(tick) =>
      var ticks := w.ticks + [tick];
      if w.closed then w
      else if Publication(c, ticks).Err? then w.(ticks := ticks)
      else
        w.(ticks := ticks, binding := Loaded(|ticks|),
           started := w.started || (w.callback && !IsZero(After(c, ticks).base)))
    case Commit =>
      var n := w.binding.n;
      var keys := Taken(c, backendFor, w, n);
      if keys.None? then w.(binding := Unbound) else Accepting(c, w, n, keys.value).(binding := Committed)
    case Attach =>
      w.(callback := true, binding := Active,
         started := w.started || (!w.closed && !IsZero(After(c, w.ticks).base)))
    case TimerFires(tick) =>
      var ticks := w.ticks + [tick];
      w.(ticks := ticks,
         watcher := if Publication(c, ticks).Ok? && w.callback then Calling(|ticks|) else Waiting)
    case Call =>
      var n := w.watcher.n;
      var keys := Taken(c, backendFor, w, n);
      if keys.None? then w.(watcher := Waiting) else Accepting(c, w, n, keys.value).(watcher := Waiting)
    case Detach => w.(callback := false)
    case CloseSource => w.(closed := true)
    case CloseStore => w.(storeClosed := true)
    case OtherStore(load) => w.(repository := Stored(w.repository, load))
  }

  ghost predicate Fresh(w: World) {
    && w.ticks == [] && !w.callback && !w.started && !w.closed
    && w.binding == Unbound && w.watcher == Waiting && w.accepted == []
  }

  ghost predicate IsRun(c: Config, backendFor: BackendFor, worlds: seq<World>, steps: seq<Step>) {
    && c.lifetime > 0 && |worlds| == |steps| + 1 && Fresh(worlds[0])
    && forall i | 0 <= i < |steps| ::
         Enabled(c, worlds[i], steps[i]) && worlds[i + 1] == Effect(c, backendFor, worlds[i], steps[i])
  }

  // ----- what is held

  function Last(s: seq<nat>): nat
    requires s != []
  {
    s[|s| - 1]
  }

  predicate Bound(b: Binding) { b.Committed? || b.Active? }

  /** A store that has bound the source holds the last publication it accepted. */
  ghost predicate HoldsLast(c: Config, backendFor: BackendFor, w: World)
    requires c.lifetime > 0
  {
    && w.accepted != []
    && var keys := Handed(c, backendFor, w.ticks, Last(w.accepted));
    keys.Some? && Holds(multiset(w.repository), c.id, keys.value)
  }

  ghost predicate Consistent(c: Config, backendFor: BackendFor, w: World)
    requires c.lifetime > 0
  {
    && (w.binding != Active ==> !w.callback && !w.started && w.watcher == Waiting)
    && (w.binding.Loaded? ==> 0 < w.binding.n == |w.ticks|)
    && (!Bound(w.binding) ==> w.accepted == [])
    && (Bound(w.binding) ==> HoldsLast(c, backendFor, w))
    && (w.watcher.Calling? ==> 0 < w.watcher.n == |w.ticks| && Last(w.accepted) < w.watcher.n)
    && (w.binding == Active && w.callback && !w.closed && !IsZero(After(c, w.ticks).base) ==> w.started)
    && (forall i | 0 <= i < |w.accepted| :: 0 < w.accepted[i] <= |w.ticks|)
    && (forall i, j | 0 <= i < j < |w.accepted| :: w.accepted[i] < w.accepted[j])
  }

  lemma HandedStays(c: Config, backendFor: BackendFor, ticks: seq<Tick>, tick: Tick, n: nat)
    requires c.lifetime > 0 && n <= |ticks|
    ensures Handed(c, backendFor, ticks + [tick], n) == Handed(c, backendFor, ticks, n)
  {
    assert (ticks + [tick])[..n] == ticks[..n];
  }

  lemma StepKeepsConsistent(c: Config, backendFor: BackendFor, w: World, step: Step)
    requires c.lifetime > 0 && Consistent(c, backendFor, w) && Enabled(c, w, step)
    ensures Consistent(c, backendFor, Effect(c, backendFor, w, step))
  {
    hide Handed, Stored, Publication, After, NextDeadline, Holds;
    match step
    case LoadSource(tick) =>
    case TimerFires(tick) =>
      if Bound(w.binding) { HandedStays(c, backendFor, w.ticks, tick, Last(w.accepted)); }
    case Commit =>
      var keys := Taken(c, backendFor, w, w.binding.n);
      if keys.Some? { StoredHolds(w.repository, c.id, keys.value); }
    case Call =>
      var keys := Taken(c, backendFor, w, w.watcher.n);
      if keys.Some? { StoredHolds(w.repository, c.id, keys.value); }
    case OtherStore(load) =>
      if Bound(w.binding) {
        HoldsSurvives(w.repository, load, c.id, Handed(c, backendFor, w.ticks, Last(w.accepted)).value);
      }
    case _ =>
  }

  lemma {:induction false} RunKeepsConsistent(
    c: Config, backendFor: BackendFor, worlds: seq<World>, steps: seq<Step>, i: nat)
    requires IsRun(c, backendFor, worlds, steps) && i < |worlds|
    ensures Consistent(c, backendFor, worlds[i])
  {
    hide Effect, Enabled;
    if i > 0 {
      RunKeepsConsistent(c, backendFor, worlds, steps, i - 1);
      StepKeepsConsistent(c, backendFor, worlds[i - 1], steps[i - 1]);
    }
  }

  // ----- epochs

  /** From the bind on, each rotation is of a later epoch than the one before. */
  ghost predicate EpochsAdvance(c: Config, w: World)
    requires c.lifetime > 0
  {
    w.accepted != [] ==> forall m, n | 0 < w.accepted[0] <= m < n <= |w.ticks| ::
      EpochOf(c, w.ticks, m) < EpochOf(c, w.ticks, n)
  }

  /** A rotation is at or after the deadline exactly when it is of a later epoch than the last one. */
  lemma DeadlineAdvances(c: Config, ticks: seq<Tick>, tick: Tick)
    requires c.lifetime > 0 && ticks != [] && Steady(c, ticks + [tick])
    ensures tick.now >= NextDeadline(c, ticks) <==>
      EpochOf(c, ticks + [tick], |ticks|) < EpochOf(c, ticks + [tick], |ticks| + 1)
  {
    hide After, Log, Deadline, EpochAt, Generated;
    var all := ticks + [tick];
    SteadyFront(c, all, |ticks|);
    assert all[..|ticks|] == ticks;
    RunsAreConsistent(c, ticks);
    assert all[|ticks| - 1] == ticks[|ticks| - 1] && all[|ticks|] == tick && all[0] == ticks[0];
    DeadlineMeansAdvance(ticks[0].now, ticks[|ticks| - 1].now, tick.now, c.lifetime);
  }

  lemma EpochOfFront(c: Config, ticks: seq<Tick>, tick: Tick, n: nat)
    requires c.lifetime > 0 && 0 < n <= |ticks|
    ensures EpochOf(c, ticks + [tick], n) == EpochOf(c, ticks, n)
  {
  }

  lemma FiringAdvances(c: Config, backendFor: BackendFor, w: World, tick: Tick)
    requires c.lifetime > 0 && Consistent(c, backendFor, w) && Enabled(c, w, TimerFires(tick))
    requires EpochsAdvance(c, w) && Steady(c, w.ticks + [tick])
    ensures EpochsAdvance(c, w.(ticks := w.ticks + [tick]))
  {
    hide EpochOf, Handed, Holds, NextDeadline, Steady;
    var n := |w.ticks|;
    assert w.accepted != [] && 0 < w.accepted[0] <= n;
    DeadlineAdvances(c, w.ticks, tick);
    forall m, k | 0 < w.accepted[0] <= m < k <= n + 1
      ensures EpochOf(c, w.ticks + [tick], m) < EpochOf(c, w.ticks + [tick], k)
    {
      EpochOfFront(c, w.ticks, tick, m);
      if k <= n { EpochOfFront(c, w.ticks, tick, k); }
      EpochOfFront(c, w.ticks, tick, n);
    }
  }

  lemma StepAdvancesEpochs(c: Config, backendFor: BackendFor, w: World, step: Step)
    requires c.lifetime > 0 && Consistent(c, backendFor, w) && Enabled(c, w, step) && EpochsAdvance(c, w)
    requires Steady(c, Effect(c, backendFor, w, step).ticks)
    ensures EpochsAdvance(c, Effect(c, backendFor, w, step))
  {
    hide EpochOf, HoldsLast, NextDeadline, Steady, Stored, Handed, Publication, After;
    if step.TimerFires? { FiringAdvances(c, backendFor, w, step.tick); }
  }

  lemma TicksGrow(c: Config, backendFor: BackendFor, w: World, step: Step)
    requires c.lifetime > 0 && Enabled(c, w, step)
    ensures w.ticks <= Effect(c, backendFor, w, step).ticks
  {
  }

  lemma {:induction false} RunAdvancesEpochs(
    c: Config, backendFor: BackendFor, worlds: seq<World>, steps: seq<Step>, i: nat)
    requires IsRun(c, backendFor, worlds, steps) && i < |worlds| && Steady(c, worlds[i].ticks)
    ensures EpochsAdvance(c, worlds[i])
  {
    hide Effect, Enabled, EpochsAdvance, Consistent, Steady, Fresh;
    if i == 0 {
      FreshAdvances(c, worlds[0]);
    } else {
      TicksGrow(c, backendFor, worlds[i - 1], steps[i - 1]);
      var n := |worlds[i - 1].ticks|;
      assert worlds[i].ticks[..n] == worlds[i - 1].ticks;
      SteadyFront(c, worlds[i].ticks, n);
      RunAdvancesEpochs(c, backendFor, worlds, steps, i - 1);
      RunKeepsConsistent(c, backendFor, worlds, steps, i - 1);
      StepAdvancesEpochs(c, backendFor, worlds[i - 1], steps[i - 1]);
    }
  }

  lemma FreshAdvances(c: Config, w: World)
    requires c.lifetime > 0 && Fresh(w)
    ensures EpochsAdvance(c, w)
  {
  }

  // ----- results

  /** The publication a store accepted last, as a feed. */
  function LastFeed(c: Config, backendFor: BackendFor, w: World): Feed
    requires c.lifetime > 0 && w.accepted != [] && 0 < Last(w.accepted) <= |w.ticks|
    requires Handed(c, backendFor, w.ticks, Last(w.accepted)).Some?
  {
    Feed(w.ticks[..Last(w.accepted)], Handed(c, backendFor, w.ticks, Last(w.accepted)).value)
  }

  /** In any run of loads, commits, attaching, timer firings, callbacks, detaching and closing, with stores of
      other sources in between, a store that has bound the source holds the publication it accepted last,
      whole and nothing else of the source. */
  lemma StoreHoldsLastAccepted(c: Config, backendFor: BackendFor, worlds: seq<World>, steps: seq<Step>, i: nat)
    requires IsRun(c, backendFor, worlds, steps) && i < |worlds| && Steady(c, worlds[i].ticks)
    requires Bound(worlds[i].binding)
    ensures var w := worlds[i];
      && w.accepted != [] && 0 < Last(w.accepted) <= |w.ticks|
      && Handed(c, backendFor, w.ticks, Last(w.accepted)).Some?
      && IsFeed(c, w.ticks, backendFor, LastFeed(c, backendFor, w))
      && Holds(multiset(w.repository), c.id, LastFeed(c, backendFor, w).keys)
  {
    hide Holds, Publication, Built, Steady;
    var w := worlds[i];
    RunKeepsConsistent(c, backendFor, worlds, steps, i);
    var n := Last(w.accepted);
    BuiltExactly(Handed(c, backendFor, w.ticks, n).value, Publication(c, w.ticks[..n]).value, backendFor);
  }

  /** The publications a store accepts come in strictly increasing epochs. */
  lemma AcceptedInEpochOrder(c: Config, backendFor: BackendFor, worlds: seq<World>, steps: seq<Step>, i: nat)
    requires IsRun(c, backendFor, worlds, steps) && i < |worlds| && Steady(c, worlds[i].ticks)
    ensures var w := worlds[i];
      forall a, b | 0 <= a < b < |w.accepted| :: 0 < w.accepted[a] <= |w.ticks| && 0 < w.accepted[b] <= |w.ticks|
        && EpochOf(c, w.ticks, w.accepted[a]) < EpochOf(c, w.ticks, w.accepted[b])
  {
    hide EpochOf, HoldsLast, Steady;
    RunKeepsConsistent(c, backendFor, worlds, steps, i);
    RunAdvancesEpochs(c, backendFor, worlds, steps, i);
  }

  /** One undisturbed firing: an open, attached store gets the new publication if it succeeds and builds. */
  lemma FiringDelivers(c: Config, backendFor: BackendFor, w: World, tick: Tick)
    requires c.lifetime > 0 && Enabled(c, w, TimerFires(tick)) && w.callback && !w.storeClosed
    requires Handed(c, backendFor, w.ticks + [tick], |w.ticks| + 1).Some?
    ensures var w1 := Effect(c, backendFor, w, TimerFires(tick));
      && Enabled(c, w1, Call)
      && Effect(c, backendFor, w1, Call).accepted == w.accepted + [|w.ticks| + 1]
  {
    assert (w.ticks + [tick])[..|w.ticks| + 1] == w.ticks + [tick];
  }

  /** So at every moment of every run a store that has bound the source signs with the active key of the last
      publication it accepted, from its epoch's start through that start plus two lifetimes. */
  lemma BoundStoreSigns(
    c: Config, backendFor: BackendFor, worlds: seq<World>, steps: seq<Step>, i: nat,
    operation: string, a: string, t: Time) returns (f: Feed)
    requires IsRun(c, backendFor, worlds, steps) && i < |worlds| && Steady(c, worlds[i].ticks)
    requires Bound(worlds[i].binding) && ProducesOutput(operation)
    requires forall m | backendFor(m).Some? ::
      backendFor(m).value.Supports(Capability(UseFor(operation), operation, a))
    ensures IsFeed(c, worlds[i].ticks, backendFor, f) && |f.keys| == 3
    ensures worlds[i].accepted != [] && f.ticks == worlds[i].ticks[..|f.ticks|] && |f.ticks| == Last(worlds[i].accepted)
    ensures var e := FeedEpoch(c, worlds[i].ticks, f);
      IsChoice(multiset(worlds[i].repository), FromSource(c.id, operation, a, t),
        if FirstInstant(c, worlds[i].ticks, e) <= t <= LastInstant(c, worlds[i].ticks, e)
        then Selected(f.keys[1], a) else NoEligibleKey)
  {
    hide IsRun, Holds, IsFeed, IsChoice, FeedEpoch, Generated, Log;
    StoreHoldsLastAccepted(c, backendFor, worlds, steps, i);
    f := LastFeed(c, backendFor, worlds[i]);
    FeedBasics(c, worlds[i].ticks, backendFor, f);
    FeedKeys(c, worlds[i].ticks, backendFor, f);
    MissedPublicationStillSigns(
      c, worlds[i].ticks, backendFor, f, multiset(worlds[i].repository), operation, a, t);
  }

  // ----- binding

  /** Three undisturbed steps bind a source: from an unbound, open source and an open store, with a first load
      that succeeds and builds, the source is attached, its watcher runs, and its publication is the one the
      store holds. */
  lemma BindCompletes(c: Config, backendFor: BackendFor, w: World, tick: Tick)
    returns (w1: World, w2: World, w3: World)
    requires c.lifetime > 0 && Consistent(c, backendFor, w) && w.binding == Unbound && !w.closed && !w.storeClosed
    requires Handed(c, backendFor, w.ticks + [tick], |w.ticks| + 1).Some?
    requires !IsZero(After(c, w.ticks + [tick]).base)
    ensures Enabled(c, w, LoadSource(tick)) && w1 == Effect(c, backendFor, w, LoadSource(tick))
    ensures Enabled(c, w1, Commit) && w2 == Effect(c, backendFor, w1, Commit)
    ensures Enabled(c, w2, Attach) && w3 == Effect(c, backendFor, w2, Attach)
    ensures w3.binding == Active && w3.callback && w3.started && w3.accepted == [|w.ticks| + 1]
    ensures HoldsLast(c, backendFor, w3)
  {
    hide Stored, Holds, After;
    var ticks := w.ticks + [tick];
    assert ticks[..|w.ticks| + 1] == ticks;
    StoredHolds(w.repository, c.id, Handed(c, backendFor, ticks, |ticks|).value);
    w1 := Effect(c, backendFor, w, LoadSource(tick));
    w2 := Effect(c, backendFor, w1, Commit);
    w3 := Effect(c, backendFor, w2, Attach);
  }

  /** A run can be continued with any step that is enabled at its end. */
  lemma RunsGoOn(c: Config, backendFor: BackendFor, worlds: seq<World>, steps: seq<Step>, step: Step)
    requires IsRun(c, backendFor, worlds, steps) && Enabled(c, worlds[|steps|], step)
    ensures IsRun(c, backendFor, worlds + [Effect(c, backendFor, worlds[|steps|], step)], steps + [step])
  {
    hide Enabled, Effect;
  }

  /** So a source as it is made, and an open store with any keys, have a run that binds them. */
  lemma BindingRun(c: Config, backendFor: BackendFor, repository: seq<Key>, tick: Tick)
    returns (worlds: seq<World>, steps: seq<Step>)
    requires c.lifetime > 0 && Handed(c, backendFor, [tick], 1).Some? && !IsZero(After(c, [tick]).base)
    ensures IsRun(c, backendFor, worlds, steps)
    ensures worlds[0] == World([], false, false, false, Unbound, Waiting, false, repository, [])
    ensures var w := worlds[|worlds| - 1];
      w.binding == Active && w.callback && w.started && HoldsLast(c, backendFor, w)
  {
    hide Handed, After, HoldsLast;
    var w := World([], false, false, false, Unbound, Waiting, false, repository, []);
    assert w.ticks + [tick] == [tick];
    var w1, w2, w3 := BindCompletes(c, backendFor, w, tick);
    hide Effect, Enabled;
    worlds, steps := [w], [];
    RunsGoOn(c, backendFor, worlds, steps, LoadSource(tick));
    worlds, steps := worlds + [w1], steps + [LoadSource(tick)];
    RunsGoOn(c, backendFor, worlds, steps, Commit);
    worlds, steps := worlds + [w2], steps + [Commit];
    RunsGoOn(c, backendFor, worlds, steps, Attach);
    worlds, steps := worlds + [w3], steps + [Attach];
  }

  /** In any run each step of a bind goes on exactly when it can, and the store accepts what a bind or the
      watcher hands it exactly when it is open and the publication can be built. */
  lemma GoesOnExactly(c: Config, backendFor: BackendFor, worlds: seq<World>, steps: seq<Step>, i: nat)
    requires IsRun(c, backendFor, worlds, steps) && i < |steps|
    ensures var w, w' := worlds[i], worlds[i + 1];
      match steps[i]
      case LoadSource(tick) =>
        && w'.ticks == (if w.closed then w.ticks else w.ticks + [tick])
        && w'.binding == if !w.closed && Publication(c, w'.ticks).Ok? then Loaded(|w'.ticks|) else Unbound
      case Commit =>
        var ok := !w.storeClosed && Handed(c, backendFor, w.ticks, w.binding.n).Some?;
        && w'.binding == (if ok then Committed else Unbound)
        && w'.accepted == (if ok then w.accepted + [w.binding.n] else w.accepted)
      case Attach => w'.binding == Active && w'.callback
      case TimerFires(tick) =>
        && w'.ticks == w.ticks + [tick]
        && w'.watcher == if w.callback && Publication(c, w'.ticks).Ok? then Calling(|w'.ticks|) else Waiting
      case Call =>
        var ok := !w.storeClosed && Handed(c, backendFor, w.ticks, w.watcher.n).Some?;
        && w'.watcher == Waiting
        && w'.accepted == (if ok then w.accepted + [w.watcher.n] else w.accepted)
      case Detach => !w'.callback
      case CloseSource => w'.closed
      case CloseStore => w'.storeClosed
      case OtherStore(load) => w'.repository == Stored(w.repository, load)
  {
    hide Publication, Handed, Stored, NextDeadline;
  }

  /** What only one kind of step changes: rotations happen at loads and firings, the store's keys change when it
      accepts a publication and when another source delivers, and closing is final. */
  lemma ChangesOnly(c: Config, backendFor: BackendFor, w: World, step: Step)
    requires c.lifetime > 0 && Enabled(c, w, step)
    ensures var w' := Effect(c, backendFor, w, step);
      && (w'.ticks != w.ticks ==> step.LoadSource? || step.TimerFires?)
      && (w'.accepted != w.accepted ==> step.Commit? || step.Call?)
      && (w'.repository != w.repository ==> step.OtherStore? || w'.accepted != w.accepted)
      && (w'.binding != w.binding ==> step.LoadSource? || step.Commit? || step.Attach?)
      && (w'.watcher != w.watcher ==> step.TimerFires? || step.Call?)
      && (w'.callback != w.callback ==> step.Attach? || step.Detach?)
      && (w'.closed <==> w.closed || step.CloseSource?) && (w'.storeClosed <==> w.storeClosed || step.CloseStore?)
  {
    hide Publication, Handed, Stored, NextDeadline;
  }

  /** Nothing blocks: a bind that is not over can take its next step, a callback can run, and a source or store
      can be closed at any time, before or after the bind. */
  lemma NeverBlocked(c: Config, w: World, tick: Tick)
    requires c.lifetime > 0
    ensures w.binding != Active ==> Enabled(c, w, LoadSource(tick)) || Enabled(c, w, Commit) || Enabled(c, w, Attach)
    ensures w.binding == Active ==> Enabled(c, w, Detach)
    ensures w.watcher != Waiting ==> Enabled(c, w, Call)
    ensures Enabled(c, w, CloseSource) && Enabled(c, w, CloseStore)
  {
  }

  // ----- the watcher

  /** Once something has been loaded, the base is set. */
  lemma BaseIsSet(c: Config, ticks: seq<Tick>)
    requires Steady(c, ticks) && ticks != []
    ensures !IsZero(After(c, ticks).base)
  {
    hide After, Log;
    RunsAreConsistent(c, ticks);
  }

  lemma LoadedHasTicks(c: Config, backendFor: BackendFor, w: World)
    requires c.lifetime > 0 && Consistent(c, backendFor, w) && w.binding != Unbound
    ensures w.ticks != []
  {
    hide Handed, Holds;
  }

  /** In any run the watcher has started if and only if the source was attached while open. */
  lemma {:induction false} WatchedExactly(
    c: Config, backendFor: BackendFor, worlds: seq<World>, steps: seq<Step>, i: nat)
    requires IsRun(c, backendFor, worlds, steps) && i < |worlds| && Steady(c, worlds[i].ticks)
    ensures worlds[i].started <==> exists m | 0 <= m < i :: steps[m] == Attach && !worlds[m].closed
  {
    hide Effect, Enabled, Consistent, Steady;
    if i > 0 {
      var w := worlds[i - 1];
      TicksGrow(c, backendFor, w, steps[i - 1]);
      assert worlds[i].ticks[..|w.ticks|] == w.ticks;
      SteadyFront(c, worlds[i].ticks, |w.ticks|);
      WatchedExactly(c, backendFor, worlds, steps, i - 1);
      RunKeepsConsistent(c, backendFor, worlds, steps, i - 1);
      StartStep(c, backendFor, w, steps[i - 1]);
    }
  }

  lemma StartStep(c: Config, backendFor: BackendFor, w: World, step: Step)
    requires c.lifetime > 0 && Consistent(c, backendFor, w) && Enabled(c, w, step) && Steady(c, w.ticks)
    ensures Effect(c, backendFor, w, step).started <==> w.started || (step == Attach && !w.closed)
  {
    hide Publication, Handed, Stored, NextDeadline, After, HoldsLast, Steady;
    if step == Attach {
      LoadedHasTicks(c, backendFor, w);
      BaseIsSet(c, w.ticks);
    }
  }

  /** A running watcher that is not calling fires at an instant if and only if the instant is of a later epoch
      than the last rotation. */
  lemma FiresWithTheEpoch(
    c: Config, backendFor: BackendFor, worlds: seq<World>, steps: seq<Step>, i: nat, tick: Tick)
    requires IsRun(c, backendFor, worlds, steps) && i < |worlds| && Steady(c, worlds[i].ticks + [tick])
    requires worlds[i].binding == Active
    ensures var w := worlds[i];
      && w.ticks != []
      && (Enabled(c, w, TimerFires(tick)) <==>
            && w.started && w.watcher == Waiting
            && EpochAt(w.ticks[0].now, w.ticks[|w.ticks| - 1].now, c.lifetime)
               < EpochAt(w.ticks[0].now, tick.now, c.lifetime))
  {
    hide Consistent, NextDeadline, Steady;
    var w := worlds[i];
    RunKeepsConsistent(c, backendFor, worlds, steps, i);
    LoadedHasTicks(c, backendFor, w);
    DeadlineAdvances(c, w.ticks, tick);
  }

  /** The store will take nothing more from this source. */
  predicate Final(w: World) { w.storeClosed || (w.binding == Active && !w.callback && !w.watcher.Calling?) }

  lemma FinalStep(c: Config, backendFor: BackendFor, w: World, step: Step)
    requires c.lifetime > 0 && Enabled(c, w, step) && Final(w)
    ensures var w' := Effect(c, backendFor, w, step); Final(w') && w'.accepted == w.accepted
  {
    hide Publication, Handed, Stored, NextDeadline;
  }

  /** Once the store is closed, or the source detached with no call under way, nothing is accepted any more. */
  lemma {:induction false} NothingAfterFinal(
    c: Config, backendFor: BackendFor, worlds: seq<World>, steps: seq<Step>, i: nat, j: nat)
    requires IsRun(c, backendFor, worlds, steps) && i <= j < |worlds| && Final(worlds[i])
    ensures Final(worlds[j]) && worlds[j].accepted == worlds[i].accepted
  {
    hide Effect, Enabled;
    if i < j {
      NothingAfterFinal(c, backendFor, worlds, steps, i, j - 1);
      FinalStep(c, backendFor, worlds[j - 1], steps[j - 1]);
    }
  }
}
