/** The polling sources: files and remote JWKS endpoints (keysource/filesource/filesource.go,
    keysource/jwkssource/jwkssource.go), and the agreement between a source and its store. */
module Polling {
  import opened Wrappers
  import opened Keys

  /** Everything a load reads: a file, a directory or a response body. A snapshot is an injective digest
      of it, so the model keeps the content itself; the empty snapshot is `None`. */
  datatype Content = Content(handle: nat)

  datatype PollError = SourceClosed

  /** The mutable fields of a source. */
  datatype Poller = Poller(callback: bool, started: bool, closed: bool, snapshot: Option<Content>)

  /** `startMonitorLocked`: the watcher starts once there is both a callback and a snapshot. */
  function Started(p: Poller, monitor: bool): Poller {
    p.(started := p.started || (!p.closed && monitor && p.callback && p.snapshot.Some?))
  }

  function Recorded(p: Poller, monitor: bool, c: Content): Poller { Started(p.(snapshot := Some(c)), monitor) }

  function Attached(p: Poller, monitor: bool, attach: bool): Poller { Started(p.(callback := attach), monitor) }

  /** The watcher has read something other than what is recorded, and there is a callback to tell. */
  predicate IsNews(p: Poller, read: Content) { p.snapshot != Some(read) && p.callback }

  /** A source that polls. A file source polls when monitoring is on, a JWKS source always. */
  class PollingSource {
    const monitor: bool
    var callback: bool
    var started: bool
    var closed: bool
    var snapshot: Option<Content>

    function State(): Poller
      reads this
    {
      Poller(callback, started, closed, snapshot)
    }

    constructor (monitor: bool)
      ensures this.monitor == monitor && State() == Poller(false, false, false, None)
    {
      this.monitor := monitor;
      callback, started, closed, snapshot := false, false, false, None;
    }

    method StartLocked()
      modifies this`started
      ensures State() == Started(old(State()), monitor)
    {
      if closed || !monitor || started || !callback || snapshot.None? {
        return;
      }
      started := true;
    }

    /** The first locked section of `Load`. */
    method LoadBegin() returns (r: Result<(), PollError>)
      ensures r == if closed then Err(SourceClosed) else Ok(())
    {
      if closed {
        return Err(SourceClosed);
      }
      return Ok(());
    }

    /** The second locked section of `Load`: record what was read, unless the source was closed meanwhile. */
    method LoadEnd(read: Content) returns (r: Result<(), PollError>)
      modifies this
      ensures r == if closed then Err(SourceClosed) else Ok(())
      ensures State() == if old(closed) then old(State()) else Recorded(old(State()), monitor, read)
    {
      if closed {
        return Err(SourceClosed);
      }
      snapshot := Some(read);
      StartLocked();
      return Ok(());
    }

    method SetRefreshCallback(attach: bool)
      modifies this
      ensures State() == Attached(old(State()), monitor, attach)
    {
      callback := attach;
      StartLocked();
    }

    method Close()
      modifies this`closed
      ensures State() == old(State()).(closed := true)
    {
      closed := true;
    }

    /** The watcher's first locked section: whether what it read is news for a callback. */
    method Compare(read: Content) returns (call: bool)
      ensures call == IsNews(State(), read)
    {
      if snapshot == Some(read) {
        return false;
      }
      call := callback;
    }

    /** The watcher's second locked section, after a callback that succeeded. */
    method Accept(read: Content)
      modifies this`snapshot
      ensures State() == old(State()).(snapshot := Some(read))
    {
      snapshot := Some(read);
    }
  }

  // ----- the source and its store

  /** Where the store is with the source: `Bind` or `New` loads, commits and attaches. */
  datatype Binding =
    | Unbound
    | Reading
    | Read(content: Content)
    | Loaded(content: Content)
    | Committed
    | Active

  /** Where the watcher is in its loop. */
  datatype Watcher = Waiting | Fetched(content: Content) | Calling(content: Content) | Accepted(content: Content)

  datatype World = World(
    content: Content,            // what a load would read now
    source: Poller,
    binding: Binding,
    watcher: Watcher,
    storeClosed: bool,
    keys: seq<Key>)              // the store's keys for this source

  /** How contents turn into keys: `None` when reading, decoding or building fails. */
  datatype Codec = Codec(monitor: bool, readable: Content -> bool, build: Content -> Option<seq<Key>>)

  datatype Step =
    | Change(to: Content)        // someone replaces the file or publishes a new set
    | BindBegin | BindRead | BindRecord | BindCommit | BindAttach
    | Poll | CompareStep | Call | Record
    | Detach | CloseSource | CloseStore

  predicate Enabled(k: Codec, w: World, step: Step) {
    match step
    case Change(_) => true
    case BindBegin => w.binding == Unbound
    case BindRead => w.binding == Reading
    case BindRecord => w.binding.Read?
    case BindCommit => w.binding.Loaded?
    case BindAttach => w.binding == Committed
    case Poll => w.source.started && w.watcher == Waiting
    case CompareStep => w.watcher.Fetched?
    case Call => w.watcher.Calling?
    case Record => w.watcher.Accepted?
    case Detach => w.binding == Active
    case CloseSource => true
    case CloseStore => true
  }

  /** Failed loads, builds and commits leave the source unbound; a callback error leaves the watcher waiting. */
  function Effect(k: Codec, w: World, step: Step): World
    requires Enabled(k, w, step)
  {
    match step
    case Change(to) => w.(content := to)
    case BindBegin => w.(binding := if w.source.closed then Unbound else Reading)
    case BindRead => w.(binding := if k.readable(w.content) then Read(w.content) else Unbound)
    case BindRecord =>
      if w.source.closed then w.(binding := Unbound)
      else
        w.(source := Recorded(w.source, k.monitor, w.binding.content), binding := Loaded(w.binding.content))
    case BindCommit =>
      var built := k.build(w.binding.content);
      if built.None? || w.storeClosed then w.(binding := Unbound)
      else w.(keys := built.value, binding := Committed)
    case BindAttach => w.(source := Attached(w.source, k.monitor, true), binding := Active)
    case Poll => if k.readable(w.content) then w.(watcher := Fetched(w.content)) else w
    case CompareStep =>
      w.(watcher := if IsNews(w.source, w.watcher.content) then Calling(w.watcher.content) else Waiting)
    case Call =>
      var built := k.build(w.watcher.content);
      if w.storeClosed || built.None? then w.(watcher := Waiting)
      else w.(keys := built.value, watcher := Accepted(w.watcher.content))
    case Record =>
      w.(source := w.source.(snapshot := Some(w.watcher.content)), watcher := Waiting)
    case Detach => w.(source := Attached(w.source, k.monitor, false))
    case CloseSource => w.(source := w.source.(closed := true))
    case CloseStore => w.(storeClosed := true)
  }

  /** The store holds the keys of the recorded content. */
  predicate Agree(k: Codec, w: World) {
    w.source.snapshot.Some? && k.build(w.source.snapshot.value) == Some(w.keys)
  }

  /** Before the source is attached nothing watches it. After, store and snapshot agree, except that
      between a successful callback and the snapshot write the store is already at the accepted content.
      An open source with a callback is watched, and the watcher calls only with news. */
  ghost predicate Consistent(k: Codec, w: World) {
    && (!w.binding.Active? ==> !w.source.callback && !w.source.started && w.watcher == Waiting)
    && (w.binding.Loaded? ==> w.source.snapshot == Some(w.binding.content))
    && (w.binding.Committed? ==> Agree(k, w))
    && (w.binding.Active? ==>
          if w.watcher.Accepted? then
            w.source.snapshot.Some? && k.build(w.watcher.content) == Some(w.keys)
          else Agree(k, w))
    && (w.binding.Active? && k.monitor && w.source.callback && !w.source.closed ==> w.source.started)
    && (w.watcher.Calling? || w.watcher.Accepted? ==> w.source.snapshot != Some(w.watcher.content))
  }

  ghost predicate Fresh(w: World) {
    w.source == Poller(false, false, false, None) && w.binding == Unbound && w.watcher == Waiting
  }

  ghost predicate IsRun(k: Codec, worlds: seq<World>, steps: seq<Step>) {
    && |worlds| == |steps| + 1 && Fresh(worlds[0])
    && forall i | 0 <= i < |steps| :: Enabled(k, worlds[i], steps[i]) && worlds[i + 1] == Effect(k, worlds[i], steps[i])
  }

  lemma StepKeepsConsistent(k: Codec, w: World, step: Step)
    requires Consistent(k, w) && Enabled(k, w, step)
    ensures Consistent(k, Effect(k, w, step))
  {
  }

  lemma {:induction false} RunKeepsConsistent(k: Codec, worlds: seq<World>, steps: seq<Step>, i: nat)
    requires IsRun(k, worlds, steps) && i < |worlds|
    ensures Consistent(k, worlds[i])
  {
    if i > 0 {
      RunKeepsConsistent(k, worlds, steps, i - 1);
      StepKeepsConsistent(k, worlds[i - 1], steps[i - 1]);
    }
  }

  /** Watcher agreement: in any run, once the source is active the store's keys for it are those of the
      content whose digest is recorded, whenever the watcher is not between its callback and its record;
      and there the recorded content is the one before, and the next record restores the agreement. */
  lemma StoreAgreesWithSnapshot(k: Codec, worlds: seq<World>, steps: seq<Step>, i: nat)
    requires IsRun(k, worlds, steps) && i < |worlds| && worlds[i].binding.Active?
    ensures !worlds[i].watcher.Accepted? ==> Agree(k, worlds[i])
    ensures worlds[i].watcher.Accepted? ==> Agree(k, Effect(k, worlds[i], Record))
  {
    RunKeepsConsistent(k, worlds, steps, i);
  }

  /** The ways a load or a publication can come to nothing: a closed source, unreadable content, content that
      does not build, a closed store, and a callback that has been detached. */
  predicate Fails(k: Codec, w: World, step: Step)
    requires Enabled(k, w, step)
  {
    match step
    case BindBegin => w.source.closed
    case BindRead => !k.readable(w.content)
    case BindRecord => w.source.closed
    case BindCommit => w.storeClosed || k.build(w.binding.content).None?
    case Poll => !k.readable(w.content)
    case CompareStep => !w.source.callback
    case Call => w.storeClosed || k.build(w.watcher.content).None?
    case _ => false
  }

  /** What fails changes neither the store's keys nor the source, and leaves the bind or the watcher where it
      can start over. */
  lemma FailuresChangeNothing(k: Codec, w: World, step: Step)
    requires Consistent(k, w) && Enabled(k, w, step) && Fails(k, w, step)
    ensures var w' := Effect(k, w, step);
      && w'.keys == w.keys && w'.source == w.source
      && w'.watcher == Waiting && (w'.binding == Unbound || w'.binding == w.binding)
  {
  }

  /** The content a step hands to the store. */
  function Delivered(k: Codec, w: World, step: Step): Option<Content>
    requires Enabled(k, w, step)
  {
    match step
    case BindCommit => Some(w.binding.content)
    case Call => Some(w.watcher.content)
    case _ => None
  }

  /** In any run the store's keys change exactly when an open store is handed content that builds other keys,
      and the snapshot changes exactly when a bind in an open source records something new, and whenever the
      watcher records. */
  lemma ChangesExactly(k: Codec, worlds: seq<World>, steps: seq<Step>, i: nat)
    requires IsRun(k, worlds, steps) && i < |steps|
    ensures var w, w', step := worlds[i], worlds[i + 1], steps[i];
      var delivered := Delivered(k, w, step);
      && (w'.keys != w.keys <==>
            && !w.storeClosed && delivered.Some? && k.build(delivered.value).Some?
            && k.build(delivered.value) != Some(w.keys))
      && (w'.source.snapshot != w.source.snapshot <==>
            || (step == BindRecord && !w.source.closed && w.source.snapshot != Some(w.binding.content))
            || step == Record)
  {
    RunKeepsConsistent(k, worlds, steps, i);
  }

  /** The content was there to be read at some moment so far. */
  ghost predicate Seen(k: Codec, worlds: seq<World>, i: nat, c: Content) {
    exists m | 0 <= m <= i && m < |worlds| :: worlds[m].content == c && k.readable(c)
  }

  ghost predicate Served(k: Codec, worlds: seq<World>, i: nat, keys: seq<Key>) {
    exists c :: Seen(k, worlds, i, c) && k.build(c) == Some(keys)
  }

  ghost predicate Sighted(k: Codec, worlds: seq<World>, i: nat)
    requires i < |worlds|
  {
    var w := worlds[i];
    && (w.binding.Read? || w.binding.Loaded? ==> Seen(k, worlds, i, w.binding.content))
    && (!w.watcher.Waiting? ==> Seen(k, worlds, i, w.watcher.content))
    && (w.binding.Committed? || w.binding.Active? ==> Served(k, worlds, i, w.keys))
  }

  lemma SightingsLast(k: Codec, worlds: seq<World>, i: nat)
    requires i + 1 < |worlds|
    ensures forall c | Seen(k, worlds, i, c) :: Seen(k, worlds, i + 1, c)
    ensures forall keys | Served(k, worlds, i, keys) :: Served(k, worlds, i + 1, keys)
    ensures k.readable(worlds[i].content) ==> Seen(k, worlds, i + 1, worlds[i].content)
  {
    forall c | Seen(k, worlds, i, c) ensures Seen(k, worlds, i + 1, c) {
      var m :| 0 <= m <= i && worlds[m].content == c && k.readable(c);
    }
    forall keys | Served(k, worlds, i, keys) ensures Served(k, worlds, i + 1, keys) {
      var c :| Seen(k, worlds, i, c) && k.build(c) == Some(keys);
    }
  }

  /** Where the contents and keys in play after a step come from. */
  lemma Origins(k: Codec, w: World, step: Step)
    requires Consistent(k, w) && Enabled(k, w, step)
    ensures var w' := Effect(k, w, step);
      && (w'.binding.Read? || w'.binding.Loaded? ==>
            || ((w.binding.Read? || w.binding.Loaded?) && w'.binding.content == w.binding.content)
            || (k.readable(w.content) && w'.binding.content == w.content))
      && (!w'.watcher.Waiting? ==>
            || (!w.watcher.Waiting? && w'.watcher.content == w.watcher.content)
            || (k.readable(w.content) && w'.watcher.content == w.content))
      && (w'.binding.Committed? || w'.binding.Active? ==>
            || ((w.binding.Committed? || w.binding.Active?) && w'.keys == w.keys)
            || (w.binding.Loaded? && k.build(w.binding.content) == Some(w'.keys))
            || (w.watcher.Calling? && k.build(w.watcher.content) == Some(w'.keys)))
  {
  }

  lemma {:induction false} RunIsSighted(k: Codec, worlds: seq<World>, steps: seq<Step>, i: nat)
    requires IsRun(k, worlds, steps) && i < |worlds|
    ensures Sighted(k, worlds, i)
  {
    hide Seen, Served, Consistent, Effect, Enabled;
    if i > 0 {
      var w, w' := worlds[i - 1], worlds[i];
      RunIsSighted(k, worlds, steps, i - 1);
      RunKeepsConsistent(k, worlds, steps, i - 1);
      Origins(k, w, steps[i - 1]);
      SightingsLast(k, worlds, i - 1);
      if w.binding.Loaded? && k.build(w.binding.content) == Some(w'.keys) {
        DeliveredIsServed(k, worlds, i, w.binding.content);
      }
      if w.watcher.Calling? && k.build(w.watcher.content) == Some(w'.keys) {
        DeliveredIsServed(k, worlds, i, w.watcher.content);
      }
    }
  }

  lemma DeliveredIsServed(k: Codec, worlds: seq<World>, i: nat, c: Content)
    requires k.build(c).Some? && Seen(k, worlds, i, c)
    ensures Served(k, worlds, i, k.build(c).value)
  {
  }

  /** The store never serves keys of a content that was not there: at every moment its keys for a committed
      source are those of one content that could be read at that moment or before. */
  lemma ServedContentExisted(k: Codec, worlds: seq<World>, steps: seq<Step>, i: nat)
    requires IsRun(k, worlds, steps) && i < |worlds| && (worlds[i].binding.Committed? || worlds[i].binding.Active?)
    ensures exists m | 0 <= m <= i ::
      k.readable(worlds[m].content) && k.build(worlds[m].content) == Some(worlds[i].keys)
  {
    RunIsSighted(k, worlds, steps, i);
    var c :| Seen(k, worlds, i, c) && k.build(c) == Some(worlds[i].keys);
    var m :| 0 <= m <= i && m < |worlds| && worlds[m].content == c && k.readable(c);
  }

  // ----- catching up

  /** The rest of a turn of the watcher's loop, undisturbed. */
  function FinishCall(k: Codec, w: World): World
    requires w.watcher.Calling?
  {
    var w' := Effect(k, w, Call);
    if w'.watcher == Waiting then w' else Effect(k, w', Record)
  }

  function FinishTurn(k: Codec, w: World): World {
    match w.watcher
    case Waiting => w
    case Fetched(_) =>
      var w' := Effect(k, w, CompareStep);
      if w'.watcher == Waiting then w' else FinishCall(k, w')
    case Calling(_) => FinishCall(k, w)
    case Accepted(_) => Effect(k, w, Record)
  }

  /** One undisturbed turn of the watcher's loop. */
  function Turn(k: Codec, w: World): World
    requires w.source.started && w.watcher == Waiting
  {
    FinishTurn(k, Effect(k, w, Poll))
  }

  /** The watcher catches up: after one undisturbed turn of an open, attached source the store holds the
      keys of the current content if that content can be read and built, and otherwise what it held. */
  lemma TurnCatchesUp(k: Codec, w: World)
    requires Consistent(k, w) && w.binding.Active? && w.watcher == Waiting
    requires w.source.started && w.source.callback && !w.storeClosed
    ensures var w' := Turn(k, w);
      && Agree(k, w') && w'.watcher == Waiting
      && if k.readable(w.content) && k.build(w.content).Some?
         then w'.source.snapshot == Some(w.content) && Some(w'.keys) == k.build(w.content)
         else w' == w
  {
  }

  lemma TurnCanStart(k: Codec, w: World)
    requires Consistent(k, w) && w.binding.Active? && k.monitor && w.source.callback && !w.source.closed
    ensures var w' := FinishTurn(k, w);
      && Consistent(k, w') && w'.watcher == Waiting && w'.source.started
      && w' == w.(keys := w'.keys, watcher := Waiting, source := w.source.(snapshot := w'.source.snapshot))
  {
  }

  /** From any moment of any run, also with a watcher in mid-turn over stale content, an open, monitored,
      attached source has its watcher running, and when the turn under way and one more are undisturbed the
      store holds the keys of the current content, if it can be read and built. */
  lemma CatchesUpFromAnywhere(k: Codec, worlds: seq<World>, steps: seq<Step>, i: nat)
    requires IsRun(k, worlds, steps) && i < |worlds| && worlds[i].binding.Active?
    requires k.monitor && worlds[i].source.callback && !worlds[i].source.closed && !worlds[i].storeClosed
    ensures worlds[i].source.started
    ensures var first := FinishTurn(k, worlds[i]);
      && first.source.started && first.watcher == Waiting
      && var last, content := Turn(k, first), worlds[i].content;
      && Agree(k, last)
      && if k.readable(content) && k.build(content).Some?
         then last.source.snapshot == Some(content) && Some(last.keys) == k.build(content)
         else last == first
  {
    hide FinishTurn, Consistent, Turn;
    RunKeepsConsistent(k, worlds, steps, i);
    WatcherRuns(k, worlds[i]);
    TurnCanStart(k, worlds[i]);
    TurnCatchesUp(k, FinishTurn(k, worlds[i]));
  }

  lemma WatcherRuns(k: Codec, w: World)
    requires Consistent(k, w) && w.binding.Active? && k.monitor && w.source.callback && !w.source.closed
    ensures w.source.started
  {
  }

  // ----- binding

  /** Five undisturbed steps bind a source: from an unbound, open source, an open store and content that can be
      read and built, each is enabled after the one before, and at the end the source is attached, the content
      recorded, its keys held, and the watcher running exactly if the source is monitored. */
  lemma BindCompletes(k: Codec, w: World) returns (w1: World, w2: World, w3: World, w4: World, w5: World)
    requires Consistent(k, w) && w.binding == Unbound && !w.source.closed && !w.storeClosed
    requires k.readable(w.content) && k.build(w.content).Some?
    ensures Enabled(k, w, BindBegin) && w1 == Effect(k, w, BindBegin)
    ensures Enabled(k, w1, BindRead) && w2 == Effect(k, w1, BindRead)
    ensures Enabled(k, w2, BindRecord) && w3 == Effect(k, w2, BindRecord)
    ensures Enabled(k, w3, BindCommit) && w4 == Effect(k, w3, BindCommit)
    ensures Enabled(k, w4, BindAttach) && w5 == Effect(k, w4, BindAttach)
    ensures w5.binding == Active && w5.source.callback && (w5.source.started <==> k.monitor)
    ensures w5.source.snapshot == Some(w.content) && Some(w5.keys) == k.build(w.content)
  {
    w1 := Effect(k, w, BindBegin);
    w2 := Effect(k, w1, BindRead);
    w3 := Effect(k, w2, BindRecord);
    w4 := Effect(k, w3, BindCommit);
    w5 := Effect(k, w4, BindAttach);
  }

  /** A run can be continued with any step that is enabled at its end. */
  lemma RunsGoOn(k: Codec, worlds: seq<World>, steps: seq<Step>, step: Step)
    requires IsRun(k, worlds, steps) && Enabled(k, worlds[|steps|], step)
    ensures IsRun(k, worlds + [Effect(k, worlds[|steps|], step)], steps + [step])
  {
    hide Enabled, Effect;
  }

  /** So a source as it is made, and an open store, have a run that binds them. */
  lemma BindingRun(k: Codec, content: Content, keys: seq<Key>) returns (worlds: seq<World>, steps: seq<Step>)
    requires k.readable(content) && k.build(content).Some?
    ensures IsRun(k, worlds, steps)
    ensures worlds[0] == World(content, Poller(false, false, false, None), Unbound, Waiting, false, keys)
    ensures var w := worlds[|worlds| - 1]; w.binding == Active && w.source.callback && Some(w.keys) == k.build(content)
  {
    var w := World(content, Poller(false, false, false, None), Unbound, Waiting, false, keys);
    var w1, w2, w3, w4, w5 := BindCompletes(k, w);
    hide Effect, Enabled;
    worlds, steps := [w], [];
    RunsGoOn(k, worlds, steps, BindBegin);
    worlds, steps := worlds + [w1], steps + [BindBegin];
    RunsGoOn(k, worlds, steps, BindRead);
    worlds, steps := worlds + [w2], steps + [BindRead];
    RunsGoOn(k, worlds, steps, BindRecord);
    worlds, steps := worlds + [w3], steps + [BindRecord];
    RunsGoOn(k, worlds, steps, BindCommit);
    worlds, steps := worlds + [w4], steps + [BindCommit];
    RunsGoOn(k, worlds, steps, BindAttach);
    worlds, steps := worlds + [w5], steps + [BindAttach];
  }

  /** In any run each step of a bind goes on exactly when it can: the load begins in an open source, reading
      succeeds on readable content, the content is recorded in an open source, the commit succeeds in an open
      store with content that builds, and attaching always does. Otherwise the source is unbound again. */
  lemma BindGoesOnExactly(k: Codec, worlds: seq<World>, steps: seq<Step>, i: nat)
    requires IsRun(k, worlds, steps) && i < |steps|
    ensures var w, b' := worlds[i], worlds[i + 1].binding;
      match steps[i]
      case BindBegin => b' == if w.source.closed then Unbound else Reading
      case BindRead => b' == if k.readable(w.content) then Read(w.content) else Unbound
      case BindRecord => b' == if w.source.closed then Unbound else Loaded(w.binding.content)
      case BindCommit => b' == if !w.storeClosed && k.build(w.binding.content).Some? then Committed else Unbound
      case BindAttach => b' == Active
      case _ => b' == w.binding
  {
  }

  // ----- starting

  /** The watcher starts at the second of loading and attaching, in either order, unless the source is closed or
      not monitored. The order leaves no other trace. */
  lemma StartsAtTheSecond(closed: bool, monitor: bool, c: Content)
    ensures var made := Poller(false, false, closed, None);
      && Recorded(made, monitor, c) == made.(snapshot := Some(c))
      && Attached(made, monitor, true) == made.(callback := true)
      && Attached(Recorded(made, monitor, c), monitor, true) == Poller(true, monitor && !closed, closed, Some(c))
      && Recorded(Attached(made, monitor, true), monitor, c) == Poller(true, monitor && !closed, closed, Some(c))
  {
  }

  /** In any run the watcher has started if and only if the source is monitored and was attached while open. */
  lemma {:induction false} WatchedExactly(k: Codec, worlds: seq<World>, steps: seq<Step>, i: nat)
    requires IsRun(k, worlds, steps) && i < |worlds|
    ensures worlds[i].source.started <==>
      k.monitor && exists m | 0 <= m < i :: steps[m] == BindAttach && !worlds[m].source.closed
  {
    if i > 0 {
      WatchedExactly(k, worlds, steps, i - 1);
      RunKeepsConsistent(k, worlds, steps, i - 1);
      StartStep(k, worlds[i - 1], steps[i - 1]);
    }
  }

  lemma StartStep(k: Codec, w: World, step: Step)
    requires Consistent(k, w) && Enabled(k, w, step)
    ensures Effect(k, w, step).source.started <==>
      w.source.started || (k.monitor && step == BindAttach && !w.source.closed)
  {
  }

  /** A bind that is not over can take its next step, and so can a watcher that has started. */
  lemma NeverBlocked(k: Codec, w: World)
    ensures w.binding != Active ==>
      Enabled(k, w, BindBegin) || Enabled(k, w, BindRead) || Enabled(k, w, BindRecord) || Enabled(k, w, BindCommit)
      || Enabled(k, w, BindAttach)
    ensures w.source.started || w.watcher != Waiting ==>
      Enabled(k, w, Poll) || Enabled(k, w, CompareStep) || Enabled(k, w, Call) || Enabled(k, w, Record)
  {
  }

  // ----- the outside, detaching and closing

  /** What is done to a source or a store from outside is done, and nothing else changes. */
  lemma OutsideSteps(k: Codec, w: World, to: Content)
    ensures Effect(k, w, Change(to)) == w.(content := to)
    ensures Effect(k, w, CloseSource).source.closed && Effect(k, w, CloseSource).keys == w.keys
    ensures Effect(k, w, CloseStore) == w.(storeClosed := true)
    ensures w.binding == Active ==>
      Enabled(k, w, Detach) && !Effect(k, w, Detach).source.callback && Effect(k, w, Detach).keys == w.keys
  {
  }

  /** The store will take nothing more from this source. */
  predicate Final(w: World) {
    w.storeClosed || (w.binding == Active && !w.source.callback && !w.watcher.Calling?)
  }

  lemma FinalStep(k: Codec, w: World, step: Step)
    requires Enabled(k, w, step) && Final(w)
    ensures Final(Effect(k, w, step)) && Effect(k, w, step).keys == w.keys
  {
  }

  /** Once the store is closed, or the source detached with no call under way, its keys never change again. */
  lemma {:induction false} NothingAfterFinal(k: Codec, worlds: seq<World>, steps: seq<Step>, i: nat, j: nat)
    requires IsRun(k, worlds, steps) && i <= j < |worlds| && Final(worlds[i])
    ensures Final(worlds[j]) && worlds[j].keys == worlds[i].keys
  {
    if i < j {
      NothingAfterFinal(k, worlds, steps, i, j - 1);
      FinalStep(k, worlds[j - 1], steps[j - 1]);
    }
  }

  /** A `Load` by anyone but the store: the snapshot moves, the store's keys do not. */
  function ForeignLoad(k: Codec, w: World): World
    requires k.readable(w.content)
  {
    if w.source.closed then w else w.(source := Recorded(w.source, k.monitor, w.content))
  }

  /** This is why `RefreshAll` leaves out self-refreshing sources: a load of an active source whose result
      is not stored keeps the agreement exactly when the content builds to the keys the store holds, or
      the source is closed. When it does not, the watcher sees nothing new and never repairs it. */
  lemma ForeignLoadKeepsAgreementExactly(k: Codec, w: World)
    requires Consistent(k, w) && w.binding.Active? && w.watcher == Waiting
    requires k.readable(w.content)
    ensures Agree(k, ForeignLoad(k, w)) <==> w.source.closed || k.build(w.content) == Some(w.keys)
    ensures var w' := ForeignLoad(k, w);
      !Agree(k, w') && w'.source.started ==> Turn(k, w').keys == w'.keys && Turn(k, w').source == w'.source
  {
  }

  /** The disagreement is real: an active source whose file is replaced by one that builds other keys, and
      is then loaded by someone else, leaves the store behind for good. */
  lemma ForeignLoadExample(k: Codec, before: Content, after: Content, keys: seq<Key>)
    requires k.monitor && k.readable(after) && k.build(before) == Some(keys) && k.build(after) != Some(keys)
    ensures var w := World(after, Poller(true, true, false, Some(before)), Active, Waiting, false, keys);
      && Consistent(k, w) && !Agree(k, ForeignLoad(k, w))
      && Turn(k, ForeignLoad(k, w)) == ForeignLoad(k, w)
  {
  }
}
