/** The rotating in-memory key source (keysource/randomsource/randomsource.go). */
module RandomSource {
  import opened Wrappers
  import opened Keys
  import Text
  import opened Epochs

  const KEY_TYPES := {"RSA-2048", "RSA-3072", "RSA-4096", "ECDSA-P256", "ECDSA-P384", "ECDSA-P521",
                      "HMAC-256", "HMAC-384", "HMAC-512"}

  predicate ValidKeyType(t: string) { t in KEY_TYPES }

  /** The nine key types: three families, three strengths each. */
  lemma KeyTypesExactly(t: string)
    ensures ValidKeyType(t) <==>
      || t == "RSA-2048" || t == "RSA-3072" || t == "RSA-4096"
      || t == "ECDSA-P256" || t == "ECDSA-P384" || t == "ECDSA-P521"
      || t == "HMAC-256" || t == "HMAC-384" || t == "HMAC-512"
  {
  }

  datatype SourceError = NilContext | ContextDone | SourceClosed | GenerationFailed | InvalidConfiguration

  /** The part of a source that never changes. */
  datatype Config = Config(id: string, lifetime: int)

  /** The part that a rotation changes. A zero base means that nothing has been loaded yet. */
  datatype Rotation = Rotation(base: Time, epoch: int, keys: map<int, KeyCandidate>)

  /** Go's zero candidate, which a lookup of a missing epoch yields. */
  const ZERO_CANDIDATE := KeyCandidate("", "", "", [], "", 0, 0, 0, Material(0))

  function Lookup(keys: map<int, KeyCandidate>, epoch: int): KeyCandidate {
    if epoch in keys then keys[epoch] else ZERO_CANDIDATE
  }

  function WithStatus(candidate: KeyCandidate, status: string): KeyCandidate { candidate.(status := status) }

  function KeyId(id: string, epoch: int): string { id + "-" + Text.Decimal(epoch) }

  /** The candidate that `generate` builds around fresh material. */
  function Generated(c: Config, base: Time, epoch: int, material: Material): KeyCandidate {
    var start := StartOf(base, epoch, c.lifetime);
    KeyCandidate(KeyId(c.id, epoch), "", c.id, [], STATUS_PASSIVE, 0, start, EndOf(start, c.lifetime), material)
  }

  function Window(epoch: int): seq<int> { [Wrap(epoch - 1), epoch, Wrap(epoch + 1)] }

  predicate InWindow(epoch: int, at: int) { !(at < Wrap(epoch - 1) || at > Wrap(epoch + 1)) }

  /** Outcomes of the random generator during one rotation: the epochs it succeeds for, and the material. */
  type Draws = map<int, Material>

  /** The keys after filling the missing epochs in order, stopping at the first failure. */
  function Filled(c: Config, base: Time, keys: map<int, KeyCandidate>, epochs: seq<int>, draws: Draws)
    : (r: (map<int, KeyCandidate>, bool))
  {
    if epochs == [] then (keys, true)
    else
      var before := Filled(c, base, keys, epochs[..|epochs| - 1], draws);
      var e := epochs[|epochs| - 1];
      if !before.1 || e in before.0 then before
      else if e !in draws then (before.0, false)
      else (before.0[e := Generated(c, base, e, draws[e])], true)
  }

  function Published(keys: map<int, KeyCandidate>, epoch: int): seq<KeyCandidate> {
    [WithStatus(Lookup(keys, Wrap(epoch - 1)), STATUS_PASSIVE),
     WithStatus(Lookup(keys, epoch), STATUS_ACTIVE),
     WithStatus(Lookup(keys, Wrap(epoch + 1)), STATUS_PASSIVE)]
  }

  /** The base and epoch that a rotation at `now` works with. */
  function Rebased(c: Config, r: Rotation, now: Time): Rotation
    requires c.lifetime > 0
  {
    if IsZero(r.base) then r.(base := now, epoch := 0) else r.(epoch := EpochAt(r.base, now, c.lifetime))
  }

  function Rotated(c: Config, r: Rotation, now: Time, draws: Draws): (Rotation, Result<seq<KeyCandidate>, SourceError>)
    requires c.lifetime > 0
  {
    var r1 := Rebased(c, r, now);
    var filled := Filled(c, r1.base, r1.keys, Window(r1.epoch), draws);
    if !filled.1 then (r1.(keys := filled.0), Err(GenerationFailed))
    else
      var kept := map e | e in filled.0 && InWindow(r1.epoch, e) :: filled.0[e];
      (r1.(keys := kept), Ok(Published(kept, r1.epoch)))
  }

  class Source {
    const config: Config
    const keyType: string
    var callback: bool      // a refresh callback is set
    var started: bool       // the watcher runs
    var closed: bool
    var base: Time
    var epoch: int
    var keys: map<int, KeyCandidate>

    predicate Valid() { config.lifetime > 0 && !Text.Blank(config.id) && ValidKeyType(keyType) }

    function State(): Rotation
      reads this
    {
      Rotation(base, epoch, keys)
    }

    constructor Make(id: string, keyType: string, lifetime: int)
      requires lifetime > 0 && !Text.Blank(id) && ValidKeyType(keyType)
      ensures Valid() && config == Config(id, lifetime) && this.keyType == keyType
      ensures !callback && !started && !closed && State() == Rotation(0, 0, map[])
    {
      config := Config(id, lifetime);
      this.keyType := keyType;
      callback, started, closed := false, false, false;
      base, epoch, keys := 0, 0, map[];
    }

    /** `rotateLocked`: rebase or advance the epoch, generate what the window lacks, drop what left it. */
    method RotateLocked(now: Time, draws: Draws) returns (r: Result<seq<KeyCandidate>, SourceError>)
      requires Valid()
      modifies this`base, this`epoch, this`keys
      ensures (State(), r) == Rotated(config, old(State()), now, draws)
    {
      if IsZero(base) {
        base := now;
        epoch := 0;
      } else {
        epoch := EpochAt(base, now, config.lifetime);
      }
      var filled := Fill(draws);
      if !filled {
        return Err(GenerationFailed);
      }
      keys := Unexpired(keys, epoch);
      r := Ok(Published(keys, epoch));
    }

    /** The generation loop: the epochs of the window that are missing, in order, up to a failure. */
    method Fill(draws: Draws) returns (complete: bool)
      requires Valid()
      modifies this`keys
      ensures (keys, complete) == Filled(config, base, old(keys), Window(epoch), draws)
    {
      ghost var before := keys;
      var window := [Wrap(epoch - 1), epoch, Wrap(epoch + 1)];
      for i := 0 to |window|
        invariant (keys, true) == Filled(config, base, before, window[..i], draws)
      {
        var e := window[i];
        assert window[..i + 1][..i] == window[..i];
        if e !in keys {
          if e !in draws {
            FailureStops(config, base, before, window, i, draws);
            return false;
          }
          keys := keys[e := Generated(config, base, e, draws[e])];
        }
      }
      assert window[..|window|] == window;
      return true;
    }

    /** `Load`: a rotation, unless the context is done or the source is closed. A context that ends while
        the keys are generated leaves the rotation done but the watcher not started. */
    method Load(nilContext: bool, doneBefore: bool, doneAfter: bool, now: Time, draws: Draws)
      returns (r: Result<seq<KeyCandidate>, SourceError>)
      requires Valid()
      modifies this
      ensures callback == old(callback) && closed == old(closed)
      ensures nilContext ==> r == Err(NilContext)
      ensures !nilContext && doneBefore ==> r == Err(ContextDone)
      ensures !nilContext && !doneBefore && closed ==> r == Err(SourceClosed)
      ensures nilContext || doneBefore || closed ==> State() == old(State()) && started == old(started)
      ensures !nilContext && !doneBefore && !closed ==>
        var rotated := Rotated(config, old(State()), now, draws);
        && State() == rotated.0
        && r == (if rotated.1.Ok? && doneAfter then Err(ContextDone) else rotated.1)
        && started == (old(started) || (r.Ok? && callback && !IsZero(base)))
    {
      if nilContext {
        return Err(NilContext);
      }
      if doneBefore {
        return Err(ContextDone);
      }
      if closed {
        return Err(SourceClosed);
      }
      var keys := RotateLocked(now, draws);
      if keys.Err? {
        return keys;
      }
      if doneAfter {
        return Err(ContextDone);
      }
      StartLocked();
      return keys;
    }

    method StartLocked()
      modifies this`started
      ensures started == (old(started) || (!closed && callback && !IsZero(base)))
    {
      if closed || started || !callback || IsZero(base) {
        return;
      }
      started := true;
    }

    method Close()
      modifies this`closed
      ensures closed
    {
      closed := true;
    }

    method SetRefreshCallback(attach: bool)
      modifies this`callback, this`started
      ensures callback == attach
      ensures started == (old(started) || (!closed && attach && !IsZero(base)))
    {
      callback := attach;
      StartLocked();
    }

    /** One firing of the watcher's timer: what is handed to the callback, if anything. */
    method TimerFired(now: Time, draws: Draws) returns (published: Option<seq<KeyCandidate>>)
      requires Valid()
      modifies this`base, this`epoch, this`keys
      ensures var rotated := Rotated(config, old(State()), now, draws);
        && State() == rotated.0
        && published == (if callback && rotated.1.Ok? then Some(rotated.1.value) else None)
    {
      var r := RotateLocked(now, draws);
      published := if r.Ok? && callback then Some(r.value) else None;
    }
  }

  /** `New`, with its configuration checks. */
  method New(id: string, keyType: string, lifetime: int) returns (source: Source?, r: Result<(), SourceError>)
    ensures r.Ok? <==> !Text.Blank(id) && lifetime > 0 && ValidKeyType(keyType)
    ensures r.Err? ==> source == null
    ensures r.Ok? ==>
      && source != null && fresh(source) && source.Valid()
      && source.config == Config(id, lifetime) && source.keyType == keyType
      && !source.closed && !source.callback && !source.started && source.State() == Rotation(0, 0, map[])
  {
    if Text.Blank(id) || lifetime <= 0 || !ValidKeyType(keyType) {
      return null, Err(InvalidConfiguration);
    }
    source := new Source.Make(id, keyType, lifetime);
    r := Ok(());
  }

  /** The deletion loop of a rotation: drop the epochs outside the window. */
  method Unexpired(keys: map<int, KeyCandidate>, epoch: int) returns (kept: map<int, KeyCandidate>)
    ensures kept == map e | e in keys && InWindow(epoch, e) :: keys[e]
  {
    kept := keys;
    var todo := keys.Keys;
    while todo != {}
      invariant kept == map e | e in keys && (InWindow(epoch, e) || e in todo) :: keys[e]
      decreases todo
    {
      var e := AnyElement(todo);
      if e < Wrap(epoch - 1) || e > Wrap(epoch + 1) {
        kept := kept - {e};
      }
      todo := todo - {e};
    }
  }

  /** Once an epoch cannot be generated, the rest of the window is not looked at. */
  lemma {:induction false} FailureStops(
    c: Config, base: Time, keys: map<int, KeyCandidate>, epochs: seq<int>, i: nat, draws: Draws)
    requires i < |epochs|
    requires var before := Filled(c, base, keys, epochs[..i], draws);
      before.1 && epochs[i] !in before.0 && epochs[i] !in draws
    ensures Filled(c, base, keys, epochs, draws) == (Filled(c, base, keys, epochs[..i], draws).0, false)
  {
    hide Generated;
    var n := |epochs| - 1;
    if i < n {
      assert epochs[..n][..i] == epochs[..i];
      FailureStops(c, base, keys, epochs[..n], i, draws);
    }
  }
}
