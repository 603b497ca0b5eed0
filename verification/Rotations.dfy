/** Whole runs of the rotating source: which material each epoch, and each key ID, can have. */
module Rotations {
  import opened Wrappers
  import opened Keys
  import Text
  import opened Epochs
  import opened RandomSource

  /** One rotation: the clock reading and the outcomes of the random generator. */
  datatype Tick = Tick(now: Time, draws: Draws)

  /** Material generated for an epoch. */
  datatype Generation = Generation(epoch: int, material: Material)

  /** The source's rotation state after the given rotations, successful or not. */
  function After(c: Config, ticks: seq<Tick>): Rotation
    requires c.lifetime > 0
  {
    if ticks == [] then Rotation(0, 0, map[])
    else
      var last := ticks[|ticks| - 1];
      Rotated(c, After(c, ticks[..|ticks| - 1]), last.now, last.draws).0
  }

  /** What the last of the given rotations returns. */
  function Publication(c: Config, ticks: seq<Tick>): Result<seq<KeyCandidate>, SourceError>
    requires c.lifetime > 0 && ticks != []
  {
    var last := ticks[|ticks| - 1];
    Rotated(c, After(c, ticks[..|ticks| - 1]), last.now, last.draws).1
  }

  /** The material generated by filling some epochs, in order, up to the first failure. */
  function FillLog(c: Config, base: Time, keys: map<int, KeyCandidate>, epochs: seq<int>, draws: Draws)
    : seq<Generation>
  {
    if epochs == [] then []
    else
      var front := epochs[..|epochs| - 1];
      var before, log := Filled(c, base, keys, front, draws), FillLog(c, base, keys, front, draws);
      var e := epochs[|epochs| - 1];
      if before.1 && e !in before.0 && e in draws then log + [Generation(e, draws[e])] else log
  }

  /** Everything generated in a run, in order. */
  function Log(c: Config, ticks: seq<Tick>): seq<Generation>
    requires c.lifetime > 0
  {
    if ticks == [] then []
    else
      var front, last := ticks[..|ticks| - 1], ticks[|ticks| - 1];
      var r := Rebased(c, After(c, front), last.now);
      Log(c, front) + FillLog(c, r.base, r.keys, Window(r.epoch), last.draws)
  }

  /** Clock readings are after Go's zero instant and never go back, and durations fit. */
  ghost predicate Steady(c: Config, ticks: seq<Tick>) {
    && c.lifetime > 0
    && (forall i | 0 <= i < |ticks| :: 0 < ticks[0].now && Fits(ticks[0].now, ticks[i].now, c.lifetime))
    && (forall i, j | 0 <= i <= j < |ticks| :: ticks[i].now <= ticks[j].now)
  }

  // ----- one rotation

  predicate Names(log: seq<Generation>, e: int) { exists i | 0 <= i < |log| :: log[i].epoch == e }

  ghost predicate Distinct(log: seq<Generation>) {
    forall i, j | 0 <= i < j < |log| :: log[i].epoch != log[j].epoch
  }

  /** A fill step either generates the last epoch, and logs it, or leaves keys and log as they were. */
  lemma FillStep(c: Config, base: Time, keys: map<int, KeyCandidate>, epochs: seq<int>, draws: Draws)
    requires epochs != []
    ensures
      var front, e := epochs[..|epochs| - 1], epochs[|epochs| - 1];
      var before, log := Filled(c, base, keys, front, draws), FillLog(c, base, keys, front, draws);
      var after, log' := Filled(c, base, keys, epochs, draws), FillLog(c, base, keys, epochs, draws);
      || (e !in before.0 && e in draws && before.1 && after == (before.0[e := Generated(c, base, e, draws[e])], true)
          && log' == log + [Generation(e, draws[e])])
      || (after.0 == before.0 && log' == log && (after.1 ==> before.1 && e in before.0))
  {
  }

  /** Filling keeps the keys there are, and a complete fill leaves no epoch missing. */
  lemma {:induction false} FillKeeps(
    c: Config, base: Time, keys: map<int, KeyCandidate>, epochs: seq<int>, draws: Draws)
    ensures var filled := Filled(c, base, keys, epochs, draws);
      && (forall e | e in keys :: e in filled.0 && filled.0[e] == keys[e])
      && (filled.1 ==> forall i | 0 <= i < |epochs| :: epochs[i] in filled.0)
  {
    if epochs != [] {
      FillKeeps(c, base, keys, epochs[..|epochs| - 1], draws);
    }
  }

  /** What a fill adds is what it logs: missing epochs of the list, each with its logged material. */
  lemma {:induction false} FillAddsItsLog(
    c: Config, base: Time, keys: map<int, KeyCandidate>, epochs: seq<int>, draws: Draws)
    ensures var filled, log := Filled(c, base, keys, epochs, draws).0, FillLog(c, base, keys, epochs, draws);
      && (forall g | g in log :: g.epoch in epochs && g.epoch !in keys && g.epoch in filled
                                 && filled[g.epoch] == Generated(c, base, g.epoch, g.material))
      && Distinct(log)
  {
    hide Generated;
    if epochs != [] {
      var front, e := epochs[..|epochs| - 1], epochs[|epochs| - 1];
      var log, log' := FillLog(c, base, keys, front, draws), FillLog(c, base, keys, epochs, draws);
      FillAddsItsLog(c, base, keys, front, draws);
      FillKeeps(c, base, keys, front, draws);
      FillStep(c, base, keys, epochs, draws);
      assert epochs == front + [e];
    }
  }

  lemma {:induction false} FillNamesWhatItAdds(
    c: Config, base: Time, keys: map<int, KeyCandidate>, epochs: seq<int>, draws: Draws)
    ensures var filled, log := Filled(c, base, keys, epochs, draws).0, FillLog(c, base, keys, epochs, draws);
      forall e | e in filled && e !in keys :: Names(log, e)
  {
    hide Generated;
    if epochs != [] {
      var front := epochs[..|epochs| - 1];
      var log, log' := FillLog(c, base, keys, front, draws), FillLog(c, base, keys, epochs, draws);
      FillNamesWhatItAdds(c, base, keys, front, draws);
      FillStep(c, base, keys, epochs, draws);
      NamesGrow(log, log');
      assert |log'| > |log| ==> Names(log', log'[|log|].epoch);
    }
  }

  lemma NamesGrow(log: seq<Generation>, log': seq<Generation>)
    requires log <= log'
    ensures forall e | Names(log, e) :: Names(log', e)
    ensures forall i | |log| <= i < |log'| :: Names(log', log'[i].epoch)
  {
    forall e | Names(log, e) ensures Names(log', e) {
      var i :| 0 <= i < |log| && log[i].epoch == e;
      assert log'[i].epoch == e;
    }
  }

  lemma NamesAppended(earlier: seq<Generation>, added: seq<Generation>)
    ensures forall e | Names(earlier, e) || Names(added, e) :: Names(earlier + added, e)
  {
    NamesGrow(earlier, earlier + added);
    forall e | Names(added, e) ensures Names(earlier + added, e) {
      var i :| 0 <= i < |added| && added[i].epoch == e;
      assert (earlier + added)[|earlier| + i] == added[i];
    }
  }

  // ----- whole runs

  /** The bookkeeping that makes epochs single-use: what was generated is still held or is behind the
      window, and what is held was generated as logged. */
  ghost predicate Consistent(c: Config, ticks: seq<Tick>)
    requires c.lifetime > 0
  {
    var r, log := After(c, ticks), Log(c, ticks);
    && (if ticks == [] then r == Rotation(0, 0, map[])
        else r.base == ticks[0].now && r.epoch == EpochAt(r.base, ticks[|ticks| - 1].now, c.lifetime))
    && Distinct(log)
    && (forall g | g in log ::
          if g.epoch in r.keys then r.keys[g.epoch] == Generated(c, r.base, g.epoch, g.material)
          else g.epoch < r.epoch - 1)
    && (forall e | e in r.keys :: e <= r.epoch + 1 && Names(log, e))
  }

  lemma SteadyFront(c: Config, ticks: seq<Tick>, k: nat)
    requires Steady(c, ticks) && k <= |ticks|
    ensures Steady(c, ticks[..k])
  {
  }

  /** The base and epoch of the next rotation: the base never moves and the epoch never goes back. */
  lemma EpochAdvances(c: Config, ticks: seq<Tick>)
    requires Steady(c, ticks) && ticks != [] && Consistent(c, ticks[..|ticks| - 1])
    ensures var r := After(c, ticks[..|ticks| - 1]);
      var r' := Rebased(c, r, ticks[|ticks| - 1].now);
      && r'.base == ticks[0].now && r'.epoch == EpochAt(r'.base, ticks[|ticks| - 1].now, c.lifetime)
      && r'.keys == r.keys && 0 <= r'.epoch && (|ticks| > 1 ==> r.epoch <= r'.epoch)
      && Window(r'.epoch) == [r'.epoch - 1, r'.epoch, r'.epoch + 1]
  {
    var n := |ticks| - 1;
    NothingOverflows(ticks[0].now, ticks[n].now, c.lifetime);
    EpochCountsLifetimes(ticks[0].now, ticks[n].now, c.lifetime);
    if n > 0 {
      EpochMonotone(ticks[0].now, ticks[n - 1].now, ticks[n].now, c.lifetime);
    } else {
      QuotientBounds(0, c.lifetime);
    }
  }

  lemma {:induction false} RunsAreConsistent(c: Config, ticks: seq<Tick>)
    requires Steady(c, ticks)
    ensures Consistent(c, ticks)
  {
    if ticks != [] {
      var front, last := ticks[..|ticks| - 1], ticks[|ticks| - 1];
      SteadyFront(c, ticks, |front|);
      RunsAreConsistent(c, front);
      EpochAdvances(c, ticks);
      RotationIsConsistent(c, ticks);
    }
  }

  lemma RotationIsConsistent(c: Config, ticks: seq<Tick>)
    requires Steady(c, ticks) && ticks != [] && Consistent(c, ticks[..|ticks| - 1])
    ensures Consistent(c, ticks)
  {
    hide Generated, Filled, FillLog, Published, EpochAt, Wrap, Rotated, Rebased, Log;
    EpochAdvances(c, ticks);
    NothingTwice(c, ticks);
    LogIsHeld(c, ticks);
    KeysAreLogged(c, ticks);
    StateAfter(c, ticks);
  }

  /** The state a rotation leaves: the rebased epoch, and at least the window of the filled keys. */
  lemma StateAfter(c: Config, ticks: seq<Tick>)
    requires c.lifetime > 0 && ticks != []
    ensures var last := ticks[|ticks| - 1];
      var r, r' := Rebased(c, After(c, ticks[..|ticks| - 1]), last.now), After(c, ticks);
      var filled := Filled(c, r.base, r.keys, Window(r.epoch), last.draws).0;
      && r'.base == r.base && r'.epoch == r.epoch
      && (forall e | e in r'.keys :: e in filled && filled[e] == r'.keys[e])
      && (forall e | e in filled && InWindow(r.epoch, e) :: e in r'.keys)
  {
    hide Generated, Filled, Wrap, EpochAt;
  }

  /** What was generated is still held, or has left the window. */
  lemma LogIsHeld(c: Config, ticks: seq<Tick>)
    requires Steady(c, ticks) && ticks != [] && Consistent(c, ticks[..|ticks| - 1])
    ensures var r := After(c, ticks);
      forall g | g in Log(c, ticks) ::
        if g.epoch in r.keys then r.keys[g.epoch] == Generated(c, r.base, g.epoch, g.material)
        else g.epoch < r.epoch - 1
  {
    hide Generated, Filled, FillLog, Published, EpochAt, Rotated, Wrap, After;
    var front, last := ticks[..|ticks| - 1], ticks[|ticks| - 1];
    var r, r' := Rebased(c, After(c, front), last.now), After(c, ticks);
    var added := FillLog(c, r.base, r.keys, Window(r.epoch), last.draws);
    EpochAdvances(c, ticks);
    StateAfter(c, ticks);
    FillAddsItsLog(c, r.base, r.keys, Window(r.epoch), last.draws);
    FillNamesWhatItAdds(c, r.base, r.keys, Window(r.epoch), last.draws);
    FillKeeps(c, r.base, r.keys, Window(r.epoch), last.draws);
    forall g | g in Log(c, ticks)
      ensures if g.epoch in r'.keys then r'.keys[g.epoch] == Generated(c, r'.base, g.epoch, g.material)
              else g.epoch < r'.epoch - 1
    {
      if g in added {
        assert g.epoch in Window(r.epoch);
      } else {
        assert g in Log(c, front) && front != [];
        assert forall i | 0 <= i < |added| :: added[i] in added;
      }
    }
  }

  /** What is held was generated, and is not ahead of the window. */
  lemma KeysAreLogged(c: Config, ticks: seq<Tick>)
    requires Steady(c, ticks) && ticks != [] && Consistent(c, ticks[..|ticks| - 1])
    ensures forall e | e in After(c, ticks).keys :: e <= After(c, ticks).epoch + 1 && Names(Log(c, ticks), e)
  {
    hide Generated, Filled, FillLog, Published, EpochAt, Rotated, Wrap, After;
    var front, last := ticks[..|ticks| - 1], ticks[|ticks| - 1];
    EpochAdvances(c, ticks);
    StateAfter(c, ticks);
    var r := Rebased(c, After(c, front), last.now);
    var earlier, added := Log(c, front), FillLog(c, r.base, r.keys, Window(r.epoch), last.draws);
    FillAddsItsLog(c, r.base, r.keys, Window(r.epoch), last.draws);
    FillNamesWhatItAdds(c, r.base, r.keys, Window(r.epoch), last.draws);
    FillKeeps(c, r.base, r.keys, Window(r.epoch), last.draws);
    NamesAppended(earlier, added);
    forall e | Names(added, e) ensures e in Window(r.epoch) {
      var i :| 0 <= i < |added| && added[i].epoch == e;
      assert added[i] in added;
    }
    forall e | e in After(c, ticks).keys ensures e <= r.epoch + 1 && Names(Log(c, ticks), e) {
      if e in r.keys {
        assert front != [] && Names(earlier, e);
      } else {
        assert Names(added, e);
      }
    }
  }

  /** A rotation generates no epoch that was generated before. */
  lemma NothingTwice(c: Config, ticks: seq<Tick>)
    requires Steady(c, ticks) && ticks != [] && Consistent(c, ticks[..|ticks| - 1])
    ensures Distinct(Log(c, ticks))
  {
    hide Generated, Filled, FillLog, Published, EpochAt, Wrap;
    var front, last := ticks[..|ticks| - 1], ticks[|ticks| - 1];
    EpochAdvances(c, ticks);
    var r := Rebased(c, After(c, front), last.now);
    var earlier, added := Log(c, front), FillLog(c, r.base, r.keys, Window(r.epoch), last.draws);
    FillAddsItsLog(c, r.base, r.keys, Window(r.epoch), last.draws);
    forall i, j | 0 <= i < |earlier| && 0 <= j < |added| ensures earlier[i].epoch != added[j].epoch {
      assert earlier[i] in earlier && added[j] in added;
      assert earlier != [] ==> front != [];
    }
  }

  // ----- results

  /** In any run of rotations, also ones in which generation fails part-way, no epoch is generated twice. */
  lemma EachEpochOnce(c: Config, ticks: seq<Tick>)
    requires Steady(c, ticks)
    ensures Distinct(Log(c, ticks))
  {
    RunsAreConsistent(c, ticks);
  }

  /** `k` is the key of epoch `w` as logged, published with the given status. */
  ghost predicate IsKeyOf(c: Config, ticks: seq<Tick>, w: int, status: string, k: KeyCandidate)
    requires c.lifetime > 0 && ticks != []
  {
    && k == Generated(c, ticks[0].now, w, k.material).(status := status)
    && Generation(w, k.material) in Log(c, ticks)
  }

  /** A rotation fails exactly when it must generate an epoch and cannot. Otherwise it publishes the keys
      of the previous, current and next epoch, the current one active and the others passive. */
  lemma WhatIsPublished(c: Config, ticks: seq<Tick>)
    requires Steady(c, ticks) && ticks != []
    ensures var e := EpochAt(ticks[0].now, ticks[|ticks| - 1].now, c.lifetime);
      var held, draws := After(c, ticks[..|ticks| - 1]).keys, ticks[|ticks| - 1].draws;
      var p := Publication(c, ticks);
      && (p.Err? <==> exists w | e - 1 <= w <= e + 1 :: w !in held && w !in draws)
      && (p.Ok? ==>
            && |p.value| == 3
            && IsKeyOf(c, ticks, e - 1, STATUS_PASSIVE, p.value[0])
            && IsKeyOf(c, ticks, e, STATUS_ACTIVE, p.value[1])
            && IsKeyOf(c, ticks, e + 1, STATUS_PASSIVE, p.value[2]))
  {
    hide Generated, EpochAt, Wrap, Steady, Consistent, Filled, Log, Rebased;
    var front, last := ticks[..|ticks| - 1], ticks[|ticks| - 1];
    SteadyFront(c, ticks, |front|);
    RunsAreConsistent(c, front);
    RunsAreConsistent(c, ticks);
    EpochAdvances(c, ticks);
    StateAfter(c, ticks);
    var r := Rebased(c, After(c, front), last.now);
    FillKeeps(c, r.base, r.keys, Window(r.epoch), last.draws);
    FillFailsExactly(c, r.base, r.keys, r.epoch, last.draws);
    var window := Window(r.epoch);
    assert window[0] == r.epoch - 1 && window[1] == r.epoch && window[2] == r.epoch + 1;
    if Publication(c, ticks).Ok? {
      HeldIsLogged(c, ticks, r.epoch - 1);
      HeldIsLogged(c, ticks, r.epoch);
      HeldIsLogged(c, ticks, r.epoch + 1);
    }
  }

  /** Every field of a published candidate: the source's ID and the epoch make the key ID, the epoch's start and
      its start plus two lifetimes bound its validity, and nothing restricts or ranks it. */
  lemma PublishedFields(c: Config, ticks: seq<Tick>, i: nat)
    requires Steady(c, ticks) && ticks != [] && Publication(c, ticks).Ok? && i < 3
    ensures |Publication(c, ticks).value| == 3
    ensures var k := Publication(c, ticks).value[i];
      var w := EpochAt(ticks[0].now, ticks[|ticks| - 1].now, c.lifetime) - 1 + i;
      && k.id == c.id + "-" + Text.Decimal(w) && k.source == c.id && k.owner == ""
      && k.status == (if i == 1 then "active" else "passive") && k.priority == 0 && k.restrictions == []
      && k.notBefore == ticks[0].now + w * c.lifetime && k.notAfter == ticks[0].now + (w + 2) * c.lifetime
  {
    hide EpochAt, Log, After, Rotated, Wrap, Publication, StartOf, EndOf;
    WhatIsPublished(c, ticks);
    NothingOverflows(ticks[0].now, ticks[|ticks| - 1].now, c.lifetime);
  }

  lemma HeldIsLogged(c: Config, ticks: seq<Tick>, w: int)
    requires c.lifetime > 0 && ticks != [] && Consistent(c, ticks)
    requires w in After(c, ticks).keys
    ensures var k := After(c, ticks).keys[w];
      k == Generated(c, ticks[0].now, w, k.material) && Generation(w, k.material) in Log(c, ticks)
  {
    hide After, Log, EpochAt;
    var log := Log(c, ticks);
    var i :| 0 <= i < |log| && log[i].epoch == w;
    assert log[i] in log;
    assert log[i] == Generation(w, log[i].material);
  }

  /** Every field of a held key: as published, but never active. */
  lemma HeldFields(c: Config, ticks: seq<Tick>, w: int)
    requires Steady(c, ticks) && ticks != [] && w in After(c, ticks).keys
    ensures var k := After(c, ticks).keys[w];
      && k.id == c.id + "-" + Text.Decimal(w) && k.source == c.id && k.owner == ""
      && k.status == "passive" && k.priority == 0 && k.restrictions == []
      && Generation(w, k.material) in Log(c, ticks)
  {
    hide EpochAt, Log, After, Consistent, StartOf, EndOf;
    RunsAreConsistent(c, ticks);
    HeldIsLogged(c, ticks, w);
  }

  lemma FillFailsExactly(c: Config, base: Time, keys: map<int, KeyCandidate>, e: int, draws: Draws)
    requires Window(e) == [e - 1, e, e + 1]
    ensures !Filled(c, base, keys, Window(e), draws).1 <==> exists w | e - 1 <= w <= e + 1 :: w !in keys && w !in draws
  {
    hide Generated, Wrap;
    var one, two, three := [e - 1], [e - 1, e], [e - 1, e, e + 1];
    assert three[..2] == two && two[..1] == one && one[..0] == [];
    var a, b := Filled(c, base, keys, one, draws), Filled(c, base, keys, two, draws);
    assert Filled(c, base, keys, one[..0], draws) == (keys, true);
    assert a.1 <==> e - 1 in keys || e - 1 in draws;
    assert a.1 ==> (e in a.0 <==> e in keys) && (e + 1 in a.0 <==> e + 1 in keys);
    assert b.1 <==> a.1 && (e in keys || e in draws);
    assert b.1 ==> (e + 1 in b.0 <==> e + 1 in keys);
    assert !(exists w | e - 1 <= w <= e + 1 :: w !in keys && w !in draws)
      <==> (forall w | w in three :: w in keys || w in draws);
  }

  /** An epoch that has left the window behind never comes back. */
  lemma {:induction false} GoneForGood(c: Config, ticks: seq<Tick>, k: nat, e: int)
    requires Steady(c, ticks) && 0 < k <= |ticks|
    requires e < After(c, ticks[..k]).epoch - 1 && e !in After(c, ticks[..k]).keys
    ensures e < After(c, ticks).epoch - 1 && e !in After(c, ticks).keys
  {
    if k < |ticks| {
      var front, last := ticks[..|ticks| - 1], ticks[|ticks| - 1];
      assert front[..k] == ticks[..k];
      SteadyFront(c, ticks, |front|);
      GoneForGood(c, front, k, e);
      GoneStep(c, ticks, e);
    } else {
      assert ticks[..k] == ticks;
    }
  }

  lemma GoneStep(c: Config, ticks: seq<Tick>, e: int)
    requires Steady(c, ticks) && |ticks| > 1
    requires var r := After(c, ticks[..|ticks| - 1]); e < r.epoch - 1 && e !in r.keys
    ensures e < After(c, ticks).epoch - 1 && e !in After(c, ticks).keys
  {
    hide Generated, EpochAt, Wrap, Steady, Filled, Log, Rebased, Rotated, After, FillLog;
    var front, last := ticks[..|ticks| - 1], ticks[|ticks| - 1];
    SteadyFront(c, ticks, |front|);
    RunsAreConsistent(c, front);
    EpochAdvances(c, ticks);
    StateAfter(c, ticks);
    var r := Rebased(c, After(c, front), last.now);
    var added := FillLog(c, r.base, r.keys, Window(r.epoch), last.draws);
    FillAddsItsLog(c, r.base, r.keys, Window(r.epoch), last.draws);
    FillNamesWhatItAdds(c, r.base, r.keys, Window(r.epoch), last.draws);
    assert forall i | 0 <= i < |added| :: added[i] in added;
  }

  // ----- what is held

  /** The window of an epoch, as a set. */
  function Around(e: int): set<int> { {e - 1, e, e + 1} }

  /** The epoch that was current at the `n`th rotation. */
  function EpochOf(c: Config, ticks: seq<Tick>, n: nat): int
    requires c.lifetime > 0 && 0 < n <= |ticks|
  {
    EpochAt(ticks[0].now, ticks[n - 1].now, c.lifetime)
  }

  lemma RotatedDrops(c: Config, r: Rotation, now: Time, draws: Draws)
    requires c.lifetime > 0 && Rotated(c, r, now, draws).1.Ok?
    ensures forall w | w in Rotated(c, r, now, draws).0.keys :: InWindow(Rebased(c, r, now).epoch, w)
  {
    hide Filled, Rebased, Published, InWindow;
  }

  lemma KeptIsInWindow(c: Config, ticks: seq<Tick>, w: int)
    requires c.lifetime > 0 && ticks != [] && Publication(c, ticks).Ok? && w in After(c, ticks).keys
    ensures InWindow(Rebased(c, After(c, ticks[..|ticks| - 1]), ticks[|ticks| - 1].now).epoch, w)
  {
    hide Rotated, Rebased, InWindow;
    var last := ticks[|ticks| - 1];
    RotatedDrops(c, After(c, ticks[..|ticks| - 1]), last.now, last.draws);
  }

  /** After a rotation that succeeds the source holds the previous, the current and the next epoch, and
      nothing else: keys that have left the window are gone. */
  lemma HeldAfterSuccess(c: Config, ticks: seq<Tick>)
    requires Steady(c, ticks) && ticks != [] && Publication(c, ticks).Ok?
    ensures After(c, ticks).keys.Keys == Around(EpochAt(ticks[0].now, ticks[|ticks| - 1].now, c.lifetime))
  {
    hide EpochAt, After, Log, Rebased, Wrap, Publication, Consistent, InWindow;
    var front, last := ticks[..|ticks| - 1], ticks[|ticks| - 1];
    SteadyFront(c, ticks, |front|);
    RunsAreConsistent(c, front);
    EpochAdvances(c, ticks);
    WindowIsHeld(c, ticks);
    forall w | w in After(c, ticks).keys
      ensures w in Around(EpochAt(ticks[0].now, last.now, c.lifetime))
    {
      KeptIsInWindow(c, ticks, w);
      InWindowMeans(Rebased(c, After(c, front), last.now).epoch, w);
    }
  }

  lemma InWindowMeans(e: int, w: int)
    requires InWindow(e, w) && Window(e) == [e - 1, e, e + 1]
    ensures w in Around(e)
  {
    hide Wrap;
    assert Window(e)[0] == Wrap(e - 1) && Window(e)[2] == Wrap(e + 1);
  }

  lemma OkMeansFilled(c: Config, r: Rotation, now: Time, draws: Draws)
    requires c.lifetime > 0 && Rotated(c, r, now, draws).1.Ok?
    ensures var r1 := Rebased(c, r, now); Filled(c, r1.base, r1.keys, Window(r1.epoch), draws).1
  {
    hide Filled, Rebased, Published, InWindow, Window;
  }

  lemma InsideWindow(e: int, w: int)
    requires w in Around(e) && Window(e) == [e - 1, e, e + 1]
    ensures InWindow(e, w)
  {
    hide Wrap;
    assert Window(e)[0] == Wrap(e - 1) && Window(e)[2] == Wrap(e + 1);
  }

  lemma FilledAtSuccess(c: Config, ticks: seq<Tick>)
    requires c.lifetime > 0 && ticks != [] && Publication(c, ticks).Ok?
    ensures var last := ticks[|ticks| - 1];
      var r := Rebased(c, After(c, ticks[..|ticks| - 1]), last.now);
      && (forall w | w in Filled(c, r.base, r.keys, Window(r.epoch), last.draws).0 && InWindow(r.epoch, w)
            :: w in After(c, ticks).keys)
      && forall i | 0 <= i < |Window(r.epoch)|
           :: Window(r.epoch)[i] in Filled(c, r.base, r.keys, Window(r.epoch), last.draws).0
  {
    hide Filled, Rebased, Rotated, InWindow, Window;
    var last := ticks[|ticks| - 1];
    var r := Rebased(c, After(c, ticks[..|ticks| - 1]), last.now);
    StateAfter(c, ticks);
    OkMeansFilled(c, After(c, ticks[..|ticks| - 1]), last.now, last.draws);
    FillKeeps(c, r.base, r.keys, Window(r.epoch), last.draws);
  }

  lemma WindowIsHeld(c: Config, ticks: seq<Tick>)
    requires Steady(c, ticks) && ticks != [] && Publication(c, ticks).Ok?
    ensures Around(EpochAt(ticks[0].now, ticks[|ticks| - 1].now, c.lifetime)) <= After(c, ticks).keys.Keys
  {
    hide Filled, EpochAt, After, Log, Rebased, Rotated, Window, InWindow, Steady, Consistent, Publication;
    var front, last := ticks[..|ticks| - 1], ticks[|ticks| - 1];
    SteadyFront(c, ticks, |front|);
    RunsAreConsistent(c, front);
    EpochAdvances(c, ticks);
    FilledAtSuccess(c, ticks);
    var r := Rebased(c, After(c, front), last.now);
    forall w | w in Around(r.epoch) ensures w in After(c, ticks).keys {
      assert Window(r.epoch)[w - r.epoch + 1] == w;
      InsideWindow(r.epoch, w);
    }
  }

  /** All rotations after the `m`th have failed. */
  predicate FailingSince(c: Config, ticks: seq<Tick>, m: nat)
    requires c.lifetime > 0
  {
    0 < m <= |ticks| && forall n | m < n <= |ticks| :: Publication(c, ticks[..n]).Err?
  }

  lemma FailureHolds(c: Config, ticks: seq<Tick>, w: int)
    requires Steady(c, ticks) && ticks != [] && w in After(c, ticks).keys
    ensures w in After(c, ticks[..|ticks| - 1]).keys
         || w in Around(EpochAt(ticks[0].now, ticks[|ticks| - 1].now, c.lifetime))
  {
    hide Generated, Filled, EpochAt, After, Log, Rebased, Wrap, FillLog, Consistent, Window;
    var front, last := ticks[..|ticks| - 1], ticks[|ticks| - 1];
    SteadyFront(c, ticks, |front|);
    RunsAreConsistent(c, front);
    EpochAdvances(c, ticks);
    StateAfter(c, ticks);
    var r := Rebased(c, After(c, front), last.now);
    var added := FillLog(c, r.base, r.keys, Window(r.epoch), last.draws);
    FillAddsItsLog(c, r.base, r.keys, Window(r.epoch), last.draws);
    FillNamesWhatItAdds(c, r.base, r.keys, Window(r.epoch), last.draws);
    if w !in r.keys {
      var i :| 0 <= i < |added| && added[i].epoch == w;
      assert added[i] in added;
    }
  }

  /** After any run, every held epoch lies in the window of the last rotation that succeeded or of one that has
      failed since. */
  lemma {:induction false} HeldSinceLastSuccess(c: Config, ticks: seq<Tick>, w: int) returns (m: nat)
    requires Steady(c, ticks) && w in After(c, ticks).keys
    ensures FailingSince(c, ticks, m) && w in Around(EpochOf(c, ticks, m))
  {
    hide Generated, EpochAt, After, Log, Rotated, Consistent, Steady;
    SomethingHeld(c, ticks, w);
    var n := |ticks|;
    assert ticks[..n] == ticks;
    if Publication(c, ticks).Ok? {
      HeldAfterSuccess(c, ticks);
      m := n;
    } else {
      FailureHolds(c, ticks, w);
      if w in After(c, ticks[..n - 1]).keys {
        SteadyFront(c, ticks, n - 1);
        m := HeldSinceLastSuccess(c, ticks[..n - 1], w);
        forall i | m < i <= n ensures Publication(c, ticks[..i]).Err? {
          if i < n { assert ticks[..n - 1][..i] == ticks[..i]; }
        }
        assert EpochOf(c, ticks, m) == EpochOf(c, ticks[..n - 1], m);
      } else {
        m := n;
      }
    }
  }

  lemma SomethingHeld(c: Config, ticks: seq<Tick>, w: int)
    requires Steady(c, ticks) && w in After(c, ticks).keys
    ensures c.lifetime > 0 && ticks != []
  {
  }

  /** Failed rotations add up: each can generate part of its window, and none deletes. */
  lemma FailureDropsNothing(c: Config, ticks: seq<Tick>)
    requires c.lifetime > 0 && ticks != [] && Publication(c, ticks).Err?
    ensures After(c, ticks[..|ticks| - 1]).keys.Keys <= After(c, ticks).keys.Keys
    ensures var e := Rebased(c, After(c, ticks[..|ticks| - 1]), ticks[|ticks| - 1].now).epoch;
      Wrap(e - 1) in ticks[|ticks| - 1].draws ==> Wrap(e - 1) in After(c, ticks).keys
  {
    hide Rotated, Rebased, Wrap;
    var last := ticks[|ticks| - 1];
    RotatedFails(c, After(c, ticks[..|ticks| - 1]), last.now, last.draws);
  }

  lemma RotatedFails(c: Config, r: Rotation, now: Time, draws: Draws)
    requires c.lifetime > 0 && Rotated(c, r, now, draws).1.Err?
    ensures r.keys.Keys <= Rotated(c, r, now, draws).0.keys.Keys
    ensures var first := Wrap(Rebased(c, r, now).epoch - 1);
      first in draws ==> first in Rotated(c, r, now, draws).0.keys
  {
    hide Filled, Published, Wrap, EpochAt;
    var r1 := Rebased(c, r, now);
    FillKeeps(c, r1.base, r1.keys, Window(r1.epoch), draws);
    assert r1.keys == r.keys && Window(r1.epoch)[0] == Wrap(r1.epoch - 1);
    forall w | w in r.keys ensures w in Rotated(c, r, now, draws).0.keys { }
    if Wrap(r1.epoch - 1) in draws { FirstIsFilled(c, r1.base, r1.keys, Window(r1.epoch), draws); }
  }

  lemma {:induction false} FirstIsFilled(
    c: Config, base: Time, keys: map<int, KeyCandidate>, epochs: seq<int>, draws: Draws)
    requires epochs != [] && epochs[0] in draws
    ensures epochs[0] in Filled(c, base, keys, epochs, draws).0
  {
    hide Generated;
    if |epochs| > 1 {
      FirstIsFilled(c, base, keys, epochs[..|epochs| - 1], draws);
    } else {
      assert Filled(c, base, keys, epochs[..0], draws) == (keys, true);
    }
  }

  /** Two failures in a row leave epochs of three windows: the one of the last success and those of both
      failures. A first load at 100, and rotations at 150 and 190 that fail after one key each. */
  lemma FailuresAddUp(m: Material)
    ensures var c := Config("s", 10);
      var ticks := [Tick(100, map[-1 := m, 0 := m, 1 := m]), Tick(150, map[4 := m]), Tick(190, map[8 := m])];
      && Steady(c, ticks)
      && {0, 4, 8} <= After(c, ticks).keys.Keys
      && 4 !in Around(EpochOf(c, ticks, 1)) && 4 !in Around(EpochOf(c, ticks, 3))
  {
    hide Generated, Rotated, Log, After, Publication, Consistent, IsKeyOf, Rebased;
    var c := Config("s", 10);
    var ticks := [Tick(100, map[-1 := m, 0 := m, 1 := m]), Tick(150, map[4 := m]), Tick(190, map[8 := m])];
    var one, two := ticks[..1], ticks[..2];
    assert two[..1] == one && ticks[..2] == two && one[..0] == [] && ticks[..3] == ticks;
    assert Steady(c, ticks);
    SteadyFront(c, ticks, 1);
    SteadyFront(c, ticks, 2);
    FirstSucceeds(c, one);
    FailsOnce(c, two, 5);
    forall w | w in After(c, two).keys ensures w in Around(0) || w in Around(5) { FailureHolds(c, two, w); }
    FailsOnce(c, ticks, 9);
  }

  lemma FirstSucceeds(c: Config, ticks: seq<Tick>)
    requires Steady(c, ticks) && |ticks| == 1 && ticks[0].draws.Keys == Around(0)
    ensures Publication(c, ticks).Ok? && After(c, ticks).keys.Keys == Around(0)
  {
    hide Generated, Rotated, Log, EpochAt, IsKeyOf;
    assert ticks[..0] == [];
    EpochCountsLifetimes(ticks[0].now, ticks[0].now, c.lifetime);
    SteadyFront(c, ticks, 0);
    WhatIsPublished(c, ticks);
    HeldAfterSuccess(c, ticks);
    EpochMonotone(ticks[0].now, ticks[0].now, ticks[0].now, c.lifetime);
    FirstEpochIsZero(ticks[0].now, c.lifetime);
  }

  lemma FirstEpochIsZero(base: Time, lifetime: int)
    requires lifetime > 0
    ensures EpochAt(base, base, lifetime) == 0
  {
  }

  /** A rotation that can generate the first epoch of its window and not the second fails with the first. */
  lemma FailsOnce(c: Config, ticks: seq<Tick>, e: int)
    requires Steady(c, ticks) && |ticks| > 1 && e == EpochAt(ticks[0].now, ticks[|ticks| - 1].now, c.lifetime)
    requires e !in After(c, ticks[..|ticks| - 1]).keys && ticks[|ticks| - 1].draws.Keys == {e - 1}
    ensures Publication(c, ticks).Err?
    ensures After(c, ticks[..|ticks| - 1]).keys.Keys + {e - 1} <= After(c, ticks).keys.Keys
  {
    hide Generated, Rotated, Log, EpochAt, IsKeyOf, After, Publication, Rebased, Wrap, Consistent;
    SteadyFront(c, ticks, |ticks| - 1);
    RunsAreConsistent(c, ticks[..|ticks| - 1]);
    WhatIsPublished(c, ticks);
    EpochAdvances(c, ticks);
    FailureDropsNothing(c, ticks);
    assert Window(e)[0] == Wrap(e - 1);
  }

  // ----- key IDs

  lemma KeyIdInjective(id: string, v: int, w: int)
    requires KeyId(id, v) == KeyId(id, w)
    ensures v == w
  {
    assert Text.Decimal(v) == KeyId(id, v)[|id| + 1..] == KeyId(id, w)[|id| + 1..] == Text.Decimal(w);
    Text.DecimalInjective(v, w);
  }

  lemma {:induction false} LogGrows(c: Config, ticks: seq<Tick>, k: nat)
    requires c.lifetime > 0 && k <= |ticks|
    ensures Log(c, ticks[..k]) <= Log(c, ticks)
  {
    if k < |ticks| {
      assert ticks[..|ticks| - 1][..k] == ticks[..k];
      LogGrows(c, ticks[..|ticks| - 1], k);
    } else {
      assert ticks[..k] == ticks;
    }
  }

  ghost predicate PublishedAt(c: Config, ticks: seq<Tick>, k: nat, a: KeyCandidate)
    requires c.lifetime > 0
  {
    0 < k <= |ticks| && Publication(c, ticks[..k]).Ok? && a in Publication(c, ticks[..k]).value
  }

  /** A published key carries the ID of an epoch and the material logged for that epoch. */
  lemma PublishedIsLogged(c: Config, ticks: seq<Tick>, k: nat, a: KeyCandidate) returns (w: int)
    requires Steady(c, ticks) && PublishedAt(c, ticks, k, a)
    ensures a == Generated(c, ticks[0].now, w, a.material).(status := a.status)
    ensures Generation(w, a.material) in Log(c, ticks)
  {
    hide Generated, EpochAt, Log, After, Rotated;
    var p, e := Publication(c, ticks[..k]), EpochAt(ticks[0].now, ticks[k - 1].now, c.lifetime);
    SteadyFront(c, ticks, k);
    WhatIsPublished(c, ticks[..k]);
    LogGrows(c, ticks, k);
    w := if a == p.value[0] then e - 1 else if a == p.value[1] then e else e + 1;
  }

  /** A key ID never names two keys: whenever in a run two published keys have the same ID, they are the
      same key up to status, so they have the same material and the same validity. */
  lemma SameIdSameKey(c: Config, ticks: seq<Tick>, j: nat, k: nat, a: KeyCandidate, b: KeyCandidate)
    requires Steady(c, ticks) && PublishedAt(c, ticks, j, a) && PublishedAt(c, ticks, k, b)
    requires a.id == b.id
    ensures b == a.(status := b.status)
  {
    hide EpochAt, Log, After, Rotated, PublishedAt;
    var v := PublishedIsLogged(c, ticks, j, a);
    var w := PublishedIsLogged(c, ticks, k, b);
    KeyIdInjective(c.id, v, w);
    EachEpochOnce(c, ticks);
    var log := Log(c, ticks);
    var m :| 0 <= m < |log| && log[m] == Generation(v, a.material);
    var n :| 0 <= n < |log| && log[n] == Generation(w, b.material);
  }
}
