/** The rotating source composed with the store's key selection: what one published set signs, the
    next one still verifies. */
module Rollover {
  import opened Wrappers
  import opened Keys
  import opened KeySets
  import opened Selection
  import opened LoadOrder
  import opened Epochs
  import opened RandomSource
  import opened Rotations

  type BackendFor = Material -> Option<Backend>

  ghost predicate BuiltFrom(keys: seq<Key>, candidates: seq<KeyCandidate>, backendFor: BackendFor) {
    && |keys| == |candidates|
    && forall i | 0 <= i < |keys| :: IsKeyFor(keys[i], candidates[i], backendFor)
  }

  /** The key has every field of the candidate, and the back end for its material. */
  predicate IsKeyFor(k: Key, c: KeyCandidate, backendFor: BackendFor) {
    && k.id == c.id && k.owner == c.owner && k.source == c.source && k.restrictions == c.restrictions
    && k.status == c.status && k.priority == c.priority && k.notBefore == c.notBefore && k.notAfter == c.notAfter
    && k.material == c.material && k.backend == backendFor(c.material) && k.backend.Some?
  }

  /** `buildCandidates`: every candidate with its backend, or the position of the first without one. */
  method BuildCandidates(candidates: seq<KeyCandidate>, backendFor: BackendFor) returns (r: Result<seq<Key>, nat>)
    ensures r.Ok? ==> BuiltFrom(r.value, candidates, backendFor)
    ensures r.Err? ==>
      && 1 <= r.error <= |candidates| && backendFor(candidates[r.error - 1].material).None?
      && forall i | 0 <= i < r.error - 1 :: backendFor(candidates[i].material).Some?
  {
    var keys := [];
    for i := 0 to |candidates|
      invariant BuiltFrom(keys, candidates[..i], backendFor)
    {
      var backend := backendFor(candidates[i].material);
      if backend.None? {
        assert forall j | 0 <= j < i :: candidates[..i][j] == candidates[j];
        return Err(i + 1);
      }
      keys := keys + [NewKey(candidates[i], backend.value)];
    }
    assert candidates[..|candidates|] == candidates;
    return Ok(keys);
  }

  /** A publication of the source, built for the store. */
  datatype Feed = Feed(ticks: seq<Tick>, keys: seq<Key>)

  ghost predicate IsFeed(c: Config, run: seq<Tick>, backendFor: BackendFor, f: Feed) {
    && Steady(c, run) && f.ticks != [] && f.ticks <= run
    && Publication(c, f.ticks).Ok?
    && BuiltFrom(f.keys, Publication(c, f.ticks).value, backendFor)
  }

  /** The epoch that was current when the publication was made. */
  function FeedEpoch(c: Config, run: seq<Tick>, f: Feed): int
    requires c.lifetime > 0 && f.ticks != [] && f.ticks <= run
  {
    EpochAt(run[0].now, f.ticks[|f.ticks| - 1].now, c.lifetime)
  }

  function FirstInstant(c: Config, run: seq<Tick>, epoch: int): Time
    requires run != []
  {
    run[0].now + epoch * c.lifetime
  }

  /** The last instant at which a key of the epoch is valid: its start plus two lifetimes. */
  function LastInstant(c: Config, run: seq<Tick>, epoch: int): Time
    requires run != []
  {
    run[0].now + (epoch + 2) * c.lifetime
  }

  /** `k` is the store's key for the epoch. */
  ghost predicate EpochKey(c: Config, run: seq<Tick>, backendFor: BackendFor, epoch: int, status: string, k: Key)
    requires c.lifetime > 0 && run != []
  {
    && backendFor(k.material).Some?
    && k == NewKey(Generated(c, run[0].now, epoch, k.material).(status := status), backendFor(k.material).value)
    && Generation(epoch, k.material) in Log(c, run)
  }

  lemma FeedBasics(c: Config, run: seq<Tick>, backendFor: BackendFor, f: Feed)
    requires IsFeed(c, run, backendFor, f)
    ensures Steady(c, run) && c.lifetime > 0 && run != [] && f.ticks != [] && f.ticks <= run
  {
  }

  /** A feed is three keys: the previous and next epoch passive, the current one active. */
  lemma FeedKeys(c: Config, run: seq<Tick>, backendFor: BackendFor, f: Feed)
    requires IsFeed(c, run, backendFor, f)
    ensures var e := FeedEpoch(c, run, f);
      && e >= 0 && |f.keys| == 3
      && EpochKey(c, run, backendFor, e - 1, STATUS_PASSIVE, f.keys[0])
      && EpochKey(c, run, backendFor, e, STATUS_ACTIVE, f.keys[1])
      && EpochKey(c, run, backendFor, e + 1, STATUS_PASSIVE, f.keys[2])
  {
    hide Generated, EpochAt, Log, After, Rotated;
    var n := |f.ticks|;
    assert f.ticks == run[..n];
    SteadyFront(c, run, n);
    WhatIsPublished(c, f.ticks);
    LogGrows(c, run, n);
    EpochCountsLifetimes(run[0].now, run[n - 1].now, c.lifetime);
  }

  /** The validity of an epoch's key, for the epochs around the ones a rotation has seen. The key of the
      epoch before the first has no lower bound if that epoch starts at Go's zero instant. */
  lemma EpochKeyValidity(
    c: Config, run: seq<Tick>, backendFor: BackendFor, f: Feed, w: int, status: string, k: Key, t: Time)
    requires IsFeed(c, run, backendFor, f) && EpochKey(c, run, backendFor, w, status, k)
    requires FeedEpoch(c, run, f) - 1 <= w <= FeedEpoch(c, run, f) + 1
    ensures ValidAt(k, t) <==>
      (FirstInstant(c, run, w) <= t || IsZero(FirstInstant(c, run, w))) && t <= LastInstant(c, run, w)
    ensures w >= 0 ==> !IsZero(FirstInstant(c, run, w))
  {
    hide EpochAt, Log, After, Rotated, Wrap, Publication;
    var n := |f.ticks|;
    assert f.ticks[n - 1] == run[n - 1];
    NothingOverflows(run[0].now, run[n - 1].now, c.lifetime);
    EpochCountsLifetimes(run[0].now, run[n - 1].now, c.lifetime);
    if w >= 0 { ProductBetween(0, w, c.lifetime); }
    ProductBetween(0, w + 2, c.lifetime);
  }

  // ----- signing

  /** The operation that processes what another one produces. */
  function Partner(operation: string): string { if operation == OP_ENCRYPT then OP_DECRYPT else OP_VERIFY }

  /** Only the active key of a feed can produce output. */
  lemma OnlyActiveProduces(
    c: Config, run: seq<Tick>, backendFor: BackendFor, f: Feed, repository: multiset<Key>, q: Request, k: Key,
    a: string)
    requires IsFeed(c, run, backendFor, f) && Holds(repository, c.id, f.keys)
    requires ProducesOutput(q.operation) && k.source == c.id
    requires k in repository && Eligible(k, q, a)
    ensures k == f.keys[1]
  {
    hide Generated, Log, IsFeed;
    FeedKeys(c, run, backendFor, f);
    assert k in multiset(f.keys);
    assert k in f.keys;
  }

  /** A request for one algorithm and the keys of one source. */
  function FromSource(source: string, operation: string, algorithm: string, now: Time): Request {
    Request(operation, Select([WithSource(source)]), [algorithm], now)
  }

  /** With one algorithm, an outcome is decided by the keys that are eligible for it. */
  lemma OneAlgorithm(repository: multiset<Key>, q: Request, a: string, k: Key)
    requires q.algorithms == [a]
    requires forall other | other in repository && Eligible(other, q, a) :: other == k
    ensures repository[k] == 1 && Eligible(k, q, a) ==> IsChoice(repository, q, Selected(k, a))
    ensures !(k in repository && Eligible(k, q, a)) ==> IsChoice(repository, q, NoEligibleKey)
  {
    if repository[k] == 1 && Eligible(k, q, a) {
      assert FirstUsable(repository, q, 0);
      assert Outranks(repository, q, a, k);
    }
  }

  /** A store that holds the set of epoch e alone, having missed every later publication, signs with that
      epoch's active key at every instant from its start through start plus two lifetimes, and at no
      other instant: never with a passive or future key. */
  lemma MissedPublicationStillSigns(
    c: Config, run: seq<Tick>, backendFor: BackendFor, f: Feed, repository: multiset<Key>,
    operation: string, a: string, t: Time)
    requires IsFeed(c, run, backendFor, f) && Holds(repository, c.id, f.keys)
    requires ProducesOutput(operation) && |f.keys| == 3 && f.keys[1].backend.Some?
    requires f.keys[1].backend.value.Supports(Capability(UseFor(operation), operation, a))
    ensures var e := FeedEpoch(c, run, f);
      IsChoice(repository, FromSource(c.id, operation, a, t),
        if FirstInstant(c, run, e) <= t <= LastInstant(c, run, e) then Selected(f.keys[1], a) else NoEligibleKey)
  {
    hide EpochAt, Log, IsFeed, IsChoice, ValidAt;
    FeedBasics(c, run, backendFor, f);
    var e, k, q := FeedEpoch(c, run, f), f.keys[1], FromSource(c.id, operation, a, t);
    FeedKeys(c, run, backendFor, f);
    EpochKeyValidity(c, run, backendFor, f, e, STATUS_ACTIVE, k, t);
    assert forall other: Key :: q.selector.Accepts(other) <==> other.source == c.id by {
      forall other: Key ensures q.selector.Accepts(other) <==> other.source == c.id {
        assert q.selector.options[0](other) == (other.source == c.id);
      }
    }
    KeyAppearsOnce(c, run, backendFor, f, 1);
    assert repository[k] == 1;
    forall other | other in repository && Eligible(other, q, a) ensures other == k {
      OnlyActiveProduces(c, run, backendFor, f, repository, q, other, a);
    }
    OneAlgorithm(repository, q, a, k);
  }

  /** The three keys of a feed have three different IDs. */
  lemma FeedIdsDiffer(c: Config, run: seq<Tick>, backendFor: BackendFor, f: Feed, i: nat, j: nat)
    requires IsFeed(c, run, backendFor, f) && |f.keys| == 3 && i < 3 && j < 3 && f.keys[i].id == f.keys[j].id
    ensures i == j
  {
    hide EpochAt, Log, IsFeed, StartOf, EndOf, KeyId;
    FeedBasics(c, run, backendFor, f);
    FeedKeys(c, run, backendFor, f);
    var e := FeedEpoch(c, run, f);
    assert forall m | 0 <= m < 3 :: f.keys[m].id == KeyId(c.id, e - 1 + m);
    KeyIdInjective(c.id, e - 1 + i, e - 1 + j);
  }

  lemma KeyAppearsOnce(c: Config, run: seq<Tick>, backendFor: BackendFor, f: Feed, i: nat)
    requires IsFeed(c, run, backendFor, f) && |f.keys| == 3 && i < 3
    ensures multiset(f.keys)[f.keys[i]] == 1
  {
    hide IsFeed;
    var k := f.keys;
    if k[0].id == k[1].id { FeedIdsDiffer(c, run, backendFor, f, 0, 1); }
    if k[0].id == k[2].id { FeedIdsDiffer(c, run, backendFor, f, 0, 2); }
    if k[1].id == k[2].id { FeedIdsDiffer(c, run, backendFor, f, 1, 2); }
    assert k == [k[0], k[1], k[2]];
  }

  // ----- verifying

  /** A request for one key of the source by its ID, as a verifier makes from a token header. */
  function ById(source: string, id: string, operation: string, algorithm: string, now: Time): Request {
    Request(operation, Select([WithSource(source), WithId(id)]), [algorithm], now)
  }

  /** A key of a feed requested by its ID is found exactly while it is valid, without a tie. */
  lemma FoundById(
    c: Config, run: seq<Tick>, backendFor: BackendFor, f: Feed, i: nat, repository: multiset<Key>,
    operation: string, a: string, t: Time)
    requires IsFeed(c, run, backendFor, f) && Holds(repository, c.id, f.keys)
    requires |f.keys| == 3 && i < 3 && !ProducesOutput(operation)
    requires Capable(f.keys[i], Capability(UseFor(operation), operation, a))
    ensures IsChoice(repository, ById(c.id, f.keys[i].id, operation, a, t),
              if ValidAt(f.keys[i], t) then Selected(f.keys[i], a) else NoEligibleKey)
  {
    hide EpochAt, Log, IsFeed, IsChoice, ValidAt, Capable, Generated;
    var k := f.keys[i];
    var q := ById(c.id, k.id, operation, a, t);
    FeedKeys(c, run, backendFor, f);
    assert forall other: Key :: q.selector.Accepts(other) <==> other.source == c.id && other.id == k.id by {
      forall other: Key ensures q.selector.Accepts(other) <==> other.source == c.id && other.id == k.id {
        assert q.selector.options[0](other) == (other.source == c.id);
        assert q.selector.options[1](other) == (other.id == k.id);
      }
    }
    FeedSource(c, run, backendFor, f, i);
    KeyAppearsOnce(c, run, backendFor, f, i);
    forall other | other in repository && Eligible(other, q, a) ensures other == k {
      assert other in multiset(f.keys);
      var j :| 0 <= j < 3 && f.keys[j] == other;
      FeedIdsDiffer(c, run, backendFor, f, i, j);
    }
    OneAlgorithm(repository, q, a, k);
  }

  lemma FeedSource(c: Config, run: seq<Tick>, backendFor: BackendFor, f: Feed, i: nat)
    requires IsFeed(c, run, backendFor, f) && |f.keys| == 3 && i < 3
    ensures f.keys[i].source == c.id && f.keys[i].status != STATUS_DISABLED && f.keys[i].restrictions == []
  {
    hide EpochAt, Log, IsFeed, StartOf, EndOf;
    FeedKeys(c, run, backendFor, f);
  }

  /** One epoch has one key: in any two sets of a run it differs at most in status. */
  lemma OneKeyPerEpoch(
    c: Config, run: seq<Tick>, backendFor: BackendFor, w: int, status: string, status': string, k: Key, k': Key)
    requires Steady(c, run) && run != []
    requires EpochKey(c, run, backendFor, w, status, k) && EpochKey(c, run, backendFor, w, status', k')
    ensures k' == k.(status := status')
  {
    hide Log, Generated;
    EachEpochOnce(c, run);
    var log := Log(c, run);
    var m :| 0 <= m < |log| && log[m] == Generation(w, k.material);
    var n :| 0 <= n < |log| && log[n] == Generation(w, k'.material);
    assert k.material == k'.material;
    GeneratedFields(c, run[0].now, w, k.material);
  }

  lemma GeneratedFields(c: Config, base: Time, w: int, m: Material)
    requires c.lifetime > 0
    ensures forall s, s' ::
      Generated(c, base, w, m).(status := s').(status := s) == Generated(c, base, w, m).(status := s)
  {
  }

  /** A set of another epoch has no key of that ID. */
  lemma NotInDistantSet(
    c: Config, run: seq<Tick>, backendFor: BackendFor, f: Feed, e: int, repository: multiset<Key>,
    operation: string, a: string, t: Time, k: Key)
    requires IsFeed(c, run, backendFor, f) && Holds(repository, c.id, f.keys) && k.id == KeyId(c.id, e)
    requires !(-1 <= FeedEpoch(c, run, f) - e <= 1)
    ensures IsChoice(repository, ById(c.id, k.id, operation, a, t), NoEligibleKey)
  {
    hide EpochAt, Log, IsFeed, ValidAt, Capable, Holds, KeyId;
    FeedBasics(c, run, backendFor, f);
    FeedKeys(c, run, backendFor, f);
    var w, q := FeedEpoch(c, run, f), ById(c.id, k.id, operation, a, t);
    forall other | other in repository && Eligible(other, q, a) ensures false {
      assert q.selector.options[0](other) && q.selector.options[1](other);
      InFeed(repository, c.id, f.keys, other);
      var j :| 0 <= j < |f.keys| && f.keys[j] == other;
      assert f.keys[j].id == KeyId(c.id, w - 1 + j);
      KeyIdInjective(c.id, w - 1 + j, e);
    }
  }

  lemma InFeed(repository: multiset<Key>, source: string, keys: seq<Key>, k: Key)
    requires Holds(repository, source, keys) && k in repository && k.source == source
    ensures k in keys
  {
    assert k in multiset(keys);
  }

  /** Rollover, end to end. The key that `selectKey` picks for signing (or encrypting) from the set of epoch e
      is the key it picks for verifying (or decrypting) by source and ID from the set of epoch f if and only if
      f is e or a neighbour of e: the same epoch, a verifier one publication ahead, or one behind, for which
      the next key was published in advance. Then it is picked at every instant from its start through its
      start plus two lifetimes and at no other instant, and is never tied. */
  lemma SignedIsVerified(
    c: Config, run: seq<Tick>, backendFor: BackendFor, signing: Feed, verifying: Feed,
    signer: multiset<Key>, verifier: multiset<Key>, q: Request, k: Key, a: string, t: Time)
    returns (k': Key)
    requires IsFeed(c, run, backendFor, signing) && Holds(signer, c.id, signing.keys)
    requires IsFeed(c, run, backendFor, verifying) && Holds(verifier, c.id, verifying.keys)
    requires ProducesOutput(q.operation) && k.source == c.id && IsChoice(signer, q, Selected(k, a))
    requires Capable(k, Capability(UseFor(q.operation), Partner(q.operation), a))
    ensures k' == k.(status := k'.status)
    ensures var e, f := FeedEpoch(c, run, signing), FeedEpoch(c, run, verifying);
      IsChoice(verifier, ById(c.id, k.id, Partner(q.operation), a, t),
        if -1 <= f - e <= 1 && FirstInstant(c, run, e) <= t <= LastInstant(c, run, e)
        then Selected(k', a) else NoEligibleKey)
  {
    hide EpochAt, Log, IsFeed, ValidAt, IsChoice, Eligible, Generated, Steady, Holds;
    FeedBasics(c, run, backendFor, signing);
    FeedBasics(c, run, backendFor, verifying);
    var e, f := FeedEpoch(c, run, signing), FeedEpoch(c, run, verifying);
    ChosenIsEligible(signer, q, k, a);
    OnlyActiveProduces(c, run, backendFor, signing, signer, q, k, a);
    FeedKeys(c, run, backendFor, signing);
    FeedKeys(c, run, backendFor, verifying);
    if -1 <= f - e <= 1 {
      var i := 1 + e - f;
      k' := verifying.keys[i];
      OneKeyPerEpoch(c, run, backendFor, e, STATUS_ACTIVE, if i == 1 then STATUS_ACTIVE else STATUS_PASSIVE, k, k');
      EpochKeyValidity(c, run, backendFor, verifying, e, k'.status, k', t);
      FoundById(c, run, backendFor, verifying, i, verifier, Partner(q.operation), a, t);
    } else {
      k' := k;
      EpochKeyId(c, run, backendFor, e, STATUS_ACTIVE, k);
      NotInDistantSet(c, run, backendFor, verifying, e, verifier, Partner(q.operation), a, t, k);
    }
  }

  lemma EpochKeyId(c: Config, run: seq<Tick>, backendFor: BackendFor, e: int, status: string, k: Key)
    requires c.lifetime > 0 && run != [] && EpochKey(c, run, backendFor, e, status, k)
    ensures k.id == KeyId(c.id, e)
  {
    hide Log;
  }

  lemma ChosenIsEligible(repository: multiset<Key>, q: Request, k: Key, a: string)
    requires IsChoice(repository, q, Selected(k, a))
    ensures k in repository && Eligible(k, q, a)
  {
  }

  /** Every set published between the start of epoch e and the end of its key's validity is a set of
      epoch e or e + 1, so it verifies what epoch e signed. */
  lemma PublishedInTime(c: Config, run: seq<Tick>, backendFor: BackendFor, f: Feed, e: nat)
    requires IsFeed(c, run, backendFor, f)
    ensures FirstInstant(c, run, e) <= f.ticks[|f.ticks| - 1].now < LastInstant(c, run, e)
       <==> 0 <= FeedEpoch(c, run, f) - e <= 1
  {
    hide Log, After, Rotated, Publication;
    var n := |f.ticks|;
    assert f.ticks[n - 1] == run[n - 1];
    var now, w := run[n - 1].now, FeedEpoch(c, run, f);
    EpochCountsLifetimes(run[0].now, now, c.lifetime);
    if w < e { ProductBetween(w + 1, e, c.lifetime); } else { ProductBetween(e, w, c.lifetime); }
    if w < e + 2 { ProductBetween(w + 1, e + 2, c.lifetime); } else { ProductBetween(e + 2, w, c.lifetime); }
  }
}
