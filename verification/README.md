# A verified model of vcrypt's key store

vcrypt is a Go library that keeps cryptographic keys. A *key store* loads keys from *sources* (files, remote JWK
sets, an in-memory source that generates and rotates keys), keeps them in a *key set*, and selects one of them for
each operation by priority, status, validity and capability. Back ends and codecs turn keys into signatures,
ciphertexts and JSON Web Keys.

This project models the parts of the library whose correctness is hard to see from any one function, and proves
it for every input, every run and every interleaving.

`dafny verify dfyconfig.toml` checks everything.

## What is proved

**The life of a store** (`Lifecycle*.dfy`, `CloseTermination.dfy`, `FairRuns.dfy`). `New`, `Bind`, `Close`,
`RefreshAll` and refresh callbacks are threads of a step system over the store's maps, its lock, its wait group,
`closeOnce`, the sources' own mutexes and the sources' callbacks, with any number of calls in any interleaving. When a
`Close` returns, every registered source is closed and detached, for ever. Reservations are exact. A closed store
changes only through a `RefreshAll` that was already past its check. No reachable state is stuck, and no schedule runs
the calls already made for ever. When new calls and refreshes go on for ever, every call still returns, `Close` among
them, if no thread is starved at a lock. Each result of each call means what it says, both ways: a bind is refused,
rejected, failed, turned away or bound exactly when the code's own guards say so, and a `Bind` of a free ID or a `New`
whose loads succeed can be run to success. A `Bind` that succeeds has stored its keys, a `RefreshAll` that succeeds
has stored those of every source it was to poll, with the exact condition for their being as new as its check, and
when `New` returns the store holds what its sources delivered.

**Key rotation** (`Epochs.dfy`, `RandomSource.dfy`, `Rotations.dfy`, `Rollover.dfy`, `Feeding.dfy`). Over any run of
rotations on a clock that does not go back, including rotations in which generation fails part-way, no epoch is
generated twice and a key ID never names two keys; after a success exactly three epochs are held. Composed with the
store's selection: what was signed with the set of one epoch is verified with the set of another if and only if the
two epochs are equal or neighbours, at every instant of the key's validity and at no other. A store fed by the source
always holds the last publication it accepted, whole, and accepts them in strictly increasing epochs.

**Selection and loading** (`Keys.dfy`, `KeySets.dfy`, `Selection.dfy`, `SelectionLaws.dfy`, `LoadOrder.dfy`). The
imperative selection meets a specification that is a function of the *multiset* of stored keys. The in-place
compaction of `Replace` is filter-then-append. The order in which concurrent loads are stored is irrelevant if and
only if no load carries a key that names another load's source.

**Polling sources** (`Polling.dfy`). The store's keys and the recorded snapshot agree in every run, through failed
loads, failed callbacks and detaching, and the watcher catches up from any moment of any run.

**Codecs** (`Base64.dfy`, `BigEndian.dfy`, `EcJose.dfy`, `RsaJose.dfy`, `JoseMetadata.dfy`, `Padding.dfy`,
`BlockModes.dfy`). Decoding undoes encoding, and where it does not do so always, the exact condition is proved.

`Text.dfy`, `Division.dfy` and `Wrappers.dfy` hold what the others share.

## Reading the model

A lifecycle step runs a thread from one blocking point to the next. `Load` is two steps with an arbitrary result
between them, so other threads run while it is under way. Some sources hold their mutex for the whole of `Load`
(the random source) and some only at its two ends (files, JWKS); the model has both kinds. The key set's lock guards
a body that calls nothing that blocks, so `Find` and `Replace` are atomic there.

Each class method is tied by its contract to a function (`Rotated`, `Recorded`, `Encrypted`, ...), and the results
about whole runs are about those functions. Outcomes of the random generator, clock readings, contexts, loaded
candidates and back ends are parameters.

Fairness, in `FairRuns.dfy`, says that no unfinished thread is passed over for ever, except while it joins others
that are not done. For a thread at a lock this is what Go's locks provide, and for a thread in a `Load` it is that
the `Load` returns. `FairRuns.ReadersCanHandOn` shows that it is needed, and `FairRuns.FairRunsExist` that it can be
met.

The comment on the random source's validity (keysource/randomsource/randomsource.go:221-222) says that a key is
active for one lifetime and passive for the next. The validity window does not separate the two: a store that
missed the next publication goes on producing output with the key through both lifetimes. The model follows the
code, and `Rollover.MissedPublicationStillSigns` states it.

## Model

| member | source | states |
|---|---|---|
| Keys.Selector.And | key/selector.go:21-30 | The combined selector accepts exactly the keys that the receiver and every non-nil added criterion accept; the receiver is unchanged. |
| Keys.Selector.Matches | key/selector.go:106-113 | True exactly when every criterion accepts the candidate. |
| KeySets.KeySet.constructor | keyset/keyset.go:20-24 | A new set is empty and owns its backing array. |
| KeySets.KeySet.Find | keyset/keyset.go:27-43 | Fails exactly on a finished context; otherwise the accepted keys, in repository order, in a slice of their own. |
| KeySets.KeySet.Replace | keyset/keyset.go:46-64 | The old keys that the selector rejects, in order, followed by the new ones; on a finished context nothing changes. |
| KeySets.Compact | keyset/keyset.go:54-60 | The compaction over the shared backing array keeps exactly the rejected keys in order and never overwrites an unread one. |
| KeySets.Append | keyset/keyset.go:61 | Appending keeps what was there and adds the new keys, in the spare capacity or in a larger array. |
| KeySets.FindThenReplace | keyset/keyset.go:35-62 | A slice found before a `Replace`, and the caller's slice, are unchanged by it. |
| KeySets.FilterCount | keyset/keyset.go:36-41 | Filtering keeps every copy of an accepted key and no copy of a rejected one. |
| Selection.SortByPriority | keystore/keystore_api.go:170-172 | The in-place sort yields the specification's stable sort of the candidates. |
| Selection.StableSortProperties | keystore/keystore_api.go:168-172 | That sort is a permutation by descending priority which keeps the order of equal priorities. |
| Selection.EligibleSelector | keystore/keystore_api.go:180-191 | The selector built with `And` accepts exactly the keys that are wanted, not disabled, valid now, capable, and not passive when output is produced. |
| Selection.Matching | keystore/keystore_api.go:192-197 | The inner loop yields the matching candidates in order. |
| Selection.SelectKey | keystore/keystore_api.go:153-208 | For the first preferred algorithm with an eligible key: the unique key of greatest priority, or a tie exactly when that priority is shared, without trying later algorithms; "no eligible key" exactly when no algorithm has one. |
| SelectionLaws.SelectedMeans | keystore/keystore_api.go:180-204 | A selected key is one the request asks for, within its set bounds, capable and permitted for an algorithm of the request, never disabled, and not passive when output is produced. |
| SelectionLaws.NoneMeans | keystore/keystore_api.go:198-207 | When no key is found, every key asked for lacks one of these for each algorithm. |
| SelectionLaws.SoleKeyOutcome | key/selector.go:69-103 | The whole outcome for one key, in terms of its fields: zero bounds are no bounds, no restrictions permit everything. |
| SelectionLaws.UnboundedIsSelected | key/selector.go:75-82 | A capable key whose bounds were never set is selected at every instant. |
| SelectionLaws.Vocabulary | key/capability.go:6-29 | The words for statuses, uses and operations, and the use of each operation. |
| Selection.ChoiceIsUnique | keystore/keystore_api.go:168-205 | The specification is a function of the multiset of stored keys: two outcomes it admits are equal, so repository order decides nothing. |
| LoadOrder.StoredIsReplace | keystore/keystore.go:201 | Storing a load is the key set's `Replace` for the selector of the source's ID. |
| LoadOrder.FinalContents | keystore/keystore.go:184-205 | After concurrent stores in any order: the loaded keys, and the old keys of sources that were not loaded, each with its number of copies. |
| LoadOrder.OrderNeverMatters | keystore/keystore.go:184-213 | Every order of the concurrent stores leaves the same multiset of keys and the same outcome of every selection. |
| LoadOrder.OrderIrrelevantExactly | keystore/keystore.go:184-213 | With distinct sources, the order is irrelevant if and only if no load carries a key naming another load's source. |
| LoadOrder.ForeignKeyExample | keystore/keystore.go:201 | The smallest example: a source that delivers a key naming another source, whose order of storing decides whether the key survives. |
| LifecycleMoves.StepMoves | keystore/keystore.go:48-213 | What one step of any thread may change of the lock, the sources' mutexes, the maps, the wait group, `closeOnce` and the callbacks, and where its thread can go. |
| LifecycleInvariant.InitEstablishesInv | keystore/keystore_constructor.go:10-31 | `New`, with its options applied or with one that failed, starts in a state that meets the invariant. |
| LifecycleInvariant.StepKeepsInv | keystore/keystore.go:48-213 | Every step of every thread keeps the invariant of the lifecycle. |
| LifecycleInvariant.RunKeepsInv | keystore/keystore.go:48-213 | The invariant holds in every state of every interleaving. |
| LifecycleSafety.CloseStopsEverySource | keystore/keystore.go:48-79 | Once a `Close` call has returned, and ever after: every registered source is closed, no source holds a callback, nothing is reserved or in flight, and every bind it cut short has had its source closed; also for a bind that had committed but not attached when `Close` began. |
| LifecycleSafety.ReservationsAreExact | keystore/keystore.go:95-143 | The two maps are disjoint, each reserved ID belongs to exactly one bind in flight, and the wait group counts the accepted binds not yet done. |
| LifecycleSafety.ServingSourcesAreActive | keystore/keystore.go:163-182 | While the store serves, every registered self-refreshing source holds its callback or its own bind is about to attach it. |
| LifecycleSafety.StepWrites | keystore/keystore.go:123-136 | Only a commit, a callback and a goroutine of `loadSources` write the repository, and what they write. |
| LifecycleSafety.ClosedStoreIsFrozen | keystore/keystore.go:96-135 | With `closed` set, no step adds a source, reserves an ID or increments the wait group, and only a goroutine of `loadSources` writes the repository. |
| LifecycleSafety.OnlyOldRefreshesWrite | keystore/keystore.go:146-161 | In any run, a write after `closed` was set belongs to a `RefreshAll` that was past its own check at that moment. |
| LifecycleLoads.RunKeepsRounds | keystore/keystore.go:184-213 | In every reachable state each goroutine of `loadSources` belongs to a call that is past its check and loads a source of that call's snapshot, and each source of a snapshot is still to be handed out or has its goroutine. |
| LifecycleLoads.RefreshAllLoadsAll | keystore/keystore.go:147-161 | `RefreshAll` polls exactly the sources that were registered and not self-refreshing when it saw the store open; on success each has been loaded and stored since, and on an error one of them has failed to load. |
| LifecycleLoads.NewLoadsAll | keystore/keystore_constructor.go:29-37 | `New` attaches callbacks only after every registered source has been loaded and stored. |
| LifecycleLoads.BoundIsStored | keystore/keystore.go:123-143 | A bind that succeeds has stored its keys in an open store, and its source is registered then and ever after. |
| LifecycleOutcomes.CallsStart | keystore/keystore.go:86-93 | A published store takes every call; a bind is rejected at once exactly for a nil source or an ID of white space, with nothing changed. |
| LifecycleOutcomes.WatchersCanCall | keystore/keystore.go:163-167 | A source that holds a callback can call it with any result whenever its mutex is free. |
| LifecycleOutcomes.LocksAdmitExactly | keystore/keystore.go:34 | The lock admits a writer exactly when it is free and a reader exactly when there is no writer. |
| LifecycleOutcomes.MethodsWaitExactly | keysource/jwkssource/jwkssource.go:52-112 | A call of a source's method waits for the source's mutex and nothing else; a callback is set or removed only in sources that refresh themselves. |
| LifecycleOutcomes.WaitsExactly | keystore/keystore.go:57-78 | What the other waits are for: binds in flight, the goroutines of a round, the `Close` that runs, and the end of a range. |
| LifecycleOutcomes.BindOutcomes | keystore/keystore.go:95-143 | What each result of a bind means, both ways: closed at the reservation, ID taken in an open store, own load failed, closed at the commit, or bound. |
| LifecycleOutcomes.OpenBindSucceeds | keystore/keystore.go:95-143 | Without a `Close`, a bind of a free ID whose load succeeds ends bound, with its source registered and its keys stored. |
| LifecycleOutcomes.BindCanSucceed | keystore/keystore.go:84-142 | At any moment of any run at which the store is open and the calls made are over, a `Bind` of a free ID whose load succeeds can be run to its end, and then it has returned success, the source is registered and its keys are held. |
| LifecycleOutcomes.ReloadOutcome | keystore/keystore.go:191-204 | A goroutine of `loadSources` fails exactly when its load does, and stores what its load returned. |
| LifecycleOutcomes.CallbackOutcome | keystore/keystore.go:166-180 | A refresh callback succeeds exactly when the store is open as it runs and what it was given can be built, and then it has stored just that. |
| LifecycleOutcomes.RefreshOutcome | keystore/keystore.go:147-160 | `RefreshAll` is refused exactly when the store was closed at its check. |
| LifecycleOutcomes.NewOutcome | keystore/keystore_constructor.go:29-38 | Once its options are applied, `New` fails exactly when one of its loads has failed. |
| LifecycleOutcomes.NewCanSucceed | keystore/keystore_constructor.go:10-39 | For any sources registered by the options, when every load succeeds `New` can be run to its end, and then it has returned the store. |
| LifecycleFresh.OnlyReloadsStore | keystore/keystore.go:147-205 | Keys of a registered source that does not refresh itself are stored by goroutines of `loadSources` alone. |
| LifecycleFresh.RefreshAllIsFresh | keystore/keystore.go:147-213 | After a successful `RefreshAll` the repository holds, for each polled source, the keys of one goroutine that stored them since the check, unless another source stored a key naming it; that goroutine's `Load` began at or after the check if and only if it was not already under way, or done but not stored, at the check. |
| LifecycleNew.NewHoldsWhatWasLoaded | keystore/keystore_constructor.go:29-38 | When `New` returns, and until the first call or refresh, the repository is what its goroutines stored, one load for each registered source; with no foreign keys it holds exactly the loaded keys, whatever the interleaving. |
| LifecycleProgress.HoldersGoOn | keystore/keystore.go:166-180 | The next step of every thread holding the store's lock, and the return of every thread inside a `Load` under its source's mutex, is enabled. |
| LifecycleProgress.NeverStuck | keystore/keystore.go:50-76 | In every reachable state with an unfinished call some step of a call already made is enabled, also under a lock that admits no reader while a writer waits. |
| LifecycleProgress.StepsDescend | keystore/keystore.go:48-213 | Every step of a call already made lowers the termination measure. |
| LifecycleProgress.NoEndlessSchedule | keystore/keystore.go:48-213 | No schedule, fair or not, runs the calls already made for ever. |
| LifecycleProgress.CallsCanReturn | keystore/keystore.go:48-213 | From every reachable state the calls already made can all be run to their returns, whatever their loads return. |
| CloseTermination.WorkShrinks | keystore/keystore.go:58-76 | With `closed` set, no step of any thread adds to the work `Close` depends on, and a step of that work reduces it. |
| CloseTermination.CloseWorkIsFinite | keystore/keystore.go:58-76 | In every endless run, with new calls starting for ever and under any schedule, the work of `Close` and of the binds it waits for takes finitely many steps from the moment `closed` is set. |
| CloseTermination.CloseIsNeverBlocked | keystore/keystore.go:49-76 | From its start until it is done, a step of the work of a `Close` is enabled, or a thread holding a lock can step. |
| FairRuns.EveryCallReturns | keystore/keystore.go:48-213 | In every endless fair run every call returns, whatever new calls and refreshes start for ever. |
| FairRuns.CloseReturns | keystore/keystore.go:48-79 | In every endless fair run every `Close` returns, with every registered source closed and detached and no bind in flight. |
| FairRuns.FairRunsExist | keystore/keystore.go:48-213 | From every reachable state of a published store there is an endless fair run. |
| FairRuns.ReadersCanHandOn | keystore/keystore.go:147-159 | Without fairness there is an endless run in which calls of `RefreshAll` hand the read lock on to each other, the lock is never free, and no thread that wants to write gets it. |
| Epochs.EpochCountsLifetimes | keysource/randomsource/randomsource.go:178 | The epoch counts the whole lifetimes since the base. |
| Epochs.EpochMonotone | keysource/randomsource/randomsource.go:178 | On a clock that does not go back, the epoch does not go back. |
| Epochs.NothingOverflows | keysource/randomsource/randomsource.go:220-223 | If elapsed time plus one lifetime, and two lifetimes, fit a 64-bit duration, no product in the epoch, deadline and validity computations wraps. |
| Epochs.ExactUnlessOverflow | keysource/randomsource/randomsource.go:197-224 | Where durations wrap around: starts and deadlines are exact if and only if the product fits, and a key ends before it starts if and only if two lifetimes do not fit. |
| Epochs.DeadlineMeansAdvance | keysource/randomsource/randomsource.go:141-164 | The watcher's deadline is reached exactly when the epoch has advanced: each firing of the timer strictly advances it. |
| Epochs.QuotientTruncates | keysource/randomsource/randomsource.go:178 | Division of durations truncates toward zero. |
| Epochs.SubSaturates | keysource/randomsource/randomsource.go:178 | The difference of instants saturates at the ends of the range of durations. |
| RandomSource.KeyTypesExactly | keysource/randomsource/randomsource.go:26-36 | The nine key types a source can generate. |
| Text.BlankExactly | keysource/randomsource/randomsource.go:61 | A text is blank exactly if it has nothing but white space. |
| Text.DigitsSpell | keysource/randomsource/randomsource.go:223 | The decimal digits of a number spell it, without a leading zero. |
| RandomSource.New | keysource/randomsource/randomsource.go:60-72 | A source is made exactly for a non-blank ID, a positive lifetime and a known key type; it has these, and is open, without a callback, and has loaded nothing. |
| RandomSource.Source.Load | keysource/randomsource/randomsource.go:79-100 | Every outcome: nil or finished context, closed, failed generation, a context that ends during generation (rotated, but no watcher), success. |
| RandomSource.Source.Close | keysource/randomsource/randomsource.go:102-115 | The source is closed and keeps its keys and callback. |
| RandomSource.Source.SetRefreshCallback | keysource/randomsource/randomsource.go:119-128 | The callback is replaced or removed, and the watcher starts if there is one, the source is open and has been loaded. |
| RandomSource.Source.RotateLocked | keysource/randomsource/randomsource.go:173-195 | New base, epoch and keys, and the result, are those of the rotation function. |
| RandomSource.Source.Fill | keysource/randomsource/randomsource.go:180-188 | The generation loop stops at the first failure and keeps what it generated before. |
| RandomSource.Unexpired | keysource/randomsource/randomsource.go:189-193 | The deletion loop, in any iteration order, drops exactly the epochs outside the window. |
| RandomSource.Source.TimerFired | keysource/randomsource/randomsource.go:163-169 | One firing rotates, and publishes exactly when the rotation succeeded and a callback is set. |
| Rotations.RunsAreConsistent | keysource/randomsource/randomsource.go:173-224 | The invariant of all runs: what was generated is held unchanged or is behind the window, and what is held was generated. |
| Rotations.EachEpochOnce | keysource/randomsource/randomsource.go:180-188 | In any run, also with partial failures, no epoch is generated twice. |
| Rotations.GoneForGood | keysource/randomsource/randomsource.go:189-193 | An epoch that has left the window never comes back. |
| Rotations.WhatIsPublished | keysource/randomsource/randomsource.go:173-195 | A rotation fails exactly when an epoch of the window is missing and cannot be generated; otherwise it publishes the keys of the previous, current and next epoch, only the current one active. |
| Rotations.PublishedFields | keysource/randomsource/randomsource.go:194-224 | Every field of a published candidate: ID, source, status, no restrictions, and validity from the epoch's start through its start plus two lifetimes. |
| Rotations.HeldFields | keysource/randomsource/randomsource.go:197-224 | Every field of a held key, also between publications: as published, but never active. |
| Rotations.HeldAfterSuccess | keysource/randomsource/randomsource.go:189-193 | After a rotation that succeeds the source holds the keys of the previous, the current and the next epoch, and no other. |
| Rotations.HeldSinceLastSuccess | keysource/randomsource/randomsource.go:180-193 | After any run, every held epoch lies in the window of the last rotation that succeeded or of one that has failed since. |
| Rotations.FailuresAddUp | keysource/randomsource/randomsource.go:180-188 | Two failures in a row can leave epochs of three windows: failed rotations generate and do not delete. |
| Rotations.KeyIdInjective | keysource/randomsource/randomsource.go:223 | Different epochs of a source have different key IDs. |
| Rotations.SameIdSameKey | keysource/randomsource/randomsource.go:197-224 | Whenever two published keys of a run share an ID, they are the same key up to status: same material, same validity. |
| Rollover.BuildCandidates | keystore/keystore.go:215-226 | All candidates with their back ends, or the position of the first that has none. |
| LoadOrder.StoredHolds | keystore/keystore.go:172-178 | Storing a load makes the repository hold exactly its keys for the source, whatever it held before. |
| LoadOrder.LastDeliveryHolds | keystore/keystore.go:172-205 | A store goes on holding what a source delivered last through any stores of other sources that carry no key of it. |
| Rollover.FeedKeys | keysource/randomsource/randomsource.go:194 | A publication is three store keys, each with the material generated for its epoch. |
| Rollover.EpochKeyValidity | key/selector.go:77-82 | A published key is valid exactly from its epoch's start through that start plus two lifetimes; only the key before the first epoch can lack its lower bound, when that epoch starts at Go's zero instant. |
| Rollover.OnlyActiveProduces | keystore/keystore_api.go:189-191 | Of a publication's keys only the active one can sign or encrypt. |
| Rollover.MissedPublicationStillSigns | keysource/randomsource/randomsource.go:166-169 | A store holding the set of one epoch alone signs with that epoch's active key at every instant of its validity and with nothing at any other instant. |
| Rollover.FoundById | keystore/keystore_api.go:180-204 | A published key requested by source and ID is selected exactly while it is valid, and is never tied. |
| Rollover.OneKeyPerEpoch | keysource/randomsource/randomsource.go:180-194 | In any two sets of a run the key of an epoch differs at most in status. |
| Rollover.SignedIsVerified | keysource/randomsource/randomsource.go:194-223 | The key selected for signing from the set of epoch e is the one selected for verifying, by source and ID, from the set of epoch f if and only if f is e or a neighbour of e; then at every instant from its start through its start plus two lifetimes and at no other, and never tied. |
| Rollover.PublishedInTime | keysource/randomsource/randomsource.go:178-194 | The sets published within a key's validity are exactly those of its epoch and the next. |
| Feeding.StepKeepsConsistent | keysource/randomsource/randomsource.go:79-171 | Every step of source, watcher and store keeps the invariant that a store that has bound the source holds the last publication it accepted. |
| Feeding.StoreHoldsLastAccepted | keysource/randomsource/randomsource.go:138-171 | In any run of loads, commits, timer firings, callbacks, detaching and closing, with other sources storing in between, a store that has bound the source holds the publication it accepted last, whole and nothing else of the source. |
| Feeding.AcceptedInEpochOrder | keysource/randomsource/randomsource.go:141-168 | The publications a store accepts come in strictly increasing epochs. |
| Feeding.FiringDelivers | keysource/randomsource/randomsource.go:163-169 | One undisturbed firing brings an open, attached store to the new publication, if it succeeds and can be built. |
| Feeding.BoundStoreSigns | keystore/keystore_api.go:153-205 | At every moment of every run such a store signs with the active key of the last publication it accepted, through that key's validity and not outside it. |
| Feeding.BindCompletes | keystore/keystore.go:113-142 | Three undisturbed steps bind a rotating source whose load succeeds: it is attached and watched, and the store holds its publication. |
| Feeding.BindingRun | keystore/keystore.go:113-142 | A source as it is made and an open store have a run that binds them. |
| Feeding.GoesOnExactly | keysource/randomsource/randomsource.go:163-169 | In any run each step of a bind goes on, and the store accepts a publication, exactly when it can. |
| Feeding.ChangesOnly | keysource/randomsource/randomsource.go:79-171 | Which step changes what: rotations, what is accepted, the store's keys, the bind, the watcher, the callback and closing. |
| Feeding.NeverBlocked | keysource/randomsource/randomsource.go:79-171 | A bind that is not over can take its next step, a callback can run, and source and store can be closed at any time. |
| Feeding.WatchedExactly | keysource/randomsource/randomsource.go:120-136 | In any run the watcher has started if and only if the source was attached while open. |
| Feeding.FiresWithTheEpoch | keysource/randomsource/randomsource.go:138-171 | A running watcher that is not calling fires at an instant if and only if it is of a later epoch than the last rotation. |
| Feeding.NothingAfterFinal | keystore/keystore.go:166-178 | Once the store is closed, or the source detached with no call under way, nothing is accepted any more. |
| Polling.PollingSource.StartLocked | keysource/filesource/filesource.go:97-103 | The watcher starts exactly when the source is open and monitored, with a callback and a snapshot. |
| Polling.PollingSource.LoadBegin | keysource/filesource/filesource.go:54-59 | A closed source does not load. |
| Polling.PollingSource.LoadEnd | keysource/filesource/filesource.go:64-72 | What was read is recorded, unless the source was closed meanwhile. |
| Polling.PollingSource.SetRefreshCallback | keysource/jwkssource/jwkssource.go:107-112 | The callback is set or removed and the watcher started if it can be. |
| Polling.PollingSource.Close | keysource/jwkssource/jwkssource.go:87-103 | The source is closed and nothing else changes. |
| Polling.PollingSource.Compare | keysource/filesource/filesource.go:118-127 | The callback is called exactly for content other than the recorded one, while one is set. |
| Polling.PollingSource.Accept | keysource/filesource/filesource.go:128-130 | After a successful callback the content is recorded. |
| Polling.StepKeepsConsistent | keysource/filesource/filesource.go:105-132 | Every step of source, store and outside world keeps the agreement invariant. |
| Polling.StoreAgreesWithSnapshot | keysource/jwkssource/jwkssource.go:122-149 | In any run, once active, the store's keys are those of the recorded content, except between a successful callback and the record, which restores the agreement. |
| Polling.FailuresChangeNothing | keysource/jwkssource/jwkssource.go:52-149 | A load that fails in any way, a failed commit, a failed callback and a detached callback change neither keys nor source. |
| Polling.ChangesExactly | keysource/filesource/filesource.go:47-132 | In any run the store's keys change exactly when an open store is handed content that builds other keys, and the snapshot exactly when an open source records something new in a bind or the watcher records. |
| Polling.ServedContentExisted | keysource/filesource/filesource.go:105-132 | At every moment the store's keys for a committed source are those of one content that could be read then or before. |
| Polling.TurnCatchesUp | keysource/filesource/filesource.go:114-130 | One undisturbed turn of the watcher brings the store to the current content if it can be read and built, and otherwise changes nothing. |
| Polling.CatchesUpFromAnywhere | keysource/filesource/filesource.go:97-132 | At any moment of any run an open, monitored, attached source is being watched, and once the turn under way and one more are undisturbed the store holds the keys of the current content. |
| Polling.BindCompletes | keystore/keystore.go:113-142 | Five undisturbed steps bind a polling source with readable content that builds: attached, recorded, its keys held, and watched exactly if monitored. |
| Polling.BindingRun | keystore/keystore.go:113-142 | A source as it is made and an open store have a run that binds them. |
| Polling.BindGoesOnExactly | keystore/keystore.go:113-142 | In any run each step of a bind goes on exactly when it can; a commit leaves the source committed exactly in an open store with content that builds. |
| Polling.StartsAtTheSecond | keysource/filesource/filesource.go:64-103 | The watcher starts at the second of loading and attaching, in either order, unless the source is closed or not monitored. |
| Polling.WatchedExactly | keysource/filesource/filesource.go:90-103 | In any run the watcher has started if and only if the source is monitored and was attached while open. |
| Polling.NeverBlocked | keysource/filesource/filesource.go:105-132 | A bind that is not over can take its next step, and so can a watcher that has started. |
| Polling.OutsideSteps | keystore/keystore.go:71-76 | Replacing content, detaching and closing do that and nothing else. |
| Polling.NothingAfterFinal | keystore/keystore.go:166-178 | Once the store is closed, or the source detached with no call under way, its keys never change again. |
| Polling.ForeignLoadKeepsAgreementExactly | keystore/keystore.go:153-158 | Why `RefreshAll` skips such sources: a load whose result is not stored keeps the agreement exactly when the source is closed or the content builds to the held keys, and a lost agreement is never repaired by the watcher while the content stays. |
| Polling.ForeignLoadExample | keystore/keystore.go:153-158 | A concrete loss of agreement that the watcher never repairs. |
| Base64.RoundTrip | backend/rsa/encoder.jose.go:171-176 | Decoding the text of any bytes gives the bytes. |
| Base64.CanonicalExactly | backend/ec/decoder.jose.go:148-151 | A text that decodes is the encoding of its bytes if and only if it has no line break and no set bit beyond its last byte. |
| Base64.BreakIsIgnored | backend/ec/decoder.jose.go:148-151 | The decoder is not strict: a line feed or carriage return anywhere changes no decoded byte. |
| Base64.DecodesExactly | backend/ec/decoder.jose.go:148-151 | A text decodes if and only if it is of symbols of the alphabet and line breaks, and its last group is not one symbol. |
| Base64.Alphabet | backend/ec/encoder.jose.go:161 | The 64 symbols of the URL-safe alphabet. |
| Base64.GroupValue | backend/ec/encoder.jose.go:161 | The four symbols of a group spell the number that its three bytes spell. |
| Base64.TestVectors | backend/ec/encoder.jose.go:161 | Two encodings by value. |
| BigEndian.FirstByteIsHighest | backend/rsa/decoder.jose.go:178 | The first byte is the most significant. |
| BigEndian.ValueOfBytes | backend/rsa/encoder.jose.go:171-176 | Minimal big-endian bytes keep the integer and have no leading zero. |
| BigEndian.BytesOfValue | backend/rsa/decoder.jose.go:174-178 | Bytes are the minimal ones of the integer they spell if and only if they have no leading zero. |
| BigEndian.ValueOfFixed | backend/ec/encoder.jose.go:157-162 | Fixed-width bytes keep every integer below 256 to the width, in exactly that width. |
| BigEndian.FixedOfValue | backend/ec/decoder.jose.go:152-156 | Any bytes are the fixed-width form of the integer they spell. |
| BigEndian.FillInto | backend/ec/backend.private.go:88-89 | Filling part of a buffer writes that form there and nothing elsewhere. |
| EcJose.EncodeSignature | backend/ec/backend.private.go:82-91 | R and S side by side, each in the width of the group order; an error exactly on a missing key or value. |
| EcJose.SignatureRoundTrip | backend/ec/backend.private.go:86-103 | The signature has length twice the width, splits back to r and s, and verifies exactly when the pair does. |
| EcJose.AcceptedIsCanonical | backend/ec/backend.private.go:93-104 | A signature is accepted if and only if it is the encoding of an accepted pair: no other length, no second encoding. |
| EcJose.CoordinateExactly | backend/ec/decoder.jose.go:144-157 | A parameter decodes to a coordinate if and only if its bytes are the fixed-width form of that coordinate; the encoder writes the canonical one of these texts. |
| EcJose.EcPrivateExactly | backend/ec/decoder.jose.go:86-129 | A JWK decodes to a private key if and only if the scalar is in range and belongs to the point, the point is on the curve, and the JWK has the curve's name and, in bytes, the coordinates and scalar; exactly such keys encode, to the canonical one of these JWKs. |
| EcJose.CoordinateErrors | backend/ec/decoder.jose.go:144-157 | Which error a coordinate gives: missing, malformed, or of another length than the field's. |
| EcJose.KeyErrors | backend/ec/decoder.jose.go:117-129 | Which error a private key gives: the scalar's range, the point, or that they do not belong together. |
| EcJose.PrivateErrors | backend/ec/decoder.jose.go:86-129 | Which error a JWK gives, for every JWK: curve, coordinates, point, scalar. |
| EcJose.SecondJwk | backend/ec/decoder.jose.go:144-157 | Every encoded key has a second JWK that decodes to it, which differs in the text of x. |
| RsaJose.BigIntRoundTrip | backend/rsa/decoder.jose.go:170-183 | A positive integer survives; zero becomes a missing parameter. |
| RsaJose.CrtExponents | backend/rsa/encoder.jose.go:99-106 | For a valid key, dp is positive exactly when p is odd, and dq exactly when q is. |
| RsaJose.CoefficientExists | backend/rsa/encoder.jose.go:107 | The coefficient qi exists, and is positive, exactly when the primes differ. |
| RsaJose.RsaPrivateExactly | backend/rsa/encoder.jose.go:94-108 | A valid two-prime key always encodes, and its JWK decodes to the same key if and only if the primes are odd and different; otherwise a parameter is missing. |
| RsaJose.RsaPublicExactly | backend/rsa/decoder.jose.go:116-129 | A public key decodes exactly from a positive modulus and an exponent from 2 up to Go's largest int. |
| RsaJose.RsaDecodesExactly | backend/rsa/decoder.jose.go:116-168 | A JWK decodes to a private key if and only if the key has two different odd primes whose product is n, an exponent from 2 through 2^31 - 1 that d inverts, and each of the eight parameters decodes to its value, qi to the inverse of q modulo p. |
| RsaJose.UsualExponent | backend/rsa/encoder.jose.go:94-108 | A key with the exponent 65537 round-trips. |
| RsaJose.RsaEncodesExactly | backend/rsa/encoder.jose.go:94-108 | Of the JWKs that decode to a key, the encoder writes the one whose texts are canonical and without leading zero bytes. |
| RsaJose.LostKeys | backend/rsa/encoder.jose.go:94-108 | Boundary cases of the arithmetic of validity that do not come back: a key with the prime two and one with equal primes. |
| RsaJose.IntegerErrors | backend/rsa/decoder.jose.go:170-183 | Which error an integer gives: missing, malformed or not positive. |
| RsaJose.PublicErrors | backend/rsa/decoder.jose.go:116-129 | Which error a public key gives, for every JWK. |
| RsaJose.PrivateErrors | backend/rsa/decoder.jose.go:131-168 | Which error a private key gives, for every JWK, in the order of the checks. |
| RsaJose.EncodeErrors | backend/rsa/encoder.jose.go:94-108 | Exactly the valid keys encode. |
| RsaJose.DecodedIsConsistent | backend/rsa/decoder.jose.go:131-168 | Any JWK that decodes to a private key carries that key's own CRT values, and the key round-trips. |
| JoseMetadata.SetMetadata | backend/ec/encoder.jose.go:164-191 | The loop records the distinct non-empty operations in order of first appearance, and use and algorithm when all restrictions agree on them. |
| JoseMetadata.RestrictionsFromJwk | backend/ec/decoder.jose.go:163-183 | One restriction for each operation, with the JWK's use or the operation's default; none without an algorithm. |
| JoseMetadata.MetadataRoundTripsExactly | backend/rsa/decoder.jose.go:94-114 | Restrictions come back with repeats removed if and only if there are none, or they share one non-empty algorithm, have no empty operation, and their uses are all signing, all encryption, or each its operation's default. |
| JoseMetadata.SingleRestriction | backend/ec/encoder.jose.go:164-191 | What one restriction of any use and operation becomes: "sig", "enc" or no use, and no empty operation. |
| JoseMetadata.DecodedUses | backend/ec/decoder.jose.go:168-181 | The use each operation is decoded with. |
| JoseMetadata.TwoAlgorithmsAreLost | backend/ec/encoder.jose.go:164-191 | Restrictions to two algorithms decode to no restriction at all. |
| Padding.PadShape | backend/symetric/unsafe_crypto_enabled.go:91-94 | The padding is between one byte and a block, each byte the number of them, up to a multiple of the block size. |
| Padding.UnpadExactly | backend/symetric/unsafe_crypto_enabled.go:91-105 | Unpadding gives a plaintext if and only if its input is the padding of that plaintext. |
| BlockModes.XorByteAt | backend/symetric/unsafe_crypto_enabled.go:55 | Exclusive or sets exactly the bits in which two bytes differ. |
| BlockModes.Des2KeyExactly | backend/symetric/unsafe_crypto_enabled.go:24-35 | The key is sixteen bytes in two different halves, used as first, second, first. |
| BlockModes.EncryptsExactly | backend/symetric/unsafe_crypto_enabled.go:37-60 | When encryption succeeds, how long the ciphertext is, and that CBC puts the vector first. |
| BlockModes.EncryptErrors | backend/symetric/unsafe_crypto_enabled.go:37-60 | Which error encryption gives: the key, the mode, or the vector. |
| BlockModes.FirstBlock | backend/symetric/unsafe_crypto_enabled.go:44-56 | Encryption runs the cipher forward under the expanded key, in CBC on the exclusive or with the vector. |
| BlockModes.DecryptErrors | backend/symetric/unsafe_crypto_enabled.go:62-89 | Which error decryption gives: key, mode, length, or padding. |
| BlockModes.EcbCrypt | backend/symetric/unsafe_crypto_enabled.go:107-113 | The block loop fills the destination with each source block processed on its own. |
| BlockModes.EcbUndoes | backend/symetric/unsafe_crypto_enabled.go:46 | For any block bijection, ECB in one direction undoes ECB in the other, at the same length. |
| BlockModes.CbcDecryptUndoes | backend/symetric/unsafe_crypto_enabled.go:84 | For any block bijection and initialization vector, CBC decryption undoes CBC encryption. |
| BlockModes.CbcEncryptUndoes | backend/symetric/unsafe_crypto_enabled.go:55 | And CBC encryption undoes CBC decryption, so nothing else decrypts. |
| BlockModes.UnsafeEncrypt | backend/symetric/unsafe_crypto_enabled.go:37-60 | The ciphertext, or the error, of the encryption function: key checks first, then the mode. |
| BlockModes.UnsafeDecrypt | backend/symetric/unsafe_crypto_enabled.go:62-89 | The plaintext, or the error, of the decryption function: key, mode, length, padding. |
| BlockModes.DecryptsExactly | backend/symetric/unsafe_crypto_enabled.go:37-89 | For any key, mode and block bijection, a ciphertext decrypts to a plaintext if and only if it is an encryption of that plaintext under some initialization vector. |

## Left out

- Selection.SelectKey: the check for a nil store, and the wording of errors; the outcome is the key and algorithm, or the kind of error.
- Selection.SortByPriority: Go's library sort is modelled by an insertion sort; both are stable, which determines the result.
- KeySets.Append: Go's growth policy; any array that is large enough would do.
- LoadOrder.OrderNeverMatters: needs that no load carries a key naming another load's source. A file source whose template overrides the source name can break this, and `LoadOrder.OrderIrrelevantExactly` shows that the hypothesis is exact.
- LifecycleProgress.NeverStuck: assumes that every `Load` returns, as does all of termination; the step that returns from `Load` is always enabled.
- LifecycleProgress.CallsCanReturn: the schedule found prefers waiting writers, as Go's lock does. Runs in general need not; what they need for every call to return is in `FairRuns`.
- FairRuns.CloseReturns: fairness of Go's locks and scheduler is a hypothesis.
- Lifecycle: errors joined into the result of `Close` and `RefreshAll`, and the contexts of repository calls, which the store never cancels; store calls are steps and not a class, because the threads interleave.
- Lifecycle: custom source types, source objects bound to two stores, and callbacks that a source calls while it holds its own mutex.
- Rotations.EachEpochOnce: the clock does not go back, as Go's monotonic readings do not, and starts after Go's zero instant; after a rollback future epochs would be deleted and generated again.
- RandomSource.Source.SetRefreshCallback: the wake-up of the watcher and the timer itself; a spurious wake-up only recomputes the deadline.
- RandomSource.Source.Close: cancelling the context that stops the watcher.
- Rollover.SignedIsVerified: cryptography itself; what is proved is that the verifier is given the signer's key.
- Feeding.StoreHoldsLastAccepted: the store is the only caller of `Load`, and other sources store no key naming this one.
- Polling.StoreAgreesWithSnapshot: digests are taken as injective on the whole content, and the store as the only caller of `Load`. The file source hashes paths and contents without their lengths; the model takes the digest of the whole directory state.
- Polling.PollingSource.Close: cancelling requests in flight and closing idle connections; a watcher may still finish the turn it is in.
- EcJose.EcPrivateExactly: curve membership, base-point multiples and the order are parameters. JSON around the texts is not modelled.
- RsaJose.RsaPrivateExactly: the library's key validation is an arithmetic predicate. The library may be stricter, on key size or on the prime two and equal primes, and nothing here says that it admits the keys of `RsaJose.LostKeys`; encoder and decoder apply the same check, so the keys it admits with odd, different primes still round-trip.
- RsaJose.DecodedIsConsistent: with equal primes there is no coefficient to compare with; the model counts that as inconsistent, where the Go code would compare a nil integer.
- JoseMetadata.RestrictionsFromJwk: a nil slice and an empty one are the same here.
- BlockModes.UnsafeEncrypt: triple DES is any family of bijections on eight-byte blocks.
- HTTP fetching, redirects, file reading, directory listing, PEM, DER and X.509 parsing: a load returns arbitrary candidates or an error.
- JSON marshalling, certificates inside JWKs, thumbprints and public-only JWKs.
- RSA, ECDSA, HMAC, AES-GCM and DES primitives.
- The signing function handed out by `Signer` with its one-shot flag, and the thin wrappers `Verify`, `Encrypt` and `Decrypt` around the selection.
- The jws and jwks packages, codec and back-end registries, capability tables, factories, material cloning, and the JWKS endpoint and its writer.
