# Brokers: models and proofs of the hard parts

This project models the parts of the broker library whose correctness rests on orderings
and interleavings, and proves what they promise over all runs, schedules or inputs.

* **BrokerScope teardown** (`ScopeMachine`, `ScopeRuns`, `ScopeClose`, `ScopeProgress`,
  `ScopeWaiters`, `BrokerScope`). The re-openable asynchronous close as a machine with one
  event per stretch of code between two suspension points, under any scheduler, and the
  scope as a class whose methods move along that machine. A recorded undo carries how often
  its body suspends and when it releases; the bodies are generated elsewhere in the library.
* **What the undos do** (`SlotRegistry`). The generated release of a slot and the slot table
  under scope registrations, replacements, mocks, drops, other threads and closes.
* **Broker contexts** (`BrokerContext`, `ContextRuns`, `ContextLock`). Packing, allocation by
  any number of threads with the fetch and the return of a call as separate steps, and the
  critical section around the per-thread context.
* **Parked calls** (`ParkedCalls`, `StoragePlugin`). The lock-free hand-off of the storage
  plugin, one event per atomic operation, and the releaser with its spin loop.
* **CBOR in the raw plugins** (`CborHeads`, `CborMaps`, `CborLookup`, `RawPlugins`). Heads,
  the scanning lookup against an abstract map, and the request handlers. RFC 8949, sections 3
  and 4.1. `Narrow` is the codec of the storage, kv and life plugins, `Wide` that of calc.
* **Checksum** (`Checksum`). The four imported codec libraries.
* **The multi-thread queue** (`MpscRing`, `RingRuns`, `FreeList`, `FreeListRuns`,
  `FreeListScan`, `ResponseSlot`, `ResponseSlotRuns`). The bounded many-producer ring, the
  sharded free list and the response slot's control word, one event per atomic operation,
  any number of threads.

`Sequences` and `Integers` hold shared vocabulary. In every machine `Step` is the code, one
case per event; `Legal` and `Run` are whole runs; `Inv` and its parts are what every step keeps.

## Where the code and its words differ

Each with its exact condition, and with an input, or a run from the initial state, that shows it.

* `track` does not look at `tearingDown`. An undo tracked into a closing scope waits for the
  next close, so "a close that returned by itself returns after everything registered before
  it" holds for a joining call if and only if nothing was pending when it was made
  (`ScopeClose.JoinCoversIffNothingPending`, run in `LateTrackIsMissed`); with registrations
  through the generated overloads it always holds.
* The self-wait guard covers the synchronous phase only. A later undo that awaits `close()`
  waits for ever (`ScopeProgress.SelfWaitIsForEver`, run in `SelfWaitingIsReached`), and
  nothing else stops a teardown (`ProceedsIffNotSelfWaiting`).
* "A single close releases them all" fails for a closure put back into its slot after its undo
  released it: on the way to an open, empty scope a closure goes if and only if an undo is
  still to release it (`SlotRegistry.GoneIffCovered`, run in `PutBackDuringTheUndo`).
* The assertion in `newClassCtx` says at most 65534; the ids are 2..0xFFFE, which are 65533.
  The counter wraps, and call 2^32 - 2 (counting from 0) is handed the reserved id 0: ids are
  sound for exactly the calls before it (`BrokerContexts.ClassIdsSoundIff`).
* `lockGlobalBrokerContext` saves the raw thread variable. A secondary thread reads what it
  should between bodies if and only if it read its context before the first body was entered or
  has set it outside a body; otherwise it reads 0 (`ContextLock.UninitialisedRestoredIff`, run
  in `SecondaryThreadReadsZero`).
* A reservation of a parked call during a drain costs no call if and only if its index is
  behind the drain (`ParkedCalls.ReservationHarmlessIff`, run in
  `OverlappingReservationLosesACall`), and opening the plugin again costs none if and only if
  nothing is reserved (`ReopeningHarmlessIff`, run in `ReopenedOverAParkedCall`).
* `dec_x` reads one layout only and ignores the value's major type. On every well-formed map it
  agrees with the scanning lookup if and only if, on that layout, the value is an unsigned
  integer, unreadable or 0, and off it there is nothing to find but 0
  (`RawPlugins.DecXRefinesLookupIff`, inputs in `DecXFails`).
* The ring accepts capacity 1, and `queueDepth = 1` passes its check, but a published and a
  freed slot are then the same to it: it keeps its items if and only if it has two slots or
  more (`RingRuns.KeepsItemsIffTwoSlots`, run in `OneSlotLosesCalls`).
* "Closed and empty is the definitive drained point" is not so while a sender is past its
  closed check: `RingRuns.ClosedAndEmptyIsNotEnough` is a run, `RingRuns.RetiresCleanlyIff`
  the exact condition.
* "The side that wins the Empty→… swap never releases" is not so for a provider whose requester
  gives up while it writes (`ResponseSlotRuns.PublishedIffStillWanted`, run in
  `WinnerHasToRelease`); what holds is `ResponseSlotRuns.ReleasedExactlyOnce`.
* Nothing in the code keeps a requester from giving up after its poller has released the slot.
  Such a late give-up is harmless on every later schedule if and only if the slot does not bear
  the response or the provider's absence any more (`ResponseSlotRuns.LateGiveUpHarmlessIff`);
  in `LateGiveUpHandsItOutTwice` two requests claim one slot.
* "Returns `EmptyIdx` if all shards are empty" holds of `pop` in every run, with a moment during
  the pop at which nothing was free, if and only if there is one shard or at most one index
  (`FreeListScans.EmptyAnswersTrueIff`, run in `OvertakenFromFresh`).

Hypotheses that are not code are arguments of the theorems: `ScopeMachine.Gated`,
`ScopeProgress.NoSelfWait`, `SlotRegistry.Respectful`, `ParkedCalls.SafeReservations`,
`ResponseSlots.SafeEnds` (which `EndsOnce` implies), and calls short of a counter's wrap.

## Model

| member | source | states |
|---|---|---|
| ScopeRuns.ExecutionOrder | brokers/broker_scope.nim:79-133 | Over every schedule the detached lists cut the accepted registrations into consecutive pieces, the executed undos followed by those still owed are these pieces one after the other, each newest first; nothing lost or run twice across reopenings |
| ScopeRuns.RunInv | brokers/broker_scope.nim:102-133 | Every run keeps: one teardown at most, `closing` set exactly while a suspended one runs, `tearingDown` without `closing` only in its synchronous part |
| ScopeRuns.RunTracked | brokers/broker_scope.nim:79-83 | Detached lists followed by the pending list are the accepted registrations, from any reachable state |
| ScopeClose.CloseReturnsAfterAll | brokers/broker_scope.nim:111-133 | A close that returns by itself, not cancelled, re-entrant or off-thread, does so after every undo registered before the call has finished, if nothing was pending in a closing scope |
| ScopeClose.CloseIsBackOnlyAfterAll | brokers/broker_scope.nim:116-133 | Told by the events alone: an owner's close() not made from the synchronous part of a teardown, and not cancelled since, is back only after every undo registered before it has finished, if nothing was pending in a closing scope |
| ScopeClose.CloseCallOutcome | brokers/broker_scope.nim:116-131 | A close() is back in its own step off the owning thread, with nothing recorded, or from the synchronous part, and only then; with a suspended teardown it waits for that one and changes nothing else; else it starts one on the recorded list |
| ScopeClose.WaiterCanLeave | brokers/broker_scope.nim:130-133 | A waiter can resume exactly when the teardown it waits for is over, in an open scope in any case, and can give up at any time |
| ScopeClose.JoinCoversIffNothingPending | brokers/broker_scope.nim:126-131 | When the joined teardown ends, everything registered before the call has finished if and only if the pending list was empty at the call |
| ScopeClose.LateTrackIsMissed | brokers/broker_scope.nim:79-83 | A run from a fresh scope: an undo tracked while closing, a later close joins and returns, that undo has not run |
| ScopeClose.GatedCloseReturnsAfterAll | brokers/internal/mt_request_broker.nim:2271-2274 | With all registrations through overloads that test isOpen the promise of close holds for every call |
| ScopeClose.GatedCloseIsBackOnlyAfterAll | brokers/internal/mt_request_broker.nim:2271-2274 | The same told by the events, with no condition on what is pending |
| ScopeClose.GatedHasNothingPending | brokers/internal/mt_request_broker.nim:2271-2274 | Such runs never have anything pending in a closing scope |
| ScopeClose.FinishedMeansRun | brokers/broker_scope.nim:106-107 | "Finished" in these statements means executed, list after list, each newest first |
| ScopeClose.OneTeardown | brokers/broker_scope.nim:118-122 | While a teardown runs no other list is detached |
| ScopeProgress.TeardownEndsExactly | brokers/broker_scope.nim:102-109 | Under every scheduler a teardown is over after exactly its work in turns of its undos, open and with everything detached executed; no step of others adds to it |
| ScopeProgress.GatedTeardownLeavesEmpty | brokers/broker_scope.nim:111-113 | With gated registrations the scope is empty when the teardown ends |
| ScopeProgress.ProceedsIffNotSelfWaiting | brokers/broker_scope.nim:126-131 | A running teardown can take its next turn, at once or after the awaited call resumes, if and only if it does not wait for itself |
| ScopeProgress.CanEnd | brokers/broker_scope.nim:102-109 | Every teardown that does not wait for itself has a schedule of its own steps to its end |
| ScopeProgress.SelfWaitIsForEver | brokers/broker_scope.nim:126-131 | A teardown that waits for itself runs nothing more until the awaited call is cancelled |
| ScopeProgress.SelfWaitingIsReached | brokers/broker_scope.nim:126-131 | A run from a fresh scope to a teardown that waits for itself |
| ScopeProgress.NeverSelfWaiting | brokers/broker_scope.nim:126-131 | If no undo suspends on a call that waits for its own teardown, no reachable teardown waits for itself |
| ScopeProgress.SynchronousReentryReturns | brokers/broker_scope.nim:126-129 | A close made in the synchronous part returns at once, changes nothing else, and cannot be awaited |
| ScopeWaiters.WaitersDoNotMatter | brokers/broker_scope.nim:130-133 | Taking any set of callers out of a run leaves a legal run with the same executed undos and the same scope |
| BrokerScopes.BrokerScope.constructor | brokers/broker_scope.nim:53-59 | A new scope is open and empty |
| BrokerScopes.BrokerScope.Track | brokers/broker_scope.nim:79-83 | Appends, open or not, and is the machine's step |
| BrokerScopes.BrokerScope.Register | brokers/internal/mt_request_broker.nim:2268-2286 | Accepts exactly on the owning thread of an open scope; otherwise nothing changes |
| BrokerScopes.BrokerScope.Close | brokers/broker_scope.nim:116-131 | Off-thread and re-entrant calls only return; a call with a suspended teardown only joins it; any other detaches the recorded list; it is back at once in exactly three cases |
| BrokerScopes.BrokerScope.FinishUndo | brokers/broker_scope.nim:106-109 | One undo returns: next one, or fields reset |
| BrokerScopes.BrokerScope.SuspendUndo | brokers/broker_scope.nim:122-131 | A suspension; the first publishes `closing` and the starter waits on it |
| BrokerScopes.BrokerScope.SuspendOnCall | brokers/broker_scope.nim:107 | An undo awaits another close call |
| BrokerScopes.BrokerScope.ReturnFromJoin | brokers/broker_scope.nim:130-133 | A waiter resumes or is cancelled; the teardown is untouched |
| BrokerScopes.BrokerScope.CallBacks | brokers/broker_scope.nim:107 | An undo may register and call close on its own scope any number of times without disturbing the teardown that runs it |
| BrokerScopes.BrokerScope.RunStretch | brokers/broker_scope.nim:106-109 | The countdown loop up to a suspension, undos calling back at will, runs the suspension-free undos newest first and is a run of the machine |
| BrokerScopes.BrokerScope.CloseAndRun | brokers/broker_scope.nim:116-131 | close() returns at once, all released newest first and open again, if and only if every undo is suspension-free; else it waits on the teardown it published; pending is then what the undos registered |
| SlotRegistry.Release | brokers/broker_scope.nim:11-16 | Only our own closure leaves the slot; the bucket goes only when ours and not used by the other signature; other slots and other threads' buckets stay; a second release finds nothing to do |
| SlotRegistry.SlotTable.ReleaseSlot | brokers/internal/mt_request_broker.nim:2239-2266 | Each of the four outcomes exactly when, told by slot and bucket, and the new table, with the other signature's slot in use or not |
| SlotRegistry.SlotTable.RemoveOwned | brokers/internal/mt_transport.nim:402-409 | The owner-only removal, decided with it |
| SlotRegistry.SlotTable.SetupBucket | brokers/internal/mt_transport.nim:330-337 | Refused exactly when another thread owns the bucket; otherwise this thread does afterwards |
| SlotRegistry.SlotTable.SetProvider | brokers/internal/mt_request_broker.nim:1132-1157 | A slot in use on a bucket of this thread is refused and nothing changes; an entry without its bucket is dropped and the slot settled anew; with another thread's bucket the slot ends empty |
| SlotRegistry.SlotTable.ReplaceProvider | brokers/internal/mt_request_broker.nim:2137-2154 | Replaces any entry without looking at the bucket; an empty slot is settled like a set |
| SlotRegistry.InstallOutcome | brokers/internal/mt_request_broker.nim:2268-2312 | A registration through the scope: nothing changes off-thread, in a closing scope, or for a set on a slot in use; over an entry with replace, and into any other slot whose bucket is this thread's or nobody's, the closure is in the slot and the undo recorded; with another thread's bucket only a stale entry goes |
| SlotRegistry.OutsideOutcome | brokers/internal/mt_request_broker.nim:1132-1157 | The same for registrations outside the scope; a clear empties both slots of a bucket this thread owns and does nothing otherwise |
| SlotRegistry.CloseReleasesExactlyOurs | brokers/broker_scope.nim:11-16 | From any mix of registrations, and whichever of its turns an undo releases in, whenever the scope is open with nothing recorded each slot holds its last accepted write if that came from outside and is empty if it came through the scope (or was dropped as stale since); and, buckets other threads meddled with apart, this thread owns exactly the buckets those outside registrations are in |
| SlotRegistry.TeardownEndReleasesExactlyOurs | brokers/broker_scope.nim:102-109 | The same, slots and buckets, at the event that ends a teardown |
| SlotRegistry.HistoryAccounted | brokers/broker_scope.nim:79-83 | At every moment each scope closure in a slot has an undo still to release it, and nobody else's registration was touched |
| SlotRegistry.HistoryKeepsBuckets | brokers/internal/mt_request_broker.nim:2248-2266 | Through every history, whoever does what: no bucket is taken from under a standing registration, and none stays behind without one |
| SlotRegistry.GoneIffCovered | brokers/broker_scope.nim:11-16 | When the scope's own events have brought it to open and empty, a closure in a slot is gone if and only if an undo was still to release it |
| SlotRegistry.UncoveredSurvives | brokers/broker_scope.nim:11-16 | A closure no undo is to release stays through everything the scope does |
| SlotRegistry.PutBackDuringTheUndo | brokers/event_broker.nim:408-415 | A run from an empty table: the undo releases and suspends, its closure is put back meanwhile and outlives the close |
| SlotRegistry.ScopeLeavesOthersBuckets | brokers/internal/mt_transport.nim:402-409 | No scope event touches a bucket another thread owns |
| BrokerContexts.BitFormsAreArithmetic | brokers/broker_context.nim:28-35 | Masks and shifts are the quotients and remainders used here |
| BrokerContexts.PackUnpack | brokers/broker_context.nim:28-35 | Packing and unpacking are inverse on all halves and all 32-bit values |
| BrokerContexts.ClassIdsSoundIff | brokers/broker_context.nim:78-84 | Class ids are distinct and in 2..0xFFFE for the first n calls if and only if n is at most 2^32 - 2; the next call is handed 0 |
| BrokerContexts.InstanceIdsSoundIff | brokers/broker_context.nim:103-105 | Instance ids are distinct and in 1..0xFFFF for the first n calls if and only if n is at most 2^32 - 1; the next call is handed 0 |
| BrokerContexts.ContextAllocator.NewClassCtx | brokers/broker_context.nim:78-84 | The counter moves before the assertion, whatever it decides |
| BrokerContexts.ContextAllocator.NewBrokerContext | brokers/broker_context.nim:86-88 | A flat context with the fetched class id |
| BrokerContexts.ContextAllocator.NewInstanceCtx | brokers/broker_context.nim:92-105 | The parent's class half and a fresh instance half |
| ContextRuns.ContextsNeverCollide | brokers/broker_context.nim:86-105 | Any interleaving of flat and derived allocations short of a wrap: all contexts distinct, none nil or default, exactly derived ones have an instance half |
| ContextRuns.MaskRecoversRoot | brokers/broker_context.nim:98-100 | Masking the instance half gives the root's flat context at any depth |
| ContextRuns.CapacityIsReached | brokers/broker_context.nim:76-105 | With no call on its way exactly min(calls, 65533) flat and min(calls, 65535) derived contexts have been made, and never more, on every run short of a wrap |
| ContextRuns.FlatSuccessesAreTheFirstFetches | brokers/broker_context.nim:82-84 | Every flat context made comes from one of the first 65533 fetches and is its number plus 2 |
| ContextRuns.CallsComeTo | brokers/broker_context.nim:78-105 | Wherever in whatever run: a flat call with number k returns exactly context k + 2 if k is below 65533, a derived one 0x10000 * (k + 1) plus the parent's class half if k is below 65535, and every other fails |
| ContextLock.LayersAreKept | brokers/broker_context.nim:147-165 | Initialised thread, any interleaving: each body reads its own context while it holds the lock, and outside the thread reads what it would without any body |
| ContextLock.FreeLockReadsTheSame | brokers/broker_context.nim:157-165 | Without explicit sets the free lock leaves the context of the start |
| ContextLock.BodyKeepsTheLock | brokers/broker_context.nim:157-165 | Until a task leaves, nobody else acquires the lock or installs a context, and what it will put back does not change |
| ContextLock.SectionRestoresIff | brokers/broker_context.nim:158-164 | A section restores what the thread read if and only if the thread was initialised; otherwise it reads 0 |
| ContextLock.UninitialisedRestoredIff | brokers/broker_context.nim:147-165 | Over every run of tasks, reads and explicit sets, a thread never initialised reads between bodies what it should if and only if it read its context before the first body was entered or has set it outside a body; otherwise it reads 0 |
| ContextLock.SecondaryThreadReadsZero | brokers/broker_context.nim:158-164 | The shortest run that leaves a secondary thread reading 0 |
| ContextLock.ThreadGlobals.ThreadGlobalBrokerContext | brokers/broker_context.nim:61-70 | Lazy default, then the value |
| ContextLock.ThreadGlobals.SetThreadBrokerContext | brokers/broker_context.nim:111-119 | The value is what is read next |
| ContextLock.ThreadGlobals.Enter | brokers/broker_context.nim:157-160 | Saves the raw value and installs the body's |
| ContextLock.ThreadGlobals.Leave | brokers/broker_context.nim:163-165 | Puts the saved value back |
| ParkedCalls.RunConserves | test/ext/raw_storage_plugin.c:111-153 | In every run, with no hypothesis: invocations = answered + parked + in flight + over capacity + overwritten |
| ParkedCalls.LostOnlyByOverwriting | test/ext/raw_storage_plugin.c:112-113 | The calls that came in and are not answered, parked, in flight or turned away grow in a step if and only if it stores into a slot that holds an id, and then by that id |
| ParkedCalls.ExactlyOnce | test/ext/raw_storage_plugin.c:111-153 | With safe reservations each id below capacity is answered once, none is 0, and nothing is left over when idle |
| ParkedCalls.SpinsOnlyOnAPendingStore | test/ext/raw_storage_plugin.c:148-149 | The releaser spins if and only if the store it waits for is pending, and that store ends the wait |
| ParkedCalls.DrainProgress | test/ext/raw_storage_plugin.c:146-151 | Stores and successful exchanges use up the drain's work, nothing else changes it |
| ParkedCalls.DrainEndsExactly | test/ext/raw_storage_plugin.c:143-151 | In every order without reservations a drain takes exactly its work in stores and successful exchanges and its return, not less, and ends with every slot zero and no store pending |
| ParkedCalls.ReleaseAnswersExactly | test/ext/raw_storage_plugin.c:142-153 | In every order of stores, and with any safe reservations meanwhile, a release answers exactly the calls that had reserved when it took the count, each once |
| ParkedCalls.DrainAnswersWhatItOwes | test/ext/raw_storage_plugin.c:146-151 | At every moment of a drain what is answered and what is still owed add up to the same |
| ParkedCalls.ReservationHarmlessIff | test/ext/raw_storage_plugin.c:112 | A reservation can cost no call on any later schedule if and only if its index is behind the drain |
| ParkedCalls.ReopeningHarmlessIff | test/ext/raw_storage_plugin.c:127-130 | Opening again, which resets the count and leaves the slots, costs no call on any later safe schedule if and only if nothing was reserved |
| ParkedCalls.ReopenedOverAParkedCall | test/ext/raw_storage_plugin.c:127-130 | A run from the start to a plugin reopened with a call parked, which the next call hides for good |
| ParkedCalls.OverlappingReservationLosesACall | test/ext/raw_storage_plugin.c:111-153 | A run in which a reservation during a drain hides a call and blocks the next release |
| StoragePlugin.Parking.constructor | test/ext/raw_storage_plugin.c:21-24 | Nothing parked, all slots zero |
| StoragePlugin.Parking.Open | test/ext/raw_storage_plugin.c:127-130 | The count is reset, the slots are left |
| StoragePlugin.Parking.Reserve | test/ext/raw_storage_plugin.c:112 | The fetch-and-add at any moment; it keeps the protocol's invariant when it is safe |
| StoragePlugin.Parking.Store | test/ext/raw_storage_plugin.c:113 | The store of a reserved slot, at any later time |
| StoragePlugin.Parking.TakeCount | test/ext/raw_storage_plugin.c:143-144 | The count exchanged with 0, capped; what is parked and in flight is owed from now on |
| StoragePlugin.Parking.ExchangeSlot | test/ext/raw_storage_plugin.c:149-150 | One exchange, and the answer when it yields an id |
| StoragePlugin.Parking.Others | test/ext/raw_storage_plugin.c:111-114 | Any number of stores, and of reservations behind the releaser, between two of its operations change nothing it owes |
| StoragePlugin.Parking.SpinOn | test/ext/raw_storage_plugin.c:149-150 | The inner loop ends with one more answer, however often it tries and whatever safe comes between, once the invoker of that slot is let store |
| StoragePlugin.Parking.DrainSlots | test/ext/raw_storage_plugin.c:146-151 | n more answers |
| StoragePlugin.Parking.ReleaseSlow | test/ext/raw_storage_plugin.c:142-153 | Answers exactly the calls parked or reserved at the start, each once, whoever reserves behind it; every slot ends zero if nobody has |
| CborHeads.HeadRoundTrip | test/ext/raw_calc_plugin.c:27-48 | All 64-bit values, any bytes behind: decoding takes the bytes written and gives the value modulo 2^16 or 2^32 |
| CborHeads.ExamplesOfTheStandard | test/ext/raw_calc_plugin.c:27-34 | Heads of the examples of RFC 8949, appendix A |
| CborHeads.HeadsArePrefixFree | test/ext/raw_storage_plugin.c:32-47 | No head begins another |
| CborHeads.HeadsAreShortest | test/ext/raw_storage_plugin.c:32-47 | Among all readable forms of a head the encoder writes the one shortest |
| CborHeads.WidthsAgree | test/ext/raw_kv_plugin.c:29-43 | Below 2^16 both encoders write the same and both decoders read it |
| CborHeads.BitFormsAreArithmetic | test/ext/raw_storage_plugin.c:33-42 | Shifts and masks on bytes are the arithmetic used here |
| CborHeads.PutHead | test/ext/raw_calc_plugin.c:27-34 | Writes the head at its offset and nothing else |
| CborHeads.GetHead | test/ext/raw_calc_plugin.c:36-48 | Reads the head at its offset, with the bounds tests |
| CborMaps.DecodeForm | test/ext/raw_storage_plugin.c:39-47 | Every well-formed head, shortest or not, is decoded or refused by its form |
| CborMaps.EncodersWriteForms | test/ext/raw_storage_plugin.c:32-36 | What put_head writes is a well-formed head of the value modulo its range |
| CborMaps.FirstMatchIsFirst | test/ext/raw_storage_plugin.c:54-64 | The abstract lookup is the first entry whose key is the one asked for byte for byte and whose value has the wanted major type, all before it readable; none means none behind readable heads |
| CborLookup.EntriesAtCursor | test/ext/raw_storage_plugin.c:52-63 | The cursor is the encoded length of what was scanned |
| CborLookup.ScanEntry | test/ext/raw_storage_plugin.c:55-63 | One turn of the scan: stops at an unreadable head, finds exactly on equal key bytes and major type, else steps behind the value |
| CborLookup.Find | test/ext/raw_kv_plugin.c:46-62 | The loop returns exactly the abstract lookup's hit, offset and argument, for every map of any size and anything behind it |
| CborLookup.LookupIsFirst | test/ext/raw_kv_plugin.c:46-62 | The hit lies at the first readable entry with the key, byte for byte, and the major type, if and only if there is one |
| CborLookup.HitPayload | test/ext/raw_storage_plugin.c:60-62 | A string hit points at the string, inside the buffer |
| CborLookup.FindString | test/ext/raw_storage_plugin.c:50-66 | The scan returns the abstract map's string under the key, or failure |
| CborLookup.StringIsFirst | test/ext/raw_storage_plugin.c:50-66 | That string is the data of the first readable entry whose key is the one asked for byte for byte and whose value is a string of that type; failure if and only if there is none |
| CborLookup.FindUint | test/ext/raw_calc_plugin.c:50-63 | The scan returns the abstract map's number under the key, or failure |
| CborLookup.NumberIsFirst | test/ext/raw_calc_plugin.c:50-63 | The same for the first readable unsigned integer under the key |
| RawPlugins.BufferBounds | test/ext/raw_storage_plugin.c:95-100 | Writes stay in 300 bytes exactly up to 291, 283 and 292 bytes of key |
| RawPlugins.FetchBlob | test/ext/raw_storage_plugin.c:88-101 | The reply is the map {"data": reversed key}, or an error |
| RawPlugins.KvGet | test/ext/raw_kv_plugin.c:68-75 | The reply is {"value": "plugin:" + key} |
| RawPlugins.EmitEvicted | test/ext/raw_storage_plugin.c:162-168 | The event is {"key": key} |
| RawPlugins.FetchBlobEndToEnd | test/ext/raw_storage_plugin.c:88-101 | Encode, handle, decode gives the key reversed |
| RawPlugins.KvGetEndToEnd | test/ext/raw_kv_plugin.c:68-75 | Encode, handle, decode gives "plugin:" + key |
| RawPlugins.PutNumber | test/ext/raw_calc_plugin.c:65-69 | {key: number} as a well-formed map |
| RawPlugins.Square | test/ext/raw_calc_plugin.c:77-79 | The reply is {"v": x * x}, the product of the number found with itself; a missing number counts as 0 |
| RawPlugins.KvPlugin.KvSquare | test/ext/raw_kv_plugin.c:81-88 | The same in the narrow codec, and the calling thread is recorded |
| RawPlugins.SquareDecodes | test/ext/raw_kv_plugin.c:81-88 | The decoded square is x * x modulo the range, and exact if and only if x is at most 255 (kv) or 65535 (calc) |
| RawPlugins.SquareEndToEnd | test/ext/raw_calc_plugin.c:77-79 | Encode {"x": x}, handle, decode gives x * x modulo the range, and x * x itself if and only if x is at most 255 (kv) or 65535 (calc) |
| RawPlugins.NamesAreAscii | test/ext/raw_kv_plugin.c:68-88 | The entry names as bytes are these texts |
| RawPlugins.CounterArg | test/ext/raw_calc_plugin.c:88-91 | The bare integer 41 + x |
| RawPlugins.CounterArgDecodes | test/ext/raw_calc_plugin.c:88-91 | Decodes exactly if and only if x is at most 2^32 - 42 |
| RawPlugins.DecXRefinesLookupIff | test/ext/raw_life_plugin.c:67-74 | On every well-formed map in any encoding, with anything behind it, the fixed-layout decoder equals the scanning lookup exactly when, on its layout, the value is an unsigned integer or its head unreadable or carrying 0, and on any other there is nothing to find but 0 |
| RawPlugins.DecXFails | test/ext/raw_life_plugin.c:67-74 | An input off the layout and one with another type on which they differ |
| RawPlugins.LifeEcho | test/ext/raw_life_plugin.c:92-99 | The first reply and the duplicate |
| RawPlugins.LifeEchoEndToEnd | test/ext/raw_life_plugin.c:92-99 | Echoing v below 2^16 and decoding the first reply gives v |
| Checksums.ChecksumTurn | test/ext/libcodec.c:26 | Reducing at every turn or once at the end gives the same polynomial value |
| Checksums.HashInPieces | test/ext/libcodec.c:23-28 | Hashing a concatenation is hashing the second part seeded with the hash of the first |
| Checksums.SeedsStayApart | test/ext/libcodec.c:25-27 | Different seeds give different checksums on every buffer |
| Checksums.OneByteChanged | test/ext/libcodec.c:26 | A single changed byte always changes the checksum |
| Checksums.CrcCpp | examples/extapi/cpp_cimport/codec.cpp:15-19 | The loop returns the polynomial modulo 2^32 |
| Checksums.Libcodec.Crc | test/ext/libcodec.c:23-28 | The same, and the calling thread is recorded |
| Checksums.CrcGo | examples/extapi/go_cimport/main.go:17-25 | The same, with the empty buffer's branch |
| Checksums.FoldIsChecksum | examples/extapi/rust_cimport/src/lib.rs:11 | The wrapping fold is the polynomial modulo 2^32 |
| Checksums.CrcRust | examples/extapi/rust_cimport/src/lib.rs:9-12 | The same, a null buffer reading as empty |
| Checksums.SlowSumC | test/ext/libcodec.c:33-40 | The wrapping 64-bit loop returns the mathematical sum (codec.cpp has the same loop) |
| Checksums.SlowSumGo | examples/extapi/go_cimport/main.go:30-43 | -1 for a null result pointer, else the mathematical sum |
| Checksums.IterSumFitsIff | examples/extapi/rust_cimport/src/lib.rs:25 | The checked iterator sum fails if and only if the mathematical sum does not fit 64 bits |
| Checksums.SlowSumRust | examples/extapi/rust_cimport/src/lib.rs:19-27 | -1 for a null result pointer, else the mathematical sum, with no panic for any 32-bit length |
| MpscRing.RunInv | brokers/internal/mt_queue.nim:242-284 | Every interleaving of producers and the consumer keeps: each position in reach is free, claimed or published, with the payload of the call that claimed it |
| MpscRing.ClaimFindsFree | brokers/internal/mt_queue.nim:251-254 | A claim that wins finds its slot free, although position and sequence number were read earlier |
| RingRuns.EachItemOnceInOrder | brokers/internal/mt_queue.nim:242-284 | Items come out in claim order, none twice, none made up, none of a call that returned false; accepted ones wait published in their slots |
| RingRuns.EarlierCallsComeFirst | brokers/internal/mt_queue.nim:242-284 | A call that returned before another began is dequeued before it |
| RingRuns.FullMeansFull | brokers/internal/mt_queue.nim:264-267 | A producer is told full exactly when every slot was claimed and not freed as it read the slot |
| RingRuns.MissMeansNothingNext | brokers/internal/mt_queue.nim:275-280 | The consumer finds nothing if and only if nothing is claimed or the next call has not published |
| RingRuns.ReturnsFalseIff | brokers/internal/mt_queue.nim:242-268 | A call returns false exactly on the closed flag at its start or a sequence number of the round before; it claims exactly by an unhindered swap at its position and returns true exactly by publishing |
| RingRuns.RetiresIff | brokers/internal/mt_transport.nim:184-187 | The receiver retires exactly when it missed and then finds the flag set; on a ring not closed it looks again |
| RingRuns.NobodyClosesNobodyRetires | brokers/internal/mt_transport.nim:184-187 | On no run does the receiver retire without a close before |
| RingRuns.RetiresCleanlyIff | brokers/internal/mt_transport.nim:184-187 | Retiring on closed and empty loses no accepted item on any later schedule if and only if nothing is claimed and no producer past its closed check can still claim |
| RingRuns.ClosedAndEmptyIsNotEnough | brokers/internal/mt_transport.nim:185-187 | A run that ends closed and empty with a producer on its way |
| RingRuns.KeepsItemsIffTwoSlots | brokers/internal/mt_queue.nim:212-216 | The ring keeps what it accepts, on every run, if and only if its capacity is at least 2 |
| RingRuns.OneSlotLosesCalls | brokers/internal/mt_queue.nim:212-225 | With capacity 1 two calls in a row return true and nothing ever comes out again |
| FreeListRuns.EachIndexAtOnePlace | brokers/internal/mt_queue.nim:123-157 | In every interleaving each index is on one stack once, with one pushing thread, or handed out to one owner |
| FreeListRuns.SwapIsStackOperation | brokers/internal/mt_queue.nim:136-154 | A winning swap is push or pop of a plain stack whatever came between load and swap; a losing one changes nothing |
| FreeLists.RunInv | brokers/internal/mt_queue.nim:123-157 | Every run keeps: links lead through exactly the stack, and what a thread read is out of date by its tag or still true |
| FreeListRuns.PassesOverIffEmpty | brokers/internal/mt_queue.nim:147-149 | A pop passes over a shard if and only if it is empty at that moment |
| FreeListScans.EmptyAnswersTrueIff | brokers/internal/mt_queue.nim:139-157 | For every number of shards and indices: on every run from the start a pop that ends with nothing had a moment when nothing was free, if and only if there is one shard or at most one index |
| FreeListScans.OvertakenFromFresh | brokers/internal/mt_queue.nim:139-157 | With more, a run from the start in which the free index moves behind the scan |
| FreeListScans.NeverEndsWithNothing | brokers/internal/mt_queue.nim:143-149 | With one shard or index, something that stays free is never behind a scan |
| ResponseSlots.RunInv | brokers/internal/mt_queue.nim:583-770 | Every interleaving without a harmful late give-up keeps the table of who may do what under which control word, per generation |
| ResponseSlotRuns.ReleasedExactlyOnce | brokers/internal/mt_queue.nim:453-456 | The slot is free, being claimed or held by one request; no request releases it twice, and one both of whose sides are through has released it |
| ResponseSlotRuns.OneSideOwesTheRelease | brokers/internal/mt_queue.nim:700-739 | Until then one side is bound to release: the provider once the requester left, the requester once the provider is through |
| ResponseSlotRuns.WriterAndReaderAreAlone | brokers/internal/mt_queue.nim:616-650 | While response bytes are written or read nobody else writes or reads the slot |
| ResponseSlotRuns.ReadsItsOwnReply | brokers/internal/mt_request_broker.nim:1304-1325 | A requester reads what the provider answered to that very request |
| ResponseSlotRuns.StaleTouchesNothing | brokers/internal/mt_queue.nim:458-461 | Whoever acts with a past generation changes nothing of the slot |
| ResponseSlotRuns.PublishedIffStillWanted | brokers/internal/mt_queue.nim:637-650 | A commit publishes if and only if the requester has not given up; otherwise the provider has to release |
| ResponseSlotRuns.WinsIffUndecided | brokers/internal/mt_queue.nim:616-635 | The provider wins the slot for writing exactly when nobody has decided it, and is left with the release exactly when it was abandoned |
| ResponseSlotRuns.DecidedFromOutside | brokers/internal/mt_queue.nim:687-698 | A cancellation or a removal of the provider turns an undecided slot of that generation into an abandoned or provider-gone one, and does nothing to any other |
| ResponseSlotRuns.WaiterEnds | brokers/internal/mt_queue.nim:746-776 | After either the waiting requester can end at once; after a cancellation the provider's next step leaves it with the release, after a removal the requester is |
| ResponseSlotRuns.DecidedIsNeverAnswered | brokers/internal/mt_queue.nim:687-770 | A request so decided while it waited is never answered, on any later schedule |
| ResponseSlotRuns.ReadDelivers | brokers/internal/mt_request_broker.nim:1304-1325 | Reading delivers the bytes that request's provider published |
| ResponseSlotRuns.GivingUpEnds | brokers/internal/mt_queue.nim:714-733 | giveUpSlot's loop is over after at most five of its own steps and nothing others do prolongs it |
| ResponseSlots.EndingOnceIsSafe | brokers/internal/mt_request_broker.nim:1329-1345 | If every requester ends once, every give-up is harmless |
| ResponseSlotRuns.LateGiveUpHarmlessIff | brokers/internal/mt_request_broker.nim:1304-1326 | A give-up after the requester has ended keeps the slot at one place and released once on every later schedule, if and only if the slot then bears neither the response nor the provider's absence of that generation |
| ResponseSlotRuns.LateGiveUpHandsItOutTwice | brokers/internal/mt_request_broker.nim:1304-1345 | A run from a fresh slot in which the poller releases, the requester gives up after all, and two requests claim the slot |
| ResponseSlotRuns.WinnerHasToRelease | brokers/internal/mt_queue.nim:453-456 | A run in which the provider wins the slot for writing and has to release it |

## Left out

- StoragePlugin.Parking.ReleaseSlow: while the releaser runs, other threads reserve only behind it; the machine in ParkedCalls has every reservation. The scheduler is fair: an invoker that has reserved is let store after any finite number of tries.
- StoragePlugin.Parking.SpinOn: the same.
- StoragePlugin.Parking.DrainSlots: the same.
- StoragePlugin.Parking.Reserve: asks for a count below 2^31 - 1, beyond which the C counter would overflow.
- RawPlugins.KvGet: keys of more than 283 bytes, on which the C code writes behind its buffer; on a request without a key the C code passes an unset pointer with length 0 to memcpy; the model copies nothing.
- RawPlugins.FetchBlob: keys of more than 291 bytes, on which the C code writes behind its buffer.
- RawPlugins.EmitEvicted: the same beyond 292 bytes.
- CborLookup.Find: malformed maps, values of major types 4, 5 and 6, and lengths that do not fit the buffer; the scan does not step over them, or reads behind the buffer.
- CborLookup.FindString: the same.
- CborLookup.FindUint: the same.
- MpscRing.RunInv: positions are unbounded; the wrap of 64-bit positions is not modelled.
- FreeLists.RunInv: tags are unbounded; a tag that wraps 2^32 between a load and its swap is not modelled.
- ResponseSlots.RunInv: generations are unbounded; one held over 2^32 claims of its slot is not modelled. Heap-spilled responses, wakers and the cancel epoch are left out, and a request lost in a retired ring never reaches its provider.
- SlotRegistry.SlotTable.ReleaseSlot: the request lane's release; listeners are found by a handle that may be reused, which is not modelled.
- Undo bodies, apart from how often they suspend, when they release which slot and what they call on their scope; an undo that never returns.
- The payload slab's reference counts and spill buffers, the bucket registry's growth, ring leases, and signals.
- Chronos itself: futures, the lock's queue, cancellation plumbing. A scheduler, a lock and a join stand for them.
- Memory ordering below atomic steps, thread identities, logging, sleeps, and thread recording in the plugins other than kv_square and codec_crc.
- The parking array of the kv plugin, which is not atomic, and its release.
- The extension host, its ports and reply bookkeeping; the other plugins' operations, which add nothing harder.
- Configuration parsing, code generation, language bindings and examples.
