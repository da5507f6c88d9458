# Event-sourcing runtime, modelled in Dafny

This project models the core of a small Kotlin event-sourcing runtime and its
one worked instance:

- **Decider** (`Deciders`): a state machine given by an `initial` state, a
  total `apply` fold step and a `decide` rule that returns a non-empty list of
  events or a non-empty list of errors. `replay` folds `apply` over a stream and
  counts a version from -1. The `Update` helpers `accept`, `reject` and
  `fromValidated` build decisions.
- **In-memory event store** (`EventStore`, with the stable ordering in
  `VersionOrder`): a map from stream id to (event, version) entries. An append
  passes an optimistic-concurrency check against the stream's largest stored
  version. It then adds the new events at contiguous versions. A read returns
  the events ordered by version.
- **Command handler** (`CommandHandler`): one read, replay, decide, append
  cycle per command. `Run` handles commands one after another.
- **Accounting** (`Accounting`): the account decider. Its states are
  `Uninitialized` and `OnlineAccount(id, balance)`. It has three commands and
  three events, positivity rules and a no-overdraft rule.

Arrow's `NonEmptyList`, `Validated` and `Either` are plain datatypes
(`Functional`). The store is a value: an append returns the new map rather
than mutating a `var`. Amounts are `int`, since `BigDecimal` addition,
subtraction and comparison are exact.

Main results:
- `replay` equals a reference fold.
- Replay composes over concatenation.
- Every append preserves the store invariant. The invariant is that each
  stored stream is non-empty and has versions exactly 0..n-1.
- Reading back after an append gives the old events followed by the new ones.
- Of two appends at the same expected version, at most one wins.
- Starting from a well-formed store (the empty one included), the handler's
  append always passes the version check.
- End to end, any sequence of handled account commands, starting from a
  solvent, well-formed store, leaves every account with a non-negative balance.

The handler's `either { … }` block ends with the append's result, and Kotlin
coerces that block to `Unit`, so the store's `Either` is dropped and a store
error never reaches the caller. `Invoke` therefore reports success whenever
`decide` accepts. `InvokeAppendsAcceptedEvents` shows that this is harmless on
a well-formed store. `InvokeHidesStoreError` shows the error being swallowed on
a store whose versions have a gap.

## Model

| member | source | states |
|---|---|---|
| Deciders.FoldEvents | src/main/kotlin/Decider.kt:11-14 | the fold's version grows by exactly one per event folded |
| Deciders.FoldConcat | src/main/kotlin/Decider.kt:12-13 | folding `xs + ys` equals folding `ys` from where the fold of `xs` ended |
| Deciders.FoldIsStateAfter | src/main/kotlin/Decider.kt:12-13 | the left fold's state equals the reference state `StateAfter`, which applies events in list order |
| Deciders.Replay | src/main/kotlin/Decider.kt:11-14 | replay's state is the reference state from `initial`, so the `state` argument has no effect; its version is `|events| - 1`, which is -1 for an empty list |
| Deciders.ReplayConcat | src/main/kotlin/Decider.kt:12-13 | replaying `xs + ys` continues the replay of `xs` with `ys`; the state is `StateAfter` of `ys` from replay(xs)'s state, and the version grows by `|ys|` |
| Deciders.Accept | src/main/kotlin/Decider.kt:19-23 | `accept(e, es)` is `Valid` and its list is `e` followed by `es`, in order |
| Deciders.Reject | src/main/kotlin/Decider.kt:25-29 | `reject(err, errs)` is `Invalid` and its list is `err` followed by `errs`, in order |
| Deciders.FromValidated | src/main/kotlin/Decider.kt:31-34 | keeps the Valid/Invalid tag and its payload |
| VersionOrder.Insert | src/main/kotlin/InMemoryEventStore.kt:42 | inserting into a version-sorted sequence keeps it sorted and adds one entry |
| VersionOrder.SortByVersion | src/main/kotlin/InMemoryEventStore.kt:42 | `sortedBy { version }` returns a version-sorted sequence of the same length |
| VersionOrder.InsertIsStable | src/main/kotlin/InMemoryEventStore.kt:42 | inserting into a sorted sequence puts the new entry after every entry of its own version and leaves the other versions' entries as they were |
| VersionOrder.SortIsStable | src/main/kotlin/InMemoryEventStore.kt:42 | the sort is stable: for every version, the entries with that version keep their input order |
| VersionOrder.SortIsPermutation | src/main/kotlin/InMemoryEventStore.kt:42 | the sort is a permutation: the sorted entries are, as a multiset, exactly the input entries |
| VersionOrder.SortAppendAbove | src/main/kotlin/InMemoryEventStore.kt:42 | sorting entries followed by a sorted run whose versions are all at least every earlier version leaves that run, in order, after the sorted earlier entries |
| VersionOrder.SortOfSorted | src/main/kotlin/InMemoryEventStore.kt:42 | sorting an already sorted sequence returns it unchanged |
| EventStore.GetVersion | src/main/kotlin/InMemoryEventStore.kt:9 | `getVersion` is a stored version no smaller than any other; like `maxOf`, it needs a non-empty stream |
| EventStore.CheckVersion | src/main/kotlin/InMemoryEventStore.kt:16-28 | when the check passes, it returns the existing entries to extend, which are empty for an absent stream |
| EventStore.AppendToStream | src/main/kotlin/InMemoryEventStore.kt:11-39 | succeeds iff (present and max version == expected) or (absent and expected == -1); a failure leaves the map unchanged; a success adds `id` and lengthens its stream by the event count, and the set of stream ids becomes the old one plus `id`; other streams are unchanged |
| EventStore.ReadFromStream | src/main/kotlin/InMemoryEventStore.kt:41-42 | an absent id reads as empty; otherwise one event per stored entry |
| EventStore.VersionOfContiguous | src/main/kotlin/InMemoryEventStore.kt:9 | on a stream with versions 0..n-1, `getVersion` is `n - 1` |
| EventStore.AppendCreatesStream | src/main/kotlin/InMemoryEventStore.kt:18-37 | appending to an absent stream with expected -1 succeeds; the stream then holds exactly the new events at versions 0..k-1 |
| EventStore.AppendToMissingStream | src/main/kotlin/InMemoryEventStore.kt:18-23 | appending to an absent stream with any other expected version returns `AggregateNotFound(id)` and leaves the map unchanged |
| EventStore.AppendConflict | src/main/kotlin/InMemoryEventStore.kt:24-27 | appending to a present stream whose max version differs from expected returns `ConcurrencyError(expected, actual)` and leaves the map unchanged |
| EventStore.AppendAssignsVersions | src/main/kotlin/InMemoryEventStore.kt:30-37 | on success the old entries stay as a prefix and new event `i` is stored at version `expected + i + 1` (the `newEvents` numbering, `Numbered`) |
| EventStore.AppendSucceedsIff | src/main/kotlin/InMemoryEventStore.kt:16-28 | on a well-formed store an append succeeds exactly when it expects `|stream| - 1` |
| EventStore.AppendExtendsContiguous | src/main/kotlin/InMemoryEventStore.kt:30-37 | a successful append at `|stream| - 1` leaves a longer stream whose versions are still 0..n-1 |
| EventStore.AppendPreservesWellFormed | src/main/kotlin/InMemoryEventStore.kt:11-39 | store invariant: every stream non-empty with versions 0..n-1, preserved by every append |
| EventStore.ReadInInsertionOrder | src/main/kotlin/InMemoryEventStore.kt:41-42 | on a contiguous stream, ordering by version is insertion order |
| EventStore.AppendedStream | src/main/kotlin/InMemoryEventStore.kt:30-37 | a successful append leaves the old entries followed by the numbered new ones |
| EventStore.ReadAfterAppend | src/main/kotlin/InMemoryEventStore.kt:30-42 | round trip, on any store: after a successful append, `read(id)` equals the earlier `read(id)` followed by the appended events, because they are numbered above every stored version |
| EventStore.AppendAbove | src/main/kotlin/InMemoryEventStore.kt:25-33 | when an append passes the check, every stored version is at most the expected one and the new entries are numbered `expected + 1`, `expected + 2`, … in order |
| EventStore.VersionAfterAppend | src/main/kotlin/InMemoryEventStore.kt:25-37 | on any store, after a successful append the stream's version is `expected + k` for `k` appended events |
| EventStore.AppendBehind | src/main/kotlin/InMemoryEventStore.kt:25-27 | an append that expects a version `k > 0` below the stream's version returns `ConcurrencyError(expected, expected + k)` |
| EventStore.AtMostOneWriterWins | src/main/kotlin/InMemoryEventStore.kt:16-37 | on any store, if one append wins, a second append at the same expected version gets `ConcurrencyError(expected, expected + k)` |
| CommandHandler.Invoke | src/main/kotlin/CommandHandler.kt:11-17 | replays the stream read for `id` from `initial`; a rejection returns exactly the decider's errors and writes nothing; an acceptance appends at replay version `|stream| - 1` and reports success |
| CommandHandler.InvokeAppendsAcceptedEvents | src/main/kotlin/CommandHandler.kt:13-16 | on a well-formed store the handler's append passes the version check, the stream grows by exactly the accepted events, other streams are untouched and the store stays well-formed |
| CommandHandler.InvokeKeepsOtherStreams | src/main/kotlin/CommandHandler.kt:13-16 | handling a command on one stream leaves every other stream's stored entries, and so its replayed state and version, unchanged |
| CommandHandler.RejectionWritesNothing | src/main/kotlin/CommandHandler.kt:15 | a rejected command returns its errors and leaves the store unchanged |
| CommandHandler.InvokeHidesStoreError | src/main/kotlin/CommandHandler.kt:11-17 | the append's `Either` is not bound: when a gap in the versions makes the append fail, the handler still returns success and writes nothing |
| CommandHandler.InvokeGrowsStore | src/main/kotlin/CommandHandler.kt:13-16 | one handled command keeps the store well-formed and never removes a stream or rewrites its stored entries: each old stream is a prefix of its new one |
| CommandHandler.Run | src/main/kotlin/CommandHandler.kt:11-17 | handling commands one after another keeps the store well-formed and append-only: every stream that existed is still present and its old entries are a prefix of its new ones |
| Accounting.Apply | src/main/kotlin/Accounting.kt:33-45 | `Uninitialized` becomes `OnlineAccount(id, 0)` only on `OnlineAccountCreated(id)`; an open account keeps its id and moves its balance by +deposit or -withdrawal; every other pair leaves the state unchanged |
| Accounting.HandleCreation | src/main/kotlin/Accounting.kt:55-56 | creation accepts exactly `[OnlineAccountCreated(id)]` |
| Accounting.DecideOnlineAccount | src/main/kotlin/Accounting.kt:58-73 | on an open account it accepts exactly positive deposits and positive non-overdrawing withdrawals, each with exactly one event: `DepositMade(id, amount)` for a deposit, `MoneyWithdrawn(id, amount)` for a withdrawal |
| Accounting.Decide | src/main/kotlin/Accounting.kt:47-52 | accepts exactly the permitted (command, state) pairs, each with one event that takes the state to the intended one (`OnlineAccountCreated(id)`, `DepositMade(id, amount)` or `MoneyWithdrawn(id, amount)` for the matching command); every rejection carries one error |
| Accounting.AccountDeciderParts | src/main/kotlin/Accounting.kt:27-53 | the accounting decider starts from `Uninitialized` (non-negative, and unchanged by an empty replay) and uses `Apply` and `Decide` as its `apply` and `decide` |
| Accounting.DecideRejections | src/main/kotlin/Accounting.kt:47-73 | gives the error for each refusal: "deposit amount must be positive", "withdrawal amount must be positive", "overdraft not allowed", or invalid operation for a wrong command/state pair |
| Accounting.DecidePreservesNonNegative | src/main/kotlin/Accounting.kt:38-70 | balance invariant: from a balance >= 0, applying the events of an accepted command gives a balance >= 0 |
| Accounting.InvokePreservesSolvent | src/main/kotlin/Accounting.kt:38-70 | on any store where `getVersion` is defined for `id`, one handled account command keeps a solvent store solvent: every stored account's replayed balance stays non-negative |
| Accounting.RunPreservesSolvent | src/main/kotlin/Accounting.kt:38-70 | any sequence of handled account commands keeps every account's replayed balance non-negative |
| Accounting.CreateOnEmptyStore | src/main/kotlin/Accounting.kt:30-36 | creating an account on an empty store succeeds and replays to `OnlineAccount(id, 0)` at version 0 |
| Accounting.DecisionScenarios | src/main/kotlin/Accounting.kt:63-72 | deposit -5 is refused as non-positive; withdrawing 500 from 1000 leaves 500; withdrawing 501 from 500 is an overdraft; a deposit before creation is an invalid operation |

## Left out

- `src/main/kotlin/Main.kt`: a console demo. It refers to names that the other files do not define, so there is nothing coherent to model.
- Concurrency: the Kotlin store mutates an unlocked `var`. Appends are modelled only as sequential state transitions. At-most-one-writer is stated for two appends in sequence, not for interleaved ones.
- Kotlin coroutines (`suspend`) and Arrow's `either { }` / `bind`: replaced by plain functions over the datatypes in `Functional`.
- The stream id is a plain `string`. `UUID.randomUUID` and UUID-to-string conversion are left out, and `id.toString()` is the identity.
- `BigDecimal` scale and precision: amounts are `int`.
- 64-bit `Long` wrap-around of versions (`version + 1`, `expectedVersion + index + 1`): integers are unbounded.
- The text of the interpolated "invalid operation … on current state …" messages: kept abstract as `InvalidOperation(command, state)`. Only the three fixed messages are compared literally.
- `EventStore.AppendToStream`: when the stream is absent and `expectedVersion == -1`, the source first stores an empty list under `id` and then overwrites it in the same call. Only the final map is modelled.
- `EventStore.GetVersion`: `maxOf` throws on an empty stream. This is modelled as a precondition, and `CommandHandler.Invoke` requires it only when the append is reached.
- The `EventStore` interface: only its in-memory implementation is modelled. Other backends are outside the model.
