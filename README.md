# ExpireMap

A model of the expiring map of `com.colm.expiremap`. It is a map whose
entries are removed once a timeout given to `put` has elapsed, unless they
were removed explicitly first. The map keeps three structures side by side:
- the values by key (`valueMap`);
- the expiry token currently tracking each key (`expirableKeys`);
- a delay queue of the tokens (`expiryQueue`).

Expiry is lazy. Before `put` and `get` do their work, and after `remove`
kills a token, the map reaps the queue: it polls the head while the head is
due and deletes the polled token's key from both maps.

The model is sequential, and the clock is explicit. Every operation that
reads `System.currentTimeMillis()` in the source takes the current time
`now`, in milliseconds, as a parameter.

- `expirable_key.dfy` (module `ExpirableKeys`) models the token class
  `ExpirableKey`. It has a mutable `birth`, a fixed `lifeSpan` and `key`, and
  the operations `remainingLife`, `getDelay`, `die`, `compareTo`, `equals` and
  `hashCode`.
- `expire_map.dfy` (module `ExpireMaps`) models `ExpireMapImpl` as a class
  over those three fields. The queue is a sequence of token references. A
  reap is specified by a function on a snapshot of the three structures
  (`Reaped`), and the lemmas about that function state what a reap may and
  may not do.
- `scenarios.dfy` (module `ExpireMapScenarios`) holds single-threaded clients
  on fresh maps. Most of them state what the `ExpireMap` interface and the
  functional tests promise a client. `LiveHeadShieldsExpiredEntries`,
  `ZeroTimeoutRetrievableBehindLiveHead` and `StaleTokenEvictsNewerEntry`
  state where the code departs from those promises, and
  `NegativeTimeoutIgnored` states what the code does with a negative
  timeout. The sleeps of the tests become ranges of clock values in the
  preconditions.

How the code behaves, as the model shows it:
- `compareTo` reads the receiver's delay twice and never the operand's. So it
  returns 0 whenever both clock readings fall in the same millisecond, which
  is the only case the model, with one clock value per call, represents
  (`CompareToIgnoresOperand`). The delay queue therefore does not order
  tokens by remaining life, and a reap stops at the first token that is not
  due, whatever lies behind it. In the order test, `get("k3")`
  after 500 ms still finds "three" while "k1" is live at the head
  (`LiveHeadShieldsExpiredEntries`). The test asserts null for that lookup.
- A reap removes the polled token's key with no check of which token tracks
  that key now (`ReapEvictsByKeyOnly`). In the model's first-in first-out
  queue, a killed token from an earlier `put` of the same key therefore
  evicts the newer value before its own timeout once it reaches the head
  (`StaleTokenEvictsNewerEntry`). Whether the library's queue brings it to
  the head first depends on its internal order; see "## Left out".
- `put` accepts a zero timeout. Such a value is still found when a live
  entry sits at the head of the queue (`ZeroTimeoutRetrievableBehindLiveHead`).

## Model

| member | source | states |
|---|---|---|
| ExpirableKeys.WrapInt32 | src/main/java/com/colm/expiremap/ExpirableKey.java:81-85 | the result is a 32-bit `int`, congruent to the mathematical value modulo 2^32, and equal to it when that value is in range |
| ExpirableKeys.LongCompare | src/main/java/com/colm/expiremap/ExpirableKey.java:77 | the sign of the result is negative, zero or positive exactly when `x` is below, equal to or above `y` |
| ExpirableKeys.ExpirableKey.constructor | src/main/java/com/colm/expiremap/ExpirableKey.java:23-37 | the token has the given key and life span, is born at the current time, and has exactly its life span left |
| ExpirableKeys.ExpirableKey.RemainingLife | src/main/java/com/colm/expiremap/ExpirableKey.java:110-112 | the remaining life is zero or less exactly when birth plus life span has been reached; `RemainingLifeElapses` gives how it falls with time |
| ExpirableKeys.ExpirableKey.Equals | src/main/java/com/colm/expiremap/ExpirableKey.java:95-104 | defined as equality of keys; `EqualsIsKeyEquivalence` proves it an equivalence that ignores birth and life span |
| ExpirableKeys.ExpirableKey.GetDelay | src/main/java/com/colm/expiremap/ExpirableKey.java:47-49 | the delay is the remaining life, and it is zero or less exactly when birth plus life span has been reached |
| ExpirableKeys.ExpirableKey.Die | src/main/java/com/colm/expiremap/ExpirableKey.java:57-59 | birth moves to twice the life span before now; from now on the token is overdue by its life span plus the time elapsed, so a token with a non-negative life span is due |
| ExpirableKeys.ExpirableKey.CompareTo | src/main/java/com/colm/expiremap/ExpirableKey.java:71-78 | as written, both delays come from the receiver; with both read at the one clock value of the call, the result is 0 for any operand |
| ExpirableKeys.ExpirableKey.HashCode | src/main/java/com/colm/expiremap/ExpirableKey.java:81-85 | the hash is a 32-bit `int` congruent to `33 + hash(key)` modulo 2^32 |
| ExpirableKeys.RemainingLifeElapses | src/main/java/com/colm/expiremap/ExpirableKey.java:110-112 | remaining life falls by exactly the milliseconds that pass |
| ExpirableKeys.CompareToIgnoresOperand | src/main/java/com/colm/expiremap/ExpirableKey.java:61-78 | even when one token has strictly less life left, which the documentation says orders it first, the comparison gives 0 in both directions |
| ExpirableKeys.EqualsIsKeyEquivalence | src/main/java/com/colm/expiremap/ExpirableKey.java:95-104 | equality is reflexive, symmetric and transitive, and holds exactly when the keys are equal, whatever the births and life spans |
| ExpirableKeys.EqualTokensHashEqually | src/main/java/com/colm/expiremap/ExpirableKey.java:80-104 | equal tokens have equal hash codes |
| ExpireMaps.DropHead | src/main/java/com/colm/expiremap/ExpireMapImpl.java:70-71 | defined as one poll: the head leaves the queue and its key leaves both maps; `ReapedPollsDueHead` and `ReapEvictsByKeyOnly` state its use in a reap |
| ExpireMaps.Drain | src/main/java/com/colm/expiremap/ExpireMapImpl.java:67-76 | defined as polling and dropping the head while it is one of the given tokens; `DrainClosedForm` and `DrainRemovesOnlyDueKeys` state what it leaves |
| ExpireMaps.Reaped | src/main/java/com/colm/expiremap/ExpireMapImpl.java:67-76 | defined as draining the tokens due at `now`; `ReapedRemovesOnlyDueKeys`, `ReapedStopsAtLiveHead` and `ReapedPollsDueHead` state what a reap does |
| ExpireMaps.DueRun | src/main/java/com/colm/expiremap/ExpireMapImpl.java:68-69 | the number of polls is the length of the run of due tokens at the head: all of them are due and the next one, if any, is not |
| ExpireMaps.DrainConsistent | src/main/java/com/colm/expiremap/ExpireMapImpl.java:67-76 | a reap keeps the three structures consistent: same keys in both maps, each tracked token tracks its own key and is in the queue |
| ExpireMaps.DrainClosedForm | src/main/java/com/colm/expiremap/ExpireMapImpl.java:67-76 | a reap drops the due run at the head of the queue and removes the keys of those tokens from both maps, and does nothing else |
| ExpireMaps.DrainRemovesOnlyDueKeys | src/main/java/com/colm/expiremap/ExpireMapImpl.java:67-76 | a reap leaves a suffix of the queue, polls only due tokens, stops at a head that is not due, never adds or changes an entry, and removes only keys of polled tokens |
| ExpireMaps.DrainIgnoresTracking | src/main/java/com/colm/expiremap/ExpireMapImpl.java:36-41 | which token tracks a key plays no part in a reap, so re-tracking the key afterwards gives the same state |
| ExpireMaps.Install | src/main/java/com/colm/expiremap/ExpireMapImpl.java:40-43 | tracking a key by a new token at the back of the queue, with its value stored, keeps the structures consistent |
| ExpireMaps.ReapedRemovesOnlyDueKeys | src/main/java/com/colm/expiremap/ExpireMapImpl.java:67-76 | at a given time, a reap polls only tokens with no life left, stops at an empty queue or a live head, never adds or changes an entry, and removes only keys of polled tokens |
| ExpireMaps.DrainSeesOnlyQueue | src/main/java/com/colm/expiremap/ExpireMapImpl.java:68-69 | a reap looks only at the tokens in the queue and at whether each one is due |
| ExpireMaps.ReapedStopsAtLiveHead | src/main/java/com/colm/expiremap/ExpireMapImpl.java:68-69 | a reap whose queue is empty or whose head is live changes nothing |
| ExpireMaps.ReapedPollsDueHead | src/main/java/com/colm/expiremap/ExpireMapImpl.java:68-71 | a reap with a due head removes that head's key and goes on reaping the rest of the queue |
| ExpireMaps.ReapedIsIdempotent | src/main/java/com/colm/expiremap/ExpireMapImpl.java:67-76 | a second reap at the same time changes nothing |
| ExpireMaps.ReapEvictsByKeyOnly | src/main/java/com/colm/expiremap/ExpireMapImpl.java:70-71 | the key of any token in the due run at the head leaves both maps, even when a newer token tracks that key |
| ExpireMaps.ExpiredHeadIsEvicted | src/main/java/com/colm/expiremap/ExpireMapImpl.java:67-71 | the value of an entry whose token is due at the head of the queue is gone after a reap |
| ExpireMaps.ExpireMapImpl.constructor | src/main/java/com/colm/expiremap/ExpireMapImpl.java:20-26 | a new map has no values, no tracked keys and an empty queue, and is consistent |
| ExpireMaps.ExpireMapImpl.Poll | src/main/java/com/colm/expiremap/ExpireMapImpl.java:68-69 | the delay queue's poll returns and removes the head only when the head is due; otherwise it returns nothing and changes nothing |
| ExpireMaps.ExpireMapImpl.ClearOldKeysFromExpiryQueue | src/main/java/com/colm/expiremap/ExpireMapImpl.java:67-76 | the new state is the reap of the old one; the queue is left empty or with a live head, and it is a suffix of the old queue |
| ExpireMaps.ExpireMapImpl.ReplaceToken | src/main/java/com/colm/expiremap/ExpireMapImpl.java:36-41 | the key is tracked by the new token; a previous token is killed and the map is reaped; the state is that reap with the key tracked by the new token |
| ExpireMaps.ExpireMapImpl.TrackAndStore | src/main/java/com/colm/expiremap/ExpireMapImpl.java:36-43 | after re-tracking, the token is offered at the back of the queue and the value is stored under the key; consistency is kept |
| ExpireMaps.ExpireMapImpl.Put | src/main/java/com/colm/expiremap/ExpireMapImpl.java:29-44 | a negative timeout changes nothing; otherwise the map is reaped, a previous token is killed and the map is reaped again, then a new token born now with the timeout tracks the key at the back of the queue and the value replaces any old one; the old tracking token is left untouched when the timeout is negative or the first reap already removed the key |
| ExpireMaps.ExpireMapImpl.Get | src/main/java/com/colm/expiremap/ExpireMapImpl.java:46-50 | the map is reaped, then the value stored under the key is returned, or nothing when there is none |
| ExpireMaps.ExpireMapImpl.Remove | src/main/java/com/colm/expiremap/ExpireMapImpl.java:52-60 | the key leaves both maps; if it was tracked, its token is killed and the map is reaped, otherwise nothing else changes |
| ExpireMaps.ExpireMapImpl.Size | src/main/java/com/colm/expiremap/ExpireMapImpl.java:62-65 | the size is the number of values, which equals the number of tracked keys |
| ExpireMapScenarios.ZeroTimeoutNotRetrievable | src/test/java/com/colm/expiremap/ExpireMapFunctionalTest.java:17-18 | on a fresh map, a value put with a zero timeout is not found by any later lookup |
| ExpireMapScenarios.RetrievableWithinTimeout | src/test/java/com/colm/expiremap/ExpireMapFunctionalTest.java:20-22 | a value looked up before its timeout has elapsed is found |
| ExpireMapScenarios.NotRetrievableAfterTimeout | src/main/java/com/colm/expiremap/ExpireMap.java:19-20 | a value looked up once its timeout has elapsed is not found |
| ExpireMapScenarios.NegativeTimeoutIgnored | src/main/java/com/colm/expiremap/ExpireMapImpl.java:31-33 | a put with a negative timeout is ignored: the value put before it under the same key is still found |
| ExpireMapScenarios.OverwriteReplacesValue | src/test/java/com/colm/expiremap/ExpireMapFunctionalTest.java:30-43 | the first value is found, and after a second put under the same key the second value is found |
| ExpireMapScenarios.PutWithFallingTimeouts | src/test/java/com/colm/expiremap/ExpireMapFunctionalTest.java:48-50 | three puts at one time with falling timeouts store all three values, with the first put's token at the head |
| ExpireMapScenarios.LiveHeadShieldsExpiredEntries | src/test/java/com/colm/expiremap/ExpireMapFunctionalTest.java:46-55 | while the first entry is live, it is found, and so is the third after its own timeout, which the test expects to be gone |
| ExpireMapScenarios.RemovedNotRetrievable | src/test/java/com/colm/expiremap/ExpireMapFunctionalTest.java:58-67 | a removed key is not found by any later lookup |
| ExpireMapScenarios.ZeroTimeoutRetrievableBehindLiveHead | src/main/java/com/colm/expiremap/ExpireMapImpl.java:31-34 | a zero timeout is accepted, and the value is found while a live entry is at the head of the queue |
| ExpireMapScenarios.StaleTokenEvictsNewerEntry | src/main/java/com/colm/expiremap/ExpireMapImpl.java:36-43 | after a key is put twice, the killed first token evicts the second value while that value still has time left |

## Left out

- Concurrency: `ConcurrentHashMap` and the thread safety of `DelayQueue` are not modelled, and neither are the multi-threaded tests. Every operation runs alone.
- `WeakHashMap`: the token map is an ordinary map. Entries that the garbage collector would clear are not modelled.
- The queue's internal order: the delay queue is modelled as a first-in first-out sequence, with poll taking the head only when it is due. Because `compareTo` returns 0 within one millisecond, `offer` appends at the back in the source too. After a poll, however, `PriorityQueue` moves its last element to the root, and the model keeps the remaining order instead. The ordering of those library internals is not modelled.
- ExpireMapScenarios.StaleTokenEvictsNewerEntry: the eviction rests on the first-in first-out order after the poll of the head. With the library's queue, that poll moves the newer token to the root, and the reap stops there with the second value still found, unless the clock ticks inside a comparison and the killed token is sifted to the root.
- `TimeUnit`: `getDelay` is modelled in milliseconds only. The conversion to the nanoseconds the delay queue asks for preserves the sign, and the sign is all the queue uses.
- 64-bit `long` arithmetic: births, life spans and clock values are unbounded integers. The overflow of `lifeSpan * 2` in `die` and of `birth + lifeSpan` is not modelled.
- The clock: time is a parameter, read once per operation, and no operation requires it to be monotonic. The source reads the clock afresh in each poll, in the token's constructor (line 23 of `ExpirableKey.java`), in `die` and in each `getDelay`; two readings within one call that fall in different milliseconds are not modelled.
- ExpirableKeys.ExpirableKey.CompareTo: the result 0 assumes both delay readings see the same clock value. When the millisecond changes between them, `compareTo` in the source returns 1, and the model does not cover that case.
- Null handling: the null checks of `compareTo` and `equals`, and null keys and values, are not modelled, because Dafny references are never null. The `getClass` test in `equals` always holds, because tokens have a single class.
- `Key()`: modelled as reading the constant field `key`.
- Logging: the `doLogging` and `logger` fields and the line printed for each expired key are left out.
- The `ExpireMap` interface is not a separate type. Its documented contract is stated in the contracts of `ExpireMapImpl`'s methods and in the client scenarios.
- `put` is split into `ReplaceToken` and `TrackAndStore`, which model lines 36-43 of `ExpireMapImpl.java`, so that each part is proved separately.
- ExpireMaps.ExpireMapImpl.Size: the source returns a 32-bit `int` and the model returns an unbounded `nat`. A map larger than `Integer.MAX_VALUE` is not modelled.
