# Verified model of goddd's stateful parts

This project models, in Dafny 4.11, the small stateful algorithms and step protocols of the goddd
service template, and proves what they promise:

- **Empty-directory removal** (`DirWalk.dfy`, `EmptyDirs.dfy`): the counting walk over a tree and the
  worklist over a map in arbitrary order. The final tree is one function of the first one, whatever
  the order; in every intermediate state each count is the number of surviving entries.
- **The map with expiry**, once for one caller at a time (`TTLMaps.dfy`, against an ideal map of
  values and deadlines) and once for any number of threads, each inner call a step of its own
  (`ConcurrentTTL.dfy`). On top of it stand the rate limiter (`RateLimiters.dfy`), the throttle on
  extending a token (`Throttle.dfy`), and the token cache.
- **The token cache**: records, keys and the JSON image of times (`Tokens.dfy`), the token table
  (`TokenTable.dfy`), the cached store (`TokenCache.dfy`), coherence over every run and the check of
  a token (`TokenCoherence.dfy`), the same cache under any interleaving (`ConcurrentTokens.dfy`), and
  when a removal is final there (`ConcurrentDeletes.dfy`, `ConcurrentRuns.dfy`). `TokenVerdicts.dfy`
  says for each call which tokens it touches, and that all others are read as before.
- **The configuration watcher** (`ConfigWatcher.dfy`): polling against a file that the environment
  writes at any moment.
- **The event stream**: its text and the standard reader of that text, from sections 9.2.5 and 9.2.6
  of the HTML Living Standard (`SseFraming.dfy`, `SseExact.dfy`), the protocol between publishers,
  closers and the server (`SseProtocol.dfy`), and the conflating sender (`Chunks.dfy`).
- **Version comparison and the start of the program** (`Versions.dfy`, `Startup.dfy`): string order
  on padded components as version order, and the migration protocol with a crash between any two
  steps.
- **The ring buffer** (`CirQueue.dfy`), on byte-sized counters.

What the source does step by step is a method on the same state here, and its `ensures` equates the
new state with a function of the old one; the lemmas are about those functions. Clocks, failures and
the answers of callbacks are parameters or free choices. Protocols are transition systems, and their
theorems range over every sequence of states.

Where a promise does not hold of the code, the code is kept and the project proves when it does:

- The time filter of `RemoveEmptyDirs` does not spare a directory out of the range: it is not counted
  by its parent and goes with it, and so do its files. `SkippedDirLostIff` and `FileLostIff` give the
  exact conditions and `SkippedDirIsLost` an instance.
- `LoadOrStore` revives an expired value that no sweep has removed.
  `AnswersIdealIffNothingRevived` says that this is the only departure from the ideal map.
- The throttle's gate opens at a sweep, not after ten minutes (`UpdatesIffSwept`).
- An update that changes the hash, or a delete of several rows, lets a read return a row that the
  table no longer has, exactly as long as a read can still find the entry of the old hash
  (`UpdateCoherentIff`, `DeleteCoherentIff`; runs that get there are in `UpdateLeavesStaleEntry` and
  `DeleteLeavesStaleEntry`).
- With concurrent callers a removal is not final when its eviction is done: a call that read the row
  before can put it back into the cache for another ttl (`RemovedRowIsReadBack`). `RemovalFinalIff`
  says exactly in which states this can still happen.
- Expiring a user's tokens does not stop them from being accepted; it only changes what a later
  refusal says (`ExpireKeepsAccepting`).
- A poll of the configuration watcher takes the modification time before it reads, so one failed read
  loses the update until the next write. `ServedIff` gives the exact condition and
  `FailedReadLosesUpdate` an instance.
- The comment on `Close` says that every event is sent. When serving ends, every accepted event has
  been sent exactly if the server drained the closed channel, or was cancelled with an empty buffer
  (`EndedDeliveredIff`). Afterwards a publisher goes on exactly while there is room
  (`SenderGoesOnIff`, `AcceptedAfterEnd`); one that finds none holds the mutex for good, and no close
  completes (`StuckForGood`). Such a state can be reached with every capacity (`StuckIsReachable`).
- An event survives the event stream exactly when it has data, no line end, and no NUL in its id
  (`RoundTripsIff`).
- String order is version order only in part. `RightlyOrderedIff` says exactly for which pairs: the
  texts have one length and, where the versions first differ, the components have one width or the
  first digits of the wider one show that it is the larger. Texts of different lengths are each newer
  than the other (`DifferentLengths`); 999.1000 counts as newer than 1000.999
  (`OneLengthBreaksTheOrder`).

## Model

| member | source | states |
|---|---|---|
| `DirWalk.CountedMatches` | pkg/system/dir.go:105-116 | for an entry that is not skipped, the callback leaves each key's count equal to the number of counted entries under it, plus the guard on the root's parent |
| `DirWalk.Walk` | pkg/system/dir.go:101-118 | the walk counts exactly the entries that no out-of-range directory hides, in any order of names, and fails exactly when an entry that it reaches cannot be read |
| `DirWalk.WalkEntries` | pkg/system/dir.go:101-118 | the same for the entries of one directory |
| `DirWalk.VisitedIff` | pkg/system/dir.go:105-116 | an entry is counted exactly when neither it nor a directory above it, below the root, is dated before the start or after the end |
| `DirWalk.ReadableIff` | pkg/system/dir.go:101-121 | the walk succeeds exactly when every unreadable entry lies below a directory dated before the start or after the end |
| `EmptyDirs.Disk.RemoveAll` | pkg/system/dir.go:133-135 | removes a directory with all below it; on a failure some part of that is left behind, and nothing else is touched |
| `EmptyDirs.RemoveZero` | pkg/system/dir.go:130-141 | removing a zero-count directory keeps every count equal to its surviving entries, drops one key and creates none |
| `EmptyDirs.Pass` | pkg/system/dir.go:128-143 | a pass that changed something has fewer keys; one that changed nothing saw no zero count |
| `EmptyDirs.Settle` | pkg/system/dir.go:123-148 | passes until one changes nothing; it stops before the pass at which the context is cancelled, and at a removable directory that cannot be removed |
| `EmptyDirs.RemoveEmptyDirs` | pkg/system/dir.go:96-149 | the call terminates; when done the tree is a fixed function of the first one; it stops exactly in the walk, at a removable directory that cannot be removed, or before the pass at which it is cancelled, and then the counts still match; what is kept is kept under every outcome |
| `EmptyDirs.InitialInv` | pkg/system/dir.go:98-118 | the counts after the walk satisfy the invariant of the worklist |
| `EmptyDirs.StepKeepsInv` | pkg/system/dir.go:129-141 | each removal keeps it: counts are surviving entries plus the guard, every parent of a survivor has its key, all that is missing lies under a removable directory |
| `EmptyDirs.RunsRemoveOnlyEmptyDirs` | pkg/system/dir.go:123-148 | in every state of every run, with every directory in the time range: a removed directory is already empty, its parent's key is there with a positive count, and no file is lost |
| `EmptyDirs.SettledIsSwept` | pkg/system/dir.go:123-147 | with no zero count left, the tree is the same whatever the order of removals |
| `EmptyDirs.CleanSweep` | pkg/system/dir.go:96-149 | with every directory below the root dated from the start to the end, what goes is exactly the directories below the root with no file below them, and the root if it had an entry, no file, and a parent other than itself |
| `EmptyDirs.OutOfRangeGoesWithParent` | pkg/system/dir.go:105-110 | a directory dated before the start or after the end, with all that it holds, stays exactly when its parent stays |
| `EmptyDirs.SkippedDirLostIff` | pkg/system/dir.go:105-116 | a directory out of the time range goes exactly when its parent is removable |
| `EmptyDirs.FileLostIff` | pkg/system/dir.go:105-116 | a file is lost exactly when it lies in a skipped directory whose parent is removable |
| `EmptyDirs.SkippedDirIsLost` | pkg/system/dir.go:108-110 | a parent that holds only a skipped directory is removed with it |
| `TTLMaps.TTLMap.Store` | pkg/conc/ttl_map.go:88-91 | the value and its deadline are set, all else stays |
| `TTLMaps.TTLMap.Load` | pkg/conc/ttl_map.go:94-106 | a value up to its deadline; past it the key is removed from both maps |
| `TTLMaps.TTLMap.LoadOrStore` | pkg/conc/ttl_map.go:109-112 | the deadline is renewed in any case, the value only set if there was none |
| `TTLMaps.TTLMap.Delete` | pkg/conc/ttl_map.go:115-118 | the key leaves both maps |
| `TTLMaps.TTLMap.Clear` | pkg/conc/ttl_map.go:131-134 | key by key, both maps end up empty |
| `TTLMaps.TTLMap.Sweep` | pkg/conc/ttl_map.go:74-83 | in any order, exactly the keys past their deadlines leave both maps |
| `TTLMaps.AnswersIdealIffNothingRevived` | pkg/conc/ttl_map.go:64-134 | over every run on a clock that does not go back, all answers are those of the ideal map of values and deadlines if and only if no LoadOrStore meets an expired, unswept value |
| `TTLMaps.SweepsUnobservable` | pkg/conc/ttl_map.go:64-86 | runs that differ only in their sweeps give the same answers, if nothing is revived |
| `TTLMaps.NoLoadOrStoreNothingRevived` | pkg/conc/ttl_map.go:88-134 | a run of Store, Load, Delete, Clear and sweeps revives nothing |
| `TTLMaps.SweepObservable` | pkg/conc/ttl_map.go:109-112 | with LoadOrStore a sweep can be seen |
| `TTLMaps.ExpiredLoadRemoves` | pkg/conc/ttl_map.go:94-106 | a load of an expired value removes it, so that no LoadOrStore can revive it |
| `TTLMaps.RunsKeepKeys` | pkg/conc/ttl_map.go:9-14 | after any run the two maps have the same keys |
| `RateLimiters.Limiter.Allow` | pkg/web/limiter.go:70 | the standard token bucket: level by elapsed time up to the burst, one token for each pass |
| `RateLimiters.IDRateLimiter.constructor` | pkg/web/limiter.go:59-64 | a zero ttl becomes three minutes |
| `RateLimiters.IDRateLimiter.Allow` | pkg/web/limiter.go:65-71 | one load, a load-or-store if it missed, and a draw on that identifier's own limiter |
| `RateLimiters.RateBound` | pkg/web/limiter.go:59-71 | in any window of any run an identifier passes at most rate times width plus burst times (width over ttl, rounded down, plus two) |
| `RateLimiters.FirstBurstPasses` | pkg/web/limiter.go:59-71 | as many requests as the burst allows pass, however close together |
| `RateLimiters.IdleRefills` | pkg/web/limiter.go:70 | after an idle time in which n tokens flow in, n requests pass, up to the burst, whatever came before |
| `RateLimiters.SpacedPass` | pkg/web/limiter.go:59-71 | requests of an identifier that keep to the rate all pass |
| `RateLimiters.FreshAfterTtl` | pkg/web/limiter.go:66-69 | a ttl after an identifier's bucket was made it has a whole burst again, however the bucket was used |
| `RateLimiters.HitsDoNotProlong` | pkg/web/limiter.go:66-69 | a hit leaves the deadline where it was |
| `Throttle.Core.DelayToken` | domain/token/bz.go:13-19 | the row is extended exactly when the token has no entry, and otherwise nothing is written and no error comes back; the entry is renewed in any case |
| `Throttle.Core.DelayTokenNow` | domain/token/bz.go:22-28 | the row with the token's hash gets the new expiry, in the table and in the cache; without such a row nothing changes; an error comes back exactly if the row cannot be read, or is there and cannot be saved |
| `Throttle.ExtendedIsAccepted` | domain/token/bz.go:22-53 | an extension changes the expiry and the time of the last update of that row and nothing else, and keeps the cache coherent; the token is then accepted exactly up to the new expiry, cut to its second while the entry is cached |
| `Throttle.UpdatesIffSwept` | domain/token/bz.go:13-19 | a later call updates exactly when a sweep came after the deadline that the previous call set |
| `Throttle.FirstCallUpdates` | domain/token/bz.go:13-19 | the first call for a token updates |
| `Throttle.CloseCallIsSuppressed` | domain/token/bz.go:13-19 | a call within ten minutes of the previous one, updated or suppressed, does not update |
| `Throttle.UpdatesAreApart` | domain/token/bz.go:13-19 | two updates are more than ten minutes apart |
| `Throttle.ChainUpdatesOnce` | domain/token/bz.go:13-19 | an unbroken chain of close calls updates only at its first call |
| `Throttle.UpdateCount` | domain/token/bz.go:13-19 | in a span of time there are at most as many updates as ten-minute spans fit, and one |
| `Throttle.UnsweptCallIsSuppressed` | pkg/conc/ttl_map.go:109-112 | without a sweep even an hour does not open the gate |
| `ConcurrentTTL.StepKeepsInv` | pkg/conc/ttl_map.go:64-134 | every step of every thread keeps the order of writes: a value is never older than the value write of the Store that set the deadline |
| `ConcurrentTTL.BehaviourHistory` | pkg/conc/ttl_map.go:88-106 | every value and deadline in the maps or in a thread's hands comes from a Store of the behaviour |
| `ConcurrentTTL.LoadedValueIsFresh` | pkg/conc/ttl_map.go:64-106 | under every interleaving, a loaded value was written no earlier than the value write of the Store whose deadline passed the check, and its age is at most the ttl plus that Store's time from write to clock |
| `ConcurrentTTL.OnlyExpiredDropped` | pkg/conc/ttl_map.go:64-134 | under every interleaving a value or a deadline leaves the map only by a Delete or a Clear, or when a deadline of its key has passed |
| `ConcurrentTTL.RemovalIsDone` | pkg/conc/ttl_map.go:74-134 | a Delete, or the removal of an expired key by a sweep or a load, leaves the key out of both maps if nobody stores it in the meantime |
| `Tokens.TimeImageTruncates` | pkg/orm/time.go:20-48 | through JSON a time loses less than a second and never gains; times up to the end of year one become zero |
| `Tokens.ImageKeeps` | pkg/conc/ttl_cache.go:67-85 | a hit is the stored record in everything but the fractions of its times |
| `Tokens.HexRoundTrip` | domain/token/token.model.go:29-31 | the hexadecimal text of a hash determines it, and is empty only for an empty hash |
| `Tokens.CacheKeyInjective` | domain/token/store/tokencache/token.go:43-45 | different hashes have different cache keys |
| `TokenTable.TokenDB.Get` | pkg/orm/update.go:99-107 | the first selected row by primary key, or not found, unless the database fails |
| `TokenTable.FirstIsLowest` | pkg/orm/update.go:99-107 | the row found has the lowest key of those that meet the options and have the key of the model, if it has one |
| `TokenTable.TokenDB.Create` | domain/token/store/tokendb/token.go:52-54 | one new row under its primary key, unless the database fails |
| `TokenTable.TokenDB.Update` | pkg/orm/update.go:131-148 | the first selected row is changed, stamped with the time of the update, and saved under the primary key that it has then, all in one |
| `TokenTable.TokenDB.Delete` | pkg/orm/update.go:199-208 | unless the database fails, every selected row goes and one of them is returned |
| `TokenTable.TokenDB.Expire` | domain/token/store/tokendb/token.go:21-34 | the user's rows of the scope that have not expired get the reason and the time of the update; their hashes are returned |
| `TokenTable.TokenDB.DeleteAllForUser` | domain/token/store/tokendb/token.go:84-97 | the user's rows of the scope go; their hashes are returned |
| `TokenTable.TokenDB.DeleteExpired` | domain/token/store/tokendb/token.go:100-113 | the rows expired before the moment go; their hashes are returned |
| `TokenTable.TokenDB.ReturnHashes` | domain/token/store/tokendb/token.go:29-33 | the hexadecimal hashes of exactly the returned rows |
| `TokenCache.TTLCache.Set` | pkg/conc/ttl_cache.go:37-39 | stores the record for the cache's ttl |
| `TokenCache.TTLCache.Get` | pkg/conc/ttl_cache.go:47-86 | a hit is the JSON image of the stored record |
| `TokenCache.TTLCache.SetNX` | pkg/conc/ttl_cache.go:89-95 | stores only if the load found nothing live |
| `TokenCache.SetNXKeepsLive` | pkg/conc/ttl_cache.go:89-95 | on a live entry neither value nor deadline changes |
| `TokenCache.Store.Get` | domain/token/store/tokencache/token.go:67-79 | a hit by the model's own hash, otherwise the table's row, which then fills the cache under the row's hash |
| `TokenCache.Store.Create` | domain/token/store/tokencache/token.go:82-88 | the row and its entry are set together, or nothing is |
| `TokenCache.Store.Update` | domain/token/store/tokencache/token.go:91-97 | the changed row and its entry are set together, or nothing is |
| `TokenCache.Store.Delete` | domain/token/store/tokencache/token.go:100-106 | the selected rows go, and the entry of the one returned into the model |
| `TokenCache.Store.Expire` | domain/token/store/tokencache/token.go:20-29 | the rows get the reason and all their entries go |
| `TokenCache.Store.DeleteAllForUser` | domain/token/store/tokencache/token.go:32-41 | the rows and all their entries go |
| `TokenCache.Store.DeleteExpired` | domain/token/store/tokencache/token.go:48-57 | the rows and all their entries go |
| `TokenCache.Store.Evict` | domain/token/store/tokencache/token.go:37-39 | the loop removes exactly the entries of the returned hashes |
| `TokenCoherence.CallKeepsCoherent` | domain/token/store/tokencache/token.go:20-106 | each call keeps every entry equal to the table's current row for its hash, if new hashes are new, updates keep the key and the hash and a delete removes one row at most |
| `TokenCoherence.RunKeepsCoherent` | domain/token/store/tokencache/token.go:20-106 | so does any sequence of calls |
| `TokenCoherence.CacheAnswersFromTable` | domain/token/store/tokencache/token.go:20-106 | after any such run from an empty cache, a hash without a row is not cached, and a hit is the current row |
| `TokenCoherence.RunIsLiveCoherent` | domain/token/store/tokencache/token.go:20-106 | after any such run, whatever a read can return at any moment is a current row |
| `TokenCoherence.UpdateCoherentIff` | domain/token/store/tokencache/token.go:91-97 | after an update every entry that a read can return at a moment is a current row exactly when the update kept the hash or no read can find the old hash's entry at that moment |
| `TokenCoherence.DeleteCoherentIff` | domain/token/store/tokencache/token.go:100-106 | after a delete, exactly when no read can find the entry of a removed row other than the returned one |
| `TokenCoherence.UpdateLeavesStaleEntry` | domain/token/store/tokencache/token.go:82-97 | a token is created and its hash changed: until the ttl is over a read by the old hash succeeds, though the table has no such row |
| `TokenCoherence.DeleteLeavesStaleEntry` | domain/token/store/tokencache/token.go:82-106 | two tokens are created and deleted in one call: until the ttl is over a read still finds one of them |
| `TokenCoherence.GetAgrees` | domain/token/store/tokencache/token.go:67-79 | a read through the cache finds a row exactly when the table does: that row or its image |
| `TokenCoherence.MissFillsCache` | domain/token/store/tokencache/token.go:74-78 | a read that missed makes the row a hit until the ttl is over |
| `TokenCoherence.NoHashNoHit` | domain/token/store/tokencache/token.go:67-76 | without a hash in the model a read asks the table, whatever is cached |
| `TokenCoherence.TableReadFillsCache` | domain/token/store/tokencache/token.go:74-78 | whatever selected it, a row read from the table is cached under its own hash |
| `TokenCoherence.WriteIsReadBack` | domain/token/store/tokencache/token.go:82-97 | a written record is read back at once: its image until the ttl is over, and then the row |
| `TokenCoherence.Core.Valid` | domain/token/bz.go:36-53 | a database error exactly if nothing live is cached under the hash and the read fails; otherwise the verdict on the record that the store returns, with the row's reason if it has one |
| `TokenCoherence.ValidThroughCache` | domain/token/bz.go:36-53 | through the cache only tokens are accepted that the table accepts, a refusal comes less than a second early at worst, and with the same message |
| `TokenCoherence.ExpireKeepsAccepting` | domain/token/store/tokencache/token.go:20-29 | after an expiry a token is accepted exactly as long as before, and refused with the reason given |
| `TokenVerdicts.DeleteAllForUserVerdicts` | domain/token/store/tokendb/token.go:84-97 | afterwards the tokens of that user in that scope are refused, and every other token is read as before |
| `TokenVerdicts.DeleteExpiredVerdicts` | domain/token/store/tokendb/token.go:100-113 | the tokens expired before the moment are unknown afterwards, every other is read as before, and no acceptance changes if the moment is not to come |
| `TokenVerdicts.ExpireVerdicts` | domain/token/store/tokendb/token.go:21-34 | the unexpired tokens of that user in that scope get the reason and stay accepted up to their expiry; every other token is read as before |
| `TokenVerdicts.DeleteVerdicts` | domain/token/store/tokencache/token.go:100-106 | a token deleted by its hash is refused afterwards, and every other is read as before |
| `TokenVerdicts.WriteKeepsOthers` | domain/token/store/tokencache/token.go:82-97 | writing one token leaves all others as they were |
| `TokenVerdicts.UpdateSaves` | pkg/orm/update.go:131-148 | an update saves what the change makes of the row, stamped, under the key that this has, or under a new one if it has none |
| `ConcurrentTokens.StepKeepsInv` | domain/token/store/tokencache/token.go:67-106 | under every step, every copy in the cache or in a caller's hands was once the row for its hash, under its own key |
| `ConcurrentTokens.CopyInFlight` | domain/token/store/tokencache/token.go:67-97 | a thread that is about to publish a copy took it at its own statement on the table and has held it ever since |
| `ConcurrentTokens.HitWasRow` | domain/token/store/tokencache/token.go:67-106 | under every interleaving, a hit is the row that the table had at the statement of the call that wrote the value, no earlier than the check minus the ttl, minus the time of that call from statement to write, minus the time of the call that set the deadline from its write to its reading of the clock |
| `ConcurrentTokens.HitIsRecent` | domain/token/store/tokencache/token.go:67-106 | so if neither takes longer than a given time, the row was current no longer ago than the ttl and twice that time |
| `ConcurrentTokens.OnlySetsAndMissesDate` | pkg/conc/ttl_cache.go:37-39 | a key gets a new deadline only from a Set under that key, or from a SetNX whose own load of it missed because there was a moment in the call at which the key had no live entry |
| `ConcurrentTokens.HitEndsTheCall` | pkg/conc/ttl_cache.go:89-95 | after a hit neither a Get nor a SetNX changes cache or table |
| `ConcurrentDeletes.StaysSettled` | domain/token/store/tokencache/token.go:32-106 | once a row is out of the table and of the map and no call has yet to write it, it stays so as long as it is not written to the table again, and no Get returns it |
| `ConcurrentDeletes.PendingIsReadBack` | domain/token/store/tokencache/token.go:67-97 | from every reached state in which a call has yet to write the row, that call puts it back and a Get returns it at any moment up to the ttl, with the table untouched |
| `ConcurrentDeletes.RemovalFinalIff` | domain/token/store/tokencache/token.go:32-106 | so a row that is out of the table and of the map can come back exactly if such a call is under way |
| `ConcurrentDeletes.RemovedRowIsReadBack` | domain/token/store/tokencache/token.go:67-106 | a run in which a Get reads the row, a delete removes it and evicts its key, and the Get then puts it back |
| `ConcurrentRuns.WrittenRowIsRead` | domain/token/store/tokencache/token.go:82-97 | from every reached state a thread can write a row and publish it, and a Get returns it at any moment up to the ttl |
| `ConcurrentRuns.SweepDropsExpired` | pkg/conc/ttl_map.go:64-86 | from every reached state a sweep can drop an entry whose deadline has passed, and nothing else |
| `ConfigWatcher.WatchConfig` | internal/conf/watcher.go:17-88 | with an empty path, or a file that is missing at the start, nothing is watched; otherwise, after any number of polls and whatever the callbacks do, the last modification time and the whole configuration are a function of the file's history |
| `ConfigWatcher.Ask` | internal/conf/watcher.go:71-81 | the callbacks act on both configurations in turn, until one refuses |
| `ConfigWatcher.ReactSplits` | internal/conf/watcher.go:71-81 | the callbacks after one that refuses are not called, the others act on what those before have left |
| `ConfigWatcher.NoLostUpdate` | internal/conf/watcher.go:24-86 | with callbacks that only look, whenever the file has the modification time last taken, its content is in force, does not parse, was refused by a callback, or could not be read |
| `ConfigWatcher.BodyIsOneAccepted` | internal/conf/watcher.go:65-84 | with callbacks that only look, the runtime part never changes, and the body is the first one or the whole of one that was read, parsed and accepted by every callback |
| `ConfigWatcher.PollCatchesUp` | internal/conf/watcher.go:41-63 | a poll that sees a newer file takes a modification time at least as new |
| `ConfigWatcher.NothingNewNothingDone` | internal/conf/watcher.go:41-62 | a poll that sees no newer file, or loses sight of it, leaves everything as it was |
| `ConfigWatcher.QuietPollConverges` | internal/conf/watcher.go:41-84 | whatever came before, one poll whose three looks see the same file leaves its time taken and its content dealt with |
| `ConfigWatcher.ServedIff` | internal/conf/watcher.go:63-69 | between two polls, with the file's time taken, the content is in force, unparsed or refused, except exactly when the read of the poll that took the time failed and the content parses to another body |
| `ConfigWatcher.FailedReadLosesUpdate` | internal/conf/watcher.go:63-69 | one write and one failed read: a later poll does not make up for it |
| `SseFraming.Response.WriteEvent` | pkg/web/sse.go:117-126 | the text of one event: a line for each part that is not empty, and a blank line |
| `SseFraming.Response.Serve` | pkg/web/sse.go:109-132 | the events in order, up to the first that is empty in all its parts or the one whose flush fails |
| `SseFraming.ServedUpTo` | pkg/web/sse.go:113-116 | an event is served unless its id, type and data are all empty, and such an event ends the stream |
| `SseFraming.FlushedIncludes` | pkg/web/sse.go:126-130 | the event whose flush fails has been written all the same |
| `SseFraming.FrameDispatches` | pkg/web/sse.go:117-126 | a standard reader makes of one event's lines one message, or none if it has no data, and keeps its id |
| `SseFraming.StreamReadBack` | pkg/web/sse.go:117-126 | for clean events a standard reader dispatches the events with data, in order, an empty type read as message, an empty id keeping the previous one |
| `SseFraming.ServedIsRead` | pkg/web/sse.go:113-126 | what is served of clean events, none of them empty in all its parts, is read in full |
| `SseFraming.OneMessageEach` | pkg/web/sse.go:117-126 | with data in every event there is one message for each |
| `SseExact.RoundTripsIff` | pkg/web/sse.go:117-126 | an event is read back as itself if and only if it has data, no CR or LF in any part, and no NUL in its id |
| `SseProtocol.BehaviourInv` | pkg/web/sse.go:66-133 | over any number of publishers and closers, the lock, the flag and the channel stay in step |
| `SseProtocol.NothingLostOrReordered` | pkg/web/sse.go:66-133 | nothing is sent on a closed channel and none is closed twice; the accepted events are the delivered ones, then the one in hand, then the buffer |
| `SseProtocol.AllDeliveredIff` | pkg/web/sse.go:109-116 | serving that ends on an empty event has delivered every accepted event exactly when each had an id, a type or data |
| `SseProtocol.EndedDeliveredIff` | pkg/web/sse.go:82-132 | however serving ended, every accepted event was delivered exactly if the closed stream was drained, or serving was cancelled with nothing in the buffer |
| `SseProtocol.DrainedForGood` | pkg/web/sse.go:82-116 | once the closed stream was drained, every accepted event is delivered and none is accepted any more |
| `SseProtocol.DrainsOut` | pkg/web/sse.go:109-132 | from every reached state with a closed stream, the server can get to the end with every accepted event delivered |
| `SseProtocol.CloseDelivers` | pkg/web/sse.go:66-132 | any events that are not empty in all their parts can be published, the stream closed, and all of them delivered before the serving ends |
| `SseProtocol.EndsWithoutClose` | pkg/web/sse.go:113-130 | an event empty in all its parts ends the serving of a stream that nobody closed, and so can a failed flush of any other |
| `SseProtocol.CapacityStays` | pkg/web/sse.go:55-64 | the stream holds as many events as asked for, or 1024 |
| `SseProtocol.SenderGoesOnIff` | pkg/web/sse.go:66-73 | a publisher at its send can go on exactly when the buffer has room |
| `SseProtocol.AcceptedAfterEnd` | pkg/web/sse.go:66-132 | after serving has ended nothing is delivered, and no more events are accepted than had room |
| `SseProtocol.StuckForGood` | pkg/web/sse.go:66-73 | a publisher that meets a full buffer after serving has ended stays there, and the stream is never closed |
| `SseProtocol.StuckIsReachable` | pkg/web/sse.go:55-132 | with every capacity there is a run that ends with a publisher stuck at its send and the events in the buffer lost |
| `SseProtocol.ReaderSeesEveryEvent` | pkg/web/sse.go:66-133 | from publisher to reader: every accepted event that is clean and not empty in all its parts is read, in order, and dispatched if it has data |
| `Chunks.SendChunks` | pkg/web/sse.go:187-230 | what is written is a function of the ticks and chunks in order; a failed write ends it there, and nothing else but an empty chunk does |
| `Chunks.WritesTheNewest` | pkg/web/sse.go:198-228 | exactly the chunks that no newer one replaced before the next tick or the end |
| `Chunks.SenderConflates` | pkg/web/sse.go:193-229 | a subsequence of the chunks received, at most one for each tick and one more, and at the end the last chunk received |
| `Versions.VersionToStr` | domain/version/core.go:63-73 | each component up to its first dash, padded to three characters, joined |
| `Versions.CompareVersionFunc` | domain/version/core.go:54-61 | true for texts of different lengths, otherwise the given test on them |
| `Versions.NewerIffTupleGreater` | domain/version/core.go:54-73 | for numeric versions whose components take the same widths, newer as text exactly when the tuple is greater, for any padding byte not above the digit zero |
| `Versions.ThreeDigitsSameWidth` | domain/version/core.go:70 | components of at most three digits take the same width |
| `Versions.LeadingV` | domain/version/core.go:65 | a leading v does not matter |
| `Versions.TailsAreDropped` | domain/version/core.go:67-69 | from its first dash on, a component does not count |
| `Versions.TupleTotal` | domain/version/core.go:37-40 | the order on tuples is irreflexive, asymmetric and total |
| `Versions.TupleTransitive` | domain/version/core.go:37-40 | and transitive |
| `Versions.DottedIsNumeric` | domain/version/core.go:63-73 | every tuple is the tuple of a dotted version |
| `Versions.DifferentLengths` | domain/version/core.go:57-59 | texts of different lengths are each newer than the other, so exactly one of the two answers is right |
| `Versions.RightlyOrderedIff` | domain/version/core.go:54-73 | two versions with a first difference get the right answer both ways exactly when their texts have one length and the two components there have one width, or the wider shows that it is the larger |
| `Versions.WiderAgainstNarrower` | domain/version/core.go:54-73 | a wider component is compared by its first digits: the larger of these and the narrower number decides, and if they are equal its other digits are compared with the next component |
| `Versions.BelowHundredShows` | domain/version/core.go:70 | against a number below one hundred every wider component shows that it is the larger |
| `Versions.NoDifference` | domain/version/core.go:54-73 | equal versions get the right answers, a version and its continuation never |
| `Versions.FourDigitsBreakTheOrder` | domain/version/core.go:57-59 | 1.999 counts as newer than 1.1000 |
| `Versions.OneLengthBreaksTheOrder` | domain/version/core.go:54-73 | 999.1000 counts as newer than 1000.999, though their texts have one length |
| `Startup.Process.IsAutoMigrate` | domain/version/core.go:31-44 | migrate if no record can be read or the built-in version is newer than the last |
| `Startup.Process.Run` | domain/version/versionapi/api.go:19-29 | a start, stopped after any number of steps, does a prefix of its plan: version table, other tables, record |
| `Startup.Process.MigrateTables` | internal/web/api/provider.go:49-53 | the record comes after the last table |
| `Startup.Process.RecordVersion` | domain/version/versionapi/version.go:32-41 | records only in a process that migrates; a failure leaves no record and stops nothing |
| `Startup.StartsKeepInv` | domain/version/core.go:31-51 | over any sequence of starts, stopped anywhere, recorded versions strictly increase and each was preceded by the migration of every table to it |
| `Startup.EveryLifetime` | domain/version/core.go:31-51 | the same from an empty database |
| `Startup.RecordsIff` | domain/version/versionapi/version.go:32-41 | a start records exactly when its version is new and every step, the record too, was completed |
| `Startup.StoppedStartMigratesAgain` | internal/web/api/provider.go:50-52 | a start that stopped before recording, or failed to record, leaves the next one all its work |
| `Startup.RepeatedStartDoesNothing` | domain/version/core.go:37-43 | a repeated start after a completed one neither migrates nor records |
| `Startup.StartIncreasingIff` | domain/version/core.go:33-37 | with migration forced on or the record unreadable, the records stay increasing exactly when the version is new or the start does not get to record it |
| `Startup.ForcedStart` | domain/version/versionapi/api.go:22-27 | a start that is only forced migrates every table but that of the versions, and records again |
| `CirQueue.CirQueue.constructor` | pkg/queue/cir_queue.go:11-16 | an empty queue of any size |
| `CirQueue.CirQueue.Push` | pkg/queue/cir_queue.go:18-25 | the value joins those pushed; no byte operation wraps |
| `CirQueue.CopyRound` | pkg/queue/cir_queue.go:35-38 | the loop copies the cells in the order of their pushes, round the end of the array |
| `CirQueue.CirQueue.Range` | pkg/queue/cir_queue.go:27-40 | the last values pushed, as many as fit, oldest first |
| `CirQueue.CirQueue.Size` | pkg/queue/cir_queue.go:42-47 | the number of values pushed, up to the size |
| `CirQueue.CirQueue.IsFull` | pkg/queue/cir_queue.go:49-51 | exactly when as many values were pushed as fit |
| `CirQueue.FullQueueDropsOldest` | pkg/queue/cir_queue.go:18-25 | a push on a full queue drops the oldest value |

## Left out

- EmptyDirs.Disk.RemoveAll: the file system is a map from paths to files and directories; symbolic links count as files, and nobody else changes the tree during the call.
- TTLMaps.TTLMap.Clear: as one call; under concurrency its two loops are steps of their own in `ConcurrentTTL`. The fixed-time clearing and `Dispose` only empty the map and are left out.
- RateLimiters.Limiter.Allow: the standard token bucket over real tokens and integer time, in place of the library's own arithmetic; a negative ttl and an infinite rate are not modelled.
- RateLimiters.RateBound: for requests served one after another; two callers that both see an expired entry can create two limiters.
- Throttle.Core.DelayTokenNow: SHA-256 is a parameter; a failed update does not reopen the gate, as in the source.
- TokenTable.TokenDB.Update: the time of an update and a fresh primary key are parameters.
- TokenCache.TTLCache.Get: the cache holds records, not pointers, so a caller that changes a record after storing it is not modelled; the other two ways of `assignByReflect` do not occur for a stored pointer.
- Tokens.TimeImageTruncates: calendar text is abstracted to whole seconds in one zone without repeated hours; years past 9999, the numeric forms that `UnmarshalJSON` also reads, and text that is not valid UTF-8 are not modelled.
- TokenCoherence.ValidThroughCache: the SHA-256 of the token is a parameter, and the clock stands after year one.
- ConcurrentTokens.HitWasRow: the table is a map from hash to row, and each statement or transaction on it is one step.
- ConfigWatcher.WatchConfig: a cancellation during the wait counts as one before that poll; what a callback does to the runtime part of the new configuration, which is overwritten afterwards, is not modelled.
- SseFraming.StreamReadBack: the text is characters, after decoding; headers, deadlines and the retry field are not modelled.
- SseProtocol.BehaviourInv: one server for each stream; `Stop` and the end of the request are one cancelling step.
- Chunks.SendChunks: `SendSSE` has the same loop without the failing writes, and `SendChunk` writes every chunk; the JSON text of a chunk and the headers are not modelled.
- Versions.NewerIffTupleGreater: components that are not decimal numbers without leading zeros are compared by `Compare`, with no theorem about them; the second comparison in `pkg/system/ver.go` is left out.
- Startup.Process.Run: a failed migration of a table panics in the source and counts as a stop.
- `List`, `Session` and `EditWithSession` of the token store: the first bypasses the cache and the others do nothing.
- Routing, middleware, tokens of the web layer, logging, paging and the command line: thin use of libraries that are not part of this model.
