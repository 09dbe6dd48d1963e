# Verified model of the bb-browser daemon and client pool

The daemon drives a browser over CDP for many callers at once and survives restarts; the client pool spreads
calls over several daemons. This project models the parts of both that keep state over long runs, and proves
what they promise for every input and every interleaving. Verify it with
`dafny verify dfyconfig.toml`.

How the pieces are modelled:

- **Log and store** (`RpcLog`, `RpcStore`, `RpcCodec`). The log is a byte string. `Recover` reads it line by line
  as `replayLog` does, `Fold` is `applyManagedUpdate` over the records, and the class `Store` has the methods of
  the source. The JSON library is a `Codec` value of which `Lawful` asks what RFC 8259, sections 2 and 4, gives:
  an encoded record is one object without a raw newline, no proper prefix of it parses, and neither does one text
  glued onto another. Encoding keeps the update a record makes but respells its tab: bytes that are not UTF-8 come
  back as replacement characters. `RpcCodec` shows the laws can be met together.
- **Fetch routes** (`Wildcard`, `RouteSync`, `RouteWorker`). The matcher is proved against a declarative language.
  The rule-and-sync protocol and the worker's queue are labelled steps over any number of threads, which may
  interleave at every lock boundary, every read of the generation and every channel operation.
- **Observation** (`ObsRing`, `Observation`, `ObservationRuns`). Listener, bounded queue, writer, rings and polling
  clients are one state machine; the ring itself is also a class. `ObservationRuns` reads off the events alone what the
  listener was given and relates it to what was pushed, dropped and published.
- **Tab lifecycle** (`TabRegistry`, `TabLock`, `TabIdle`, `TabRecovery`, `TabIncidents`, `Audit`). The registry and the
  idle tracker are classes with their methods; the lock and the audit queue are state machines over threads;
  `TabRecovery` puts registry, idle clocks and log together and follows them over runs with restarts. Its records
  count as pending from the moment a call has renewed its tab, also while the handler has yet to queue them, and a
  reconcile may work from a reading of the log that is no longer current.
- **Client pool** (`PoolIds`, `PoolOrder`, `ClientPool`). Id format, walk order, and a class `Pool` whose ghost
  field `sent` lists every request sent with the in-flight counts at that moment.
- **Adapter rewrite** (`BraceScanner`). The brace scanner is proved against a byte-at-a-time lexer, and the
  rewrite against the bytes it keeps.

Answers of backends, JSON decoding results, clocks and `urlMatch` are parameters of the operations. Times are
integers; strings are byte strings; `Bytes` has Go's white-space trimming and string order.

Where the code does less than its documentation suggests, the exact condition is proved:

- A crash that loses only a record's newline leaves a file onto which the next record is glued
  (`AppendAgreesIffSafe`, `LostNewlineBreaksNextAppend`); every other crash inside an append is repaired.
- The brace scanner takes the last byte of an unterminated block comment for code; the result differs from the
  lexer's exactly in the situation `Slips` describes.
- A removal while a sync is under way, or with none after it, can leave the old patterns enabled in CDP though no
  rules are stored (`CallsConverge` says when, `OldPatternsStay` gives a run). Target removal cancels the tab's
  session before it clears the routes (internal/browser/session.go:418-435), so the run needs a removal that looked
  for a session before the call had made one, and clears the routes after the call.
- The pool's walk order panics for some counters past 2^63 (`OrderDefinedIff`, `OrderPanics`).
- A registration overwrites another target's short id in exactly the situations of `OverwritesIff`
  (`OverwriteHappens`).
- Three events can break the agreement of idle clocks and log, exactly when `StepKeepsInvIff` says so: a renewal that
  looks up one tab while its record carries another (`FocusPutsLogAhead`), a reconcile whose reading of the log lacks
  a record that closes or renews what it restores, whether that record is still pending (`QueuePutsLogAhead`) or
  written since (`OldReadingPutsLogAhead`), and a mark whose target went away after it was looked up
  (`LateMarkTracksTheGone`).
- A reconcile can adopt a target the daemon never opened (`ReconcileTracksIff`, `ReconcileAdopts`).
- A restart can give a target another short id, and with it another tab's clock (`SurvivesFreshSyncIff`,
  `ShortsCanSwap`).
- A tab id that is not valid UTF-8 would be opened under one name in memory and another in the log
  (`OpenAgreesIffSpelled`, `UnspelledOpenDisagrees`). The daemon's own tab ids are decoded from JSON, so only a direct
  caller of `AppendRPC` can pass one.

## Model

| member | source | states |
|---|---|---|
| RpcLog.FoldMeaning | internal/store/replay.go:23-47 | a replayed log holds a tab exactly when some record opened it and none closed it since, with the time of the last record that renewed it |
| RpcLog.FoldOver | internal/store/replay.go:23-47 | what more records make of a managed tab: it stays unless one closes it for good, with the time of the last record that renews it |
| RpcLog.RecoverIdempotent | internal/store/store.go:150-195 | recovering an already recovered file, whatever it held, finds the same records and cuts nothing more |
| RpcLog.RecoverAppend | internal/store/store.go:150-195 | recovery of a whole file ending in a newline followed by more bytes is the recovery of both in turn |
| RpcLog.CutRecovers | internal/store/store.go:150-195 | a log cut at any byte replays to the fold of exactly the records complete before the cut, as the encoder gives them back, and is truncated to their bytes |
| RpcLog.CompleteMeaning | internal/store/store.go:160-183 | a record survives the cut when all of it but its newline is there |
| RpcLog.RenderRecovers | internal/store/store.go:150-195 | an undamaged log replays to all its records and loses no byte |
| RpcLog.CorruptLineRecovers | internal/store/store.go:172-195 | a corrupt line, ended by a newline or not, abandons itself and everything after it; the records before it survive |
| RpcLog.SafeAppend | internal/store/store.go:257-274 | appending to a file whose last line is blank applies just that record, as the encoder gives it back, and keeps the file whole |
| RpcLog.GluedAppend | internal/store/store.go:160-183 | appending to any other whole file makes replay lose both the record and the one it is glued onto |
| RpcLog.AppendAgreesIffSafe | internal/store/store.go:231-276 | memory and a replay of the file agree after every append of a record whose tab is valid UTF-8 if and only if the file is append-safe |
| RpcLog.OpenAgreesIffSpelled | internal/store/store.go:247-257 | a record that opens a tab leaves memory and log in agreement if and only if the tab survives encoding |
| RpcLog.SnapshotFolds | internal/store/store.go:311-339 | a snapshot folds back to the map it was written from, in whatever order its keys come |
| RpcStore.SnapshotRestores | internal/store/store.go:311-339 | the sorted snapshot a rotation writes replays to the managed tabs it was taken from and ends in a newline |
| RpcStore.AppendedConsistent | internal/store/store.go:231-309 | an append, rotation included, keeps memory equal to a replay of the current log and logBytes equal to its length |
| RpcStore.AppendedMeans | internal/store/store.go:257-309 | an append below the limit adds the line; one that reaches it leaves the grown log as backup 1, the older backups one place up, and the snapshot of the updated map as the log |
| RpcStore.ShiftMeans | internal/store/store.go:285-299 | each backup stands one place up with its content, only the oldest is lost, and files beyond the backups are untouched |
| RpcStore.StampedMeans | internal/store/store.go:241-244 | a given time survives, a missing one becomes now, the body is compacted, and every other field stays |
| RpcStore.ReopenedConsistent | internal/store/store.go:78-133 | opening any file at all gives such a consistent store |
| RpcStore.RestartRestores | internal/store/store.go:78-133 | a clean restart restores exactly the files and memory the daemon had |
| RpcStore.CrashOutcome | internal/store/store.go:150-195 | after a crash inside an append to an append-safe file the record counts exactly when all but its newline was written, and only then, with that newline missing, is the kept file not append-safe |
| RpcStore.StepHealthy | internal/store/store.go:78-339 | every append, rotation, restart and crash but one keeps the store consistent and its log append-safe |
| RpcStore.RunsAgree | internal/store/store.go:78-339 | over every run of such events from any disk whose reopened log is append-safe, replaying the log gives the map in memory, logBytes is the length, and another restart changes nothing |
| RpcStore.LostNewlineBreaksNextAppend | internal/store/store.go:160-183 | the excluded crash: the reopened store is consistent, yet some next append leaves memory and log apart |
| RpcStore.MarshalSnapshot | internal/store/store.go:311-339 | the loop writes one line per tab in the order given |
| RpcStore.Store.constructor | internal/store/store.go:78-133 | the opened store is the reopened state of its files, or empty in memory-only mode |
| RpcStore.Store.ReplayLog | internal/store/store.go:150-195 | the offset loop keeps exactly the recovered prefix and folds exactly its records |
| RpcStore.Store.AppendRPC | internal/store/store.go:231-276 | each outcome, each error included, with the whole new state; an opened tab has the given time, or now; only a store with a file can find its log closed; a consistent, append-safe store stays consistent when the tab is valid UTF-8 |
| RpcStore.Store.Rotate | internal/store/store.go:281-309 | every backup stands one place up with its content, the oldest is dropped, and the log becomes the snapshot |
| RpcStore.Store.ShiftBackups | internal/store/store.go:285-299 | the renaming loop moves every backup up one place with its content and loses only the oldest |
| RpcStore.Store.WriteManagedSnapshot | internal/store/store.go:311-339 | the snapshot of the managed tabs is appended and counted |
| RpcCodec.SmallIsLawful | internal/store/store.go:231-250 | the laws asked of the record encoder can be met together, by a codec that replaces what it cannot spell |
| RpcCodec.UnspelledOpenDisagrees | internal/store/store.go:247-257 | a one-byte tab that is not ASCII, opened under that codec, leaves memory and log apart |
| Wildcard.WildcardMatch | internal/browser/network_routes.go:423-451 | terminates, and returns true exactly for the strings in the pattern's language |
| Wildcard.MatchRoute | internal/browser/network_routes.go:389-396 | the first rule whose pattern matches, if any |
| RouteSync.PatternPerRule | internal/browser/network_routes.go:192-202 | with non-blank patterns CDP gets one trimmed pattern per rule, in order |
| RouteSync.StepKeepsInv | internal/browser/network_routes.go:160-291 | every step of every thread keeps workers, listeners, generations and the mutex in order |
| RouteSync.CallStores | internal/browser/network_routes.go:70-142 | a set stores exactly the given rules, an append keeps every stored rule at its index and adds one at the end, a remove keeps exactly the rules of other patterns in order and with repetition, or none for a blank pattern |
| RouteSync.RunStores | internal/browser/network_routes.go:70-142 | over every run the stored rules are the list of the last set (or none, after a removal) and the rules appended since, in order, each kept exactly when no later remove names its pattern |
| RouteSync.EveryCallEnds | internal/browser/network_routes.go:160-190 | each step brings its call or removal nearer its end; one that cannot step waits for the mutex, whose holder can |
| RouteSync.RemovalWins | internal/browser/network_routes.go:454-475 | once removals and the syncs of older generations are over, every worker but the mapped one is cancelled, and so is every listener they started but one that a cancelled worker's own goroutine has taken to cancel |
| RouteSync.StepKeepsLiveInv | internal/browser/network_routes.go:70-190 | every step, in every generation, keeps some call on its way to a sync of the current rules, or CDP in agreement, or no snapshot taken since the last removal |
| RouteSync.CallsConverge | internal/browser/network_routes.go:70-291 | whenever no call or removal is under way, in any generation: with rules stored, CDP has their patterns and the mapped worker an attached listener; without, CDP is off if and only if no removal came after the last snapshot or the call then inside the mutex left it off; no other listener is live |
| RouteSync.RemovalLeaves | internal/browser/network_routes.go:160-190 | without a snapshot since a removal, CDP ends up as the call inside the mutex at that removal leaves it |
| RouteSync.OldPatternsStay | internal/browser/network_routes.go:454-475 | a run of one call and one removal after which no rules are stored and CDP still has the old pattern |
| RouteWorker.StepKeepsInv | internal/browser/network_routes.go:293-344 | each step keeps every request in exactly one place, in arrival order |
| RouteWorker.NoLostWakeup | internal/browser/network_routes.go:293-381 | a parked worker with requests has a token or a producer about to signal; requests are resolved in arrival order, each once; each that arrived since the rules last changed continues if it pauses in the response stage or no rule matches, and else its first matching rule fails it or fulfils it with the rule's body, its status or 200, and its trimmed content type or JSON's |
| RouteWorker.DecidedByRulesInForce | internal/browser/network_routes.go:335-381 | over every run, each request was decided as NoLostWakeup says by the rules stored at one moment between the resolution before it and its own, also while rules change |
| RouteWorker.RunHistory | internal/browser/network_routes.go:293-344 | what has arrived, the stored rules, and whether the worker is cancelled, read off the events |
| RouteWorker.ExitsDrained | internal/browser/network_routes.go:322-344 | the worker exits only once cancelled, with its queue empty and everything that arrived resolved |
| RouteWorker.Drains | internal/browser/network_routes.go:322-344 | once producers have signalled, the worker left alone resolves everything that arrived, and then has exited if it was cancelled and is parked if not |
| ObsRing.RingHoldsLast | internal/state/ringbuf.go:18-36 | after any pushes the ring holds the last min(capacity, pushed) entries, and nothing when the capacity is not positive; dropped counts the rest |
| ObsRing.QueryIsSuffix | internal/state/ringbuf.go:40-56 | a query returns exactly the suffix of entries above since, and the cursor is the highest number kept or since |
| ObsRing.RingBuffer.Push | internal/state/ringbuf.go:26-36 | the pushed ring, contents and dropped count |
| ObsRing.RingBuffer.QuerySince | internal/state/ringbuf.go:40-56 | the loop returns the entries above since in order, the cursor and the dropped count |
| Observation.StepKeepsInv | internal/browser/observer.go:200-298 | every step of listener, writer, clients and clears keeps order, conservation and every client's account |
| Observation.QueryDelivers | internal/daemon/rpc_observation.go:87-97 | one query adds exactly the pushes the client has not seen and the ring still holds, tells it the losses so far, and changes nothing else |
| Observation.JoinStarts | internal/daemon/rpc_observation.go:54-98 | a first query from cursor 0 is sent the whole ring |
| ObservationRuns.PushesAreGiven | internal/browser/observer.go:246-288 | over every run, what the listener was given and the queue had room for is, in order, what the writer has finished and then what is in flight; the pushes of a kind are exactly the finished items of that kind with a payload, each with its own number and payload |
| ObservationRuns.LostOnlyAtFullQueue | internal/browser/observer.go:246-288 | an item with a payload is in flight or pushed, unless it met a full queue |
| ObservationRuns.DroppedAreThese | internal/browser/observer.go:251-276 | the dropped count of a kind counts exactly the items that met a full queue and the finished ones without a payload; as many numbers were reserved as items given |
| ObservationRuns.LastSeenIsPublished | internal/browser/observer.go:259-265 | lastSeen of a kind is the highest number the listener has published for it, 0 before any |
| ObservationRuns.ClearedStayGone | internal/state/obs_store.go:90-121 | a clear empties one ring and its dropped count and no other, and what was pushed before it never comes back |
| Observation.DeliveredExactlyOnce | internal/daemon/rpc_observation.go:54-98 | polling with the last cursor delivers every push at most once, in increasing order, and misses only what was evicted or cleared before the poll |
| Observation.NothingUnaccounted | internal/browser/observer.go:251-298 | without clears, numbers reserved equal items queued, in the writer's or listener's hands, in the ring, and dropped; the reported total lies between the losses at query time and now |
| Observation.LastSeenSkipsQueued | internal/browser/observer.go:259-265 | why the cursor may not be lastSeen: polling from it would never return an item still queued |
| TabLock.StepKeepsInv | internal/daemon/rpc_connections.go:185-242 | each step keeps: references equal users, token plus holders is one, an entry in use is the mapped one |
| TabLock.MutualExclusion | internal/daemon/rpc_connections.go:185-217 | at most one thread holds a tab's lock, across forgets while it is in use |
| TabLock.ForgottenEntriesGo | internal/daemon/rpc_connections.go:219-242 | a forgotten entry nobody uses is not in the map; an entry in use, or not forgotten, is |
| TabLock.ForgetTakesEffect | internal/daemon/rpc_connections.go:219-242 | once a mapped key was forgotten, its entry is out of the map whenever nobody uses it, for the rest of the run |
| TabLock.ForgottenByForget | internal/daemon/rpc_connections.go:219-242 | an entry is forgotten only if the run had a forget of its key |
| TabLock.LockWorks | internal/daemon/rpc_connections.go:185-217 | a thread that asks waits on the mapped entry of its key, old or new, and can take the token at once when nobody holds it |
| TabLock.HoldingWorks | internal/daemon/rpc_connections.go:185-217 | taking the token, unlocking, timing out and releasing move that thread alone, and only unlocking gives the token back |
| TabLock.HandOver | internal/daemon/rpc_connections.go:185-217 | an unlock makes the token available to a thread waiting on the same entry |
| TabRegistry.HexRunes | internal/state/tab_registry.go:191-204 | the lower-cased hex digits of the id in order |
| TabRegistry.HexDigitsMean | internal/state/tab_registry.go:191-204 | one digit for each hex byte of the id, in order, upper-case ones 32 higher and the others as they are |
| TabRegistry.NoDigitsShort | internal/state/tab_registry.go:159-170 | an id without hex digits gets its trimmed form, cut to its last 64 bytes, or itself when that is taken |
| TabRegistry.NeverFallsBack | internal/state/tab_registry.go:159-184 | among ids none of which is a suffix of another, a free suffix of at least four digits is always found |
| TabRegistry.OverwritesIff | internal/state/tab_registry.go:159-184 | a registration takes another target's short id if and only if: with hex digits, every suffix it may try and the whole digit string are taken; without, its trimmed form and the id itself are |
| TabRegistry.OverwriteHappens | internal/state/tab_registry.go:159-184 | two ids that overwrite in each branch |
| TabRegistry.AssignKeeps | internal/state/tab_registry.go:159-184 | registering keeps the maps mutually inverse and every other target's short id |
| TabRegistry.StepKeeps | internal/state/tab_registry.go:42-189 | sync, register, remove and select keep the maps inverse and the short id of each target that stays; which targets are registered and which is selected afterwards, exactly |
| TabRegistry.RunsKeepBijection | internal/state/tab_registry.go:42-189 | over every run of compatible ids the same holds, and a target keeps one short id as long as it stays |
| TabRegistry.StepLastFour | internal/state/tab_registry.go:159-184 | while live ids differ in their last four digits, every short id is those digits whatever the order of events |
| TabRegistry.SurvivesFreshSyncIff | internal/state/tab_registry.go:62-85 | a target has its old short id after a fresh sync if and only if no target before it in sorted order takes it and targets before it take every shorter suffix |
| TabRegistry.ShortsCanSwap | internal/state/tab_registry.go:159-184 | without that, two targets can swap the four-digit id when synced afresh |
| TabRegistry.Registry.SyncPageTargets | internal/state/tab_registry.go:42-85 | the registry afterwards, the removals exactly once each, and one described snapshot per target in id order with the short id it is registered under |
| TabRegistry.SyncsAgree | internal/state/tab_registry.go:42-85 | two syncs from empty that list the same page targets, in any order and repetition, give equal registries and short ids |
| TabRegistry.Registry.DropAbsent | internal/state/tab_registry.go:54-60 | deleting while walking the map in any order removes exactly the absent targets |
| TabRegistry.Registry.AssignShortLocked | internal/state/tab_registry.go:159-184 | the loop finds the shortest free suffix or the fallback |
| TabRegistry.Registry.RemoveTarget | internal/state/tab_registry.go:88-97 | both maps, the selection and the returned short id |
| TabRegistry.Registry.Lookup | internal/state/tab_registry.go:226-236 | the target of the trimmed short id, if registered |
| TabRegistry.Registry.SelectShort | internal/state/tab_registry.go:238-250 | the trimmed short id becomes the selection exactly when it is registered, and the selection stays otherwise |
| TabIdle.TabIdleTracker.MarkManagedAt | internal/state/tab_idle.go:33-41 | the clock of one non-empty id is set, all others stay |
| TabIdle.TabIdleTracker.MarkManagedIfAbsentAt | internal/state/tab_idle.go:45-55 | a tracked clock is never changed, an untracked one is set |
| TabIdle.TabIdleTracker.Touch | internal/state/tab_idle.go:58-67 | only a tracked id is renewed, and no id becomes tracked |
| TabIdle.TabIdleTracker.Forget | internal/state/tab_idle.go:70-77 | exactly that id is no longer tracked |
| TabIdle.TabIdleTracker.SyncPresentReturnRemoved | internal/state/tab_idle.go:85-99 | exactly the absent ids go, each returned once |
| TabIdle.TabIdleTracker.Expired | internal/state/tab_idle.go:116-137 | exactly the tracked ids idle for the timeout or longer, in id order |
| TabIdle.TabIdleTracker.IsExpired | internal/state/tab_idle.go:142-150 | true exactly when the id is still tracked and idle for the timeout |
| TabIdle.ReconcileIdleFromLog | internal/daemon/tab_idle.go:80-115 | in whatever order the log's map is walked: tracked clocks stay, and exactly the present targets named by the log are added with clamped times |
| TabIdle.ReconcileAgain | internal/daemon/tab_idle.go:80-115 | a second reconcile changes no tracked tab, and changes nothing at all if the log names no new tab |
| TabRecovery.StepKeepsInvIff | internal/daemon/v1.go:229-247 | an event keeps the log behind memory if and only if it is harmless: a renewal not misdirected, a reconcile left alone by the records it did not read, a late mark the log vouches for |
| TabRecovery.ClocksMove | internal/daemon/v1.go:165-247 | only a new tab, a reconcile or a mark starts tracking a target, only a close, a sync without it or a restart stops it, and a tracked clock moves only when it is renewed |
| TabRecovery.RecordsMove | internal/daemon/v1.go:190-205 | each call adds its record behind those finished before, writing moves the first of them to the log, and nothing is lost or added otherwise |
| TabRecovery.ReconcileKeepsInvIff | internal/daemon/tab_idle.go:80-115 | a reconcile, read at any earlier length of the log, keeps it if and only if no record since then closes a restored tab for good and the last that renews it is no later than the clock it was given |
| TabRecovery.MarkKeepsInvIff | internal/daemon/tab_idle.go:102-113 | a mark whose lookup is past keeps it if and only if the target is tracked, or registered and in the log at a time no later than the mark |
| TabRecovery.ReconcileTracksIff | internal/daemon/tab_idle.go:93-114 | a reconcile adopts exactly the untracked registered targets listed whose short id some record it read opened and none closed, whichever target that was for |
| TabIncidents.QueuePutsLogAhead | internal/daemon/browser_reconnect.go:131-139 | a run in which a reconcile meets a queued renewal and the log gets ahead of memory |
| TabIncidents.OldReadingPutsLogAhead | internal/daemon/tab_idle.go:84-113 | a run in which the log was read before a renewal was written: nothing is queued, and the log gets ahead of memory |
| TabIncidents.LateMarkTracksTheGone | internal/daemon/tab_idle.go:102-113 | a run in which a target goes away between its lookup and its mark, and is tracked though it is gone |
| TabIncidents.ReconcileAdopts | internal/daemon/tab_idle.go:93-114 | a run in which a reconcile tracks a target the daemon never opened, for an idle close left its short id in the log |
| TabRecovery.RunsKeepLogBehind | internal/daemon/v1.go:165-247 | over every run of harmless events, restarts included, each tracked tab is in the log's map under its short id with a time no later than memory's |
| TabRecovery.RestoredExpiry | internal/daemon/tab_idle.go:80-115 | a tab tracked before a restart that keeps its short id is tracked again, expiring no earlier than restart plus min(timeout, grace) and no later than that or its old expiry |
| TabRecovery.RestoredGrace | internal/daemon/tab_idle.go:85-91 | whatever a restart restores is left its grace |
| TabRecovery.RunsKeepLastFour | internal/state/tab_registry.go:159-184 | over runs of ids that differ in their last four digits a restart gives each target the short id it had |
| TabRecovery.RunsRestore | internal/daemon/tab_idle.go:80-115 | over every run of harmless events, a tracked tab still present after a restart that keeps its short id is restored with those bounds |
| TabRecovery.RunsKeepShorts | internal/state/tab_registry.go:159-184 | while live ids differ in their last four digits every restart keeps every short id |
| TabRecovery.RpcKeepsInvIff | internal/daemon/v1.go:229-247 | a renewal keeps it if and only if its record does not name another tab that is tracked with an earlier time |
| TabIncidents.FocusPutsLogAhead | internal/daemon/v1.go:236-246 | a run in which a focus call asks for one tab and answers with another, and the log gets ahead of memory |
| Audit.StepKeepsInv | internal/daemon/v1.go:190-212 | each step keeps every record in exactly one place and the order of shutdown |
| Audit.HandedOverOnce | internal/daemon/server.go:287-312 | every record handed over before the store closes is appended exactly once, nothing is sent on the closed channel, and the store closes only after the channel drained |
| Audit.LockedBeforeCloseIsSaved | internal/daemon/v1.go:190-205 | a record whose handler locked while the store was open is appended to the open store exactly once by the time it is closed |
| Audit.FirstInFirstOut | internal/daemon/server.go:304-312 | over every run the records the writer has appended, the one in its hands and those in the channel are exactly the records sent, in sending order; the store got every append in order |
| Audit.ShutdownCloses | internal/daemon/server.go:287-302 | once a shutdown has returned the store is closed, for the rest of the run |
| Audit.EveryoneEnds | internal/daemon/server.go:287-312 | each step brings a handler or shutdown nearer its end; one that cannot step waits for the mutex or the writer, which can |
| PoolIds.SplitMeaning | pkg/daemonclient/pool.go:134-141 | splitting finds exactly the two non-empty parts at the first colon of the trimmed id |
| PoolIds.RoundTripIff | pkg/daemonclient/pool.go:127-141 | SplitTabID undoes FormatTabID if and only if the key is non-empty, has no colon and no space in front, and the short id is non-empty with no space behind |
| PoolIds.CheckBackends | pkg/daemonclient/pool.go:89-124 | the first faulty backend is reported with its fault; without one the keys are trimmed, free of colons, distinct and indexed |
| PoolIds.DefaultKeysNeverClash | pkg/daemonclient/pool.go:80-86 | a pool without explicit keys accepts any usable clients |
| PoolIds.DecimalSpells | pkg/daemonclient/pool.go:103-106 | a default key spells its index in decimal without leading zeros |
| PoolOrder.OrderMeaning | pkg/daemonclient/pool.go:426-442 | below 2^63 the walk is a permutation in ring order whose head has the least load and comes first on the ring among ties |
| PoolOrder.OrderDefinedIff | pkg/daemonclient/pool.go:428 | the walk exists if and only if the counter is below 2^63 or its distance to 2^64 is a multiple of the number of backends |
| PoolOrder.OrderPanics | pkg/daemonclient/pool.go:428 | three backends and the counter 2^63: there is no walk |
| PoolOrder.FairTurns | pkg/daemonclient/pool.go:426-442 | any k·n consecutive calls that each find level loads put every backend first exactly k times |
| ClientPool.BindsToMaker | pkg/daemonclient/pool.go:448-463 | an id made from a backend's answer is that backend's, and binding it there never collides |
| ClientPool.ResolvesIffBound | pkg/daemonclient/pool.go:499-518 | an id resolves if and only if it is bound, to the backend it is bound to, and the short id sent spells it again |
| ClientPool.RefusesWhen | pkg/daemonclient/pool.go:499-518 | an id is malformed exactly when no key and short id spell it, of an unknown key when the key it spells is no backend's, and else unknown exactly when it is not bound |
| ClientPool.DoKeepsInv | pkg/daemonclient/pool.go:300-381 | each critical section of any call keeps every bound id with the backend its prefix names |
| ClientPool.DoMeans | pkg/daemonclient/pool.go:300-381 | an observed id is bound to its backend, a released one is bound no more, a use is routed where its id is bound and nowhere if it is not; no other id is touched |
| ClientPool.NeverTwoBackends | pkg/daemonclient/pool.go:300-518 | over every interleaving no bind collides and no external id is ever bound or sent to two backends |
| ClientPool.TurnMeans | pkg/daemonclient/pool.go:258-284 | what one backend's turn comes to, requests sent, map and verdict, from its answer and the map before |
| ClientPool.WalkAccounts | pkg/daemonclient/pool.go:253-286 | for every sequence of answers, from any backend on: each tab obtained is the bound result or its maker was sent one close, other bindings stay, errors add up |
| ClientPool.WalkEndsRightly | pkg/daemonclient/pool.go:246-287 | a create asks the backends of its order in turn up to the first that gives a tab or finds the context done: all failed with each backend's own error when there is none, cancelled, or that tab bound there and returned if the answer decodes, and else released and closed |
| ClientPool.CreateAccounts | pkg/daemonclient/pool.go:246-287 | when a create returns, each tab obtained is bound to its maker or closed there exactly once, at most one is bound, and total failure carries one error per backend |
| ClientPool.WalkKeepsOwned | pkg/daemonclient/pool.go:267-273 | a create keeps every id with its backend and never meets a collision |
| ClientPool.ListedAreBound | pkg/daemonclient/pool.go:324-359 | every id a listing returns is bound to the backend that listed it; nothing bound before is lost or moved |
| ClientPool.MergeSays | pkg/daemonclient/pool.go:324-359 | the merged sequence number is the largest answered, tab and focus are the first named, and every item of every answer is there, prefixed, in backend order |
| ClientPool.ListFailsIff | pkg/daemonclient/pool.go:324-359 | a listing fails as a whole exactly when every backend failed, with their errors in order |
| ClientPool.NewPoolBackends | pkg/daemonclient/pool.go:89-124 | a pool is made exactly when no backend is faulty, with the keys in constructor order |
| ClientPool.Pool.Order | pkg/daemonclient/pool.go:426-442 | the two loops compute the walk order; the counter advances modulo 2^64 |
| ClientPool.Pool.BindTab | pkg/daemonclient/pool.go:448-460 | the map and the error of a bind |
| ClientPool.Pool.UnbindTab | pkg/daemonclient/pool.go:475-483 | exactly the trimmed id is released |
| ClientPool.Pool.ForgetTab | pkg/daemonclient/pool.go:174-176 | forgetting keeps every other binding and the ownership invariant |
| ClientPool.Pool.AbandonCreated | pkg/daemonclient/pool.go:465-473 | one tab_close for the trimmed short id to that backend, counted in flight meanwhile; nothing for an empty id or an index out of range |
| ClientPool.Pool.TryBackend | pkg/daemonclient/pool.go:258-284 | one backend's turn: it fails or gives no tab; its id is bound elsewhere and the tab is closed; the tab is bound and the create done; or the answer does not decode and the tab is released and closed |
| ClientPool.Pool.CallCreate | pkg/daemonclient/pool.go:246-287 | the new state is that of the walk over the order drawn, and the call ends as WalkEndsRightly says; in-flight counts are restored and ownership kept |
| ClientPool.Pool.ResolveTab | pkg/daemonclient/pool.go:499-518 | each refusal and the backend found |
| ClientPool.Pool.CallBound | pkg/daemonclient/pool.go:300-322 | at most one request, to the backend the prefix names, with the stripped id |
| ClientPool.Pool.CallClose | pkg/daemonclient/pool.go:289-298 | a tab is released exactly when its close succeeded, and no other is; the close went to the backend bound to it, with the id stripped of its prefix |
| ClientPool.Pool.CallTabList | pkg/daemonclient/pool.go:324-359 | requests, map and merged listing, each outcome; ownership kept |
| ClientPool.Pool.CallTabFocus | pkg/daemonclient/pool.go:361-381 | the first backend that answers, its ids prefixed and bound; each outcome |
| BraceScanner.MatchingJSBrace | internal/site/run.go:77-133 | the first code-level brace that brings the depth to zero, or -1; except exactly when Slips, where it is the last byte |
| BraceScanner.LineHides | internal/site/run.go:85-91 | nothing in a line comment counts, and the byte behind its newline is code at the same depth |
| BraceScanner.BlockHides | internal/site/run.go:92-101 | nothing in a block comment counts up to its first star-slash, and what follows is code at the same depth |
| BraceScanner.QuoteHides | internal/site/run.go:103-119 | nothing between a quote and the next one of its kind not escaped counts, and what follows is code at the same depth |
| BraceScanner.CodeCounts | internal/site/run.go:121-132 | in code braces move the depth and other bytes do not |
| BraceScanner.SlipHappens | internal/site/run.go:92-101 | an input on which the scanner slips |
| BraceScanner.SkipBlock | internal/site/run.go:92-101 | the loop ends behind the comment, or inside it on the last byte |
| BraceScanner.SkipQuoted | internal/site/run.go:105-119 | the loop ends behind the closing quote, or at the end of input |
| BraceScanner.ParamListOpenParen | internal/site/run.go:59-73 | the parenthesis after the first "function" of the header and its blanks, or -1 exactly when there is none |
| BraceScanner.RewriteAnonymousAsyncAdapter | internal/site/run.go:31-55 | the text is unchanged, or spliced at the parameter list and the matching brace |
| BraceScanner.SplicedKeeps | internal/site/run.go:47-54 | all bytes outside the header and the brace are kept, in place |
| BraceScanner.SplicedMatches | internal/site/run.go:47-54 | in the rewritten text the body's brace is closed by the brace put in for the original one |

## Left out

- Crashes during a rotation, failed renames, and writes that fail after the map was updated: assumed not to happen.
- Sequence numbers and dropped counts: unbounded here; their wrap at 2^64 is not modelled.
- HTTP, JSON decoding, CDP transport, processes and signals: represented by parameters and by sets of enabled patterns.
- `urlMatch` and `normalizeURL`: they rest on libraries whose code is not part of this model; matching is a function parameter.
- Base64 encoding of a mocked body: `RouteWorker` records the body itself.
- Failing CDP commands and lost tab contexts in `syncRoutes`: commands are assumed to succeed.
- Per-target maps of rings in the observation store: `Observation` follows one target with its three rings.
- Observer callbacks are taken one at a time; domain activation and expiry of observers are not modelled.
- Concurrency is modelled on values: the lock, route, worker, observation and audit protocols are state machines, not classes with locks, so aliasing between goroutines is not captured.
- The idle sweeper's loop (`closeExpiredTabs`): only the tracker calls it makes are modelled, and an idle close appears as the event `Gone`; its recheck under the lock adds only a guard.
- The full-queue fallback of the audit hand-off can put a record ahead of queued ones: `TabRecovery` takes records in completion order.
- A crash that loses records still queued for the log: a restart in `TabRecovery` drains the queue first, as an orderly shutdown does.
- Target ids in `TabRecovery` are taken as compatible (at least four hex digits, none the suffix of another), as the browser's equal-length ids are.
- Tracked tabs are shown to be in the log, not the converse: idle closes and closes outside the daemon write no record. ReconcileTracksIff and ReconcileAdopts say what a reconcile makes of such entries.
- Registering, marking and recording a new tab are one step in `TabRecovery`, as are a close and its record; a mark that comes late is the event `Mark`.
- The pool's health, ready, live and unbound calls: the same walk as a create without its bookkeeping.
- Calls on a pool are modelled one at a time for requests and in-flight counts; the tab map alone is followed over interleavings.
- Regular expressions in the adapter rewrite: the header's position is a parameter. Regex literals and nested template expressions in scripts are read as the scanner reads them.
- Token checks, proxy headers and the browser watchdog: flat predicates and a counter.
- RpcStore.RunsAgree: does not cover the crash between a record and its newline, because the next append then breaks the agreement, as LostNewlineBreaksNextAppend shows.
- RpcStore.RunsAgree: takes records whose tab is valid UTF-8, as every tab decoded from JSON is; OpenAgreesIffSpelled says what other tabs do.
- Observation.NothingUnaccounted: brackets the reported total instead of fixing it, because the handler reads the two counts at different moments.
- TabRecovery.RunsKeepLogBehind: covers the events StepKeepsInvIff calls harmless, because the others break it, as the runs of `TabIncidents` show.
