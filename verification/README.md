# Ubiq: verified model of the state-keeping engines

This project models, in Dafny, the parts of Ubiq whose guarantees span many calls, crashes or clocks, and
proves those guarantees for every input, every run or every reachable state.

| area | modules |
|---|---|
| online shard migration | `KeyOrder`, `ShardMigration`, `ShardSafety`, `ShardAuthority`, `ShardLimits`, `RollbackRace`, `RolledBackRow`, `BackfillProgress`, `ShardCoordinator` |
| settlement journal, recovery projection, acknowledgement coordinator | `SettlementProjection`, `SettlementJournal`, `DurableSettlement`, `TornTail`, `AckHistory`, `Transitions` |
| control store: leases, fencing tokens, settlements | `ControlStore`, `LeaseSafety`, `ClaimDrain`, `FrameHistory`, `ControlDb` |
| rendezvous placement | `Placement` |
| dependency cycles between features | `DependencyGraph` |
| event names, wire format, TCP framing | `CanonicalEvent`, `WireCodec`, `WireBuffer`, `TcpFraming` |
| bounded tables against an unbounded history | `ReplayWindow`, `ProofCache`, `MemoryBroker`, `BrokerJournal`, `LockTable`, `LockFencing` |

`Common` holds bytes, `Option` and `Result`, and `Arithmetic` two facts about division. Each component has functions
that say what one operation does to a value, classes or methods that do it in place the way the source does and are
proved equal to those functions, and theorems about whole runs of the operations. What an operation does is also said
in terms of the data alone, in the contract of its method or in a theorem over the history of the run. `dafny verify dfyconfig.toml` covers the whole project.

## What is assumed

- **Migration.** A write looks up its targets and upserts into all of them in one step. A new migration takes a
  range disjoint from every other row's, and its destination has no key there. Keys are never deleted by
  writers; key order is bytewise; the backends are SQL, whose import keeps an existing row. Beyond that any number
  of calls run at once, each stopped or overtaken between any two of its statements: load, export, import, save of
  a backfill worker; start, count the source, count the destination, enter cutover of `Verify`; test the phase,
  delete, update of `Rollback` and of `Complete`.
- **Journal.** The file is a byte sequence and a crash leaves any prefix of the line being appended. JSON is
  any codec that round-trips, is never empty and has no raw newline; the checksum is any 32-bit function.
  Appends in a run happen on a file whose last byte is a newline or that is empty.
- **Clocks** are arguments. The theorems that need a clock that does not go back say so in a `requires`.
- **Integers** are unbounded, except where a width is the point: journal sequence exhaustion, header field
  widths, the 32-bit frame length and the lock generation's 64-bit wrap-around.

## Where the code does not do what its comments suggest

- `Rollback` tests the phase, deletes the destination range and then makes its guarded update. Overtaken in between,
  its deletion can bring back a value that a later write had replaced
  (`RollbackRace.InterruptedRollbackServesStaleData`), let a Verify call cut over to nothing, or empty a
  destination that has become the authority (`RollbackRace.RollbackAfterCutoverLosesAll`).
- `Verify` counts the source and the destination at two moments. A key written in between fails the call although
  the backends are equal (`RollbackRace.NewKeyFailsVerify`); after a rollback that stopped half way it can also
  make the counts agree while a key is missing (`RollbackRace.InterruptedVerifyLosesKey`).
- Under the assumptions above these are all the ways in which a migration goes wrong: `ShardLimits.SpoilsExactly`.
- A rolled-back migration routes no write, but a backfill worker that was loaded or had exported before the rollback
  goes on and copies into the emptied destination (`RolledBackRow.LateCopyIsReachable`); nothing of the range is
  touched any more exactly when no such worker has anything to copy (`RolledBackRow.RolledBackExactly`).
- A backfill of one document per call whose range holds the empty key never ends: the saved checkpoint reads
  as no checkpoint (`BackfillProgress.StuckForever`).
- Replay ignores an incomplete last line, but `append` writes right behind it, joining the two. A coordinator that
  recovered over such a line acknowledges its next settlement, and the journal gives that settlement back only if
  the joined line happens to read as it (`TornTail.TornCommit`).
- A settled idempotency key is forgotten when its event's next snapshot carries another key
  (`SettlementProjection.SettledKeyStays`, `SettlementProjection.SettledKeyForgotten`).
- The lock table's generation is called monotonically increasing; it wraps, and after exactly one grant more
  than there are generations a retired fence can pass again (`LockFencing.FenceBudget`).
- An accepted wire frame may have non-zero reserved bytes; it then does not re-encode to itself
  (`WireCodec.EncodeDecode`, `WireCodec.ReservedIsIgnored`).

## Model

| member | source | states |
|---|---|---|
| `ShardSafety.RunKeepsInv` | runtime/go/ubiq/shard.go:26-35 | every run of creations, phase changes, worker statements, Verify statements, crashes, completions, rollbacks and routed writes that does not spoil a migration keeps its invariant: source equals last writes before cutover, destination is a sub-map of it, destination equals last writes afterwards, no checkpoint held by the row or a worker skips a key neither copied nor in flight, no document in flight can put back an old value, and a Verify call about to enter cutover has equal backends |
| `ShardSafety.StepKeepsInv` | runtime/go/ubiq/shard.go:26-35 | each of the twenty-three kinds of step does |
| `ShardSafety.ExportFacts` | runtime/go/ubiq/shard_sql.go:24 | an exported batch holds current documents of the range only, no key twice, and every key after the cursor up to the new checkpoint, or every one when the batch is the last |
| `ShardSafety.ImportIntoView` | runtime/go/ubiq/shard_sql.go:25 | an import changes nothing outside the range and in the destination adds only missing keys |
| `ShardSafety.ImportKeepsSafe` | runtime/go/ubiq/shard.go:31 | importing a batch keeps every migration safe even if writes landed since it was exported |
| `ShardSafety.WriteKeepsSafe` | runtime/go/ubiq/shard.go:35 | a routed write keeps every migration safe whatever calls are in progress |
| `ShardSafety.RollbackKeepsSafe` | runtime/go/ubiq/shard.go:34 | a rollback that nothing disturbs keeps every migration safe whatever other calls are in progress |
| `ShardSafety.RollbackDeleteKeepsSafe` | runtime/go/ubiq/shard.go:34 | the deletion of a rollback does, whatever has happened since it tested the phase, unless a document of the migration in flight is stale, or a Verify call is about to enter cutover over a non-empty range, or the row has been cut over to a non-empty range |
| `ShardSafety.RollbackFinishKeepsSafe` | runtime/go/ubiq/shard.go:34 | so does the guarded update of a rollback that was overtaken |
| `ShardSafety.CompleteDeleteKeepsSafe` | runtime/go/ubiq/shard.go:33 | so does the deletion of a Complete call, whatever has happened since it tested the phase |
| `ShardSafety.CountKeepsSafe` | runtime/go/ubiq/shard.go:32 | the second count does unless it agrees with the first while the source has a different number of keys by now |
| `ShardSafety.SizesDecide` | runtime/go/ubiq/shard.go:32 | counts taken at one moment are equal exactly when the contents are, because the destination is a sub-map |
| `ShardSafety.TargetsOfCovered` | runtime/go/ubiq/shard.go:35 | with disjoint ranges a covered key is routed by its one row and no other |
| `KeyOrder.LessIsLexicographic` | runtime/go/ubiq/shard_sql.go:24 | keys are ordered at their first difference, and a prefix comes first |
| `ShardAuthority.AuthorityHoldsLastWrites` | runtime/go/ubiq/shard.go:29-35 | in every run that does not spoil the migration the authoritative backend (source before cutover, destination from cutover on) maps each key of the range to its last written value and holds no other key of the range |
| `ShardAuthority.UninterruptedAuthority` | runtime/go/ubiq/shard.go:29-35 | the same in every admissible run, for a migration whose destination no overtaken rollback emptied after its copying began |
| `ShardAuthority.UninterruptedIsCareful` | runtime/go/ubiq/shard.go:29-35 | no step of any run spoils such a migration, whatever is written between its counts |
| `ShardAuthority.CutoverOnlyWhenEqual` | runtime/go/ubiq/shard.go:32 | the step into cutover is the last statement of a Verify call and finds both backends equal on the range |
| `ShardAuthority.OnlyCommitCutsOver` | runtime/go/ubiq/shard.go:28-35 | a step moves a row into cutover if and only if it is that statement of a call whose counts agreed and the row is still in verify |
| `ShardAuthority.VerifyPassesExactly` | runtime/go/ubiq/shard.go:32 | a Verify call of an uninterrupted migration passes if and only if the source has gained no key since the call counted it; of an interrupted one if and only if the destination has as many keys now as the source had then; and it spoils the migration if and only if it passes on unequal backends |
| `ShardAuthority.VerifyCallIsItsSteps` | runtime/go/ubiq/shard.go:32 | an undisturbed call is its four statements in sequence |
| `ShardAuthority.RollbackCallIsItsSteps` | runtime/go/ubiq/shard.go:34 | an undisturbed rollback is its three statements in sequence |
| `ShardAuthority.CompleteCallIsItsSteps` | runtime/go/ubiq/shard.go:33 | an undisturbed completion is its statements in sequence |
| `ShardAuthority.BackfillCallIsItsSteps` | runtime/go/ubiq/shard.go:31 | an undisturbed backfill call is its four statements in sequence, and changes nothing outside the backfill phase |
| `ShardAuthority.PhaseMovesExactly` | runtime/go/ubiq/shard.go:29-34 | a row moves between two phases if and only if the step is the one statement for it: planned, dual write, backfill on command; verify by the save of a last batch; cutover by a Verify call whose counts agreed; complete by a Complete call; rolled back from before the cutover by a Rollback call |
| `ShardAuthority.CompleteLosesNothing` | runtime/go/ubiq/shard.go:33 | completing, with or without deletion, at once or statement by statement, leaves the destination with exactly the last written values, and a deletion leaves no key of the range in the source |
| `ShardLimits.SpoilsExactly` | runtime/go/ubiq/shard.go:31-35 | from any state that keeps the invariant, a step spoils the migration if and only if some run after it that spoils nothing more ends with the authoritative backend wrong |
| `ShardLimits.StaleBatchServed` | runtime/go/ubiq/shard.go:34 | emptying the destination while a stale document is in flight: import it, write the other keys, finish the backfill, verify, and the row is cut over to a destination that holds the stale document |
| `ShardLimits.EmptiedWhileDeciding` | runtime/go/ubiq/shard.go:34 | emptying it while a Verify call is about to enter cutover: the call cuts over with what was written missing |
| `ShardLimits.EmptiedAfterCutover` | runtime/go/ubiq/shard.go:34 | a deletion that comes after the cutover leaves the authority without what was written |
| `ShardLimits.SpoiltCountFails` | runtime/go/ubiq/shard.go:32 | a count that agrees by accident: the call cuts over with a key missing |
| `RollbackRace.InterruptedRollbackServesStaleData` | runtime/go/ubiq/shard.go:34 | for any two different values a run from an empty table reaches a state in which the deletion of a rollback leads to a cutover that serves the older value |
| `RollbackRace.NewKeyFailsVerify` | runtime/go/ubiq/shard.go:32 | a reachable state in which a key written between the counts fails Verify on equal backends |
| `RollbackRace.InterruptedVerifyLosesKey` | runtime/go/ubiq/shard.go:32-34 | a reachable state from which a rollback that stops after its deletion, a count, a write of a new key, a count and a commit lose a key |
| `RollbackRace.RollbackAfterCutoverLosesAll` | runtime/go/ubiq/shard.go:32-34 | a reachable state in which a rollback that tested the phase before a cutover empties the authority after it |
| `RolledBackRow.RolledBackExactly` | runtime/go/ubiq/shard.go:31-35 | for a rolled-back row whose destination has no key of the range: no run whatsoever puts a key of the range into the destination, changes the source there or changes the row, if and only if no worker of the row holds a document or would find one above its checkpoint, and no completion of it is about to delete a document |
| `RolledBackRow.QuietStaysUntouched` | runtime/go/ubiq/shard.go:31-35 | one half of it, for every admissible run |
| `RolledBackRow.NoisyTouches` | runtime/go/ubiq/shard.go:31-34 | the other half: the run that touches it, a late import, a late export and import, or a late deletion |
| `RolledBackRow.LateCopyIsReachable` | runtime/go/ubiq/shard.go:31-34 | a run from an empty table reaches a rolled-back row with an empty destination and no exported batch in flight into which a worker loaded before the rollback then copies |
| `RolledBackRow.RolledBackIsFinal` | runtime/go/ubiq/shard.go:28-34 | no step changes a row that is rolled back |
| `BackfillProgress.BackfillEndsExactly` | runtime/go/ubiq/shard.go:31 | with n documents in range and limit L, undisturbed and not stuck, call n/L + 1 and no earlier one reaches verify, with every document copied |
| `BackfillProgress.CheckpointRises` | runtime/go/ubiq/shard.go:31 | the checkpoint strictly rises with every call but the last |
| `BackfillProgress.StuckForever` | runtime/go/ubiq/shard.go:31 | with limit 1 and the empty key in range no number of calls leaves backfill or moves the checkpoint |
| `ShardCoordinator.ExportRange` | runtime/go/ubiq/shard_sql.go:24 | of the keys in the range above the checkpoint (an empty one is none) the batch holds the first `limit` with their documents in key order, the last key as next cursor, and done exactly when there was room for more |
| `ShardCoordinator.ImportRows` | runtime/go/ubiq/shard_sql.go:25 | the keys of both, existing values kept, and of several documents of a new key the first |
| `ShardCoordinator.Coordinator.Register` | runtime/go/ubiq/shard.go:24 | a backend is added exactly when its id is non-empty and new |
| `ShardCoordinator.Coordinator.Create` | runtime/go/ubiq/shard.go:26 | success exactly for a non-empty new id and two different non-empty registered backends, and then the row is planned with an empty checkpoint |
| `ShardCoordinator.Coordinator.SetState` | runtime/go/ubiq/shard.go:28 | the guarded update succeeds exactly when the row is in one of the expected phases, and writes phase and checkpoint only |
| `ShardCoordinator.Coordinator.BackfillOnce` | runtime/go/ubiq/shard.go:31 | success exactly in the backfill phase: the first `limit` remaining documents, or 500 if the limit is not positive, are added to the destination, the checkpoint is the last of them, and the row is in verify, which is reported, exactly when there was room for more |
| `ShardCoordinator.Coordinator.VerifyCutover` | runtime/go/ubiq/shard.go:32 | success exactly in verify with as many keys of the range in the source as in the destination, and then only the phase changes |
| `ShardCoordinator.Coordinator.CompleteMigration` | runtime/go/ubiq/shard.go:33 | success exactly in cutover; only the phase changes, and the source loses exactly its keys of the range if asked for |
| `ShardCoordinator.Coordinator.RollbackMigration` | runtime/go/ubiq/shard.go:34 | success exactly before cutover; the destination loses exactly its keys of the range also on a row that is already rolled back, where the guarded update then fails |
| `ShardCoordinator.Coordinator.TargetsForWrite` | runtime/go/ubiq/shard.go:35 | a backend is a target if and only if some row has the key in its range and the backend is its source in planned, dual write, backfill or verify, or its destination in dual write, backfill, verify, cutover or complete; a rolled-back row routes nowhere |
| `SettlementProjection.FindKey` | src/ubiq/settlement_projection.zig:75-80 | the first entry with the key, or none exactly when no entry has it |
| `SettlementProjection.FindEvent` | src/ubiq/settlement_projection.zig:82-87 | the first entry with the event id, or none exactly when no entry has it |
| `SettlementProjection.RunKeepsDistinct` | src/ubiq/settlement_projection.zig:38-73 | in every run event ids are pairwise distinct and so are idempotency keys |
| `SettlementProjection.SearchIsLookup` | src/ubiq/settlement_projection.zig:75-87 | linear search finds each entry by its id and by its key, so it answers like a map |
| `SettlementProjection.ApplyIsUpdate` | src/ubiq/settlement_projection.zig:57-73 | after a snapshot its event has exactly that record and every other event the record it had |
| `SettlementProjection.SettledIsFinal` | src/ubiq/settlement_projection.zig:113-121 | a settled event keeps its state in every further run |
| `SettlementProjection.SettledKeyStays` | src/ubiq/settlement_projection.zig:101-105 | a settled key stays settled under a snapshot if and only if the snapshot is not of the key's event under another key |
| `SettlementProjection.SettledKeyForgotten` | src/ubiq/settlement_projection.zig:38-73 | for every projection, settled key and unused key there is a snapshot that is accepted and makes the settled key forgotten |
| `SettlementProjection.SettledKeyIsFinal` | src/ubiq/settlement_projection.zig:38-105 | in a run where each event keeps its key, a key settled at some point is settled ever after |
| `SettlementProjection.EntriesComeFromRun` | src/ubiq/settlement_projection.zig:57-73 | every entry is a snapshot that was applied |
| `SettlementProjection.RecoveryProjection.FindByIdempotencyKey` | src/ubiq/settlement_projection.zig:75-80 | the loop finds what the search function finds |
| `SettlementProjection.RecoveryProjection.FindByEventId` | src/ubiq/settlement_projection.zig:82-87 | the loop finds what the search function finds |
| `SettlementProjection.RecoveryProjection.ValidateRecord` | src/ubiq/settlement_projection.zig:38-52 | the error, in the source's order of conditions; which one it is after any accepted run is `Transitions.VerdictExactly` |
| `SettlementProjection.RecoveryProjection.ApplyRecord` | src/ubiq/settlement_projection.zig:57-73 | replaces or appends exactly when validation passes, otherwise changes nothing |
| `SettlementProjection.RecoveryProjection.Settled` | src/ubiq/settlement_projection.zig:101-105 | whether the key's current record is settled |
| `SettlementProjection.RecoveryProjection.Claimable` | src/ubiq/settlement_projection.zig:91-99 | whether the event may be claimed at the given time |
| `SettlementJournal.HexRoundTrip` | src/ubiq/settlement_journal.zig:58-59 | the checksum text reads back as the checksum |
| `SettlementJournal.HexDigits` | src/ubiq/settlement_journal.zig:58-59 | each digit of the checksum text is the lower-case hexadecimal digit of its place, most significant first |
| `SettlementJournal.HexIsShort` | src/ubiq/settlement_journal.zig:58-59 | without leading zeros |
| `SettlementJournal.DigitsRead` | src/ubiq/settlement_journal.zig:102 | digits are read in either case |
| `SettlementJournal.AppendRefusedExactly` | src/ubiq/settlement_journal.zig:52-70 | which record append refuses with which error: missing id, name, key or owner; a settled record with an owner; too large; no room for the line |
| `SettlementJournal.LineVerdict` | src/ubiq/settlement_journal.zig:99-110 | a line without a tab, or the text before its first tab and the bytes behind it, and the error of each check in order |
| `SettlementJournal.LineParses` | src/ubiq/settlement_journal.zig:52-60 | a written line has no inner newline and parses back to its record |
| `SettlementJournal.ReplayLines` | src/ubiq/settlement_journal.zig:80-114 | replay of a file that starts with the lines of an acceptable run applies exactly those records and goes on behind them |
| `SettlementJournal.ReplayIgnoresTail` | src/ubiq/settlement_journal.zig:77-114 | whatever follows the last newline does not matter |
| `SettlementJournal.TornAppend` | src/ubiq/settlement_journal.zig:50-75 | after any prefix of an append, replay gives the state before it, or after it exactly when the whole line was written |
| `DurableSettlement.RunKeepsInv` | src/ubiq/durable_settlement.zig:32-102 | every run with faults, crashes and restarts keeps the file equal to the accepted lines plus an unfinished tail, the ready memory equal to their replay, and every acknowledged key settled in them |
| `DurableSettlement.ReadyMeansReplayed` | src/ubiq/durable_settlement.zig:32-71 | whenever the coordinator is recovered and not poisoned, its projection is what replaying the file gives and the next sequence follows the last one |
| `DurableSettlement.CrashRecovers` | src/ubiq/durable_settlement.zig:32-71 | after a crash anywhere inside persist, recovery from the file yields exactly the projection before or after the record in flight, and succeeds unless sequences are exhausted |
| `DurableSettlement.AckedKeysAreDurable` | src/ubiq/durable_settlement.zig:73-102 | in every run each acknowledged key is backed by a complete settled line in the journal bytes |
| `DurableSettlement.PersistExactly` | src/ubiq/durable_settlement.zig:52-71 | which reply is given when, that a snapshot the projection refuses changes nothing, that every later failure poisons, and that memory takes the record only when the whole line is in the file |
| `DurableSettlement.JournalFile.Append` | src/ubiq/settlement_journal.zig:52-75 | the refusals in order, and otherwise the line appended at the end, or any part of it when the write fails |
| `DurableSettlement.JournalFile.Replay` | src/ubiq/settlement_journal.zig:80-114 | the cursor loop visits complete lines in order, counts them, and stops at the first error |
| `DurableSettlement.Coordinator.RecoverProjection` | src/ubiq/durable_settlement.zig:32-43 | success exactly on the first recovery of a file that replays and leaves a sequence number; a replay that fails poisons and leaves the partial projection; the memory after each outcome |
| `DurableSettlement.Coordinator.PersistSnapshot` | src/ubiq/durable_settlement.zig:52-71 | validate, append, apply, advance, in this order, with the memory, bytes and reply of each outcome, a failed write and a failed allocation included |
| `DurableSettlement.Coordinator.CommitSettlement` | src/ubiq/durable_settlement.zig:75-87 | an acknowledgement exactly for a settled snapshot that was persisted, and then its whole line is in the file; the state after every outcome |
| `DurableSettlement.Coordinator.MayAckRedelivery` | src/ubiq/durable_settlement.zig:91-102 | an acknowledgement exactly when ready and the key is settled |
| `TornTail.JoinedReads` | src/ubiq/settlement_journal.zig:69-108 | a line torn anywhere and the next one, read as one line, give the new record under exactly the stated condition: nothing was left, or a zero checksum, or the joined text fits, has the lost record's checksum and decodes to the new record |
| `TornTail.TornInChecksum` | src/ubiq/settlement_journal.zig:69-105 | torn inside its checksum, the joined line gives the new record if nothing was left or the lost checksum is zero, and otherwise is unreadable |
| `TornTail.AppendAfterTornTail` | src/ubiq/settlement_journal.zig:69-75 | when the joined line fails its length or checksum test, replay fails from then on, whatever follows, with only the earlier records applied |
| `TornTail.ReplayJoined` | src/ubiq/settlement_journal.zig:69-114 | replay gives the appended record back if and only if the joined line reads as it |
| `TornTail.TornCommit` | src/ubiq/durable_settlement.zig:32-87 | a coordinator that recovered over a torn line acknowledges its next settlement; the journal replays to the coordinator's own projection if and only if the joined line reads as it, and the next recovery is poisoned when the joined line fails its checksum |
| `TornTail.CrashLeavesTorn` | src/ubiq/durable_settlement.zig:32-71 | every crash inside an append and the recovery after it lead to such a coordinator |
| `AckHistory.EntriesAreLatest` | src/ubiq/settlement_projection.zig:57-73 | the projection holds exactly the last record of each event |
| `AckHistory.SettledIsSettledLast` | src/ubiq/settlement_projection.zig:101-105 | a key is settled if and only if the last record of some event settles it |
| `AckHistory.SettledEventStays` | src/ubiq/settlement_projection.zig:113-121 | after a settled record every later record of its event is settled the same way |
| `AckHistory.AckedKeyLater` | src/ubiq/durable_settlement.zig:73-102 | an acknowledged key is reported settled by every ready coordinator if its event's last record still carries it, and otherwise if and only if the last record of another event settles it |
| `AckHistory.AckedKeyStaysSettled` | src/ubiq/durable_settlement.zig:73-102 | in every run where each event keeps its key, every acknowledged key is settled in every ready coordinator |
| `Transitions.AcceptedExactly` | src/ubiq/settlement_projection.zig:38-121 | a sequence of snapshots is accepted if and only if its numbers rise from above zero, no snapshot takes the key of another event's last snapshot, and of every two snapshots of one event: between a published or expired one and a later received or settled one there is a leased one, none returns to published from another state, and after a settled one only the same state follows |
| `Transitions.VerdictExactly` | src/ubiq/settlement_projection.zig:38-52 | after every accepted sequence, the verdict on one more snapshot from the history alone: sequence regression, then key conflict, then an invalid transition exactly when it breaks one of the three rules, and otherwise accepted |
| `Transitions.AcceptedIsOrderly` | src/ubiq/settlement_projection.zig:113-121 | every accepted sequence keeps the three rules |
| `Transitions.PersistedExactly` | src/ubiq/durable_settlement.zig:52-87 | in every run a ready coordinator persists a snapshot, and so acknowledges a settled one, if and only if its key is free, it breaks no rule with the journal's records, the record is complete and fits, nothing fails and a sequence number is left |
| `ControlStore.Candidate` | runtime/go/ubiq/store.go:125-161 | the claimed row is free and was created before every other free row, or at the same time with the smaller id |
| `LeaseSafety.RunKeepsInv` | runtime/go/ubiq/store.go:90-234 | every run keeps rows, settlements, grant history and settle history consistent |
| `LeaseSafety.SettlementMatchesState` | runtime/go/ubiq/store.go:125-224 | in every run an event has a settlements row exactly when it is settled, of exactly the kind that settles so, and with the row's own token, which was issued and is the largest issued; at most one settle succeeded; attempt, token and number of claims are equal |
| `LeaseSafety.SettleNeverDropped` | runtime/go/ubiq/store.go:186-224 | a settle that passes its guard always stores its own settlement, never losing to the conflict clause |
| `LeaseSafety.OlderTokenIsFenced` | runtime/go/ubiq/store.go:163-224 | once a later token is granted, receive and settle frames with an older one are refused at every clock |
| `LeaseSafety.LeaseWindowsDisjoint` | runtime/go/ubiq/store.go:125-161 | with a clock that does not go back, windows granted for one event have rising tokens and are never active together |
| `ClaimDrain.QueueAfter` | runtime/go/ubiq/store.go:125-161 | successive claims take the waiting events in order |
| `ClaimDrain.NextClaim` | runtime/go/ubiq/store.go:125-161 | the n-th claim takes the n-th waiting event |
| `ClaimDrain.RequeueFreesUnsettled` | runtime/go/ubiq/store.go:226-234 | past every lease, requeueing makes exactly the unsettled events claimable |
| `ClaimDrain.EveryUnsettledEventOnce` | runtime/go/ubiq/store.go:90-161 | after any run and such a requeue, repeated claims return every unsettled event exactly once, an earlier call one created earlier or at the same time with the smaller id, no settled one, and then nothing is available |
| `FrameHistory.SettleSucceedsExactly` | runtime/go/ubiq/store.go:186-224 | in every run with a clock that does not go back, a settle frame succeeds if and only if its kind and fields are valid, the last grant of the event carries its token and worker, the time is within that grant, and the event was not settled |
| `FrameHistory.ReceiveSucceedsExactly` | runtime/go/ubiq/store.go:163-184 | the same for a receive frame, and the event was not received under that token |
| `FrameHistory.GrantsComeFromClaims` | runtime/go/ubiq/store.go:125-161 | every grant was made by a claim of its worker at its start and lasts the lease in whole milliseconds |
| `ControlDb.RepublishReturnsFirst` | runtime/go/ubiq/store.go:90-123 | after any further run, publishing a known key changes nothing and finds the first envelope |
| `ControlDb.EnvelopeStays` | runtime/go/ubiq/store.go:90-234 | no run changes or removes a stored envelope |
| `ControlDb.Store.Publish` | runtime/go/ubiq/store.go:90-123 | a row is created exactly for a valid envelope with a new id and a new key, published with attempt and token 0; otherwise the stored envelope of the key, or an error for an invalid envelope or a taken id |
| `ControlDb.Store.Claim` | runtime/go/ubiq/store.go:125-161 | something is claimed exactly when worker and lease are given and a row is free; the claimed row comes before every other free row by creation time, then id, is leased to the worker with attempt and token one higher, and ends the lease in whole milliseconds later; no other row changes, and the right error otherwise |
| `ControlDb.Store.MarkReceived` | runtime/go/ubiq/store.go:163-184 | success exactly for a complete receive frame that names the owner and token of a leased row whose lease ends later; then only state and time change; and which error otherwise |
| `ControlDb.Store.Settle` | runtime/go/ubiq/store.go:186-224 | success exactly for a complete ok or error frame that names the owner and token of a held row whose lease ends later; then row and settlement change together; and which error otherwise |
| `ControlDb.Store.RequeueExpired` | runtime/go/ubiq/store.go:226-234 | exactly the held rows whose lease ends at or before the time become expired without owner or lease, and their number is returned |
| `Placement.TopIsTop` | src/ubiq/cluster.zig:53-79 | the chosen indexes are distinct members, as many as asked for or all, in strict order of preference, and every one left out is beaten by every one chosen |
| `Placement.ReplicasExactly` | src/ubiq/cluster.zig:53-79 | the replicas are healthy nodes, as many as asked for or all, by falling score and at equal scores by rising position, and no healthy node left out comes before a chosen one |
| `Placement.SmallerFactor` | src/ubiq/cluster.zig:53-79 | any smaller factor gives a prefix, shorter by the difference at most |
| `Placement.RemoveOne` | src/ubiq/cluster.zig:53-79 | taking away a node keeps the others in order and adds at most one |
| `Placement.MinimalDisruption` | src/ubiq/cluster.zig:46-79 | marking a node unhealthy leaves the replicas alone if it was not among them, and otherwise removes it and appends at most one node |
| `Placement.OrderOfRegistrationIsIrrelevant` | src/ubiq/cluster.zig:53-79 | if no replica has the score of another healthy node, the replica ids depend on the set of healthy nodes only |
| `Placement.TieMatters` | src/ubiq/cluster.zig:53-79 | if one has, registering those two the other way round changes the replica ids |
| `Placement.RegistrationOrder` | src/ubiq/cluster.zig:53-79 | so the order of registration is irrelevant if and only if no replica is tied |
| `Placement.Cluster.MembersAreDistinct` | src/ubiq/cluster.zig:37-44 | registration keeps ids distinct, which those results ask for |
| `Placement.Cluster.Find` | src/ubiq/cluster.zig:90-96 | the first node with the id, or none exactly when there is none |
| `Placement.Cluster.Register` | src/ubiq/cluster.zig:37-44 | appended unless the id is taken or the cluster is full |
| `Placement.Cluster.SetHealthy` | src/ubiq/cluster.zig:46-51 | one node's mark changes, or the id is unknown |
| `Placement.Cluster.PickBest` | src/ubiq/cluster.zig:60-74 | the inner loop finds the best healthy node not yet chosen |
| `Placement.Cluster.ReplicasFor` | src/ubiq/cluster.zig:53-79 | the nested loops return the top nodes, or the right error |
| `DependencyGraph.Visit` | src/ubiq/dependency_graph.zig:47-57 | a failed visit proves a cycle; a successful one blackens the node, keeps the grey path, and extends a dependency-first order |
| `DependencyGraph.DetectCycles` | src/ubiq/dependency_graph.zig:39-45 | success if and only if the required edges have no directed cycle, for any number of nodes and any edges, and then the blackening order has every node behind all it requires |
| `DependencyGraph.Validate` | src/ubiq/dependency_graph.zig:26-37 | passes exactly for consistent acyclic graphs; a missing requirement or a conflict is reported exactly when the first violated edge is one, and the cycle exactly when no edge is violated |
| `DependencyGraph.BootOrderMeansAcyclic` | src/ubiq/dependency_graph.zig:39-57 | a graph with such an order has no cycle |
| `CanonicalEvent.AcceptedNames` | src/ubiq/event.zig:30-55 | a name is accepted with a state if and only if it consists of letters, digits, dots, `_` and `-`, has a dot and later another one, and the word `request`, `ok` or `error` of the state follows the later one |
| `CanonicalEvent.RefusedNames` | src/ubiq/event.zig:30-55 | which names are empty and which have an invalid state; every other refused name is not canonical |
| `CanonicalEvent.Parse` | src/ubiq/event.zig:30-55 | the scanning loop decides as the function does, with the same errors |
| `WireCodec.DecodeEncode` | src/ubiq/wire.zig:19-133 | decoding undoes encoding for exactly the envelopes within the length limits whose name carries their state |
| `WireCodec.EncodeDecode` | src/ubiq/wire.zig:19-133 | every accepted frame decodes to a sendable envelope and is its encoding if and only if its reserved bytes are zero |
| `WireCodec.ReservedIsIgnored` | src/ubiq/wire.zig:58-110 | every sendable envelope has, for each non-zero 64-bit value, an accepted frame with that value in the reserved bytes, which is not its encoding |
| `WireCodec.PrefixFree` | src/ubiq/wire.zig:58-110 | no accepted frame is a strict prefix or extension of another |
| `WireCodec.IntsRoundTrip` | src/ubiq/wire.zig:112-121 | big-endian fields read back |
| `WireCodec.BytesRoundTrip` | src/ubiq/wire.zig:112-121 | any header bytes are the encoding of what they decode to |
| `WireCodec.BigEndian` | src/ubiq/wire.zig:112-115 | byte i of w is the value divided by 256 to the power w - 1 - i, modulo 256 |
| `WireCodec.FrameLayout` | src/ubiq/wire.zig:19-56 | every byte of a frame by its offset: the letters UBIQ, version 1, the codes 0, 1, 2 of state and guarantee, the time, the seven lengths, eight zero bytes, and the fields in order |
| `WireCodec.RefusedHeaders` | src/ubiq/wire.zig:58-77 | the errors of a short frame, wrong letters, wrong version, unknown state and unknown guarantee, in order |
| `WireCodec.RefusedBodies` | src/ubiq/wire.zig:80-110 | behind a good header: lengths that do not add up, a name that does not parse, a state that disagrees, and otherwise accepted |
| `WireBuffer.PutInt` | src/ubiq/wire.zig:112-115 | writes the big-endian bytes at the cursor and nothing else |
| `WireBuffer.TakeInt` | src/ubiq/wire.zig:117-121 | the value of the bytes at the cursor |
| `WireBuffer.CopyField` | src/ubiq/wire.zig:123-126 | writes the field at the cursor and nothing else |
| `WireBuffer.Encode` | src/ubiq/wire.zig:19-56 | the frame at the front of the buffer and nothing behind it changed, or a field over 65535 bytes (payload 4294967295) or a short buffer as the error and nothing changed |
| `WireBuffer.Decode` | src/ubiq/wire.zig:58-110 | the cursor-driven decoder answers as the function does, errors in the same order |
| `TcpFraming.StreamRoundTrip` | src/ubiq/tcp_binding.zig:12-26 | any list of envelopes the receiver can take, framed one behind the other and followed by anything, reads back as that list and leaves what followed |
| `TcpFraming.CutFrameIsNotRead` | src/ubiq/tcp_binding.zig:21-26 | a framed envelope cut short anywhere reads as the end of the stream |
| `TcpFraming.ReceivedExactly` | src/ubiq/tcp_binding.zig:21-26 | for every announced length: too large for the buffer or for 4 MiB, cut short, not a frame, or the envelope and the rest |
| `TcpFraming.Writer.SendFramed` | src/ubiq/tcp_binding.zig:12-18 | the framed envelope is sent, or nothing and the right error |
| `TcpFraming.Reader.ReceiveFramed` | src/ubiq/tcp_binding.zig:21-26 | one frame is taken off the stream and decoded, or the right error |
| `ReplayWindow.Oldest` | src/ubiq/security_runtime.zig:33-36 | the first of the entries that expire soonest |
| `ReplayWindow.AcceptRefines` | src/ubiq/security_runtime.zig:22-42 | an accept answers as the unbounded log does: replay exactly on an unexpired acceptance of the nonce, else full exactly when `capacity` acceptances are unexpired |
| `ReplayWindow.LogAnswerExactly` | src/ubiq/security_runtime.zig:22-42 | what the log answers: a replay exactly when an acceptance of the nonce has not expired, else accepted exactly when fewer than `capacity` acceptances have not, and then logged to expire after its time to live |
| `ReplayWindow.RunRefinesLog` | src/ubiq/security_runtime.zig:16-55 | with a clock that does not go back every run of accepts and reaps gives the log's answers |
| `ReplayWindow.ReapIsUnobservable` | src/ubiq/security_runtime.zig:44-53 | leaving out every reap of a run changes no answer |
| `ReplayWindow.AcceptedOncePerWindow` | src/ubiq/security_runtime.zig:22-42 | an accepted nonce is refused until it expires, whatever is accepted, reaped or overwritten in between |
| `ReplayWindow.BackwardClockForgets` | src/ubiq/security_runtime.zig:44-53 | after a reap at a later time a call at an earlier time takes an unexpired nonce again, where the log reports a replay |
| `ReplayWindow.SafeClock` | src/ubiq/security_runtime.zig:16-55 | the window answers as the log in every run with smaller backward jumps if and only if that allows none |
| `ReplayWindow.Window.Accept` | src/ubiq/security_runtime.zig:22-42 | the answer is the log's and the array holds what the value function says |
| `ReplayWindow.Window.Reap` | src/ubiq/security_runtime.zig:44-53 | in-place compaction keeps exactly the unexpired entries in order and leaves the log alone |
| `ProofCache.AcceptedAtMostOnce` | runtime/go/ubiq/crypto.go:272-309 | for every skew and stamp unit, flooring included, no proof is accepted twice in any run whose clock never jumps back by the skew plus one stamp, or, with a positive skew under a third of a stamp, by two stamps less two skews; with a negative skew none is accepted |
| `ProofCache.SafeFallBack` | runtime/go/ubiq/crypto.go:298-303 | that bound is exact for every skew: all runs with smaller jumps are safe if and only if the skew is negative or the jumps are smaller than it |
| `ProofCache.FallBackAcceptsTwice` | runtime/go/ubiq/crypto.go:298-308 | a run that jumps back exactly that far accepts a proof twice |
| `ProofCache.ReplayedExactly` | runtime/go/ubiq/crypto.go:295-309 | with a clock that does not go back, a sound fresh proof is a replay exactly when its key was accepted with a stamp the cutoff has not passed |
| `ProofCache.OnlyAccepted` | runtime/go/ubiq/crypto.go:304-308 | every cached stamp is that of an accepted proof |
| `ProofCache.JudgedExactly` | runtime/go/ubiq/crypto.go:272-309 | each answer of one verification in terms of clock, stamp and skew, a replay exactly when the cached stamp ends later than twice the skew ago, and the cache after each answer |
| `ProofCache.Prune` | runtime/go/ubiq/crypto.go:299-303 | the deletion loop keeps exactly the stamps the cutoff has not passed |
| `ProofCache.PoPVerifier.VerifyPoP` | runtime/go/ubiq/crypto.go:272-309 | the order of binding, freshness, digest, signature and replay checks, and the cache after each |
| `ProofCache.DPoPVerifier.Verify` | runtime/go/ubiq/dpop.go:19 | the same over seconds, with the configured skew if it is positive and five minutes otherwise |
| `MemoryBroker.FirstFree` | src/ubiq/delivery.zig:61-73 | the first published or expired record |
| `MemoryBroker.Broker.PublishEnvelope` | src/ubiq/delivery.zig:51-59 | the slot of the key with nothing changed, a new published record behind the others, or full |
| `MemoryBroker.Broker.ClaimNext` | src/ubiq/delivery.zig:61-73 | the first published or expired record is leased to the worker until now plus the lease, with the next attempt; nothing available exactly when there is none |
| `MemoryBroker.Broker.Receive` | src/ubiq/delivery.zig:75-80 | the leased record of its owner becomes received, or the right error |
| `MemoryBroker.Broker.SettleSlot` | src/ubiq/delivery.zig:82-93 | the leased or received record of its owner becomes settled ok or settled error as the outcome says and its lease is dropped, or the right error |
| `MemoryBroker.Broker.ReapExpired` | src/ubiq/delivery.zig:95-105 | exactly the records whose lease has lapsed become expired |
| `MemoryBroker.ReapIsItsWrites` | src/ubiq/delivery.zig:95-105 | the records that reaping changes, written back one by one, are the reaped records |
| `BrokerJournal.LeaseIsLastClaim` | src/ubiq/delivery.zig:51-105 | in every run a record's lease has the worker and end of its last claim and its attempt is the number of claims; a record without one was never claimed or is settled |
| `BrokerJournal.ProjectionMirrorsBroker` | src/ubiq/settlement_projection.zig:38-121 | in every broker run with sound envelopes and one key per event id, a snapshot of each changed record is always accepted, passes the journal's own record checks, and leaves the projection's entries telling the same as the broker's records, slot by slot and field by field |
| `BrokerJournal.MirrorNeedsOwnId` | src/ubiq/settlement_projection.zig:38-73 | through the publication of a new record the projection follows the broker if and only if no record of another key has its id |
| `BrokerJournal.ClaimableIsFreeAfterReap` | src/ubiq/settlement_projection.zig:89-99 | an event is claimable at a time if and only if reaping then would leave its record published or expired |
| `BrokerJournal.ClaimServesFirstClaimable` | src/ubiq/delivery.zig:61-105 | reap then claim serves the first claimable record, and nothing exactly when none is claimable |
| `LockTable.LeaseLocks.AcquireLock` | src/ubiq/lock.zig:30-51 | grants a free, lapsed or new key with the next generation, or the right error |
| `LockTable.LeaseLocks.RenewLock` | src/ubiq/lock.zig:53-59 | extends a live lock of its owner, or the right error |
| `LockTable.LeaseLocks.ReleaseLock` | src/ubiq/lock.zig:61-67 | deactivates an active lock of its owner, or the right error; what that means is `LockFencing.ReleaseFrees` |
| `LockTable.LeaseLocks.Validate` | src/ubiq/lock.zig:69-74 | whether the live lock on the key has this owner and generation |
| `LockTable.LeaseLocks.ReapExpired` | src/ubiq/lock.zig:76-83 | exactly the expired active locks become inactive |
| `LockTable.LeaseLocks.TakeGeneration` | src/ubiq/lock.zig:85-90 | the current generation, and the counter moved with wrap-around over zero |
| `LockFencing.ReapIsUnobservable` | src/ubiq/lock.zig:76-83 | with a clock that does not go back, leaving out every reap changes no answer of acquire, renew or validate |
| `LockFencing.ReleaseTellsOnlyExpired` | src/ubiq/lock.zig:61-67 | release differs exactly on a lock that only one table still marks active, and such a lock has expired |
| `LockFencing.GrantHolds` | src/ubiq/lock.zig:30-51 | a grant holds the key for its owner, with the granted generation, to the end of the lease |
| `LockFencing.RenewHolds` | src/ubiq/lock.zig:53-59 | renewing moves the end of a running lease and keeps the generation; a lapsed lease is refused |
| `LockFencing.HeldExcludes` | src/ubiq/lock.zig:30-51 | a held key is refused to everybody before the lease ends and granted to anybody from then on |
| `LockFencing.HeldWhileLeased` | src/ubiq/lock.zig:30-83 | nothing others do before the lease ends takes the lock: the fence holds exactly until expiry |
| `LockFencing.FenceIsExact` | src/ubiq/lock.zig:69-74 | the fence of a held lock passes its owner with its generation before the lease ends, and nobody else |
| `LockFencing.ReleaseFrees` | src/ubiq/lock.zig:61-67 | the owner of a held lock releases it at any time; then nobody passes the fence on the key, anybody is granted it at any clock with the next generation, and no other key's lock has changed |
| `LockFencing.ReleaseIsTheOwners` | src/ubiq/lock.zig:61-67 | a release by anybody else is refused and changes nothing |
| `LockFencing.RenewIsTheOwners` | src/ubiq/lock.zig:53-59 | so is a renewal |
| `LockFencing.FreeUntilAcquired` | src/ubiq/lock.zig:61-83 | after its owner's release the key stays free in every run until somebody acquires it |
| `LockFencing.InactiveIsRefused` | src/ubiq/lock.zig:53-67 | a lock that is not active can be neither renewed nor released |
| `LockFencing.UnknownKey` | src/ubiq/lock.zig:30-67 | a key without a lock is granted unless the table is full, and cannot be renewed or released |
| `LockFencing.CounterAfter` | src/ubiq/lock.zig:85-90 | the counter after any run, wrap-around included |
| `LockFencing.RetiredStaysRetired` | src/ubiq/lock.zig:30-90 | a superseded or released generation never passes the fence again, for any key, owner or clock, while grants do not exceed the number of generations |
| `LockFencing.WrapRevives` | src/ubiq/lock.zig:85-90 | with one grant more a run exists in which it does |
| `LockFencing.FenceBudget` | src/ubiq/lock.zig:22-90 | so the fence is safe for a budget of grants if and only if the budget is at most 2^64 - 1 |

## Left out

- `ShardCoordinator.Coordinator.TargetsForWrite`: returns a set; the source also sorts the names, which no guarantee depends on.
- `ProofCache.PoPVerifier.VerifyPoP`: signature and digest outcomes are arguments, durations are unbounded, and the skew is the same in all calls of a run theorem.
- `ProofCache.DPoPVerifier.Verify`: token parsing, key checks and case-insensitive comparison are boolean arguments.
- `WireBuffer.Encode`: the thirteen header writes are one loop over a table of field widths.
- `ControlDb.Store.Publish`: envelope validation is a boolean field; delivery history rows, whose insert errors the source ignores, are not kept.
- `Placement.Cluster.ReplicasFor`: the score is any function of key and node id, so nothing is claimed about how evenly the hash spreads keys.
- The 32-bit FNV checksum, JSON text, the file-read size limit and the signs and underscores that the hexadecimal number parser also accepts.
- Zig's 64-bit additions of clock and duration trap on overflow; here they are unbounded. So are the 32-bit attempt counters.
- Memory ownership of copied records, and allocation failure other than as a fault of `persist`.
- The MongoDB backend: its import replaces rows one by one, so a stale batch can overwrite a newer write.
- `cluster_raft.go` placement, which sorts with unspecified ties and hashes with another separator.
- Network and broker adapters; an acknowledgement is only the event that it was sent.
- Cryptographic primitives and key agreement.
- The outbox and the maintenance loop, where a failing head record blocks the queue and errors are dropped.
- The idempotency table, the Zig migration, supervisor, router, mapping and capability modules, which test one condition and set one field, and the configuration loaders, which read text into records.
