# Keel local-first state: a verified model

This project models the parts of Keel that keep state on a device without a
central lock, and proves what they promise:

- **the registry replica**: hybrid logical clocks, the merge of one op into one
  row, optimistic pending batches, acknowledgements, reconnects, save/restore
  recovery from a server that lost its storage, and rooms of many replicas;
- **transcripts**: delta frames between two transcript states, the fold of agent
  events into message parts, the incremental writer that streams the fold into
  the session document, and the split of oversized entries with its join;
- **the run journal**: an append-only log with cached cursors, torn writes,
  reopening and dropped handles;
- **commands and warm documents**: the mark-before-execute drain of the command
  ledger, and the eviction of least recently used documents;
- **terminals and git streams**: replay within a byte cap for subscribers that
  resume, and the two `-z` parsers behind the diff view.

Code that changes things in place is a class or a method with loops, proved
against a function on values; the theorems are about those functions, so they
hold of every run of the methods.

## Layout

| modules | what they hold |
|---|---|
| `Wrappers`, `Sequences`, `LexOrder`, `Decimal`, `Utf8` | shared datatypes, searches, string order, decimal numerals, UTF-8 boundaries |
| `Hlc` | the clock string, its order, runs of the clock, and restarts from an older snapshot |
| `Registry`, `RegistryMerge`, `RegistryRedelivery` | the row merge, what it keeps over runs, and exactly when an op or a batch can come again |
| `RegistryConvergence`, `RegistryVisible`, `RegistryUpdates` | when delivery order does not matter: to fields, to what readers see, to whether a row exists |
| `RegistryReplica` (`RegistryDoc.dfy`), `RegistryWrites` | the replica, and what its own writes show |
| `RegistryFrames`, `RegistryReseed`, `RegistryPending` | what server frames do to what is shown, what a re-seeded row keeps, and pending ops under frames |
| `RegistryProtocol`, `RegistryCrash` | the push protocol over whole runs, and over runs with crashes |
| `RegistryServer`, `RegistryRoom` | the server's merge and its answer to a hello, and all replicas and the server over whole runs, lost storage included |
| `Parts`, `PartsFold`, `PartsFollow` | parts of a message, how events fold into them, and what each kind of part shows of the events |
| `SessionDocs`, `SegmentSync` | the document writer, and its agreement with the fold |
| `SplitParts`, `Continuations`, `SplitIds` | splitting by size, joining continued entries, and the ids they end with |
| `Placement`, `TranscriptDelta`, `TranscriptFrames`, `TranscriptSync` | the anchored list patch, the differ and the patcher, what a frame carries and checks, and when the two sides agree |
| `RunJournals` (`RunJournal.dfy`), `JournalDurability`, `JournalCodec` | the journal, its durability, and a record format that meets its demands |
| `Commands`, `CommandSafety`, `CommandDrain` | evaluation and drain, at-most-once execution, and an undisturbed drain |
| `DocLru` | pinning, budgets and eviction |
| `Terminals` | replay window and subscribers |
| `GitStreams`, `GitRoundTrip` | the parsers, and that they invert what git writes |

`dafny verify dfyconfig.toml` checks everything.

## Where the code keeps less than its comments say

Each of these is a theorem here, with the exact condition under which the
promise does hold.

- Clock strings sort by time only while milliseconds keep their width: the first
  14-digit stamp sorts before the last 13-digit one
  (`Hlc.FourteenDigitsSortEarlier`); `Hlc.ClockRun` gives the exact condition.
- The clock is saved with the replica about a second after a change, so a crash
  restores an older one. A stamp then comes again exactly when the device stamps
  a lost millisecond again (`Hlc.RepeatsExactly`); all later stamps are newer
  exactly when the first reading after the restart is past the newest lost
  millisecond (`Hlc.RestartKeepsOrder`). With the wall clock no further than the
  snapshot the first stamp, and a batch id with it, does come again
  (`Hlc.RegressedRestartRepeats`, `RegistryCrash.LostWriteRepeatsItsId`).
- A revived row forgets its tombstone, so an op the row has seen can land when it
  comes again (`RegistryMerge.RevivalForgets`);
  `RegistryRedelivery.RedeliveryExactly` and `RedeliveryOverRuns` say exactly
  when it does not. What readers see converges exactly when the newest op is a
  delete or every field given a value has a write newer than every delete
  (`RegistryVisible.VisibleConvergence`).
- For the same reason a merged batch that arrives before its ack can show
  through differently while it is still pending; exactly when, with what other
  writers had merged since, is `RegistryFrames.BroadcastThenAckIsSeamless`.
- An ack that reaches a replica before rows numbered up to it moves the cursor
  past them, and the next delta leaves them out
  (`RegistryServer.AckedAheadExactly`). The in-process server drains its
  broadcasts before an ack only when the push changed something; with acks
  always behind their rows no row is missed (`RegistryRoom.RoomProtocol`).
- Updates and deletes that cross can leave a row live in one order and deleted in
  another (`RegistryUpdates.ExistenceUnderUpdates` gives the exact condition).
- A replica notices that the server lost its storage by a number below its
  cursor. If the server has counted past that cursor again before it rejoins,
  the answer is a delta, which leaves out for good what it lacks of the rows
  numbered up to its cursor (`RegistryServer.DeltaLevelsExactly`); which rejoin
  recovers, exactly, is `RegistryRoom.RejoinRecovers`.
- Not every mutation bumps the change counter: acks that retire nothing, pushes
  and lost connections do not. Everything that changes a read does
  (`RegistryWrites.GenerationTells`).
- Re-seeding drops the clocks of fields that were cleared and the stamp of an
  earlier tombstone. An older write to a cleared field then lands in the
  re-seeded copy (`RegistryFrames.SeedForgetsClearedFields`), and an older delete
  kills it (`RegistryReseed.SeedForgetsDeletes`). No later ops tell the row from
  its copy exactly when the row is a tombstone, or has no cleared field and no
  tombstone stamp newer than all its fields (`RegistryReseed.ReseedExactly`).
- A full replacement that lacks a row queues its seed behind the row's pending
  ops, so the updates at the head of the queue find no row and are lost
  (`RegistryPending.StateFrameOverPending`); exactly when a reader sees that is
  `RegistryPending.PendingUpdatesLost`.
- A transcript frame can rebuild the right entries in the wrong order without a
  desync (`TranscriptSync.PairSwapMisorders`); `TranscriptSync.FrameIsExact`
  says exactly when the order is right.
- A question is not shown if a tool already goes by the id of its part; exactly
  what is shown of it is `PartsFollow.InputFollowsEvents`.
- A decision part whose payload changes between two syncs keeps its first
  payload in the document, and an extra field that is cleared stays
  (`SegmentSync.ReadsBackExactly`, `SegmentSync.DecisionsKeepTheirFirstPayload`,
  `SegmentSync.ClearedStatsStay`).
- Two ids can share a journal file and then repeat seqs
  (`JournalDurability.SharedFileRepeatsSeqs`). Every run over a set of ids is
  durable in place exactly when no two of them share a file
  (`JournalDurability.DurableExactlyWithOwnFiles`), as ids in the file-safe
  alphabet never do.
- Of two steers issued the newer is to run alone. Listed before the older it is
  resolved first, and the older then runs too
  (`CommandDrain.NewerListedFirstLetsBothRun`); `CommandDrain.DrainRunsExactly`
  says exactly what runs in any list.
- The drain treats a failing ledger read as "not processed" and ignores whether
  the claim it then makes was new: when both reads of one turn fail, a command
  that ran before runs again (`CommandSafety.OnceExactly`,
  `CommandSafety.FailedReadsRunEveryTurn`).

## Model

| member | source | states |
|---|---|---|
| Hlc.HlcOrder | crates/doc/src/registry.rs:36-44 | for ms below 10^13 and counters of six digits, string order of encoded clocks is (ms, counter, device) order, both ways |
| Hlc.SameWidthOrder | crates/doc/src/registry.rs:42-44 | the same at any one width, and equal strings only for equal stamps |
| Hlc.WiderOrder | crates/doc/src/registry.rs:42-44 | when the later stamp is wider, the strings compare right exactly when the shorter number does not exceed the leading digits of the longer |
| Hlc.FourteenDigitsSortEarlier | crates/doc/src/registry.rs:42-76 | the first 14-digit stamp sorts before the stamp it follows |
| Hlc.HlcClock.Next | crates/doc/src/registry.rs:56-76 | a stamp is strictly later than the state before it, whatever the wall clock reads |
| Hlc.ClockRun | crates/doc/src/registry.rs:56-76 | over any run, with restarts from a snapshot of that very moment, stamps are distinct, the counter keeps six digits, and later stamps sort later exactly while the width holds or the leading digits keep up |
| Hlc.RepeatsExactly | crates/doc/src/registry.rs:53-76 | of two runs from one saved clock, the lost one and the one after the restart, some stamps coincide if and only if both stamp some one millisecond |
| Hlc.SameStampExactly | crates/doc/src/registry.rs:53-76 | a given string lost and a given string of the new life are equal if and only if they come from one device and one millisecond and have one rank in it, each in its life |
| Hlc.RestartKeepsOrder | crates/doc/src/registry.rs:53-76 | everything stamped after such a restart is later than everything lost if and only if its first reading is past the newest lost millisecond |
| Hlc.RegressedRestartRepeats | crates/doc/src/registry.rs:53-76 | with readings no further than the snapshot on both sides the same string is emitted twice |
| Registry.MaxClock | crates/doc/src/registry.rs:113-122 | the newest of all field clocks and the tombstone stamp; absent exactly when there is none |
| Registry.FindMaxClock | crates/doc/src/registry.rs:113-122 | the scan over the clocks finds that newest clock |
| Registry.ApplyWrites | crates/doc/src/registry.rs:229-249 | the field loop gives one result in any order of the fields, and its flag is up exactly when some write won |
| Registry.ApplyOpInPlace | crates/doc/src/registry.rs:166-250 | the merge as the code branches it equals the merge function in every case, missing rows and tombstones included |
| Registry.FoldConcat | crates/doc/src/registry.rs:607-623 | replaying two batches is replaying one after the other |
| RegistryMerge.StepMonotone | crates/doc/src/registry.rs:113-250 | one op never moves a row's newest clock or tombstone stamp back |
| RegistryMerge.ChangedIffDiffers | crates/doc/src/registry.rs:163-250 | the changed flag is up exactly when the row differs from the input |
| RegistryMerge.FoldMonotone | crates/doc/src/registry.rs:113-250 | along any run the row stays and stays well formed (fields keep clocks, tombstones a stamp and nothing else), and its clocks only rise |
| RegistryMerge.Redelivery | crates/doc/src/registry.rs:155-250 | an op delivered again after any later ops changes nothing: always for deletes, else if no revival intervened |
| RegistryRedelivery.RedeliveryExactly | crates/doc/src/registry.rs:155-250 | after any later ops, revivals included, an op that comes again changes nothing if and only if the row is not live or every field it writes is as new |
| RegistryRedelivery.RedeliveryOverRuns | crates/doc/src/registry.rs:155-250 | told by the run: if and only if the row did not come to life since, or all its fields were written again since it did, under clocks no older |
| RegistryRedelivery.ReplayExactly | crates/doc/src/registry.rs:155-250 | replaying a whole run after any later ops changes nothing if and only if the row is by then deaf to each op alone |
| RegistryMerge.RevivalForgets | crates/doc/src/registry.rs:217-243 | for every delete and later revival, an older write comes back into the revived row |
| RegistryMerge.UncarriedStampForgets | crates/doc/src/registry.rs:155-227 | an upsert none of whose writes carries its stamp is forgotten with a deleted row |
| RegistryConvergence.FieldConvergence | crates/doc/src/registry.rs:155-249 | a delete-free run ends in one row in every order if and only if top writes with equal clocks agree |
| RegistryConvergence.FieldIsGreatestWrite | crates/doc/src/registry.rs:229-249 | every field of the result is the write with the greatest clock, nulls included |
| RegistryVisible.Existence | crates/doc/src/registry.rs:166-227 | over creates, deletes and revivals with distinct stamps the row is live exactly when the newest op is an upsert, and its max clock is the greatest stamp |
| RegistryVisible.ExistenceConverges | crates/doc/src/registry.rs:166-227 | that does not depend on the order |
| RegistryVisible.VisibleConvergence | crates/doc/src/registry.rs:217-249 | what readers see is the same in every order if and only if the newest op is a delete or every field has a write newer than every delete |
| RegistryUpdates.ExistenceUnderUpdates | crates/doc/src/registry.rs:166-249 | whether a live row survives updates and deletes is the same in every order if and only if no delete is newer than the row, or one is newer than it and every update's writes |
| RegistryReplica.RegistryDoc.EnqueueOps | crates/doc/src/registry.rs:543-573 | chunks of at most 400 ops, each stamped by the clock, are queued behind the pending ones |
| RegistryReplica.RegistryDoc.WriteRow | crates/doc/src/registry.rs:575-585 | one stamped op is queued |
| RegistryReplica.RegistryDoc.DeleteRowOps | crates/doc/src/registry.rs:587-601 | deletes of all keys share one stamp |
| RegistryWrites.ReadYourWrites | crates/doc/src/registry.rs:575-623 | a write shows at once: each field written holds the new value under the write's stamp, or none for a null, unless what it held was as new; an update of a missing or deleted row shows nothing, a create revives unless the tombstone is as new; no other row reads differently |
| RegistryWrites.DeletesShow | crates/doc/src/registry.rs:587-623 | every listed row is gone at once under one stamp, unless something on it is as new; no other row reads differently |
| RegistryWrites.GenerationTells | crates/doc/src/registry.rs:363-366 | the change counter never falls, and while it stands still no read changes |
| RegistryReplica.RegistryDoc.TakePushableBatches | crates/doc/src/registry.rs:507-516 | hands out exactly the batches not in flight and flags them |
| RegistryReplica.RegistryDoc.Disconnected | crates/doc/src/registry.rs:519-523 | the queue keeps its batches and their ops, none is in flight, and the next push hands out all of it in order |
| RegistryReplica.RegistryDoc.Ack | crates/doc/src/registry.rs:492-504 | removes the acked batch only and never moves the cursor back |
| RegistryReplica.RegistryDoc.PutRows | crates/doc/src/registry.rs:525-530 | stores server rows by key, later ones over earlier |
| RegistryReplica.RegistryDoc.CollectSeeds | crates/doc/src/registry.rs:430-460 | one seed op per lost row, in the order met |
| RegistryReplica.RegistryDoc.ApplyStateFrame | crates/doc/src/registry.rs:417-478 | the three outcomes of a state frame: delta, replacement, re-seed |
| RegistryReplica.RegistryDoc.ApplyRowsFrame | crates/doc/src/registry.rs:481-489 | server rows land and the cursor only rises |
| RegistryReplica.RegistryDoc.ToBytes | crates/doc/src/registry.rs:374-390 | the saved record lists every row once and every batch without its flag |
| RegistryReplica.RegistryDoc.FromBytes | crates/doc/src/registry.rs:392-412 | a restored replica is the saved one with nothing in flight; a record of another version is refused |
| RegistryReplica.RegistryDoc.ReadRow | crates/doc/src/registry.rs:606-623 | an overlay read is the server row with the pending ops on it folded in order |
| RegistryReplica.RegistryDoc.ReadRows | crates/doc/src/registry.rs:626-642 | the list read shows exactly the rows single reads show, once each |
| RegistryFrames.SeedIsNoOpOnItself | crates/doc/src/registry.rs:252-284 | a row's seed changes nothing on the row itself |
| RegistryFrames.SeedRebuilds | crates/doc/src/registry.rs:252-284 | a seed rebuilds fields with their clocks, or the tombstone stamp; the whole row exactly when nothing else was on it |
| RegistryFrames.SeedForgetsClearedFields | crates/doc/src/registry.rs:252-284 | for every cleared field an older write loses to the row but wins over its re-seeded copy |
| RegistryReseed.SeedForgetsDeletes | crates/doc/src/registry.rs:252-284 | a delete kills the re-seeded copy and not the row if and only if it is newer than every field the row still has and no newer than the row's newest clock |
| RegistryReseed.SeedRevivesExactly | crates/doc/src/registry.rs:252-284 | a live row's seed brings a deleted row of its name back, with its fields and their clocks, if something on the row is newer than the tombstone, and else changes nothing |
| RegistryReseed.SeedKillsExactly | crates/doc/src/registry.rs:252-284 | a tombstone's seed kills a live row if it is newer than everything on it, and else changes nothing |
| RegistryReseed.ReseedExactly | crates/doc/src/registry.rs:252-284 | readers never tell a row from its re-seeded copy, whatever ops follow, if and only if the row is deleted, or has no cleared field and a tombstone stamp no newer than some field |
| RegistryFrames.EnqueueConserves | crates/doc/src/registry.rs:543-573 | chunking loses, doubles and reorders no op |
| RegistryFrames.MintsFewBatches | crates/doc/src/registry.rs:543-573 | ops are cut into as few batches of four hundred as hold them |
| RegistryFrames.StateFrameKeepsUnmentioned | crates/doc/src/registry.rs:414-478 | in all three outcomes a row the frame does not mention and no pending op touches reads the same before and after |
| RegistryFrames.OutcomeTells | crates/doc/src/registry.rs:417-478 | the reported outcome is re-seeded if and only if the frame was full and either below the cursor or made the replica queue ops |
| RegistryPending.StateFrameOverPending | crates/doc/src/registry.rs:414-478 | with pending ops on such a row: unchanged by a delta; by a server that lost its storage if and only if the overlay is deaf to the seed; and a full replacement leaves the pending ops behind the leading updates, and the seed, for every queue |
| RegistryPending.PendingUpdatesLost | crates/doc/src/registry.rs:452-476 | for queues without deletes a reader sees no change from that replacement if and only if in every field the newest write of all shows as the newest one that is not lost |
| RegistryPending.LostUpdateOutlived | crates/doc/src/registry.rs:452-476 | for every queue, the row that lives on is as new as a lost update if and only if each of its fields was written again, no older, since the row last came to life |
| RegistryFrames.StateFrameKeepsSound | crates/doc/src/registry.rs:417-478 | every frame keeps rows well formed and under their own keys |
| RegistryFrames.BroadcastThenAckIsSeamless | crates/doc/src/registry.rs:481-504 | with any ops of others merged behind a batch: dropping the batch at its ack changes no read; replaying it over the merge that came before the ack changes none if and only if the row is live and never came to life, or all the batch wrote before that was written again since, or it is dead and no upsert of the batch outranks the tombstone |
| RegistryProtocol.BatchIdsIncrease | crates/doc/src/registry.rs:543-573 | batch ids are distinct, and increase while milliseconds keep their width |
| RegistryProtocol.StepSound | crates/doc/src/registry.rs:374-601 | every write, push, ack, frame, disconnect and restart from a snapshot of that moment keeps the queue invariant |
| RegistryProtocol.QueueProtocol | crates/doc/src/registry.rs:374-601 | over every run of those from birth: 1 to 400 ops a batch, the queue is exactly the unacked batches in order, and none is handed out twice on a connection |
| RegistryProtocol.LeavesOnlyByAck | crates/doc/src/registry.rs:492-504 | a batch ever cut is acked or still pending with its ops |
| RegistryProtocol.ReconnectPushesAll | crates/doc/src/registry.rs:507-523 | after a disconnect or restart the next push is exactly everything unacked, in order |
| RegistryProtocol.RestartKeepsReads | crates/doc/src/registry.rs:374-412 | saving and restoring changes no read, cursor or row |
| RegistryCrash.CrashKeepsProtocol | crates/engine/src/workspace_host.rs:1225-1248 | over every run with debounced saves and crashes the queue invariant holds of the replica and of what is saved |
| RegistryCrash.CrashRestoresSaved | crates/doc/src/registry.rs:374-412 | a crash brings back the saved history, acks, clock and reads, and its next push is the whole saved unacked queue |
| RegistryCrash.IdsSurviveCrashes | crates/doc/src/registry.rs:543-573 | batch ids of all lives are distinct as long as each first stamp after a crash reads past every millisecond ever stamped |
| RegistryCrash.LostWriteRepeatsItsId | crates/doc/src/registry.rs:543-573 | a write lost in a crash and made again at the same readings gets the same batch id |
| RegistryServer.RegistryServer.Push | crates/sync/src/registry/mock_server.rs:177-203 | the op loop and the store give the merged table, the rows changed, each once, and the number of the ack |
| RegistryServer.RegistryServer.Hello | crates/sync/src/registry/mock_server.rs:139-150 | full or delta by cursor and floor, with exactly the rows past the cursor |
| RegistryServer.RegistryServer.Reset | crates/sync/src/registry/mock_server.rs:90-95 | the storage is lost whole |
| RegistryServer.MergedRow | crates/sync/src/registry/mock_server.rs:177-198 | a push leaves each row the fold of its ops, and numbers exactly the rows that fold changed |
| RegistryServer.HelloCatchesUp | crates/sync/src/registry/mock_server.rs:133-150 | the answer, delta or full, brings any replica that lags by its cursor to the server's table |
| RegistryServer.DeltaLevelsExactly | crates/sync/src/registry/mock_server.rs:139-150 | a delta gives a replica of any past all the server's rows if and only if it had those numbered up to its cursor |
| RegistryServer.AckedAheadExactly | crates/sync/src/registry/mock_server.rs:205-219 | an ack that moves the cursor without its rows is made good by the next delta if and only if the replica has every row in between |
| RegistryRoom.RoomProtocol | crates/sync/src/registry/mock_server.rs:90-220 | over every run of writes, pushes, merges, deliveries, drops, restarts, joins and lost storage, for any number of replicas: the server's rows are the fold of what it merged since it last lost them, each replica not stale is led to them by the frames on its connection, a full answer on its way restores any replica, a row the server lacks has its seed pending, and only merged batches are acked |
| RegistryRoom.DrainedShowsServer | crates/doc/src/registry.rs:5-10 | with no frame on its way a replica in step has the server's number and shows the server's rows under its own pending ops |
| RegistryRoom.QuietRoomAgrees | crates/doc/src/registry.rs:5-10 | with nothing pending either, its rows are the server's and it shows exactly them, and its merged batches are exactly the ones it ever cut, ops included |
| RegistryRoom.RejoinRecovers | crates/doc/src/registry.rs:438-451 | a rejoin leaves the server's number as the cursor, lower if need be; it brings a stale replica back in step, with all the server's rows and a seed for each the server lacks, if and only if the cursor was past the server's number or below its floor or the replica blank |
| RegistryRoom.JoinsSeedNothing | crates/doc/src/registry.rs:452-476 | with a server that loses nothing no replica is ever stale and no state frame makes one seed rows again |
| TranscriptDelta.TryTextAppend | crates/doc/src/transcript_delta.rs:78-110 | the early-exit scan finds the one text append when there is one |
| TranscriptDelta.Diff | crates/doc/src/transcript_delta.rs:116-171 | the frame built by the loops is the frame of the two states |
| TranscriptDelta.TranscriptCopy.Apply | crates/doc/src/transcript_delta.rs:180-249 | applying a frame in place gives the patched list, or the desync and the list as the failing step leaves it |
| TranscriptFrames.ChangeExactly | crates/doc/src/transcript_delta.rs:75-171 | an entry goes unmentioned if it and its predecessor are as before, as an append if one text of it grew at its end and nothing else changed, and whole behind its predecessor in every other case |
| TranscriptFrames.StreamedTextIsAppended | crates/doc/src/transcript_delta.rs:75-171 | a streaming text is in the frame's appends, and its entry is not sent whole |
| TranscriptFrames.UpsertLandsBehind | crates/doc/src/transcript_delta.rs:199-216 | an upsert ends up right behind its anchor, on any copy, or its missing anchor is reported |
| TranscriptFrames.DivergedCopiesAreNoticed | crates/doc/src/transcript_delta.rs:217-249 | on any copy a frame goes through only if the entries come to the producer's count and every appended text to its length |
| Placement.PassIsExact | crates/doc/src/transcript_delta.rs:199-222 | the anchored insert pass always ends with the right ids, and in the right order exactly when the stranded ones were in order |
| Placement.SurvivorOrderSuffices | crates/doc/src/transcript_delta.rs:199-222 | ids that keep their relative order are never stranded out of it |
| TranscriptSync.AppendRebuilds | crates/doc/src/transcript_delta.rs:78-245 | applying the append the differ found turns the old entry into the new |
| TranscriptSync.FrameIsExact | crates/doc/src/transcript_delta.rs:116-249 | every frame applies without desync and yields exactly the new entries, in order if and only if at least half of more than four entries are sent whole or stranded entries kept their order |
| TranscriptSync.SurvivorOrderIsExact | crates/doc/src/transcript_delta.rs:116-249 | when surviving entries keep their relative order the copy becomes the new list |
| TranscriptSync.ConsumerFollows | crates/doc/src/transcript_delta.rs:116-249 | over any run of such states the consumer holds the producer's list after every frame |
| TranscriptSync.PairSwapMisorders | crates/doc/src/transcript_delta.rs:116-222 | swapping two adjacent pairs applies silently in the wrong order |
| PartsFold.PartsAccumulator.Fold | crates/doc/src/parts.rs:228-368 | the in-place fold of every event kind equals the fold function |
| PartsFold.FoldShape | crates/doc/src/parts.rs:216-368 | after any run text and error ids say where they stand, no two parts of a kind share an id, text never follows text, and unresolved tools carry no error |
| PartsFold.RunExtends | crates/doc/src/parts.rs:216-368 | between resets the fold only appends parts, grows the last text and never un-resolves |
| PartsFold.ReplaySafe | crates/doc/src/parts.rs:218-232 | a reset makes the fold of a turn independent of everything before it |
| PartsFold.TextConserved | crates/doc/src/parts.rs:233-243 | the text parts spell all deltas, none lost, doubled or reordered |
| PartsFold.ToolFollowsEvents | crates/doc/src/parts.rs:263-321 | each tool part shows exactly what the events said of that tool, whatever interleaved |
| PartsFollow.InputFollowsEvents | crates/doc/src/parts.rs:322-343 | a question is there with the questions first asked since the last reset, and resolved if and only if it was answered after that, unless a tool had its id |
| PartsFollow.ErrorsFollowEvents | crates/doc/src/parts.rs:344-361 | the error parts are exactly the failures since the last reset, in order |
| PartsFollow.DecisionsFollowEvents | crates/doc/src/parts.rs:248-262 | each decision since the last reset is there once, with its last payload |
| PartsFollow.QuietLeavesNoTrace | crates/doc/src/parts.rs:353-368 | usage, activity and a turn that ends well change nothing of the fold, now or later |
| SessionDocs.PartRoundTrip | crates/doc/src/schema.rs:99-212 | a part written and read back is its canonical form, and itself exactly when it is canonical |
| SessionDocs.ReadsAreCanonical | crates/doc/src/schema.rs:160-212 | every document part reads as a canonical part of its id, of the kind it names if its payload is there, and malformed ones as empty text |
| SessionDocs.SegmentWriter.constructor | crates/doc/src/schema.rs:786-814 | begins a streaming assistant entry at the end of the messages |
| SessionDocs.SegmentWriter.Sync | crates/doc/src/schema.rs:834-890 | diffs the fold into its own entry only, stopping at the first schema error |
| SessionDocs.SegmentWriter.Finish | crates/doc/src/schema.rs:893-900 | syncs, then stamps the status if nothing failed |
| SegmentSync.SyncFollows | crates/doc/src/schema.rs:834-953 | a sync of an extended fold never fails, brings the mirror up to it and refreshes each part |
| SegmentSync.RunHolds | crates/doc/src/schema.rs:766-953 | after any run of syncs each document part is the last fold's, with the first decision payload and every extra ever shown |
| SegmentSync.Coalescing | crates/doc/src/schema.rs:762-900 | whatever ticks a run is synced at, the finished document shows the fold of all events |
| SegmentSync.ReadsBackExactly | crates/doc/src/schema.rs:910-953 | a part reads back whole if and only if its decision payload is the first synced and no synced extra was cleared |
| SegmentSync.DecisionsKeepTheirFirstPayload | crates/doc/src/schema.rs:910-953 | two syncs show the first payload of a refreshed decision, one sync the last |
| SegmentSync.ClearedStatsStay | crates/doc/src/schema.rs:910-953 | stats synced and then cleared by a later result stay in the document; coalesced into one sync they never show |
| SegmentSync.FoldsAreDiffable | crates/doc/src/parts.rs:233-243 | what the document holds of a fold has distinct text ids, as text appends need |
| Utf8.CutAtBoundary | crates/doc/src/parts.rs:490-508 | cutting well-formed text on a character boundary leaves two well-formed texts |
| Utf8.BoundaryNear | crates/doc/src/parts.rs:492-494 | a boundary is never more than three bytes back |
| SplitParts.Split | crates/doc/src/parts.rs:469-515 | the nested loops give the chunks of the expanded parts |
| SplitParts.GuardNeverFires | crates/doc/src/parts.rs:491-498 | on well-formed text the forward-progress guard never fires |
| SplitParts.PiecesSpellText | crates/doc/src/parts.rs:485-510 | pieces concatenate to the text, each non-empty, well formed, within the cap and numbered in order |
| SplitParts.PackKeeps | crates/doc/src/parts.rs:473-481 | packing keeps all parts in order, and no chunk is closed early or over the cap but for one indivisible part behind empty ones |
| SplitParts.ChunksAreSmall | crates/doc/src/parts.rs:459-515 | no chunk carries more than 262144 bytes of text, or of any payload unless all of it is one part that is no text, and none ends before the next part would be too much |
| SplitParts.PiecesAreFull | crates/doc/src/parts.rs:485-510 | every piece of a text but its last is within three bytes of the cap |
| SplitParts.SplitJoin | crates/doc/src/parts.rs:463-520 | splitting then joining gives the parts back with only oversized texts cut, within the cap |
| SplitIds.SplitFoldsAreDiffable | crates/doc/src/parts.rs:485-510 | any fold, split and joined again, has distinct text ids, as text appends need |
| Continuations.JoinContinuationEntries | crates/doc/src/schema.rs:740-763 | the loop and its shortcut give the join |
| Continuations.JoinConserves | crates/doc/src/schema.rs:738-763 | joining loses, doubles and invents no part |
| Continuations.JoinGathers | crates/doc/src/schema.rs:738-763 | each root ends with its own parts followed by its continuations', in list order |
| Continuations.JoinIsIdempotent | crates/doc/src/schema.rs:738-763 | joining twice is joining once; a list is left alone if and only if no continuation stands after its root |
| Continuations.SplitThenJoin | crates/doc/src/parts.rs:459-520 | laying out any split entries and joining them gives the entries back |
| RunJournals.ReadLines | crates/engine/src/run_journal.rs:208-228 | the loop reads every valid record in order and skips the rest |
| RunJournals.RunJournal.Append | crates/engine/src/run_journal.rs:100-145 | opens or reuses a handle, evicts at the cap, writes one record and returns its seq |
| RunJournals.RunJournal.ScanFile | crates/engine/src/run_journal.rs:231-243 | the seq the next record takes, and whether its line has to be opened first |
| RunJournals.RunJournal.ReplayAfter | crates/engine/src/run_journal.rs:149-162 | replays the records past the cursor |
| JournalDurability.WholeWrite | crates/engine/src/run_journal.rs:128-144 | a whole append adds exactly its record and leaves the cursor a rescan would find |
| JournalDurability.TornWrite | crates/engine/src/run_journal.rs:128-144 | a torn append keeps all earlier records, and adds its own exactly when all its text is there |
| JournalDurability.RunGood | crates/engine/src/run_journal.rs:100-243 | along any run over ids with files of their own, journals are numbered 1..n, cached cursors equal a fresh scan, and records are only added |
| JournalDurability.Durability | crates/engine/src/run_journal.rs:100-228 | over such ids an acknowledged append is replayed with its seq and event for ever, at its place, to every cursor below it |
| JournalDurability.DurableExactlyWithOwnFiles | crates/engine/src/run_journal.rs:100-269 | for every set of ids: all runs over it are durable in place if and only if no two of them have one file name |
| JournalDurability.ReplayIsSuffix | crates/engine/src/run_journal.rs:147-162 | replay returns exactly the records past the cursor, or all of them past the end |
| JournalDurability.ClosingClearsStale | crates/engine/src/run_journal.rs:164-194 | a chat is stale exactly when its last record is not `Done`, and closing it takes it and only it off the list |
| JournalDurability.SharedFileRepeatsSeqs | crates/engine/src/run_journal.rs:100-145 | any two ids with one file name repeat a seq at the third append, and the file holds both records |
| JournalDurability.SafeIdsOwnTheirFiles | crates/engine/src/run_journal.rs:256-269 | the ids in the file-safe alphabet have files of their own |
| JournalDurability.NamesAreSafe | crates/engine/src/run_journal.rs:256-269 | file names are ASCII letters, digits, dashes and underscores, the last for every other character, and are the id exactly when the id is made of these |
| JournalDurability.HandlesAreFew | crates/engine/src/run_journal.rs:100-118 | over every run at most sixteen files are open |
| JournalDurability.OpenKeepsOthers | crates/engine/src/run_journal.rs:100-118 | below sixteen no open file is dropped to open another |
| JournalCodec.SuchACodecExists | crates/engine/src/run_journal.rs:127-131 | a record format with parse-of-print, one line per record and no parsing prefix exists |
| Commands.Pick | crates/engine/src/doc_host.rs:2134-2144 | the first pending command neither skipped nor seen in the ledger |
| Commands.ChatHost.SetCommandStatus | crates/doc/src/schema.rs:355-386 | the outcome goes on the first entry of the id, a resolution is only added |
| Commands.ChatHost.DrainCommands | crates/engine/src/doc_host.rs:2114-2182 | the loop over any readings and faults equals the drain function |
| CommandSafety.AtMostOnce | crates/engine/src/doc_host.rs:2114-2182 | over crashes, arrivals, cancellations and lost statuses executed ids are in the ledger, and none runs twice unless both reads of a turn fail |
| CommandSafety.OnceExactly | crates/engine/src/doc_host.rs:2114-2182 | over any run of those no command runs twice if and only if no turn, or crash after the side effect, picks an id that ran before with the scan's and the evaluation's ledger reads of it both failing and the command otherwise due |
| CommandSafety.FailedReadsRunEveryTurn | crates/engine/src/doc_host.rs:2133-2166 | with reads and status writes failing, every turn runs the command again and the drain never ends |
| CommandSafety.ScanFaultsEnd | crates/engine/src/doc_host.rs:2123-2166 | whatever ledger reads of the scan fail, a drain ends within two turns an id and one more, as what a turn skips stays skipped |
| CommandSafety.CancelExactly | crates/doc/src/commands.rs:106-109 | a cancellation changes a command only if it is pending and was issued by the device that cancels, and then only its status |
| CommandDrain.DrainEmpties | crates/engine/src/doc_host.rs:2123-2182 | a drain with no failing read ends within the waiting ids plus one turns, with every one in the ledger |
| CommandDrain.DrainIsSweep | crates/engine/src/doc_host.rs:2124-2144 | re-reading and taking the first eligible command each turn is one pass in document order |
| CommandDrain.DueExactly | crates/engine/src/doc_host.rs:2133-2144 | the commands that get a turn are the pending ones not in the ledger, the first of each id |
| CommandDrain.DrainRunsExactly | crates/doc/src/commands.rs:99-175 | in any list, turns go to the due commands in document order, and one runs if and only if it is not past its expiry, or a day old without one, no steer or interrupt like it that was issued later is then pending, and the turn it interrupts is the last of the transcript or not in it |
| CommandDrain.DrainResolvesExactly | crates/engine/src/doc_host.rs:2160-2180 | a due command ends expired if late at its turn, superseded if outranked or moot then, else with the outcome and resolution of its run, and nothing else of it changes |
| CommandDrain.OutrankedInOrder | crates/doc/src/commands.rs:151-166 | when steers and interrupts are listed in issue order a due one is outranked at its turn if and only if another like it, pending when the drain began, stands behind it |
| CommandDrain.NewerListedFirstLetsBothRun | crates/doc/src/commands.rs:137-175 | of two steers listed newer first both run |
| CommandDrain.DrainRunsOnlyTheNewest | crates/doc/src/commands.rs:137-175 | of steers or interrupts issued in order none but the last runs, the others ending expired or superseded |
| DocLru.ResidentTotal | crates/engine/src/doc_host.rs:1747-1755 | the sum of the estimates, in whatever order the map is walked |
| DocLru.ByAge | crates/engine/src/doc_host.rs:1734-1741 | every open document once, oldest access first, ties by id |
| DocLru.DocHost.EvictOverBudget | crates/engine/src/doc_host.rs:1733-1774 | the loop equals the pass, and hands every closed document to the snapshot store in order |
| DocLru.PassOutcome | crates/engine/src/doc_host.rs:1723-1821 | on return budgets hold or every open document is pinned or within the idle floor, and exactly the unpinned ones saved are gone |
| DocLru.PassSpares | crates/engine/src/doc_host.rs:1733-1821 | a document with a watcher, a second reference, an unreadable ledger or a pending unprocessed command on its host is never closed; one with none of these and past the floor stays only if both budgets hold |
| DocLru.ClosedOnlyOverBudget | crates/engine/src/doc_host.rs:1733-1774 | each document was closed with more than twelve open or more than 80 megabytes, idle for thirty seconds, in order of use, and with none used before it left but those in use |
| DocLru.BudgetsBound | crates/engine/src/doc_host.rs:407-411 | within the budgets at most twelve documents are open, and six times their snapshots are at most 80 megabytes |
| DocLru.EvictionIsJustified | crates/engine/src/doc_host.rs:1742-1773 | each eviction happened over budget, past the idle floor, unpinned, and with every older document pinned or gone |
| DocLru.PassKeepsTheRest | crates/engine/src/doc_host.rs:1760-1766 | closed documents are distinct, unpinned and gone; all others stay |
| Terminals.LiveTerminal.Emit | crates/engine/src/terminals.rs:52-73 | append, trim from the front, send to live subscribers, end streams at the exit |
| Terminals.LiveTerminal.Subscribe | crates/engine/src/terminals.rs:235-258 | backlog past the cursor, then the live tail unless exited |
| Terminals.ReplayIsWindow | crates/engine/src/terminals.rs:48-78 | over any run the buffer is the longest end of the history within the cap or its last event, byte counter exact, seqs from one |
| Terminals.WindowIsUnique | crates/engine/src/terminals.rs:48-66 | there is only one such window |
| Terminals.SubscribersFollow | crates/engine/src/terminals.rs:67-72 | every subscriber has the events from its start on, once each, in order, no gap between replay and tail, up to the newest while attached |
| Terminals.JoinStartsWhereOwed | crates/engine/src/terminals.rs:233-258 | it starts right past its cursor or at the oldest kept; a cursor ahead gets the live tail only |
| Terminals.ExitEndsStreams | crates/engine/src/terminals.rs:52-73 | from the exit on nobody is subscribed, and no later join is |
| Terminals.ReplayFits | crates/engine/src/terminals.rs:48-66 | more than one event is kept only within a megabyte of output, and one event more would have been over it |
| GitStreams.ParseNameStatus | crates/engine/src/diff_sync.rs:688-726 | the index loop reads the records, a cut-off one ending or shortening the list |
| GitStreams.ApplyNumstat | crates/engine/src/diff_sync.rs:728-760 | the index loop updates files in place record by record |
| GitRoundTrip.FieldsRoundTrip | crates/engine/src/diff_sync.rs:680-686 | non-empty NUL-free fields read back |
| GitRoundTrip.CountReads | crates/engine/src/diff_sync.rs:754-758 | a count reads back if it fits 32 bits, else as zero |
| GitRoundTrip.OtherTextReadsZero | crates/engine/src/diff_sync.rs:754-758 | a plus sign changes no count, and text that is no number counts as zero |
| GitRoundTrip.StreamsRoundTrip | crates/engine/src/diff_sync.rs:688-760 | both parsers give back every path, old path, status, count and binary flag, whatever order the counts come in |
| GitRoundTrip.CutOffNames | crates/engine/src/diff_sync.rs:688-726 | a name stream cut off inside a record still tells of every file before it; a move cut before its new path shows under its old one |
| GitRoundTrip.CutOffCounts | crates/engine/src/diff_sync.rs:728-760 | counts cut off inside a record reach every file before it and no other |

## Left out

- I/O errors in the journal, the stores and the document: an operation that fails half-way inside one process is not modelled; a crash is.
- JSON, Loro, SQLite, PTYs, HTTP and sockets are libraries; values they carry are opaque bytes, a Loro list is a sequence, the ledger a set.
- Two drainers of one chat, and concurrent access to one replica, journal, terminal or document map.
- The deployed registry server is not part of the repository; `RegistryServer` is the in-process one that stands in for it, whose connections the room takes as queues filled in merge order. Malformed pushes, presence and probes are not modelled.
- `overlay_rows` keeps its own order of ids, which a hash map does not promise; the typed getters and setters over it are one-line wrappers.
- `seed_from_workspace` and its time-based clocks for imported rows.
- Negative milliseconds in `encode_hlc`, and overflow of 64-bit clocks, seqs and expiry sums.
- The nested row table is one map from kind and id; wall-clock readings and hash map orders are parameters.
- The `discard` and resume-budget files of the journal, and the sort of its stale list.
- Whitespace beyond ASCII in the journal's blank-line test; tears inside a multi-byte character.
- Tool outputs, inline diffs and sidecar references: the fold drops the first two, and a tool result carries its diff as the stats made of it.
- The bounding of decision payloads, and JSON values that fail to parse back.
- What a command does when it runs: its outcome and resolution are arbitrary.
- `save_snapshot` of a retired document, which may skip the write; the model records that the document was handed over.
- The seeding, cutover, salvage and room loops of the document host.
- The 30-minute sweep of exited terminals and the cap on their number.
- Lossy decoding of non-UTF-8 paths, and the git processes themselves.
- TranscriptSync.FrameIsExact: asks for distinct entry ids, and distinct text-part ids within an old entry; `SegmentSync.FoldsAreDiffable` and `SplitIds.SplitFoldsAreDiffable` show this of one fold, whole or split and joined, but an entry joined from continuations that come from different folds has to bring it.
- RegistryCrash.IdsSurviveCrashes: gives a sufficient condition over many crashes. For one restart `Hlc.SameStampExactly` gives the exact one: an id is "b-" before such a string, so it comes again exactly when that string does. `Hlc.RepeatsExactly` is about stamps of any use.
- CommandDrain.DrainRunsExactly: asks for outcomes other than pending, the only ones a command ends with.
