# Verified model of the agent engine

This project models the stateful core of the `aether-agent` crate in Dafny and proves what it
guarantees over whole runs. Each module follows one part of the engine:

- **Footprint, Serializability, Scheduler, SchedulerRun, SchedulerProgress, SchedulerTheorems**: the
  scheduler that runs a model's batch of tool calls in rounds of at most four. The central result
  is conflict serializability: whatever the polling order inside a round, the batch ends in the
  state of running its executed calls one by one in model order; and a batch that is not cancelled
  completes once its tools have had their steps.
- **Permission, Preparation, ToolBatch, TurnBatches**: the permission broker and the gates, for one
  batch of tool calls and for all batches of a turn. Every executed call that asked for permission
  was allowed by the user in answer to its own question, on every run of the broker together with
  other users.
- **SessionLog, SessionCompaction, SessionStore, SessionOutcomes, SessionSummary**: the append-only log. Appends
  are atomic under crashes, compaction keeps the restored session, and the fast summary agrees
  with a full replay.
- **CappedBuckets, RelationshipIndex, RelationshipBuckets, RelationshipRuns, RelationshipHistory,
  RelationshipStore, RelationshipMeaning**: the inverted index of symbol relationships. A bucket that
  never overflowed equals that of a rebuild after any run, and holds exactly what the symbols and
  relations of the held files say; with overflow the index stays well formed, and when a bucket still
  equals that of a rebuild is characterised exactly, over any run.
- **Lexer, LexerRegions, SymbolSpans, SymbolWords**: the mask that hides comments and literals of Rust
  source, by the rules of their kinds, the tokenizer, and the walk that finds where symbols start and
  end, by the words of the tokens.
- **GitIndex, GitIndexReads, RepoCache, RepoSnapshots**: the parser of Git's index file against the
  format's own writer and by the bytes of any file, the packed paths, the cache of repository
  snapshots, and what a snapshot shows.
- **CommandKey**: printing commands as shell words, undone by a splitter that follows sections
  2.2.1 and 2.2.2 of the POSIX Shell Command Language (IEEE Std 1003.1).
- **Guardrails, ContextSelection, ContextChoice**: the circuit breaker for repeated failures, read off the
  history of observations, and the greedy selection of context.
- **Text, Excerpts, Evidence, EvidenceRuns, EvidenceLists, StaleRecords, InspectedQueue,
  EvidenceEngine, ReadPolicy, CachedReads, TurnTrace, TurnLoop**: evidence about the workspace, what
  each result makes stale or fresh, the files that the runtime reads again by itself, the files whose
  records are still held, reads answered from the evidence, and the turn loop: which steps a turn
  takes, what they do to the evidence, and what a completed turn implies.

Parts that the engine changes step by step are classes and loops, each proved against a
specification on values; the theorems are about those specifications, over all inputs and runs.

Where a promise does not hold on every input, the model keeps the code as it is, names an input,
and states when the promise holds, exactly where a caller can tell:

- results can come out of model order (`ResultsCanOvertake`, `ModelOrderIff`);
- a record of exactly the line limit is accepted but spoils the log (`RecordAtTheLimitSpoilsLog`,
  `AppendReplaysIff`), and an append after a torn one does not repair it
  (`TornFirstByteSpoilsLog`, `AppendAfterCrashReplaysIff`);
- numbering can go back after a compaction (`NumberingCanGoBack`, `NumberingAfterCompactionIff`);
- the summary can show the header's model although a turn named another (`SummaryMissesModel`,
  `SummaryModelIff`);
- an overflowed bucket loses evidence on removal (`OverflowLosesEvidence`,
  `RemovalEqualsRebuildIff`, `RunEqualsRebuildIff`);
- a literal that ends with an escaped backslash is masked too far (`EscapedBackslashHidesCode`,
  `EscapeRuleIff`), and a letter outside ASCII in code makes the symbol parser panic
  (`LetterOutsideAsciiPanics`, `TokensAreSliceableIff`);
- a function with an `impl` among its parameters is reported to end where it starts
  (`ImplParameterHidesTheBody`), and a module in the last place to end with a later one
  (`LastModuleEndsWithAnother`); `SymbolEndsWithItsBody` says where symbols end;
- an empty `sdir` extension at the end of an index goes unseen (`EmptySdirGoesUnseen`,
  `ForbiddenIsSeenIff`), and a cut extended entry makes the index parser panic (`CutFilePanics`,
  `ParsePanicsIff`);
- a moved index is missed by the snapshot cache (`MovedIndexIsMissed`, `MovedIndexIff`,
  `CurrentAnswerIff`);
- a check whose key is longer than 256 bytes no longer matches its own command
  (`CutKeyMatchesAnotherCommand`, `OwnCheckMatchesIff`);
- a window full of duplicates starves the selection (`StarvedChoice`, `WindowIsEnoughIff`,
  `AlwaysEnoughIff`);
- a full evidence list forgets staleness (`StalenessIsForgotten`, `StaleUntilEvictedIff`,
  `EverySeenIsHeldIff`);
- cached reads: a whole-file request can be answered with the first lines (`WholeReadIsCutShort`), a
  cut read is quoted cut (`CutReadIsMisquoted`), and an empty first row shifts the others
  (`BlankLineIsMisread`); `CachedAnswerIff` and `RightLineIsKeptIff` say when an answer is right.

Where the code and its documentation differ, the model follows the code. The comment at
`crates/aether-agent/src/context.rs:394-396` says that a stale plan cannot authorise a different
command, which holds only for keys that fit their field; the comment at
`crates/aether-agent/src/context.rs:419` says that stale hashes never win, which holds for
runs that see at most 64 different files.

`dafny verify dfyconfig.toml` checks the whole project.

## Model

| member | source | states |
|---|---|---|
| Footprint.ConflictsIsSymmetric | crates/aether-core/src/tools.rs:322-358 | two footprints conflict in both orders or in neither |
| Footprint.NoConflictSeparates | crates/aether-core/src/tools.rs:322-358 | without a conflict, nothing that one call may write is something the other may touch, for every path prefix, process, browser session and global resource |
| Footprint.ConflictIff | crates/aether-core/src/tools.rs:322-362 | two footprints conflict exactly when one is unknown, one call may write what the other may touch, or a change and a use of the whole workspace and of a process or browser session meet |
| Footprint.NonConflictingStepsCommute | crates/aether-core/src/tools.rs:322-358 | steps that keep to their footprints commute on the whole world when the footprints do not conflict |
| Serializability.SerialPreservesRun | crates/aether-agent/src/scheduler.rs:83-196 | any word of steps ends in the same state as its stable sort by call number, as long as no step of a later call overtakes a conflicting one |
| Serializability.ConflictSerializable | crates/aether-agent/src/scheduler.rs:83-196 | two such words with the same steps, one of them sorted, end in the same state |
| Scheduler.SelectionTakesLeast | crates/aether-agent/src/scheduler.rs:338-365 | the first pending call is always selected, so a round is never empty |
| Scheduler.RoundsRespectConflicts | crates/aether-agent/src/scheduler.rs:338-365 | over all rounds, a call is taken in a strictly later round than every earlier call it conflicts with |
| Scheduler.RoundsPartition | crates/aether-agent/src/scheduler.rs:83-196 | the rounds together take every call exactly once and nothing else |
| Scheduler.CallLeavesInTime | crates/aether-agent/src/scheduler.rs:83-196 | a call with k pending calls before it is taken by round k + 1 |
| Scheduler.CallLeavesByItsNumber | crates/aether-agent/src/scheduler.rs:83-196 | call k is taken by round k + 1 |
| Scheduler.RoundCount | crates/aether-agent/src/scheduler.rs:83-196 | n calls need at most n rounds |
| SchedulerRun.SelectPendingCalls | crates/aether-agent/src/scheduler.rs:347-365 | the selection loop fills the array with the first calls, at most four, that no earlier pending call conflicts with |
| SchedulerRun.BlockedByPendingConflict | crates/aether-agent/src/scheduler.rs:338-345 | a call is blocked exactly when some earlier call that is still pending conflicts with it |
| SchedulerRun.WaitForBatch | crates/aether-agent/src/scheduler.rs:210-252 | polling takes exactly the steps that the wake-ups give to running calls; it ends done when every running call has an outcome, stopped by a cancellation, or waiting, and a finished call has the result of its final state |
| SchedulerRun.LaunchRound | crates/aether-agent/src/scheduler.rs:102-165 | a round leaves its slots; refused calls get their result at once, the others a running future |
| SchedulerRun.RunRound | crates/aether-agent/src/scheduler.rs:102-180 | the round that its wake-ups determine; a finished one has, for each of its calls, the result its final private state gives |
| SchedulerRun.ExecuteCalls | crates/aether-agent/src/scheduler.rs:83-208 | the run that calls and surroundings determine: steps, rounds, results, outputs, outcome and all events, interrupted rounds included; the no-progress error cannot happen |
| SchedulerProgress.WaitIsExplained | crates/aether-agent/src/scheduler.rs:210-252 | waiting that is done leaves no call without an outcome; waiting that is not was cancelled, never polled, or some call has no outcome yet |
| SchedulerProgress.RunIsExplained | crates/aether-agent/src/scheduler.rs:83-196 | a run is done exactly when all its rounds are; otherwise the round after its finished ones was cancelled, or not reached by the script, or some call of it has no outcome yet |
| SchedulerProgress.FairRunCompletes | crates/aether-agent/src/scheduler.rs:83-252 | a batch of tools that need at most n steps each completes in every uncancelled run that lets each running call move at n wake-ups of its round |
| SchedulerTheorems.BatchWordIsConflictOrdered | crates/aether-agent/src/scheduler.rs:83-196 | no step of a call happens before a step of an earlier call it conflicts with, also in a run that is cut short |
| SchedulerTheorems.BatchRunIsSerializable | crates/aether-agent/src/scheduler.rs:83-196 | the batch ends in the state of running its executed calls one after another in model order |
| SchedulerTheorems.OneOutputPerCall | crates/aether-agent/src/scheduler.rs:181-208 | a completed batch yields exactly one result for each call |
| SchedulerTheorems.OutputsAreResults | crates/aether-agent/src/scheduler.rs:181-208 | each output is the result that its call's final private state gives |
| SchedulerTheorems.ConflictingCallsDoNotOverlap | crates/aether-agent/src/scheduler.rs:83-196 | in the events of any run, interrupted ones included, the later of two conflicting calls starts after the earlier one has finished |
| SchedulerTheorems.EarlierCallHasFinished | crates/aether-agent/src/scheduler.rs:83-196 | when a call starts, every earlier call it conflicts with has its finish among the events before |
| SchedulerTheorems.LifecycleOrder | crates/aether-agent/src/scheduler.rs:120-196 | in the events of any run, interrupted ones included, every output follows the start of its call and is directly followed by its finish |
| SchedulerTheorems.ResultsInModelOrder | crates/aether-agent/src/scheduler.rs:181-208 | results come in model order exactly when no round overtakes a call that is held back |
| SchedulerTheorems.ModelOrderIff | crates/aether-agent/src/scheduler.rs:181-208 | read off the calls: results come in model order exactly when each block of calls that do not wait for each other, at most four, is full or followed only by calls that conflict with one of the block or after it |
| SchedulerTheorems.ResultsCanOvertake | crates/aether-agent/src/scheduler.rs:181-208 | three writes to f, f and g: the results come in the order 0, 2, 1 |
| Permission.PendingIsOpenQuestion | crates/aether-agent/src/permission.rs:94-145 | a request is pending exactly when its question was asked and neither answered, cancelled nor asked again since |
| Permission.GrantIsUserAnswer | crates/aether-agent/src/permission.rs:94-145 | a session grant exists exactly when some earlier AllowSession answered a pending request of that tool and of that class, which is not a browser action |
| Permission.SessionPermissionBroker.Decide | crates/aether-agent/src/permission.rs:128-139 | answers at once under a grant, otherwise registers the question; the state stays that of the history |
| Permission.SessionPermissionBroker.Resolve | crates/aether-agent/src/permission.rs:94-107 | removes the pending request, records a grant for AllowSession except for browser actions, and reports whether somebody still listens |
| Permission.SessionPermissionBroker.Cancel | crates/aether-agent/src/permission.rs:141-145 | drops the pending request and nothing else |
| Preparation.AwaitDecision | crates/aether-agent/src/scheduler.rs:289-333 | other users act on the broker in any way until the question is answered or dropped: an allow is an answer to exactly this question, and no decision means that all of them acted and it is still open |
| Preparation.AnswerIsUsedOnce | crates/aether-agent/src/permission.rs:94-107 | an answer belongs to one question, also among equal requests |
| Preparation.RefusedIsNotAuthorized | crates/aether-agent/src/scheduler.rs:289-333 | a question that was denied or dropped was not allowed |
| Preparation.ExecutedIff | crates/aether-agent/src/agent.rs:1251-1281 | a prepared call is executed exactly when its action asked for nothing or was allowed, the policy lets it pass, and the turn is one of the repository or the tool a research tool; any other call carries its refusal |
| Preparation.DecideOne | crates/aether-agent/src/scheduler.rs:289-333 | a decision to allow means a grant, or an answer that allows this very question; a denial means this question was denied or dropped; there is none exactly when the turn is cancelled meanwhile |
| Preparation.PrepareOne | crates/aether-agent/src/scheduler.rs:276-333 | permit, preflight result and footprint of one call follow from the decision of its own question and the gate; ExecutedIff says when such a call is executed; there is no call exactly when the turn is cancelled meanwhile |
| Preparation.PrepareCalls | crates/aether-agent/src/scheduler.rs:264-336 | one call for each action, each prepared from a question of its own, asked in this batch; the batch is refused exactly when it is too long, and cancelled exactly when one of its preparations is, before it begins or while it waits on top of the history that the preparations before it leave |
| Preparation.PrepareTurnCalls | crates/aether-agent/src/agent.rs:535-545 | one call for each action of the turn's mode, prepared from its own question; a call that will execute asked for nothing or was allowed, although research turns clear requests first, and research turns execute research tools only; ToolBatch adds the converse |
| ToolBatch.ExecutePreparedToolCalls | crates/aether-agent/src/scheduler.rs:65-208 | end to end: in a batch that was not stopped while it was prepared a call is executed exactly when its action asked for nothing or its own question was allowed, the policy lets it pass and the mode allows the tool; every output is the outcome of its tool in its final state or its refusal, the events are those of the run, the final state is serial in model order, and the batch has one result a call unless it was refused, cancelled, or some call has no outcome yet |
| TurnBatches.ExecuteTurnBatches | crates/aether-agent/src/agent.rs:607-708 | the batches of a turn run one after another on one broker and one world, on which others act in between, until one fails; each has every guarantee of a batch, refusals, results, events and completion included |
| TurnBatches.EveryExecutedCallWasAllowed | crates/aether-agent/src/agent.rs:607-708 | in a whole turn every executed call whose action asked for permission was allowed in answer to its own question or by a session grant given before it, and a research turn executed research tools alone |
| TurnBatches.QuestionsAreDistinct | crates/aether-agent/src/agent.rs:607-708 | two calls of a turn, of one batch or of two, have their questions asked at different times |
| TurnBatches.OnlyAllowedCallsAct | crates/aether-agent/src/agent.rs:607-708 | every step that a batch of the turn takes, interrupted ones included, is one of an executed call, which was allowed if its action asked for permission |
| TurnBatches.TurnIsSerial | crates/aether-agent/src/agent.rs:607-708 | the world after a turn is that of running its steps call by call, batch after batch and in model order, with what others do in between; every one of these calls was executed |
| SessionLog.ParseLines | crates/aether-agent/src/session.rs:338-385 | the reading loop computes the replay of the file, error cases included |
| SessionLog.ReplayContinues | crates/aether-agent/src/session.rs:338-385 | replaying a log that ends with a newline and more bytes is replaying the log and going on with the rest |
| SessionLog.ReplayIsBounded | crates/aether-agent/src/session.rs:338-385 | replay never returns more records than the limit |
| SessionLog.ReplayEncoded | crates/aether-agent/src/session.rs:264-311 | writing records and replaying them is the identity, for encodings strictly below the line limit |
| SessionLog.CrashAtomicAppend | crates/aether-agent/src/session.rs:264-311 | an append cut at any byte leaves a file that replays to the old records or to the old records and the new one |
| SessionLog.AppendReplaysIff | crates/aether-agent/src/session.rs:264-311 | a complete append replays exactly when the encoding is strictly below the line limit and a record is left to spare |
| SessionLog.AppendAfterCrashReplaysIff | crates/aether-agent/src/session.rs:294-311 | appending after a torn append replays exactly when the tear fell on a record boundary |
| SessionLog.TornFirstByteSpoilsLog | crates/aether-agent/src/session.rs:294-311 | an append to an empty log that is cut after one byte, and a complete one after it: the log no longer replays |
| SessionCompaction.ResumeFold | crates/aether-agent/src/session.rs:403-428 | the restoring loop is the fold of the records |
| SessionOutcomes.ResumeRestores | crates/aether-agent/src/session.rs:403-428 | what no record gives is not restored |
| SessionOutcomes.ResumeRestoresHeader | crates/aether-agent/src/session.rs:403-428 | the root is that of the last header |
| SessionOutcomes.ResumeRestoresTurn | crates/aether-agent/src/session.rs:403-428 | context and continuation are those of the last turn, the continuation only if it may be kept |
| SessionOutcomes.ResumeRestoresTranscript | crates/aether-agent/src/session.rs:403-428 | the transcript is the last that is not empty |
| SessionOutcomes.ResumeRestoresModel | crates/aether-agent/src/session.rs:403-428 | the model is that of the last header, or of a later turn that names one |
| SessionCompaction.CompactLines | crates/aether-agent/src/session.rs:489-531 | the compaction loop keeps the last header and the last turns, renumbered |
| SessionOutcomes.CompactionSize | crates/aether-agent/src/session.rs:489-531 | a compacted log has as many records as the old one has turns, at most 64, and one more if there is a header |
| SessionOutcomes.CompactionKeepsHeader | crates/aether-agent/src/session.rs:489-531 | the last header comes first, with number one |
| SessionOutcomes.CompactionKeepsTurn | crates/aether-agent/src/session.rs:489-531 | each of the last 64 turns stands as far from the end as there are turns after it, with the number of its place |
| SessionCompaction.CompactionIsIdempotent | crates/aether-agent/src/session.rs:489-531 | compacting a compacted log changes nothing |
| SessionCompaction.CompactionShortens | crates/aether-agent/src/session.rs:489-531 | a compacted log has no more records than the full one |
| SessionCompaction.CompactionKeepsWork | crates/aether-agent/src/session.rs:403-428 | workspace root, context and continuation restored after compaction are those restored before it |
| SessionCompaction.CompactionKeepsTranscriptIff | crates/aether-agent/src/session.rs:403-428 | the restored transcript survives compaction exactly when a kept turn names one or no dropped turn does |
| SessionCompaction.CompactionKeepsModelIff | crates/aether-agent/src/session.rs:403-428 | with one header at the front, the restored model survives exactly when a kept turn names a model, no dropped turn does, or the last one that does names that of the header |
| SessionStore.SessionStore.Append | crates/aether-agent/src/session.rs:264-320 | file, counter and outcome of an append, with the compaction a full file triggers |
| SessionOutcomes.AppendSucceedsIff | crates/aether-agent/src/session.rs:264-320 | an append succeeds exactly when the record holds no secret and is short, and the log has room for it as it is, or after compaction |
| SessionOutcomes.RefusedRecordIsNotWritten | crates/aether-agent/src/session.rs:269-283 | a record that is too long or holds a secret leaves the log alone |
| SessionOutcomes.OneMoreRecordIff | crates/aether-agent/src/session.rs:338-385 | one more record replays exactly when it is short, of schema 3 to 6, and not one too many |
| SessionOutcomes.WrittenReplaysIff | crates/aether-agent/src/session.rs:338-385 | written records replay exactly when they are all short and not too many |
| SessionStore.SessionStore.Compact | crates/aether-agent/src/session.rs:489-531 | rewrites the file with the compacted records, or leaves it alone with an error |
| SessionStore.SessionStore.Replay | crates/aether-agent/src/session.rs:322-336 | replay of the current file |
| SessionStore.AppendGrowsLog | crates/aether-agent/src/session.rs:264-311 | a successful append leaves a log that replays to the base records and the new one, with the stamped number |
| SessionStore.RecordAtTheLimitSpoilsLog | crates/aether-agent/src/session.rs:264-311 | an encoding of exactly the line limit is accepted and written, and after that the log no longer replays |
| SessionStore.AppendKeepsNumbering | crates/aether-agent/src/session.rs:264-311 | without a compaction in between, numbers keep increasing strictly |
| SessionStore.NumberingAfterCompactionIff | crates/aether-agent/src/session.rs:264-320 | when an append compacts the log and another one follows, the log replays to what was kept and both new lines, with increasing numbers exactly when the compaction dropped no number |
| SessionStore.NumberingCanGoBack | crates/aether-agent/src/session.rs:264-320 | a log of a header and eighty turns of 26000 bytes: the next turn is number 82 and has the log compacted, the turn after it is number 67 |
| SessionSummary.SummaryFromFile | crates/aether-agent/src/session.rs:121-201 | the summary code computes header and last turn of the tail window, error cases included |
| SessionSummary.FindLastTurn | crates/aether-agent/src/session.rs:168-201 | the backward scan over the window's lines |
| SessionSummary.ScanEnds | crates/aether-agent/src/session.rs:168-201 | the scan ends at the last line that is neither blank nor a record of no turn, with its turn or its error |
| SessionSummary.ScanFindsNothing | crates/aether-agent/src/session.rs:168-201 | without such a line there is no last turn |
| SessionSummary.SummaryLineIff | crates/aether-agent/src/session.rs:203-222 | a line is taken exactly when it has at most 256 kilobytes and is a record of this session and of schema 3 to 6 |
| SessionSummary.ReadTail | crates/aether-agent/src/session.rs:142-168 | the window without its cut first line and its unfinished last line |
| SessionSummary.SummaryReadsWindow | crates/aether-agent/src/session.rs:121-201 | on a complete log of one session the summary succeeds and reports the header's workspace, the window's last turn, and the model that turn names or else the header's |
| SessionSummary.SummaryAgreesWithReplay | crates/aether-agent/src/session.rs:121-201 | a reported last turn is the last turn of the full replay |
| SessionSummary.SummaryReportsTurnIff | crates/aether-agent/src/session.rs:121-201 | the last turn is reported exactly when its line starts inside the window |
| SessionSummary.SummaryShowsFinalTurn | crates/aether-agent/src/session.rs:121-201 | when the last record is a turn it is always reported |
| SessionSummary.SummaryModelIff | crates/aether-agent/src/session.rs:121-201 | with one header at the front the reported workspace is the resumed one, and the reported model is exactly when the window's last turn names one, no turn does, or the last one that does names the header's |
| SessionSummary.SummaryMissesModel | crates/aether-agent/src/session.rs:180-201 | a log whose last turn names no model and whose turn before names x: the summary shows none, a resume finds x |
| CappedBuckets.CapInsert | crates/aether-agent/src/symbol_index.rs:743-766 | capping a sorted bucket before or after an insertion gives the same bucket |
| CappedBuckets.AddTop | crates/aether-agent/src/symbol_index.rs:743-766 | adding to the least 32 of a set gives the least 32 of the larger set |
| CappedBuckets.WithoutTopIff | crates/aether-agent/src/symbol_index.rs:768-778 | removing from an overflowed bucket is exact only if no kept value goes, or every dropped value goes too |
| RelationshipIndex.FileEvidenceIsOwn | crates/aether-agent/src/symbol_index.rs:181-306 | a file only adds evidence about itself, with symbol numbers that exist |
| RelationshipMeaning.EvidenceIsSaid | crates/aether-agent/src/symbol_index.rs:181-306 | a file contributes evidence of a kind under a name exactly when a symbol of it says so by its name or container, or a relation by its target, the last segment of an import or the symbol that imports |
| RelationshipMeaning.BucketSays | crates/aether-agent/src/symbol_index.rs:181-318 | over every run in which the bucket of a name never overflowed, it holds exactly what the symbols and relations of the held files say about the name, for all seven kinds |
| RelationshipMeaning.BucketSaysNothingElse | crates/aether-agent/src/symbol_index.rs:181-318 | over every run with any overflow, a bucket holds nothing but that |
| RelationshipMeaning.StemSays | crates/aether-agent/src/symbol_index.rs:181-318 | the files under a stem are the held ones with that stem, those with tests apart |
| RelationshipMeaning.EntriesInOrder | crates/aether-agent/src/symbol_index.rs:743-766 | entries come in the order of paths, then of symbols, then of kinds |
| RelationshipMeaning.PutHolds | crates/aether-agent/src/symbol_index.rs:597-606 | a file that is put is held and every other stays, except that the first path is given up when the store is full and the file new |
| RelationshipIndex.RemoveFileIsExact | crates/aether-agent/src/symbol_index.rs:308-318 | removing a file from an exact index leaves the exact index of the others |
| RelationshipIndex.InsertFileIsExact | crates/aether-agent/src/symbol_index.rs:181-306 | inserting a file into an exact index gives the exact index with it |
| RelationshipIndex.RunIsExact | crates/aether-agent/src/symbol_index.rs:181-318 | over every run of insertions, replacements, removals, evictions and clears without overflow, each bucket is the sorted set of what the held files contribute |
| RelationshipIndex.IndexEqualsRebuild | crates/aether-agent/src/symbol_index.rs:181-318 | so the index depends on the held files only: it equals a rebuild |
| RelationshipBuckets.KeyIsExact | crates/aether-agent/src/symbol_index.rs:181-318 | over every run, a key bucket that never overflowed is the sorted set of what the held files contribute under the key, although other buckets overflowed |
| RelationshipBuckets.StemIsExact | crates/aether-agent/src/symbol_index.rs:181-318 | the same for stem buckets |
| RelationshipBuckets.BucketEqualsRebuild | crates/aether-agent/src/symbol_index.rs:181-318 | two runs that end with the same files agree on every bucket that overflowed in neither |
| RelationshipRuns.RemovedFileIsForgotten | crates/aether-agent/src/symbol_index.rs:308-318 | after a removal no evidence of the path is left in any bucket, overflow or not |
| RelationshipRuns.RemoveStemsGood | crates/aether-agent/src/symbol_index.rs:308-318 | and none of its stems |
| RelationshipRuns.RunIsGood | crates/aether-agent/src/symbol_index.rs:181-318 | over every run, overflow included: buckets are non-empty, strictly sorted and at most 32; every piece of evidence is of a held file, names an existing symbol and is recorded among that file's contributions; at most 128 files |
| RelationshipRuns.InsertOnlyKeepsLeast | crates/aether-agent/src/symbol_index.rs:743-766 | in an insert-only run each bucket, by key and by stem, holds the least 32 entries of the files, whatever their number and order |
| RelationshipRuns.RemovalEqualsRebuildIff | crates/aether-agent/src/symbol_index.rs:308-318 | after an insert-only run with any overflow, removing a file leaves the key bucket of a rebuild from the other files exactly when nothing of that file was kept or nothing of any other file was dropped |
| RelationshipRuns.StemRemovalEqualsRebuildIff | crates/aether-agent/src/symbol_index.rs:308-318 | the same for stem buckets |
| RelationshipHistory.RunIsItsChanges | crates/aether-agent/src/symbol_index.rs:181-318 | a run is its single removals and insertions: a file that is put is taken out, room is made, and it goes in |
| RelationshipHistory.RunEqualsRebuildIff | crates/aether-agent/src/symbol_index.rs:181-318 | over every run with any overflow, a bucket by key or stem is that of a rebuild from the held files after every change exactly when no removal takes an entry it kept while an entry of another file that it dropped still belongs |
| RelationshipRuns.RebuildExists | crates/aether-agent/src/symbol_index.rs:181-306 | every collection of at most 128 files has such a rebuild |
| RelationshipRuns.OverflowLosesEvidence | crates/aether-agent/src/symbol_index.rs:308-318 | 33 to 128 files that refer to one name are inserted and the first is dropped: the bucket differs from that of a rebuild from the other files |
| RelationshipStore.AddContribution | crates/aether-agent/src/symbol_index.rs:743-766 | pushes, sorts and truncates one bucket, and records the entry if the bucket kept it |
| RelationshipStore.RelationshipIndexObject.InsertFile | crates/aether-agent/src/symbol_index.rs:181-306 | the insertion loops leave the specified index, whose buckets RelationshipMeaning describes by the file's symbols and relations |
| RelationshipStore.RelationshipIndexObject.RemoveFile | crates/aether-agent/src/symbol_index.rs:308-318 | the removal loops leave the specified index |
| RelationshipStore.SymbolIndexObject.Insert | crates/aether-agent/src/symbol_index.rs:597-606 | replaces a file or makes room by giving up the first path, then inserts its evidence, which RelationshipMeaning describes |
| RelationshipStore.SymbolIndexObject.RemoveFile | crates/aether-agent/src/symbol_index.rs:526-532 | removes a file with its relationships and returns it |
| RelationshipStore.SymbolIndexObject.Clear | crates/aether-agent/src/symbol_index.rs:470-473 | drops everything |
| Lexer.MaskRust | crates/aether-agent/src/symbol_index.rs:1268-1353 | the masking loops compute the mask |
| Lexer.FindRawStringEnd | crates/aether-agent/src/symbol_index.rs:1355-1384 | the end of a raw string with any number of hashes |
| LexerRegions.BlockIs | crates/aether-agent/src/symbol_index.rs:1294-1318 | a block comment ends with itself, nested ones included, or with the source if nothing closes it |
| LexerRegions.RawIs | crates/aether-agent/src/symbol_index.rs:1355-1384 | a raw string ends at the first quote with as many hashes as it opened with, or with the source |
| LexerRegions.LiteralIs | crates/aether-agent/src/symbol_index.rs:1319-1349 | a literal that is no lifetime ends at the next quote of its kind that no backslash precedes, or with the source |
| LexerRegions.RegionIs | crates/aether-agent/src/symbol_index.rs:1268-1353 | at most one comment or literal starts at a place, and it is the one that is masked |
| LexerRegions.MaskIs | crates/aether-agent/src/symbol_index.rs:1268-1353 | what starts where the mask looks for it is blanked up to its end if it is a comment or literal, and kept if it is code |
| LexerRegions.EveryByteIsReached | crates/aether-agent/src/symbol_index.rs:1268-1353 | and every byte belongs to one of them |
| Lexer.MaskOnlyBlanks | crates/aether-agent/src/symbol_index.rs:1268-1353 | every byte of the mask is the source's byte or a blank, and newlines stay where they are |
| Lexer.MaskHasNoOpenings | crates/aether-agent/src/symbol_index.rs:1268-1353 | the masked text holds no double quote and no comment opening |
| Lexer.MaskKeepsUtf8 | crates/aether-agent/src/symbol_index.rs:1268-1353 | masking valid UTF-8 gives valid UTF-8, so the conversion back to a string never falls back to the empty one |
| Lexer.EscapeRuleIff | crates/aether-agent/src/symbol_index.rs:1327-1349 | a literal is masked up to where Rust ends it, unless a backslash stands before its closing quote and the source goes on |
| Lexer.EscapedBackslashHidesCode | crates/aether-agent/src/symbol_index.rs:1327-1349 | a string of one escaped backslash, then a letter: the letter is masked as part of the string |
| Lexer.Tokenize | crates/aether-agent/src/symbol_index.rs:1386-1413 | the tokenizing loop computes the tokens |
| Lexer.TokensAreRight | crates/aether-agent/src/symbol_index.rs:1386-1413 | a token is the longest word at its start or one other byte, and its line counts the newlines before it |
| Lexer.TokensAreOrdered | crates/aether-agent/src/symbol_index.rs:1386-1413 | token spans are in order and do not overlap |
| Lexer.TokensCover | crates/aether-agent/src/symbol_index.rs:1386-1413 | every byte is whitespace or in a token, until the token limit is reached |
| Lexer.TokenLinesAreSourceLines | crates/aether-agent/src/symbol_index.rs:848-860 | token lines, counted in the masked text, are lines of the source |
| Lexer.TokensAreSliceableIff | crates/aether-agent/src/symbol_index.rs:855-860 | the text of every token can be taken without a panic exactly when no byte outside ASCII is left in the masked source, as far as the tokens reach |
| Lexer.LetterOutsideAsciiPanics | crates/aether-agent/src/symbol_index.rs:855-860 | a source of one letter outside ASCII makes it panic |
| SymbolSpans.FindAttributeEnd | crates/aether-agent/src/symbol_index.rs:1080-1095 | the loop finds the bracket that closes an attribute |
| SymbolSpans.NextIdentifier | crates/aether-agent/src/symbol_index.rs:1066-1078 | the loop finds the name of a declaration, before a brace, a semicolon or an equals sign |
| SymbolSpans.ReadMeaning | crates/aether-agent/src/symbol_index.rs:858-1040 | what the parser makes of one token, each meaning continuing at a later token that exists; MeantIs says it by the words of the tokens |
| SymbolWords.MeantIs | crates/aether-agent/src/symbol_index.rs:858-1040 | what the parser makes of a token by the words of the tokens: an attribute up to the bracket that balances its own, a use declaration up to its semicolon, one of six keywords and the next name before a brace, semicolon or equals sign, braces and semicolons |
| SymbolWords.SymbolCount | crates/aether-agent/src/symbol_index.rs:848-1042 | there are as many symbols as the tokens looked at declare and import, up to 512 |
| SymbolWords.DeclarationGivesSymbol | crates/aether-agent/src/symbol_index.rs:848-1042 | a keyword that is looked at and has a name gives the next symbol, from its own line to that of the closing brace that balances the one that opens its body, counted over the words of the tokens |
| SymbolWords.UseGivesSymbols | crates/aether-agent/src/symbol_index.rs:848-1042 | a use declaration gives one symbol an entry, from the line of the keyword to that of the semicolon |
| SymbolSpans.SymbolLines | crates/aether-agent/src/symbol_index.rs:848-1042 | the loop leaves the symbols that the walk over the tokens' marks determines; DeclarationGivesSymbol and UseGivesSymbols say which these are by the words of the tokens |
| SymbolSpans.SymbolsAreDeclared | crates/aether-agent/src/symbol_index.rs:848-1042 | the symbols are the declarations and imported names in their order, the first 512 of them, each with the line it starts on |
| SymbolSpans.SymbolEndsWithItsBody | crates/aether-agent/src/symbol_index.rs:848-1042 | a symbol ends with the brace that closes its body, found by counting braces, or on its own line if it has no body or an `impl` or a semicolon stands before it; a module in the last place only if nothing is declared after it |
| SymbolSpans.ImplParameterHidesTheBody | crates/aether-agent/src/symbol_index.rs:978-1032 | a function on two lines with an `impl` among its parameters: it is reported to end on the first |
| SymbolSpans.LastModuleEndsWithAnother | crates/aether-agent/src/symbol_index.rs:982-991 | 511 functions, a module, and another one for which there is no room: the first module is reported to end where the second does |
| SymbolSpans.SymbolLinesAreSourceLines | crates/aether-agent/src/symbol_index.rs:848-1042 | a symbol never ends before it starts, and both lines exist in the source |
| SymbolSpans.ParseSymbolLines | crates/aether-agent/src/symbol_index.rs:848-1042 | mask, tokens and symbols of any source, which SymbolWords describes by the words of the tokens; none ends before it starts, and both lines exist in the source |
| GitIndex.EntryRoundTrip | crates/aether-agent/src/repo_map.rs:935-967 | an entry written by the format is read back as its name, for names below and above 0xFFF bytes, with and without the extended flag, in any surroundings |
| GitIndex.EntriesRoundTrip | crates/aether-agent/src/repo_map.rs:933-968 | any list of entries is read back in order |
| GitIndex.FileRoundTripIff | crates/aether-agent/src/repo_map.rs:912-982 | any file of the format is read back as its names, unless the parser sees a forbidden extension |
| GitIndex.FileRoundTrip | crates/aether-agent/src/repo_map.rs:912-982 | without `link` and `sdir` extensions every file is read back |
| GitIndex.ExtensionsIff | crates/aether-agent/src/repo_map.rs:969-980 | the extensions are refused exactly when a forbidden one starts with more than 32 bytes left |
| GitIndex.ForbiddenIsSeenIff | crates/aether-agent/src/repo_map.rs:969-980 | the only forbidden extension that goes unseen is a last one with at most four bytes of data, such as an empty `sdir` |
| GitIndex.EmptySdirGoesUnseen | crates/aether-agent/src/repo_map.rs:969-980 | a file that ends in an empty `sdir` extension is read, one whose `sdir` has five bytes is refused |
| GitIndex.ParsePanicsIff | crates/aether-agent/src/repo_map.rs:944-959 | the parser panics exactly on files whose next entry, extended and with the long-name mark, ends before its second flag word does |
| GitIndex.CutFilePanics | crates/aether-agent/src/repo_map.rs:944-959 | a 74-byte file that makes it panic |
| GitIndex.ParseGitIndex | crates/aether-agent/src/repo_map.rs:912-982 | the parsing loops compute outcome and packed paths; under the 64 MiB limit no offset saturates |
| GitIndex.NamesComeBackIff | crates/aether-agent/src/repo_map.rs:912-982 | of a file that is read back, the packed paths are the names byte for byte exactly when all names are UTF-8 |
| GitIndex.ReadEntry | crates/aether-agent/src/repo_map.rs:934-967 | reads one entry, pushes its path, or fails as the format's rules say |
| GitIndex.ReadExtensions | crates/aether-agent/src/repo_map.rs:969-980 | walks the extensions; the truncated-extension error cannot happen |
| GitIndexReads.EntryIff | crates/aether-agent/src/repo_map.rs:933-966 | what one entry is read as, by its bytes: mode, flag bits, length or first NUL byte, and the multiple of eight that it fills |
| GitIndexReads.ReadIff | crates/aether-agent/src/repo_map.rs:912-982 | a file is read as these paths exactly when it is an index of version 2 or 3 with as many entries as it says, which are for these paths, and no extension stands in the way |
| GitIndexReads.RefusedIff | crates/aether-agent/src/repo_map.rs:912-982 | a file is refused exactly for the first thing in it that stands in the way |
| GitIndex.PackedPaths.PushStr | crates/aether-agent/src/repo_map.rs:806-816 | appends one path and its range |
| GitIndex.PackedPaths.Iter | crates/aether-agent/src/repo_map.rs:822-828 | iterates exactly what was pushed |
| RepoCache.PathFramingIsInjective | crates/aether-agent/src/repo_map.rs:1710-1713 | the bytes hashed for NUL-free paths determine the paths |
| RepoCache.PathFramingNeedsNulFree | crates/aether-agent/src/repo_map.rs:1710-1713 | with a NUL byte inside a path they do not |
| RepoCache.ContentFramingIsInjective | crates/aether-agent/src/repo_map.rs:1102-1108 | the bytes hashed for a special file determine content, truncation and readability |
| RepoCache.SpecialFramingIsInjective | crates/aether-agent/src/repo_map.rs:861-872 | over the same paths, the hashed digests are determined |
| RepoCache.CurrentMeansSame | crates/aether-agent/src/repo_map.rs:756-766 | an entry that still looks current gives the snapshot a rebuild would give |
| RepoCache.SameFingerprintMeansSame | crates/aether-agent/src/repo_map.rs:533-538 | so does an entry with the fingerprint of a fresh inventory |
| RepoCache.CacheIsCoherentIff | crates/aether-agent/src/repo_map.rs:524-549 | after any run of edits, calls and invalidations, the answer is what a rebuild returns, exactly unless the root is gone and the entry still looks current |
| RepoCache.CurrentAnswerIff | crates/aether-agent/src/repo_map.rs:524-549 | after any run, whatever became of the index, an entry that looks current is answered rightly exactly when the index of the workspace, wherever it is now, lists as many paths, the same ones shown, and leads to the same details; so it is when it lists the paths of the entry |
| RepoCache.CurrentAnswerInOrderIff | crates/aether-agent/src/repo_map.rs:524-549 | for listings in one order that are shown in full, exactly when it lists the paths of the entry |
| RepoCache.MovedIndexIff | crates/aether-agent/src/repo_map.rs:756-766 | when the index moves and the old one stays, the answer is the old snapshot, which is right exactly when the new index leads to it, as it does when both indexes list the same paths |
| RepoCache.MovedIndexIsMissed | crates/aether-agent/src/repo_map.rs:756-766 | an empty index, and later one with a file at another place: the map still returns the snapshot without files, unlike a fresh one |
| RepoCache.CollectInventory | crates/aether-agent/src/repo_map.rs:849-894 | the hashing loops build the inventory, its stamps and its fingerprint |
| RepoCache.ReadSpecials | crates/aether-agent/src/repo_map.rs:860-882 | the loop over special files, up to their limit |
| RepoCache.RepoMap.TakeSnapshot | crates/aether-agent/src/repo_map.rs:524-549 | the new cache and the answer of one call |
| RepoCache.RepoMap.Invalidate | crates/aether-agent/src/repo_map.rs:746-749 | empties the cache |
| RepoSnapshots.ReadTellsStart | crates/aether-agent/src/repo_map.rs:1116-1144 | reading a special file gives its bytes up to the limit and whether there are more, and tells two workspaces apart exactly when it starts differently in them |
| RepoSnapshots.SpecialsAreFirst | crates/aether-agent/src/repo_map.rs:860-882 | the special files are the first ones of a special kind among the listed paths, in their order |
| RepoSnapshots.CurrentIff | crates/aether-agent/src/repo_map.rs:756-766 | an entry looks current exactly when the index at its old place has the same stamp and every one of its special files starts as it did |
| RepoSnapshots.FreshShows | crates/aether-agent/src/repo_map.rs:849-894 | a fresh snapshot exists exactly when the root is a directory and the paths can be listed; it counts them and shows the first ones sorted |
| RepoSnapshots.ListingIs | crates/aether-agent/src/repo_map.rs:896-910 | the paths are those that git wrote into an index that can be read, and else what git itself says |
| RepoSnapshots.EntryAfterCall | crates/aether-agent/src/repo_map.rs:524-549 | after a call that succeeded the map holds what it answered; one that failed changes nothing |
| RepoSnapshots.AskingAgain | crates/aether-agent/src/repo_map.rs:524-549 | asking again when nothing has changed gives the same answer |
| CommandKey.WordRoundTrip | crates/aether-agent/src/verification.rs:267-275 | reading a printed word gives the word back, whatever its bytes |
| CommandKey.SplitUndoesJoin | crates/aether-agent/src/verification.rs:20-27 | splitting a printed command gives program and arguments back |
| CommandKey.DisplayIff | crates/aether-agent/src/verification.rs:20-27 | two commands print alike exactly when program and arguments agree |
| CommandKey.PrintedAsItIsIff | crates/aether-agent/src/verification.rs:267-275 | a word is printed without quotes exactly when it has some bytes, all of them letters, digits or one of `-_=./:` |
| CommandKey.KeyIff | crates/aether-agent/src/verification.rs:32-40 | two commands have the same key exactly when program and arguments agree and the directories agree, the root having two spellings |
| CommandKey.PushUnique | crates/aether-agent/src/verification.rs:253-261 | adds a command unless the plan has one with the same program, arguments and directory |
| CommandKey.NextPendingVerification | crates/aether-agent/src/context.rs:394-417 | the first planned command that some stored pending check of this revision matches |
| CommandKey.StoredCheckMatchesIff | crates/aether-agent/src/context.rs:394-417 | a stored check is awaited only while it is required, pending and of this revision; it is matched by its own command only, as long as the key fits 256 bytes, and a longer key by whatever prints as its cut form |
| CommandKey.OwnCheckMatchesIff | crates/aether-agent/src/context.rs:394-417 | a command finds its own check again exactly when its key fits 256 bytes |
| CommandKey.CutKeyMatchesAnotherCommand | crates/aether-agent/src/context.rs:394-417 | 300 letters are stored as 256 and then taken for another command |
| Guardrails.LoopGuardrails.Observe | crates/aether-agent/src/guardrails.rs:383-445 | the queues stay those that the history of observations determines; the circuit is reported open exactly when the action is blocked |
| Guardrails.LoopGuardrails.PreflightFailure | crates/aether-agent/src/guardrails.rs:234-262 | an action is refused exactly when an entry of it has three attempts |
| Guardrails.LoopGuardrails.CachedObservation | crates/aether-agent/src/guardrails.rs:197-222 | the cached result of an action at this revision, if there is one |
| Guardrails.FailureQueueStep | crates/aether-agent/src/guardrails.rs:396-415 | a failure raises its entry's count, saturating, or adds an entry and drops the oldest of sixteen |
| Guardrails.LiveKeysDiffer | crates/aether-agent/src/guardrails.rs:396-431 | no pair has two entries |
| Guardrails.BlockedIff | crates/aether-agent/src/guardrails.rs:234-262 | an action is blocked at a revision exactly when it has failed there three times since its entry was created and fewer than sixteen entries were created after it |
| Guardrails.BlockedNeedsThreeFailures | crates/aether-agent/src/guardrails.rs:234-262 | no action is blocked before it has failed three times at the revision |
| Guardrails.EntryStays | crates/aether-agent/src/guardrails.rs:396-415 | while at most fifteen other pairs fail, an entry stays |
| Guardrails.RepeatedFailureIsBlocked | crates/aether-agent/src/guardrails.rs:234-262 | three failures block an action as long as at most fifteen other pairs fail meanwhile |
| Guardrails.CachedAnswerIsRecorded | crates/aether-agent/src/guardrails.rs:416-431 | a cached answer is the result of an earlier success of the same action at the same revision |
| Guardrails.BlockedFromThirdFailure | crates/aether-agent/src/guardrails.rs:234-262 | while at most fifteen others fail, an action is blocked exactly from its third failed observation or verification at the revision on; calls of other kinds play no part |
| Guardrails.CachedFromFirstSuccess | crates/aether-agent/src/guardrails.rs:416-431 | while at most 64 actions have succeeded, the cache has the first result of each of them and nothing else |
| ContextSelection.PartialSortIsPrefix | crates/aether-agent/src/context_selection.rs:164-169 | sorting the first part of a partial selection gives the first part of the full ranking |
| ContextSelection.ListingIsALibrary | crates/aether-agent/src/context_selection.rs:164-169 | what is asked of the library's partial selection and sort, on lists with distinct positions, can be met |
| ContextSelection.RankCandidates | crates/aether-agent/src/context_selection.rs:139-169 | ranking, partial selection, truncation and sorting give the first four times the item limit of the full ranking |
| ContextSelection.SelectContext | crates/aether-agent/src/context_selection.rs:126-194 | the loop computes the greedy choice over that window |
| ContextChoice.PlaceIsNumberOfBetter | crates/aether-agent/src/context_selection.rs:142-169 | the place of a candidate in the ranking is the number of changed ones with a higher score, or the same and an earlier place |
| ContextChoice.ChoiceIsRight | crates/aether-agent/src/context_selection.rs:126-194 | of the changed candidates with fewer than four times the limit better ones, the best come first, each whole unless it uses up the budget; no two say the same, and any other is said by a better one, or came when a limit was reached |
| ContextSelection.GreedyGuarantees | crates/aether-agent/src/context_selection.rs:171-193 | the choice is in rank order, adds up to the bytes used within the budget, cuts at most its last item, holds no duplicates or overlapping excerpts, and every candidate looked at is chosen, duplicates an earlier choice, or came too late |
| ContextSelection.SkippedIsDuplicate | crates/aether-agent/src/context_selection.rs:171-193 | what is ranked before a chosen item, or anywhere in the window if no limit was reached, is chosen or duplicates an earlier choice |
| ContextSelection.WindowIsEnoughIff | crates/aether-agent/src/context_selection.rs:164-193 | the choice from the window is that from all changed candidates exactly when it reaches a limit, or every candidate ranked below the window duplicates a chosen one |
| ContextSelection.AlwaysEnoughIff | crates/aether-agent/src/context_selection.rs:164-193 | for a given number of changed candidates the window is enough for every list, scoring and budget exactly when there are at most four times the item limit, or at most one item is asked for |
| ContextSelection.StarvedChoice | crates/aether-agent/src/context_selection.rs:164-193 | more than four times the limit of candidates, all equal but the last: the window gives one item, all candidates would give two; with a limit of two, eight equal candidates and a ninth are enough |
| Text.JoinedLines | crates/aether-agent/src/policy.rs:1060-1075 | the lines read back from joined rows |
| Text.ReadBackIff | crates/aether-agent/src/policy.rs:1060-1075 | they are the rows exactly when the last row is not empty and no other ends with a carriage return |
| Text.CutLines | crates/aether-tools/src/read.rs:171-194 | the lines of a text cut after some bytes are those of the whole, all but the last, which is whole exactly when the cut fell on a line end |
| Excerpts.ExcerptFromLines | crates/aether-agent/src/context.rs:1896-1910 | the builder's loop |
| Excerpts.ExcerptQuotesIff | crates/aether-agent/src/context.rs:1896-1910 | an excerpt gives its rows back exactly when the first and the last are not empty, they fit 4096 bytes joined, and no row but the last ends with a carriage return |
| Excerpts.ComesBackIff | crates/aether-agent/src/context.rs:1896-1910 | a row of an excerpt whose first row is not empty comes back under its number exactly when it ends inside the kept text without a carriage return, or exactly with the text and is not empty |
| Excerpts.GivenAfterBlanks | crates/aether-agent/src/context.rs:1896-1910 | what an excerpt gives back under each number, for any rows: the row without its carriage return, as much of it as there is room for, or nothing, with the numbers shifted by leading empty rows |
| Excerpts.AppendedIsBuilt | crates/aether-agent/src/context.rs:1974-1990 | the excerpts that the runtime takes itself keep the same text as those of read results, although their builder does not stop early |
| Excerpts.ReadAutoExcerpt | crates/aether-agent/src/context.rs:1938-1996 | the excerpt of a file around a line or from its start, if the file is text, small enough and reaches there |
| Evidence.RefreshedRecords | crates/aether-agent/src/context.rs:434-466 | a refresh clears no staleness, keeps every missing file stale, and leaves only present files with their live hash fresh |
| Evidence.CompletionMeansFresh | crates/aether-agent/src/context.rs:181-197 | a turn that finishes right after a refresh holds only records of present files whose hash is the one at the refresh |
| Evidence.RunIsGood | crates/aether-agent/src/context.rs:1513-1556 | over every run: at most 64 records and 16 excerpts, one record a path, and missing implies stale |
| EvidenceRuns.StaleUntilSeen | crates/aether-agent/src/context.rs:225-382 | a stale record stays stale until a tool or the runtime itself reads or writes its path, for as long as it is held |
| EvidenceRuns.EvictionForgetsStaleness | crates/aether-agent/src/context.rs:1545-1555 | when the oldest record of a full list is the only stale one, a read of a new file clears the drift flag although the stale file was not read again |
| InspectedQueue.RecordsAreNewest | crates/aether-agent/src/context.rs:1513-1556 | over every run the records are those of the 64 files that were recorded last, in order; a file is recorded when it is seen and not among them |
| InspectedQueue.StaleUntilEvictedIff | crates/aether-agent/src/context.rs:1545-1555 | while nobody sees a stale file again, over any run its record is held, and stale, exactly until 64 files were recorded after it |
| InspectedQueue.StaleWasRecorded | crates/aether-agent/src/context.rs:1513-1555 | every file with a record was recorded at some place, the last of which is where its record was made |
| InspectedQueue.EverySeenIsHeldIff | crates/aether-agent/src/context.rs:1545-1555 | every file that a run saw still has its record exactly when it saw at most 64 different ones |
| InspectedQueue.CompletionCoversSeen | crates/aether-agent/src/context.rs:181-197 | a turn that saw at most 64 different files and finishes right after a refresh has a record of every one of them, with the hash the file had at the refresh |
| InspectedQueue.HeldAfterUpsertIff | crates/aether-agent/src/context.rs:1513-1555 | a record survives the next file seen, unless that file is new, the list full and the record the oldest |
| InspectedQueue.NewReadClearsFlagIff | crates/aether-agent/src/context.rs:225-382 | reading one file without a record clears the drift flag exactly when no record is stale but the one that makes room for it |
| InspectedQueue.StalenessIsForgotten | crates/aether-agent/src/context.rs:1545-1555 | 64 files are read, the first changes and a refresh notices; after one more read nothing is stale and the turn can finish, although the change was never read |
| EvidenceRuns.RunExcerptsFromReads | crates/aether-agent/src/context.rs:1415-1444 | over every run of honest reads, with everything the runtime reads itself, every excerpt is what the builder keeps of a read |
| EvidenceRuns.AutomaticIsTaken | crates/aether-agent/src/context.rs:1938-1996 | what the runtime reads itself is an excerpt of a complete read |
| EvidenceEngine.ContextEngine.RefreshAgainstWorkspace | crates/aether-agent/src/context.rs:420-483 | records, excerpts, flags and reported paths after a refresh |
| EvidenceEngine.RefreshRecords | crates/aether-agent/src/context.rs:434-466 | the loop over the records; foreign paths are dropped |
| EvidenceEngine.ContextEngine.UpsertInspected | crates/aether-agent/src/context.rs:1513-1556 | updates or adds one record; a changed hash drops the path's excerpts |
| EvidenceEngine.ContextEngine.ObserveRead | crates/aether-agent/src/context.rs:1415-1444 | records every file of a read result and its excerpt |
| EvidenceEngine.ContextEngine.ObserveWrite | crates/aether-agent/src/context.rs:1446-1464 | records a written file and drops its excerpts |
| EvidenceEngine.ContextEngine.ObserveResult | crates/aether-agent/src/context.rs:225-382 | folds one result in: what the tool wrote and showed, what is read around the diagnostics of a failure, the effects of a command and its files read again; StaleRecords says which records and excerpts this leaves, and when drift is flagged |
| EvidenceEngine.ContextEngine.PromoteEvidence | crates/aether-agent/src/context.rs:1333-1396 | reads the first eight files again, each once, and stores their records and excerpts |
| EvidenceEngine.ContextEngine.FinishTurn | crates/aether-agent/src/context.rs:181-197 | ready exactly when nothing drifted, nothing is stale and the workflow gate agrees |
| StaleRecords.StaleAfterObserveIff | crates/aether-agent/src/context.rs:1206-1235 | after a result, a record of a file that it did not read afterwards is stale exactly when it was, or the effects of its command are uncertain, name no path, or name one that overlaps the file; what is read afterwards is fresh |
| StaleRecords.DriftAfterObserveIff | crates/aether-agent/src/context.rs:225-382 | drift is flagged after a result exactly when it was flagged or a command had effects, unless the result looks at the repository and leaves nothing stale |
| StaleRecords.NoStaleExcerptIsLeft | crates/aether-agent/src/context.rs:1206-1235 | no excerpt of an affected path is left, unless its file was read again |
| StaleRecords.UnaffectedExcerptsStay | crates/aether-agent/src/context.rs:1206-1235 | a result in which no file is seen keeps exactly the excerpts that its change does not affect |
| StaleRecords.UpsertRecords | crates/aether-agent/src/context.rs:1513-1556 | seeing a file records it, present and fresh, with its hash if that is known; no other record changes, and a new hash drops the file's excerpts |
| StaleRecords.ReadIsRemembered | crates/aether-agent/src/context.rs:1415-1444 | after a read of a file with some text its record has the hash of the content, and its excerpt is the newest |
| StaleRecords.WriteIsRemembered | crates/aether-agent/src/context.rs:1446-1464 | a written file is recorded with the hash of the result, counts as changed, and has no excerpt left |
| StaleRecords.DirtyPathIsTheUsers | crates/aether-agent/src/context.rs:1490-1511 | a dirty path counts as the user's exactly when the session did not change it itself |
| StaleRecords.OneRefreshed | crates/aether-agent/src/context.rs:438-464 | what a refresh makes of one record: staleness, presence and hash |
| StaleRecords.StaleAfterRefreshIff | crates/aether-agent/src/context.rs:434-466 | after a refresh a record is stale exactly when it was, or the file is gone or has another hash |
| StaleRecords.RefreshNoticesIff | crates/aether-agent/src/context.rs:420-483 | a refresh flags drift exactly when it was flagged, the root is another one, a record is of no file of the workspace, or some file is news; it drops the excerpts of the files that are |
| EvidenceLists.ChangesAfterObserve | crates/aether-agent/src/context.rs:225-382 | while there is room, the changed paths after a result are those from before, those it wrote if it succeeded, and those its command touched |
| EvidenceLists.ChangesAfterRefresh | crates/aether-agent/src/context.rs:420-483 | a refresh forgets the changed paths that are none of the workspace, and no others |
| EvidenceLists.RunKeepsSpans | crates/aether-agent/src/context.rs:1573-1589 | over every run no two excerpts are of the same lines of the same file |
| EvidenceLists.FirstEightAreReadAgain | crates/aether-agent/src/context.rs:1333-1396 | of the first eight files to be read again, every one with some text has a new excerpt |
| EvidenceLists.AutomaticLines | crates/aether-agent/src/context.rs:1938-1996 | the runtime takes the first 96 lines of a file, or those from eight before a diagnostic to sixteen after it, if the file is text of at most four megabytes and reaches there |
| ReadPolicy.CachedReadResult | crates/aether-agent/src/policy.rs:1007-1095 | the loop over the targets; one target without an answer gives up the whole request |
| CachedReads.AnsweredIff | crates/aether-agent/src/policy.rs:1007-1095 | a target is answered exactly when it asks for the whole file or for lines, its file has a fresh record with the hash it has now, and the newest excerpt that offers the lines has text where they begin |
| CachedReads.QuotedRows | crates/aether-agent/src/policy.rs:1056-1075 | the rows given are the excerpt's lines from the first one asked for on |
| CachedReads.CachedReadIff | crates/aether-agent/src/policy.rs:1007-1095 | a read is answered exactly when nothing drifted, it sets no limit, names one to 64 targets, and each of them is answered; the answers come in their order |
| CachedReads.ReadAgainIsAnswered | crates/aether-agent/src/policy.rs:1007-1095 | what was just read is answered when it is asked for again and the file is as it was |
| CachedReads.RunsIff | crates/aether-agent/src/policy.rs:220-258 | a call runs exactly when it is no read that the cache answers, its circuit is not open, and the workflow does not refuse its change |
| ReadPolicy.CachedAnswerIff | crates/aether-agent/src/policy.rs:1007-1095 | a cached answer, of whatever read, is what the read tool would return now exactly when the file is no binary, a request of the whole file meets an excerpt that reaches its last line, and what the excerpt gives under every requested number is that line of the file |
| ReadPolicy.RightLineIsKeptIff | crates/aether-agent/src/policy.rs:1007-1095 | without an empty first row that is so exactly for lines that fit the excerpt and were not cut by the read, or cut on a line end |
| ReadPolicy.CachedLinesAreLive | crates/aether-agent/src/policy.rs:1007-1095 | every numbered line of an answer is that line of the live file, also when the read ends with empty lines or was cut further down |
| ReadPolicy.RunAnswersAreLive | crates/aether-agent/src/policy.rs:1007-1095 | the same over every run of reads, writes, commands and refreshes, with everything the runtime reads itself |
| ReadPolicy.LiveAnswerIsHonest | crates/aether-agent/src/policy.rs:1007-1095 | an answer whose lines are those of the live file, which is no binary, is what the read tool returns for these lines |
| ReadPolicy.AnsweringKeepsReads | crates/aether-agent/src/policy.rs:383-395 | runs in which answers are recorded like reads: as long as they are given from reliable excerpts of files that are no binaries, every excerpt is what the builder keeps of a read |
| ReadPolicy.AnsweringRunIsLive | crates/aether-agent/src/policy.rs:383-395 | so over every such run, too, the lines of a cached answer are the lines of the live file |
| ReadPolicy.BlankFirstRowShifts | crates/aether-agent/src/policy.rs:1007-1095 | an answer from an excerpt that starts with an empty row is wrong whenever it reaches the excerpt's last line |
| ReadPolicy.BlankLineIsMisread | crates/aether-agent/src/policy.rs:1007-1095 | a file of an empty line and an x: a request of line 1 is answered with the x |
| ReadPolicy.WholeReadIsCutShort | crates/aether-agent/src/policy.rs:1044-1056 | a request of a whole file of two lines is answered with the first of them |
| ReadPolicy.CutReadIsMisquoted | crates/aether-agent/src/policy.rs:1044-1056 | line 2 is read with a limit that falls inside it, in a result small enough to keep its data; a later request of it is answered with 23 of its 100 bytes |
| ReadPolicy.OnlyReadsSucceedUnrun | crates/aether-agent/src/policy.rs:220-258 | only reads are answered with a success without running, and then with the cached files |
| ReadPolicy.OpenCircuitRefuses | crates/aether-agent/src/policy.rs:220-258 | an action that keeps failing is not run again |
| TurnLoop.PassUsesUp | crates/aether-agent/src/agent.rs:301-430 | every pass that continues uses up a step or the one reconstruction |
| TurnLoop.CompletePassIsRight | crates/aether-agent/src/agent.rs:547-605 | a silent answer completes the turn right after a refresh that found every record current, if the root is live; or is refused, or after three refusals blocks it |
| TurnLoop.ToolsPassIsRight | crates/aether-agent/src/agent.rs:607-746 | tools run only right after a drained stream that asked for them; PassIsExplained says what their results do to the evidence |
| TurnLoop.PassIsRight | crates/aether-agent/src/agent.rs:301-746 | every pass keeps the counters and the trace in step |
| TurnLoop.TurnIsRight | crates/aether-agent/src/agent.rs:301-746 | every turn: at most one request more than the step limit, only the first request repeated and without its continuation, tools only after a drained stream, Done only as the last step, a completed repository turn with a live root only right after a refresh that found every record present with its hash, a blocked one only after three silent answers in a row |
| TurnTrace.ToolCallsIsCount | crates/aether-agent/src/agent.rs:463-469 | the tool calls of a stream are counted |
| TurnTrace.NoContinuation | crates/aether-agent/src/agent.rs:500-504 | a stream that gives no continuation keeps the one from before |
| TurnTrace.LastContinuationCounts | crates/aether-agent/src/agent.rs:500-504 | the last continuation that a stream gives is kept |
| TurnTrace.ExplainedIsUnique | crates/aether-agent/src/agent.rs:301-746 | what surrounds a turn determines its steps and how it ends: two accounts of it are the same |
| TurnTrace.TurnContinuesRun | crates/aether-agent/src/agent.rs:672-682 | the turns of a session are one run of operations: every result of an executed batch, and every refresh with its dirty paths, in the order of the trace |
| TurnTrace.StaleUntilShown | crates/aether-agent/src/agent.rs:672-682 | over a turn a stale record stays stale unless an executed batch saw its file, for as long as it is held |
| TurnLoop.PassIsExplained | crates/aether-agent/src/agent.rs:301-746 | every step of a pass follows the ones before it, the results of its batch are those that its surroundings give, and if the turn ends it ends for a reason |
| TurnLoop.TurnIsExplained | crates/aether-agent/src/agent.rs:301-746 | every turn is accounted for step by step, without reference to how the loop computes it, and leaves the evidence that the results and refreshes of its trace leave, applied in their order to the initial one |
| TurnLoop.Drain | crates/aether-agent/src/agent.rs:440-515 | reads a stream to its end, counts the tool calls and keeps the last continuation, or fails |
| TurnLoop.RefreshBeforeCompletion | crates/aether-agent/src/agent.rs:994-1022 | refreshes evidence and dirty paths when the session has a root that is a directory |
| TurnLoop.RunTurn | crates/aether-agent/src/agent.rs:301-746 | the loop ends, computes the turn that its surroundings determine, with all guarantees; its steps and outcome are the only ones that its surroundings explain, and the final evidence is the initial one after every result of its executed batches and every refresh, in the order of the trace |

## Left out

- The file system, processes and platform code: a workspace is a map from paths to contents, a log is a byte sequence, and symbolic links and containment checks are part of what counts as a readable file.
- Tokio, mutexes and channels: polls, wake-ups, decisions and cancellations are parameters that may be anything; a batch whose script of wake-ups ends is reported as still running, which is no outcome of the source, and an event channel that closes inside a batch is not part of this model. The gap between `needs_prompt` and `decide` of the broker, in which another user may act, is covered only in so far as `decide` looks again.
- Panics are outcomes of their own in the index parser; elsewhere a panicking tool is one whose outcome is a failure.
- WorkflowState, the director and the completion review: an arbitrary gate decides whether current evidence completes a turn.
- `schedule_ready_calls`: an exported helper that the batch does not use; it compares a call with the selected ones only, so it can jump past a call it skipped.
- Rendering, prompts, feedback texts, metrics and the events of other kinds; the web interface, benches and evaluations.
- `planner.rs`, `working_set.rs` and `appointments.rs`, which are caps and heuristic scores or rest on a date library; manifest parsing and wildcard matching; relevance scores, which are an arbitrary function of a candidate.
- `git ls-files` as the fallback of the index parser: a function of the index bytes. Of a snapshot, the tracked files and their number are made as in the source; the other lists, sorted and cut as they are there, are a function of the paths and special files, and the order of paths is any relation.
- Footprint.Conflicts: footprints marked as unknown conflict with every footprint, also with an empty one, as the code has it.
- RelationshipIndex.Apply: paths are ranks in their order, and the two maps by stem are one map from (test, stem).
- RepoCache.CacheIsCoherentIff: takes as given that equal index stamps mean equal index bytes, that the index stays at its place, that listings hold no NUL byte, and that the hash does not collide on the bytes of the run; the last two and the place have lemmas of their own.
- ReadPolicy.CachedAnswerIff: takes as given that the hash does not collide on the two contents at hand.
- ReadPolicy.RightLineIsKeptIff: leaves out a line in which both the read and the excerpt were cut; CachedAnswerIff covers it.
- ReadPolicy.CutReadIsMisquoted: the printed size of a result is bounded from above, by six bytes for a byte of text, and not computed.
- SessionStore.NumberingCanGoBack: of the encoding it takes as given that a letter more in a snapshot is a byte more and that everything else takes less than eight kilobytes, of which the number of a line makes up a difference of less than eight bytes.
- Evidence.Observe: line ranges of records, tool summaries and relevant paths; which result is a mutation, what a command may affect and which lines diagnostics name are inputs, as is what each automatic read finds.
- TurnLoop.RunTurn: the texts of requests, work updates, planner shortcuts and automatic checks; their tool results arrive with those of the batch.
- Guardrails.LoopGuardrails.Observe: the progress fingerprint and the nudges it leads to.
- CommandKey.Split: word splitting only; assignments before a command, reserved words and expansions of the shell are not part of this model.
- SymbolSpans.SymbolLines: the entries of a use declaration are a number; names, kinds and relations of symbols are the input of the relationship index.
- SessionStore.SessionStore.Append: the check that follows a size-triggered compaction for the number of lines (lines 315-317) cannot be reached, because replay fails first; permissions and links of the log file are not part of this model.
- TurnLoop.RunPass: TurnLoop says in which passes a batch runs and goes on from its observations, but does not compute them from the outputs that TurnBatches.ExecuteTurnBatches describes.
- InspectedQueue.RecordsAreNewest: takes as given that a portable path is its own portable form, so a refresh drops no record that a run made.
- GitIndex.ParseGitIndex: repositories with SHA-256 object names, whose entries are longer; other index versions are refused.
