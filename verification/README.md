# Apex language server: worker protocol, client lifecycle, framing and enums

A Dafny model of the concurrent and algorithmic core of the Apex language server, with proofs about it.

The centre is the **data-owner worker**. One worker holds the authoritative documents, symbol graph and
document-state cache; many other workers send it results and questions. The model follows it through
several layers that build on each other:

- `TieredQueue`, `QueueBounds`: the two-tier serial queue as a transition system over any store, effects
  and arrival order, compared with a store that runs one effect at a time. `DataOwnerQueues` is the loop
  itself over mutable queues.
- `SymbolGraph`: detail levels and what registering a table does to the one stored.
- `OwnerModel`: the data-owner's state, readiness latches, the three commits and their gates, as one
  event each. `LatchRuns`, `VersionRuns` and `WriteBackRuns` prove what holds over every run of events:
  no lost waiter, what arms and releases one, agreement of document, graph, cache and latch, order and
  honesty of write-backs. `CommitGates` is which commits are accepted, read off documents and cache alone.
  `WorkspaceBatch` is the compile pipeline and what becomes of the compiles that fail.
  `DataOwner` is the same state as a class with the handlers as methods.
- `Readiness`: any number of `AwaitSymbolReadiness` callers, each with its phase, over the queue over the
  data-owner. The queue theorems and the event theorems meet here.
- `CursorCache`: the bounded cache of full-detail recompiles, any number of them at once, compared with
  recompiling. `CursorInterleavings` says exactly what may come between their awaits, `CursorAnswers` when a
  recompile succeeds and what it leaves.

Beside it: the cursor-dependency walk over a cyclic type graph (`DependencyWalk`, `CandidateWalk`,
`ParentChain`, `CursorCandidates`), line and offset positions (`WorkerDocument`), the choice of the reference at the cursor
(`CursorSelection`), the client SDK (`HandlerReplacement`, `ClientLifecycle`, `ClientTeardown`),
Content-Length framing (`Framing`) and the enum builders (`EnumUtils`, `EnumInverse`,
`OptimizedEnumUtils`, over `Decimal`).

Code that updates state in place is a class or a method with loops, and its contract equates the new state
with a function of the old one; the theorems are about that function. What the main ones decide and do is
also stated without naming them, by the fields that they read and write.

## Assumptions

- A handler's queued effect is one step. Releases on account of failed compiles are steps of their own, and
  so is the tail of a document close, which may delete the document and the cache entry at any later time.
  Loss of a cache entry may happen at any time.
- A cursor recompile is one step up to each await. `Undisturbed` says that whenever one files its text, the
  file's table is the right one for it, which `FilingIsRightExactly` shows to be no more than is needed.
- Handlers may die with a defect before the merge, between graph and cache, or between cache and latch;
  each is a possible fate of a commit.
- `VersionsDoNotGoDown`, where a theorem needs it, says that no file is stored at a lower version than
  before (LSP 3.17, "VersionedTextDocumentIdentifier"). `NoneDiesHalfway`, in corollaries, says that no commit
  dies between graph and cache.
- Compiling is a deterministic function of text and file, or a failure.
- A name reads as a number when a parameter `numeric` says so; it has to accept decimal integers.

## Where a promised property fails

Each of these is proved together with the exact condition under which the property does hold.

- A file closed and reopened at a lower version is reported ready while the graph keeps the table of the old
  session, because registration rejects the lower version as stale and the cache is updated all the same
  (`ReopenReadsAsReadyOnTheOldTable`; exactly when: `ReadyIsCurrentExactlyWhenNoneAddedAbove`).
- A commit that dies between graph and cache separates their versions (`DeathHalfwaySeparates`; exactly when:
  `CacheAgreesExactlyWhenLastIsRecorded`) and can leave a recorded level above the table's
  (`HonestExactlyWhenNoLevelIsLost`).
- For a negative armed version, the default of -1 for "nothing merged" passes for a merged version
  (`ReadyIsSoundExactlyFromZero`).
- A handler that dies after merging leaves its awaiters to their timeout
  (`DefectStrandsExactlyTheOpenLatch`), and so does an interactive compile that ends in a defect
  (`InteractiveReleasesExactly`).
- A file of a workspace batch that fails to compile is released only if no commit of the batch dies, and one
  that compiles only if none up to its own dies (`EntryReleasedExactly`, `AnotherEntrysDefectStrands`).
- An ingest stores without arming, so a file can read as ready behind its stored version
  (`ReadyImpliesStoredExactly`).
- A compile commit records `public-api` for a file without symbols, whose table has no level
  (`CompileCommitHonestExactlyWithSymbols`).
- A recompile without a source version is rejected as stale when the stored table is past version 1
  (`OnlyUnversionedRecompilesAreStale`), and a versioned one when another registration overtakes it between
  two awaits (`StaleExactlyWhenOvertaken`).
- Among reusing calls, the cursor cache takes the source version -1 for an omitted one
  (`HitsRefineExactlyWhenKeysDiffer`). The callers that reuse it always pass a version, and for those hits
  refine recompiling (`VersionedReuseRefines`). A registration between a recompile's own and its filing can
  file another table under its text (`DisturbedRunMisfiles`; exactly which registrations:
  `HarmlessBeforeRegistrationExactly`, `HarmlessBeforeFilingExactly`).
- The full identity of a resolved selection at the cursor can depend on the order of the references
  (`IdentityIgnoresOrderExactly`).
- The hidden properties of the optimized enum builder can overwrite a key, and its getters hide keys that
  start with the hidden prefix (`KeysAgreeExactlyWithoutShadowing`,
  `SameEntriesExactlyWithoutHiddenNames`).
- An offset computed for a line past the end can come before that of an earlier position
  (`OrderIsKeptExactly`).
- The range size stops respecting nesting when a column reaches 1,000,000
  (`NestingShrinksExactlyUpToTheWeight`).
- A client whose `initialized` notification fails sends `initialize` again after a successful response
  (`SendsAgainExactlyAfterFailedNotification`).
- A call queued behind the mutex can still send its request after dispose
  (`SendsAfterDisposeExactlyWhenQueued`).
- A cleanup that throws skips the ones registered before it (`AllCleanedExactlyWhenNoneThrowsEarly`).
- The framing script prints byte counts and reads character counts (`ReadBackExactlyWhenSingleByte`), and a
  header without a length blocks its reader for good (`InvalidHeaderBlocks`).

## Model

| member | source | states |
|---|---|---|
| TieredQueue.RunsOneAtATime | packages/apex-ls/src/worker.platform.shared.ts:679-734 | For any callers and arrival order, store and completed exits are those of a store that runs the processed effects one at a time |
| TieredQueue.RunsExactlyOnce | packages/apex-ls/src/worker.platform.shared.ts:679-734 | No offered effect runs twice; its own Deferred is completed exactly when it has run, and until then it is still on the way |
| TieredQueue.ReadSeesTheChangesBeforeIt | packages/apex-ls/src/worker.platform.shared.ts:716-734 | A read returns what it finds after exactly the changes run before it, other reads leaving no trace |
| TieredQueue.TiersRunInOfferOrder | packages/apex-ls/src/worker.platform.shared.ts:716-784 | Writes take effect in offer order, and so do reads among themselves |
| TieredQueue.CompletedComeFirst | packages/apex-ls/src/worker.platform.shared.ts:707-784 | What had completed before an effect was offered precedes it in the log, so a read sees every write completed before it was offered; completions never change |
| TieredQueue.RunKeepsInv | packages/apex-ls/src/worker.platform.shared.ts:679-784 | Conservation over every run: offered is run plus in flight plus waiting, tier by tier and in order |
| QueueBounds.ReadWaitsForOneWrite | packages/apex-ls/src/worker.platform.shared.ts:716-734 | From its offer on, at most one write runs before a read does, within a number of loop actions fixed at that moment |
| QueueBounds.WriteRunsWithinRounds | packages/apex-ls/src/worker.platform.shared.ts:716-734 | A write with k writes ahead of it runs within k + 1 rounds, however many reads keep arriving |
| QueueBounds.RoundsEnd | packages/apex-ls/src/worker.platform.shared.ts:718-729 | Every round ends after a number of actions fixed when it is entered: reads that arrive during it wait |
| DataOwnerQueues.DataOwnerQueues.DrainReads | packages/apex-ls/src/worker.platform.shared.ts:718-722 | All waiting reads run in order; the state is that of as many actions of the transition system |
| DataOwnerQueues.DataOwnerQueues.RunOneWrite | packages/apex-ls/src/worker.platform.shared.ts:724-728 | At most the oldest write runs; the state is that of two or three actions of the transition system |
| DataOwnerQueues.DataOwnerQueues.RunRound | packages/apex-ls/src/worker.platform.shared.ts:716-729 | A round without arrivals appends the waiting reads, then the oldest write, to the log, and refines the transition system |
| DataOwnerQueues.DataOwnerQueues.ProcessItem | packages/apex-ls/src/worker.platform.shared.ts:679-709 | One effect runs and completes its own Deferred, whatever its exit |
| DataOwnerQueues.DataOwnerQueues.OfferRead | packages/apex-ls/src/worker.platform.shared.ts:746-764 | A read joins the back of the read queue under a fresh Deferred |
| DataOwnerQueues.DataOwnerQueues.OfferWrite | packages/apex-ls/src/worker.platform.shared.ts:766-784 | A write joins the back of the write queue under a fresh Deferred |
| SymbolGraph.RegisterVersion | packages/apex-parser-ast/src/symbols/ApexSymbolRefManager.ts:2994-3045 | Registration leaves a file at the larger of stored and incoming version, whichever way it decides |
| SymbolGraph.RegisterReachesLevel | packages/apex-parser-ast/src/symbols/ApexSymbolRefManager.ts:3082-3139 | A table that is not stale lifts the stored one at least to its own detail level |
| SymbolGraph.RegisterByVersion | packages/apex-parser-ast/src/symbols/ApexSymbolRefManager.ts:2994-3139 | By version, symbols and flags: an older table changes nothing; one of the same version, or a newer one that is incomplete or has errors and no symbols, is merged; any other newer one replaces what is stored |
| SymbolGraph.MergeHoldsBoth | packages/apex-parser-ast/src/symbols/ApexSymbolRefManager.ts:3091-3132 | Merged are the symbols of both tables, under each key the incoming one unless it is missing there or poorer; the rest is that of the incoming table |
| SymbolGraph.HoldingBothIsUnique | packages/apex-parser-ast/src/symbols/ApexSymbolRefManager.ts:3091-3132 | No other table holds both in this way |
| SymbolGraph.SymbolIsLostExactly | packages/apex-parser-ast/src/symbols/ApexSymbolRefManager.ts:3016-3139 | A stored symbol is lost exactly to a newer table without it that neither is incomplete nor has errors and no symbols |
| SymbolGraph.LevelsAreOrdered | packages/apex-parser-ast/src/symbols/ApexSymbolRefManager.ts:3108-3118 | The five levels, absent included, are strictly ordered, public-api poorest and full richest |
| SymbolGraph.MergeReachesRicherLevel | packages/apex-parser-ast/src/symbols/ApexSymbolRefManager.ts:3091-3132 | A merge ends at the richer of the two detail levels, and at no other |
| SymbolGraph.MergeIsIdempotent | packages/apex-parser-ast/src/symbols/ApexSymbolRefManager.ts:3091-3132 | Merging the same table in again changes nothing |
| SymbolGraph.DetailLevelIsRichest | packages/apex-parser-ast/src/types/symbol.ts:2014-2048 | The level reported is reached by some symbol and exceeded by none, private counting as full and never reported |
| LatchRuns.NoLostWaiter | packages/apex-ls/src/worker.platform.shared.ts:822-860 | Over every run each latch Deferred ever made is completed or is the one its file's latch holds, and `settled` agrees with completion |
| LatchRuns.TerminalOutcomeReleases | packages/apex-ls/src/worker.platform.shared.ts:4719-4901 | Commit, missing document, version mismatch, level skip, and any release, leave nobody waiting for that file and version |
| LatchRuns.DefectStrandsExactlyTheOpenLatch | packages/apex-ls/src/worker.platform.shared.ts:4841-4901 | A handler that dies leaves awaiters waiting exactly when the latch of its version was still open |
| LatchRuns.WaitersAreOfTheOpenLatch | packages/apex-ls/src/worker.platform.shared.ts:804-860 | Somebody can be waiting for a version exactly when the file's latch is open at it |
| LatchRuns.ReleasedExactly | packages/apex-ls/src/worker.platform.shared.ts:822-860 | Over every run, who waits for a version of a file at some moment is released exactly when, later, the file is stored at another version or closed, or a commit, write-back or release for that version comes to its end |
| LatchRuns.StoreArmsItsVersion | packages/apex-ls/src/worker.platform.shared.ts:822-837 | A file just opened, changed or saved has a latch at exactly its version, a new open one unless it had one at that version, which stays; awaiters of its other versions have all been released, and no other file is concerned |
| LatchRuns.ArmedVersionIsReleased | packages/apex-ls/src/worker.platform.shared.ts:5503-5567 | The next commit or write-back for the stored version that comes to its end, accepted or not, completes that latch's Deferred |
| LatchRuns.LatchIsLastArmed | packages/apex-ls/src/worker.platform.shared.ts:822-860 | Over every run a file has a latch exactly when it has been stored and not closed since, at the version stored last |
| WorkspaceBatch.FailureReleasedExactlyWhenNoCommitDies | packages/apex-ls/src/worker.platform.shared.ts:5269-5359 | For every batch and order: a failed entry whose open latch nothing else concerns is released by the end of the batch exactly when none of its commits died |
| WorkspaceBatch.EntryReleasedExactly | packages/apex-ls/src/compiler/WorkspaceCompilationPipeline.ts:160-197 | For every entry that nothing else concerns: a failed one is released exactly when no commit of the batch dies, a compiled one exactly when no commit up to its own dies |
| WorkspaceBatch.TakenExactlyWhenNoneDies | packages/apex-ls/src/compiler/WorkspaceCompilationPipeline.ts:160-190 | A batch that is over has committed an entry exactly when no commit up to it died |
| WorkspaceBatch.FinishedBatchReleasesItsFailures | packages/apex-ls/src/worker.platform.shared.ts:5353-5359 | Whatever else happens meanwhile, a finished batch leaves nobody waiting who waited for a failed entry when it began |
| WorkspaceBatch.FinishedExactlyWhenNoCommitDies | packages/apex-ls/src/compiler/WorkspaceCompilationPipeline.ts:146-193 | A pipeline that is over has returned exactly when none of its commits died |
| WorkspaceBatch.PipelineEnds | packages/apex-ls/src/compiler/WorkspaceCompilationPipeline.ts:146-193 | Every batch is over after a number of pipeline steps fixed by its entries, whatever happens in between |
| WorkspaceBatch.OpenUntilReleasing | packages/apex-ls/src/compiler/WorkspaceCompilationPipeline.ts:169-190 | Until the pipeline has returned, and for ever if it dies, a failed entry's latch stays open |
| WorkspaceBatch.AnotherEntrysDefectStrands | packages/apex-ls/src/compiler/WorkspaceCompilationPipeline.ts:55-61 | Two files in a batch: one fails to compile, the commit of the other dies, and the first one's awaiters are left waiting |
| WorkspaceBatch.InteractiveReleasesExactly | packages/apex-ls/src/worker.platform.shared.ts:5595-5752 | An interactive compile leaves nobody waiting exactly when the latch was not open, the pool reported a typed error, or the commit ran to its end |
| VersionRuns.CachedIsCommitted | packages/apex-ls/src/worker.platform.shared.ts:4866-4871 | Every cached version was committed by an accepted commit that met the document at exactly that version |
| VersionRuns.ReadyIsSoundExactlyFromZero | packages/apex-ls/src/worker.platform.shared.ts:881-894 | Ready with a latch present rests on an accepted commit at the required version or later, for every run, exactly for required versions from 0 up |
| VersionRuns.ReadyNeedsCommit | packages/apex-ls/src/worker.platform.shared.ts:881-894 | In one run: a ready file with a latch has had an accepted commit at the required version or later |
| VersionRuns.NegativeVersionsReadAsReady | packages/apex-ls/src/worker.platform.shared.ts:889-893 | For every negative version some run reads as ready without a commit at it |
| VersionRuns.StoresAgree | packages/apex-ls/src/worker.platform.shared.ts:4692-4871 | Over every run with versions that do not go down, cached is at most graph is at most stored version, and the first two are equal exactly when the last registration is at the version of the last recorded commit |
| VersionRuns.CacheAgreesExactlyWhenLastIsRecorded | packages/apex-ls/src/worker.platform.shared.ts:4841-4871 | Whichever handlers die, cache and graph agree exactly when the last registration is at the version of the last recorded commit |
| VersionRuns.DeathHalfwaySeparates | packages/apex-ls/src/worker.platform.shared.ts:4841-4871 | A commit that dies between graph and cache leaves the cache a version behind |
| VersionRuns.CommitMakesGraphCurrent | packages/apex-ls/src/worker.platform.shared.ts:5286-5325 | A commit then leaves document, graph and cache at exactly its version |
| VersionRuns.CommitHoldsItsVersion | packages/apex-ls/src/worker.platform.shared.ts:5622-5692 | In any state a commit leaves the graph at its version exactly when the graph was not ahead of it |
| VersionRuns.GraphNotAheadOfDocument | packages/apex-ls/src/worker.platform.shared.ts:4727-4757 | No late result is ahead of the stored document when versions do not go down |
| VersionRuns.GraphVersionWasStored | packages/apex-ls/src/worker.platform.shared.ts:4692-4757 | The graph only ever holds versions the document has had |
| VersionRuns.GraphNeverGoesBack | packages/apex-ls/src/worker.platform.shared.ts:4841-4847 | In whatever order results arrive, a file's graph version never decreases |
| VersionRuns.GraphVersionIsHighestRegistered | packages/apex-ls/src/worker.platform.shared.ts:4841-4847 | In every run the graph holds a file at the highest version ever registered for it, and holds none that was never registered |
| VersionRuns.CachedVersionNeverGoesBack | packages/apex-ls/src/worker.platform.shared.ts:4866-4871 | A cached version never decreases when stored versions do not, whichever handlers die and whatever is dropped in between |
| VersionRuns.CacheNotAheadOfGraph | packages/apex-ls/src/worker.platform.shared.ts:4841-4871 | In every run the cache claims no version that the graph has not reached |
| VersionRuns.CacheAgreesWithGraph | packages/apex-ls/src/worker.platform.shared.ts:5312-5324 | The cached version is the version of the table in the graph when no commit dies between the two |
| VersionRuns.GraphIsCached | packages/apex-ls/src/worker.platform.shared.ts:5312-5324 | Without invalidations a file has a table in the graph exactly when it has a cache entry |
| VersionRuns.DocumentIsLastStored | packages/apex-ls/src/worker.platform.shared.ts:5401-5567 | The stored document is the last one opened, changed, saved or ingested |
| VersionRuns.ReadyIsCurrentExactlyWhenGraphNotAhead | packages/apex-ls/src/worker.platform.shared.ts:881-894 | A file ready at its stored version has that version in the graph exactly when the graph is not ahead of the document |
| VersionRuns.ReadyIsCurrentExactlyWhenNoneAddedAbove | packages/apex-ls/src/worker.platform.shared.ts:881-894 | Read off the events: it is current exactly when no table of the file was ever registered above the stored version |
| VersionRuns.ReadyMeansGraphIsCurrent | packages/apex-ls/src/worker.platform.shared.ts:862-894 | Ready at the stored version means the graph holds exactly that version, when versions do not go down |
| VersionRuns.ReadyImpliesStoredExactly | packages/apex-ls/src/worker.platform.shared.ts:881-894 | Ready for a required version implies that the graph holds the stored version, in all runs with nondecreasing versions, exactly when the stored version is not past the required one |
| VersionRuns.IngestPassesTheLatch | packages/apex-ls/src/worker.platform.shared.ts:5401-5415 | A file ingested at a later version than it was opened and compiled at still reads as ready |
| VersionRuns.ReopenReadsAsReadyOnTheOldTable | packages/apex-ls/src/worker.platform.shared.ts:862-894 | A session that closes at version 5 and reopens at 1 reads as ready on the table of version 5 |
| WriteBackRuns.WorkerClaimsWhatItCarries | packages/apex-ls/src/worker.platform.shared.ts:3050-3154 | A worker sends a write-back exactly when its table has reached the level asked for, and claims the level the table has |
| WriteBackRuns.LevelsAreHonest | packages/apex-ls/src/worker.platform.shared.ts:4841-4871 | In every such run without a death between graph and cache the recorded level never exceeds that of the table in the graph |
| WriteBackRuns.HonestExactlyWhenNoLevelIsLost | packages/apex-ls/src/worker.platform.shared.ts:4841-4871 | Whichever handlers die, across write-backs and both kinds of compile commit: the recorded level is honest at every moment exactly when no replacing registration dies unrecorded with less than the recorded level |
| WriteBackRuns.RegistrationKeepsHonest | packages/apex-ls/src/worker.platform.shared.ts:4841-4871 | One event that is not late keeps an honest record honest exactly when it does not lose the level |
| WriteBackRuns.CommitIsHonest | packages/apex-ls/src/worker.platform.shared.ts:4841-4871 | A commit that is not late and carries the level it records leaves an honest record |
| WriteBackRuns.CompileCommitHonestExactlyWithSymbols | packages/apex-ls/src/worker.platform.shared.ts:5313-5324 | A compile commit is honest exactly when some symbol has a level: of its table if it replaces, of either if it merges, of the stored one if it is stale |
| WriteBackRuns.WriteBackRaisesOrLeaves | packages/apex-ls/src/worker.platform.shared.ts:4759-4871 | An accepted write-back raises the cached (version, level) exactly when it is not older than the cache; a rejected one leaves graph and cache alone |
| WriteBackRuns.AcceptedWriteBackRaises | packages/apex-ls/src/worker.platform.shared.ts:4773-4812 | When versions do not go down every accepted write-back raises (version, level) lexicographically |
| WriteBackRuns.AtMostFourAccepted | packages/apex-ls/src/worker.platform.shared.ts:2919-2929 | At most four write-backs of a file and version are accepted between compile commits and cache losses |
| WriteBackRuns.CountersBalance | packages/apex-ls/src/worker.platform.shared.ts:4686-4874 | Attempted write-backs are the accepted, the three kinds of rejected, and those that died uncounted |
| CommitGates.CommitTakenExactly | packages/apex-ls/src/worker.platform.shared.ts:4692-4871 | A write-back registers its table and is recorded exactly when the document is at its version and the cache has no entry, an older one or a poorer level; a compile commit exactly when the document is at its version; neither touches anything otherwise |
| CommitGates.SymbolIsLostToNewerCommit | packages/apex-ls/src/worker.platform.shared.ts:4841-4847 | A symbol in the graph is lost exactly to such a commit of a newer version without it, that neither is incomplete nor has errors and no symbols |
| CommitGates.CountersAreExact | packages/apex-ls/src/worker.platform.shared.ts:4686-4874 | Over every run each counter is the number of write-backs that met no document, one at another version, an entry that covers them, or none of these |
| DataOwner.DataOwner.ArmReadiness | packages/apex-ls/src/worker.platform.shared.ts:822-837 | The handler's map and Deferreds move as one arming step of the model, superseding an open latch of another version |
| DataOwner.DataOwner.ResolveReadiness | packages/apex-ls/src/worker.platform.shared.ts:844-850 | Releases the awaiters of this version only, at most once |
| DataOwner.DataOwner.ClearReadiness | packages/apex-ls/src/worker.platform.shared.ts:853-860 | Drops the latch and releases whoever holds it |
| DataOwner.DataOwner.SymbolsCurrent | packages/apex-ls/src/worker.platform.shared.ts:881-894 | Decides currency as the model's query does when told truthfully whether a table is present |
| DataOwner.DataOwner.PeekReadiness | packages/apex-ls/src/worker.platform.shared.ts:4607-4628 | The snapshot is the model's, changing nothing |
| DataOwner.DataOwner.DispatchDocument | packages/apex-ls/src/worker.platform.shared.ts:5482-5567 | Open, change and save store the document and arm its latch in one step |
| DataOwner.DataOwner.WorkspaceBatchIngest | packages/apex-ls/src/worker.platform.shared.ts:5392-5415 | The batch loop stores every entry, later ones over earlier, and arms nothing |
| DataOwner.DataOwner.DispatchDocumentClose | packages/apex-ls/src/worker.platform.shared.ts:5572-5587 | A close clears the latch |
| DataOwner.DataOwner.AddSymbolTable | packages/apex-parser-ast/src/symbols/ApexSymbolManager.ts:2012-2109 | The table is stamped with the version and registered by version and completeness |
| DataOwner.DataOwner.CheckWriteBack | packages/apex-ls/src/worker.platform.shared.ts:4692-4812 | Names the gate a write-back stops at |
| DataOwner.DataOwner.CountOutcome | packages/apex-ls/src/worker.platform.shared.ts:4697-4874 | Exactly one counter moves for a handler that lives to count, and none for one that does not |
| DataOwner.DataOwner.AcceptCommit | packages/apex-ls/src/worker.platform.shared.ts:4841-4901 | Graph, cache and latch follow in that order, up to where the handler dies |
| DataOwner.DataOwner.UpdateSymbolSubset | packages/apex-ls/src/worker.platform.shared.ts:4681-4915 | The handler, dying anywhere or not at all, is one write-back event of the model, and its response tells accepted, mismatched and merged count truthfully |
| DataOwner.DataOwner.CommitCompiled | packages/apex-ls/src/worker.platform.shared.ts:5286-5338 | Either compile commit, dying or not, is one compile event of the model and reports whether it committed |
| Readiness.PlayIsQueueRun | packages/apex-ls/src/worker.platform.shared.ts:4596-4679 | The queue inside the system of waiters runs exactly as the queue alone |
| Readiness.StoreIsRun | packages/apex-ls/src/worker.platform.shared.ts:4596-4679 | The data-owner inside the system is the one its handled events lead to |
| Readiness.ReadFindsOwner | packages/apex-ls/src/worker.platform.shared.ts:4607-4628 | A peek answers from the data-owner that exactly the events before it led to |
| Readiness.WaitersAreOk | packages/apex-ls/src/worker.platform.shared.ts:4630-4677 | Over every run each waiter is where its own queued reads have brought it |
| Readiness.AnswersHold | packages/apex-ls/src/worker.platform.shared.ts:4606-4676 | Every verdict but a timeout is true of the data-owner its deciding peek found: ready only when table and cached version are up to date, no-compile-pending only without table and latch, stale only when not up to date, and on a first peek only below the armed version |
| Readiness.FirstPeekDecides | packages/apex-ls/src/worker.platform.shared.ts:4606-4642 | A waiter whose first peek finds no table, or a cached version below the armed or requested one, goes on to await the latch exactly when there is one and the request is negative or not below it; each of the three answers comes exactly in its own remaining case |
| Readiness.SecondPeekDecides | packages/apex-ls/src/worker.platform.shared.ts:4665-4676 | A woken waiter answers ready exactly when its second peek finds a table and the cached version has reached the armed and requested ones, and stale otherwise |
| Readiness.WaitingMeansPending | packages/apex-ls/src/worker.platform.shared.ts:4626-4654 | Only a waiter whose first peek found such a latch waits for its Deferred or times out on it |
| Readiness.ReadsChangeNothing | packages/apex-ls/src/worker.platform.shared.ts:4589-4628 | Peeks are queued as reads and change nothing; effects are queued as writes |
| Readiness.ReadyAnswerRestsOnCommit | packages/apex-ls/src/worker.platform.shared.ts:4656-4676 | A ready answer past a latch rests on an accepted commit at the armed and requested version or later, whatever woke the waiter |
| Readiness.StagesOnlyAdvance | packages/apex-ls/src/worker.platform.shared.ts:4630-4677 | A waiter only moves towards its one answer, which never changes |
| Readiness.AwakeWaiterAdvances | packages/apex-ls/src/worker.platform.shared.ts:4642-4677 | Once what it waits for has happened, a waiter's next step takes it forward |
| Readiness.TimerAnswers | packages/apex-ls/src/worker.platform.shared.ts:4644-4654 | The timer ends the wait for a latch with a timeout verdict |
| Readiness.WaitingEndsInAnswer | packages/apex-ls/src/worker.platform.shared.ts:4642-4677 | Once its latch has settled or its timer fires, a waiter is answered after two steps of its own and a number of the fiber's bounded when its read is offered |
| Readiness.RecheckEndsInVerdict | packages/apex-ls/src/worker.platform.shared.ts:4665-4676 | A recheck ends only in ready or stale-version, on its own read |
| Readiness.ActionsAreBounded | packages/apex-ls/src/worker.platform.shared.ts:716-734 | That bound is at most five more than what the queue holds ahead |
| Readiness.QueuedReadIsServed | packages/apex-ls/src/worker.platform.shared.ts:4589-4628 | No queued peek blocks on a latch: it waits for at most one write and a bounded number of loop actions |
| Readiness.AwaitedLatchIsOpenOrReleased | packages/apex-ls/src/worker.platform.shared.ts:4626-4651 | The Deferred a waiter holds was made for its file, and is completed or is that of the file's open latch |
| Readiness.AtMostTwoReads | packages/apex-ls/src/worker.platform.shared.ts:4607-4673 | A waiter uses at most two queued reads |
| CursorCache.HitsRefineExactlyWhenKeysDiffer | packages/apex-ls/src/worker.platform.shared.ts:2244-2326 | For every compiler and every run in which texts are filed right, with any number of recompiles at once: hits leave the table recompiling would exactly when the reusing calls do not both omit the version and pass -1 |
| CursorCache.HitRefinesRecompiling | packages/apex-ls/src/worker.platform.shared.ts:2244-2257 | On a hit after such a run, recompiling and registering anyway would leave the same table |
| CursorCache.LookupRefinesRecompiling | packages/apex-ls/src/worker.platform.shared.ts:2245-2256 | The same for a recompile that fetched its entry before the table and answers from it, even if the cache has dropped the entry since |
| CursorInterleavings.FilingIsRightExactly | packages/apex-ls/src/worker.platform.shared.ts:2305-2320 | An entry is filed right for all compilers and contents exactly when a recompile of the same text registered its table last at a version the request covers, or the request has no version and the table is past 1 |
| CursorInterleavings.HarmlessBeforeRegistrationExactly | packages/apex-ls/src/worker.platform.shared.ts:2271-2301 | Between lift and registration exactly the tables up to the lifted version are harmless for all contents, and all of them for a request without a version |
| CursorInterleavings.HarmlessBeforeFilingExactly | packages/apex-ls/src/worker.platform.shared.ts:2299-2320 | Between registration and filing exactly the tables below the recompile's own version are harmless for all contents, and for a request without a version also those past 1 |
| CursorInterleavings.HarmlessRunsAreUndisturbed | packages/apex-ls/src/worker.platform.shared.ts:2244-2326 | Runs whose deliveries are harmless in both windows file every text right, other recompiles of the same text included |
| CursorCache.FiledRightIsSettled | packages/apex-ls/src/worker.platform.shared.ts:2305-2320 | A text filed right is filed with a table that recompiling it leaves as it is |
| CursorCache.VersionedReuseRefines | packages/apex-ls/src/worker.platform.shared.ts:2418-2445 | After such a run hits refine recompiling when every reusing call carries a version, -1 included, whatever calls without reuse pass |
| CursorCache.DisturbedRunMisfiles | packages/apex-ls/src/worker.platform.shared.ts:2299-2320 | A newer table registered between a recompile's registration and its filing is filed under the older text |
| CursorCache.UninterruptedIsRecompile | packages/apex-ls/src/worker.platform.shared.ts:2244-2326 | The steps between awaits, with nothing between them, leave what one call leaves and give its answer |
| CursorAnswers.SucceedsExactly | packages/apex-ls/src/worker.platform.shared.ts:2242-2344 | A recompile answers true exactly when content is given and either the lookup hits, or the text compiles and cross-file resolution does not throw |
| CursorAnswers.LeavesRegisteredTable | packages/apex-ls/src/worker.platform.shared.ts:2271-2326 | Without content, on a hit and when the text does not compile, tables and entries stay; otherwise the file has the table registered at the larger of the caller's and the stored version, or what it had when that is stale, and a reusing call files its text with it, last |
| CursorAnswers.SecondRecompileHits | packages/apex-ls/src/worker.platform.shared.ts:2244-2257 | Asking with reuse for a text just compiled with reuse hits, and changes nothing |
| CursorAnswers.HitsExactly | packages/apex-ls/src/worker.platform.shared.ts:2245-2256 | In every run a lookup hits exactly when the cache holds an entry of the file for this text and version whose table is still current |
| CursorAnswers.AnswersFit | packages/apex-ls/src/worker.platform.shared.ts:2242-2344 | In every run, with any number at once: a recompile that answers false had no content or a text that does not compile, and one that answers true a text that compiles or an entry to reuse |
| CursorCache.StaleExactlyWhenOvertaken | packages/apex-ls/src/worker.platform.shared.ts:2271-2301 | With other registrations in between, a versioned recompile is stale exactly when one has overtaken the version it was lifted to |
| CursorCache.OnlyUnversionedRecompilesAreStale | packages/apex-ls/src/worker.platform.shared.ts:2258-2301 | A recompile is rejected as stale exactly when it carries no version and the stored table is past version 1 |
| CursorCache.MinusOneIsMistakenForNoVersion | packages/apex-ls/src/worker.platform.shared.ts:2251-2319 | An entry that a reusing call made without a version answers for version -1 although recompiling at -1 would have merged |
| CursorCache.CacheHoldsMostRecent | packages/apex-ls/src/worker.platform.shared.ts:2305-2326 | Over every run, with any number of recompiles at once, the map holds exactly the most recently compiled distinct files, at most 32, oldest first |
| CursorCache.LastUseIsLast | packages/apex-ls/src/worker.platform.shared.ts:2312-2320 | The order of the cache is that of each file's last compile |
| CursorCache.CursorWorker.AddSymbolTable | packages/apex-parser-ast/src/symbols/ApexSymbolManager.ts:2086-2109 | A rejected table leaves the registered object, and its identity, in place |
| CursorCache.CursorWorker.RememberEntry | packages/apex-ls/src/worker.platform.shared.ts:2312-2325 | Delete, set and evict leave the newest entries with this file last |
| CursorCache.CursorWorker.LiftVersion | packages/apex-ls/src/worker.platform.shared.ts:2271-2284 | The version registered at is the larger of the caller's and the stored one, or the default without one |
| CursorCache.CursorWorker.RecompileCursorFile | packages/apex-ls/src/worker.platform.shared.ts:2222-2344 | The in-place recompile, hit or miss or failure, cross-file resolution included, is one uninterrupted call of the model |
| CandidateWalk.CandidateWalk.Walk | packages/apex-ls/src/worker.platform.shared.ts:1641-1668 | Ends on every type graph, and the keys found are exactly those of reachable names, types and symbols |
| CandidateWalk.CandidateWalk.AddTypeInfoCandidate | packages/apex-ls/src/worker.platform.shared.ts:1590-1614 | The search from a type ends on cycles, finds nothing unreachable, and leaves every type it took up dealt with |
| CandidateWalk.CandidateWalk.AddResolvedSymbolType | packages/apex-ls/src/worker.platform.shared.ts:1618-1639 | A symbol's types, and its own name when asked, have been taken up |
| CandidateWalk.CandidateWalk.AddChildren | packages/apex-ls/src/worker.platform.shared.ts:1606-1610 | Key type, type parameters and resolved type have all been taken up |
| CandidateWalk.CandidateWalk.AddCandidate | packages/apex-ls/src/worker.platform.shared.ts:1576-1587 | The candidate keys gain exactly the key of an accepted name |
| CandidateWalk.CandidateWalk.AddReference | packages/apex-ls/src/worker.platform.shared.ts:1641-1664 | A reference and each of its chain nodes have been dealt with |
| CandidateWalk.CandidateWalk.AddNode | packages/apex-ls/src/worker.platform.shared.ts:1642-1663 | The name of a type reference, the types of its symbol and the symbol of its type have been taken up |
| CandidateWalk.FoundExactlyCandidates | packages/apex-ls/src/worker.platform.shared.ts:1572-1668 | A finished, sound walk has found the keys of all reachable nodes and of no others |
| CandidateWalk.PathHandled | packages/apex-ls/src/worker.platform.shared.ts:1641-1668 | Along every path from a reference at the cursor a finished walk has dealt with each node |
| CandidateWalk.CandidatesIgnoreOrder | packages/apex-ls/src/worker.platform.shared.ts:1641-1664 | The keys do not depend on order or repetition of the references |
| DependencyWalk.ReachableIsLeast | packages/apex-ls/src/worker.platform.shared.ts:1590-1668 | What is reachable is the least set that has what each reference and chain node contributes and is closed under what types and symbols refer to |
| DependencyWalk.KeyOfType | packages/apex-ls/src/worker.platform.shared.ts:1576-1605 | The key of a type: its resolved symbol's qualified name, else namespace and name, else its name; none for arrays, primitives, built-in types and unusable names |
| DependencyWalk.KeyOfSymbol | packages/apex-ls/src/worker.platform.shared.ts:1576-1633 | The key of a symbol: its qualified name, else its name, unless unusable |
| ParentChain.EnclosingType | packages/apex-ls/src/worker.platform.shared.ts:1694-1719 | Ends on cyclic and broken parent chains and finds the nearest enclosing type, or none when no ancestor is one |
| ParentChain.HierarchyCandidates | packages/apex-ls/src/worker.platform.shared.ts:1694-1719 | The keys added are exactly those of the nearest enclosing type's superclass and interfaces |
| CursorCandidates.Candidates | packages/apex-ls/src/worker.platform.shared.ts:1641-1719 | The candidates of a load are exactly those reachable from the references and, exactly when the receiver needs its hierarchy, those of the enclosing type |
| CursorCandidates.DecideHierarchy | packages/apex-ls/src/worker.platform.shared.ts:1674-1687 | The hierarchy is needed exactly when some reference or chain node may name a supertype's member |
| CursorCandidates.NeedsHierarchyExactly | packages/apex-ls/src/worker.platform.shared.ts:1678-1687 | The test of one node: `super` in any case, alone or before a dot, or an unresolved call or field access |
| CursorCandidates.WantedIgnoresOrder | packages/apex-ls/src/worker.platform.shared.ts:1641-1719 | They do not depend on order or repetition of the references |
| ParentChain.HierarchyKeyExactly | packages/apex-ls/src/worker.platform.shared.ts:1701-1714 | The hierarchy's keys are the lower-case names, unusable ones aside, of the superclass and of every interface |
| ParentChain.NearestIsUnique | packages/apex-ls/src/worker.platform.shared.ts:1694-1719 | There is at most one nearest enclosing type |
| WorkerDocument.WorkerDocument.constructor | packages/apex-ls/src/worker.platform.shared.ts:213-219 | The scan finds strictly increasing line starts: 0 and exactly the offsets after newlines |
| WorkerDocument.WorkerDocument.OffsetOf | packages/apex-ls/src/worker.platform.shared.ts:220-227 | The method computes the offset that the lemmas are about, on the line starts it holds |
| WorkerDocument.WorkerDocument.PositionOf | packages/apex-ls/src/worker.platform.shared.ts:237-251 | The binary search ends at the line that encloses the clamped offset |
| WorkerDocument.WorkerDocument.GetText | packages/apex-ls/src/worker.platform.shared.ts:232-235 | The text between the two offsets, in either order |
| WorkerDocument.OffsetIsInItsLine | packages/apex-ls/src/worker.platform.shared.ts:220-227 | Lines out of range count as the first or last, characters out of range as the start or end of the line, and any other position is start of line plus character |
| WorkerDocument.TextIgnoresDirection | packages/apex-ls/src/worker.platform.shared.ts:232-235 | The text of a range is the same in both directions, and is what lies between its offsets |
| WorkerDocument.LineStartsAreUnique | packages/apex-ls/src/worker.platform.shared.ts:213-219 | The text alone determines the line starts |
| WorkerDocument.PositionIsUnique | packages/apex-ls/src/worker.platform.shared.ts:208-253 | An offset has exactly one position |
| WorkerDocument.OffsetRoundTrip | packages/apex-ls/src/worker.platform.shared.ts:208-253 | Offset to position and back is the clamped offset, for every offset |
| WorkerDocument.PositionRoundTrip | packages/apex-ls/src/worker.platform.shared.ts:208-253 | Position to offset and back is the same position exactly when it lies inside its line |
| WorkerDocument.OrderIsKeptExactly | packages/apex-ls/src/worker.platform.shared.ts:220-227 | Offsets keep the order of positions on two lines exactly when the lines are equal, fall on different lines of the text, or on an empty one |
| WorkerDocument.OffsetsAreMonotone | packages/apex-ls/src/worker.platform.shared.ts:220-227 | Offsets keep the order of positions on lines in range |
| WorkerDocument.OffsetsCanGoBackOutOfRange | packages/apex-ls/src/worker.platform.shared.ts:220-227 | A position past the last line comes before an earlier one |
| WorkerDocument.AdjacentTextsConcatenate | packages/apex-ls/src/worker.platform.shared.ts:220-235 | For ordered positions on lines in range, adjacent texts concatenate |
| CursorSelection.SelectionMeaning | packages/apex-ls/src/worker.platform.shared.ts:2735-2768 | Nothing when nothing is hit, ambiguous exactly on a conflict among narrowest hits, else a narrowest hit, resolved whenever one is |
| CursorSelection.OrderIsNotSemantic | packages/apex-ls/src/worker.platform.shared.ts:2735-2768 | Verdict, resolved symbol, and the identity of an unresolved selection are the same for any list of the same references |
| CursorSelection.IdentityIgnoresOrderExactly | packages/apex-ls/src/worker.platform.shared.ts:2719-2768 | The full identity of the selected reference is the same for every permutation exactly when the selection is unresolved or absent or all resolved narrowest hits share one identity |
| CursorSelection.ContextOfSelectionDependsOnOrder | packages/apex-ls/src/worker.platform.shared.ts:2754-2762 | Two references to one symbol at one range in different contexts select different identities in the two orders |
| CursorSelection.SameIdentityExactly | packages/apex-ls/src/worker.platform.shared.ts:2719-2727 | Two references are identified exactly when their names agree but for case, their contexts agree, and so do their resolved ids, an absent one counting as empty |
| CursorSelection.FirstIsSelected | packages/apex-ls/src/worker.platform.shared.ts:2754-2762 | A resolved narrowest hit that comes first is the one selected |
| CursorSelection.SelectedIsFirstEligible | packages/apex-ls/src/worker.platform.shared.ts:2735-2768 | The reference selected is the first narrowest hit in the list that is resolved, or the first of all when none is |
| CursorSelection.PermutationsHaveTheSameMembers | packages/apex-ls/src/worker.platform.shared.ts:2735-2768 | Every permutation is such a list |
| CursorSelection.SelectedEnclosesNoOtherHit | packages/apex-ls/src/worker.platform.shared.ts:2735-2748 | With columns below the weight no selected reference strictly encloses another hit |
| CursorSelection.NestingShrinksExactlyUpToTheWeight | packages/apex-ls/src/worker.platform.shared.ts:2710-2717 | A strictly nested range is strictly smaller for all ranges with columns below a bound exactly when the bound is at most 1,000,000 |
| CursorSelection.NarrowestAreNarrowestHits | packages/apex-ls/src/worker.platform.shared.ts:2735-2748 | The narrowest set is exactly the hits no other hit is smaller than, and empty only without hits |
| CursorSelection.RangeTestsAgree | packages/apex-ls/src/worker.platform.shared.ts:2684-2708 | The two differently written range tests decide the same |
| CursorSelection.SelectionsAgree | packages/apex-ls/src/worker.platform.shared.ts:1457-1488 | Both narrowest-set computations agree, and the selected reference is among those a dependency load starts from |
| CursorSelection.WithoutHitsAccessDecides | packages/apex-ls/src/worker.platform.shared.ts:1477-1487 | Without a hit, a load starts from the references whose member access holds the cursor, from the end of the operator to the end of the member, in order |
| HandlerReplacement.ExactlyOneIsLive | packages/apex-lsp-client/src/apexMethods.ts:294-352 | After any registrations and disposals exactly one registration is live, and it alone is in the cleanup list, once |
| HandlerReplacement.LastRegisteredIsInForce | packages/apex-lsp-client/src/apexMethods.ts:311-352 | The last registered handler is in force unless its own handle was disposed since; stale and repeated disposals change nothing |
| HandlerReplacement.FallbackUntilRegistered | packages/apex-lsp-client/src/apexMethods.ts:297-309 | Before any registration only the fallback is live |
| HandlerReplacement.OthersAreAsAdded | packages/apex-lsp-client/src/apexMethods.ts:227-237 | After any run the rest of the cleanup list is what was added and not dropped, in the order of adding |
| HandlerReplacement.RegistrationsLeaveOthersInOrder | packages/apex-lsp-client/src/apexMethods.ts:232-352 | A registration, or the disposal of a handle, leaves the rest of the cleanup list in order, and what is registered comes last |
| HandlerReplacement.ApexMethodSurface.RegisterIncoming | packages/apex-lsp-client/src/apexMethods.ts:324-327 | A registration goes live under a fresh identity |
| HandlerReplacement.ApexMethodSurface.RemoveCleanup | packages/apex-lsp-client/src/apexMethods.ts:232-237 | Every occurrence of the disposable leaves the list, and the rest keeps its order |
| HandlerReplacement.ApexMethodSurface.OnFindMissingArtifact | packages/apex-lsp-client/src/apexMethods.ts:311-331 | The in-place registration is the model's step and returns the new handle |
| HandlerReplacement.ApexMethodSurface.DisposeOf | packages/apex-lsp-client/src/apexMethods.ts:335-351 | Disposing any handle, stale or not, is the model's step |
| ClientLifecycle.HandshakeOrder | packages/apex-lsp-client/src/apexClientCore.ts:352-451 | For any interleaving and any failures: one attempt in flight, a notification only after, and nothing but it after, a successful response, and one result for all callers |
| ClientLifecycle.AnsweredAttempt | packages/apex-lsp-client/src/apexClientCore.ts:367-417 | Whatever others do meanwhile, an attempt whose request is answered sends its notification; once that is acknowledged the call returns the response and it is memoised, and if it fails the call fails and nothing is; the wire gains exactly request, response and notification |
| ClientLifecycle.FailedAttempt | packages/apex-lsp-client/src/apexClientCore.ts:404-410 | Likewise an attempt whose request fails: the call fails, nothing is memoised and nothing more is sent |
| ClientLifecycle.MemoAnswers | packages/apex-lsp-client/src/apexClientCore.ts:373-409 | With a memoised success the next caller admitted returns it and sends nothing |
| ClientLifecycle.InsideAlone | packages/apex-lsp-client/src/apexClientCore.ts:367-417 | While a call is inside, nothing but its own progress moves it or touches wire and memo |
| ClientLifecycle.SecondRequestMeansFailedNotification | packages/apex-lsp-client/src/apexClientCore.ts:404-417 | A request after a successful response means that the response's notification was sent and failed |
| ClientLifecycle.SendsAgainExactlyAfterFailedNotification | packages/apex-lsp-client/src/apexClientCore.ts:373-417 | After a notified response the next call into the handshake sends again exactly when the notification failed |
| ClientLifecycle.SuccessIsFinal | packages/apex-lsp-client/src/apexClientCore.ts:373-451 | After one full success nothing is sent again, and every later caller that returns gets that result |
| ClientLifecycle.CallsAfterDisposeAreRefused | packages/apex-lsp-client/src/apexClientCore.ts:345-354 | Calls made after dispose are refused and never reach the wire |
| ClientLifecycle.SendsAfterDisposeExactlyWhenQueued | packages/apex-lsp-client/src/apexClientCore.ts:345-430 | A request can still be sent after dispose exactly when some call was queued and no success is memoised |
| ClientLifecycle.QueuedCallSendsAfterDispose | packages/apex-lsp-client/src/apexClientCore.ts:345-430 | A concrete interleaving in which a request follows dispose |
| ClientLifecycle.Handshake.Begin | packages/apex-lsp-client/src/apexClientCore.ts:422-430 | The guard and the wait for the semaphore, as the model's step; the invariants are kept |
| ClientLifecycle.Handshake.Enter | packages/apex-lsp-client/src/apexClientCore.ts:367-409 | A caller admitted by the semaphore returns the memo or sends the request |
| ClientLifecycle.Handshake.Respond | packages/apex-lsp-client/src/apexClientCore.ts:406-410 | The response is held by the call, or the failure frees the semaphore |
| ClientLifecycle.Handshake.Notify | packages/apex-lsp-client/src/apexClientCore.ts:411-413 | The notification follows the response of the same call |
| ClientLifecycle.Handshake.Acknowledge | packages/apex-lsp-client/src/apexClientCore.ts:411-417 | Only a full success is memoised |
| ClientLifecycle.Handshake.Dispose | packages/apex-lsp-client/src/apexClientCore.ts:590-598 | Dispose turns later callers away and leaves those inside alone |
| ClientTeardown.AllCleanedExactlyWhenNoneThrowsEarly | packages/apex-lsp-client/src/apexClientCore.ts:332-343 | All cleanups run in reverse registration order exactly when none but the first registered throws; otherwise a prefix of that order runs |
| ClientTeardown.CleanedExactly | packages/apex-lsp-client/src/apexClientCore.ts:332-343 | A disposable is cleaned, in its place from the end, exactly when none registered after it throws |
| ClientTeardown.TransportClosesLast | packages/apex-lsp-client/src/apexClientCore.ts:590-598 | The transport is closed once, after everything else, whatever throws |
| ClientTeardown.ReversedAt | packages/apex-lsp-client/src/apexClientCore.ts:338-341 | The order of cleanup, position by position, is the reverse of registration |
| ClientTeardown.ClientCore.RegisterCleanup | packages/apex-lsp-client/src/apexMethods.ts:227-230 | A disposable joins the end of the list |
| ClientTeardown.ClientCore.RunCleanups | packages/apex-lsp-client/src/apexClientCore.ts:334-343 | The loop disposes in that order and stops at the first throw |
| ClientTeardown.ClientCore.Dispose | packages/apex-lsp-client/src/apexClientCore.ts:590-598 | Only the first call tears down: cleanups, then the transport |
| ClientTeardown.ClientCore.DisposeRepeatedly | packages/apex-lsp-client/src/apexClientCore.ts:190-196 | Any positive number of calls tears down exactly once |
| ClientTeardown.OverlappingCallsTearDownOnce | packages/apex-lsp-client/src/apexClientCore.ts:590-598 | However calls overlap with the teardown, what has run is a first part of one teardown, and all of it once nothing is left |
| Framing.FramingRoundTrip | packages/apex-lsp-testbed/test-document-symbols.js:54-116 | For one-byte messages in any chunks, at every moment the messages read are the first ones printed, as many as have arrived whole, and the buffer is the unread suffix |
| Framing.ReadBackExactlyWhenSingleByte | packages/apex-lsp-testbed/test-document-symbols.js:54-116 | A whole printed stream is read back as printed exactly when all its characters are one byte |
| Framing.LoneFrameIsReadExactlyWhenSingleByte | packages/apex-lsp-testbed/test-document-symbols.js:62-116 | A frame on its own is read exactly when its message is one-byte; otherwise the reader waits |
| Framing.ChunksMakeNoDifference | packages/apex-lsp-testbed/test-document-symbols.js:91-116 | For any data, good or bad, messages and buffer depend only on the text that has arrived |
| Framing.InvalidHeaderBlocks | packages/apex-lsp-testbed/test-document-symbols.js:99-104 | After a header without a length nothing is ever read again |
| Framing.FrameIsRead | packages/apex-lsp-testbed/test-document-symbols.js:96-116 | A whole frame yields its message and leaves exactly what follows it |
| Framing.MessageIsReadExactly | packages/apex-lsp-testbed/test-document-symbols.js:94-116 | One turn reads a message exactly when the buffer is a header, a separator, as many characters as the header says, and the rest; it is stuck exactly on a header without a length |
| Framing.LengthIsAfterFirstField | packages/apex-lsp-testbed/test-document-symbols.js:99-106 | The length is the longest run of digits after the first field name that has one, anywhere in the header |
| Framing.ParsedStaysParsed | packages/apex-lsp-testbed/test-document-symbols.js:94-116 | Data that arrives later changes no message already complete and mends no bad header |
| Framing.PartOfAFrameWaits | packages/apex-lsp-testbed/test-document-symbols.js:96-109 | Any proper part of a frame is kept, and nothing is read from it |
| Framing.HeaderReadsBack | packages/apex-lsp-testbed/test-document-symbols.js:62-106 | The printed length is the length read |
| Framing.StreamReadsBackExactly | packages/apex-lsp-testbed/test-document-symbols.js:54-116 | Delivered at once, a printed stream is read back exactly when its messages are one-byte |
| Framing.MultiByteIsMisread | packages/apex-lsp-testbed/test-document-symbols.js:62-116 | What is read from the frame of a message that is not one-byte is always longer than the message |
| Framing.StdoutReader.OnData | packages/apex-lsp-testbed/test-document-symbols.js:91-116 | Keeps messages and buffer those of everything received so far, and never takes a message back |
| Decimal.PrintIsInjective | packages/apex-lsp-shared/src/enumUtils.ts:97-99 | Different integers become different property names |
| Decimal.DigitsReadBack | packages/apex-lsp-testbed/test-document-symbols.js:62-106 | A printed length parses back as itself |
| EnumUtils.DefaultIsLeastFree | packages/apex-lsp-shared/src/enumUtils.ts:88-94 | A default at position i is the least index from i on that no earlier entry uses, and at most 2i |
| EnumUtils.DefaultReachesTwiceItsPosition | packages/apex-lsp-shared/src/enumUtils.ts:88-94 | The bound 2i is reached at every position |
| EnumUtils.DefineEnum | packages/apex-lsp-shared/src/enumUtils.ts:75-131 | The builder with its index search ends and builds the specified object and schemas |
| EnumUtils.SchemasOverride | packages/apex-lsp-shared/src/enumUtils.ts:112-131 | The two schema names hold the keys and values of all entries, whatever these are called, and every other property is as the entries left it |
| EnumUtils.GetEnumKeys | packages/apex-lsp-shared/src/enumUtils.ts:171-186 | The names that are neither numeric nor of a schema, in order |
| EnumUtils.GetEnumValues | packages/apex-lsp-shared/src/enumUtils.ts:191-214 | The contents of those, at their first occurrence |
| EnumUtils.GetEnumEntries | packages/apex-lsp-shared/src/enumUtils.ts:219-223 | Those names paired with their contents |
| EnumUtils.OccursOnce | packages/apex-lsp-shared/src/enumUtils.ts:191-214 | Values are listed once each, none is lost, and all stay when none repeats |
| EnumInverse.InverseExactlyWithoutRepeats | packages/apex-lsp-shared/src/enumUtils.ts:81-103 | For integers and distinct non-numeric keys the two directions are mutual inverses exactly when no given number repeats an earlier value |
| EnumInverse.InverseExactlyWithDistinctNames | packages/apex-lsp-shared/src/enumUtils.ts:97-99 | For any values, key to value always holds and value to key exactly when the values print differently |
| EnumInverse.BuildMaps | packages/apex-lsp-shared/src/enumUtils.ts:97-99 | A repeated value leads to the last key that has it |
| EnumInverse.KeysMap | packages/apex-lsp-shared/src/enumUtils.ts:97-99 | Every key leads to its own value |
| EnumInverse.ValuesMap | packages/apex-lsp-shared/src/enumUtils.ts:97-99 | The last key with a value is the one its name leads to |
| EnumInverse.KeysAreListed | packages/apex-lsp-shared/src/enumUtils.ts:171-186 | The names listed are the keys and nothing else |
| EnumInverse.DistinctExactlyWithoutRepeats | packages/apex-lsp-shared/src/enumUtils.ts:81-103 | Values are distinct exactly when no given one repeats an earlier one: defaults never do |
| EnumInverse.KeysComeBack | packages/apex-lsp-shared/src/enumUtils.ts:171-186 | The keys come back in order |
| EnumInverse.EntriesComeBack | packages/apex-lsp-shared/src/enumUtils.ts:219-223 | The entries come back in order with defaults filled in, even where numbers repeat |
| EnumInverse.ValuesComeBack | packages/apex-lsp-shared/src/enumUtils.ts:191-214 | The values come back in order when no given number repeats |
| OptimizedEnumUtils.DefineOptimizedEnum | packages/apex-lsp-shared/src/optimizedEnumUtils.ts:110-182 | The optimized builder ends, and returns the specified object or throws |
| OptimizedEnumUtils.ThrowsExactlyBeyondUint32 | packages/apex-lsp-shared/src/optimizedEnumUtils.ts:68-78 | It throws exactly when some number, given or by default, lies outside 0 to 4294967295 |
| OptimizedEnumUtils.OptimalIsNarrowest | packages/apex-lsp-shared/src/optimizedEnumUtils.ts:68-78 | The type chosen takes the number and no narrower one does, and there is one for every number that some type takes |
| OptimizedEnumUtils.OptimizedIsAlike | packages/apex-lsp-shared/src/optimizedEnumUtils.ts:118-156 | Otherwise, for all entries, names without the hidden prefix have the same contents, in both directions and the same order |
| OptimizedEnumUtils.KeysAgreeExactlyWithoutShadowing | packages/apex-lsp-shared/src/optimizedEnumUtils.ts:121-147 | Every key has the plain builder's value exactly when no key is the prefix plus a later key with a different number |
| OptimizedEnumUtils.OptimizedInverseExactly | packages/apex-lsp-shared/src/optimizedEnumUtils.ts:118-152 | For integers and distinct non-numeric keys, the two directions are mutual inverses exactly when no given number repeats an earlier value and no key is the prefix plus a later key |
| OptimizedEnumUtils.ValuesAgree | packages/apex-lsp-shared/src/optimizedEnumUtils.ts:146-147 | Each number leads to the key that it leads to in the plain enum |
| OptimizedEnumUtils.HiddenPropertyOverwritesKey | packages/apex-lsp-shared/src/optimizedEnumUtils.ts:128-147 | The hidden property of `X` overwrites an earlier key of its name |
| OptimizedEnumUtils.SameEntriesComeBack | packages/apex-lsp-shared/src/optimizedEnumUtils.ts:275-295 | Its getter gives the entries the plain one gives when no name is hidden |
| OptimizedEnumUtils.SameEntriesExactlyWithoutHiddenNames | packages/apex-lsp-shared/src/optimizedEnumUtils.ts:275-295 | For every accepted list of entries, the getters agree exactly when no name that the plain one lists is hidden |
| OptimizedEnumUtils.GetOptimizedEnumEntries | packages/apex-lsp-shared/src/optimizedEnumUtils.ts:275-295 | The listed names, hidden ones skipped, paired with their contents in order |

## Left out

- Framing.FramingRoundTrip: holds for one-byte characters only, because the script mixes bytes and characters; ReadBackExactlyWhenSingleByte shows that this is exactly when it can hold.
- WriteBackRuns.LevelsAreHonest: a corollary for runs without a death between graph and cache; HonestExactlyWhenNoLevelIsLost covers all runs.
- VersionRuns.CacheAgreesWithGraph: a corollary likewise; CacheAgreesExactlyWhenLastIsRecorded covers all runs.
- VersionRuns.ReadyMeansGraphIsCurrent: a corollary for a required version equal to the stored one; ReadyImpliesStoredExactly covers the rest.
- CursorCache.CursorWorker.RecompileCursorFile: the method is the call that nothing interrupts; interleavings are covered by the steps between awaits.
- DataOwnerQueues.DataOwnerQueues.RunRound: assumes that nothing arrives during the round; arrivals at any point are covered by the transition system.
- DataOwner.DataOwner.DispatchDocumentClose: covers the latch; the deletions of the asynchronous tail are steps of their own.
- CursorSelection.OrderIsNotSemantic: the identity of a resolved selection is left to IdentityIgnoresOrderExactly, since it does depend on order.
- ClientTeardown.ClientCore.DisposeRepeatedly: sequential calls; overlapping ones are in OverlappingCallsTearDownOnce.
- Effect and Promise runtimes, fibers, spans, tracing, logging, timestamps, the idle sleep of the queue loop, and the symbol totals of the metrics.
- Where a readiness latch record is shared by reference: a latch is a value in the map, since nothing keeps the record but its Deferred, which is named.
- Eviction order and invalidation rules of the document-state cache: an entry may be lost at any step.
- What closing a document does to graph and cache beyond such losses, and cross-file resolution after a commit.
- Symbol tables beyond version, symbols with level and declaration, and completeness: key fallback matching, scopes, reference merging, and the early return for the same table object.
- URI normalisation, and write-backs for standard library and generated files.
- The compile pool, the bounded result buffer and its back-pressure: a compile is its outcome, in the order in which it is taken. A workspace batch refused because there is no pool, which releases nothing.
- Loading of candidate files by the dependency load, its memo of loaded symbols, and the case folding of letters other than A to Z.
- The separator that joins a reference identity into one string, where a name could contain it: identities are tuples here.
- Line endings other than a newline, and surrogate pairs, in document texts.
- In the client: middleware, tracing, the other method registrations, handle disposal after the core is disposed, and the arguments of initialize; a failed request is one that rejects.
- In the framing script: JSON, message ids, the responses sent back, and lengths beyond exact integers.
- In the enums: symbols and non-integers as values, integers that do not print as plain digits, the property name `__proto__`, Zod schemas beyond the lists they are made from, and the enumeration order of numeric property names, which the getters skip.
- Worker spawning, message ports, the VS Code extension, scripts, wire schemas and settings: plumbing or declarations.
