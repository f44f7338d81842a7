# A verified model of the HSKify daemon's control logic

The browser daemon translates web comics and web novels into graded Chinese. This
project models the logic that decides *what runs when, what is sent, what is kept
and what may be shown*, and proves properties of it over every input and every run.
Models, tokenizers, text splitting, digests and the network appear as arbitrary
functions, so the results hold whatever they answer.

| area | files | source |
|---|---|---|
| admission to the GPU lanes | `CudaScheduler`, `CudaRuns`, `CudaFairness`, `CudaEntry`, `CudaWrap` | `cuda_scheduler.rs` |
| a document run: batches, context, accumulators, loop | `DocumentBatches`, `DocumentPlan`, `DocumentRun`, `DocumentSchedule`, `DocumentLoop`, `NeighborContext` | `pipeline_adapter.rs` |
| microbatches of recognized regions | `TranslationQueue` | `pipeline_adapter.rs` |
| strict-mode repair of translations | `StrictRepair` | `pipeline_adapter.rs` |
| OCR duplicates by edit distance | `EditDistance` | `pipeline_adapter.rs` |
| chapter context and page analyses | `ChapterContext`, `ChapterSession` | `chapter_session.rs` |
| document requests, their hash input, update batches | `DocumentRequest`, `DocumentHash`, `JobUpdates` | `contracts.rs` |
| byte-bounded caches, result cache on disk, cached documents | `LruCache`, `ResultCache`, `CachedDocument` | `decoded_cache.rs`, `pipeline_adapter.rs`, `result_cache.rs` |
| the HSK word list and its import | `HskDataset`, `HskImport` | `hsk-control` |
| machine integers, sums, sorting, strings | `Machine`, `MapSums`, `Sorting`, `Text` | |

How the parts are built:

* **Scheduler.** Each lock-held section is one function on the lanes
  (`EnterLane`, `PollLane`, `CancelWaiter`, `ReleaseLane`); the classes
  `SchedulerState` and `CudaScheduler` update their fields in place and are proved
  against those functions. A run is any sequence of steps: a call begins, enters,
  polls, reads its flag, is dropped, or a flag is raised.
* **Document run.** `Run` is the loop over `remaining`; the browser's focus is a
  function of a clock that ticks with every reading. The queue invariant is that
  what is unsent of each block is a suffix of its pieces. Termination is by the
  pair (readings left until focus settles, pieces left). A record of the dispatches
  says what was taken by which reading of the focus and how far it was sent; the
  order of the log is a function of the pieces sent.
* **Contracts of methods** name first the state or value they produce, through a
  specification function or predicate; lemmas then say what that specification
  means.

Where the code falls short of what one might expect of it, the code is kept, the
condition under which it does meet it is proved, and an input shows that the
condition is needed:

* The scheduler's order results hold for up to 2^64 arrivals; with 2^64 + 1 the
  wrapped counter lets a later request pass an earlier equal one
  (`CudaWrap.OneArrivalTooMany`).
* Two different, accepted document requests can feed the hash the same bytes, as
  ids may contain the separators (`DocumentRequest.AcceptedSnapshotsCanCollide`).
  Ids without unit separators and texts without record separators are sufficient
  for distinct bytes, and each of the three is shown to matter; two particular
  lists with separators may still differ in their bytes.
  Cached documents are safe all the same: a cached job passes for one block list
  only (`CachedDocument.AcceptedForOneSnapshotOnly`).
* `validate_after` adds with saturation, so at the u64 maximum it accepts the same
  sequence number twice (`JobUpdates.LargestSequenceCanRepeat`); a chain from 0 is
  gapless exactly when no poll at that maximum was sent updates. It also accepts
  batches that follow a terminal one; a terminal update ends the log exactly when
  none of those brings updates
  (`JobUpdates.TerminalIsLastExactlyWhenNothingFollows`).
* The result cache writes an entry before it indexes it. If the new file cannot be
  inspected and the index was already built, the disk can hold bytes the index does
  not know (`ResultCache.MissedEntryExceedsTotal`). `Store` states exactly when the
  bytes on disk then exceed `total`, and `UseSequentially` bounds by how much over
  any sequence of operations that goes on after such failures.
* Strict mode shows only strictly valid translations exactly if the validator names
  a non-blank violation whenever it rejects a text
  (`StrictRepair.ShownIsStrictlyValidExactlyWhen`).
* An import of a source without rows succeeds, and the loader then refuses the
  artifact; it also refuses words that the normalizer would change again
  (`HskImport.ImportedLoadsExactlyWhenRowsAreStable`).

## Model

| member | source | states |
|---|---|---|
| CudaAdmission.SchedulerState.NextWaiterSequence | crates/browser-companion/src/cuda_scheduler.rs:87-98 | the loop finds the lane's greatest waiter: Visible before Offscreen, then smallest sequence |
| CudaAdmission.CudaScheduler.Enter | crates/browser-companion/src/cuda_scheduler.rs:127-156 | the first lock-held section leaves exactly the lanes and outcome of `EnterLane`: admitted only with the lane idle and none of it queued, refused when full, otherwise queued at the back with the next number |
| CudaAdmission.CudaScheduler.Poll | crates/browser-companion/src/cuda_scheduler.rs:174-196 | a poll drops cancelled waiters and grants only the lane's next waiter while the lane is idle, with exactly the new lanes of `PollLane` |
| CudaAdmission.CudaScheduler.Cancel | crates/browser-companion/src/cuda_scheduler.rs:205-214 | a dropped registration takes out its own waiter and nothing else |
| CudaAdmission.CudaScheduler.Release | crates/browser-companion/src/cuda_scheduler.rs:216-227 | a dropped permit makes its lane idle and cancelled waiters are thrown out; the other lane, the counter and the live waiters stay |
| CudaRuns.EveryReachableStateIsExclusive | crates/browser-companion/src/cuda_scheduler.rs:117-227 | in every reachable state a lane is active exactly when one live permit for it exists, never two, and the queue is within capacity |
| CudaRuns.ExclusiveStep | crates/browser-companion/src/cuda_scheduler.rs:117-227 | every step keeps that exclusivity |
| CudaFairness.EveryReachableStateIsOwned | crates/browser-companion/src/cuda_scheduler.rs:67-105 | in every state reached with at most 2^64 arrivals sequences are distinct, every queued waiter belongs to one live armed call, and an armed call missing from the queue was cancelled |
| CudaFairness.OwnedStep | crates/browser-companion/src/cuda_scheduler.rs:117-227 | every step keeps that ownership |
| CudaFairness.NextWaiterIsGreatest | crates/browser-companion/src/cuda_scheduler.rs:87-98 | a lane has a next waiter exactly when one is queued, and no waiter of the lane is greater than it |
| CudaFairness.IdleLaneHasExactlyOneNextPermit | crates/browser-companion/src/cuda_scheduler.rs:161-196 | an idle lane with an uncancelled waiter has exactly one live waiting call whose next poll is granted, whoever has been dropped before |
| CudaFairness.AdmissionsRespectTheQueue | crates/browser-companion/src/cuda_scheduler.rs:127-196 | while an uncancelled waiter is queued every admission to its lane is a grant to itself or to a queued waiter that outranks it: no barging |
| CudaFairness.OnlyBetterTicketsPass | crates/browser-companion/src/cuda_scheduler.rs:87-98 | over a whole run, as long as a call waits uncancelled only calls that outrank it are admitted to its lane |
| CudaFairness.NoOvertaking | crates/browser-companion/src/cuda_scheduler.rs:87-98 | of two waiting calls the outranked one is not admitted while the other still waits: enqueue order within a priority, Visible before Offscreen |
| CudaFairness.AdmissionsOfCountsPermits | crates/browser-companion/src/cuda_scheduler.rs:80-85 | an idle lane becomes active in a step exactly when some call is admitted to it |
| CudaFairness.AdmissionsUseUpThoseAhead | crates/browser-companion/src/cuda_scheduler.rs:174-196 | the admissions a Visible waiter sees in its lane are at most the waiters that were ahead of it |
| CudaFairness.VisibleWaitIsBounded | crates/browser-companion/src/cuda_scheduler.rs:142-196 | a queued Visible waiter sees at most capacity - 1 admissions in its lane |
| CudaWrap.SelectionIsFirstComeFirstServed | crates/browser-companion/src/cuda_scheduler.rs:87-98 | the longest-queued waiter of highest priority is selected exactly when no later one of its priority has a smaller number |
| CudaWrap.OneArrivalTooMany | crates/browser-companion/src/cuda_scheduler.rs:147-155 | a run with 2^64 + 1 arrivals in which the later of two equal requests is admitted first |
| CudaEntry.EnterExactly | crates/browser-companion/src/cuda_scheduler.rs:127-156 | told from the calls alone: a request is admitted at once exactly when no call holds its lane or waits for it uncancelled, refused exactly when its lane is taken and at least capacity uncancelled calls wait, and queued last otherwise; no other call changes |
| CudaEntry.OtherLanePlaysNoPart | crates/browser-companion/src/cuda_scheduler.rs:130-141 | two states with the same calls for a lane admit the same requests to it, whatever the other lane holds or queues |
| CudaEntry.PollExactly | crates/browser-companion/src/cuda_scheduler.rs:174-196 | a waiting call that polls leaves exactly when it was cancelled, is granted its lane exactly when no call holds it and it outranks every uncancelled one waiting for it, and waits on otherwise |
| CudaEntry.QueueIsTheWaitingCalls | crates/browser-companion/src/cuda_scheduler.rs:67-72 | the live queue is the uncancelled waiting calls: as many, one for each, with its ticket |
| EditDistance.NoCheaperRewrite | crates/browser-companion/src/pipeline_adapter.rs:5489-5508 | every sequence of insertions, deletions and substitutions that rewrites one string into the other costs at least the distance |
| EditDistance.CheapestRewrite | crates/browser-companion/src/pipeline_adapter.rs:5489-5508 | and some sequence costs exactly the distance |
| EditDistance.LengthDifferenceBound | crates/browser-companion/src/pipeline_adapter.rs:5490-5492 | the distance is at least the difference in length, so the first early exit is right |
| EditDistance.ExceedingRowIsFinal | crates/browser-companion/src/pipeline_adapter.rs:5502-5504 | a row whose every cell exceeds the limit stays above it in all later rows, so the second early exit is right |
| EditDistance.AsciiEditDistanceAtMost | crates/browser-companion/src/pipeline_adapter.rs:5489-5508 | the row-by-row method with both exits answers whether the recursive Levenshtein distance is within the limit, for all strings and limits |
| EditDistance.OcrTextsAreEquivalent | crates/browser-companion/src/pipeline_adapter.rs:5469-5487 | the answer is the declarative comparison of the two compacted texts |
| EditDistance.WithinLimitMeansRewritable | crates/browser-companion/src/pipeline_adapter.rs:5489-5508 | within the limit exactly when an edit sequence of at most that cost exists |
| EditDistance.CompactOfOne | crates/browser-companion/src/pipeline_adapter.rs:5470-5479 | letters are kept in lower case and digits as they are; everything else is dropped |
| EditDistance.AllowanceSteps | crates/browser-companion/src/pipeline_adapter.rs:5480-5486 | one edit is allowed below ten characters, two below fifteen, three from there on |
| EditDistance.SameRecognizedTextSymmetric | crates/browser-companion/src/pipeline_adapter.rs:5469-5487 | being recognized as the same text is symmetric |
| NeighborContext.DocumentPieceNeighborContext | crates/browser-companion/src/pipeline_adapter.rs:2470-2530 | nothing exactly when the pieces do not fill consecutive plan positions; otherwise the spans right before and right after the window, as far as budget and cap allow |
| NeighborContext.GrowOutwards | crates/browser-companion/src/pipeline_adapter.rs:2498-2527 | the alternating loop takes contiguous runs within 512 tokens and the utterance cap, and each side ends only at the document's end, the cap, or a span that did not fit when tried |
| NeighborContext.GrownIsUnique | crates/browser-companion/src/pipeline_adapter.rs:2498-2527 | those conditions determine the sizes of both sides |
| NeighborContext.PositionsShowTheWindow | crates/browser-companion/src/pipeline_adapter.rs:2481-2497 | the collected positions are consecutive exactly when the pieces fill a window, and then that window is the only one |
| DocumentBatches.SelectBatch | crates/browser-companion/src/pipeline_adapter.rs:2649-2676 | the batch is the longest run of the sorted queue whose pieces may join: adjacent, at most 6, at most 1,800 tokens unless single, visible and isolated as asked |
| DocumentBatches.TakeNextDocumentBatch | crates/browser-companion/src/pipeline_adapter.rs:2630-2688 | the batch starts at the priority block's first piece (or the front), is never empty, and the rest is the queue without exactly that run |
| DocumentPlan.PieceIdsAreDistinct | crates/browser-companion/src/pipeline_adapter.rs:2532-2628 | piece ids built from item id and order differ for different pieces within and across blocks |
| DocumentPlan.FirstQueuedIsNext | crates/browser-companion/src/pipeline_adapter.rs:2642-2648 | the first queued piece of a block is its next unsent one |
| DocumentPlan.SendNext | crates/browser-companion/src/pipeline_adapter.rs:601-677 | sending it keeps the remaining pieces of every block a suffix |
| DocumentPlan.QueueNeighborsAreAdjacent | crates/browser-companion/src/pipeline_adapter.rs:2658-2666 | pieces that follow each other by block and order stand next to each other in the context plan |
| DocumentPlan.BatchFillsWindow | crates/browser-companion/src/pipeline_adapter.rs:2481-2497 | every batch taken from such a queue fills consecutive plan positions, so the context builder accepts it |
| DocumentPlan.ContextSpellsTheBlocks | crates/browser-companion/src/pipeline_adapter.rs:531-555 | the context plan spells every fragment with its separator and tokens, or the whole of a block that could not be split |
| DocumentRun.DocumentAccumulator.Record | crates/browser-companion/src/pipeline_adapter.rs:3336-3340 | a piece is stored under its order unless the block was rejected before |
| DocumentRun.DocumentAccumulator.Reject | crates/browser-companion/src/pipeline_adapter.rs:3342-3346 | the first reason for rejecting a block is kept |
| DocumentRun.Deliver | crates/browser-companion/src/pipeline_adapter.rs:657-666 | after the outcome of the next piece was delivered the accumulator describes exactly the pieces sent: each as it was translated, or a reason a piece gave for rejecting the block |
| DocumentRun.JoinPieces | crates/browser-companion/src/pipeline_adapter.rs:3414-3425 | base and displayed text are the in-order concatenation of pieces and separators |
| DocumentRun.JoinIsConcatenation | crates/browser-companion/src/pipeline_adapter.rs:3414-3425 | the base and displayed text of two runs of parts are those of the first followed by those of the second |
| DocumentRun.RejectionStands | crates/browser-companion/src/pipeline_adapter.rs:3342-3346 | the reason a block is rejected by is that of its first failed piece, however many are sent after it |
| DocumentRun.PublishDocumentAccumulator | crates/browser-companion/src/pipeline_adapter.rs:3382-3503 | what is sent is the block's one right terminal update, and the accumulator counts as published |
| DocumentRun.PublishReadyDocumentBlocks | crates/browser-companion/src/pipeline_adapter.rs:3354-3380 | one pass ends exactly the blocks that are due, by ascending index, up to a failure of the sink; it leaves none complete and unpublished and never ends a block twice |
| DocumentRun.WaitForActiveDocument | crates/browser-companion/src/pipeline_adapter.rs:2615-2628 | waiting ends at the first active focus or the first cancellation, and passes only inactive readings; without either it is followed up to a given reading |
| DocumentRun.BatchTaken | crates/browser-companion/src/pipeline_adapter.rs:2677-2681 | taking a batch loses and duplicates no piece |
| DocumentRun.HeadSent | crates/browser-companion/src/pipeline_adapter.rs:637-677 | sending the head of a batch keeps the suffix invariant of what is left of batch and queue together, so a put-back is safe at any point |
| DocumentLoop.PlanDocument | crates/browser-companion/src/pipeline_adapter.rs:530-569 | the queue holds every piece of every targeted block once, and the context plan every block |
| DocumentLoop.OpenAccumulators | crates/browser-companion/src/pipeline_adapter.rs:570-586 | exactly the untargeted blocks start out published, and unsplittable ones rejected |
| DocumentLoop.SendPiece | crates/browser-companion/src/pipeline_adapter.rs:647-676 | a planned piece is never refused its context; its outcome reaches its block's accumulator and whatever became complete is published |
| DocumentLoop.SendBatch | crates/browser-companion/src/pipeline_adapter.rs:637-677 | pieces are sent in order, each under the focus the batch was taken by, until all are sent, one translation or the sink fails, or the reading before a piece shows that focus has moved; the queue, the accounts and the blocks ended are exactly those after the pieces sent |
| DocumentLoop.Run | crates/browser-companion/src/pipeline_adapter.rs:530-704 | watched for any number of focus readings and whatever the focus does: every update sent is a right terminal of a targeted block, no block gets two, and a finished run has one for each; its record of dispatches is right at every step (`Scheduled`) and fixes the order of the log (`EndsInOrder`); if focus settles or the job is cancelled for good, the run ends |
| DocumentLoop.TakeBatch | crates/browser-companion/src/pipeline_adapter.rs:603-611 | if the focus shows blocks with work left, the batch starts with the next piece of the first of them, holds only shown blocks, and only that one on the first dispatch; else it starts with the first unsent piece; it ends only where the piece behind could not join |
| DocumentLoop.DispatchBatch | crates/browser-companion/src/pipeline_adapter.rs:602-677 | a dispatch is taken by the first active focus since the last reading, keeps the record right, and sends nothing only if that focus had moved at once |
| DocumentLoop.StartRun | crates/browser-companion/src/pipeline_adapter.rs:530-597 | before the first dispatch just the blocks complete from the start are ended |
| DocumentLoop.FinalSweep | crates/browser-companion/src/pipeline_adapter.rs:690-704 | with the queue empty the last sweep has nothing to reject and nothing left to end |
| DocumentSchedule.TakenIsRight | crates/browser-companion/src/pipeline_adapter.rs:2630-2688 | what the batch selection takes from the sorted queue is right by the focus it was given |
| DocumentSchedule.PassAfterPiece | crates/browser-companion/src/pipeline_adapter.rs:657-676 | after a piece, one pass ends its block if that piece completes it, and no other |
| DocumentSchedule.EverythingSent | crates/browser-companion/src/pipeline_adapter.rs:601-688 | with nothing left to send every targeted block's pieces have been sent, in order and once |
| DocumentLoop.NothingLeftMeansComplete | crates/browser-companion/src/pipeline_adapter.rs:690-704 | with the queue empty every accumulator has been published |
| DocumentLoop.PieceHasContext | crates/browser-companion/src/pipeline_adapter.rs:2481-2497 | a single planned piece always has a context window |
| DocumentLoop.ReadyExactlyWhenAllPiecesPass | crates/browser-companion/src/pipeline_adapter.rs:3411-3503 | a block is ready exactly when all its pieces were translated and the joined text passes; its text is their in-order concatenation whatever the order of completion |
| TranslationQueue.CutsAreMinimalAndBalanced | crates/browser-companion/src/pipeline_adapter.rs:7159-7171 | repeated cutting splits N into ceil(N/6) batches of at most 6, each of at least 3 when N is at least 3 |
| TranslationQueue.NoFewerCuts | crates/browser-companion/src/pipeline_adapter.rs:7159-7171 | no split into batches of at most 6 has fewer parts |
| TranslationQueue.HeadIsProper | crates/browser-companion/src/pipeline_adapter.rs:7106-7157 | the dispatched head has 1 to 6 regions of one visibility by ascending reading order; a region left waiting is not visible before them, nor alike and earlier on the page |
| TranslationQueue.FlushTranslationQueue | crates/browser-companion/src/pipeline_adapter.rs:1440-1535 | at every dispatch the batch and what waits behind it are exactly the regions not dispatched before, marked as the browser showed them at that moment; the batch is proper and of the size the latency phase and force ask for; the flush stops on the first cancellation or failure, and when done leaves nothing if forced, else fewer than three regions, none of them shown at that moment |
| TranslationQueue.VisibleGoesFirst | crates/browser-companion/src/pipeline_adapter.rs:7106-7131 | if a region left waiting is shown by the browser at a dispatch, every region of that batch is |
| TranslationQueue.EarlierOnThePageGoesFirst | crates/browser-companion/src/pipeline_adapter.rs:5893-5901 | of two regions the browser shows alike at a dispatch, the one sent has the smaller reading order, or the same and was queued no later, than the one left waiting |
| TranslationQueue.BatchLenIsLargest | crates/browser-companion/src/pipeline_adapter.rs:7159-7171 | the length cut off is the largest up to 6 that leaves none or at least 3 |
| TranslationQueue.BatchesDoNotMix | crates/browser-companion/src/pipeline_adapter.rs:1440-1535 | every batch has 1 to 6 regions in reading order, all shown or all not shown by the browser at its dispatch |
| TranslationQueue.HeadHasRightSize | crates/browser-companion/src/pipeline_adapter.rs:7139-7171 | the head is one region while the first visible one is awaited, else the even cut of all visible regions, or of all regions if none is visible and there are three or force |
| StrictRepair.TranslationState.ApplyRepair | crates/browser-companion/src/pipeline_adapter.rs:6395-6452 | a repair is accepted exactly when it is complete and its report names nothing to repair; accepted, it replaces what is displayed and clears the problems; otherwise the state is rejected |
| StrictRepair.TranslationState.Finish | crates/browser-companion/src/pipeline_adapter.rs:6454-6490 | only a publishable state yields a translation, and it is the displayed one |
| StrictRepair.RewriteUnit | crates/browser-companion/src/pipeline_adapter.rs:3168-3298 | the rewrite of one unit through its states gives exactly what `Rewrite` says of primary and repair outcome, and something is shown exactly when the primary is good or left a problem that a good repair mends |
| StrictRepair.GoodPrimaryIsShown | crates/browser-companion/src/pipeline_adapter.rs:3168-3298 | a whole primary that names nothing above the level, with a normal form that is not blank and anchors every name, is shown as it is with its report, as NotNeeded |
| StrictRepair.GoodRepairIsShown | crates/browser-companion/src/pipeline_adapter.rs:3224-3298 | if the primary left a problem and the repair is such an outcome, its normal form is shown with its report, as Accepted, over the trimmed primary if that was whole and else over the trimmed repair |
| StrictRepair.ShownExactlyWhenGood | crates/browser-companion/src/pipeline_adapter.rs:3168-3298 | a unit is shown exactly when its primary is good, or left a problem and its repair is good |
| StrictRepair.ShownIsSafe | crates/browser-companion/src/pipeline_adapter.rs:3168-3298 | whatever is shown displays its own report's text, is NotNeeded or Accepted, has every protected name anchored, and leaves nothing nameable to repair |
| StrictRepair.RejectedRepairIsNeverShown | crates/browser-companion/src/pipeline_adapter.rs:6421-6490 | a repair that fails is never shown, not even for an unusable primary |
| StrictRepair.ShownIsStrictlyValidExactlyWhen | crates/browser-companion/src/pipeline_adapter.rs:6508-6532 | every shown translation is strictly valid exactly if the validator names a non-blank violation whenever it rejects a displayable text |
| StrictRepair.StrictSession.TranslateUnit | crates/browser-companion/src/pipeline_adapter.rs:2951-3298 | through the byte-bounded cache: it holds only safe translations, only what is shown enters it, a cached value is shown as it is, and what is shown is kept if it fits |
| LruCache.ByteBoundedCache.Get | crates/browser-companion/src/decoded_cache.rs:39-44 | a hit returns the stored value and stamps it, a miss changes no entry; while the clock can still advance the entry becomes the newest of the recency list |
| LruCache.ByteBoundedCache.Insert | crates/browser-companion/src/decoded_cache.rs:46-71 | in every state: the retained bytes stay within the limit, nothing goes if all fits, what goes was used no later than what stays, and the inserted entry stays unless the clock had reached its end; while the counters fit, an old entry goes exactly when it, all entries used since and the new one exceed the limit, and the recency list follows |
| LruCache.ByteBoundedCache.EvictToLimit | crates/browser-companion/src/pipeline_adapter.rs:6253-6265 | the search for the least stamp ends within the limit, keeps an entry that is newer than all others and fits, and drops from the old end of the recency list |
| LruCache.DropsShortestOldestPrefix | crates/browser-companion/src/decoded_cache.rs:77-91 | what is dropped is the shortest oldest prefix that restores the limit |
| LruCache.InsertedIs | crates/browser-companion/src/decoded_cache.rs:46-91 | the list after an insertion is the old one without the place of the key, if it had one, with the new entry last and the shortest sufficient prefix dropped |
| LruCache.GoneExactlyWhen | crates/browser-companion/src/decoded_cache.rs:77-91 | after an eviction an entry is gone exactly when it and everything used since exceed the limit |
| LruCache.InsertedSurvives | crates/browser-companion/src/decoded_cache.rs:46-71 | the entry just inserted is never its own victim |
| LruCache.AgreeOnKey | crates/browser-companion/src/pipeline_adapter.rs:6228-6252 | map with stamps and recency list give the same answer for a key, and stay in agreement when it is taken out |
| LruCache.BytesAreTotal | crates/browser-companion/src/decoded_cache.rs:46-71 | the sizes summed over the map are those summed over the recency list |
| LruCache.SaturatedStampsLeaveVictimOpen | crates/browser-companion/src/decoded_cache.rs:55-90 | with the clock at the end of its range an old and a just inserted entry can both be the oldest |
| ResultCache.CacheIndex.Insert | crates/browser-companion/src/result_cache.rs:283-290 | an insert replaces the path's old record and keeps the two maps one-to-one; the total stays their sum exactly when the sum fits its counter, and never exceeds it |
| ResultCache.CacheIndex.PopFirst | crates/browser-companion/src/result_cache.rs:662-663 | the oldest key is found and taken out of the ordered map, and nothing else changes yet |
| ResultCache.ResultCache.BuildIndex | crates/browser-companion/src/result_cache.rs:632-652 | the first index lists exactly the files on disk, with their sum as total while that fits |
| ResultCache.ResultCache.EvictToLimit | crates/browser-companion/src/result_cache.rs:662-680 | whatever the index misses: eviction removes oldest first, no more than needed, each path with its file and nothing else, never the protected entry, and leaves the index consistent on every early error |
| ResultCache.ResultCache.PruneToLimit | crates/browser-companion/src/result_cache.rs:627-682 | from any state: exactly when listing or inspecting fails, what the index then holds, that a successful prune ends within the limit having evicted oldest first and no more than needed, and that the protected entry stays |
| ResultCache.ResultCache.Store | crates/browser-companion/src/result_cache.rs:593-621 | from any state, also after earlier failures: the new file is on disk; exactly which files the index misses afterwards; the total stays the sum; and after a failed inspection disk bytes are within the total exactly if they would fit before the write |
| ResultCache.ResultCache.Invalidate | crates/browser-companion/src/result_cache.rs:481-505 | a deletion behind the index's back takes the file out of those missed, and a missing file is no error |
| ResultCache.ResultCache.DiskAgainstTotal | crates/browser-companion/src/result_cache.rs:481-682 | disk bytes exceed `total` by no more than the files the index misses, not at all if it misses none, and exactly when unaccounted bytes outweigh stale ones |
| ResultCache.ResultCache.UseSequentially | crates/browser-companion/src/result_cache.rs:481-682 | over any sequence of stores and invalidations with any failures: the index misses only entries whose last store could not be inspected, and disk bytes stay within `total` and those files |
| ResultCache.BooksBalance | crates/browser-companion/src/result_cache.rs:276-291 | disk bytes plus stale bytes are indexed bytes plus unaccounted bytes, for any index and disk |
| ResultCache.DiskWithinIndexAndMissed | crates/browser-companion/src/result_cache.rs:276-291 | disk bytes are at most the indexed sum and the sizes of the missed files |
| ResultCache.MissedEntryExceedsTotal | crates/browser-companion/src/result_cache.rs:653-661 | two stores after which the disk holds 12 bytes and `total` is 5 |
| ChapterContext.ChapterContextStore.Register | crates/browser-companion/src/chapter_session.rs:34-60 | registration yields exactly `RegisterAll` for its chapter and leaves the others |
| ChapterContext.ChapterContextStore.PublishText | crates/browser-companion/src/chapter_session.rs:62-77 | a publication changes one unit, and only if position and item id are registered |
| ChapterContext.ChapterContextStore.RemoveSource | crates/browser-companion/src/chapter_session.rs:160-170 | exactly the units of the source go |
| ChapterContext.CompletionOrderDoesNotMatter | crates/browser-companion/src/chapter_session.rs:62-77 | the same publications to distinct positions in any order give the same store |
| ChapterContext.StoreIgnoresCompletionOrder | crates/browser-companion/src/chapter_session.rs:62-77 | the same for the whole store: publications to distinct places of any chapters, in any order |
| ChapterContext.PublishedAt | crates/browser-companion/src/chapter_session.rs:62-77 | each unit ends as its one matching publication says, all others as they were |
| ChapterContext.ReregistrationChangesNothing | crates/browser-companion/src/chapter_session.rs:34-60 | replaying registrations with the same ids and texts changes nothing, published text included |
| ChapterContext.TranslationKeptExactlyWhenSame | crates/browser-companion/src/chapter_session.rs:41-50 | a published text survives the registration of a bare unit exactly when item and source text are the same |
| ChapterContext.OtherwiseStoredAsIs | crates/browser-companion/src/chapter_session.rs:51-57 | a unit is stored as it is where nothing was registered, or another item or text |
| ChapterContext.PrecedingIsLastSixInOrder | crates/browser-companion/src/chapter_session.rs:79-98 | the backward walk gives the last six non-blank published units before the position, in source order |
| ChapterContext.SpeaksBefore | crates/browser-companion/src/chapter_session.rs:79-95 | what can be context is exactly the earlier units whose source and published text are not blank, both trimmed |
| ChapterContext.SnapshotIsNearestOnBothSides | crates/browser-companion/src/chapter_session.rs:123-158 | the snapshot is the six nearest units on each side of the source in the flattened canonical order |
| ChapterContext.SnapshotExcludesTheSource | crates/browser-companion/src/chapter_session.rs:123-158 | in an order without repeats no unit of the source itself is in it |
| ChapterSession.Session.RegisterSurface | crates/browser-companion/src/chapter_session.rs:239-249 | new pixels at a page drop its analysis; every analysis keeps the sha of the registered surface |
| ChapterSession.Session.RecordAnalysis | crates/browser-companion/src/chapter_session.rs:251-283 | regions merge with those of the same pixels only, the list is canonical, `complete` never goes back for the same pixels |
| ChapterSession.MergeIsOverride | crates/browser-companion/src/chapter_session.rs:268-281 | merging gives the one (order, id)-sorted list with unique ids whose content is the old one overridden by id |
| ChapterSession.MergeIsIdempotent | crates/browser-companion/src/chapter_session.rs:268-281 | merging the same batch again changes nothing |
| ChapterSession.DisjointBatchesCommute | crates/browser-companion/src/chapter_session.rs:268-281 | id-disjoint batches may arrive in either order |
| ChapterSession.CanonicalIsDetermined | crates/browser-companion/src/chapter_session.rs:276-281 | a canonical list is determined by its content by id |
| DocumentHash.FeedHasher | crates/browser-companion/src/contracts.rs:882-912 | the loop feeds the concatenated records of the blocks |
| DocumentHash.DecodeCanonical | crates/browser-companion/src/contracts.rs:882-912 | the bytes fed decode back to the block list when ids hold no unit separator and texts no record separator |
| DocumentHash.CanonicalInjective | crates/browser-companion/src/contracts.rs:882-912 | such snapshots that feed the same bytes are the same |
| DocumentHash.SeparatorInItemIdCollides | crates/browser-companion/src/contracts.rs:887-890 | any item id with a unit separator has a different block with the same bytes |
| DocumentHash.SeparatorInParentIdCollides | crates/browser-companion/src/contracts.rs:887-890 | and so has any parent id with one |
| DocumentHash.SeparatorInTextCollides | crates/browser-companion/src/contracts.rs:887-908 | a text that spells the rest of another record feeds the bytes of two blocks |
| DocumentRequest.ValidateBlocks | crates/browser-companion/src/contracts.rs:789-824 | the one-pass loop with its id set and parent counters accepts exactly the lists that meet the declarative rules, and reports the first block at fault and its first fault |
| DocumentRequest.SiblingsAreNumberedInOrder | crates/browser-companion/src/contracts.rs:800-809 | in an accepted list the blocks of a parent are numbered 0, 1, 2, ... in document order without gap or repeat |
| DocumentRequest.PositionsIncrease | crates/browser-companion/src/contracts.rs:816-823 | any two blocks of an accepted list are strictly ordered by source index and item order |
| DocumentRequest.AcceptedSnapshotsCanCollide | crates/browser-companion/src/contracts.rs:738-824 | two different accepted lists with the same hash input |
| JobUpdates.Validate | crates/browser-companion/src/contracts.rs:1713-1749 | accepts exactly the batches without fault at any update, and otherwise reports the first update at fault |
| JobUpdates.ValidateAfter | crates/browser-companion/src/contracts.rs:1751-1769 | accepts exactly the answers to a poll at the given sequence |
| JobUpdates.AnswersExactly | crates/browser-companion/src/contracts.rs:1713-1769 | below the u64 maximum: accepted exactly when terminals come last, numbers go on from the poll, and the acknowledgement counts them |
| JobUpdates.ChainIsExactlyALog | crates/browser-companion/src/contracts.rs:1751-1769 | a chain of batches is accepted without running past the maximum exactly when it cuts one gapless log into proper batches, each acknowledging what was sent so far |
| JobUpdates.LogIsGaplessExactlyBelowTheEnd | crates/browser-companion/src/contracts.rs:1751-1769 | a chain polled from 0 has sequence numbers exactly 1 to n if and only if no poll at the u64 maximum was sent updates; a terminal update is always last in its batch |
| JobUpdates.AcknowledgementsCountTheLog | crates/browser-companion/src/contracts.rs:1739-1746 | the last acknowledgement is the number of updates received |
| JobUpdates.PastTheEndRepeats | crates/browser-companion/src/contracts.rs:1754-1756 | a batch sent after the u64 maximum was acknowledged is that one sequence again |
| JobUpdates.LargestSequenceCanRepeat | crates/browser-companion/src/contracts.rs:1754-1756 | a chain in which the largest sequence appears twice |
| JobUpdates.UpdatesMayFollowATerminalBatch | crates/browser-companion/src/contracts.rs:1731-1736 | an accepted chain that goes on after a terminal update |
| JobUpdates.TerminalIsLastExactlyWhenNothingFollows | crates/browser-companion/src/contracts.rs:1731-1769 | in an accepted chain a terminal update is the last of the whole log if and only if no batch after one that ends in a terminal update brings any |
| CachedDocument.Validate | crates/browser-companion/src/result_cache.rs:61-76 | accepts exactly the jobs with valid payloads and distinct terminal ids across both lists |
| CachedDocument.ValidateAgainst | crates/browser-companion/src/result_cache.rs:78-127 | the map-based check accepts exactly when counts agree and every source block has a terminal with its identity fields and text |
| CachedDocument.AcceptedExactlyWhenOneToOne | crates/browser-companion/src/result_cache.rs:78-127 | for distinct request ids: accepted exactly when terminals and source blocks agree one-to-one in identity and text |
| CachedDocument.NoExtraTerminal | crates/browser-companion/src/result_cache.rs:84-98 | equal counts, distinct ids and a lookup per source exclude extra terminals |
| CachedDocument.AcceptedTellsEverySource | crates/browser-companion/src/result_cache.rs:95-125 | for each source block of an accepted job some terminal has its item id, parent, sub order, source index, item order, kind and text |
| CachedDocument.AcceptedIsOneToOneExactlyForDistinctIds | crates/browser-companion/src/result_cache.rs:78-127 | an accepted job is one-to-one with the blocks if and only if the request's ids are distinct |
| CachedDocument.AcceptedForOneSnapshotOnly | crates/browser-companion/src/result_cache.rs:424-442 | a job accepted for two accepted requests: their block lists are equal, whatever their hashes |
| HskDataset.FromArtifact | crates/hsk-control/src/dataset.rs:33-112 | loads exactly the artifacts with right counts, complete normalized entries and no duplicate, and builds the sorted entries, the word index and the six cumulative sets |
| HskDataset.AllowedExactlyUpToItsLevel | crates/hsk-control/src/dataset.rs:121-135 | a word is in a level's set exactly when its entry's level is at most that level |
| HskDataset.LevelSetsAreNested | crates/hsk-control/src/dataset.rs:85-88 | a lower level's set is part of a higher level's |
| HskDataset.LevelSetSizeIsAudited | crates/hsk-control/src/dataset.rs:85-95 | the size of a level's set is the sum of the audited counts up to it |
| HskDataset.SortingKeepsLoadable | crates/hsk-control/src/dataset.rs:47-52 | sorting the entries first changes none of the checks |
| HskDataset.EntriesAreInOrder | crates/hsk-control/src/dataset.rs:47-52 | the loaded entries are by level, then word, then pinyin |
| HskImport.SplitHasNoBlanks | crates/hsk-control/src/import.rs:302-312 | a split field has no blank item |
| HskImport.SplitListExactly | crates/hsk-control/src/import.rs:302-312 | a split field holds exactly the trimmed pieces that are not blank |
| HskImport.PiecesBetweenBars | crates/hsk-control/src/import.rs:302-305 | the pieces hold no bar and spell the value with bars between them |
| HskImport.EntryOfRowIsComplete | crates/hsk-control/src/import.rs:57-114 | an accepted row gives an entry the loader calls complete, unless its normalized word is blank |
| HskImport.MergeRows | crates/hsk-control/src/import.rs:55-123 | for every word the first row of least level is kept, and a bad row refuses the import |
| HskImport.GenerateArtifact | crates/hsk-control/src/import.rs:37-144 | the artifact is ordered by level and word, holds exactly the kept entries and their counts, and nothing is returned only when no artifact meets the metadata |
| HskImport.ImportIsDetermined | crates/hsk-control/src/import.rs:125-130 | the artifact's entries are determined by the rows |
| HskImport.LevelCounts | crates/hsk-control/src/import.rs:230-236 | the counting loop gives the number of entries at each level |
| HskImport.VerifyExpectedCounts | crates/hsk-control/src/import.rs:210-228 | accepts exactly when the expected counts that are given agree |
| HskImport.ImportedLoadsExactlyWhenRowsAreStable | crates/hsk-control/src/import.rs:37-144 | an imported artifact always passes the loader's count, level-count and duplicate checks, and loads if and only if the source has rows and the normal form of each row's word is not blank and normalizes to itself |
| HskImport.EmptySourceImportsButDoesNotLoad | crates/hsk-control/src/import.rs:125-144 | an import of no rows succeeds when no entries are expected, and its artifact is refused |
| HskImport.UnstableRowImportsButDoesNotLoad | crates/hsk-control/src/import.rs:60-144 | so does and is the import of any one row whose word the normalizer would change again |
| HskImport.AllowedExactlyWhenARowSays | crates/hsk-control/src/import.rs:115-123 | after import and load a word is allowed at a level exactly when some source row that normalizes to it gives that level or a lower one |

## Left out

- Model inference, OCR, inpainting, tokenization and sentence splitting: arbitrary functions and arbitrary outcomes stand for them.
- Tokio, locks, wakers and wall-clock time: a lock-held section is one step, a poll a step that may happen at any time; the cleanup timeout and its detached task are not modelled.
- Geometry, style, layout and masks in `f32`: heuristics without a crisp specification; whether a text fits its layout is a parameter.
- SHA-256, JSON, base64 and PNG: of the document hash only the bytes fed are modelled, of cache keys only that they are values; the serialized size limit of a request is not modelled.
- UTF-8: strings are sequences of characters; byte lengths appear where a limit counts bytes, and the order of strings by code point is the order of their bytes.
- Real file errors: the disk is a map from path to size and time, and listing, inspecting or removing may fail as a parameter says.
- following_source and the look-ahead context of a translation flush: the forward mirror of `preceding`, with nothing harder in it.
- The contents of repair requests (forbidden words, guidance texts) beyond the violations they name, and `level_coverage`.
- The learning mode: the strict and the lenient repair rule are both modelled, but only strict mode has whole-path results.
- The rest of a document request (settings, focus, retry ids, fingerprint, lengths of other fields) and of cached payloads: single-branch checks, represented by one flag each.
- The artifact header, licence and source audit, CSV reading and column names: rows arrive with parsed level and rank.
- Dictionary import and pinyin rules: text rules outside the word-level logic.
- LruCache.ByteBoundedCache.Insert: the recency list is promised while the clock is below the u64 maximum and the bytes fit 64 bits; beyond that only what its unconditional clauses say.
- ResultCache.ResultCache.UseSequentially: the bound on disk bytes is promised while all bytes ever stored add up within 64 bits, as the source's saturating additions lose the rest after that; which files are missed is promised always.
- DocumentLoop.Run: that the run ends is promised when focus settles or the job stays cancelled; without that the put-backs need not end, and what was sent so far is promised all the same.
- CudaFairness.NoOvertaking: stated for runs with at most 2^64 arrivals; `CudaWrap.OneArrivalTooMany` shows the bound is sharp.
- Unstable sorts are modelled as stable ones; where it matters the keys are proved distinct or the result is proved independent of ties.
- `ui/`, the extension, the server, setup and the launcher: not part of this model.
