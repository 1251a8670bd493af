# Governed memory: model and proofs

The repository keeps private memories and extracted passages in PostgreSQL, embeds them in the background,
answers lexical and hybrid searches within byte and token budgets, and admits office documents. This project
models the parts whose correctness does not follow from reading one function, and proves what they promise.

| modules | what they model |
|---|---|
| `EmbeddingTables`, `EmbeddingSteps`, `EmbeddingInvariant`, `EmbeddingRuns`, `EmbeddingHistory`, `EmbeddingProgress`, `EmbeddingOutcomes`, `EmbeddingWitness` | The embedding job protocol as a step system: jobs, representations, and everything writers may change underneath them. Time is read once per step, and nothing rests on its order. |
| `EmbeddingStore` | The same SQL functions as methods of a store that update its tables row by row, proved against the steps. |
| `SemanticReads`, `Fusion`, `FusionLanes` | Exact semantic search, readiness, and reciprocal-rank fusion of two lanes. |
| `Bytes`, `Evidence`, `EnvelopeReader`, `Packing`, `PackingCauses` | Excerpts cut from UTF-8, the counted evidence envelope and a reader of it, and the packing loop over a byte budget and a token allowance. The tokenizer is a parameter. |
| `JsonScan`, `JsonNesting`, `JsonBytes` | The one-pass JSON structure check, against JSON texts and against arbitrary bytes. |
| `ZipRecords`, `ZipLayout`, `ZipArchive`, `ZipExactness`, `ZipErrors` | The classic ZIP record check, against archives written out byte by byte, and what its errors mean. |
| `PartNames`, `Worklist`, `Package` | Relationship names, target resolution, and the reachability check on a package. |
| `Placing`, `SourceBlocks`, `OrderingRules`, `OrderingLanes`, `Orderings`, `HanOrderings`, `OrderingReference`, `OrderingWindow` | The five evidence orderings, computed and declared. Hash maps are walked in an arbitrary order. |
| `Framing` | Length-prefixed framing of a request before it is hashed. |

`EmbeddingStore.Store`, `Evidence.BoundedWriter`, `Evidence.Work`, `Packing.ExcerptBudget` and `Framing.Hasher`
are classes because the source updates them in place; each method states its whole new state. Everything a
search only computes is a function.

## What turned out different from what one might expect

* A job row is never replaced: `ON CONFLICT DO NOTHING` on the unique key keeps a failed, cancelled or stale row.
  Selecting a generation gets a served target done, or on its way, if and only if no such row stands for that work
  (`EmbeddingHistory.SelectPursuesUnlessAbandoned`). Where one does, the target is not embedded in that generation
  by any later run, and one such passage hides its whole extraction set
  (`EmbeddingHistory.AbandonedWorkIsNeverRepresented`, `SemanticReads.AbandonedPassageHidesItsSet`).
  `EmbeddingWitness.AbandonmentHappens` gives a run of five transactions that ends there.
* In hybrid search a cleared `omitted` flag does not mean that nothing was cut. `Fusion.SilentLossHappens` gives
  lanes that lose a row silently, and `FusionLanes.SilentLossByLanes` says from the lanes alone exactly when it
  happens.
* The early exits of the packing loop are harmless only because stored contents are non-empty;
  `Packing.EmptyContentBreaksEarlyExit` gives, for every budget, rows for which they are not.
* A target resolves to a normal name if and only if the directory components its `..` never leave are plain
  (`PartNames.ResolvedIsNormal`): next to a part named `/x` the target `y` resolves to `/y`.
* A source has two relationship parts if and only if its file lies in a directory of its own that is not called
  `_rels` (`PartNames.PartsCount`): `d/x/_rels/f.rels` and `d/_rels/x/f.rels` both speak for `d/x/f`. Exactly one of
  its parts has a file without slashes (`PartNames.OnePartPerSource`).

The last two are facts about the helper functions alone. Admission first accepts only a fixed list of part names
(tests/office_documents.rs:3515 and 3857-3910), all in plain directories and with slash-free files, so neither case
reaches the helpers there.

## Model

| member | source | states |
|---|---|---|
| EmbeddingInvariant.StepKeepsInv | migrations/0002_governed_semantic.up.sql:29-105 | Every admissible step of every actor keeps all table invariants (targets exist, lease and error columns fit the status, pending and retry leave an attempt, one job per key, each representation matches its complete job), and rows and environment only advance. |
| EmbeddingInvariant.CompletionNeverConflicts | migrations/0002_governed_semantic.up.sql:404-420 | The insert of a completing job never meets an existing representation key, so the job's status and its representation change together. |
| EmbeddingInvariant.PickSound | migrations/0002_governed_semantic.up.sql:311-338 | What a claim picks is at most the limit, unlocked, of a due tenant and passes the test asked for; from a scan order, which repeats nothing, it is without repetition. |
| EmbeddingRuns.ExactlyOnce | migrations/0002_governed_semantic.up.sql:361-425 | In every state a run reaches, a job is complete if and only if its representation exists, that one carries its target, generation and digest, and no other one carries the same work. |
| EmbeddingRuns.RepresentationDigestIsOfItsContent | migrations/0002_governed_semantic.up.sql:186-214 | The digest of every representation a run reaches is that of the recipe of its generation and the stored content of its target. |
| EmbeddingRuns.NoPairGrantedTwice | migrations/0002_governed_semantic.up.sql:311-346 | No (job, attempt) pair is handed out by two claims, however long the run between them. |
| EmbeddingRuns.GrantIsOfAFreeRow | migrations/0002_governed_semantic.up.sql:311-346 | A claim never takes a row that somebody still holds, and its new attempt holds it afterwards. |
| EmbeddingRuns.GrantCarriesItsContent | migrations/0002_governed_semantic.up.sql:347-357 | The content handed to a worker is the content whose digest the job stores. |
| EmbeddingRuns.FencedCallChangesNothing | migrations/0002_governed_semantic.up.sql:361-463 | Without the current attempt under a live lease, complete, fail and cancel leave every table unchanged, except that complete moves a live job past its deadline to failed. |
| EmbeddingRuns.SupersededAttemptIsFenced | migrations/0002_governed_semantic.up.sql:311-463 | Once a job was claimed again, no later call under the earlier attempt passes the fence, after any run. |
| EmbeddingRuns.JobTerminates | migrations/0002_governed_semantic.up.sql:43-69 | Over any run the status changes of a job are paid for by its remaining attempts, two per attempt, so they are at most twice the attempts it may make. |
| EmbeddingRuns.TerminalIsAbsorbing | migrations/0002_governed_semantic.up.sql:266-346 | A row in a terminal status is the same row in every later state that still has it. |
| EmbeddingRuns.NewRowsArePending | migrations/0002_governed_semantic.up.sql:43-69 | Rows enqueued by a transaction start pending with no attempt of three spent, due at once, with ten minutes to go and the deletion generation of that moment, for a target it names. |
| EmbeddingHistory.CommitWasCurrent | migrations/0002_governed_semantic.up.sql:372-424 | A representation appears only in a state where revision, deletion generation, embedding generation and extraction set are current, the collection is private and not withdrawn, the owner is active, and the lease and deadline still run. |
| EmbeddingHistory.RetiredEvidenceNeverCommits | migrations/0002_governed_semantic.up.sql:282-309 | After a target was retired, no run commits another representation of it. |
| EmbeddingHistory.ForgetRetires | migrations/0001_read_slice.sql:2201-2316 | A forget retires every target of the item; every job of the item then has an older deletion generation and is not current. |
| EmbeddingHistory.CorrectRetires | migrations/0001_read_slice.sql:2064-2195 | A correction retires every target of the replaced revision. |
| EmbeddingHistory.ReplacingASetRetiresIt | migrations/0001_read_slice.sql:969-1147 | Activating another extraction set retires every passage of the one it replaces. |
| EmbeddingHistory.AbandonedWorkIsNeverRepresented | migrations/0002_governed_semantic.up.sql:55-58 | A target whose job ended without completing is not represented in that generation in any later state of any run. |
| EmbeddingHistory.SelectQueuesWhatIsServed | migrations/0002_governed_semantic.up.sql:118-161 | After selecting a generation there is a job row, in whatever status, for every memory and active passage its app serves from private collections that are not withdrawn. |
| EmbeddingHistory.SelectPursuesUnlessAbandoned | migrations/0002_governed_semantic.up.sql:118-161 | For such a target that row is still open or complete if and only if no row for the same work had ended without completing. |
| EmbeddingWitness.AbandonmentHappens | migrations/0002_governed_semantic.up.sql:118-161 | Create, activate, select, claim and cancel, for any names, end with a passage that is served, in the active set, for the selected generation, and abandoned. |
| EmbeddingHistory.ActivationQueuesEveryPassage | migrations/0002_governed_semantic.up.sql:167-225 | Activating an extraction set leaves, for every one of its passages, a new pending row with no attempt spent, for the selected generation. |
| EmbeddingHistory.CreateQueuesItsMemory | migrations/0002_governed_semantic.up.sql:167-221 | Creating a memory serves its revision with its content and leaves a new untried row for it where its app has a generation selected. |
| EmbeddingHistory.CorrectQueuesItsMemory | migrations/0002_governed_semantic.up.sql:167-221 | So does a correction, for the revision it writes. |
| EmbeddingOutcomes.CompletionOutcome | migrations/0002_governed_semantic.up.sql:361-425 | Complete is said if and only if the tenant is known, three numbers are handed in, the attempt's lease still runs, the deadline is ahead and the job is current; then the row is complete and one new representation carries the job's target, generation, configuration and digest and exactly those numbers. Otherwise it raises and changes nothing, or fails a late row, or stops a held row that is not current. |
| EmbeddingOutcomes.FailureOutcome | migrations/0002_governed_semantic.up.sql:427-450 | A listed failure counts if and only if the attempt's lease runs; with attempts left the row waits the square of the attempt in seconds, at most sixty, and otherwise it has failed with that code. |
| EmbeddingOutcomes.CancelOutcome | migrations/0002_governed_semantic.up.sql:452-463 | A cancellation counts if and only if the attempt's lease runs, and then only that row is cancelled. |
| EmbeddingOutcomes.ClaimOutcome | migrations/0002_governed_semantic.up.sql:267-346 | What a claim makes of each row: failed only if out of time or attempts, stopped only if not current, leased for one more attempt only if ready, each with its new columns, and every other row unchanged. |
| EmbeddingOutcomes.ClaimPassesOverInOrder | migrations/0002_governed_semantic.up.sql:267-346 | An unlocked row of a due tenant that one of the three updates should take stays as it is only when that update used up its limit on rows no later in the queue. |
| EmbeddingOutcomes.DueTenantsComeFirst | migrations/0002_governed_semantic.up.sql:243-265 | A tenant with a due row is left out of a claim only when the limit is used up by due rows no later in the queue, all of tenants that are looked at. |
| EmbeddingOutcomes.GrantSetsTheFence | migrations/0002_governed_semantic.up.sql:311-377 | After a claim a call passes the fence if and only if it names the granted attempt before the granted lease runs out. |
| EmbeddingOutcomes.GrantCanComplete | migrations/0002_governed_semantic.up.sql:311-425 | Whichever attempt it is, a grant finished within lease and deadline for evidence that is still current is stored with its vector. |
| EmbeddingOutcomes.HeldOpenOrDone | migrations/0002_governed_semantic.up.sql:270-377 | At every moment a row is held by its current attempt, open to claims, or done, and never two of these. |
| EmbeddingOutcomes.CurrentIsJoined | migrations/0002_governed_semantic.up.sql:282-309 | The currency check holds if and only if a collection row and an active owner join the job's item, revision, deletion generation, selected generation and active set. |
| EmbeddingOutcomes.SelectedForIsJoined | migrations/0002_governed_semantic.up.sql:175-183 | The triggers queue for a generation if and only if it is the selection of the app of the item's private collection, withdrawn or not. |
| EmbeddingOutcomes.ListedIsWhatMayBeCurrent | migrations/0002_governed_semantic.up.sql:118-161 | A row queued for a target now would be current if and only if the selection of that generation lists the target and the owner is active. |
| EmbeddingProgress.ClaimIsOldestFirst | migrations/0002_governed_semantic.up.sql:311-338 | A claimable, unlocked row of a due tenant is passed over only when the limit is used up by rows no later in due time and creation. |
| EmbeddingProgress.ClaimMakesProgress | migrations/0002_governed_semantic.up.sql:243-346 | While an unlocked row of a due tenant is due, a claim strictly lowers the measure of some row. |
| EmbeddingProgress.ClaimIsIdleExactly | migrations/0002_governed_semantic.up.sql:243-346 | With nothing locked, a claim leaves the queue as it is if and only if no row is due. |
| EmbeddingProgress.ClaimsDrainTheQueue | migrations/0002_governed_semantic.up.sql:243-346 | Among more claims with nothing locked than the sum of all measures, one comes when no row is due. |
| EmbeddingStore.Store.EnqueueEmbeddingJob | migrations/0002_governed_semantic.up.sql:167-218 | The row is queued for the generation selected at that moment, if there is one; on sound tables these are the trigger step's tables. |
| EmbeddingStore.Store.EnqueueSelectedEmbeddingGeneration | migrations/0002_governed_semantic.up.sql:118-161 | The loop over the listing inserts what the selection step queues, skipping keys that have a row; the invariants hold. |
| EmbeddingStore.Store.ActivateDocumentExtraction | migrations/0001_read_slice.sql:969-1147 | Passages inserted one by one, each firing the row trigger, end in the activation step's tables with the new set active, or nothing changes. |
| EmbeddingStore.Store.ClaimEmbeddingJobs | migrations/0002_governed_semantic.up.sql:227-358 | Exhausted, stale and claimed rows are exactly those of the plan; at most the limit is granted, no row twice, each grant a fresh attempt with its lease; the bounds on the arguments raise and change nothing. |
| EmbeddingStore.Store.CompleteEmbeddingJob | migrations/0002_governed_semantic.up.sql:361-425 | The new tables and reply; it says complete exactly when a new representation of this job is stored. |
| EmbeddingStore.Store.FailEmbeddingJob | migrations/0002_governed_semantic.up.sql:427-450 | The new tables and reply of a reported failure: retry with its delay, or failed at the last attempt. |
| EmbeddingStore.Store.CancelEmbeddingJob | migrations/0002_governed_semantic.up.sql:452-463 | The new tables and reply of a cancellation. |
| SemanticReads.GateIsExact | migrations/0002_governed_semantic.up.sql:533-553 | The equal counts of the completeness gate hold if and only if every passage of the set has a representation in that generation. |
| SemanticReads.HitIsJoined | migrations/0002_governed_semantic.up.sql:501-556 | Exact search may return a representation if and only if it is of the selected generation and of a revision in scope that the reader may read as owner or by grant, and is a memory without an active set or a passage of the active set with every passage represented. |
| SemanticReads.SetVisibilityIsAllOrNothing | migrations/0002_governed_semantic.up.sql:510-556 | In every reachable state, a passage hit implies that its set is active and that every passage of it is represented and may be returned too. |
| SemanticReads.ReadyHidesNothing | migrations/0002_governed_semantic.up.sql:738-770 | Readiness "ready" opens the gate of every active set the reader may read, and every passage and memory in scope may be returned. |
| SemanticReads.ReadinessIsExact | migrations/0002_governed_semantic.up.sql:692-770 | Each of the five answers holds exactly under its own condition on the rows in the reader's reach, in the order in which the function asks. |
| SemanticReads.AbandonedPassageHidesItsSet | migrations/0002_governed_semantic.up.sql:738-770 | One passage whose job ended without completing keeps its whole set hidden and readiness not "ready", over any run that keeps the set active. |
| Fusion.TwoLanesBeatOne | migrations/0002_governed_semantic.up.sql:588-605 | For lexical rank at most 94 and semantic rank at most 41, two shares beat one share by more than any rounding within 1/4000000. |
| Fusion.NinetyFourIsTheBound | migrations/0002_governed_semantic.up.sql:588-614 | In exact rationals that dominance holds for all lexical ranks up to a bound if and only if the bound is at most 94. |
| Fusion.RankingRanks | migrations/0002_governed_semantic.up.sql:588-612 | The computed ranking lists every row of the full join once, best score first, ties by identity. |
| Fusion.RankingIsDetermined | migrations/0002_governed_semantic.up.sql:608-612 | Two rankings of the same lanes are the same list. |
| FusionLanes.RankingIsByReciprocals | migrations/0002_governed_semantic.up.sql:588-612 | A ranking holds exactly the rows of the full join, each at its rank in every lane that lists it, by the sum of reciprocals of rank plus sixty, and by identity where sums are equal. |
| Fusion.TwoLaneRowsLead | migrations/0002_governed_semantic.up.sql:605-612 | With at most 94 lexical rows, every row found by both lanes is ranked before every row found by one. |
| FusionLanes.NinetyFourRowsIsTheBound | migrations/0002_governed_semantic.up.sql:588-612 | In exact rationals, all lanes of at most so many lexical rows rank rows of both lanes first if and only if the number is at most 94. |
| Fusion.TwoLaneRowsSurvive | migrations/0002_governed_semantic.up.sql:612-614 | With at most 94 lexical rows, the cap of 41 direct rows never cuts a row found by both lanes. |
| Fusion.AnswerIsSound | migrations/0002_governed_semantic.up.sql:614-665 | The answer has at most 41 rows and no identity twice, starts with all selected rows, and each continuation has a selected parent of the same source. |
| Fusion.RowsAreLostPastTheCap | migrations/0002_governed_semantic.up.sql:612-665 | Some joined row is lost if and only if direct rows and unlisted semantic rows together are more than 41. |
| Fusion.SilentLoss | migrations/0002_governed_semantic.up.sql:655-665 | The flag is clear and a row is lost if and only if the lanes join to more than 41 rows, no continuation was kept and no selected row carries the lexical flag. |
| FusionLanes.SelectedByStanding | migrations/0002_governed_semantic.up.sql:608-615 | A row is selected if and only if it is joined and fewer than 41 joined rows score better, or the same with a smaller identity. |
| FusionLanes.AnswerByLanes | migrations/0002_governed_semantic.up.sql:614-665 | The answer, read off the lanes: every joined row at its standing below 41, then every kept continuation at its place in lane order, 41 rows in all. |
| FusionLanes.FlagByLanes | migrations/0002_governed_semantic.up.sql:655-665 | The flag is set if and only if the lexical flag is set and the answer has a direct or kept row of that lane, or more than 41 rows come together. |
| FusionLanes.SilentLossByLanes | migrations/0002_governed_semantic.up.sql:614-665 | For a lexical lane with direct rows first and one flag on all rows, a row is lost with the flag clear if and only if the lanes join to more than 41 rows, the lexical flag is clear, and no continuation has a parent among the first 41 joined rows while it is not there itself. |
| Fusion.PlainLossIsSilent | migrations/0002_governed_semantic.up.sql:655-665 | Where the lexical lane sets no flag and brings no continuation, every loss is silent, and the sizes of the lanes decide. |
| Fusion.RankingSize | migrations/0002_governed_semantic.up.sql:588-612 | A ranking has as many rows as the lanes have direct rows and unlisted semantic rows. |
| Fusion.SilentLossHappens | migrations/0002_governed_semantic.up.sql:614-665 | Forty-one lexical rows and one other semantic row lose a row with the flag clear. |
| Fusion.ContinuationsAreNotLostSilently | migrations/0002_governed_semantic.up.sql:655-665 | A kept continuation that is not returned sets the flag. |
| Fusion.SemanticLaneIsDistinct | migrations/0002_governed_semantic.up.sql:89-92 | Distinct exact-search hits have distinct targets, so the semantic lane names no identity twice. |
| Utf8.BoundedExcerpt | src/lib.rs:1134-1140 | The excerpt is the longest prefix within the budget that ends at a character boundary. |
| Utf8.BoundaryIsCharacterEdge | src/lib.rs:1134-1140 | On well-formed UTF-8 the boundaries are exactly the ends of whole characters (RFC 3629 section 3). |
| Utf8.ExcerptIsWholeCharacters | src/lib.rs:1134-1140 | On well-formed UTF-8 an excerpt is a number of whole characters, and one more would pass the budget. |
| Evidence.BoundedWriter.WriteAll | src/context_tokens.rs:63-72 | However the serializer cuts its output, writing succeeds exactly when the whole text fits the bound, and then holds exactly that text. |
| Evidence.Render | src/context_tokens.rs:77-95 | The accepted items and the candidate as one JSON envelope, or the failure when there are more than twelve or the text passes 512 KiB. |
| EnvelopeReader.UnescapeInvertsEscape | src/context_tokens.rs:77-95 | Unescaping undoes escaping, on every byte. |
| EnvelopeReader.EnvelopeReadsBack | src/context_tokens.rs:77-95 | A reader that finds members by name gets back from a rendered envelope, for each item in order, its item, revision and text and its citation's source, extraction, passage and locator, for any locators that are JSON texts. |
| EnvelopeReader.ContextReadsBack | src/context_tokens.rs:169-215 | The context of a token-mode answer reads back as its rows: item, revision, whole content, and for a passage its source, extraction, passage and locator. |
| Evidence.EnvelopeFits | src/context_tokens.rs:77-95 | Twelve items with plain identifiers, locators of at most 2048 bytes and excerpts of at most 65535 bytes together always render within 512 KiB. |
| Evidence.NewWork | src/context_tokens.rs:104-130 | Either the failure of counting the empty envelope, or work whose context is that envelope and its count. |
| Evidence.Work.Admit | src/context_tokens.rs:148-167 | The decision and the new context; a rejected candidate leaves text and count as they were. |
| Evidence.AdmissionIsCoherent | src/context_tokens.rs:148-167 | Admission keeps the context equal to the rendering of the accepted items, counted, and within the allowance. |
| Evidence.AdmitTripsNoGuard | src/context_tokens.rs:131-147 | Within 82 visits a plain candidate within the byte budget fails only if the tokenizer refuses the text; the count, byte and item guards do not fire. |
| Evidence.RenderingIsBounded | src/context_tokens.rs:77-95 | Rendering fails if and only if there are more than twelve items or more than 512 KiB. |
| Evidence.CountIsGuarded | src/context_tokens.rs:131-147 | A text is counted if and only if fewer than 83 were before, it is within 512 KiB and all together within 83 times that, and the tokenizer takes it. |
| Packing.ExcerptBudget.Take | src/lib.rs:1105-1118 | There is no excerpt if and only if no byte is left or not even the first character fits into 512 bytes and what is left; otherwise it is the longest prefix of whole characters that does; the remaining bytes and the flag follow. |
| Packing.ExcerptBudget.TakeWhole | src/lib.rs:1120-1131 | A passage goes in whole or not at all. |
| Packing.VisitOutcome | src/lib.rs:863-901 | A row that is not accepted leaves remaining bytes, items, caps and sets as they were, and the context's text and count too; only flags and the counters of work done may change. |
| Packing.VisitKeepsSafe | src/lib.rs:789-902 | Each visited row keeps all of it: an order-preserving choice of at most twelve rows, at most four per source, no passage twice, each continuation after an accepted parent, passages whole and memories at their longest prefix, flags and context exact. |
| Packing.LoopIsSafe | src/lib.rs:789-902 | The same at the end of the loop, from any safe state on. |
| Packing.AnswerIsExact | src/lib.rs:903-908 | The flag is set if and only if the first row reports omission, some row is not returned or some excerpt is cut; the byte count is the sum of the excerpts and within the budget. |
| Packing.EarlyExitsLoseNothing | src/lib.rs:789-902 | With non-empty contents, stopping at twelve items or with no byte left gives the same items, bytes, flag and failure as visiting every row. |
| Packing.EmptyContentBreaksEarlyExit | src/lib.rs:789-902 | For every positive byte budget there are rows, one with an empty content, for which the two differ. |
| Packing.TokenModeTripsNoGuard | src/context_tokens.rs:131-177 | For at most 82 plain rows and a budget of at most 65535 bytes, the loop fails only if the tokenizer refuses some text. |
| Packing.AllowanceAdmits | src/context_tokens.rs:131-167 | The token allowance keeps contexts coherent and fails only by the tokenizer, for plain candidates in bounds. |
| Packing.ByteModeNeedsLocators | src/lib.rs:1028-1062 | Without a token allowance the loop fails only on a passage without a locator. |
| Packing.Offer | src/lib.rs:863-880 | One row past the rules: taken, refused for bytes, or rejected for tokens with its bytes given back. |
| Packing.PackSearchRows | src/lib.rs:771-909 | The loop over mutable budget, sets and work returns the fold of single visits, with the context it ends in. |
| Packing.PackRows | src/context_tokens.rs:169-215 | More than 82 rows fail; an answer is safe, exact and coherent with its context; plain rows fail only for an allowance below the empty envelope or a refusing tokenizer. |
| PackingCauses.NothingIsLeftOutWithoutCause | src/lib.rs:789-902 | Every row that is not in the answer has a cause that the items before it show: twelve items, no parent, the same passage, four of its source, a whole row longer than what is left or a memory whose first character does not fit, or turned down. |
| PackingCauses.TurnedDownIsTooCostly | src/context_tokens.rs:148-167 | A row is turned down only when the envelope with it counts more tokens than allowed. |
| JsonScan.BoundedStructure | src/lib.rs:1878-1940 | The loop over a container stack decides exactly acceptance by the byte-by-byte scan. |
| JsonScan.ScanValue | src/lib.rs:1887-1938 | Scanning any well-formed value from any open state adds its size and needs its depth, and nothing else. |
| JsonScan.JsonIsMeasured | src/lib.rs:1878-1940 | For every JSON text (RFC 8259), whatever its white space and escapes, the check passes if and only if containers nest at most 16 deep and members plus elements are within the limit. |
| JsonNesting.MatchedIsNested | src/lib.rs:1914-1934 | Matching brackets with a bounded stack is the inductive notion of proper nesting to that depth. |
| JsonNesting.NestingIsExact | src/lib.rs:1878-1940 | For arbitrary bytes and a limit that cannot bind, the check passes if and only if strings are closed and the brackets outside them are properly nested at most 16 deep. |
| JsonNesting.AcceptedIsNested | src/lib.rs:1878-1940 | For arbitrary bytes and any limit, what passes is closed and properly nested. |
| JsonNesting.LimitIsOnTheTotal | src/lib.rs:1935-1940 | The early refusals change nothing: a body passes under a limit if and only if it passes without one and its final count is within it. |
| JsonBytes.CheckIsExact | src/lib.rs:1878-1940 | For arbitrary bytes and any limit, the check passes if and only if they are made of loose bytes, closed strings and matched blocks at most 16 deep, and colons, commas directly in arrays and arrays that show anything are within the limit. |
| ZipRecords.ValidateClassicZipRecords | tests/office_documents.rs:3663-3854 | The reverse search and the two loops return the records or the error of the first check that fails. |
| ZipLayout.CentralStepReads | tests/office_documents.rs:3720-3794 | An accepted central entry is a supported header standing at the cursor, fresh in name, offset and total. |
| ZipLayout.LocalStepIsExact | tests/office_documents.rs:3801-3849 | A local record is accepted if and only if it starts where expected, its header agrees with the central record, and it ends within the bound. |
| ZipLayout.AllFreshMeans | tests/office_documents.rs:3752-3784 | The running checks amount to pairwise distinct names and offsets and a bounded total. |
| ZipExactness.ArchivePasses | tests/office_documents.rs:3663-3854 | The bytes of every valid archive pass, with its records in local order. |
| ZipExactness.CheckIsExact | tests/office_documents.rs:3663-3854 | The check returns these records if and only if the bytes are, with no gap, overlap or spare byte, contiguous local records from the first byte, the same records in any central order, and a comment-less end record, for some valid archive with those records in offset order. |
| ZipErrors.ErrorIsTrue | tests/office_documents.rs:3663-3854 | Every error is true of the bytes it is reported for: of the end record found, of the first central header that cannot stand, of the count, or of the first local header that does not agree. |
| ZipLayout.LowestFirst | tests/office_documents.rs:3673-3687 | Four-byte fields are written with the lowest byte first. |
| PartNames.ResolveRelationshipTarget | tests/office_documents.rs:5372-5391 | The component stack computes the resolution of a target against its source. |
| PartNames.EscapesWhenItClimbs | tests/office_documents.rs:5380-5389 | A target is refused if and only if some prefix of it climbs above the package root. |
| PartNames.ResolvedIsNormal | tests/office_documents.rs:5372-5391 | What a target resolves to, read as an absolute target from anywhere, resolves to itself if and only if the components of the source's directory that its `..` never leave are plain, or it is the package root. |
| PartNames.NormalIsFixed | tests/office_documents.rs:5372-5391 | A name resolves to itself as an absolute target if and only if it is empty or all its components are plain. |
| PartNames.UpTakesBackDown | tests/office_documents.rs:5380-5389 | A plain component and the `..` right behind it may be left out of a target, wherever they stand. |
| PartNames.PlainDirectoriesNormalize | tests/office_documents.rs:5372-5391 | Whatever a target resolves to from a directory of plain components, which all admitted part names have, is in normal form. |
| PartNames.SiblingResolves | tests/office_documents.rs:5374-5391 | A plain name resolves to itself in its source's directory. |
| PartNames.SourceOfPart | tests/office_documents.rs:5359-5370 | The relationship part of `directory/file` with a slash-free file belongs to `directory/file`. |
| PartNames.PartOfSource | tests/office_documents.rs:5359-5370 | Every name with a source other than the root is the relationship part of that source. |
| PartNames.PartsAreAtSlashes | tests/office_documents.rs:5359-5370 | The parts of a source are exactly the names that take it apart at one of its slashes from which on it holds no `/_rels/`. |
| PartNames.OnePartPerSource | tests/office_documents.rs:5359-5370 | Of the parts of a source exactly one has a file without slashes. |
| PartNames.TwoPartsOneSource | tests/office_documents.rs:5359-5370 | `directory/outer/file` has two different parts if and only if `outer` is not `_rels`. |
| PartNames.PartsCount | tests/office_documents.rs:5359-5370 | Any name has a part if and only if it has a slash, and two parts if and only if it has a second slash and the directory next to the file is not `_rels`. |
| Worklist.Reachable | tests/office_documents.rs:5150-5158 | The worklist ends, its set is exactly the ends of non-empty paths from the root, and each target is pushed at most once. |
| Package.ReadRelationships | tests/office_documents.rs:5118-5148 | One relationship part passes if and only if every target resolves to a known part of the expected kind over an allowed edge, none twice, and the targets are the required ones; its edges are then added and no others. |
| Package.BuildAdjacency | tests/office_documents.rs:5112-5149 | All relationship parts pass if and only if each is in order, and the table then holds exactly the edges of the package. |
| Package.ValidatePackage | tests/office_documents.rs:5096-5165 | A package passes if and only if its component count, content types and relationship parts are in order and relationships lead from the root to every other part; an error names a fault the package has. |
| Package.AdmissionIsDeclared | tests/office_documents.rs:5096-5165 | What is admitted, said without the checks: every relationship part speaks for the package or a part, its relationships lead to parts of their kinds over allowed edges, none twice and together to the required ones, and every other part but the content types is connected to the root. |
| SourceBlocks.SourceBlockIndices | src/context_tokens.rs:378-390 | On any keys, a stable grouping by first appearance. |
| SourceBlocks.GroupedStays | src/context_tokens.rs:488-492 | Keys already in the order of first appearance are left as they are. |
| Orderings.Reblocked | src/context_tokens.rs:488-492 | Blocking a list sorted by where its sources first appear is the identity. |
| OrderingLanes.Distribute | src/context_tokens.rs:562-576 | Whatever order the sources are visited in, each extra lands once, in the lane of its tier. |
| Orderings.LexHeadDeferLarge | src/context_tokens.rs:469-496 | The result is the ordering by heads, rest by source, huge rows. |
| Orderings.HeadedLexNeighbor | src/context_tokens.rs:535-592 | The result is the ordering by heads, neighbors, rest by source, deferred by source, huge rows. |
| HanOrderings.PickPair | src/context_tokens.rs:1119-1139 | The pair source is that of the best candidate, in whatever order candidates were found. |
| HanOrderings.HanTwoHeadDumpRr | src/context_tokens.rs:794-869 | The result is the ordering with unheaded extras round by round. |
| HanOrderings.HanUnheadedAdj | src/context_tokens.rs:916-1015 | The result is the ordering with kept unheaded sources in the first round, each with its first next passage. |
| OrderingWindow.NextPassageStandsBeside | src/context_tokens.rs:916-1015 | In that ordering the first next passage of a kept unheaded source is at the position right after its first extra. |
| HanOrderings.HanDeferredSpan | src/context_tokens.rs:1085-1266 | The result is the ordering with deferred spans and the pair of the chosen source. |
| OrderingReference.OrderIsDeclared | src/context_tokens.rs:469-1266 | Each of the five results stands in the order declared from ranks, sizes, sources and passage numbers alone: heads, neighbors, extras that stay, extras in rounds, extras that wait, huge rows, with the declared order inside each. |
| OrderingReference.SpanStandsBeforeFirst | src/context_tokens.rs:1188-1215 | In a source without heads whose first extra has semantic rank at most 10 and lexical rank at least 16, an extra stands before that first one if and only if its passage is one or three after it. |
| OrderingReference.BesideStandsBehindFirst | src/context_tokens.rs:1188-1252 | Behind a first extra that passes stand, with nothing else between, its next passages, or without any the second and third extra of the pair source; every other extra waits behind all first extras that pass. |
| OrderingWindow.OrderingIsDetermined | src/context_tokens.rs:469-1266 | Any two results of one ordering on the same rows are equal and a permutation of the rows. |
| OrderingWindow.HeadsFirstHugeLast | src/context_tokens.rs:469-1266 | Heads that are not huge come first in fused order, huge rows last in fused order. |
| OrderingWindow.HeadsAndNeighborsFit | src/context_tokens.rs:535-1266 | With distinct positive lexical ranks, heads and neighbors stand within the first eight positions. |
| Framing.FramingIsExact | src/lib.rs:1780-1787 | Reading frames back and writing them are inverse, for any number of components whose length fits eight bytes. |
| Framing.FramingIsInjective | src/lib.rs:1780-1787 | Two lists of components are framed alike if and only if they are the same list. |
| Framing.HighestFirst | src/lib.rs:1780-1787 | Lengths are written with the highest byte first. |
| Framing.MutationRequestDigest | src/lib.rs:1780-1787 | The digest is the hash of the framing of method, path and body. |
| Framing.CanonicalRequestDigest | src/lib.rs:1865-1872 | The digest of a create is the hash of the general framing of POST /v1/memories with its body. |
| Framing.RequestsAreToldApart | src/lib.rs:1780-1787 | Two requests are hashed from the same bytes if and only if they are the same request. |
| Framing.OperationsNeverCoincide | src/lib.rs:1480-1481 | Create, correct and forget are never hashed from the same bytes; two corrections only for the same item and body. |

## Left out

- Row locks and `SKIP LOCKED`: each SQL function is one atomic step; rows locked by others are an arbitrary set given to a claim. Row-level security, grants and the credential checks around a call are not modelled.
- Writers: create, correct, forget and activation are modelled by what they change in the tables the protocol reads; their own authorisation is reduced to whether the principal may write the item.
- Migrations after 0002: vectors have three dimensions here, and later redefinitions of the same functions are not part of this model.
- Digests: a digest is modelled by what it is taken of, so two contents have one digest only if they are the same. Job identifiers are assumed not to have been issued before.
- EmbeddingProgress.ClaimIsOldestFirst: rows equal in due time and creation are taken in any order here, where the source goes on by tenant and identifier; every scan order it may produce is covered.
- EmbeddingStore.Store.ActivateDocumentExtraction: the checks on parser, locators, structural parents and continuations, and the unique recipe of a set, are not part of the acceptance condition.
- EmbeddingStore.Store.FailEmbeddingJob: a NULL error code is not modelled; the code is one of the three the function lists.
- SemanticReads.ReadyHidesNothing: the validity window and the subject filter are one given set of revisions in scope.
- Vector distance and full-text ranking: the order of each lane is given.
- Fusion.RankingRanks: the lanes are assumed to name no identity twice and the semantic lane to hold at most 41 rows, as the two searches return them (the lexical lane never has more than 82 rows); the collation is any strict total order.
- FusionLanes.SilentLossByLanes: that the lexical search lists direct rows first under one flag is taken from migrations/0001_read_slice.sql:1639-1659, not proved of that query.
- Fusion.AnswerIsSound: the columns copied into an answer (content, times, locator) are not modelled, and revisions of joined rows are assumed to exist.
- Packing.PackSearchRows: columns that a search item only copies are not modelled; a locator is its serialized text, or missing when it does not parse.
- Packing.PackRows: the worker semaphore, the blocking thread and the check of the tokenizer's name are not modelled.
- EnvelopeReader.EnvelopeReadsBack: the reader takes numbered escapes below 0x80 only, the only ones the serializer writes; a locator is any JSON text, as a stored value serializes.
- Evidence.Render: the pieces in which the serializer writes are taken item by item; the writer is proved for any pieces.
- Trace recording behind a feature flag is observation only.
- ZipRecords.ValidateClassicZipRecords: overflow of machine offsets is not modelled, offsets being unbounded; the checks it guards cannot fire on 64-bit offsets. The second pass through a streaming reader is not modelled.
- Package.ValidatePackage: XML parsing, content-type assignments and the fixed tables of kinds, edges and required targets are parameters.
- Orderings.HeadedLexNeighbor: ranks and passage numbers are unbounded integers; sorting calls of the library are modelled by sorting functions, and the sort of already increasing positions is left out.
- `tests/benchmarks`, document extraction through third-party parsers, process supervision and HTTP plumbing would add input and output or finite lookups only.
