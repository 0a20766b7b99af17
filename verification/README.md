# Connector imports, sync and evidence: a verified model

The repository imports documents from connectors into workspaces. This project models the part of
it that has to keep several stores and a long-running job consistent, and proves what that part
promises over whole histories, not over single calls. All code is in the directory of this file,
one module per component; `dafny verify dfyconfig.toml` checks it.

- **Import jobs** (`BatchProcessor`, `ImportHistory`, `RetryPolicy`, `RateLimiter`): a job walks a
  list in batches, saves a checkpoint after each, is cancelled between batches, and resumes from one
  number. Methods work on the job, result and limiter objects in place; a ghost journal records every
  visit and every call of the fetch function. `ImportHistory` reasons about any number of legs.
- **Dedup and versions** (`Dedup`, `Provenance`, `ItemImport`, `ResumedImport`, `ImportedEvidence`):
  two stores that are written one after the other, where any write of a version may fail, the doubly
  linked version chain of each item, the two fetch functions of a job, and what an import hands over to
  the evidence bridge.
- **Chunking** (`Chunker`): a greedy packer over paragraphs, with the regular expression and the
  stripping modelled character by character.
- **Sync** (`SyncState`, `SyncRunner`, `SyncHistory`) and **evidence** (`DataSources`,
  `EvidenceBridge`, `EvidenceHistory`): each sync compares a remote snapshot with the state list,
  pushes differences into the evidence store and archives what is gone.
- **Schedules** (`Schedules`, `ScheduledRuns`), **listing pages** (`Pagination`, `Decimal`) and
  **copying local files** (`LocalFiles`).

`Prelude` and `Contents` hold what the others share. The clock, the random source, the remote end,
the threads that ask for a cancellation and the progress callback are scripts handed to
`Retry.Remote`, so every theorem holds for all of their behaviours.

## What the code does differently from what it promises

The lemmas in parentheses give a concrete input, and say exactly when the promise holds.

- Items that are held back by the rate limiter are visited but not counted, so a later leg can start
  behind them: a job can end completed at 100 percent with an item that was never fetched
  (`ImportHistory.LostItemExample`, `ImportHistory.CompletedFetchesAllIff`).
- A resumed leg uses the batch size the processor has at that time, not the job's; a larger one can
  leave items that no leg ever comes to (`ImportHistory.ResizedResumeExample`,
  `ImportHistory.ResizedResumeCoversIff`, and for any number of legs `ImportHistory.CoverageIff`).
- Counters and final status speak for the last leg only (`ImportHistory.ForgottenFailureExample`,
  `ImportHistory.FinalStatusIff`).
- `resume_job` in `import_jobs.py` resumes with a fetch function that uses neither the duplicate table
  nor the version files nor the evidence bridge, so items that a resumed leg imports are not registered
  (`ResumedImport.ResumedExample`, `ResumedImport.ImportJob`).
- When the loop over the batches raises, what was collected never reaches the evidence bridge, and being
  registered it is not collected again (`ResumedImport.DroppedExample`, `ResumedImport.ImportJob`).
- A negative batch size, which nothing refuses, makes a job end completed without its last items
  (`ImportHistory.NegativeSizeExample`, `ImportHistory.NegativeSizeIff`).
- A version file is written after the hash has been recorded. When writing fails, as for an external id
  that names a missing directory, the duplicate table runs ahead of the chain, and the content is never
  collected (`ItemImport.NestedIdExample`, `ItemImport.CounterInStepIff`, `ItemImport.CollectedIff`). If
  the error is retried, the second call finds the content unchanged: the item even counts as imported,
  in a job without failures, and never reaches the evidence bridge (`ResumedImport.RetriedExample`,
  `ResumedImport.ImportJob`).
- A content whose text is blank gets the chunks of the content that was parsed last before it in the
  same call, if that was one of the same item (`EvidenceHistory.LeftOverExample`,
  `EvidenceHistory.PassChunksIff`).
- An item that is gone and comes back unchanged stays archived (`SyncHistory.RestoredExample`,
  `SyncHistory.ArchivedIff`).
- Archiving searches by external id alone, so it may archive a source of another connector
  (`SyncHistory.OtherConnectorExample`, `SyncHistory.ArchivesOwnIff`).
- A successful sync advances only the first schedule of a connector; any other one stays due and causes
  one more sync at every poll (`Schedules.SecondScheduleExample`, `Schedules.OnlyFirstIsPutOffIff`,
  `ScheduledRuns.SyncedPerSchedule`).
- The job of a local import reports the path that was aimed at, not the one that was written
  (`LocalFiles.ImportedTwiceExample`, `LocalFiles.OutputPathIff`).
- The two paging functions hand out incompatible cursors (`Pagination.CursorsDifferExample`,
  `Pagination.CursorsAgreeIff`).

## Assumptions

- A history resumes over the same item list. Some coverage theorems take one positive batch size for
  all legs; `ImportHistory.CoverageIff` says what that is needed for.
- `Batches.HoldHasHit` and `ImportHistory.NoHitLosesNothing` start from a rate limiter that has been told
  nothing; the invariant of the processor itself allows any log before.
- The clock does not run backwards. Between two syncs only syncs of other connectors write the stores.
- `EvidenceHistory.CallsEvidence` takes calls in each of which no item comes twice or no text is blank;
  `EvidenceHistory.PassChunksIff` says what happens otherwise. That the chunks are those of the latest
  text also needs that contents of an item with the same hash have the same text.
- `SyncHistory.StoresAgree` takes the same of each snapshot, and a workspace, and that no other connector
  has or tracks an id that this one tracks; `SyncHistory.ArchivesOwnIff` says what goes wrong otherwise.
  `SyncHistory.StateHistory` needs none of these.
- SHA-256 is taken as injective, also when a chunk id keeps only its first 16 hexadecimal digits; source
  and version ids are fresh numbers; the UTF-8 codec is two functions of which only one property is
  used: exactly the empty text encodes to no bytes.
- `ResumedImport.ImportJob` takes distinct external ids in the item list; how many calls a visit may make,
  and what each brings, is a script. `ImportedEvidence.ImportOnce` takes contents that carry the id of
  their item.

## Model

| member | source | states |
|---|---|---|
| `ImportHistory.CompletedFetchesAllIff` | src/decision_system/connectors/batch_processor.py:109-178 | a completed job history fetches every item if and only if no leg held an item back behind the start of the next leg; then each item is fetched exactly once, in list order |
| `ImportHistory.InterruptionIsInvisible` | src/decision_system/connectors/batch_processor.py:122-178 | a history of cancelled, failed and resumed legs that loses no item fetches the same sequence as one uninterrupted leg, and for deterministic fetches the imported, skipped and failed counts summed over the legs are those of that leg |
| `ImportHistory.NoHitLosesNothing` | src/decision_system/connectors/batch_processor.py:199-241 | a completed job of a connector without rate-limit failures in the journal fetches every item exactly once and in list order, however often it was interrupted, and whatever other jobs ran between its legs |
| `ImportHistory.NoHitNoHold` | src/decision_system/connectors/batch_processor.py:199-211 | without a recorded failure of the connector no leg of any of its jobs holds an item back |
| `ImportHistory.RunIsInJournal` | src/decision_system/connectors/batch_processor.py:199-241 | the journal that a driven job leaves, and any that goes on from there, has all visits of the job |
| `ImportHistory.CompletedCoversAll` | src/decision_system/connectors/batch_processor.py:120-139 | whatever the rate limiter does, a history that ends completed has come to every item of the list at least once |
| `ImportHistory.CoverageIff` | src/decision_system/connectors/batch_processor.py:109-178 | with any batch sizes, changing from leg to leg: a history that ends completed has come to every item if and only if, when its last leg began, every item that lies outside the stretch from that leg's start on had been come to; the start follows from checkpoint and batch size |
| `ImportHistory.GaplessCoversAll` | src/decision_system/connectors/batch_processor.py:109-178 | if every leg starts no later than the furthest point reached before, and the last batch size is positive, a history that ends completed has come to every item |
| `ImportHistory.SomeSkip` | src/decision_system/connectors/batch_processor.py:132-135 | if the last batch size is positive, an item that no leg came to was skipped by some leg |
| `ImportHistory.NoGap` | src/decision_system/connectors/batch_processor.py:109-160 | a resumed leg never starts behind an item that no earlier leg came to |
| `ImportHistory.CheckpointBound` | src/decision_system/connectors/batch_processor.py:143-160 | a saved checkpoint claims no more than where the leg stopped, which is the batch boundary it names: min(batch * size, total) |
| `ImportHistory.ProcessedBound` | src/decision_system/connectors/batch_processor.py:109-160 | over any history, with any batch sizes, the processed count never exceeds the list and the resume offset never goes back |
| `ImportHistory.PercentBound` | src/decision_system/connectors/models.py:345-347 | the percentage stays between 0 and 100 over any history |
| `ImportHistory.PercentTells` | src/decision_system/connectors/models.py:345-347 | the percentage is proportional to the processed items, 0 at the start, and 100 exactly when all are processed |
| `ImportHistory.LegConservation` | src/decision_system/connectors/batch_processor.py:141-176 | per leg: each counter is the number of visits that ended in its way; rate-limited are those that were held back or whose last call raised a rate-limit error, failed those whose last call raised; imported + skipped + failed is the growth of the processed count, and with the held items the number of visits; a finished leg has warnings exactly if it failed an item |
| `ImportHistory.LosslessLeg` | src/decision_system/connectors/batch_processor.py:132-160 | a leg that starts at its offset and loses no held item fetches exactly the stretch from its offset to the count it leaves |
| `ImportHistory.FetchedPrefix` | src/decision_system/connectors/batch_processor.py:132-160 | before anything is lost, the items fetched so far are an initial stretch of the list that ends where the next leg starts |
| `ImportHistory.LostForGood` | src/decision_system/connectors/batch_processor.py:132-139 | the first item that is lost is not fetched by any leg, earlier or later |
| `ImportHistory.HistoryCount` | src/decision_system/connectors/batch_processor.py:98-104 | if fetching an item always ends the same way: each leg counts from zero, and the counters summed over the legs count exactly the fetched items by how they end |
| `ImportHistory.HistoryExtends` | src/decision_system/connectors/batch_processor.py:252-265 | a resumed leg that starts from the saved checkpoint of a resumable job extends its history |
| `ImportHistory.LostItemExample` | src/decision_system/connectors/batch_processor.py:109-178 | a job that ends completed at 100 percent without failures although its first item was never fetched, with a journal that the rate limiter allows |
| `ImportHistory.ResizedResumeCoversIff` | src/decision_system/connectors/batch_processor.py:120-139 | of two legs with different batch sizes: no item is left unattempted if and only if the second size is positive and the resumed leg starts no later than where the first one stopped, or that was the end |
| `ImportHistory.ResizedResumeExample` | src/decision_system/connectors/batch_processor.py:120-139 | a resume with a larger batch size that ends completed after one of three items |
| `ImportHistory.NegativeSizeIff` | src/decision_system/connectors/batch_processor.py:120-139 | with a negative batch size a job ends completed without having come to its last items: one leg comes to every item if and only if there is none |
| `ImportHistory.NegativeSizeExample` | src/decision_system/connectors/batch_processor.py:120-139 | of two items a batch size of -1 leaves the second out |
| `ImportHistory.ForgottenFailureExample` | src/decision_system/connectors/batch_processor.py:173-176 | a job that failed an item in its first leg and ends completed without warnings |
| `ImportHistory.FinalStatusIff` | src/decision_system/connectors/batch_processor.py:173-176 | the final status says warnings exactly when some leg failed an item, if and only if the last leg failed one or no earlier leg did |
| `ImportHistory.RunJob` | src/decision_system/connectors/batch_processor.py:252-265 | a job driven through any number of resumes, each with its own batch size: its legs are a history, and the journal and the calls made grow by exactly the visits of all legs; it always ends resumable or finished, and if nobody asks for a cancellation and no callback raises, one resume with a batch size other than zero finishes it |
| `Batches.BatchProcessor.ProcessItems` | src/decision_system/connectors/batch_processor.py:73-186 | the loop visits the items from the first batch start not below the offset on, in order, until the end of the list, a cancellation or an exception of the progress callback; counters, checkpoint and final status go with the visits; the flag is looked at before each batch and the callback called after each visited one, and the first yes ends the loop; a flag that is set from the start cancels before any visit |
| `Batches.BatchProcessor.WalkBatches` | src/decision_system/connectors/batch_processor.py:120-186 | the loop with a positive batch size |
| `Batches.BatchProcessor.WalkCut` | src/decision_system/connectors/batch_processor.py:120-186 | the loop with a negative one |
| `Batches.BatchProcessor.CheckCancel` | src/decision_system/connectors/batch_processor.py:121-129 | the look at the flag before a batch: cancelled exactly if it is set or somebody asks |
| `Batches.BatchProcessor.NextBatch` | src/decision_system/connectors/batch_processor.py:132-167 | one batch keeps the loop invariant: visits made, counters, checkpoint, journal |
| `Batches.BatchProcessor.RunBatch` | src/decision_system/connectors/batch_processor.py:141-160 | a batch advances the counters by what its visits were and saves the checkpoint |
| `Batches.BatchProcessor.ProcessBatch` | src/decision_system/connectors/batch_processor.py:188-244 | a batch visits each of its items once and in order and counts what became of them |
| `Batches.BatchProcessor.VisitItem` | src/decision_system/connectors/batch_processor.py:199-241 | one item is held back while a recorded window is open, or fetched by a complete run of calls whose failure is recorded after its last call; the windows stay respected and every hold explained |
| `Batches.BatchProcessor.FetchItem` | src/decision_system/connectors/batch_processor.py:213-241 | behind an open gate: a run of calls; the kind says whether the last one raised a rate-limit error, another one or none; a rate-limit failure is recorded with connector and address at or after the last call |
| `Batches.BatchProcessor.Gate` | src/decision_system/connectors/batch_processor.py:200-211 | the check before an item answers by the recorded windows alone |
| `Batches.BatchProcessor.OpenGateKeeps` | src/decision_system/connectors/batch_processor.py:199-222 | fetching after the gate was found open keeps every fetch 60 seconds behind each recorded rate-limit failure of its connector |
| `Batches.BatchProcessor.HitKeeps` | src/decision_system/connectors/batch_processor.py:236-241 | recording a failure keeps the latest failure of every connector in force in the limiter |
| `Batches.NoCallWithinWindow` | src/decision_system/connectors/batch_processor.py:199-241 | once a call for a connector has failed with a rate-limit error and is not retried, no later visit, in this job or another, calls for that connector within 60 seconds of the failing call |
| `Batches.HoldHasHit` | src/decision_system/connectors/batch_processor.py:199-211 | every item that is held back comes less than 60 seconds after an earlier recorded failure of its connector |
| `Batches.BatchProcessor.ExplainedNext` | src/decision_system/connectors/batch_processor.py:199-241 | one more visit keeps the log of the limiter equal to the failures of the journal, and every hold explained by them |
| `Batches.BatchProcessor.StartLeg` | src/decision_system/connectors/batch_processor.py:94-118 | the counters start from zero and the processed count from the checkpoint |
| `Batches.BatchProcessor.RequestCancel` | src/decision_system/connectors/batch_processor.py:246-250 | sets the flag that the loop reads |
| `Batches.BatchProcessor.RunLeg` | src/decision_system/connectors/import_jobs.py:682-766 | the loop under the handler of its callers: an exception ends the leg as failed, and every leg satisfies the leg predicate that the histories are made of; with the flag clear, nobody asking and no callback raising it is finished unless the batch size is zero |
| `Batches.BatchProcessor.ResumeJob` | src/decision_system/connectors/batch_processor.py:252-265 | only a failed, paused or cancelled job is resumed, with the batch size the processor has now; an earlier request to cancel is forgotten: the leg is cancelled only if somebody asks again, and finished if nobody does, no callback raises and the batch size is not zero |
| `Batches.ProgressStep` | src/decision_system/connectors/batch_processor.py:143-160 | the reported progress is kept by one more batch |
| `Batches.CallBound` | src/decision_system/connectors/batch_processor.py:217-222 | a leg makes at most (max_retries + 1) calls for each item it processes |
| `Batches.CountTotal` | src/decision_system/connectors/batch_processor.py:199-241 | every visit is either held back or processed |
| `Batches.LeastBatchStart` | src/decision_system/connectors/batch_processor.py:132-135 | a leg starts at the least multiple of the batch size that is not below the offset |
| `Batches.BatchStarts` | src/decision_system/connectors/batch_processor.py:120-139 | the batches counted by the loop cover the list, and those below the offset are exactly the skipped ones |
| `Retry.ExecuteWithRetry` | src/decision_system/connectors/retry_policy.py:141-193 | at most max_retries + 1 calls; a success on call k comes with k - 1 records numbered 1 to k - 1; the result is the answer of the last call; the sleeps are the recorded delays, which come from the draws, back off around base * factor^n up to the cap, and strictly grow below it; they add up to at most max_retries * max(0.1, max_delay) |
| `Retry.BackoffGrows` | src/decision_system/connectors/retry_policy.py:131-139 | while the raw delay is below the cap, if factor * (1 - jitter) > 1 + jitter and base * (1 - jitter) >= 0.1, successive delays strictly grow for all random draws |
| `Retry.DrawnBackOff` | src/decision_system/connectors/retry_policy.py:131-139 | each delay is base * factor^(n - 1), or the longest delay if that is less, give or take the jitter factor, cut to the allowed range |
| `Retry.DrawnGrow` | src/decision_system/connectors/retry_policy.py:131-139 | if factor * (1 - jitter) > 1 + jitter and base * (1 - jitter) >= 0.1, the recorded delays strictly grow below the cap |
| `Retry.FirstDelay` | src/decision_system/connectors/retry_policy.py:131-139 | then the first one lies between base * (1 - jitter) and base * (1 + jitter) |
| `Retry.DefaultBackoff` | src/decision_system/connectors/retry_policy.py:96-105 | the default policy waits about 1, 2 and 4 seconds, and 27 to 30 from the sixth delay on |
| `Retry.JitterIsEven` | src/decision_system/connectors/retry_policy.py:137-138 | the least draw takes the jitter factor off, the middle one changes nothing, and opposite draws move the delay equally far |
| `Retry.RetryPolicy.Delay` | src/decision_system/connectors/retry_policy.py:131-139 | a delay lies between 0.1 and max(0.1, max_delay) whatever the draw |
| `Retry.SleepBound` | src/decision_system/connectors/retry_policy.py:170-187 | the recorded delays add up to at most max_retries * max(0.1, max_delay) |
| `Retry.RateLimitErrorsAreRetried` | src/decision_system/connectors/retry_policy.py:114-129 | an error that counts as a rate limit is retryable if and only if it has no permanent keyword |
| `Retry.WordDecides` | src/decision_system/connectors/retry_policy.py:112-129 | a keyword decides wherever it stands in the message and in any letter case; permanent ones take precedence |
| `Retry.UnknownIsPermanent` | src/decision_system/connectors/retry_policy.py:128-129 | a message without any keyword is not retried |
| `Retry.LetterCase` | src/decision_system/connectors/retry_policy.py:114 | letters are compared without regard to case |
| `Retry.OtherLetters` | src/decision_system/connectors/retry_policy.py:114 | all other characters are compared as they are |
| `Retry.RunIsDetermined` | src/decision_system/connectors/retry_policy.py:156-191 | the answers of the remote end fix where the loop stops: no complete run is a proper prefix of another |
| `Retry.RateLimitFailureExhaustsRetries` | src/decision_system/connectors/retry_policy.py:107-129 | a rate-limit failure reaches the caller after all allowed calls, or with a permanent keyword |
| `RateLimits.RateLimiter.Record429` | src/decision_system/connectors/rate_limiter.py:56-111 | opens a window at the clock reading; the Retry-After header takes precedence; the remaining count and the reset time follow the headers; the history is the last 100 of all records; other connectors keep their state |
| `RateLimits.RateLimiter.CheckRateLimited` | src/decision_system/connectors/rate_limiter.py:113-128 | polling, which clears the flag lazily and notes the time, answers by the last recorded window alone |
| `RateLimits.RateLimiter.RecordSuccess` | src/decision_system/connectors/rate_limiter.py:130-144 | a success closes the window, notes the time and takes the remaining count from the headers |
| `RateLimits.RateLimiter.GetRetryAfter` | src/decision_system/connectors/rate_limiter.py:149-155 | the seconds left in the window, zero if there is none |
| `RateLimits.AgreeAfter` | src/decision_system/connectors/rate_limiter.py:113-144 | writing the state of one connector keeps flag and window of all connectors in agreement |
| `Provenance.RunIsChain` | src/decision_system/connectors/provenance.py:109-150 | after any number of calls the file is a doubly linked chain: numbers 1 to n, predecessor and successor links inverse, only the last without successor, with the given hashes |
| `Provenance.RunPreserves` | src/decision_system/connectors/provenance.py:109-150 | no call changes the id, number, hash or predecessor of an earlier version, nor the successor of any but the last |
| `Provenance.SourceIdIsStable` | src/decision_system/connectors/provenance.py:166-178 | once a version number resolves it resolves to the same source for ever, and before that it does not resolve |
| `Provenance.ExtendsKeepsChain` | src/decision_system/connectors/provenance.py:124-148 | one more version keeps the chain |
| `Provenance.ProvenanceTracker.CreateVersion` | src/decision_system/connectors/provenance.py:109-164 | adds a version of the given job and title and writes the list back; any write may fail, and then nothing is stored |
| `Provenance.ProvenanceTracker.Extended` | src/decision_system/connectors/provenance.py:124-148 | the list to be written: the one that was read, its latest version linked in place, and the new version |
| `Provenance.CreateVersions` | src/decision_system/connectors/provenance.py:109-164 | versions created one after the other are a run of the chain theorems; failed writes leave no trace in it |
| `Provenance.ProvenanceTracker.GetVersions` | src/decision_system/connectors/provenance.py:81-95 | reads the file of an item into fresh objects, in file order |
| `Provenance.ProvenanceTracker.Latest` | src/decision_system/connectors/provenance.py:97-107 | the object with the greatest number is the last of the chain |
| `Provenance.ProvenanceTracker.GetSourceIdForVersion` | src/decision_system/connectors/provenance.py:166-178 | the id of the version with a number |
| `Provenance.SourceIdAt` | src/decision_system/connectors/provenance.py:174-178 | searching a chain by number finds the version at that position, and nothing outside the numbers it has |
| `ItemImport.VersionHistory` | src/decision_system/connectors/import_jobs.py:595-680 | over any interleaving of fetches and imports, and whichever writes fail: what is recorded are the fetched hashes without consecutive repeats, the version counter is their number, and the version chain has those whose write succeeded, in order; all of them if every write succeeds |
| `ItemImport.CounterInStepIff` | src/decision_system/connectors/import_jobs.py:641-665 | the version counter of the duplicate table is never behind the chain, and equals its length if and only if every version of the item could be written |
| `ItemImport.CollectedIff` | src/decision_system/connectors/import_jobs.py:618-680 | a content has been collected for the evidence bridge, by this or an earlier import, if and only if a version with its hash could be written |
| `ItemImport.NestedIdExample` | src/decision_system/connectors/import_jobs.py:641-665 | an id that names a missing directory: the first import raises after the table was updated, the next returns the content as unchanged, without version and never collected |
| `ItemImport.WrittenAt` | src/decision_system/connectors/import_jobs.py:652-665 | the written hashes are those at exactly the positions where writing succeeded, in order |
| `ItemImport.AllWrittenIff` | src/decision_system/connectors/import_jobs.py:652-665 | as many are written as recorded if and only if no write failed |
| `ItemImport.StutterFreeRuns` | src/decision_system/connectors/import_jobs.py:609-631 | what leaving out consecutive repeats means: each fetch belongs to one kept hash, neighbours to the same one if and only if they are equal |
| `ItemImport.ItemImporter.FetchItem` | src/decision_system/connectors/import_jobs.py:595-680 | one fetched content: an unchanged one changes nothing; another one goes to table, version file and collection, or raises after the table if the version file cannot be written; the table entry and the latest version carry the hash, the address, the counter, the job and the title |
| `Contents.SameHashIff` | src/decision_system/connectors/import_jobs.py:604-607 | the hash is that of the bytes, or of the encoded text if there are none; titles and file names do not matter |
| `Contents.ParsedText` | src/decision_system/connectors/evidence_bridge.py:140-142 | the text is parsed, and bytes are decoded if there is none |
| `ItemImport.ItemImporter.Register` | src/decision_system/connectors/import_jobs.py:641-665 | table first, then version file; both stay in step with all that was fetched |
| `ItemImport.ItemImporter.AgreeNew` | src/decision_system/connectors/import_jobs.py:641-665 | a new hash keeps the agreement of table, version file and fetch history |
| `ItemImport.ItemImporter.Again` | src/decision_system/connectors/import_jobs.py:492-593 | a later import works on the stores an earlier one left |
| `ResumedImport.RegisteredIff` | src/decision_system/connectors/import_jobs.py:595-711 | in a completed job that lost no item: an item counted as imported, unless the table had it before, is in the duplicate table if and only if the first leg fetched it, that is, if it lies before the checkpoint of the first resumed leg; and its content has been collected if and only if the first leg fetched it and the table did not know the content, neither from before nor from an earlier, failed call of the same visit |
| `ResumedImport.ImportJob` | src/decision_system/connectors/import_jobs.py:595-711 | a whole job, first leg, bridge and resumed legs, over any stores: an item counted as imported reaches the evidence bridge if and only if the first leg fetched it, did not fail, and the content was new when it last came |
| `ResumedImport.FirstLeg` | src/decision_system/connectors/import_jobs.py:595-680 | the visits of the first leg, each with as many calls as the retry policy makes: exactly the items of which something came back are registered; each content that counts as imported has been collected exactly when the table did not know it; what was collected is just that |
| `ResumedImport.VisitFirst` | src/decision_system/connectors/retry_policy.py:156-191 | one visit: the fetch function is called again after each exception; a content that counts as imported is collected unless the table knew it, which may be from an earlier call of the visit; if no version can be written it never is |
| `ResumedImport.BridgeCollected` | src/decision_system/connectors/import_jobs.py:690-711 | what was collected goes to the bridge, unless the loop over the batches raised; then it is dropped |
| `ResumedImport.StretchOf` | src/decision_system/connectors/batch_processor.py:109-160 | in a completed job that lost no item, each leg fetches one stretch of the list, from its checkpoint to that of the next |
| `ResumedImport.ResumedExample` | src/decision_system/connectors/import_jobs.py:857-860 | two items, the second fetched by a resumed leg: both count as imported, only the first is registered and collected |
| `ResumedImport.ResumedCountsIff` | src/decision_system/connectors/batch_processor.py:213-230 | an item of a resumed leg counts as imported exactly if the first call that did not raise brought content that is not empty |
| `ResumedImport.DroppedExample` | src/decision_system/connectors/import_jobs.py:690-766 | after a failed first leg the item is registered without evidence, and importing it again counts it as imported and leaves the evidence store empty |
| `ResumedImport.RetriedExample` | src/decision_system/connectors/import_jobs.py:641-665 | an item whose version cannot be written, retried in a leg that does not fail: it counts as imported and is registered, and the evidence store stays empty |
| `ImportedEvidence.LatestVersionShown` | src/decision_system/connectors/import_jobs.py:595-711 | over any imports, any of which may have been dropped by a failed first leg: the source of an item has the hash of the latest of its versions that reached the bridge if and only if that version is not empty; an item of which no version reached it has no source |
| `ImportedEvidence.ImportOnce` | src/decision_system/connectors/import_jobs.py:595-711 | one import, bridged or dropped, keeps collected contents, versions and evidence in correspondence |
| `ImportedEvidence.SentHashes` | src/decision_system/connectors/import_jobs.py:690-711 | the hashes sent for an item are its collected ones at exactly the positions whose import was not dropped |
| `Dedup.DuplicateDetector.CheckDuplicate` | src/decision_system/connectors/dedup.py:85-128 | unchanged if and only if the recorded hash is the same, changed if and only if it differs |
| `Dedup.DuplicateDetector.RecordImport` | src/decision_system/connectors/dedup.py:130-156 | sets the hash of the item, raises its version counter, and touches no other item |
| `Dedup.DuplicateDetector.ClearConnector` | src/decision_system/connectors/dedup.py:158-162 | empties the table of one connector only |
| `Chunking.RechunkingIsStable` | src/decision_system/data_sources/parser.py:31-131 | chunking the blank-line join of the chunks gives the same chunk texts and the same ids |
| `Chunking.ReparsingIsStable` | src/decision_system/data_sources/parser.py:825-838 | the same for the parser, which reads the text back with universal newlines |
| `Chunking.ChunkingLosesNothing` | src/decision_system/data_sources/parser.py:79-131 | the chunks joined by blank lines are the non-empty stripped paragraphs joined by blank lines |
| `Chunking.ChunkBounds` | src/decision_system/data_sources/parser.py:97-131 | a chunk of two or more paragraphs has at most 1001 characters; a chunk plus the next one's first paragraph reaches 1000; n <= 2 * total / 1000 + 1 |
| `Chunking.BlankLineSeparates` | src/decision_system/data_sources/parser.py:79-95 | two words with white space between them are two paragraphs exactly if the white space has two newlines |
| `Chunking.StripsWhite` | src/decision_system/data_sources/parser.py:93 | white space around a word, of any of the 29 characters, is stripped |
| `Chunking.WhiteHasNoChunks` | src/decision_system/data_sources/parser.py:76-77 | a text of white space has no chunks |
| `Chunking.ChunkCarries` | src/decision_system/data_sources/parser.py:104-115 | a chunk carries its text, its number, its source and its workspace |
| `Chunking.ChunkIdIff` | src/decision_system/data_sources/parser.py:31-38 | two chunks have the same id exactly if source, number and the first 200 stripped characters agree |
| `Chunking.LineEnds` | src/decision_system/data_sources/parser.py:831-835 | line ends of all three kinds are read back as one newline |
| `Chunking.ChunksAreTheGreedyGrouping` | src/decision_system/data_sources/parser.py:92-131 | the chunks are the texts of the one greedy grouping of the paragraphs |
| `Chunking.PackedIsUnique` | src/decision_system/data_sources/parser.py:97-116 | a list of paragraphs has only one greedy grouping |
| `Chunking.PackIsPacked` | src/decision_system/data_sources/parser.py:92-131 | the packer produces a greedy grouping of exactly the paragraphs, in order |
| `Chunking.SplitJoin` | src/decision_system/data_sources/parser.py:79 | splitting a join of clean paragraphs gives the paragraphs back |
| `Chunking.ParagraphsOfJoin` | src/decision_system/data_sources/parser.py:79-95 | splitting, stripping and dropping blanks is the identity on joined clean paragraphs |
| `Chunking.ParagraphsAreClean` | src/decision_system/data_sources/parser.py:79-95 | every paragraph is visible at both ends and has no separator inside |
| `Chunking.FirstBreak` | src/decision_system/data_sources/parser.py:79 | the leftmost match of the separator, and the longest one there |
| `Chunking.FirstBreakAfter` | src/decision_system/data_sources/parser.py:79 | the first separator after a clean paragraph is the blank line that was put there |
| `Chunking.Strip` | src/decision_system/data_sources/parser.py:93 | visible at both ends, and empty exactly for white space |
| `Chunking.ChunkText` | src/decision_system/data_sources/parser.py:65-131 | the loop over paragraphs gives the chunks of the greedy grouping, numbered from 0 |
| `Chunking.ParseText` | src/decision_system/data_sources/parser.py:825-838 | the chunks of a text after it has gone through a text file |
| `Chunking.VisibleHasChunks` | src/decision_system/data_sources/parser.py:76-95 | a text has chunks if and only if something in it is visible |
| `SyncState.SyncStateStore.UpsertItem` | src/decision_system/connectors/sync_state.py:87-98 | sets exactly one entry of the map that the list stands for, in place or at the end |
| `SyncState.SyncStateStore.GetItem` | src/decision_system/connectors/sync_state.py:77-85 | the first entry of an id |
| `SyncState.SyncStateStore.MarkSeen` | src/decision_system/connectors/sync_state.py:100-125 | sets hash and status of one entry; no hash given keeps the old one |
| `SyncState.SyncStateStore.MarkDeletedRemote` | src/decision_system/connectors/sync_state.py:127-139 | keeps the hash, sets the status; an unknown id is left alone |
| `SyncState.LookupIff` | src/decision_system/connectors/sync_state.py:77-85 | with unique ids an entry is found for its id if and only if it is in the list |
| `DataSources.ListingIsLatest` | src/decision_system/data_sources/store.py:115-154 | over any saves and deletes the listing has no duplicates and holds exactly the last saved value of each live id |
| `DataSources.ListingInBirthOrder` | src/decision_system/data_sources/store.py:115-154 | the listing is in the order in which the live ids were first saved |
| `DataSources.RunOps` | src/decision_system/data_sources/store.py:115-154 | a store taken through any saves and deletes lists just what these theorems speak of |
| `DataSources.DataSourceStore.Save` | src/decision_system/data_sources/store.py:115-126 | record file and index together refine setting a key of an insertion-ordered map |
| `DataSources.PutIs` | src/decision_system/data_sources/store.py:122-125 | setting a key changes the first entry with the id in place, or appends |
| `DataSources.DataSourceStore.Delete` | src/decision_system/data_sources/store.py:144-154 | and removing one |
| `DataSources.DataSourceStore.ListByWorkspace` | src/decision_system/data_sources/store.py:135-142 | the records of the index, in index order |
| `DataSources.DataSourceStore.FindByMetadata` | src/decision_system/data_sources/store.py:156-165 | the first source with the value, of whatever connector |
| `DataSources.DataSourceStore.SaveChunks` | src/decision_system/data_sources/store.py:252-256 | each chunk goes to the directory of its own source |
| `DataSources.DataSourceStore.DeleteChunks` | src/decision_system/data_sources/store.py:270-274 | empties the directory of one source |
| `EvidenceHistory.PassEvidence` | src/decision_system/connectors/evidence_bridge.py:79-163 | a pass as a fold: if no item comes twice or no text is blank, it gives each item what its contents make of it one after the other, and leaves the evidence of everything else alone |
| `EvidenceHistory.RepeatingChangesNothing` | src/decision_system/connectors/evidence_bridge.py:79-163 | repeating a call whose contents have ids and are harmless, repeated ids included, leaves sources, chunks and ids as they are |
| `EvidenceHistory.FoldTwice` | src/decision_system/connectors/evidence_bridge.py:90-137 | contents that one call has made into evidence leave it alone when they come again |
| `EvidenceHistory.OnlyTouched` | src/decision_system/connectors/evidence_bridge.py:90-161 | when all items have a source, a pass touches nothing but their sources and chunks |
| `EvidenceHistory.ChunksReplaced` | src/decision_system/connectors/evidence_bridge.py:106-161 | after such a pass the stored chunks of an item are exactly those of the text written last for it |
| `EvidenceHistory.PassInvariant` | src/decision_system/connectors/evidence_bridge.py:79-163 | whatever the contents are, a pass keeps at most one source per connector and external id |
| `EvidenceHistory.PersistOneEvidence` | src/decision_system/connectors/evidence_bridge.py:79-163 | one content changes the evidence of its own item only, under any left-over chunks |
| `EvidenceHistory.SourceTells` | src/decision_system/connectors/evidence_bridge.py:88-136 | a source keeps id, name and metadata; a new one is named by the title; a content that makes a difference leaves its hash and a source that is not archived |
| `EvidenceHistory.PersistOneAtMostOne` | src/decision_system/connectors/evidence_bridge.py:90-137 | one content never adds a second source for an item |
| `EvidenceHistory.LeftOverExample` | src/decision_system/connectors/evidence_bridge.py:144-161 | an item twice in a row, then blank: the hash of the blank text beside the chunks of the text before it |
| `EvidenceHistory.PassChunksIff` | src/decision_system/connectors/evidence_bridge.py:79-163 | exactly when a pass leaves an item with the wrong chunks: the text written last for it is blank, and the content parsed last before that in the same pass is of the same item; the hash is right in either case |
| `EvidenceHistory.ChunksRightIff` | src/decision_system/connectors/evidence_bridge.py:144-161 | the same for one content: its text is blank and left-over chunks are those of its source |
| `EvidenceHistory.LeftOverIsLastParsed` | src/decision_system/connectors/evidence_bridge.py:144-161 | the left-over chunks are those of the content parsed last in the pass, and there are none before |
| `EvidenceHistory.StaleIff` | src/decision_system/connectors/evidence_bridge.py:144-161 | and they belong to no other item |
| `EvidenceHistory.CallsEvidence` | src/decision_system/connectors/evidence_bridge.py:50-163 | over any number of calls for any connectors: an item has a source exactly when some content of it was not empty, with the hash of the latest such content and exactly the chunks of its text |
| `EvidenceHistory.CallsAtMostOne` | src/decision_system/connectors/evidence_bridge.py:50-163 | over any calls whatever, at most one source per connector and external id |
| `EvidenceHistory.BehindIsLatest` | src/decision_system/connectors/evidence_bridge.py:90-99 | the content whose text is stored has the hash of the latest content |
| `EvidenceHistory.PersistCalls` | src/decision_system/connectors/evidence_bridge.py:50-163 | calls on one store, one after the other, are what these theorems are about |
| `EvidenceBridge.PersistConnectorContent` | src/decision_system/connectors/evidence_bridge.py:50-163 | the loop takes sources, chunk directories and ids through the specified pass, without any demand on the items, and the count it returns is that of the items that changed the store |
| `EvidenceBridge.SavedChanges` | src/decision_system/connectors/evidence_bridge.py:80-136 | an item changes the store exactly if it is not empty and its hash is not the recorded one |
| `EvidenceBridge.PersistItem` | src/decision_system/connectors/evidence_bridge.py:80-163 | one step of it, with the chunk list that is left over from earlier items |
| `EvidenceBridge.FindExistingDataSource` | src/decision_system/connectors/evidence_bridge.py:30-47 | the first source of the connector and external id; none for an empty id |
| `EvidenceBridge.PersistOneWellFormed` | src/decision_system/connectors/evidence_bridge.py:79-163 | a step keeps the store well formed |
| `SyncHistory.StoresAgree` | src/decision_system/connectors/sync_runner.py:98-261 | after any sequence of successful syncs, with any syncs of other connectors in between whose ids are disjoint from those tracked: at most one source per item; its hash is that of the state list unless the content seen last was empty; its chunks are exactly those of the text behind the hash; whatever is marked deleted is archived |
| `SyncHistory.OthersKeep` | src/decision_system/connectors/sync_runner.py:212-261 | any syncs of other connectors, with ids of their own, keep the evidence of the tracked items and the order of the store |
| `SyncHistory.StateHistory` | src/decision_system/connectors/sync_runner.py:98-175 | after any sequence of successful syncs: one entry per id ever seen, the hash of the last snapshot with the id, marked deleted if and only if the latest snapshot lacks it; otherwise new if no earlier snapshot had it, unchanged if its hash is that of the last one that had it, and changed if not |
| `SyncHistory.ArchivedIff` | src/decision_system/connectors/sync_runner.py:240-261 | a source is archived if and only if its item has been missing once and has not come back changed since |
| `SyncHistory.RestoredExample` | src/decision_system/connectors/sync_runner.py:145-168 | an item that comes back unchanged is unchanged in the state list while its source stays archived |
| `SyncHistory.ArchivesOwnIff` | src/decision_system/connectors/sync_runner.py:240-261 | a sync archives the connector's own source of a gone item if and only if no source before it, of any connector, carries the external id |
| `SyncHistory.ArchiveAllIff` | src/decision_system/connectors/sync_runner.py:247-260 | what archiving some ids archives are exactly the first carriers of these ids, whatever connector they belong to |
| `SyncHistory.OtherConnectorExample` | src/decision_system/connectors/sync_runner.py:247-260 | three syncs of two connectors after which the source of the wrong one is archived |
| `SyncHistory.SyncRepeatedly` | src/decision_system/connectors/sync_runner.py:76-278 | syncs of several connectors, one after the other, are for each of them a run of these theorems; failed ones leave no trace |
| `SyncHistory.ContentIsCounted` | src/decision_system/connectors/sync_runner.py:135-151 | a content that compares as new or changed makes the bridge go ahead |
| `SyncHistory.SyncEvidence` | src/decision_system/connectors/sync_runner.py:212-261 | what one sync does to the evidence of one item |
| `SyncHistory.ArchiveAllEffect` | src/decision_system/connectors/sync_runner.py:247-260 | archiving some ids archives exactly their sources |
| `SyncHistory.GoneIff` | src/decision_system/connectors/sync_runner.py:170-175 | an id is reported as gone if and only if it was live before and is not in the snapshot |
| `SyncHistory.GoneInOrder` | src/decision_system/connectors/sync_runner.py:171-175 | what is gone is reported in the order of the state list |
| `SyncHistory.FirstWithNone` | src/decision_system/data_sources/store.py:156-165 | the search by metadata finds nothing if and only if no source has the value |
| `SyncRuns.SyncRunner.SyncConnector` | src/decision_system/connectors/sync_runner.py:76-278 | one sync: state list, schedule and evidence store go where the specification says; the counts are the numbers of contents with an id whose entry before is absent, has another hash, or has the same; a failed sync changes nothing |
| `SyncRuns.CountsTell` | src/decision_system/connectors/sync_runner.py:131-160 | the three counts are the numbers of contents with an id whose entry is absent, has another hash, or has the same hash |
| `SyncRuns.SyncRunner.MarkContents` | src/decision_system/connectors/sync_runner.py:120-168 | every content with an id is compared with the state before the sync; the last one of an id decides |
| `SyncRuns.SyncRunner.SweepGone` | src/decision_system/connectors/sync_runner.py:170-175 | what was live and is not seen is marked, in list order |
| `SyncRuns.SyncRunner.ArchiveGone` | src/decision_system/connectors/sync_runner.py:240-261 | archives the first source that carries each id |
| `SyncRuns.SyncRunner.KeepWithIds` | src/decision_system/connectors/sync_runner.py:221-223 | passes on exactly the contents with an id |
| `Schedules.RunsAreSpaced` | src/decision_system/connectors/schedule.py:35-65 | with one interval schedule, a scheduled run starts at least one interval after any earlier successful one was completed |
| `Schedules.OnlyFirstIsPutOffIff` | src/decision_system/connectors/sync_runner.py:186-191 | with several schedules, interval or cron, a sync puts a due one off if and only if it is the first of the file |
| `Schedules.SecondScheduleExample` | src/decision_system/connectors/sync_runner.py:186-191 | two hourly schedules, both due: after a sync the second is still due |
| `Schedules.OthersNeverAdvance` | src/decision_system/connectors/sync_runner.py:186-191 | however many syncs succeed, the others never change |
| `Schedules.FailedRunIsRetried` | src/decision_system/connectors/sync_runner.py:280-305 | a failed run is due again at the next poll |
| `Schedules.ScheduleStore.CreateSchedule` | src/decision_system/connectors/schedule.py:116-123 | every stored record has its next run cached |
| `Schedules.ScheduleStore.UpdateSchedule` | src/decision_system/connectors/schedule.py:125-140 | replaces the first record with the id, with its cache refreshed; nothing if there is none |
| `Schedules.ScheduleStore.DeleteSchedule` | src/decision_system/connectors/schedule.py:142-150 | removes the records with the id, and says whether there were any |
| `Schedules.WithoutKeeps` | src/decision_system/connectors/schedule.py:146 | what is left are the records at certain old positions, in order |
| `Schedules.OthersIff` | src/decision_system/connectors/schedule.py:146 | and these are exactly the positions of records with another id |
| `Schedules.ScheduleStore.ToggleSchedule` | src/decision_system/connectors/schedule.py:152-161 | flips the record with the id and refreshes its cache |
| `Schedules.ScheduleStore.ListDueSchedules` | src/decision_system/connectors/schedule.py:163-180 | the due schedules, file by file |
| `Schedules.DueListIff` | src/decision_system/connectors/schedule.py:163-180 | a schedule is listed if and only if it is stored in one of the scopes and is due |
| `Schedules.DueWhen` | src/decision_system/connectors/schedule.py:35-66 | a stored schedule is due exactly if it is enabled, its kind has an interval that counts, and that many minutes have passed since its last run or its creation |
| `Schedules.ToggledTwice` | src/decision_system/connectors/schedule.py:152-161 | a schedule that is switched off is never due, and switched on again it is as before |
| `Schedules.RanIsPutOff` | src/decision_system/connectors/sync_runner.py:186-191 | a run changes the last run and the next one, and nothing else |
| `Schedules.FindAt` | src/decision_system/connectors/schedule.py:108-114 | the search finds the first schedule with the id |
| `Schedules.ScheduleStore.FindScheduleForConnector` | src/decision_system/connectors/schedule.py:182-186 | the first schedule of the connector |
| `Schedules.ScheduleStore.NoteRun` | src/decision_system/connectors/sync_runner.py:186-191 | a successful sync advances the first schedule and no other |
| `ScheduledRuns.RunDueSchedules` | src/decision_system/connectors/sync_runner.py:307-319 | one sync for each schedule that was due at the start, with what is fetched then: its result, what it makes of the state list and the evidence store, and what all make of the schedules |
| `ScheduledRuns.SyncOne` | src/decision_system/connectors/sync_runner.py:312-317 | one attempt: result, state list, evidence store and schedules, or nothing at all |
| `ScheduledRuns.SyncedPerSchedule` | src/decision_system/connectors/sync_runner.py:307-319 | a connector is synced in one poll as often as it has due schedules |
| `ScheduledRuns.PollIsStep` | src/decision_system/connectors/sync_runner.py:307-319 | a poll takes a connector's only schedule exactly one step of the polling runs that are proved to be spaced |
| `ScheduledRuns.PollRepeatedly` | src/decision_system/connectors/sync_runner.py:307-319 | polling again and again is a polling run for a connector's only schedule |
| `Pagination.CursorChainIsPages` | src/decision_system/connectors/pagination.py:67-103 | following the cursor from page 1 ends after max(1, ceil(n / size)) pages; together they are the list; the k-th is page number k of both functions |
| `Pagination.ChainItems` | src/decision_system/connectors/pagination.py:67-103 | what the chain gives from any start: from an offset in the list the items from there on, each once and in order; from a negative one exactly the stated slices from the end |
| `Pagination.ChainPage` | src/decision_system/connectors/pagination.py:82-103 | the pages lie one page size apart, and all but the last say that there is more |
| `Pagination.CursorsAgreeIff` | src/decision_system/connectors/pagination.py:54-55 | the cursor of the other function is a page number, not an offset: the two agree only after a first page of size 2 |
| `Pagination.CursorsDifferExample` | src/decision_system/connectors/pagination.py:54-102 | the cursor of one function, followed with the other, skips an item |
| `Pagination.NextStart` | src/decision_system/connectors/pagination.py:82-102 | a cursor that was handed out is read back as the end of its page |
| `Pagination.PageTells` | src/decision_system/connectors/pagination.py:45-66 | a page says how many items there are, and with what number and size, of at least one, it was cut |
| `Pagination.PageOfAnySize` | src/decision_system/connectors/pagination.py:45-66 | the page size is cut to the largest one the caller allows and to one, and the page starts behind those before it |
| `Pagination.CursorFallsBack` | src/decision_system/connectors/pagination.py:84-93 | a cursor that cannot be read is as good as none; one that can be read makes the page number irrelevant |
| `Pagination.SliceMeans` | src/decision_system/connectors/pagination.py:95-96 | a slice from or to a negative bound counts from the end, and all bounds are cut to the list |
| `Decimal.ParsePrint` | src/decision_system/connectors/pagination.py:84-102 | reading a printed integer gives the integer |
| `Decimal.PrintedPlainly` | src/decision_system/connectors/pagination.py:102 | a printed integer has a sign only if it is negative, and starts with a zero only if it is zero |
| `Decimal.NumberIff` | src/decision_system/connectors/pagination.py:87-88 | a text is a number exactly if it is a numeral, with or without a sign, between white space |
| `Decimal.UnderscoreBetween` | src/decision_system/connectors/pagination.py:87-88 | an underscore between two numerals does not count |
| `Decimal.SpaceAround` | src/decision_system/connectors/pagination.py:87-88 | white space around a number does not matter |
| `Decimal.SignedPrint` | src/decision_system/connectors/pagination.py:87-88 | a plus sign does not matter, and a minus sign makes it negative |
| `LocalFiles.NothingIsOverwritten` | src/decision_system/connectors/local_files.py:232-276 | an import, also one that ends with an error, keeps every existing entry, and its files land on distinct new paths with the bytes of their sources |
| `LocalFiles.EachIsSorted` | src/decision_system/connectors/local_files.py:250-276 | without an error every file of the scan is imported or skipped, and one that is there from the start is imported exactly if it is to be |
| `LocalFiles.OutputPathIff` | src/decision_system/connectors/local_files.py:274-276 | the reported path is that of the copy if and only if nothing was there just before the copy |
| `LocalFiles.ReportedPathIff` | src/decision_system/connectors/local_files.py:274-276 | as it shows in the end: not there before the import, not taken by an earlier file of it, and no directory |
| `LocalFiles.ImportedTwiceExample` | src/decision_system/connectors/local_files.py:274-276 | a file imported twice is reported twice under one path |
| `LocalFiles.FileSystem.CopySafe` | src/decision_system/connectors/local_files.py:300-311 | the copy goes to the target or to the least numbered path that is free; the unbounded search ends |
| `LocalFiles.Pigeonhole` | src/decision_system/connectors/local_files.py:306-309 | n taken attempts need n existing entries, so the search stops within the number of entries |
| `LocalFiles.AttemptsDiffer` | src/decision_system/connectors/local_files.py:303-308 | no two attempts are the same path |
| `LocalFiles.NumberedInjective` | src/decision_system/connectors/local_files.py:303-308 | different counters give different names |
| `LocalFiles.NumberedParts` | src/decision_system/connectors/local_files.py:303-308 | the number goes before the suffix, which starts at the last dot, or at the end of a name that has none |
| `LocalFiles.FirstFreeUnique` | src/decision_system/connectors/local_files.py:306-309 | the path the search stops at is determined |
| `LocalFiles.TargetStaysBelow` | src/decision_system/connectors/local_files.py:139-155 | as a path of names, a target lies strictly below the output root |
| `LocalFiles.TargetPlace` | src/decision_system/connectors/local_files.py:139-155 | JSON files keep their place below the source root, all others go by category under their own names |
| `LocalFiles.OutsidePlace` | src/decision_system/connectors/local_files.py:139-155 | a file that is not below the source root goes under its own name |
| `LocalFiles.RootPlace` | src/decision_system/connectors/local_files.py:139-155 | the source root itself has no name below the root |
| `LocalFiles.SameTargetIff` | src/decision_system/connectors/local_files.py:139-155 | two files are aimed at the same path exactly if they have the same category and are the same, for JSON files, or have the same name, for others |
| `LocalFiles.TargetResolvesBelow` | src/decision_system/connectors/local_files.py:262-272 | with plain names below the source root and without symbolic links it stays there when it is resolved, so the check that would skip the file never does |
| `LocalFiles.DotsResolve` | src/decision_system/connectors/local_files.py:265-269 | a resolved path has no dots: one stays, two undo the name before |
| `LocalFiles.MakeDirsAdds` | src/decision_system/connectors/local_files.py:263 | making directories changes no existing entry and adds only directories |
| `LocalFiles.RunLocalFilesImport` | src/decision_system/connectors/local_files.py:232-276 | the loop over the scanned files does what the specification says, file by file, up to the first error |

## Left out

- Files, JSON and path names of the stores: each store is a map from its key to its content, and a write that is reached succeeds, except that any write of a version file may fail, leaving the file as it was.
- Batches.BatchProcessor.RequestCancel: sets the flag in memory that the loop reads; cancelling, pausing or confirming through another copy of the job, which the running loop may overwrite, is not modelled.
- Job fields that only describe: current item, durations, and the capped lists of errors and warnings.
- RateLimits.RateLimiter.Record429: headers arrive as parsed numbers, and the state object that is returned, which a caller could change, is not handed out.
- Retry.RateLimitErrorsAreRetried: lower-casing covers what can make a keyword appear: the ASCII letters and the Kelvin sign.
- Job fields `changed_items` and `unchanged_items`, which the code never counts, and reading the limiter's history with a limit.
- Retry.ExecuteWithRetry: the optional callback that is told about retries is not modelled; sleeping does not move the clock by more than the clock script says.
- Chunk metadata, page numbers and timestamps, and the other document formats (JSON, PDF, DOCX, XLSX, OCR).
- Chunking.FirstBreak: white space is the Unicode white space of Python 3; no other Unicode property is used.
- EvidenceBridge.PersistItem: a new source is named by the title of the content; the fall-back to file name and connector name, content types and URLs are display only. Exceptions of the store itself and indexing into the vector store are not modelled.
- DataSources.DataSourceStore.Save: the store of one workspace; time stamps are not kept, nor the notes about time and reason that archiving adds to the metadata.
- ScheduledRuns.RunDueSchedules: all due schedules belong to the workspace of the runner or to none, and are compared with one reading of the clock.
- SyncRuns.SyncRunner.SyncConnector: a missing configuration and a fetch that raises are the failures that are modelled; an evidence bridge that raises is not.
- Schedules.ScheduleStore.ListDueSchedules: unreadable files are not modelled. Times are whole seconds.
- LocalFiles.RunLocalFilesImport: the scan that chooses the files is an input; there are no symbolic links in the tree.
- Decimal.NumberIff: digits are ASCII digits, and the limit of 4300 digits is not modelled.
- ItemImport.ItemImporter.FetchItem: the metadata that is added to a content (version number, duplicate status) is not kept.
- Audit events, metrics and logging.
- Network connectors, HTTP routes, the command line, the web interface, the workflow engine, the claim store and graph extraction.
- Keyword search over chunks, uploaded files, data profiles, demo data and readiness checks: these read or write files without changing any of the states above.
