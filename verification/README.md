# Verified models of a photo-finding service

Attendees of an event find the photographs they are in. Photographers upload an album, workers index
the faces in it, a search ranks photographs by face similarity, a signed link keeps the result, and
everything is erased when the album's retention date passes. A separate labelling and evaluation
toolchain measures the two similarity thresholds the search runs on.

This project models those parts in Dafny and proves what they promise. Loops, in-place arrays and
classes whose methods rewrite tables follow the program's own form; each such method is proved equal
to a function of the state before it, and the theorems are about that function, over all inputs, all
states or all runs. SQL functions and transactions are atomic steps, time is an integer, similarities
are reals, and whatever the outside world decides (which rows another transaction has locked, whether
a delete fails, what the detector finds) is a parameter.

`dafny verify dfyconfig.toml` checks everything.

## The modules

- **Clustering.** `Dbscan` is the worklist loop over a neighbour matrix, for any order of popping, and
  the order-free description of its result; `DbscanFacts` shows that description has one solution, and
  what it means with two samples; `ClusterEvent` is the per-event rebuild.
- **Both queues.** `Claims` is what they share: which rows a claim takes and in what order. `Wrappers`
  has the option and result types.
- **Ingest queue.** `Ingest` has the tables and statements; `IngestRuns` puts any number of workers,
  crashes and uploads into one transition system; `IngestLeases`, `IngestAlbum`, `IngestPhotos`,
  `IngestDrain` and `IngestFaces` prove exclusion, readiness and counters, what a photo's status says of its job,
  claim bounds and backoffs, and whose face rows and previews a photo has; `IngestLateReports` and `IngestLateBackoff` have the runs in which a late report does harm.
- **Retention and storage deletion.** `StorageKeys`, `StorageGc`, `StorageGcRounds` (rounds of the worker
  and when they end), `StorageGcWorker`, `StorageGcRuns`, `StorageGcWaits` (leases and backoffs), `StorageGcForeign` (a run with another bucket).
- **Thresholds and ranking.** `Scoring` and `Selection` measure, `Ranking` applies, `RankingFacts`
  relates the two.
- **Keep-links.** `Bytes` (hexadecimal, UUID text per section 4 of RFC 9562, base64url per section 5 of
  RFC 4648), `ResultLink` (layout, signing, opening), `KeepLink` (a link over an album's life, opt-outs).
- **Labelling.** `Labelling`, `LabellingFacts`, `LabelInit`, `LabelExport`, `Dataset`,
  `LabelExportFacts`, `LabelSession`, `LabelWitness` (a session whose export is refused).
- **Search limit.** `RateLimit`.

## What the code does that its text does not say

- `storage_gc` promises to run until the queue drains. It stops after a batch that deletes nothing and
  dead-letters nothing, and a batch is like that exactly when every claimed row's delete breaks with
  attempts to spare (`RoundStallsIff`; an empty batch is one). The loop does not sleep between batches, so
  such a row, once claimed, is not due again before it ends: with rows due at first, and each row's delete
  answering the same every time, it drains the queue exactly when no pending row at the start has a delete
  that breaks and attempts to spare (`BriskDrainedIff`). A worker that waited out every backoff would drain
  it exactly when no non-empty batch is all such rows (`PacedDrainedIff`). `ExitsWithBacklog` is a queue of
  one row that is left, with exit code 0.
- `drain_once` reads a row's bucket and does not use it: it deletes in the worker's own bucket. A row of
  another bucket is reported done with its object in place (`DoneButPresentIffForeign`), and
  `EmptyBacklogObjectPresent` is a run from nothing that ends with an empty backlog and the object there.
  The program itself records photos in one bucket only, the constant `event-photos`, which is also the
  worker's; another takes a rename or a row written by hand. So the one-bucket assumption under which
  complete erasure is proved holds for what the program writes.
- `finish_ingest_job` and the heartbeat do not look at `locked_by`. A late report breaks a lease exactly
  when it trespasses on one (`FinishSafeIffNoTrespass`), breaks readiness exactly when it reopens a
  ready event (`FinishStatusIff`) and breaks a counter exactly when the photo was already counted in it
  (`SuccessKeepsSumIff`). `LateReportTrespasses`, `ReadyButNotQuiet` and `CountedTwice` are runs in which
  each happens. Runs that report running jobs only are always right (`RunningAlbum`).
- `claim_ingest_jobs` does not look at `max_attempts`. A job is never claimed more often than allowed
  exactly as long as no claim takes over one whose attempts are spent (`RunWithinIff`); workers that die
  can have one claimed any number of times (`ClaimsUnbounded`).
- A job's backoffs total at most 2^max_attempts - 2 seconds in every run that reports running jobs only
  (`DrainBound`), and in any other run the excess is at most what failures reported late add
  (`BackoffsAccounted`). `LateFailureWaitsLonger` is a run without a crash in which a job allowed 30
  seconds waits 32.
- An event with no tier-2 faces left returns early from the rebuild and keeps its old clusters.
- An empty prediction counts as precision 1. The high threshold is one that predicts nothing exactly when
  such a one is on the grid before any whose counts reach the target (`HighIsVacuousIff`);
  `HighIsVacuous` is a case.
- Face and event ids come back from a keep-link letter for letter exactly when they were written in lower
  case with hyphens in the usual places (`SameTextIff`).
- A keep-link is said to live no longer than its album. The clock is read twice and both readings are
  rounded down, so it does exactly when more time passes between them than the rounding drops
  (`OutlivesIff`); one millisecond can do (`OneMillisecondOutlives`).
- Label keys join photo and person with `|`. A pair shares its key with another, and splitting the key
  loses text, exactly when one of its ids has a bar (`KeySharedIff`, `SplitKeyIff`).
- A label added by hand for a photograph the album does not have passes the exporter's problem list, and
  the loader then refuses the dataset (`UnknownPhotoIsRefused`; `WrittenButRefused` is such a session).
- The search limit is checked before the search and counted after it: with `C` requests in flight an
  hour can hold `limit - 1 + C` searches, and some run reaches that (`BoundIsMet`).

## Model

| member | source | states |
|---|---|---|
| Dbscan.DbscanCosine | ml/faceapp_ml/clustering.py:43-77 | the array it returns is a clustering in the order-free sense: core rows share a label exactly when core neighbours link them, any other row takes the least label among its core neighbours or is noise if it has none, ids are in order of first core row |
| Dbscan.GrowCluster | ml/faceapp_ml/clustering.py:65-74 | the in-place loop, duplicates included, equals the growth of one cluster that always pops the last element |
| Dbscan.VisitPoint | ml/faceapp_ml/clustering.py:67-74 | one popped row: marks it, labels it if unlabelled, extends the queue by its unlabelled neighbours when it is core and new |
| Dbscan.GrowCompletes | ml/faceapp_ml/clustering.py:64-75 | popped in any order, growing ends with every begun cluster complete: its core neighbours all labelled, other rows on the least label among their core neighbours |
| Dbscan.ScanClusters | ml/faceapp_ml/clustering.py:55-77 | popped in any order, the whole scan ends in a clustering |
| DbscanFacts.Canonical | ml/faceapp_ml/clustering.py:55-77 | any two clusterings of one graph are the same labels |
| DbscanFacts.AnyOrderSameLabels | ml/faceapp_ml/clustering.py:66-72 | whichever element of the worklist is popped at each step, the labels of the scan are the same |
| DbscanFacts.ComponentsAtTwo | ml/faceapp_worker/cluster.py:74-75 | with two samples noise is exactly the isolated rows and two rows share a cluster exactly when a walk over neighbours joins them |
| DbscanFacts.CoreIffNotIsolated | ml/faceapp_ml/clustering.py:60-62 | with two samples a row is core exactly when it has another neighbour, so there are no border rows |
| DbscanFacts.ShrinkingRefines | ml/faceapp_ml/clustering.py:47-49 | with two samples a smaller eps only splits clusters |
| DbscanFacts.TightCoresStayTogether | ml/faceapp_ml/clustering.py:47-49 | for any sample count, cores clustered together under a smaller eps stay together under a larger one |
| ClusterEvent.Store.Rebuild | ml/faceapp_worker/cluster.py:60-108 | clusters of the event become the components of at least two faces, the returned counts are the clusters and the non-isolated faces, other events keep theirs, and no faces means nothing changes |
| ClusterEvent.Store.InsertAll | ml/faceapp_worker/cluster.py:90-106 | one cluster row for each label, its members pointed at it, and the running count is the members placed |
| ClusterEvent.NoGaps | ml/faceapp_worker/cluster.py:75 | every label below the top one is used, so the distinct labels are 0 up to it |
| Ingest.Store.Claim | supabase/migrations/20260827090400_ingest_jobs.sql:60-94 | the batch is the first claimable, unlocked jobs in run_after, id order; exactly those are marked running with one more attempt and a new lease |
| Ingest.Store.Heartbeat | ml/faceapp_worker/repo.py:86-103 | every listed running job, whoever runs it, gets the new lease; nothing else changes |
| Ingest.Store.FinishJobRow | supabase/migrations/20260827090400_ingest_jobs.sql:106-184 | a success leaves the job done and its photo indexed, a failure with the attempts spent leaves it failed and its photo dead-lettered, any other failure puts both back with the backoff; the event's counters and status with them, and an unknown id changes nothing |
| IngestPhotos.PhotosFollowJobs | supabase/migrations/20260827090400_ingest_jobs.sql:123-168 | in every run a photo is under way exactly when its derivatives were recorded since the last report of its job, and otherwise failed means dead-lettered, done means indexed, open means waiting |
| IngestPhotos.FailureListIff | src/lib/events.ts:237-250 | in every run the list of failures is exactly the photos whose job failed and no late worker has begun since, and the photo of a pending or running job is waiting or under way |
| Ingest.Store.ProcessOne | ml/faceapp_worker/ingest.py:63-128 | a missing original changes nothing; otherwise the photo records derivative keys made of its own, its face rows become the detected ones, and nothing else changes |
| IngestFaces.DonePhotosHavePreviews | ml/faceapp_worker/repo.py:107-128 | in every run a done photo records its own preview and thumbnail keys, and no photo ever records any other |
| Ingest.Store.ReplaceFaces | ml/faceapp_worker/repo.py:130-163 | the photo's rows are exactly the new ones, all other photos keep theirs |
| Ingest.Store.InsertPhoto | src/app/api/events/[id]/upload/route.ts:85-106 | photo, job and counter together for a new key, nothing for a stored one, and the result says which; the new job can be claimed at once |
| Ingest.Backoff | supabase/migrations/20260827090400_ingest_jobs.sql:154-159 | never above ten minutes nor above the power of two |
| IngestLeases.LeasesExclude | supabase/migrations/20260827090400_ingest_jobs.sql:70-93 | in every run where workers report within their lease, no claim returns a job under another worker's live lease and no two workers hold one job, although whole batches are renewed |
| IngestLeases.RunKeepsLeases | ml/faceapp_worker/ingest.py:160-214 | such runs keep every lease a worker relies on backed by its row |
| IngestLeases.FinishSafeIffNoTrespass | supabase/migrations/20260827090400_ingest_jobs.sql:123-168 | a report keeps all leases if and only if nobody else holds the job; matching locked_by is enough |
| IngestLeases.RenewSafeIffNotShorter | ml/faceapp_worker/repo.py:93-103 | a renewal by anyone is safe if and only if it ends no lease before the holder was promised |
| IngestAlbum.BooksAlwaysBalance | supabase/migrations/20260827090400_ingest_jobs.sql:128-142 | in every run an event's counters are its photos' sums plus exactly what later successes of the same photo replaced |
| IngestAlbum.SuccessKeepsSumIff | supabase/migrations/20260827090400_ingest_jobs.sql:134-142 | a success keeps each of the two counters equal to its sum if and only if the photo was not counted in it before |
| IngestAlbum.FinishStatusIff | supabase/migrations/20260827090400_ingest_jobs.sql:170-180 | a report keeps every event's status right if and only if it does not send a job of a ready event back |
| IngestAlbum.RunningAlbum | supabase/migrations/20260827090400_ingest_jobs.sql:123-180 | in every run that reports running jobs only, ready means all jobs done or failed, and the counters are the sums |
| IngestAlbum.TimelyReportsRunning | ml/faceapp_worker/ingest.py:181-210 | reporting within the lease implies reporting running jobs only |
| IngestAlbum.TimelyAlbum | ml/faceapp_worker/ingest.py:181-210 | hence timely workers keep readiness and counters right |
| IngestAlbum.UploadsConverge | src/app/api/events/[id]/upload/route.ts:68-110 | whatever batches arrive, in any order and however often, and whatever workers do: one photo and one job per distinct key, and photo_count is that number |
| IngestAlbum.ReuploadChangesNothing | src/app/api/events/[id]/upload/route.ts:85-94 | sending a delivered key again changes nothing, a ready event stays ready |
| IngestDrain.TakeWithinIff | supabase/migrations/20260827090400_ingest_jobs.sql:72-86 | a claim keeps every job within its attempts if and only if none of the claimed ones has spent them, and one that has is a running job taken over |
| IngestDrain.RunWithinIff | supabase/migrations/20260827090400_ingest_jobs.sql:145-167 | throughout a run, takeovers and late reports included, no job is claimed more than max_attempts times and a failed one exactly that often, if and only if no claim takes over a job whose attempts are spent |
| IngestDrain.FirstHandSpares | supabase/migrations/20260827090400_ingest_jobs.sql:76-79 | runs without takeovers are among those |
| IngestDrain.BackoffsAccounted | supabase/migrations/20260827090400_ingest_jobs.sql:145-167 | in every run, whatever crashes, takeovers and late reports, a job's backoffs total at most 2^max_attempts - 2 seconds plus those of failures reported when it was not running |
| IngestDrain.DrainBound | supabase/migrations/20260827090400_ingest_jobs.sql:154-163 | so in every run that reports running jobs only they total at most 2^max_attempts - 2 seconds |
| IngestDrain.TimelyDrainBound | ml/faceapp_worker/ingest.py:181-210 | and so for workers that report within their leases |
| IngestDrain.DueAgainIff | supabase/migrations/20260827090400_ingest_jobs.sql:153-167 | after a failure with attempts to spare the job can be claimed exactly from two to the power of its attempts, ten minutes at most, after the report |
| IngestDrain.NoClaimBeforeBackoff | supabase/migrations/20260827090400_ingest_jobs.sql:73-79 | and whatever other workers claim or report late in between, nobody claims it sooner |
| IngestLateBackoff.LateFailureWaitsLonger | supabase/migrations/20260827090400_ingest_jobs.sql:145-167 | a run without crashes, with a takeover and two failure reports for it, in which a job of five attempts waits 32 seconds |
| IngestDrain.ClaimsUnbounded | supabase/migrations/20260827090400_ingest_jobs.sql:72-83 | with dying workers some run claims a job any given number of times |
| IngestLateReports.LateReportTrespasses | ml/faceapp_worker/ingest.py:181-210 | a timely run in which a lease lapses, the job is taken over, and the first worker's report then breaks the second's lease |
| IngestLateReports.ReadyButNotQuiet | supabase/migrations/20260827090400_ingest_jobs.sql:153-180 | a run in which a worker that had barely begun reports its failure late, leaving a ready event with a pending job |
| IngestLateReports.CountedTwice | supabase/migrations/20260827090400_ingest_jobs.sql:139-142 | a run whose late success report makes an event's face count twice its photos' sum |
| Claims.FirstBatch | supabase/migrations/20260827090400_ingest_jobs.sql:72-83 | the first candidates in key, id order up to the limit |
| Claims.BatchUnique | supabase/migrations/20260827090600_storage_gc.sql:47-56 | the rows that qualify and the limit determine a claim's batch |
| IngestFaces.RowsFromOneCall | ml/faceapp_worker/ingest.py:100-128 | in every run a photo's face rows are none or exactly those of one detection, never a union |
| IngestFaces.DonePhotosComplete | ml/faceapp_worker/repo.py:130-163 | with a deterministic detector every done photo has exactly faces_indexed rows, the detector's, in every run |
| StorageKeys.KeysCarryEvent | src/app/api/events/[id]/upload/route.ts:81 | original, preview and thumbnail keys all begin with their event's id |
| StorageKeys.OriginalKeyInjective | src/app/api/events/[id]/upload/route.ts:74-81 | two uploads to one event share a key only if hash and extension agree |
| StorageKeys.OriginalsAreNotDerivatives | ml/faceapp_worker/ingest.py:58-60 | no original is named like a preview or thumbnail of any event |
| StorageGcWorker.Store.RunRetention | supabase/migrations/20260827090200_retention.sql:98-149 | the due events, earliest first up to the limit, are gone; each returned row counts the photos and faces its event had and the queue rows that now name it; the rows added are of exactly the objects those photos recorded, none queued before, due at once |
| StorageGcWorker.Store.DueEvents | supabase/migrations/20260827090200_retention.sql:98-104 | the events past their date, earliest first, up to the limit |
| StorageGcWorker.Store.RetireOne | supabase/migrations/20260827090200_retention.sql:106-141 | one event: its recorded keys are queued once each, one audit row with its photos, its faces and the rows added, the event gone |
| StorageGc.RetireAllProves | supabase/migrations/20260827090200_retention.sql:106-137 | retiring any events in turn adds one proof for each, with the photos and faces it had and the number of queue rows that name it |
| StorageGc.RetireAllQueues | supabase/migrations/20260827090200_retention.sql:110-123 | and the queue grows by rows of the objects their photos recorded, each object once, none forgotten |
| StorageGcWorker.Store.Claim | supabase/migrations/20260827090600_storage_gc.sql:45-65 | the batch is the oldest pending rows that are due, under no lease in force and not locked, all of them if the limit allows; exactly those get an attempt and a lease |
| StorageGcWorker.Store.Finish | supabase/migrations/20260827090600_storage_gc.sql:91-122 | done, dead-lettered once the attempts are spent, or due again after two to their power, an hour at most; an unknown id changes nothing |
| StorageGcWaits.LeaseExcludes | supabase/migrations/20260827090600_storage_gc.sql:45-65 | in every run a claimed row that is not reported is not claimed again before its lease has run out |
| StorageGcWaits.NoClaimBeforeBackoff | supabase/migrations/20260827090600_storage_gc.sql:104-117 | in every run a row whose delete failed with attempts to spare is not claimed before its backoff is over |
| StorageGcWorker.Store.DrainRow | ml/faceapp_worker/storage_gc.py:57-92 | delete and report one row: done only with the object absent, unusable keys dead-lettered at once |
| StorageGcWorker.Store.DrainOnce | ml/faceapp_worker/storage_gc.py:44-98 | the returned counts are the rows that left pending for done and failed, both zero if and only if every claimed row's delete broke with attempts to spare; only claimed keys leave the bucket, and every claimed row that is done has its object absent |
| StorageGcWorker.Store.RunWorker | ml/faceapp_worker/storage_gc.py:147-173 | at most pending + 1 batches, none stalls but the last, exit code 1 exactly with dead letters; with rows due at first it drains the queue if and only if no pending row's delete breaks with attempts to spare, and a healthy store is drained |
| StorageGcRounds.RoundStallsIff | ml/faceapp_worker/storage_gc.py:57-92 | a batch leaves the pending count as it was if and only if every claimed row's delete breaks with attempts to spare |
| StorageGcRounds.BriskDrainedIff | ml/faceapp_worker/storage_gc.py:147-161 | with rows due at first and no look as late as the shortest backoff after a report, the worker leaves nothing pending if and only if no pending row at the start has a delete that breaks and attempts to spare |
| StorageGcRounds.PacedDrainedIff | ml/faceapp_worker/storage_gc.py:44-98 | for batches that wait out every backoff in between: if and only if no non-empty batch was all such rows |
| StorageGcRounds.OneTrace | ml/faceapp_worker/storage_gc.py:147-161 | the rounds are determined by the queue at first and what the worker meets |
| StorageGcRounds.HealthyDrains | ml/faceapp_worker/storage_gc.py:147-161 | a store that always works, with rows always due, is drained and nothing dead-lettered |
| StorageGcRounds.ExitsWithBacklog | ml/faceapp_worker/storage_gc.py:158-160 | the witness: one failing delete ends the loop with its row still pending and nothing dead-lettered |
| StorageGc.CountUpdate | supabase/migrations/20260827090600_storage_gc.sql:138-147 | how one row's change moves the backlog's counts |
| StorageGcRuns.LiveEventsUntouched | supabase/migrations/20260827090200_retention.sql:110-141 | in every run no delete ever targets a key of a live event |
| StorageGcRuns.RunNamed | ml/faceapp_worker/ingest.py:58-60 | in every run live events record only keys with their own id and queued keys carry a deleted event's |
| StorageGcRuns.ErasureComplete | supabase/migrations/20260827090600_storage_gc.sql:138-147 | in every interleaving of retention, workers, failures, expired leases and stale reports, a retired object still present has a row not done; so an empty backlog means nothing is left |
| StorageGcRuns.RunSafe | ml/faceapp_worker/storage_gc.py:56-92 | in every run a row is done only if its object is absent |
| StorageGcRuns.DoneButPresentIffForeign | ml/faceapp_worker/storage_gc.py:57-59 | deleting and reporting a row leaves it done and its object present if and only if it names another bucket |
| StorageGcForeign.EmptyBacklogObjectPresent | ml/faceapp_worker/storage_gc.py:57-59 | a run from an empty database, for any event, photo and other bucket, that ends with an empty backlog and the retired object still present |
| Scoring.ScorePairs | ml/eval/metrics.py:71-87 | every cell is the maximum over the photograph's qualifying faces and the first face attaining it, or none |
| Scoring.Sweep | ml/eval/metrics.py:132-160 | one row per grid point: tp, fp and fn are the numbers of true pairs found, wrong pairs predicted and true pairs missed; recall is the found share of the true pairs (0 if none), precision the true share of the predictions (1 if none), f1 their harmonic mean |
| Scoring.UnreachableIs | ml/eval/metrics.py:163-182 | the unreachable rate is the share of the true pairs with no score or one below the floor, 0 if there are none |
| Scoring.SweepFalls | ml/eval/metrics.py:139-147 | a higher threshold predicts a subset: counts and recall never rise, and tp + fn stays the number of true pairs |
| Scoring.RecallCeiling | ml/eval/metrics.py:163-182 | from the floor up, recall is at most one minus the unreachable rate |
| Scoring.MoreTiersDominate | ml/eval/metrics.py:71-87 | more tiers never lower a score |
| Scoring.DominatedCounts | ml/eval/run.py:124-142 | all-tier counts are at least the tier-2 counts at every threshold |
| Selection.RunSweeps | ml/eval/run.py:124-142 | both sweeps hold the true best scores of their tiers, run over one grid, and the grid is extended exactly when nothing on it reaches the target |
| Selection.Grid | ml/eval/metrics.py:126-129 | the swept values ascend, none below the start |
| Selection.PickHigh | ml/eval/metrics.py:337-346 | the lowest threshold reaching the precision, none exactly when there is none |
| Selection.HighestEligible | ml/eval/metrics.py:365-367 | the highest eligible threshold |
| Selection.ChosenPair | ml/eval/select_thresholds.py:113-139 | on one ascending grid inside (0, 1) the chosen pair always satisfies 0 < low <= high < 1, each is optimal, and the fallback is taken exactly when recall is out of reach |
| Selection.HighIsVacuousIff | ml/eval/metrics.py:145 | the chosen high threshold predicts nothing if and only if such a threshold is on the grid with every earlier one's counts short of the target |
| Selection.HighIsVacuous | ml/eval/metrics.py:337-346 | the witness: one appearance without a face in the index and one wrong pair scored between two thresholds, and the second is chosen |
| Ranking.Rank | src/lib/search.ts:255-312 | every photograph with a kept face is in exactly one list once, with its first best face, that face's bucket and the number of its faces that reach a threshold, and the lists are sorted by rank |
| Ranking.Group | src/lib/search.ts:257-274 | the map holds each photograph's first best kept face and how many are kept |
| Ranking.SortByRankSorts | src/lib/search.ts:301-302 | the stable sort by rank is descending |
| Ranking.BoostIsSmall | src/lib/search.ts:327-340 | the boost is between 0 and 0.05 |
| Ranking.BoostRises | src/lib/search.ts:327-340 | of two faces the one at least as large and as central, and more of one, gets the higher boost; without the photograph's measures there is none |
| Ranking.EqualScores | src/lib/search.ts:314-344 | of two photographs whose best faces score the same, the one before is never outshone in size and centrality by the one behind it |
| RankingFacts.RankingMeetsSweeps | src/lib/search.ts:255-299 | confident and maybe together are what the all-tier sweep predicts at the low threshold; confident is what the tier-2 sweep predicts at the high one minus exactly the photographs whose first best face is tier 1 |
| RankingFacts.SameBestFace | src/lib/search.ts:269-272 | ranking and evaluation pick the same face |
| RankingFacts.BoostOnlyReordersNearTies | src/lib/search.ts:314-326 | in neither list is a match before one scoring more than 0.05 above it |
| Bytes.UuidRoundTrip | src/lib/resultlink.ts:58-75 | sixteen bytes survive the text form, which is canonical |
| Bytes.UuidTextRoundTripIff | src/lib/resultlink.ts:58-75 | a UUID's text survives the bytes if and only if it was canonical |
| Bytes.HexAt | src/lib/resultlink.ts:58-65 | two digits make a byte, the high one first |
| Bytes.Base64RoundTrip | src/lib/resultlink.ts:114-120 | any bytes survive the link text |
| ResultLink.SignResultLink | src/lib/resultlink.ts:100-115 | the buffer filled by offset is the layout of the first sixty ids followed by its MAC; a bad expiry or id is an error |
| ResultLink.VerifyResultLink | src/lib/resultlink.ts:117-159 | the checks in order, the first failing one named, else the parsed fields |
| ResultLink.SignedLayout | src/lib/resultlink.ts:30-37 | byte by byte: version 1, the expiry high byte first, the event, the number of ids, and the first sixty ids in order |
| ResultLink.SignedOpens | src/lib/resultlink.ts:100-159 | what was signed opens to the event, the first sixty ids in order and the expiry until it expires |
| ResultLink.SignedTokenOpens | src/lib/resultlink.ts:100-159 | the same through the link text, and signing succeeds exactly for well-formed ids and a 32-bit expiry |
| ResultLink.SameTextIff | src/lib/resultlink.ts:58-75 | the ids come back letter for letter if and only if they were canonical |
| ResultLink.AcceptedIff | src/lib/resultlink.ts:117-159 | a buffer opens to a link if and only if it is byte for byte that link's own unexpired encoding with its MAC |
| ResultLink.EqualLinksEqualBuffers | src/lib/resultlink.ts:117-159 | two accepted buffers with equal contents are equal |
| KeepLink.LinkThroughout | src/lib/search.ts:167-217 | after any opt-outs, re-indexing, status changes and retirement, the opened link shows of the first sixty confident photographs exactly those whose face was not deleted and whose photo is indexed, each once; no other photograph; only faces of the link's own event, and none near any exclusion |
| KeepLink.LinkUnchangedAlbum | src/app/api/search/route.ts:264-281 | with the album unchanged each of the first sixty confident photographs is shown exactly once |
| KeepLink.StillShownIff | src/lib/search.ts:195-204 | a face shown at first is shown after a run if and only if nothing in the run deleted it and its photo is indexed at the end |
| KeepLink.LinkIsMadeIff | src/app/api/search/route.ts:269-281 | making the link fails only for an expiry outside 32 bits |
| KeepLink.ExpiryIs | src/app/api/search/route.ts:273-280 | the expiry is the album's date plus the time between the two clock readings less exactly what the two roundings or the week's cap drop, and within a week of signing |
| KeepLink.OutlivesIff | src/app/api/search/route.ts:273-280 | a link outlives its album if and only if more time passes between the two clock readings than the two roundings, or the week's cap, drop |
| KeepLink.OneMillisecondOutlives | src/app/api/search/route.ts:273-280 | the witness: readings one millisecond apart |
| KeepLink.LinkOpensIff | src/app/e/[slug]/photos/page.tsx:42-99 | a link made by a search opens, whatever happened to the albums since, if and only if it has not expired, the door is its own album's and that album still exists |
| KeepLink.Registry.OptOut | src/app/api/optout/route.ts:72-98 | the faces in the radius are gone, the exclusion is registered, the counter lowered but not below zero, and the reported numbers are the faces and photographs affected |
| KeepLink.OptOutCountIff | src/app/api/optout/route.ts:86-89 | the counter agrees with the rows afterwards if and only if it did before, or was too low and every face of the event is within the radius |
| Labelling.State.Perform | ml/eval/label.py:525-572 | each route's effect on the document, and exactly when it is refused |
| Labelling.State.Move | ml/eval/label.py:540-549 | appended to the target, removed from the old group, record updated; refused with the document possibly half changed |
| Labelling.State.RecomputeLabels | ml/eval/label.py:405-428 | labels become the proposals of named, undropped groups and the human additions, less the removals |
| Labelling.Server.HandlePost | ml/eval/label.py:497-508 | a refused action leaves the stored document alone, an accepted one is recomputed and stored |
| Labelling.ApplyKnows | ml/eval/label.py:525-572 | no action makes a group list an unknown face |
| LabellingFacts.LastWordDecides | ml/eval/label.py:405-428 | after any history a pair is human-added if its last explicit action was an add, absent if a remove, else present exactly when proposed |
| LabellingFacts.LabelsFromHistory | ml/eval/label.py:525-572 | every label of a session as a function of the actions alone: the last word, or else some face and group that the actions put together under that name |
| LabellingFacts.HistoryDecides | ml/eval/label.py:525-549 | every group's name and every face's group are functions of the actions |
| LabellingFacts.GroupClaimsIff | ml/eval/label.py:527-538 | a group speaks for somebody if and only if the last action that named it or dropped it named it after them; taking it back brings no name |
| LabellingFacts.PeopleFromHistory | ml/eval/label.py:531-561 | after any session a person's selfies are those last picked, whatever groups were named after them, a person is known if and only if named or picked for, and a task is as last marked |
| LabellingFacts.RunKeepsGrouped | ml/eval/label.py:540-549 | after any history each face is in exactly the one group its record names, once |
| LabellingFacts.ProposedIff | ml/eval/label.py:412-421 | a key is proposed if and only if a named, undropped group lists a face of that photograph |
| LabellingFacts.SplitKeyIff | ml/eval/label.py:678 | splitting a key gives the pair back if and only if neither id has a bar |
| LabellingFacts.KeyInjective | ml/eval/label.py:424 | without a bar in the photograph's id a key names one pair |
| LabellingFacts.KeySharedIff | ml/eval/label.py:552 | a pair shares its key with another if and only if one of its ids has a bar |
| LabelInit.Init | ml/eval/label.py:274-320 | the starting document groups exactly the faces with another within eps, two share a group exactly when joined, no group is smaller than two, bigger groups first, and records and lists agree |
| LabelInit.GroupByLabel | ml/eval/label.py:282-288 | for each non-negative label its faces in album order |
| LabelInit.MakeGroups | ml/eval/label.py:289-296 | one numbered group per label, biggest first, holding exactly the faces with that label, and each record names the group of its label |
| LabelInit.NumberedInjective | ml/eval/label.py:235 | numbered ids are distinct and have no bar |
| Dataset.LoadDataset | ml/eval/dataset.py:137-223 | the accepted dataset or the first complaint |
| Dataset.ReadPhotos | ml/eval/dataset.py:155-163 | the photo ids in order, or the first one seen twice |
| Dataset.ReadLabels | ml/eval/dataset.py:181-194 | the truth the label rows add up to, or the first row naming an unknown photograph or person |
| Dataset.TruthOkIff | ml/eval/dataset.py:182-194 | the label rows are accepted if and only if every row read names a known photograph and an enrolled person |
| Dataset.TruthContents | ml/eval/dataset.py:181-194 | a photograph is in a person's truth if and only if some row read says so |
| LabelExport.ExportDataset | ml/eval/label.py:652-738 | nobody is named; or exactly everybody named without an image or without a label left is complained of; or the files, with the photographs not held out, and a manifest that counts the hand-added and the other labels outside the held-out photographs, the removals and the photographs held out, ready exactly when a hand-added label is left |
| LabelExport.WriteSelfies | ml/eval/label.py:613-649 | a person's own files if any, else one cut for each known chosen face, named after its place among those chosen, and exactly the photographs cut from |
| LabelExportFacts.LoaderAcceptsIff | ml/eval/label.py:666-703 | what passes the problem list is accepted if and only if every label left names a photograph left and nobody's labels are all blank |
| LabelExportFacts.LoadedTruth | ml/eval/dataset.py:181-194 | the loaded truth is exactly the labels outside held-out photographs |
| LabelExportFacts.ManifestMatchesTruth | ml/eval/label.py:682-738 | from_clusters + human_added is the number of label rows and of appearances loaded |
| LabelExportFacts.CountsAddUp | ml/eval/label.py:683-685 | the counts by source add up to the labels |
| LabelExportFacts.NoHeldOutSurvives | ml/eval/label.py:668-669 | no photograph an enrolment image was cut from is in the exported photos or labels |
| LabelExportFacts.UnknownPhotoIsRefused | ml/eval/label.py:551-554 | a label for a photograph not in the album makes the exported dataset one the loader refuses |
| LabelWitness.WrittenButRefused | ml/eval/label.py:697-711 | a session, on any disk with enrolment images, whose export passes the problem list and is refused by the loader |
| LabelWitness.SomeExportRefused | ml/eval/dataset.py:182-186 | there is such a disk, so some export is written without a complaint and refused |
| LabelWitness.InitialisedAlbum | ml/eval/label.py:274-320 | the album that session starts from is what initialising leaves of one photograph with one face |
| LabelSession.SessionLoads | ml/eval/label.py:652-738 | after any session with clean names on an initialised album, whatever is exported is accepted, its truth is the session's labels outside held-out photographs, and the manifest adds up to it |
| LabelSession.SessionManifest | ml/eval/label.py:682-746 | of any session, human_added is the number of labels outside the held-out photographs whose last explicit action is an add, from_clusters that of the labels never decided, human_removed that of the pairs last removed, held_out_photos that of the photographs cut from, and the dataset is ready exactly when an added label is left |
| LabelSession.InitIsFresh | ml/eval/label.py:235-320 | an initialised document has clean, distinct photo ids and nothing named or labelled, which is what a session starts from |
| LabelSession.SessionLabels | ml/eval/label.py:525-572 | in such a session every label is of a known photograph and a clean name |
| LabelSession.RunIsSettled | ml/eval/label.py:655 | reopening or exporting a session's document recomputes nothing new |
| RateLimit.SearchLogs.Admit | src/app/api/search/route.ts:133-159 | admitted exactly when the number of the visitor's rows later than an hour ago, refusals apart, is below the limit; only a refusal is logged at once |
| RateLimit.SearchLogs.CountRecent | src/app/api/search/route.ts:134-141 | the number of the visitor's rows later than an hour ago, whatever came of the search, refusals apart |
| RateLimit.EveryOutcomeCounts | src/app/api/search/route.ts:166-245 | a search that ends, whatever its outcome, adds one to its own visitor's hour; refusals, other visitors' searches and everything else add nothing |
| RateLimit.HourlyBound | src/app/api/search/route.ts:133-150 | with at most C requests between check and log, no hour holds more than limit - 1 + C searches, in every interleaving |
| RateLimit.SequentialBound | src/app/api/search/route.ts:237-245 | one at a time never exceeds the limit |
| RateLimit.BoundIsMet | src/app/api/search/route.ts:133-150 | for every limit and C some run with at most C in flight reaches the bound |

## Left out

- Youth events and their attestation, which can make `finish_ingest_job` raise; opt-outs inside the ingest model.
- READ COMMITTED races below one SQL statement. Rows another transaction holds are a set of row numbers the claim skips.
- Deleting photos or events by hand. Retention enqueues recorded keys, so the erasure theorem is about recorded keys, and retired keys are taken never to be written again.
- Embedding arithmetic, centroids, image derivatives, the quality gate: similarities, neighbour matrices and detections are inputs. Centrality of a face is a given number between 0 and 1.
- The approximate index and the 500-row limit of a search: the ranking theorems hold for whatever rows arrive.
- Rounding: grid points to four digits, report ratios to six.
- HMAC internals: the MAC is any function to sixteen bytes. Node's tolerance for characters outside the base64url alphabet is modelled by skipping them; its handling of `+`, `/` and `=` is not.
- The order of photographs on an opened link (`taken_at`, id), URL signing, `topScore`, `facesConsidered`.
- The audit row of an opt-out. `run_retention`'s slug, jurisdiction and time in the audit row; timestamps and error texts of finished rows.
- The order of the list of failures and its limit of a hundred photos.
- The `--forever` loop, polling, signals beyond a stop flag, connection failures while claiming.
- JSON, CSV and TOML text; the case folding of a dataset's `kind`; lighting slices; the candidate list of the review screen; file paths beyond not being blank.
- The order of exported rows: the library sort is any listing of a set without repeats.
- Unicode white space beyond Latin-1 in `strip`.
- The order of equally large groups after initialising: the sort is stable by its definition, which no theorem states.
- Failures of the exporter on a face key it cannot find or an image it cannot read.
- A request without a required field and an unknown route are one refused action.
- Labelling.Server.HandlePost: a null and an empty group or person are one value, because the code treats both as absent.
- StorageGcRuns.ErasureComplete: assumes photos are recorded in the workers' bucket, as the program's own uploads are; without that it is false, as the run of `EmptyBacklogObjectPresent` shows.
- KeepLink.LinkThroughout: assumes generated face ids never repeat and distance is symmetric.
- RateLimit.HourlyBound: starts from an empty log, and the clock of the log is the clock of the check.
