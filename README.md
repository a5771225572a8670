# docs.rs build queue, modelled in Dafny

This project models the build queue of docs.rs (`src/build_queue.rs`). The
queue holds the crate releases that still need their documentation built and
drives the builder:

- **The `queue` table.** Each row is a release: id, name, version, priority,
  attempt count and registry.
- **The `config` table.** It holds the queue's pause flag and the last-seen
  index reference, a git object id.
- **Two metrics.** `total_builds` and `failed_builds`.

The database is replaced by values held in one object. The SQL statements
become functions over those values:

- the upsert of `add_crate`;
- the three counts;
- the ordered listing;
- the `LIMIT 1` selection;
- the delete-or-increment that follows a build.

Collaborators the queue calls out to become inputs:

- the build callback's reply;
- the replies of `update_toolchain`, `purge_caches` and `build_package`;
- the index diff;
- the priority lookups;
- the per-release upsert outcome.

Modules:

- `Common`: machine integer widths, `Option`, `Result` and the error values.
- `QueueTable`: the rows and the table's constraints (unique id and unique
  (name, version)). It also holds the meaning of every statement the queue
  issues against the table, and lemmas about them.
- `Config`: the config map; `is_locked` and `last_seen_reference`; object-id
  text and its round trip.
- `Backoff`: `retry`, as a loop proved against a function that counts its calls.
- `Changes`: the `get_new_crates` loop as a fold over the index changes, and the order of the ids it gives new releases.
- `BuildQueues`: the class `BuildQueue`. Its fields are the table, the id
  sequence, the config map and the metrics. Each method's postcondition ties
  the new state to the functions above.
- `Scenarios`: the repository's unit tests, restated as methods on the class whose postconditions are the tests' assertions.

Two points of interpretation:

- **Ids.** The table's id column is a PostgreSQL serial. The serial advances
  on every `INSERT`, including one that takes the `ON CONFLICT` branch. So
  `AddCrate` always consumes `nextId`, and an updated row keeps its old id.
- **Ties in the selection.** `NextCrate` picks the minimum under
  (priority, attempt, id). Ids are unique, so that minimum is unique. The
  recursion's choice among ties therefore never shows.

## Model

| member | source | states |
|---|---|---|
| QueueTable.IsPending | src/build_queue.rs:92 | a row is offered while attempt < max_attempts, the filter of `pending_count`, `queued_crates` (line 118) and the selection (line 152); `CountsPartition` shows the failed filter of line 108 is its complement |
| QueueTable.KeyLe | src/build_queue.rs:119 | `ORDER BY priority ASC, attempt ASC, id ASC` (also line 153) as a comparison; `KeyLeOrders` proves it a total order that puts the smaller id first at equal priority and attempt |
| QueueTable.KeyLeOrders | src/build_queue.rs:119 | the selection order is reflexive, total and transitive, only rows equal in priority, attempt and id compare both ways, and at equal priority and attempt it compares the ids |
| QueueTable.WellFormed | src/build_queue.rs:77-80 | the table's constraints: ids drawn from the serial, all below its next value and distinct, and (name, version) unique, the conflict target of line 80; `Upsert` and `SettleKeepsWellFormed` keep it |
| QueueTable.Lookup | src/build_queue.rs:80 | the found position holds the release (name, version); `None` only when no row holds it |
| QueueTable.Upsert | src/build_queue.rs:77-86 | afterwards exactly one row holds (name, version), with the given priority and registry and attempt 0; it keeps its old id when the release was queued, else takes the next id; every other row is kept; the table stays well formed and grows by one only for a new release |
| QueueTable.UpsertNew | src/build_queue.rs:77-79 | a release not in the table is appended with the next id and attempt 0 |
| QueueTable.UpsertExisting | src/build_queue.rs:80-84 | a queued release keeps its id and position; only its priority, registry and attempt (reset to 0) change |
| QueueTable.UpsertKeeps | src/build_queue.rs:77-86 | every release that was queued before an upsert is still queued after it, under the same id |
| QueueTable.UpsertKeepsAbsent | src/build_queue.rs:77-86 | an upsert of one release never makes another release, not queued before, appear |
| QueueTable.PendingCount | src/build_queue.rs:90-96 | at most the number of rows; zero exactly when no row has attempt < max_attempts |
| QueueTable.PrioritizedCount | src/build_queue.rs:98-104 | at most the number of rows; zero exactly when no pending row has priority ≤ 0 |
| QueueTable.FailedCount | src/build_queue.rs:106-112 | at most the number of rows; zero exactly when every row is pending |
| QueueTable.CountsPartition | src/build_queue.rs:90-112 | pending_count + failed_count is the number of rows |
| QueueTable.PrioritizedWithinPending | src/build_queue.rs:98-104 | prioritized_count ≤ pending_count, with equality exactly when no pending row has priority > 0 |
| QueueTable.CountsConcat | src/build_queue.rs:90-112 | the three counts and the remaining-attempts measure add up over a split of the table |
| QueueTable.RemainingAttempts | src/build_queue.rs:176-191 | the attempts left over all pending rows, at least one per pending row, so at least pending_count |
| QueueTable.RemainingAttemptsBound | src/build_queue.rs:176-191 | the attempts left are at most pending_count × max_attempts |
| QueueTable.Pending | src/build_queue.rs:118 | holds exactly the pending rows; its length is pending_count |
| QueueTable.InsertByKey | src/build_queue.rs:119 | the result is a permutation of the input plus the new row |
| QueueTable.InsertSorted | src/build_queue.rs:119 | inserting into a sequence in (priority, attempt, id) order keeps that order |
| QueueTable.SortByKey | src/build_queue.rs:119 | the result is in (priority, attempt, id) order and is a permutation of the input |
| QueueTable.QueuedRows | src/build_queue.rs:114-121 | the rows behind `queued_crates` are sorted by (priority, attempt, id) and are a permutation of the pending rows; the count is pending_count, and a row is listed exactly when it is pending |
| QueueTable.SameHead | src/build_queue.rs:119 | two arrangements of the same rows in (priority, attempt, id) order, ids distinct, start with the same row |
| QueueTable.SortedUnique | src/build_queue.rs:119 | rows with distinct ids have exactly one arrangement in (priority, attempt, id) order |
| QueueTable.QueuedRowsUnique | src/build_queue.rs:114-121 | any arrangement of the pending rows in (priority, attempt, id) order with distinct ids is the listing |
| QueueTable.Row.Crate | src/build_queue.rs:158-164 | the `QueuedCrate` of a row carries the row's id, name, version, priority and registry, as the same projection in `queued_crates` (lines 125-131) does |
| QueueTable.QueuedCrates | src/build_queue.rs:114-133 | as many crates as pending rows, in non-decreasing priority |
| QueueTable.ListedIsPending | src/build_queue.rs:114-133 | every listed crate is the projection of a pending row |
| QueueTable.PendingIsListed | src/build_queue.rs:114-133 | every pending row's crate is listed |
| QueueTable.QueuedCratesArePending | src/build_queue.rs:114-133 | a crate is listed exactly when some pending row projects to it |
| QueueTable.NextCrate | src/build_queue.rs:148-167 | `None` exactly when no row is pending; otherwise a pending row that precedes every pending row in (priority, attempt, id) |
| QueueTable.NextIsFirstQueued | src/build_queue.rs:148-167 | the selected row is the head of the `queued_crates` listing; there is no selection exactly when the listing is empty |
| QueueTable.Settle | src/build_queue.rs:176-187 | the `DELETE` after a success leaves one row fewer, the attempt increment after a failure as many rows; `SettleSucceeded` and `SettleFailed` state which rows |
| QueueTable.RetiresRow | src/build_queue.rs:189-191 | true exactly when the build failed and the incremented row is no longer pending, that is attempt + 1 ≥ max_attempts |
| QueueTable.SettleKeepsWellFormed | src/build_queue.rs:176-194 | deleting or incrementing the built row keeps ids and releases unique |
| QueueTable.SettleSucceeded | src/build_queue.rs:177-179 | on success exactly the built row is gone: one row fewer, its release no longer in the table, every other row kept |
| QueueTable.SettleFailed | src/build_queue.rs:180-191 | on failure only the built row changes: same crate, attempt + 1; it stays pending exactly when the failure does not retire it |
| QueueTable.SettleSucceededCounts | src/build_queue.rs:176-179 | a successful build lowers pending_count by one, leaves failed_count unchanged and lowers the remaining-attempts measure |
| QueueTable.SettleFailedCounts | src/build_queue.rs:180-191 | a failed build moves the row from pending to failed exactly when attempt + 1 reaches max_attempts; the remaining-attempts measure decreases |
| QueueTable.SettleDrains | src/build_queue.rs:176-191 | one build of a pending row, successful or not, lowers the attempts left |
| QueueTable.ProcessAll | src/build_queue.rs:135-200 | the table after one `process_next_crate` call per outcome, in order, with no additions in between; it never grows |
| QueueTable.ProcessAllDrains | src/build_queue.rs:135-200 | at least as many calls as there are attempts left leave no row pending, whatever the outcomes |
| QueueTable.QueueDrains | src/build_queue.rs:135-200 | without new additions, pending_count × max_attempts calls of `process_next_crate`, whatever their outcomes, leave no row pending |
| Config.HexValue | src/build_queue.rs:55 | a character has a value exactly when it is a hexadecimal digit of either case |
| Config.HexDigit | src/build_queue.rs:65 | the digit written for a value reads back as that value |
| Config.DecodeHexSucceeds | src/build_queue.rs:55 | decoding succeeds exactly on all-hexadecimal text |
| Config.DecodeEncodeHex | src/build_queue.rs:55-65 | decoding the written digits gives the digits back |
| Config.ParseOid | src/build_queue.rs:55 | the text parses exactly when it is one to forty hexadecimal digits |
| Config.OidText | src/build_queue.rs:65 | an object id is written as forty digits |
| Config.OidRoundTrip | src/build_queue.rs:55-65 | an id parsed from its own text is the same id |
| Config.ReadBool | src/build_queue.rs:209 | the typed boolean read: `Ok(None)` exactly when the entry is absent, an error exactly when it holds text, `Ok(Some(b))` exactly when it holds the boolean b |
| Config.ReadText | src/build_queue.rs:54 | the typed string read: `Ok(None)` exactly when the entry is absent, an error exactly when it holds a boolean, `Ok(Some(t))` exactly when it holds the text t |
| Config.IsLocked | src/build_queue.rs:206-210 | false when the flag was never set; an error exactly when the entry holds text; otherwise true exactly when the stored flag is true |
| Config.LastSeenReference | src/build_queue.rs:52-58 | `None` when no cursor is stored; a stored boolean is a type-mismatch error; a stored text gives a value exactly when it parses as an object id, and that value is the parsed id |
| Config.LockRoundTrip | src/build_queue.rs:206-222 | after `lock` / `unlock`, `is_locked` reads back true / false |
| Config.ReferenceRoundTrip | src/build_queue.rs:52-68 | after `set_last_seen_reference(oid)`, `last_seen_reference` gives `oid` |
| Config.EntriesIndependent | src/build_queue.rs:52-68 | writing the cursor never changes `is_locked`; writing the pause flag never changes `last_seen_reference` |
| Backoff.Pow2 | src/build_queue.rs:233 | 2^k, the seconds `2u32.pow(attempt)` sleeps; at least 1 |
| Backoff.Pow2Grows | src/build_queue.rs:233 | 2^j ≤ 2^k for j ≤ k |
| Backoff.Pow2Add | src/build_queue.rs:233 | 2^(j + k) = 2^j · 2^k |
| Backoff.Pow2Of31 | src/build_queue.rs:233 | 2^31 = 0x8000_0000 |
| Backoff.Pow2Fits | src/build_queue.rs:233 | `2u32.pow(k)` fits in a `u32` for every k ≤ 31, so a budget of at most 31 retries never overflows |
| Backoff.RetryCalls | src/build_queue.rs:225-246 | the call count lies in 1..max_attempts + 1; every earlier call failed; the last call succeeded unless the budget ran out |
| Backoff.RetryResult | src/build_queue.rs:225-246 | the reply of some call k ≤ max_attempts made after k failed calls: either a success, or the failure of the last permitted call |
| Backoff.RetryFailsIffAllFail | src/build_queue.rs:225-246 | `retry` fails exactly when all max_attempts + 1 calls fail |
| Backoff.Retry | src/build_queue.rs:225-246 | returns the reply of the first successful call, or the last error after max_attempts + 1 failures; never more calls than that; sleeps 2^k seconds after failed call k, for each k that is retried |
| Changes.Reverse | src/build_queue.rs:260 | the reversal has the batch's length; `ReversePermutes` and `ReverseTwice` state its contents |
| Changes.ReversePermutes | src/build_queue.rs:260 | the reversed batch holds the same changes, each as often |
| Changes.ReverseTwice | src/build_queue.rs:260 | reversing twice gives the batch back |
| Changes.Step | src/build_queue.rs:262-325 | handling one change keeps the table's constraints |
| Changes.Ingest | src/build_queue.rs:256-325 | handling the batch keeps the table's constraints |
| Changes.StepFailure | src/build_queue.rs:289-290 | a change stops the batch exactly when the batch is still running and it is an addition whose priority lookup fails |
| Changes.IngestFailureLast | src/build_queue.rs:262-290 | a batch is stopped after its last change exactly when it was stopped before it, or that change is an addition whose lookup fails; the error is the earlier one, else that lookup's |
| Changes.IngestStops | src/build_queue.rs:289-290 | the batch stops exactly when some addition's priority lookup fails |
| Changes.IngestStopsAtFirst | src/build_queue.rs:289-290 | a stopped batch reports the error of the first addition whose priority lookup failed |
| Changes.IngestCountsAdds | src/build_queue.rs:292-313 | a batch that runs to the end counts exactly the additions whose upsert succeeded |
| Changes.IngestTouchesOnlyAdded | src/build_queue.rs:262-325 | yanks, deletions and failed upserts leave the queue alone: a row no accepted addition names is present after the batch exactly when it was present before |
| Changes.IngestEnqueuesAdded | src/build_queue.rs:289-313 | after a batch that runs to the end, every accepted addition has its row in the queue |
| Changes.IngestAfterStop | src/build_queue.rs:290 | once the batch has stopped, the remaining changes change nothing |
| Changes.StepAppends | src/build_queue.rs:289-311 | an accepted addition of a release not yet queued appends its row, with the next id and attempt 0, and counts one more added crate |
| Changes.IngestAppends | src/build_queue.rs:262-311 | a running batch whose next change is an accepted addition of a new release appends that release's row and keeps running |
| Changes.StepNextId | src/build_queue.rs:289-311 | a change takes one id from the sequence exactly when the batch is running and it is an accepted addition, none otherwise |
| Changes.IngestNextIdGrows | src/build_queue.rs:262-325 | the id sequence never goes back during a batch |
| Changes.IngestKeepsId | src/build_queue.rs:262-325 | a queued release keeps its id through the rest of the batch |
| Changes.IngestKeepsAbsent | src/build_queue.rs:262-325 | a release not queued before the batch stays out of the table until an accepted addition names it |
| Changes.IngestStaysStopped | src/build_queue.rs:290 | once a prefix of the batch has stopped, every longer prefix has the same outcome |
| Changes.IngestRanThrough | src/build_queue.rs:290 | a batch that runs to the end was running after every prefix of it |
| Changes.IngestFirstAdd | src/build_queue.rs:289-311 | in a batch that runs to the end, the first accepted addition of a release new to the queue gives it the id the sequence offers at that point and consumes that id |
| Changes.IngestFirstId | src/build_queue.rs:262-325 | that release still holds that id at the end of the batch |
| Changes.IngestIdsInOrder | src/build_queue.rs:262-325 | releases new to the queue end the batch with ids in the order their first accepted additions were processed |
| Changes.IngestNewIdsInOrder | src/build_queue.rs:262-325 | the same order, with the two ids left unnamed |
| Changes.ReverseFirstAdded | src/build_queue.rs:260 | an addition named once in the diff, processed newest first, comes at the mirrored position and nowhere before it |
| Changes.NewerDeliveredFirst | src/build_queue.rs:258-311 | of two releases new to the queue, each named by one change of the diff and both accepted, in a batch that runs to the end, the one delivered later gets the smaller id |
| Changes.NewerSelectedFirst | src/build_queue.rs:258-311 | under the same conditions, when the two rows end with equal priority and attempt, the selection order takes the row of the later-delivered release strictly first |
| BuildQueues.KindOf | src/build_queue.rs:346-350 | crates.io exactly when the row has no registry; otherwise the registry with the row's URL |
| BuildQueues.Maintenance | src/build_queue.rs:352-381 | fails with the update's error when the retried toolchain update fails; succeeds when the toolchain is unchanged; after a change, succeeds exactly when the retried purge succeeds, else fails with the purge's error |
| BuildQueues.MaintenanceFails | src/build_queue.rs:352-381 | the environment check fails exactly when all four toolchain updates fail, or when the toolchain changed and all four cache purges fail |
| BuildQueues.RunMaintenance | src/build_queue.rs:352-381 | returns the environment check's outcome; `update_toolchain` is called as often as `retry` calls it, and `purge_caches` only after an update that changed the toolchain |
| BuildQueues.BuildQueue.constructor | src/build_queue.rs:37-50 | a new queue over an empty database with the configured attempt budget |
| BuildQueues.BuildQueue.AddCrate | src/build_queue.rs:70-88 | the table becomes the upsert of the old table, and one id is consumed |
| BuildQueues.BuildQueue.Finish | src/build_queue.rs:175-194 | counts one build; deletes or increments the built row; counts a failed build exactly when the failure retires the row |
| BuildQueues.BuildQueue.ProcessNextCrate | src/build_queue.rs:135-200 | with no pending row, the callback is not called and nothing changes; otherwise the callback gets the selected row's crate, and table and metrics change as `Finish` says |
| BuildQueues.BuildQueue.Lock | src/build_queue.rs:213-216 | stores the pause flag as true and nothing else |
| BuildQueues.BuildQueue.Unlock | src/build_queue.rs:219-222 | stores the pause flag as false and nothing else |
| BuildQueues.BuildQueue.SetLastSeenReference | src/build_queue.rs:60-68 | stores the id's forty-digit text as the cursor and nothing else |
| BuildQueues.BuildQueue.AddChanges | src/build_queue.rs:262-325 | table, id sequence, added count and stopping error are those of the fold over the changes |
| BuildQueues.BuildQueue.ApplyChange | src/build_queue.rs:263-324 | table, id sequence, added count and stopping error after one change are those of one step of the fold |
| BuildQueues.BuildQueue.GetNewCrates | src/build_queue.rs:253-336 | a failing diff changes nothing; otherwise the changes are folded newest first; a stopped batch returns its error and leaves the cursor alone; a batch that runs to the end stores the cursor, then returns the added count, or the error of the bookmark write |
| BuildQueues.BuildQueue.BuildNextQueuePackage | src/build_queue.rs:341-388 | returns true exactly when a row was pending. If the retried environment check fails, the build is not started, the queue is locked and the attempt counts as failed. Otherwise `build_package` gets the row's name, version and registry kind, and its reply decides the outcome |
| Scenarios.AddAndProcess | src/build_queue.rs:449-525 | rows are taken in the order foo, bar, baz, bar, medium, standard, low ×3, then none are left; 9 builds and 1 failed build are counted |
| Scenarios.DuplicateLastPriorityWins | src/build_queue.rs:396-409 | adding a release twice lists it once, with the second priority |
| Scenarios.DuplicateResetsAttempts | src/build_queue.rs:412-446 | re-adding a retired release makes it pending again, with attempt 0 and the new priority |
| Scenarios.PendingCounts | src/build_queue.rs:528-546 | pending_count reads 0, 1, 2, then 1 after foo is built |
| Scenarios.PrioritizedCounts | src/build_queue.rs:549-569 | prioritized_count reads 0, 1, 2, 2, then 1 after bar is built |
| Scenarios.FailedCounts | src/build_queue.rs:572-602 | failed_count stays 0 through foo's three failures, then reads 1, and stays 1 after bar is built |
| Scenarios.QueuedInPriorityOrder | src/build_queue.rs:605-633 | the listing is foo (-10), bar (0), baz (10) |
| Scenarios.QueueLock | src/build_queue.rs:669-683 | `is_locked` reads false, true after `lock`, false after `unlock` |
| Scenarios.LastSeenReferenceStored | src/build_queue.rs:636-653 | no cursor at first; a stored cursor reads back as the same id; the pause flag stays false |
| Scenarios.BrokenReference | src/build_queue.rs:656-666 | a cursor stored as "invalid" makes `last_seen_reference` fail |
| Scenarios.NewestVersionBuiltFirst | src/build_queue.rs:258-335 | for a diff adding versions 1.0.0, 1.1.0 and 1.2.0 of one crate, all three are queued, 1.2.0 is built first and the cursor is stored |
| Scenarios.ToolchainFailureLocks | src/build_queue.rs:352-364 | a toolchain that never updates locks the queue, starts no build and counts a failed attempt |
| Scenarios.BuildAfterRetriedUpdate | src/build_queue.rs:346-383 | a toolchain update that succeeds on its second call, then a cache purge, lets the build start with the crate's registry; the queue stays unlocked |

## Left out

- Concurrency: `FOR UPDATE SKIP LOCKED` across several build servers, and transaction commit and rollback. The model is one worker, and `process_next_crate` is one atomic step.
- Failures of the database and its connection pool (`self.db.get()?`, a failing statement, commit). Their `?` paths are not modelled. The exception is `get_new_crates`, whose upsert failures are an input, because the loop reports and skips them.
- A failing `lock()` inside the build callback. The model assumes the write succeeds.
- Logging, `report_error` and the error context strings.
- `thread::sleep`. `Retry` records the durations in a ghost sequence instead.
- The yank statement and `delete_crate`. They change the `releases` and `crates` tables and storage, which are not part of this model. Their reported failures do not affect the queue.
- `get_crate_priority`, `index.diff()`, `peek_changes()` and `diff.set_last_seen_reference`. Their replies are inputs.
- `RustwideBuilder::update_toolchain`, `purge_caches` and `build_package`. Their replies are inputs; the build's input is taken as given.
- `get_config` and `set_config` (in `src/utils`) are not part of this model. The config table is a map from `ConfigName` to a boolean or a string. A typed read of an entry of the other kind is an error.
- Config.ParseOid: `git2::Oid::from_str` is not part of this model. It is modelled on libgit2's rule: one to forty hexadecimal digits of either case, with the missing trailing digits zero.
- Backoff.Retry: `2u32.pow(attempt)` overflows for attempt ≥ 32. The model's `Pow2` is unbounded. `Pow2Fits` shows it fits a `u32` up to 31; the only callers pass 3, so the overflow cannot happen there.
- QueueTable.Upsert: ids are unbounded naturals. The `i32` id column's overflow after 2^31 inserts is not modelled.
- Metrics registry internals and serde serialisation of `QueuedCrate`. The metrics are two natural counters.
