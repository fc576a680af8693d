# Agora: a verified model of its stateful cores

Agora is an async ETL runtime. This project models the parts of it whose guarantees span loops, objects and
interleavings, and proves what their code promises. `dafny verify dfyconfig.toml` checks everything.

| file | what it models |
|---|---|
| `Context.dfy`, `Stages.dfy`, `Chain.dfy` | middleware counters and success hooks; one record through all stages against one stage over all records |
| `Options.dfy` | the `Option` datatype |
| `Lifecycle.dfy` | starting, rolling back and stopping a chain |
| `ProcessPool.dfy` | worker-pool generations shared by concurrent batch tasks |
| `SchemaTypes.dfy`, `SchemaStream.dfy`, `SchemaObjects.dfy` | the type lattice, inference and evolution on values, and the same on shared column objects |
| `Json.dfy`, `Like.dfy`, `StateBackend.dfy`, `StateStores.dfy`, `LruCache.dfy` | the two state backends, LIKE escaping, membership keys, the LRU cache |
| `JaroWinkler.dfy` | greedy matching with two flag arrays and the score over it |
| `DlqReplay.dfy` | the replay loop over a durable dead-letter queue |
| `ReplayRequest.dfy` | a repair replayed across PostgreSQL and Kafka with crashes and reconciliation |
| `Scheduler.dfy` | the scheduler loop with lease gating |
| `Redaction.dfy`, `ConfigMerge.dfy` | tree rewriting: payload redaction and layered configuration |

Code that works by changing things is a class or a method with loops, proved against a specification on
values; the main theorems are lemmas about those specifications over all inputs, runs or interleavings.

## Assumptions

- Floats are reals, and clock readings do not decrease over a run.
- JSON values are a datatype with string keys; stored values survive the trip through JSON text.
- SQL statements and transactions are atomic; AUTOINCREMENT never hands out an id twice; `uuid4` names are new.
- The schema hash is injective on table, column names, types and nullability.
- User functions given to stages are pure, with an explicit value, drop or error; every record is an object of
  its own, and `==` on records stands for identity where the code keys by `id()`.
- Every stretch of code between two awaits is one atomic step.
- LIKE follows section 8.5 of ISO/IEC 9075:1992 with the comparison of two characters as a parameter.
- Name normalisation (`strip().lower()`), the printed form of a non-string header key, and `strip()` of a
  selector are parameters.
- There is one DLQ replayer at a time; pipelines may write rows while it works.
- An acknowledged publish means that the broker stored the event.

## Where the code differs from its documentation or from the obvious reading

Each point names the lemma with the input on which it shows.

- `count_prefix` and `delete_prefix` promise keys that start with the prefix; SQLite's LIKE folds ASCII case, so
  the SQLite backend also takes keys that differ in case (`StateBackend.CaseFoldingSplitsTheBackends`).
- `delete_prefix` in memory counts expired entries that were never looked at again
  (`StateBackend.DeletePrefixCountsExpired`).
- Streaming under EVOLVE and one-shot inference differ on a FLOAT column meeting an INTEGER and on a typed
  column meeting None, because merging asks `can_widen(old, new)` only in one direction
  (`SchemaStream.NoneLosesTheType`).
- DISCARD_ROW lets a None into a typed column and then turns that column to STRING
  (`SchemaStream.DiscardRowLetsNoneIn`; `SchemaStream.DiscardRowKeepsType` says exactly when a column keeps its type).
- A batch stage counts holes in `records_in`; the row path does not (`Stages.BatchStageCountsHoles`, and
  `Stages.SameCountsIff` over whole chains).
- The scheduler clears the fence only if the notification after a run is not cancelled (`Scheduler.StaleFence`),
  and a lease stays out when that happens before the release, when the hook fails after taking it, or when the
  release itself fails (`Scheduler.FailedReleaseLeaks`).
- Wiring a pipeline again after its hook was wrapped takes two leases for each run
  (`Scheduler.RewrappingStacksGates`).
- Reconciliation counts deliveries in one transaction and completes in another, guarded by the state alone, so a
  second delivery may be projected in between (`ReplayRequest.LateCompletion`); a request delivered twice can still be
  reconciled if and only if it is publishing and verified by some session (`ReplayRequest.ReconcilableIffVerified`).
- Redacting a payload twice may go further than redacting it once when a header item is named by a table
  (`Redaction.OddNamesExist`).

## Model

| member | source | states |
|---|---|---|
| `Context.PipelineContext.RegisterSuccessHook` | src/agora/core/context/_model.py:65-79 | appends one (hook, discard) entry behind the record's other ones and leaves all other records alone; conservation of all registered entries is kept |
| `Context.PipelineContext.TransferSuccessHooks` | src/agora/core/context/_model.py:81-87 | the source object's entries end behind the target's, in order, and the source has none; nothing for the same object; no entry is gained or lost |
| `Context.PipelineContext.PopSuccessHooks` | src/agora/core/context/_model.py:89-100 | hands out the success hook of each entry of the given records, each record once in order of first mention, and removes exactly those |
| `Context.PipelineContext.DiscardSuccessHooks` | src/agora/core/context/_model.py:102-125 | record by record removes the entries and runs the discard callbacks that exist, each at the place its predecessors leave it; a cancelled callback ends it and later records keep their entries |
| `Context.PipelineContext.Count` | src/agora/core/middleware/_chain.py:495-547 | one metrics increment keeps every counter equal to the tally of the logged events |
| `Context.FlattenTransfer` | src/agora/core/context/_model.py:81-87 | transferring leaves the multiset of all attached entries unchanged |
| `Context.FlattenPop` | src/agora/core/context/_model.py:89-125 | attached entries before = entries taken + entries still attached, with multiplicity |
| `Context.PoppedSnoc` | src/agora/core/context/_model.py:89-100 | popping record by record takes what popping the list takes; a repeated record gives nothing more |
| `Context.DiscardsAre` | src/agora/core/context/_model.py:102-125 | the callbacks to run are those of the entries that have one, and each comes right after those of the entries before it |
| `Stages.ExpandKeepsHoles` | src/agora/core/batch.py:172-232 | re-expansion keeps the batch length and every hole |
| `Stages.ExpandPlaces` | src/agora/core/batch.py:172-232 | the j-th result lands on the slot of the j-th live record |
| `Stages.PositionsAscend` | src/agora/core/batch.py:172-232 | live slots are dealt out in batch order |
| `Stages.BatchStageAccounts` | src/agora/core/batch.py:172-232 | when a batch stage raises, returns a wrong number of results or goes through; it counts every slot in; without errors records_in = records_out + records_dropped + holes; when it raises, exactly the live records are errors; on a wrong number nothing else is counted |
| `Stages.BatchMapPointwise` | src/agora/core/middleware/_builtins.py:183-203 | the built-in batch map over a batch: the slots of record-by-record processing when its function raises on no live record of that batch, the failure of the whole list when it does on one |
| `Stages.BatchFilterPointwise` | src/agora/core/middleware/_builtins.py:206-223 | likewise for the built-in batch filter |
| `Stages.PointwiseStage` | src/agora/core/batch.py:152-232 | compact-run-expand equals mapping `process` over the live slots if and only if the stage is pointwise on the list of live records it is given |
| `Stages.BatchValuesAreRowValues` | src/agora/core/middleware/_chain.py:236-255 | loop interchange: stage by stage over the batch gives at each slot what running that record alone gives, as long as each batch stage is pointwise on the survivors that reach it |
| `Stages.BatchRunGoesThrough` | src/agora/core/middleware/_chain.py:236-255 | for batch stages that are pointwise on a list or raise on it, the run goes through if and only if that condition holds, and otherwise ends in a batch failure |
| `Stages.RowRunStops` | src/agora/core/middleware/_chain.py:380-547 | a failed row run names the stage that raised on what the stages before it made of the record, and carries the record the run started from; a drop happens at such a stage too; a passing run has its value made by every stage in turn |
| `Stages.BatchRunStops` | src/agora/core/middleware/_chain.py:236-255 | a batch run that does not go through ends with the failure of one stage on what the stages before it left, and counts nothing after it |
| `Stages.BuiltinsAreAllOrNothing` | src/agora/core/middleware/_builtins.py:183-223 | the built-in batch map and filter are such stages |
| `Stages.SameCountsIff` | src/agora/core/middleware/_chain.py:236-255 | over a whole chain whose batch stages are pointwise on their survivors, the counting events of the batch-major run are, as a multiset, those of the record-by-record run if and only if no batch stage meets a hole or a record that would fail alone, even when stages share a name |
| `Stages.FastLog` | src/agora/core/middleware/_builtins.py:57-101 | counters accumulated locally in a fast loop equal the record-by-record counting events |
| `Stages.BatchStageCountsHoles` | src/agora/core/batch.py:172-232 | the counters of a pointwise batch stage against the row loop: holes count as records in, records that would fail alone count as dropped; equal if and only if there is neither |
| `Chain.MiddlewareChain.constructor` | src/agora/core/middleware/_chain.py:48-82 | the prefix counts say, for each position, how many earlier stages are synchronous built-ins |
| `Chain.MiddlewareChain.RangeIsSyncBuiltinFast` | src/agora/core/middleware/_chain.py:113-117 | two prefix counts decide exactly whether a range is valid, nonempty and made of synchronous built-ins only |
| `Chain.MiddlewareChain.ProcessRangeOutcome` | src/agora/core/middleware/_chain.py:380-547 | the row loop computes the chain's value, drop or failure, its counting events, its registrations and its hook table |
| `Chain.MiddlewareChain.ApplyDefault` | src/agora/core/middleware/base.py:43-61 | the default batch loop maps the stage over live slots and counts like it |
| `Chain.MiddlewareChain.ApplySyncMap` | src/agora/core/middleware/_builtins.py:57-101 | the hand-written map loop computes the same slots and counts as the row path |
| `Chain.MiddlewareChain.ApplySyncFilter` | src/agora/core/middleware/_builtins.py:135-180 | the hand-written filter loop likewise |
| `Chain.MiddlewareChain.Reexpand` | src/agora/core/batch.py:172-232 | the flag scan and the iterator loop compute the re-expansion |
| `Chain.MiddlewareChain.ApplyBatchStage` | src/agora/core/batch.py:172-232 | compact, run once, length check, re-expand, with the counters of each exit |
| `Chain.MiddlewareChain.ProcessBatchRange` | src/agora/core/middleware/_chain.py:236-255 | the stage-major loop computes the batch run of the slice and stops at the first failed batch stage |
| `Chain.MiddlewareChain.ProcessRows` | src/agora/core/middleware/_chain.py:358-378 | the record-major run over a batch, slot by slot |
| `Chain.BatchRefinesRows` | src/agora/core/middleware/_chain.py:236-255 | whole chains: when every batch stage is pointwise on its survivors, equal values at every slot, and equal counting events if and only if no batch stage meets a hole or a record that would fail alone; chains of row stages always meet both conditions |
| `Chain.RunBothWays` | src/agora/core/middleware/_chain.py:236-255 | the two executions themselves: when every batch stage is pointwise on its survivors they end with equal values, and with equal counters for every middleware if and only if no batch stage meets a hole or a record that would fail alone |
| `Chain.HooksFollowTheRecord` | src/agora/core/middleware/_chain.py:510-547 | everything attached to the input or to an intermediate object, and everything registered on the way, ends on the last object of the path and nowhere else on it |
| `Chain.AwayFromLast` | src/agora/core/middleware/_chain.py:510-547 | records off the path keep their own hooks, earlier objects of the path keep none |
| `Chain.StageHooksInOrder` | src/agora/core/middleware/_chain.py:510-547 | the hooks at the output of a stage: those it had, those registered on it, and behind them those that came from the input |
| `Lifecycle.ChainLifecycle.StartAll` | src/agora/core/middleware/_chain.py:313-348 | starts in order; a start that raises stops the failing middleware and then the started ones backwards; a cancellation rolls nothing back |
| `Lifecycle.ChainLifecycle.StopAll` | src/agora/core/middleware/_chain.py:323-332 | stops backwards, past middlewares that raise |
| `Lifecycle.StopsMirrorStarts` | src/agora/core/middleware/_chain.py:313-348 | rolled back or stopped later: the middlewares stopped are the last of those started, in the opposite order, down to the last cancelled stop; they are all of them if and only if no stop after the first middleware's is cancelled |
| `ProcessPool.RunInv` | src/agora/middlewares/process.py:152-251 | in every state of every interleaving the invalidated generations are exactly those below the current one, the registry lists exactly the in-flight tasks, and indices are distinct |
| `ProcessPool.ReturnedWhileCurrent` | src/agora/middlewares/process.py:327-380 | a batch result is returned only while its generation is current and its pool is the open one |
| `ProcessPool.RetiresOnlyItsOwn` | src/agora/middlewares/process.py:327-380 | a finishing task retires at most its own generation: recycled on timeout, aborted on cancellation |
| `ProcessPool.MovesIffOwnFailure` | src/agora/middlewares/process.py:327-380 | over every run a finishing task moves the generation if and only if its own is current and it timed out or was cancelled; a timeout leaves an open pool, or the old one closed when reopening raised, and a cancellation leaves none |
| `ProcessPool.TimeoutOpensNewPool` | src/agora/middlewares/process.py:152-185 | the pool opened after a timeout is none that any task of the run was submitted to before |
| `ProcessPool.AsksExactlyTheRetired` | src/agora/middlewares/process.py:243-251 | a timeout asks every other in-flight task of the generation it retires to cancel, a cancellation or an abort asks all of them, and nothing else asks anybody |
| `ProcessPool.FinishAnswers` | src/agora/middlewares/process.py:345-380 | how each outcome ends a batch: it returns if and only if it succeeded in the current generation, and learns of an invalidation, with its reason, if and only if its generation was retired before and it succeeded, was cancelled or failed in a worker |
| `ProcessPool.AbortCloses` | src/agora/middlewares/process.py:140-202 | an abort from outside leaves no pool and retires the generation if there was one |
| `ProcessPool.RetiredAtMostOnce` | src/agora/middlewares/process.py:152-202 | no generation is retired twice, and only the last retirement can be an abort |
| `ProcessPool.IndicesNeverReused` | src/agora/middlewares/process.py:327-380 | no two batches of a run carry the same index |
| `ProcessPool.NoOrphans` | src/agora/middlewares/process.py:243-251 | every in-flight task of a retired generation has been asked to cancel |
| `ProcessPool.AbortIsFinal` | src/agora/middlewares/process.py:187-208 | after an abort nothing opens a pool, starts a batch or moves the generation |
| `ProcessPool.ProcessPoolLifecycle.RecycleRunner` | src/agora/middlewares/process.py:152-185 | the recycling method is the recycling step, including the case where opening the new pool raises |
| `ProcessPool.ProcessPoolLifecycle.AbortInFlightBatches` | src/agora/middlewares/process.py:140-202 | the abort method is the abort step |
| `ProcessPool.ProcessPoolLifecycle.StartBatch` | src/agora/middlewares/process.py:327-345 | the stretch before the await is the begin step |
| `ProcessPool.ProcessPoolLifecycle.EndBatch` | src/agora/middlewares/process.py:345-380 | the stretch after the await is the finish step and gives the batch's result |
| `ProcessPool.ProcessPoolLifecycle.UnregisterGenerationTask` | src/agora/middlewares/process.py:229-241 | unregisters the batch and drops an empty set |
| `ProcessPool.ProcessPoolLifecycle.CancelGenerationTasks` | src/agora/middlewares/process.py:243-251 | asks every registered task of the generation to cancel, sparing the caller |
| `SchemaTypes.CanWidenIsAnOrder` | src/agora/schema/types.py:266-298 | `can_widen` is a partial order between NULL and STRING with at most four levels |
| `SchemaTypes.DetectionRules` | src/agora/schema/types.py:213-263 | the ordered `isinstance` checks give each kind of value its documented type; a bool is not an integer and a datetime is a timestamp |
| `SchemaTypes.WidenIsJoin` | src/agora/schema/types.py:301-334 | `widen_type` is the least upper bound of that order |
| `SchemaTypes.MergeAgainstWiden` | src/agora/schema/evolution.py:94-169 | merging a column type reaches the join exactly off the clashing pairs and STRING on them |
| `SchemaTypes.JoinedIsLeastUpperBound` | src/agora/schema/inference.py:143-179 | folding the inferrer's widening gives the least upper bound of the values |
| `SchemaTypes.JoinedOrderFree` | src/agora/schema/inference.py:143-179 | hence the order of the values does not matter |
| `SchemaTypes.StreamedAgainstJoined` | src/agora/schema/evolution.py:94-169 | streamed type = join or STRING; equal to the join if and only if no value clashed with the join before it, or the join is STRING |
| `SchemaTypes.RisesAtMostThrice` | src/agora/schema/evolution.py:94-169 | the streamed type changes at most three times, always upwards |
| `SchemaStream.InferredColumns` | src/agora/schema/inference.py:65-141 | a column appears iff some record has it, with the join of its value types and the number of those records |
| `SchemaStream.InferSchemaOrderFree` | src/agora/schema/inference.py:201-229 | `infer_schema` is invariant under permuting the records |
| `SchemaStream.ShortCircuitAgrees` | src/agora/schema/evolution.py:53-92 | the equal-hash short-circuit agrees with the full merge except for sample counts |
| `SchemaStream.MergeView` | src/agora/schema/evolution.py:53-211 | table, version step, column set, types, nullability and sample counts of any merge that goes through |
| `SchemaStream.StepOnSchema` | src/agora/schema/runtime.py:65-120 | one record on an existing schema: refused records change nothing; accepted ones merge column by column, add columns only under EVOLVE, and raise the version by one exactly when there were changes |
| `SchemaStream.ForwardsExactly` | src/agora/schema/runtime.py:65-120 | under DISCARD_COLUMN the forwarded record has exactly the fields that are columns of the schema, with their values; under any other contract an accepted record is forwarded as it came |
| `SchemaStream.ReportsExactly` | src/agora/schema/evolution.py:66-211 | the reported changes from record and schema alone: a differing type of a known column is a widening or a conflict as `can_widen` says, an unknown field is reported under EVOLVE only |
| `SchemaStream.ForwardsOverRuns` | src/agora/schema/runtime.py:65-120 | the same over whole runs, by the columns the run started with; outside EVOLVE no change ever names another column |
| `SchemaStream.StepCountsChanges` | src/agora/schema/runtime.py:79-114 | the metrics for observed records, widenings and conflicts count exactly those |
| `SchemaStream.StepFromNothing` | src/agora/schema/runtime.py:65-141 | the first record with a field sets schema, reported changes, version and metrics |
| `SchemaStream.FreezeAccepts` | src/agora/schema/runtime.py:99-106 | FREEZE accepts a record if and only if all its columns are known with exactly its value types, and keeps the first error |
| `SchemaStream.FreezeErrorIff` | src/agora/schema/runtime.py:65-120 | over any run under FREEZE an error is pending if and only if some record did not fit exactly the columns and types the run started with |
| `SchemaStream.DiscardRowAccepts` | src/agora/schema/records.py:21-39 | DISCARD_ROW refuses exactly the records with an unknown column or a value other than None of another type; an accepted None turns a typed column to STRING |
| `SchemaStream.DiscardRowLetsNoneIn` | src/agora/schema/records.py:29-31 | a concrete record: None in an INTEGER column passes and the column becomes STRING |
| `SchemaStream.DiscardRowKeepsType` | src/agora/schema/runtime.py:65-120 | over any run under DISCARD_ROW a column keeps its type if and only if no accepted record has None in it, or it is untyped or STRING from the start; otherwise it ends as STRING |
| `SchemaStream.NoErrorOutsideFreeze` | src/agora/schema/runtime.py:99-106 | no other contract leaves a pending error |
| `SchemaStream.StepCountsColumns` | src/agora/schema/runtime.py:108-114 | columns_added moves with the number of columns, schema_version with the schema |
| `SchemaStream.EvolveStreams` | src/agora/schema/runtime.py:65-120 | under EVOLVE a column's type is the merge in order of its value types |
| `SchemaStream.EvolveAgainstInferSchema` | src/agora/schema/inference.py:201-229 | streaming under EVOLVE against `infer_schema`: same columns, each type the one-shot type or STRING, with the exact condition for equality |
| `SchemaStream.NoneLosesTheType` | src/agora/schema/evolution.py:94-169 | a concrete stream where the two differ: INTEGER then None |
| `SchemaStream.RunKeeps` | src/agora/schema/runtime.py:57-120 | over any run: columns stay, types only rise, only EVOLVE changes the column set, FREEZE changes no type |
| `SchemaStream.RisesThriceAtMost` | src/agora/schema/runtime.py:57-120 | under every contract a column changes its type at most three times |
| `SchemaStream.MetricsFollowTheSchema` | src/agora/schema/runtime.py:57-120 | from a fresh start columns_added is the number of columns and schema_version the version |
| `SchemaStream.FirstErrorStays` | src/agora/schema/runtime.py:99-106 | the first FREEZE error is never replaced |
| `SchemaObjects.SchemaInferrer.Observe` | src/agora/schema/inference.py:65-87 | in-place observation on shared column objects has the value-level effect; new columns are new objects |
| `SchemaObjects.SchemaInferrer.ObserveField` | src/agora/schema/inference.py:106-141 | one field: create, or count, set nullable and widen in place |
| `SchemaObjects.WidenColumnType` | src/agora/schema/inference.py:143-179 | the inferrer's own widening agrees with `widen_type` |
| `SchemaObjects.SchemaInferrer.Finalize` | src/agora/schema/inference.py:181-193 | a schema over a copied dictionary that shares the column objects |
| `SchemaObjects.InferAll` | src/agora/schema/inference.py:201-229 | the inferring loop over objects computes `infer_schema` |
| `SchemaObjects.MergeKnown` | src/agora/schema/evolution.py:66-79 | the loop over the old columns, with its early exit under FREEZE |
| `SchemaObjects.HandleNew` | src/agora/schema/evolution.py:171-211 | the loop over the new columns, by contract |
| `SchemaObjects.SchemaEvolution.MergeObjects` | src/agora/schema/evolution.py:53-92 | merging on objects is merging on values and writes to no existing column |
| `SchemaObjects.SchemaProcessor.InferRecordSchema` | src/agora/schema/runtime.py:122-125 | reset before observe: no column object that existed before is written to |
| `SchemaObjects.SchemaProcessor.ProcessRecord` | src/agora/schema/runtime.py:65-120 | the object-level step is the value-level one, with the forwarded record as above, and every schema handed out earlier still says what it said |
| `SchemaObjects.SchemaProcessor.Screen` | src/agora/schema/runtime.py:69-77 | the dropped row and the cut columns before inference |
| `SchemaObjects.RecordViolatesSchema` | src/agora/schema/records.py:21-39 | the field loop with its exits decides whether a column is unknown or a non-null value has another type |
| `SchemaObjects.SchemaProcessor.LoadSchema` | src/agora/schema/runtime.py:57-63 | seeding replaces schema, pending error and metrics |
| `Like.EscapeIsCharwise` | src/agora/state/backend.py:201-203 | the three `replace` calls escape every special character exactly once |
| `Like.LikeMatchesPrefix` | src/agora/state/backend.py:201-228 | the escaped prefix plus a percent sign is a valid pattern and matches a key if and only if the key starts with the prefix under LIKE's own comparison |
| `Like.AcceptsIffMatches` | src/agora/state/backend.py:201-228 | the recursive LIKE test agrees with the partition definition of section 8.5 of ISO/IEC 9075:1992 |
| `Like.UnescapedOvermatches` | src/agora/state/backend.py:201-203 | without escaping an underscore would match another key |
| `StateBackend.AnswersFromTheTable` | src/agora/state/backend.py:78-124 | from the stored entries and the clock alone: an entry is found strictly before its expiry, a key is added if and only if none is found, counting by prefix sees the found keys and deleting all stored ones |
| `StateBackend.MemoryBackend.Get` | src/agora/state/backend.py:78-85 | lookup with lazy removal of an expired entry |
| `StateBackend.MemoryBackend.SetIfAbsent` | src/agora/state/backend.py:90-101 | stores only when the key is absent or expired |
| `StateBackend.MemoryBackend.CountPrefix` | src/agora/state/backend.py:106-118 | the counting and pruning loops compute the specified step |
| `StateBackend.MemoryBackend.DeletePrefix` | src/agora/state/backend.py:120-124 | deletes and counts all matching keys, expired ones included |
| `StateBackend.SQLiteBackend.Get` | src/agora/state/backend.py:138-152 | the SELECT and DELETE statements compute the same step |
| `StateBackend.SQLiteBackend.SetIfAbsent` | src/agora/state/backend.py:166-193 | DELETE of the expired row and INSERT OR IGNORE compute the same step |
| `StateBackend.SQLiteBackend.CountPrefix` | src/agora/state/backend.py:201-216 | DELETE of all expired rows and SELECT COUNT with LIKE compute the same step under LIKE's comparison |
| `StateBackend.SQLiteBackend.DeletePrefix` | src/agora/state/backend.py:218-228 | DELETE with LIKE computes the same step under LIKE's comparison |
| `StateBackend.StepsAgree` | src/agora/state/backend.py:78-228 | on one table and clock reading both backends answer alike if and only if LIKE sees no key that does not start with the prefix |
| `StateBackend.RunsAgree` | src/agora/state/backend.py:78-228 | over any operation sequence the answers (and tables) are the same if and only if that holds at every operation |
| `StateBackend.BackendsAgree` | src/agora/state/backend.py:78-228 | they always agree when LIKE compares the characters of every prefix used exactly |
| `StateBackend.CaseFoldingSplitsTheBackends` | src/agora/state/backend.py:201-216 | SQLite folds ASCII case: a concrete table and prefix on which the counts differ |
| `StateBackend.StepPrunes` | src/agora/state/backend.py:78-124 | one pruned step against a table that keeps everything: same answer unless `delete_prefix` meets an expired entry |
| `StateBackend.RunPrunes` | src/agora/state/backend.py:78-124 | over any run the backend refines the unpruned table; answers are the same if and only if no `delete_prefix` meets an expired entry |
| `StateBackend.DeletePrefixCountsExpired` | src/agora/state/backend.py:120-124 | a concrete table on which `delete_prefix` counts an expired entry that a `get` would have pruned |
| `StateStores.MembershipKeyStore.MarkIfNew` | src/agora/state/membership.py:28-30 | answers yes if and only if nothing unexpired is stored under the namespaced key, and then stores an entry that expires the given or else the default time after the first reading; no other key is touched |
| `StateStores.MarksApart` | src/agora/state/membership.py:28-48 | two successful marks of a key with no set or delete between are at least its time to live apart; without one the second cannot succeed |
| `StateStores.NamespacesShareAKey` | src/agora/state/membership.py:50-56 | two namespaces share a key if and only if one prefix starts with the other |
| `StateStores.ColonFreeNamespacesAreApart` | src/agora/state/membership.py:50-56 | nonempty namespaces without a colon never share a key |
| `StateStores.TTLKeyValueStore.Get` | src/agora/state/cache.py:21-25 | the value stored under the namespaced key strictly before its expiry, and null otherwise |
| `StateStores.TTLKeyValueStore.Set` | src/agora/state/cache.py:27-30 | the entry expires the given time after the reading, or else the default time, or never; no other key is touched |
| `LruCache.InMemoryLLMCache.Get` | src/agora/ai/cache.py:131-143 | lookup, order update and the type error as one step |
| `LruCache.InMemoryLLMCache.Set` | src/agora/ai/cache.py:145-152 | eviction, store and order update as one step |
| `LruCache.StepKeepsInv` | src/agora/ai/cache.py:131-152 | with max_size at least 1 the order's keys stay exactly the stored keys, at most max_size, and nothing raises |
| `LruCache.NoRoomRaises` | src/agora/ai/cache.py:145-152 | an empty cache raises on `set` if and only if max_size is at most 0 |
| `LruCache.OrderedByUse` | src/agora/ai/cache.py:131-152 | after any calls the order is by last use and agrees with the store |
| `LruCache.EvictsLeastRecentlyUsed` | src/agora/ai/cache.py:145-152 | a new key in a full cache evicts the key used longest ago and nothing else |
| `LruCache.HitReturnsLastSet` | src/agora/ai/cache.py:131-143 | every hit returns the value of the last call that set the key, before the time to live of that call is over |
| `LruCache.HitIsCertain` | src/agora/ai/cache.py:131-152 | a key set, unexpired, with fewer than max_size other keys used since, is hit |
| `JaroWinkler.SelectedSameLetters` | src/agora/utils/math.py:51-70 | the matched characters of the two strings are permutations of each other, so both flag arrays hold equally many |
| `JaroWinkler.MatchingIsMaximal` | src/agora/utils/math.py:55-66 | two characters left unmatched inside the window, counted from the longer string's length, differ |
| `JaroWinkler.FindPartner` | src/agora/utils/math.py:57-66 | the inner loop finds the first free equal character inside that window, if there is one |
| `JaroWinkler.MatchCharacters` | src/agora/utils/math.py:48-65 | the nested loops set the flags of the greedy matching and count them |
| `JaroWinkler.CountTranspositions` | src/agora/utils/math.py:70-78 | the unguarded inner loop stays inside the array, and the count is the number of places at which the matched characters differ |
| `JaroWinkler.BonusShrinksDistance` | src/agora/utils/math.py:82-89 | the prefix bonus takes a tenth of the remaining distance away for every common character |
| `JaroWinkler.JaroOrders` | src/agora/utils/math.py:79 | more matches and fewer transpositions never lower the score before the bonus, and raise it where they differ |
| `JaroWinkler.TranspositionCosts` | src/agora/utils/math.py:79 | each mismatched pair costs a sixth of its share in the matches, and when one string matches whole and in order only the share of the other length is missing |
| `JaroWinkler.MarthaAndMarhta` | src/agora/utils/math.py:79-89 | six letters with one swap and three in common at the front score 173/180 |
| `JaroWinkler.SimilarityBounds` | src/agora/utils/math.py:36-89 | the score lies in [0, 1]; it is 1 iff the strings are equal, 0 iff they differ and no equal characters are inside the window |
| `JaroWinkler.JaroWinklerSimilarity` | src/agora/utils/math.py:36-89 | the whole algorithm computes the specified similarity |
| `DlqReplay.EmptyRowsNeverRun` | src/agora/cli/commands/dlq.py:189-197 | a row that arrived without any payload, between passes or during one, is never marked, run or deleted by any passes in either mode |
| `DlqReplay.SQLiteDLQSink.Replay` | src/agora/core/dlq.py:256-289 | writes the incremented attempt back, in doubt or not, before the run |
| `DlqReplay.SQLiteDLQSink.Acknowledge` | src/agora/core/dlq.py:261-315 | deletes the record's row |
| `DlqReplay.SQLiteDLQSink.Rows` | src/agora/core/dlq.py:384-406 | selected rows in id order, cut at the limit before eligibility is looked at |
| `DlqReplay.ReplayRecord` | src/agora/cli/commands/dlq.py:171-254 | every exit of one turn of the loop, with others writing rows meanwhile |
| `DlqReplay.RunReplay` | src/agora/cli/commands/dlq.py:160-263 | the loop, its counters and the exit code, with a crash possible anywhere |
| `DlqReplay.ReplayOneKeeps` | src/agora/cli/commands/dlq.py:171-254 | wherever a turn stops and whatever rows arrive during it, every invariant holds, no other row that was there changed, and a success is one row less than arrived |
| `DlqReplay.TurnVerdict` | src/agora/cli/commands/dlq.py:171-254 | a turn succeeds if and only if the row is replayable in this mode, mark and acknowledge work, the run ends with no error and one record written, and nothing crashes; it crashes if and only if it reaches the crash |
| `DlqReplay.TurnLeaves` | src/agora/cli/commands/dlq.py:171-254 | what a turn leaves of its row: gone if and only if a good run was acknowledged, with or without an error or a crash afterwards; otherwise one attempt more if and only if the mark took effect; and exactly which entries it logs |
| `DlqReplay.PassDecides` | src/agora/cli/commands/dlq.py:160-263 | a pass from its due records and their fates: the attempts in order up to the first crash, the success count, and exactly which rows are gone |
| `DlqReplay.FetchedRows` | src/agora/core/dlq.py:380-406 | a pass fetches the stored rows of the wanted pipeline and stage in id order: all of them, or the oldest up to the limit |
| `DlqReplay.RunsReplayThePayload` | src/agora/core/dlq.py:53-67 | over any history a run replays the payload the row arrived with: the original, then the record, then the processed one in pipeline mode, the other way round in sink mode |
| `DlqReplay.ArrivalCommutes` | src/agora/cli/commands/dlq.py:171-254 | a row that arrives before a turn may as well arrive after it: same verdict and same table |
| `DlqReplay.DeletedOnlyAfterGoodRun` | src/agora/cli/commands/dlq.py:219-254 | over any passes and any arrivals between and during them a row is gone only right after a replay that wrote exactly one record without errors |
| `DlqReplay.AttemptsNeverDecrease` | src/agora/core/dlq.py:264-289 | attempts never decrease and deleted rows never come back |
| `DlqReplay.RunsWithinBudget` | src/agora/core/dlq.py:104-108 | a row is run at most max(0, m - a) times, and its runs carry increasing attempt numbers |
| `DlqReplay.CompletedPassAccounts` | src/agora/cli/commands/dlq.py:160-263 | a completed pass has attempted = succeeded + failed = eligible fetched records; at any end every success is one row less than there were and arrived meanwhile; the deleted rows and the success count are those of the fates |
| `ReplayRequest.RunKeeps` | examples/order-command-center/src/order_command_center/dlq.py:163-403 | every state of every interleaving keeps the audit and delivery invariants |
| `ReplayRequest.TrailTellsTheState` | examples/order-command-center/src/order_command_center/dlq.py:322-403 | a request's trail is one requested entry and at most one completion, present exactly in the terminal states and matching them |
| `ReplayRequest.PublishedIsDelivered` | examples/order-command-center/src/order_command_center/dlq.py:163-276 | published implies the corrected event is in the Kafka log |
| `ReplayRequest.RunForward` | examples/order-command-center/src/order_command_center/dlq.py:369-403 | publishing is left at most once, published and failed never; log, ledger and trail only grow |
| `ReplayRequest.RunIdsNeverShared` | examples/order-command-center/sql/008_dlq_replay_audit.sql:5 | over any interleaving two requests never share a run id |
| `ReplayRequest.LedgerBehindLog` | examples/order-command-center/src/order_command_center/dlq.py:240-258 | every delivery in the ledger is an event in the log |
| `ReplayRequest.ReconcileNeverPublishes` | examples/order-command-center/src/order_command_center/dlq.py:207-276 | no reconciler step touches the Kafka log or the ledger |
| `ReplayRequest.ReconcileCompletesIffProven` | examples/order-command-center/src/order_command_center/dlq.py:207-276 | an undisturbed reconcile completes a request if and only if it is publishing and the ledger proves exactly one delivery |
| `ReplayRequest.ReconcilesExactly` | examples/order-command-center/src/order_command_center/dlq.py:207-276 | the same from the tables alone: the request becomes published with a reconciled entry if and only if it is publishing and its event is the only delivery of its topic under its run id; otherwise nothing changes |
| `ReplayRequest.TwiceDeliveredNeverReconciles` | examples/order-command-center/src/order_command_center/dlq.py:240-264 | after two projected deliveries a request that no session has verified yet is never verified or reconciled later |
| `ReplayRequest.ReconcilableIffVerified` | examples/order-command-center/src/order_command_center/dlq.py:240-264 | a request delivered twice and not reconciled yet can still be reconciled by some continuation if and only if it is publishing and some session verified it before |
| `ReplayRequest.ReconciledWasProven` | examples/order-command-center/src/order_command_center/dlq.py:240-264 | a request is verified or reconciled only after a moment at which the ledger proved exactly one delivery |
| `ReplayRequest.LateCompletion` | examples/order-command-center/src/order_command_center/dlq.py:240-264 | a concrete run in which a session that counted before the second delivery completes the request after it |
| `ReplayRequest.ReconcileAmidst` | examples/order-command-center/src/order_command_center/dlq.py:207-276 | a reconcile with any other steps at its awaits decides on the ledger at the count and completes if the request is still publishing at the end |
| `ReplayRequest.InLogIffStored` | examples/order-command-center/src/order_command_center/dlq.py:406-418 | an event is in the log if and only if the broker stored the copy of an existing request or an equal event came from elsewhere |
| `ReplayRequest.FailedMayBeDelivered` | examples/order-command-center/src/order_command_center/dlq.py:188-199 | a failed request whose event is nevertheless in the log |
| `ReplayRequest.ReplayDesk.CompleteReplayRequest` | examples/order-command-center/src/order_command_center/dlq.py:369-403 | the guarded update and its audit entry, or nothing |
| `ReplayRequest.ReplayDesk.ExecuteReplay` | examples/order-command-center/src/order_command_center/dlq.py:163-204 | request, publish and completion with a crash at each await and others acting at both: the state each exit leaves; a publish that returned completes the request exactly when nobody completed it before, and otherwise raises; completed means published and delivered |
| `ReplayRequest.ReplayDesk.ReconcileReplay` | examples/order-command-center/src/order_command_center/dlq.py:207-276 | when each exit is taken and the state it leaves, with others acting before the count and before the completion |
| `ReplayRequest.ExecutionIsARun` | examples/order-command-center/src/order_command_center/dlq.py:163-204 | an execution amid any other steps is one of the interleavings |
| `ReplayRequest.ExecutionAmidst` | examples/order-command-center/src/order_command_center/dlq.py:163-204 | what an execution amid any steps of others leaves: the copies in the log and the guarded completion on the state at its end |
| `ReplayRequest.ExecutesExactly` | examples/order-command-center/src/order_command_center/dlq.py:163-204 | an undisturbed execution from the tables alone: the request, all copies in the log, and the state and entry that say how the publish went |
| `Scheduler.ScheduledPipeline.RunOnce` | src/agora/runner/runtime.py:167-210 | hook, run, record, notification and fence clearing as one tick |
| `Scheduler.ScheduledPipeline.Run` | src/agora/runner/runtime.py:74-120 | the loop stops on the stop event, on an escaped cancellation, without repetition, or at the error limit |
| `Scheduler.ScheduledPipeline.NotifyRunComplete` | src/agora/runner/runtime.py:122-134 | observers run in order past failures up to a cancellation; a failing release takes effect or not |
| `Scheduler.LeaseGating.WireLeaseGating` | src/agora/runner/worker.py:391-452 | wiring wraps the current hook once and adds one release observer |
| `Scheduler.HistoryKept` | src/agora/runner/runtime.py:48-61 | over any history the error count is the failures since the last success, ignoring lost leases, and the history is the last min(100, n) runs numbered without gaps |
| `Scheduler.LoopBoundsErrors` | src/agora/runner/runtime.py:107-120 | a loop leaves the error count at most at the limit, and a loop started at or above the limit adds at most one |
| `Scheduler.LoopTicks` | src/agora/runner/runtime.py:74-120 | the loop ticks at every moment up to the first at which the stop event is set, or after which it was cancelled, the schedule does not repeat or the errors reached the limit, and at no later one |
| `Scheduler.TickIs` | src/agora/runner/runtime.py:167-210 | everything one gated tick logs, and the fence it leaves |
| `Scheduler.TickEndsAs` | src/agora/runner/runtime.py:167-210 | a run takes place if and only if no user hook objects and the gate, if any, has the lease; the tick counts as run, as skipped or as escaped exactly on the stated answers and fates |
| `Scheduler.LeasesPaired` | src/agora/runner/worker.py:391-452 | over any history with one gate at every tick: each lease is released exactly once before the next attempt if and only if no attempt follows a leaking tick, and a lease is out exactly when some tick leaked; a tick leaks when the hook fails after the acquire, the notification is cut before the release, or the release fails |
| `Scheduler.FailedReleaseLeaks` | src/agora/runner/runtime.py:129-134 | a release that raises before the lease is returned: the tick ends like any other, the fence is cleared, the lease stays out |
| `Scheduler.FenceFollowsTheLease` | src/agora/runner/worker.py:391-452 | each run starts right after a successful acquire for its number with that lease's fence; a fence is left between runs if and only if the last tick that reached its gate ran with a lease and was cut short |
| `Scheduler.StaleFence` | src/agora/runner/runtime.py:205-208 | a notification cut short leaves a stale fence |
| `Scheduler.WiringIsIdempotent` | src/agora/runner/worker.py:391-452 | wiring again after an unchanged hook changes nothing |
| `Scheduler.WireAlways` | src/agora/runner/worker.py:391-452 | any wiring puts the current hook under one new gate object unless it is the wired one, and leaves the release observer added once |
| `Scheduler.RewiringKeepsOneGate` | src/agora/runner/worker.py:391-452 | after the user sets a hook, wiring leaves one gate if and only if that hook is the wired one or has no gate |
| `Scheduler.StaysGated` | src/agora/runner/worker.py:391-452 | without hooks set from outside a wired pipeline stays gated over any history |
| `Scheduler.TwoGatesBreak` | src/agora/runner/worker.py:391-452 | with two gates a tick breaks the pairing exactly when the outer gate is reached with the inner lease out, as it is in every run |
| `Scheduler.RewrappingStacksGates` | src/agora/runner/worker.py:391-452 | wiring around a user hook that calls the wired one stacks a second gate, and every run then breaks the pairing |
| `Redaction.RedactValue` | src/agora/core/dlq_policy.py:173-212 | the loop over a table and the list comprehensions compute the redaction |
| `Redaction.RedactHeaderItem` | src/agora/core/dlq_policy.py:215-237 | a listed header keeps everything but its value; another one is redacted inside by header names only |
| `Redaction.HeaderItemRedacted` | src/agora/core/dlq_policy.py:215-237 | from the item and the normalisation alone: an item loses its value, and nothing else, if and only if its string key, the printed form of another key, or the empty name without a key normalises to a listed name |
| `Redaction.CleanIffUnchanged` | src/agora/core/dlq_policy.py:173-237 | a tree is unchanged if and only if there was nothing to redact |
| `Redaction.RedactCleans` | src/agora/core/dlq_policy.py:173-237 | a first pass leaves nothing more to redact if and only if every unlisted header item keeps an unlisted name, and so on inside, or has a value that redacts to the masked one |
| `Redaction.RedactMasksFields` | src/agora/core/dlq_policy.py:173-212 | on every tree no listed field outside a headers list holds anything but the mask |
| `Redaction.RedactMasksHeaders` | src/agora/core/dlq_policy.py:193-237 | on every tree each header item whose key normalises to a listed name ends with the masked value and is otherwise as it was |
| `Redaction.RedactIsIdempotent` | src/agora/core/dlq_policy.py:173-237 | redacting twice is redacting once if and only if that condition holds |
| `Redaction.StringKeysAreSteady` | src/agora/core/dlq_policy.py:215-237 | it holds on every tree whose header items are named by strings |
| `Redaction.OddNamesAreRedactedAgain` | src/agora/core/dlq_policy.py:215-237 | for any rules: a name that is not a string, prints unlisted, and prints listed once redacted itself is redacted further by a second pass |
| `Redaction.OddNamesExist` | src/agora/core/dlq_policy.py:215-237 | a concrete such name for any normalisation and printing that tell it from its redacted form |
| `Redaction.RedactKeepsShape` | src/agora/core/dlq_policy.py:173-237 | along every path that meets no redacted value the same nodes and scalars are found |
| `Redaction.Apply` | src/agora/core/dlq_policy.py:112-129 | only the redacting mode changes the payload; no field whose normalised name is configured or common keeps its value outside headers lists, and no header item whose string key normalises to a configured or common header name does in one |
| `ConfigMerge.DeepMerge` | src/agora/config/pipeline.py:569-578 | the recursive loop over a copied table computes the merge |
| `ConfigMerge.EmptyIsIdentity` | src/agora/config/pipeline.py:569-578 | the empty table is a two-sided identity |
| `ConfigMerge.MergeIsIdempotent` | src/agora/config/pipeline.py:569-578 | merging a table with itself changes nothing |
| `ConfigMerge.RepeatIsAbsorbed` | src/agora/config/pipeline.py:569-578 | a repeated overlay is absorbed |
| `ConfigMerge.CoveredIsAbsorbed` | src/agora/config/pipeline.py:569-578 | merging gives back the overlay if and only if the overlay covers the base |
| `ConfigMerge.MergeAt` | src/agora/config/pipeline.py:569-578 | the lookup law for every path |
| `ConfigMerge.MergeAssociates` | src/agora/config/pipeline.py:569-578 | three layers associate if and only if, wherever the middle one puts a non-table between two tables, the last covers the first |
| `ConfigMerge.NoLeafBetweenAssociates` | src/agora/config/pipeline.py:569-578 | in particular when the middle layer has no non-table between two tables |
| `ConfigMerge.PrecedenceAt` | src/agora/config/pipeline.py:361-389 | defaults < pipeline < profile < environment at every path |
| `ConfigMerge.ResolvedAt` | src/agora/config/pipeline.py:361-390 | at every path the merged document has what its last layer that speaks about the path says |
| `ConfigMerge.ApplyNamedOverlay` | src/agora/config/pipeline.py:581-600 | no selection and no overlay leave the table; an unknown name, and only that, is an error |
| `ConfigMerge.ResolveConfigDocument` | src/agora/config/pipeline.py:336-390 | from the arguments alone: it fails if and only if a given name is blank or unknown, a default is unknown, or nothing names one of several pipelines; a given name goes before the default; and at every leaf path the last of pipeline id, document defaults, pipeline, profile and environment that speaks decides |

## Left out

- The delivery engine, writer, session, sources and sinks, which the modelled files only call.
- Rust acceleration, Arrow batches, pickling and real process pools: `runner.submit` is a step with any outcome.
- Tracing, logging, Prometheus output and timing metrics, including `total_time_ms`.
- `on_error` hooks of middlewares and the records attached to failures on the hand-written fast paths.
- Success hooks on the batch path: the fast loops do not transfer them, so the hook theorems are about the row path.
- Reuse of `id()` values after an object is collected.
- The order of dictionary entries: nothing proved here depends on it.
- SchemaStream.FirstErrorStays: on values a FREEZE error is the set of changes the merge would have made; which of several offending columns raised it, and the message, are in `SchemaObjects` only as a column name.
- Generated Pydantic models, schema serialisation, and the attribute-deleting branch of `discard_unknown_columns` for record objects.
- Backend-agnostic stores: the membership and value stores are classes over the memory backend; over SQLite the same steps apply by `StateBackend.RunsAgree`.
- `InMemoryLLMCache.close`, the SQLite cache, and cache key hashing.
- The other functions of `utils/math.py`, and floating-point rounding of the similarity.
- Concurrent DLQ replayers: two of them could write the same attempt number, so one replayer is assumed.
- Progress of a limited replay: the limit cuts before eligibility, so a pass may fetch only exhausted rows.
- Configuration of DLQ sinks and sources, run ids, and console output of the replay command.
- Validation of corrected events, listing and showing records, and payload hashes of the order command center.
- Backoff delays, schedules, live metrics callbacks, graceful stop and the health server of the runner.
- `RunFence.assert_active` and the context binding of a fence, which are single checks.
- Payload encryption.
- Pydantic validation of configuration documents before and after merging, worker overlays, and import references.
