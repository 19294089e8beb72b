# Verification of the BigQuery adapter's stateful core

This project models the parts of the adapter in which mistakes are hard to see by
reading one function, and proves what they promise together.

**Change-metadata pooler.** Any number of pooling runs, ensure-fresh readers and table
writers share one gateway database: an append-only log of change windows, checkpoints, and
one advisory lock per lock key. `PoolerSteps` states one run's decision and the step
protocol; a run is a sequence of enabled steps, with the clock, the `CHANGES` replies, the
finish times and every failure left open. `PoolerInvariant` and `PoolerPreservation` give the
invariant and its preservation, `PoolerTheorems` the results over all runs. `Gateway` has the
same code as objects updated in place (rollback included) and proves that one run moves the
database as the protocol steps say. `Timestamps` shows that the string comparisons made on
watermarks compare instants, and `TextClock` that the decisions taken on rendered texts are the
protocol's decisions on instants; `ChangeTracking` covers the merge of partition ids, the keys and
the dedupe of relations; `Relations` says which entries stand for one table, and `PoolerOutcomes`
what a run commits and reports for the replies it gets, and when an answer is "all". What the objects do to the database is matched by runs of the protocol, so the
results over all runs hold for the answers the objects return.

Assumed of the environment: a `CHANGES` query returns the whole half-open window or fails, and
does not answer for a window that ends after the clock; the aggregate ignores NULL ids. Finish
times that grow with the commit order are assumed only where a lemma says `CommitOrdered`.
Advisory locks are held until released.

**Query submission.** `Jobs` models a server that runs a statement when a job with a new id is
inserted, a network that loses or duplicates requests and replies, the retry budget, and
many statements submitted by interleaved workers. `ExecuteExt` covers the accounting of a batch,
`BatchRuns` what the batch's verdict says about the statements the server ran.

**Nested STRUCT types.** `ColumnTrie` gathers dotted columns into nested dictionaries, `ColumnTypes`
prints them, `StructParser` is the bracket-tracking scanner, `StructRoundTrip` and `NestedColumns` prove
that parsing undoes printing down to the single column. `StructSelect` gives the generated
`SELECT` expression a meaning and proves that it only reorders fields; `SelectText` reads the
generated text back, so that the result is about the text itself. `StructTypes` is a grammar of
declared types, the keyword in any case and white space where it is allowed; it says exactly which
text the scanner accepts, and `StructContracts` states the select and the round trip for types so declared.

**Schema trees.** `SchemaMerge` proves that merging the missing fields into the target is the
merge of two trees, and `SchemaAdditions` covers additions of whole fields; `SchemaSync` covers the
STRUCT synchronisation of an incremental model, `SyncSelection` which columns it selects.

**insert_overwrite shards.** `PartitionBuckets` and `InsertOverwrite` cover parameter parsing,
bucket keys and the dedupe of variable sets; `FanOut` proves that parallel DELETE and MERGE steps
are safe exactly when the buckets differ. `ParameterText` lists the forms in which a parameter can
name a moment and proves that parsing accepts exactly those; `OverwriteSets` states validation and
dedupe on what the user wrote.

`Common`, `Mentions` (keeping the first of each key), `Counting`, `Completion`, `DottedPaths`,
`PyStrings` and `PyText` hold shared vocabulary: lists, dotted names and the Python string operations
the code relies on.

Promises that turn out false of the code, each with a concrete counterexample and the exact
condition under which they hold:

- The first ensure-fresh on a table never pooled before commits a row of zero width at its own end
  time, so a window ending there is answered "nothing changed" whatever happened in it
  (`FirstEnsureFreshMisses`, for every such window; `SoundExactlyWhen`).
- A column without a type that is listed after a column nested in it makes printing fail
  (`LateUntypedParentFails`, `PrintableExactlyWhen`).
- Merging missing fields leaves some missing when a source record meets a plain target column of the
  same name (`RecordAgainstColumn`, `MergeClosesTheGap`).
- In append mode, too, replacing a STRUCT column drops fields only the target has
  (`AppendDropsTargetOnlyField`, `TargetOnlyPathsAreDropped`); whether such a schema is accepted is the server's decision.
- The dedupe key of relations merges different tables when a dataset or table name has a dot
  (`DedupeKeyCollides`, `DedupeKeyExactlyWhenDotFree`).

`dafny verify dfyconfig.toml` checks everything. Automatic induction is switched off wherever it would
apply, so every proof is the one that is written.

## Model

| member | source | states |
|---|---|---|
| PoolerTheorems.EnsureFreshIsSound | src/dbt/adapters/bigquery/gateway/pooler_core.py:254-329 | in every reachable state of any interleaving, an ensure-fresh list contains the partition of every change in its window once the window ends after the table's origin, and a window straddling the origin is answered "all" |
| PoolerTheorems.SoundExactlyWhen | src/dbt/adapters/bigquery/gateway/client.py:1250-1268 | for every lock key, table, window and origin: answers for that window are sound in all reachable states if and only if the window ends after the origin, or contains no instant since time began |
| PoolerTheorems.EmptyBeforeOrigin | src/dbt/adapters/bigquery/gateway/pooler_core.py:502-506 | windows ending at or before the origin are answered "none", which is right exactly when they are quiet |
| PoolerTheorems.FirstEnsureFreshMisses | src/dbt/adapters/bigquery/gateway/pooler_core.py:293-318 | every window that ends at or before the origin and contains a past instant is answered "none" in some reachable run although the table changed in it; the first ensure-fresh of a table is the case where the window ends at the origin |
| PoolerTheorems.AnswerIsExact | src/dbt/adapters/bigquery/gateway/client.py:1250-1268 | a merged list is sorted, duplicate-free and exactly the partitions changed between the window boundaries around the request |
| PoolerTheorems.FloorExists | src/dbt/adapters/bigquery/gateway/client.py:1250-1268 | the boundary below a request that starts at or after the origin exists |
| PoolerTheorems.CeilingExists | src/dbt/adapters/bigquery/gateway/client.py:1250-1268 | the boundary above a request that ends by the last window exists |
| PoolerTheorems.AnswerIsStable | src/dbt/adapters/bigquery/gateway/client.py:1131-1268 | once the watermark has reached the end of a request, the rows behind its answer are the same in every later state of every run |
| PoolerTheorems.SameAnswerLater | src/dbt/adapters/bigquery/gateway/pooler_core.py:293-318 | reading the checkpoint first and the log any number of steps later gives the answer of reading both at once |
| PoolerTheorems.CoverageWithoutClocks | src/dbt/adapters/bigquery/gateway/client.py:272-307 | whichever committed checkpoint a read returns, the advancing windows cover everything from the origin to any committed end |
| PoolerTheorems.ChainInvariant | src/dbt/adapters/bigquery/gateway/pooler_core.py:426-557 | one initial row, then windows that follow each other without gap or overlap, each of positive width |
| PoolerTheorems.WatermarkIsChainEnd | src/dbt/adapters/bigquery/gateway/client.py:272-307 | a checkpoint read returns the end of the last window, or nothing for a table never pooled |
| PoolerTheorems.OnlyAdvancingCommitsMoveTheChain | src/dbt/adapters/bigquery/gateway/change_tracking.py:12-15 | every step but the commit of an advancing row leaves a table's chain and checkpoints alone; error, not-found, skipped and failed runs are such steps |
| PoolerTheorems.CommitRaisesWatermark | src/dbt/adapters/bigquery/gateway/client.py:1159-1238 | an advancing commit starts at the watermark and raises it strictly |
| PoolerTheorems.MutualExclusion | src/dbt/adapters/bigquery/gateway/client.py:129-171 | for any lock-key function, injective or not, no two workers are inside the critical section of one table |
| PoolerTheorems.CanMove | src/dbt/adapters/bigquery/gateway/pooler_core.py:385-424 | a worker that waits for no taken lock has a step that brings it closer to its end and moves nobody else |
| PoolerTheorems.NoDeadlock | src/dbt/adapters/bigquery/gateway/pooler_core.py:385-424 | no reachable state with an unfinished worker is stuck: the worker or the holder of the lock it waits for can progress |
| PoolerTheorems.AllCanFinish | src/dbt/adapters/bigquery/gateway/pooler_core.py:385-424 | from every reachable state, even with colliding lock keys, some run finishes all workers |
| PoolerPreservation.InvStep | src/dbt/adapters/bigquery/gateway/pooler_core.py:426-557 | every protocol step keeps the invariant on locks, log, checkpoints, worker phases and answers given |
| PoolerPreservation.InvReachable | src/dbt/adapters/bigquery/gateway/pooler_core.py:426-557 | the invariant holds after every run |
| PoolerPreservation.WindowsCover | src/dbt/adapters/bigquery/gateway/pooler_core.py:508-520 | when each window starts at some earlier end, the windows cover every instant between the origin and any end |
| PoolerPreservation.AnswerIsSound | src/dbt/adapters/bigquery/gateway/client.py:1240-1268 | the merge of the overlapping rows misses no change of a covered window |
| Gateway.CloudSqlGateway.GetPoolerCheckpoint | src/dbt/adapters/bigquery/gateway/client.py:272-307 | returns the end of a checkpoint with the greatest finish time, None when there is none |
| Gateway.CloudSqlGateway.CommitPoolResult | src/dbt/adapters/bigquery/gateway/client.py:1131-1238 | log row and checkpoint are written together or not at all; the call fails exactly on a fault in a statement that it executes, or at the commit |
| Gateway.CloudSqlGateway.GetAffectedPartitions | src/dbt/adapters/bigquery/gateway/client.py:1240-1268 | answers with the merge of the ids of the overlapping rows of the affected statuses |
| Gateway.PoolerCore.PoolOneLocked | src/dbt/adapters/bigquery/gateway/pooler_core.py:426-557 | one run moves the database exactly as the protocol's read, query and commit steps do, on every branch and failure |
| Gateway.PoolerCore.PoolOne | src/dbt/adapters/bigquery/gateway/pooler_core.py:385-424 | the same between lock and unlock, with the locks as before on every exit |
| Gateway.PoolerCore.RunAll | src/dbt/adapters/bigquery/gateway/pooler_core.py:184-222 | every index gets exactly one result for its table, whatever the completion order and whichever workers raise |
| Gateway.PoolerCore.PoolRelations | src/dbt/adapters/bigquery/gateway/pooler_core.py:144-252 | one result per distinct table in first-mention order; the counts by status match the results |
| Gateway.PoolerCore.EnsureAffectedPartitions | src/dbt/adapters/bigquery/gateway/pooler_core.py:254-329 | pools only when asked and behind, refuses exactly when the watermark then still lacks the end, and otherwise answers with the merge of the final log |
| PoolerOutcomes.QueryOutcome | src/dbt/adapters/bigquery/gateway/pooler_core.py:670-723 | a reply that succeeds, the second one after enabling change history, gives exactly the ids it reports; a failure outside the time travel window gives "all", any other an error |
| PoolerOutcomes.DecisionOutcome | src/dbt/adapters/bigquery/gateway/pooler_core.py:426-557 | a run commits exactly if it is behind and finds the table; the row reaches from the watermark to the end, and carries a list exactly for a query that succeeded |
| PoolerOutcomes.RunReports | src/dbt/adapters/bigquery/gateway/pooler_core.py:385-557 | a run that commits reports the row it wrote, and the end becomes a checkpoint unless the status is an error; one that does not commit changes nothing and says why |
| PoolerOutcomes.MoveReports | src/dbt/adapters/bigquery/gateway/pooler_core.py:184-222 | the result filed for a run, also for one that raised, is the row that was added, or one without ids when the database is as it was |
| PoolerOutcomes.AllExactlyWhen | src/dbt/adapters/bigquery/gateway/client.py:1240-1268 | over every reachable log an answer is "all" exactly if the initial row, an out-of-range row or an unpartitioned one overlaps the window |
| Relations.NameText | src/dbt/adapters/bigquery/gateway/change_tracking.py:43-44 | rows, watermark and lock are kept under the quoted full name of the table |
| Relations.NameOfInjective | src/dbt/adapters/bigquery/gateway/change_tracking.py:43-44 | for project and dataset names without backticks, equal names mean equal tables |
| Relations.EntriesShareExactly | src/dbt/adapters/bigquery/gateway/change_tracking.py:209-225 | two entries share rows, watermark and lock exactly if the texts they hold ask for one table |
| Gateway.CountedWhereItOccurs | src/dbt/adapters/bigquery/gateway/pooler_core.py:223-252 | a status has a count exactly if some result has it, and counts add up over parts |
| Gateway.CountsAddUp | src/dbt/adapters/bigquery/gateway/pooler_core.py:223-252 | the counts over all statuses sum to the number of results |
| Gateway.EnsuredAnswerIsSound | src/dbt/adapters/bigquery/gateway/pooler_core.py:293-318 | an answer computed behind a watermark check satisfies the protocol's soundness |
| Gateway.RunRefinesSteps | src/dbt/adapters/bigquery/gateway/pooler_core.py:385-557 | one run of the pooler object moves the database as a run of protocol steps does |
| Gateway.TraceStaysReachable | src/dbt/adapters/bigquery/gateway/pooler_core.py:144-252 | a whole pooling call, in whatever completion order, takes a reachable database to a reachable one |
| Gateway.FreshAnswerIsSound | src/dbt/adapters/bigquery/gateway/pooler_core.py:254-329 | over a reachable database, what ensure-fresh returns after pooling is sound |
| Timestamps.StringOrderIsTimeOrder | src/dbt/adapters/bigquery/gateway/pooler_core.py:60-65 | for texts with 0 to 6 fraction digits the string test says "before in time, or the same instant written shorter" |
| Timestamps.StoredWatermarkComparesExactly | src/dbt/adapters/bigquery/gateway/pooler_core.py:440-442 | against a stored six-digit watermark the string test is exactly chronological "before" |
| TextClock.TextDecidesAsInstants | src/dbt/adapters/bigquery/gateway/pooler_core.py:426-557 | with the skip and empty-window tests made on strings, a run takes the branch the protocol takes on instants and commits the same window, for every stored watermark and end time |
| TextClock.TextFreshness | src/dbt/adapters/bigquery/gateway/pooler_core.py:293-318 | the freshness test on strings says "behind" exactly when the watermark's instant is before the end's, or there is none |
| TextClock.StoredKeepsInstant | src/dbt/adapters/bigquery/gateway/client.py:272-307 | a timestamp read back from the database is the same instant with six fraction digits |
| TextClock.CommittedEndIsFresh | src/dbt/adapters/bigquery/gateway/pooler_core.py:440-457 | once an end time is stored it passes the string tests for that end time, whatever its number of fraction digits, and a next run to it skips |
| ChangeTracking.MergeAffectedPartitionIds | src/dbt/adapters/bigquery/gateway/change_tracking.py:180-199 | "all" exactly when some row is NULL, else the sorted duplicate-free union; no rows give the empty list |
| ChangeTracking.MergeUnique | src/dbt/adapters/bigquery/gateway/change_tracking.py:180-199 | the merge depends on the set of rows only, not on their order or number |
| ChangeTracking.Sorted | src/dbt/adapters/bigquery/gateway/change_tracking.py:199 | sorting keeps the elements and orders them strictly as Python compares strings |
| ChangeTracking.NonNull | src/dbt/adapters/bigquery/gateway/change_tracking.py:171-177 | exactly the non-null ids remain |
| ChangeTracking.CoerceKeepsListed | src/dbt/adapters/bigquery/gateway/change_tracking.py:171-177 | coercion keeps every id of the column, whether an array, a single text or NULL, and adds none |
| PyStrings.LessMeansBefore | src/dbt/adapters/bigquery/gateway/change_tracking.py:199 | strings are ordered by the first character in which they differ, a proper prefix first |
| ChangeTracking.NormalizeNames | src/dbt/adapters/bigquery/gateway/change_tracking.py:209-225 | the relation of an entry is the one its texts ask for: `database` before `project`, `schema` before `dataset`, and the first non-empty of `identifier`, `table` and `table_name` |
| Relations.KeptExactlyWhenNew | src/dbt/adapters/bigquery/gateway/change_tracking.py:202-226 | without dots in dataset and table names, an entry is kept exactly if no earlier one asks for its table |
| ChangeTracking.DedupeRelationDicts | src/dbt/adapters/bigquery/gateway/change_tracking.py:202-226 | the normalised relations at the first mentions of their keys, in order |
| ChangeTracking.DedupeKeepsFirstMentions | src/dbt/adapters/bigquery/gateway/change_tracking.py:202-226 | kept keys are pairwise distinct, positions rise, and every relation has its key kept at or before it |
| ChangeTracking.DedupeKeyExactlyWhenDotFree | src/dbt/adapters/bigquery/gateway/change_tracking.py:209-217 | a table's key differs from the key of every other table with dot-free dataset and table names if and only if its own dataset and table names are dot-free |
| ChangeTracking.DedupeKeyInjective | src/dbt/adapters/bigquery/gateway/change_tracking.py:209-217 | equal keys mean equal tables when dataset and table names are dot-free |
| ChangeTracking.DedupeKeyCollides | src/dbt/adapters/bigquery/gateway/change_tracking.py:215 | two different tables with one key when a dataset name has a dot |
| Relations.CheckpointText | src/dbt/adapters/bigquery/gateway/change_tracking.py:24-40 | the checkpoint name is that of the pooler's database, the project and the dotted table |
| ChangeTracking.CheckpointNameExactlyWhenDotFree | src/dbt/adapters/bigquery/gateway/change_tracking.py:31-40 | for a project without a backtick, a table's checkpoint name is its own if and only if its dataset name has no dot; the table name may have dots |
| ChangeTracking.CheckpointNameInjective | src/dbt/adapters/bigquery/gateway/change_tracking.py:31-40 | equal checkpoint names mean equal tables when projects have no backtick and datasets no dot |
| Jobs.DeliverOnce | src/dbt/adapters/bigquery/connections.py:253-267 | any number of copies of one insert request amounts to one job, none when the id is taken |
| Jobs.AttemptRuns | src/dbt/adapters/bigquery/connections.py:966-1035 | one attempt runs the statement once more exactly if a request arrives and the id was new, takes the id if a request arrives, and succeeds only if one did |
| Jobs.AttemptVerdict | src/dbt/adapters/bigquery/connections.py:966-1035 | on the attempt's own outcomes: it returns the job exactly if the request arrived, its reply did, an id in use could be attached to, and the job finished well; otherwise it raises the first of these that failed |
| Jobs.AttemptsRunOnce | src/dbt/adapters/bigquery/connections.py:253-342 | after any number of attempts the statement has run once if any copy of any request arrived, and not at all otherwise |
| Jobs.ConnectionManager.RawExecute | src/dbt/adapters/bigquery/connections.py:269-342 | the statement runs at most once whatever is lost or retried, exactly once if the call returns, in at most retries + 1 attempts; it returns exactly if the last attempt was submitted, attached where the id was in use, and finished well; otherwise it raises what went wrong first in that attempt, and before the budget is spent only if that error is permanent, the connection it reset cannot be reopened or the deadline has passed |
| Jobs.DeferredException.Call | src/dbt/adapters/bigquery/retry.py:102-128 | every error counts against the budget; another attempt is granted exactly for a retryable error within it |
| Jobs.TryKeeps | src/dbt/adapters/bigquery/connections.py:592-646 | an attempt of one statement keeps the bookkeeping of all statements |
| Jobs.AtMostOnce | src/dbt/adapters/bigquery/connections.py:592-646 | under any interleaving of many statements each runs at most once, exactly once when its call returned, within its budget; and a call returns only after an attempt that saw the job finish well |
| Jobs.TryVerdict | src/dbt/adapters/bigquery/connections.py:592-646 | an attempt of one of many statements ends its call exactly on success, on an error that does not pass, or with the budget spent, and leaves the other calls alone |
| Jobs.DoneSucceeded | src/dbt/adapters/bigquery/connections.py:592-646 | a call that has returned has an attempt that succeeded |
| Jobs.StartIsOk | src/dbt/adapters/bigquery/connections.py:241-251 | distinct minted ids establish the bookkeeping |
| ExecuteExt.Collect | src/dbt/adapters/bigquery/connections.py:647-662 | results and errors partition the index set, whatever the completion order |
| ExecuteExt.ExecuteBatch | src/dbt/adapters/bigquery/connections.py:589-683 | returns only if every set succeeded, with totals over all of them; otherwise names exactly the failed sets |
| ExecuteExt.SumSplits | src/dbt/adapters/bigquery/connections.py:664-683 | counters are conserved when a batch is cut in two |
| ExecuteExt.TotalsOfOne | src/dbt/adapters/bigquery/connections.py:664-683 | of one response every total is that response's own counter, zero shown as none |
| ExecuteExt.TotalsAddUp | src/dbt/adapters/bigquery/connections.py:664-683 | of a batch cut in two every total is the sum of the two totals of that counter |
| BatchRuns.RunBatch | src/dbt/adapters/bigquery/connections.py:589-683 | whatever the interleaving of the sets' attempts, the losses and the completion order: an aggregated batch ran every statement exactly once and saw it finish well; an incomplete one ran each at most once, and exactly once each it does not name |
| BatchRuns.RunsOfBatch | src/dbt/adapters/bigquery/connections.py:592-646 | every statement of a batch runs at most once on the server, and exactly once if its set succeeded |
| BatchRuns.FailedSetMayHaveRun | src/dbt/adapters/bigquery/connections.py:654-662 | with any retry budget, a set can be reported as failed although its statement ran |
| DottedPaths.SplitJoin | src/dbt/adapters/bigquery/column.py:394-398 | splitting a dotted name gives back the joined parts |
| DottedPaths.SplitRest | src/dbt/adapters/bigquery/column.py:410-419 | recursion on the re-joined rest of a name goes on with exactly the remaining parts |
| DottedPaths.ChildTest | src/dbt/adapters/bigquery/struct_utils.py:29-41 | the prefix test on a dotted key asks for a longer path with that first part, and cutting at the first dot yields the rest |
| DottedPaths.DotTest | src/dbt/adapters/bigquery/struct_utils.py:55-57 | a key has no dot exactly when it has one part |
| ColumnTrie.InsertViews | src/dbt/adapters/bigquery/column.py:351-419 | inserting a column changes the entry at its own path and at the paths above it, as stated, and nothing else |
| ColumnTrie.InsertFailsOnRepeat | src/dbt/adapters/bigquery/column.py:382-391 | insertion raises exactly when the path already carries a type with nothing nested below |
| ColumnTrie.GatherIsExpected | src/dbt/adapters/bigquery/column.py:319-327 | columns with distinct names always gather, and path by path the dictionaries hold what the columns declare |
| ColumnTrie.OrderDoesNotMatter | src/dbt/adapters/bigquery/column.py:372-419 | permuting the columns changes neither the paths nor their types; with typed parents the entries are identical |
| ColumnTypes.PrintableExactlyWhen | src/dbt/adapters/bigquery/column.py:441-443 | printing succeeds if and only if no untyped column is listed after one nested in it |
| ColumnTypes.LateUntypedParentFails | src/dbt/adapters/bigquery/column.py:441-443 | a concrete list that cannot be printed, and can in the other order |
| ColumnTrie.UpdateNestedColumnDataTypes | src/dbt/adapters/bigquery/column.py:351-419 | the recursion on dotted text is insertion at the split path |
| ColumnTypes.GetNestedColumnDataTypes | src/dbt/adapters/bigquery/column.py:290-348 | the loops gather all columns and print every root, or stop with the first error |
| ColumnTypes.FlatColumnKeepsType | src/dbt/adapters/bigquery/column.py:290-348 | a flat column is printed with its own type and its own constraint, whatever the other columns are |
| StructParser.ParseStructFieldsLoop | src/dbt/adapters/bigquery/column.py:12-110 | the scanning loops compute the parsing function |
| StructParser.CloseLoop | src/dbt/adapters/bigquery/column.py:42-55 | the search for the closing bracket |
| StructParser.SplitLoop | src/dbt/adapters/bigquery/column.py:69-100 | the split at top-level commas, None on unbalanced brackets |
| StructRoundTrip.SplitItems | src/dbt/adapters/bigquery/column.py:69-96 | splitting undoes joining balanced items with commas |
| StructRoundTrip.StructParses | src/dbt/adapters/bigquery/column.py:40-110 | `struct<...>` over balanced items, with or without trailing constraints, parses to exactly those items |
| StructRoundTrip.WrapText | src/dbt/adapters/bigquery/column.py:441-459 | around the items stands `struct<...>`, inside `array<...>` exactly for array parents, followed by the parent's constraints |
| StructRoundTrip.WrapOfWords | src/dbt/adapters/bigquery/column.py:422-459 | a parent column whose text is words wraps its struct in an array exactly for the word array in any case, and ends with all its constraint words |
| StructRoundTrip.ItemOfField | src/dbt/adapters/bigquery/column.py:445-448 | a printed field is name, space and type, or the bare name; it is balanced, and splitting it gives name and type back |
| StructRoundTrip.PrintedIsItem | src/dbt/adapters/bigquery/column.py:422-459 | everything printed is balanced, trimmed and free of top-level commas |
| StructRoundTrip.ParsePrinted | src/dbt/adapters/bigquery/column.py:422-459 | recursive parsing of the printed text gives back the tree in its order, for every tree with bracket-free names and balanced types |
| NestedColumns.ShapeView | src/dbt/adapters/bigquery/column.py:422-459 | path by path the tree that is printed is the gathered dictionary, arrays and type texts included |
| NestedColumns.ColumnsRoundTrip | src/dbt/adapters/bigquery/column.py:290-459 | gathering dotted columns, printing a root and parsing it recovers at every path exactly what the columns declare there: dictionaries as structs, types as their own parse, array parents as leaves |
| StructTypes.StructTextParses | src/dbt/adapters/bigquery/column.py:34-110 | whatever the case of the keyword and the white space around the text and between the items, struct text parses to its items |
| StructTypes.DeclaredParses | src/dbt/adapters/bigquery/column.py:12-110 | a declared type parses to its fields in the declared order, at every depth, for any spelling of the keyword and any white space |
| StructTypes.PaddedParses | src/dbt/adapters/bigquery/column.py:32-36 | white space around a declared struct changes nothing |
| StructTypes.UnclosedIsNone | src/dbt/adapters/bigquery/column.py:57-59 | struct text that never closes is no struct |
| StructTypes.TrailingIsNone | src/dbt/adapters/bigquery/column.py:61-65 | struct text that goes on right behind its closing bracket is no struct |
| StructTypes.HiddenBracketIsNone | src/dbt/adapters/bigquery/column.py:45-55 | text with a closing angle bracket inside parentheses is no struct, because the two scans count it differently |
| StructTypes.SplitExactly | src/dbt/adapters/bigquery/column.py:69-100 | the split succeeds exactly if neither kind of bracket closes more often than it opened, and in the end as often |
| StructContracts.DeclaredColumnRecovered | src/dbt/adapters/bigquery/column.py:290-459 | a column of a declared type, nested at any depth, comes back from the printed root with its declared fields at their declared paths |
| StructSelect.BuildStructFieldExpressions | src/dbt/adapters/bigquery/column.py:262-287 | the expressions built from type strings are those of the parsed tree |
| StructSelect.GetStructSelectExpression | src/dbt/adapters/bigquery/column.py:232-260 | the column itself, or the guarded STRUCT expression of the parsed tree under its alias |
| StructSelect.SelectMeans | src/dbt/adapters/bigquery/column.py:232-287 | on every value the expression evaluates to the value reordered to the declared type, and fails exactly when a declared field is missing |
| SelectText.ReadsExpr | src/dbt/adapters/bigquery/column.py:262-287 | for names free of spaces, commas and parentheses, and field names also of dots: a reader of the generated SQL recovers the expression from its text, whatever follows, at any nesting |
| SelectText.TextMeans | src/dbt/adapters/bigquery/column.py:232-287 | for such names: the text generated for a column, read as SQL, evaluates on every value to that value reordered to the declared type |
| StructContracts.DeclaredTextMeans | src/dbt/adapters/bigquery/column.py:232-287 | for a column declared as a struct, in any case and spacing, the generated text evaluates to the value with the declared fields in the declared order |
| StructContracts.ScalarSelectsColumn | src/dbt/adapters/bigquery/column.py:253-255 | a column of any other type is selected as it is |
| StructSelect.NullStaysNull | src/dbt/adapters/bigquery/column.py:258-287 | at every declared path the result is NULL exactly when the source was, so a NULL struct never becomes a struct of NULLs |
| StructSelect.ReorderAtPath | src/dbt/adapters/bigquery/column.py:262-287 | at every declared path the result holds the value found there, itself reordered |
| StructSelect.LeavesUnchanged | src/dbt/adapters/bigquery/column.py:262-287 | leaf values are unchanged |
| StructSelect.ReorderIsInOrder | src/dbt/adapters/bigquery/column.py:232-245 | the result has exactly the declared fields in the declared order at every depth |
| StructSelect.InOrderIsFixed | src/dbt/adapters/bigquery/column.py:232-245 | a value already in order is unchanged |
| StructSelect.SelectTwice | src/dbt/adapters/bigquery/column.py:232-287 | selecting twice equals selecting once |
| SchemaMerge.MergeNestedFields | src/dbt/adapters/bigquery/struct_utils.py:7-59 | the loop that consumes the lookup table computes the recursive merge |
| SchemaMerge.CollectFieldDicts | src/dbt/adapters/bigquery/struct_utils.py:62-72 | the loop collects every field by its path below the prefix |
| SchemaMerge.CollectedIffPresent | src/dbt/adapters/bigquery/struct_utils.py:62-72 | the collected keys are exactly the paths of the tree |
| SchemaMerge.MergeIsEach | src/dbt/adapters/bigquery/struct_utils.py:20-59 | popping entries as fields are visited never affects a later field or the fields appended at the end |
| SchemaMerge.MergeOfMissing | src/dbt/adapters/bigquery/struct_utils.py:7-83 | merging the missing fields into the target is the merge of the two trees; the target's names come first, in order, then the new ones in source order |
| SchemaMerge.MergedLookup | src/dbt/adapters/bigquery/struct_utils.py:7-83 | what the merged tree holds at every path |
| SchemaMerge.MergedPaths | src/dbt/adapters/bigquery/struct_utils.py:7-83 | the merged paths are the union of both, except below a target field that is not a record |
| SchemaMerge.TargetKept | src/dbt/adapters/bigquery/struct_utils.py:20-53 | existing fields keep name, kind and attributes, leaves keep everything, and siblings keep their order as a prefix |
| SchemaMerge.MergeClosesTheGap | src/dbt/adapters/bigquery/struct_utils.py:75-83 | nothing is missing after the merge if and only if no source record with fields meets a target column that is not a record |
| SchemaMerge.RecordAgainstColumn | src/dbt/adapters/bigquery/struct_utils.py:35-53 | a concrete pair of schemas whose gap the merge does not close |
| SchemaAdditions.MergeIsChanged | src/dbt/adapters/bigquery/struct_utils.py:7-59 | with whole fields among the additions, the merge is every existing field changed in its place, then the additions with new names |
| SchemaAdditions.DirectReplacesInPlace | src/dbt/adapters/bigquery/struct_utils.py:24-27 | adding a whole field whose name exists replaces that field in place and appends nothing for it |
| SchemaAdditions.OthersKeepTheirPlace | src/dbt/adapters/bigquery/struct_utils.py:29-53 | a field that is not added as a whole keeps everything but what is added below it |
| SyncSelection.StructTypeExactly | src/dbt/adapters/bigquery/impl.py:1041-1043 | a type counts as a struct exactly if one of the keywords stands in it, in any case |
| SyncSelection.SelectedExactly | src/dbt/adapters/bigquery/impl.py:1028-1048 | a column is selected exactly if the target lacks a nested field of it, or its type or that of a field in it changes to a struct type |
| SyncSelection.SendsExactly | src/dbt/adapters/bigquery/impl.py:1010-1060 | in append and in sync mode, and in no other, a schema is sent exactly if some selected column is in both schemas |
| SchemaSync.SyncStructColumns | src/dbt/adapters/bigquery/impl.py:1003-1132 | on every path the table and the changes record are as stated: untouched without a handled column or after a refused update, which raises, else updated together |
| SchemaSync.SchemaChanges.Settle | src/dbt/adapters/bigquery/impl.py:1093-1130 | the edits of the changes record after a successful update |
| SchemaSync.UpdatedKeepsColumns | src/dbt/adapters/bigquery/impl.py:1056-1083 | the target's columns keep names and order; a replaced one is the source's, every other is unchanged |
| SchemaSync.UpdatedLookup | src/dbt/adapters/bigquery/impl.py:1056-1083 | what the new schema holds at every path |
| SchemaSync.NestedMissingIsSelected | src/dbt/adapters/bigquery/impl.py:1028-1046 | every nested path missing from the target selects its root column |
| SchemaSync.SyncClosesTheGap | src/dbt/adapters/bigquery/impl.py:1003-1132 | after every call in append or sync mode that does not raise, a source path is missing exactly when its whole top-level column is |
| SchemaSync.TargetOnlyPathsAreDropped | src/dbt/adapters/bigquery/impl.py:1059-1071 | a path only the target has survives exactly outside the replaced columns |
| SchemaSync.AppendDropsTargetOnlyField | src/dbt/adapters/bigquery/impl.py:1059-1071 | a concrete pair of schemas on which append mode drops a field of the target |
| SchemaSync.UnhandledKeeps | src/dbt/adapters/bigquery/impl.py:1100-1105 | exactly the source columns whose root was not handled remain, each as often as before |
| SchemaSync.UnhandledInOrder | src/dbt/adapters/bigquery/impl.py:1100-1105 | they remain in their order |
| SchemaSync.StillChangedKeeps | src/dbt/adapters/bigquery/impl.py:1117-1123 | exactly the type changes without a column or of an unhandled column remain |
| SchemaSync.StillChangedInOrder | src/dbt/adapters/bigquery/impl.py:1117-1123 | they remain in their order |
| PartitionBuckets.KeyNamesBucket | src/dbt/adapters/bigquery/query_parameters.py:374-391 | two parameters share a bucket key exactly when truncation to the granularity makes them equal |
| PartitionBuckets.ReadsRendered | src/dbt/adapters/bigquery/query_parameters.py:346-371 | parsing a rendered timestamp, with a space or a T and any surrounding white space, gives back its moment |
| PartitionBuckets.RenderIsStamp | src/dbt/adapters/bigquery/gateway/pooler_core.py:46-48 | timestamps are rendered in the form that parameters are read in |
| ParameterText.ParseMeans | src/dbt/adapters/bigquery/query_parameters.py:346-371 | a datetime is its own moment, a date is midnight, a string is what it spells in one of four forms with any white space around it, and every other value is refused |
| OverwriteSets.SameBucketExactly | src/dbt/adapters/bigquery/query_parameters.py:374-391 | moments share a bucket exactly if they agree down to the granularity |
| OverwriteSets.GranularityExactly | src/dbt/adapters/bigquery/query_parameters.py:423-435 | a granularity is read from its name in any case and padding, and day also from no text |
| OverwriteSets.ConfigExactly | src/dbt/adapters/bigquery/query_parameters.py:418-449 | a configuration is accepted exactly for a field that is not blank, a non-empty list, and a data type and granularity, in any case and padding, other than hours of dates |
| OverwriteSets.TypeExactly | src/dbt/adapters/bigquery/query_parameters.py:484-496 | a declared parameter type is accepted exactly if it is one of four, in any case and padding; dates, datetimes and strings need no declaration |
| OverwriteSets.DateOnlyExactly | src/dbt/adapters/bigquery/query_parameters.py:502-516 | a value has no time of day exactly if it is a date or spells one |
| OverwriteSets.AcceptedExactly | src/dbt/adapters/bigquery/query_parameters.py:460-516 | a list is accepted exactly if all its entries are acceptable under one name |
| InsertOverwrite.ValidateVariableSets | src/dbt/adapters/bigquery/query_parameters.py:394-527 | succeeds exactly on acceptable configurations and entries, and then returns the first entry of every bucket key |
| InsertOverwrite.DedupeLoop | src/dbt/adapters/bigquery/query_parameters.py:460-521 | the loop fails exactly when some entry fails its check, else keeps the first entry of each key |
| InsertOverwrite.CheckOne | src/dbt/adapters/bigquery/query_parameters.py:462-517 | the checks on one entry, in their order, accept exactly the acceptable entries and yield the bucket key |
| InsertOverwrite.DedupedAreDistinct | src/dbt/adapters/bigquery/query_parameters.py:517-521 | surviving sets have pairwise distinct buckets |
| InsertOverwrite.DedupedCover | src/dbt/adapters/bigquery/query_parameters.py:517-521 | every bucket asked for survives, named by its earliest entry |
| OverwriteSets.KeptExactlyWhenFirst | src/dbt/adapters/bigquery/query_parameters.py:517-521 | an entry is kept exactly if no earlier one asks for a moment in the same bucket |
| OverwriteSets.TwoDatetimes | src/dbt/adapters/bigquery/query_parameters.py:346-391 | two datetimes both survive exactly if their own truncations differ |
| FanOut.OwnBucket | README.md:104-151 | whatever the other shards do, and also half-way, a shard's bucket holds what it held, nothing, or what the shard staged |
| FanOut.NoBucket | README.md:104-151 | rows in no shard's bucket are never touched |
| FanOut.InterleavingIsSerial | README.md:104-151 | with pairwise distinct buckets every interleaving of DELETE and MERGE statements ends in the rows of the serial run |
| FanOut.SharedBucketRaces | README.md:104-151 | two shards on one bucket can be interleaved so that the serial result is missed |
| FanOut.IndependentExactlyWhenDistinct | README.md:104-151 | shards are independent, for all tables, stagings and schedules, if and only if their buckets are pairwise distinct |
| FanOut.ValidatedSetsAreIndependent | src/dbt/adapters/bigquery/query_parameters.py:374-527 | the variable sets that pass validation may run in parallel |

## Left out

- SQL text, the database and BigQuery clients, connectors and IAM: replaced by abstract operations with explicit outcomes.
- Classification of exceptions by message text: outcomes carry the kind directly.
- Registry rows, change counters, permission issues, run events, the mirror write and the ALTER that enables change history: bookkeeping beside the protocol.
- Tables dropped and recreated mid-history, and the loss of a lock session: the code has no handling to model.
- Gateway.PoolerCore.RunAll: each worker run is one atomic move of the database, in completion order; interleavings inside runs are those of `PoolerSteps`.
- ChangeTracking.DedupeRelationDicts: a key that is present with the value None is not distinguished from an absent one.
- Jobs.ConnectionManager.RawExecute: back-off times are not modelled; the deadline is an outcome of each attempt.
- ColumnTrie.UpdateNestedColumnDataTypes: nested dictionaries are values returned by the call, not objects shared and mutated in place; a column named like the reserved parent key is not modelled, nor are the extra column attributes copied back to flat columns.
- ColumnTypes.GetNestedColumnDataTypes: column mappings are lists with their own names as keys.
- ExecuteExt.ExecuteBatch: the location, project and joined job ids of the aggregated response are not modelled.
- Relations.EntriesShareExactly: project and dataset names are free of backticks, as BigQuery requires.
- StructTypes.DeclaredParses: every field has a name and a type, and names are free of brackets and commas.
- SelectText.TextMeans: only the SQL that is generated is read; column and field names are free of spaces, commas and parentheses, and field names of dots.
- ChangeTracking.CheckpointNameExactlyWhenDotFree: project names are free of backticks, as BigQuery requires.
- Gateway.TraceStaysReachable: the clock and the change history stand still while the runs of one call follow each other; `PoolerSteps` lets them move between any two steps.
- StructSelect.SelectTwice: field names are compared exactly, and declared names must be distinct in each struct, as BigQuery requires.
- SchemaMerge.MergeNestedFields: keys are component lists (see `DottedPaths.ChildTest` and `DottedPaths.DotTest`); the prefix argument, which every caller leaves empty, is not modelled.
- SchemaMerge.MergeClosesTheGap: field names must be distinct in each record, as BigQuery requires; with that, a list of items stands for a dictionary.
- SchemaSync.SyncStructColumns: only the refusal by BadRequest is modelled as an error of the update.
- `build_nested_additions`: it keys whole columns by their dotted name and adds nothing to the merge proved here.
- ParameterText.ParseMeans: naive values only; fractions of any length are read as Python 3.11 and later do, digits are ASCII, and years are written with four digits.
- FanOut.InterleavingIsSerial: a staging table depends only on the shard's parameter, and a MERGE inserts rows only, as the documented script does.
- Partition metadata parsing, worker-pool sizing, parameter type resolution, credentials, catalogs, relation options and Python submission: easy members or foreign calls.
