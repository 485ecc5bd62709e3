# Verified model of the data-access layer and the mail harness

This project models, in Dafny, how the generated `ent` client of the application creates,
queries, decodes and updates rows, and three small pieces of its end-to-end harness. The
entities are Broadcast, BroadcastRecipient and AuditEntry; the other generated entities are
copies of the same template.

The database is a contract, not a program: a table keyed by id with an id sequence, uniqueness
and reference rules given as an uninterpreted predicate, a batch insert that is all or nothing
and may also fail from outside, a filter, a sort that is some permutation, DISTINCT on the
selected cells, and a window. In a `QuerySpec` a zero limit or offset stands for none and nothing
caps the result; in a selector LIMIT 0 returns no row. The column defaults are those of the
migrations. A mutation is a map from columns to values with an optional id.

## Layout

| file | what it holds |
|---|---|
| `Prelude.dfy` | columns, options and results, the abstract table |
| `BulkChain.dfy` | `CreateBulk.Save` as a chain of continuations, on values: hooks are arbitrary strategies that may edit, replace, retry or answer on their own |
| `BulkSave.dfy` | the same chain as objects and arrays updated in place, method by method equal to the chain on values |
| `BulkNesting.dfy` | the trace of hooks, slot fillings and batch writes is bracketed |
| `BulkSafety.dfy` | how often and what is written; all or nothing |
| `BulkRefinement.dfy` | the exact run with hooks that edit or replace mutations: which error, which batch, which rows go unchecked |
| `SingleSave.dfy` | single `Save`, and bulk create against saving one by one |
| `BulkCreate.dfy` | bulk creates as a caller sees them: columns in, defaults, checks, rows and nodes out |
| `BulkLimits.dfy`, `BulkReadBack.dfy` | when the report of a save is right, for hooks that answer anything; stored rows decode to the returned nodes |
| `RowCodec.dfy`, `RowCreate.dfy` | `scanValues` and `assignValues`; `defaults`, `check`, `createSpec` and the round trip |
| `QueryPlan.dfy`, `QueryWindows.dfy` | the two compilations of a query; `First`, `Only`, `IDs`, `Exist` |
| `QueryBuilder.dfy`, `QueryTerminals.dfy` | query objects, `Clone`, and every call on them in place |
| `QueryCalls.dfy` | what a list of builder calls means, and what the query then returns |
| `EagerPlan.dfy`, `EagerJoin.dfy`, `EagerTheorems.dfy`, `EagerReuse.dfy` | eager loading on values and what it equals |
| `EagerLoader.dfy` | the loaders with their loops, id maps and in-place assignments |
| `AuditUpsert.dfy`, `AuditRuns.dfy`, `AuditDelivery.dfy` | conflict lists, their resolution, runs of writes, redelivery |
| `AuditRows.dfy`, `AuditConflicts.dfy`, `AuditUpdates.dfy` | the rows that creates, upserts and updates leave, cell by cell, in terms of the mutation and the calls |
| `AuditBuilders.dfy` | the audit entry builders as objects |
| `FanOut.dfy` | the start-barrier fan-out as a step model |
| `MailWait.dfy`, `ListUnsubscribe.dfy` | the polling inbox and the List-Unsubscribe reader |

A piece of code that works in place appears twice: as a class whose methods have the source's
loops and assignments, and as functions on values. Each method's `ensures` equates the two, and
the theorems are about the functions. Every lemma carries `{:induction false}`: its proof is the
one written, with no induction hypothesis added by the tool.

## What the proofs found in the code

- Bulk `Save` runs `builder.check()` before it puts the hook's mutation in place
  (`ent/broadcastrecipient_create.go:937-946`), single `Save` after. So a hook that replaces the mutation
  bypasses the check in bulk only; `BulkRefinement.UncheckedRows` and `SingleSave.BulkAndEachDecide`
  say exactly when.
- A hook that fails after its `next` succeeded makes `Save` report a failure although the row is
  stored, and one that answers with a success after a failure reports nodes nobody stored;
  one that calls `next` twice sends the batch twice (`BulkLimits`).
- The comment on `UpdateNewValues` offers an equivalent that is not one: it overwrites every
  proposed immutable column but the id (`AuditUpsert.DocumentedFormOverwrites`). The model
  follows the code.
- `sqlQuery` puts a limit of 2^31 - 1 on a query with an offset and no limit, and selects no id
  unless asked for it; `querySpec` does neither. `QueryPlan.CompilationsAgree` has the exact
  condition under which the two still return the same rows.
- A row written past its check leaves columns to the table: only for created_at, updated_at and
  status can the reader tell, because all other column defaults are zero values
  (`RowCreate.CreateThenRead`).
- `IDs`, `FirstID`, `OnlyID` and `Exist` leave `id` in the selected fields, so a second call on
  the same object fails (`QueryWindows.ExistAnswersOnce`).
- A loader leaves its key filter in the nested query, so running a query object again loads edges
  only for parents of the first run (`EagerReuse.SecondRunSeesOldParentsOnly`).

## Model

| member | source | states |
|---|---|---|
| BulkSafety.SaveNests | ent/broadcastrecipient_create.go:934-981 | for any hooks and builders: the trace is well bracketed, hook 0 outermost, hooks of builder i open while builder i+1 runs, the write innermost |
| BulkNesting.MutateNests | ent/broadcastrecipient_create.go:937-981 | every mutator keeps that nesting from whatever frame it is called in |
| BulkNesting.MutateWithin | ent/broadcastrecipient_create.go:943-958 | a mutator of builder i only fills slots from i on, and whatever it writes is complete if the slots before were |
| BulkSafety.SaveWritesWholeBatches | ent/broadcastrecipient_create.go:949-958 | whatever hooks do, every batch sent has a spec in each slot |
| BulkSafety.MutateWrites | ent/broadcastrecipient_create.go:949-958 | the number of batch writes is at most the product of the calls hooks make |
| BulkSafety.SaveWritesAtMostOnce | ent/broadcastrecipient_create.go:949-958 | hooks calling next at most once allow at most one batch write |
| BulkSafety.SaveWritesCheckedRows | ent/broadcastrecipient_create.go:943-946 | if no hook replaces a mutation, every row of every batch passed its check |
| BulkSafety.SaveIsAllOrNothing | ent/broadcastrecipient_create.go:927-984 | with hooks that call next at most once and report success or failure as it did, whatever they make of the error or node: on success one batch stored, nodes carry the stored ids, all marked done; on failure table and done marks unchanged |
| BulkLimits.ReportIsRight | ent/broadcastrecipient_create.go:949-978 | for hooks that call next at most once and answer anything: the table has all rows of one batch or is as before, and the save reports this rightly iff an even number of hooks misreported |
| BulkLimits.HonestNeverMisreport | ent/broadcastrecipient_create.go:949-978 | hooks that report as their next did never misreport, so their number is zero |
| Store.ExplicitIdsKept | ent/broadcastrecipient_create.go:964-967 | user-supplied ids come back from the batch as supplied |
| BulkRefinement.ChainIsExact | ent/broadcastrecipient_create.go:937-974 | the exact outcome, state and trace of the chain from any frame, for hooks that edit or replace the mutation and pass the answer on |
| BulkRefinement.SaveReportsFirstRefusal | ent/broadcastrecipient_create.go:943-984 | the error is that of the least builder whose own mutation its check refuses, and nothing is written; else one batch of all final mutations in builder order decides, and every node and mutation is settled with its id |
| BulkRefinement.UncheckedRows | ent/broadcastrecipient_create.go:943-946 | row k of a batch is one its check refuses iff the builder's own mutation passes and the final one does not |
| SingleSave.SingleStoresCheckedRows | ent/broadcastrecipient_create.go:201-204 | a single save stores only checked rows whatever its hooks do |
| SingleSave.BulkStoresAReplacedMutationUnchecked | ent/broadcastrecipient_create.go:943-946 | bulk stores a row its own check refuses when a hook replaces the mutation, single save does not |
| SingleSave.EachIsInsertAll | ent/broadcastrecipient_create.go:275-293 | saving one by one from builder k is one batch insert of the remaining final mutations if all pass their checks, and fails otherwise |
| SingleSave.BulkAndEachDecide | ent/broadcastrecipient_create.go:927-984 | with replacing hooks too: when each of the two succeeds, and that they agree iff the store refuses or the checks of own and final mutations come out alike |
| SingleSave.BulkRefinesOneByOne | ent/broadcastrecipient_create.go:927-984 | with hooks that only edit, bulk create succeeds exactly when one-by-one does, with the same nodes, table and mutations; on failure the table is unchanged |
| BulkLimits.LateFailureKeepsTheRow | ent/broadcastrecipient_create.go:968-978 | a hook failing after its next leaves the row stored and marked done |
| BulkLimits.RetryWritesTwice | ent/broadcastrecipient_create.go:949-967 | a hook retrying its next writes a second batch with the first one's id |
| BulkReadBack.SavedRowsReadBack | ent/broadcast_create.go:1635-1692 | after a bulk save, each returned node is stored under a new id and decodes to itself |
| BulkSave.Run.Save | ent/broadcastrecipient_create.go:927-984 | a client error comes first and changes nothing; otherwise the whole object state after `Save` is that of the chain on values, started after the defaults of every builder |
| BulkCreate.DefaultsReachEachBuilder | ent/broadcastrecipient_create.go:934-937 | the loop over the builders fills in each builder's mutation once and touches no other |
| BulkCreate.PlainCreate | ent/broadcastrecipient_create.go:927-984 | from the columns a caller set: no builder that supplies its own columns with accepted values is refused, and the store decides over one batch of the rows completed as the table would complete them; else the first that cannot be created is reported with a faulty column and nothing is written |
| BulkCreate.CreateAll | ent/broadcastrecipient_create.go:927-984 | the same from new builder objects through `Save`; no builders give no nodes and no write |
| BulkCreate.CreatedRowsAreStored | ent/broadcastrecipient_create.go:949-984 | after success every node is a new row of its own, stored as returned, completing what was set; older rows stay |
| BulkCreate.NothingStopsTheBatch | ent/broadcastrecipient_create.go:949-967 | with ids from the sequence, no rule in the way and no outage the batch is stored and numbered in order |
| BulkCreate.CompletedRecipient | ent/broadcastrecipient_create.go:228-242 | a completed recipient has the time of the save in both times and pending as status unless set, and nothing else the caller did not set |
| BulkRefinement.ConstraintMeansViolation | ent/broadcastrecipient_create.go:953-961 | when all checks pass, the save reports a constraint error exactly when the store reports a violation, and any other error as it is |
| SingleSave.SingleConstraintMeansViolation | ent/broadcastrecipient_create.go:275-286 | the same for a single save, whose check's own error comes first |
| BulkSave.Run.Mutate | ent/broadcastrecipient_create.go:970-974 | a mutator with its hooks, in place, equals the chain on values |
| BulkSave.Run.Body | ent/broadcastrecipient_create.go:937-969 | the innermost mutator: check, replace, fill, go on or write, settle |
| BulkSave.Run.BatchCreate | ent/broadcastrecipient_create.go:952-958 | one atomic write; ids reach the specs only on success |
| RowCodec.SwitchesAgree | ent/broadcast.go:105-287 | the two switches know the same columns with the same type |
| RowCodec.DecoderIsTotal | ent/broadcast.go:124-287 | on holders from `scanValues`, for any column list: no error, last valid value wins, unknown columns only in the dynamic values |
| RowCodec.FailsAtFirstMismatch | ent/broadcastrecipient.go:105-200 | on any other holders it fails exactly at the first one that is not of its column's kind, naming the column |
| RowCodec.Entry.AssignValues | ent/broadcast.go:124-287 | the loop of `assignValues`, with its length check, equals the fold over columns |
| RowCodec.ScanValues | ent/broadcast.go:105-120 | one holder per column, of the type its case expects |
| RowCreate.DefaultsFillGaps | ent/broadcast_create.go:393-446 | defaults fill exactly the missing columns and change no value |
| RowCreate.FirstBrokenIsFirst | ent/broadcast_create.go:449-544 | `check` reports the first broken rule, and nothing exactly if none is broken |
| RowCreate.CheckFindsFaults | ent/broadcastrecipient_create.go:245-273 | `check` passes iff every NOT NULL column but the id is set and no value, such as the status, the name or a counter, is one its validator refuses; otherwise it names such a column |
| RowCreate.DefaultsMakeCheckPass | ent/broadcast_create.go:393-544 | after defaults, check passes iff the caller's own columns are present and validated ones accepted |
| RowCreate.CreateSpecIsFaithful | ent/broadcast_create.go:566-698 | spec and node hold exactly the mutation's fields and id |
| RowCreate.CreateThenRead | ent/broadcast_create.go:566-698 | the table takes the row iff the caller's own columns are set; then for any columns the node read back shows what the created node shows, absent optional values as nil, iff the selected ones of created_at, updated_at and status were set |
| RowCreate.BuilderDefaultsAreColumnDefaults | ent/migrate/schema.go:191-216 | builders fill in exactly the columns the table has a default for, with the same values |
| RowCreate.CheckedRowReadsBack | ent/broadcast.go:124-287 | a checked mutation read back through all columns is the node with the store's id |
| RowCreate.DecodeSelects | ent/broadcast.go:124-287 | decoding shows exactly the selected columns, absent values stay nil |
| QueryPlan.CompilationsAgree | ent/broadcast_query.go:527-603 | for every selection the two compilations return the same rows iff the limit is not zero (or nothing is left), an offset without limit leaves at most 2^31 - 1 rows, and a DISTINCT query without the id meets no two rows alike up to the end of its window |
| QueryPlan.MatchingGoesRowByRow | ent/broadcast_query.go:547-553 | filtering goes row by row: all predicates decide each row and the order stays |
| QueryPlan.DistinctWithoutIdCollapses | ent/broadcast_query.go:536-546 | two rows alike in the selected fields are one row of the selector and two of the spec |
| QueryWindows.FirstIsHead | ent/broadcast_query.go:114-123 | `First` is the head of the unlimited result, whatever limit was set; it fails otherwise only as its load does, over an unknown field or an edge |
| QueryWindows.OnlyDecides | ent/broadcast_query.go:160-175 | `Only` decides on two rows as the unlimited result would, with the same failures |
| QueryWindows.ExistDecides | ent/broadcast_query.go:271-281 | `Exist`, `FirstID` and `OnlyID` decide as the unlimited result would |
| QueryWindows.ExistAnswersOnce | ent/broadcast_query.go:232-241 | they answer iff no field was selected before, and not a second time |
| QueryBuilder.Query.Clone | ent/broadcast_query.go:294-310 | a clone has the same plan and shares no object, at any nesting depth |
| QueryBuilder.Query.Do | ent/broadcast_query.go:38-66 | every builder call, also through a kept pointer to a nested query, does what it does to the plan and nothing else |
| QueryCalls.CallsMean | ent/broadcast_query.go:38-66 | after any calls: all predicates, order terms and fields given, in order; the last limit, offset and unique given; each edge the last nested query attached with all calls on it since, on the table the edge leads to |
| QueryCalls.RunCalls | ent/broadcast_query.go:409-453 | a new query, any calls and `All`: the rows all predicates accept, sorted by all order terms, skipped by the last offset, taken by the last limit, each shown with its id and exactly the cells the calls read; it fails only over an unknown field, a negative window or an edge |
| QueryTerminals.CloneThenDiverge | ent/broadcast_query.go:294-333 | any builder and terminal calls on a query and any others on its clone: each keeps its own plan, and the clone's result is its own |
| QueryTerminals.First | ent/broadcast_query.go:114-123 | its result and the query it leaves behind |
| QueryWindows.IDsAreRowIds | ent/broadcast_query.go:232-241 | `IDs` without a selection returns the ids of the query's rows in order, wherever the windows of the two compilations coincide |
| QueryTerminals.IDs | ent/broadcast_query.go:232-241 | its result, and that it leaves the id selected, the unique flag of an unset traversal set, and nothing else |
| QueryTerminals.Exist | ent/broadcast_query.go:271-281 | its result and the query it leaves behind |
| EagerJoin.OnesAreLookups | ent/broadcastrecipient_query.go:500-508 | a to-one assignment gives each node the last neighbour with its foreign key |
| EagerJoin.ManyAreFilters | ent/broadcast_query.go:504-511 | a to-many assignment gives each parent its own children in query order |
| EagerJoin.ChildrenInOrder | ent/broadcast_query.go:504-511 | the children of one parent stand in the order they were fetched |
| EagerJoin.ManyConserves | ent/broadcast_query.go:504-511 | the lists loaded have together as many elements as were fetched |
| EagerJoin.ToOneIsLookup | ent/broadcastrecipient_query.go:482-510 | a to-one load never reports an unexpected key: it fails only as its nested query does, and equals lookup |
| EagerJoin.ToManyIsFilter | ent/broadcast_query.go:484-513 | the same for a to-many load, with conservation |
| EagerJoin.AllKeepsNodes | ent/broadcast_query.go:409-453 | loading edges changes nothing else of the nodes |
| EagerTheorems.ResultsAreRows | ent/broadcast_query.go:409-453 | the results of a query are its rows in order, each a stored row its predicates accept |
| EagerTheorems.ResultsShowRows | ent/broadcast_query.go:417-424 | every result has its row's id and exactly the row's cells in the columns the query reads: all of them when nothing was selected |
| EagerTheorems.AllTakesWindow | ent/broadcast_query.go:554-566 | the results are the sorted, accepted rows without those the offset skips, up to the limit |
| EagerTheorems.PredicatesFilter | ent/broadcast_query.go:547-553 | a caller's predicates hold for every result's row, and without a window every stored row they hold for is among the results |
| EagerTheorems.UnaskedEdgesAreNotLoaded | ent/broadcastrecipient.go:65-83 | the edges of a query that did not ask for them are reported as not loaded |
| EagerTheorems.FailsAsFirstEdge | ent/broadcast_query.go:434-452 | a query with rows fails exactly if the nested query of an edge does, with the workspaces' error before the other's |
| EagerTheorems.BroadcastEdgeIsLookup | ent/broadcastrecipient.go:65-83 | `BroadcastOrErr` gives the stored broadcast with the foreign key's id if the nested query accepts it, else NotFound |
| EagerTheorems.WorkspaceEdgeIsLooked | ent/broadcastrecipient.go:65-72 | `WorkspaceOrErr` gives what the nested query fetched under the foreign key, else NotFound, whatever the other edge loads |
| EagerTheorems.RecipientsEdge | ent/broadcast.go:97-102 | `RecipientsOrErr` gives the broadcast's part of what was fetched for all |
| EagerTheorems.RecipientsAreChildren | ent/broadcast_query.go:484-513 | a recipient is in the list iff it is a stored, accepted recipient of that broadcast |
| EagerTheorems.DirectionsAreInverse | ent/broadcastrecipient_query.go:482-510 | for any windowless nested queries: r is in b's loaded list and r's nested query accepts b iff loading r's broadcast gives b and b's nested query accepts r |
| EagerReuse.ProjectionKeepsEdges | ent/broadcastrecipient_query.go:524-546 | for any selected fields the edges are those loaded with all columns |
| EagerReuse.RunLeavesFilters | ent/broadcast_query.go:493-499 | a run leaves one key filter more in each nested query, and the foreign key selected in that of recipients |
| EagerReuse.SecondRunSeesOldParentsOnly | ent/broadcast_query.go:496-499 | a second run of the same object loads children only for parents of the first |
| EagerLoader.GroupByKey | ent/broadcastrecipient_query.go:483-491 | the key list is the foreign keys in order of first appearance; the map partitions the nodes and keeps their order |
| EagerLoader.AssignToGroups | ent/broadcastrecipient_query.go:500-508 | the in-place assignment loop equals its value form, error included |
| EagerLoader.IndexAndEmpty | ent/broadcast_query.go:485-493 | ids in order, each id mapped to the last node with it, every list emptied |
| EagerLoader.AppendToHolders | ent/broadcast_query.go:504-511 | the append loop equals its value form, error included |
| EagerLoader.LoadOne | ent/broadcastrecipient_query.go:482-510 | nodes and nested query after the loader |
| EagerLoader.LoadMany | ent/broadcast_query.go:484-513 | nodes and nested query after the loader |
| EagerLoader.All | ent/broadcast_query.go:409-453 | results and query object after `sqlAll`, at any nesting depth, equal those on values |
| AuditUpsert.TypedCallsSpareImmutables | ent/auditentry_create.go:496-546 | any typed upsert calls in any order set no immutable column to a new value |
| AuditUpsert.IgnoredSetIsTheRightOne | ent/auditentry_create.go:778-830 | a set of ignored columns protects every conflicting row of a batch iff it has the immutable columns of all builders |
| AuditUpsert.BulkIgnoresWhatAnyBuilderSets | ent/auditentry_create.go:778-830 | in bulk the columns left alone are exactly the immutable ones present in at least one builder |
| AuditUpsert.DocumentedFormOverwrites | ent/auditentry_create.go:485-495 | the documented equivalent overwrites every other proposed immutable column |
| AuditUpsert.DocumentedFormAgreesElsewhere | ent/auditentry_create.go:485-495 | and treats the remaining columns as the code does |
| AuditRuns.StepKeeps | ent/auditentry_update.go:119-198 | one create, upsert or update changes an immutable column exactly when an update's mutation clears it, and then to null |
| AuditRuns.RunKeeps | ent/auditentry_update.go:308-407 | the same over every run, creates that bypass their check included; rows keep their ids |
| AuditRuns.RequiredImmutablesSurvive | ent/auditentry_create.go:496-546 | created_at, entry_key, occurred_at, actor_kind, action and target_type never change over any run |
| AuditDelivery.EntryIsWrittenOnce | ee/audit/audit.go:98-103 | after one successful delivery, any redeliveries of the same key leave the table unchanged |
| AuditDelivery.EachEntryOnce | ee/audit/audit.go:98-103 | over any run of deliveries of any keys, at most one row holds each workspace and key, stored rows stay as they are, every delivery that succeeded has its entry at the end, and every new row is exactly what one of them asked for |
| AuditDelivery.DeliveredIsStored | ee/audit/audit.go:67-105 | a successful delivery leaves an entry that was there as it is, and otherwise adds a row with exactly the mutation's value in every column it set, the time of the save in the times it left out, and null elsewhere |
| AuditConflicts.CreateGoesRowByRow | ent/auditentry_create.go:322-371 | any successful create, single or bulk, with any upsert calls, goes row by row: without a conflict a new row that is exactly what the mutation asks for; with one the stored row is skipped if a call says so, else only its updated_at and workspace change, each as the last call that concerns it says |
| AuditConflicts.CreatesAreRecorded | ent/auditentry_create.go:322-371 | when no row of the batch meets a stored one, every mutation has its own new row at the end, exactly as asked, under its own id if it has one, and older rows stay |
| AuditConflicts.ImmutablesAreTheRest | ent/auditentry/auditentry.go:63-81 | the immutable columns are the id and every column but updated_at and the workspace |
| AuditRows.ClauseOfCalls | ent/auditentry_create.go:496-601 | the clause of a list of calls: the last target named; skipping if any call says so; refused if the calls name targets only |
| AuditRows.TargetAloneIsRefused | ent/auditentry_create.go:302-312 | a create whose calls name only conflict targets is refused |
| AuditRows.CreateReportsFirstFault | ent/auditentry_create.go:251-300 | the first mutation with a required column missing or a value its validator refuses is reported with such a column |
| AuditUpdates.UpdatesWrite | ent/auditentry_update.go:119-198 | a successful update changes exactly the rows it reaches: updated_at to the value set or the time of the save, the workspace to the value set or null if cleared, cleared nullable columns to null, nothing else |
| AuditUpdates.UpdateRefusals | ent/auditentry_update.go:308-407 | when an update fails, in the order of its checks, and that it succeeds otherwise |
| AuditBuilders.Create.DoAll | ent/auditentry_create.go:441-601 | any chain of upsert calls leaves exactly their conflict list |
| AuditBuilders.IgnorePresentColumns | ent/auditentry_create.go:780-828 | the loop over builders ignores exactly the immutable columns present in some builder |
| AuditBuilders.BuildUpdateSet | ent/auditentry_create.go:496-577 | the update set built in place is the conflict list resolved in order on the mutations as they are then |
| AuditBuilders.CreateBulk.Exec | ent/auditentry_create.go:888-901 | refuses in order: client error, first builder with its own conflict list, missing options; else saves |
| AuditBuilders.Create.Exec | ent/auditentry_create.go:604-609 | missing options are refused, otherwise the save's exact effect; done only on success |
| AuditBuilders.FillStatement | ent/auditentry_update.go:132-190 | of all a mutation holds only updated_at, the workspace and cleared nullable columns get into the statement |
| AuditBuilders.Update.SaveMany | ent/auditentry_update.go:119-198 | table, error and done mark after `Save` |
| AuditBuilders.Update.SaveOne | ent/auditentry_update.go:308-407 | the same for one entry, with its checks in order |
| FanOut.RunsAreBounded | e2e/workspace.go:184-198 | every schedule keeps the invariant, and steps taken plus steps owed are always 5n + 2 |
| FanOut.EveryScheduleReturns | e2e/workspace.go:184-198 | no schedule deadlocks or runs forever; after the return no worker can still write |
| FanOut.NoneBeginsEarly | e2e/workspace.go:186-195 | no attempt begins before all n workers were launched and the barrier opened |
| FanOut.ReturnsOwnResults | e2e/workspace.go:188-197 | at return each attempt began exactly once and its slot holds its result |
| FanOut.RunHistory | e2e/workspace.go:188-194 | what the steps so far say about a worker and its slot, at every point of every schedule |
| MailWait.Find | e2e/inbox.go:132-149 | the first row with the exact recipient, up to case, and subject |
| MailWait.WaitDecides | e2e/inbox.go:98-121 | the first turn that is the last or finds a message decides: the message found there, or the failure to get it; no mail exactly if none is found |
| MailWait.SomeTurnDecides | e2e/inbox.go:98-121 | and such a turn exists |
| MailWait.OnlyMatchesAreReturned | e2e/inbox.go:98-119 | a message comes only from an exact match seen in some turn |
| MailWait.KeptIsLastOwnOutcome | e2e/inbox.go:109-113 | the error kept is that of the last turn not cut short by the wait's own deadline |
| MailWait.TimeoutReports | e2e/inbox.go:109-121 | a timeout reports the listing's failure, else the error of the last turn whose search did not fail for the reason the wait's context had ended with |
| MailWait.Inbox.Wait | e2e/inbox.go:98-119 | the polling loop returns and remembers what its value form says |
| MailWait.RemembersWhatWasMatched | e2e/inbox.go:151-157 | over all lookups the remembered ids are the matched ones, without duplicates |
| MailWait.Session | e2e/inbox.go:159-165 | after any lookups, cleanup deletes exactly the matched messages from the shared store |
| MailWait.Mailpit.Remove | e2e/mailpit.go:152-157 | removing no ids removes nothing, although the endpoint would remove all |
| ListUnsubscribe.MatchingIsSplitting | e2e/message.go:11-12 | leftmost matching equals splitting at closing brackets, on every string |
| ListUnsubscribe.ReadingUndoesWriting | e2e/message.go:11-12 | reading gives back the entries whatever other text separates them |
| ListUnsubscribe.ReadingUndoesPrinting | e2e/message.go:11-12 | reading undoes printing iff no entry has a closing bracket |
| ListUnsubscribe.EveryValueIsWritten | e2e/message.go:11-12 | every value is its entries in brackets plus separating text: nothing lost or invented |
| ListUnsubscribe.UnsubscribeURL | e2e/message.go:28-48 | of the first value under the canonical header name, the first http(s) entry, or empty |

## Left out

- BulkRefinement.SaveReportsFirstRefusal: hooks call next once and pass its answer on; a hook that wraps an error or retries changes which error comes out, and what the table holds then is in `BulkLimits.ReportIsRight`. A hook that hands on another builder's mutation is not modelled.
- SingleSave.BulkRefinesOneByOne: conflict options are not part of it; without them the two id write-back tests (`== 0` in bulk, `!=` in single) coincide. When a check refuses a builder the two report different errors only if an earlier insert fails first, which one-by-one meets earlier.
- RowCreate.CreateThenRead: one INSERT; how a batch insert fills a column that only some of its rows have is library code and not part of this model.
- SingleSave.SingleStoresCheckedRows: a single save starts from the mutation after `defaults`, which is one call of the function `RowCreate.DefaultsFillGaps` describes.
- BulkCreate.PlainCreate: builders have no hooks; what hooks make of the defaulted mutations is in `BulkRefinement.SaveReportsFirstRefusal`.
- QueryCalls.RunCalls: a query starts without a traversal path; sorting is the database's, any permutation of the rows for the order terms.
- BulkSave.Run: each builder has its own mutation at the start; the same builder given twice to `CreateBulk` is not modelled, nor is `mutation.id` staying a pointer into the returned node.
- QueryPlan.CompilationsAgree: a traversal path is a flag only; the path's own statement is not modelled.
- QueryBuilder.Query.Clone: predicates, orders and fields are values, so sharing of the backing arrays of Go slices between a query and its clone is not captured.
- EagerTheorems.BroadcastEdgeIsLookup: a row whose foreign key is NULL decodes to key 0, so it would get a broadcast with id 0 if there were one; the statement says so through `OrZero`.
- EagerTheorems.DirectionsAreInverse: nested queries have no window of their own, and stored recipients have a broadcast_id, which the table declares NOT NULL.
- EagerLoader.All: neighbours are kept as values once loaded; that several nodes share one neighbour object is not captured. The decoder of workspaces is given by its effect only.
- RowCreate.CreateSpecIsFaithful: the if-chain of `createSpec` is a walk over the list of copied columns in the source's order; the recipients edge of a broadcast, which writes to the other table, is not modelled.
- AuditRuns.RunKeeps: raw `OnConflict` options, `Modify` and deletes are outside a run; hooks are covered because steps allow any mutation, also unchecked ones, but their calls are not modelled again here.
- AuditBuilders.CreateBulk.Save: the chain of closures is not repeated for audit entries; checks run in builder order before the batch, and ids of upserted rows are not reported back.
- AuditDelivery.EntryIsWrittenOnce: assumes the conflict lookup finds a row with the same workspace and key if one is stored.
- MailWait.Inbox.Wait: polling turns are given as a sequence that the deadline ends; clocks, the goroutine of `RequireNone` and the text of the timeout error are not modelled.
- MailWait.Session: lookups of one inbox happen in some order; the mutex is what makes each of them one step.
- FanOut.RunsAreBounded: an attempt always returns; a panic in an attempt is not modelled.
- ListUnsubscribe.UnsubscribeURL: header-name normalisation is a parameter.
- SQL text, drivers, interceptors, `Modify`, `ForUpdate`, `ForShare`, `Count`, `GroupBy` and aggregates: library code or thin wrappers.
- The `...X` variants, `SetNillable...` and one-line setters, `String`: easy members only.
- The other generated entities, and the upserts of Broadcast and BroadcastRecipient: instances of the same template with fewer immutable columns.
- Broadcast and automation engines, role rules, configuration, process control: decided elsewhere in the repository.
