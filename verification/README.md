# tatara-memory: verified protocols and algorithms

A Dafny model of the parts of tatara-memory whose correctness spans several functions, and proofs about them.
`dafny verify dfyconfig.toml` checks the whole project.

- **Ingest jobs.** `IngestModel` has the job and item records and the store operations on them; `MemStore` is the
  in-memory store, the enqueuer and one worker's run; `PgStore` is the Postgres store, proved to refine the same
  operations. `IngestRun` is the protocol: any number of workers, each with what it remembers between two store
  calls, failing calls, periodic resets, stops and crashes. `IngestExact`, `IngestStranded` and `InsertGuard` prove
  what holds in every run, exactly when the counters are exact, how often CreateMemory is called for an item, and how
  often the client sends it.
- **Code graph.** `Reconcile` is the file-granular replace over the graph tables. `Walks` holds the graph
  notions and `RecursiveCte` the evaluation of a recursive query; `NeighborQuery`, `ShortestPathQuery` and
  `ImportCycleQuery` give the three queries their graph-theoretic meaning. `Freshness` is the worker with its claims,
  semaphore and drain, and the optimistic analytics recompute. `LikeEscape` is the literal search. `Cohesion` is the
  analytics graph and its density.
- **Memories.** `LightragFake` is the synchronous upstream, `Purge` the resumable deletion against it, `Tombstones` the
  visibility protocol over an asynchronous upstream, `ReaperSweeps` the sweeps and their backoff, `EdgeId` the edge
  identifiers and the edge listing that relies on them.
- **Runtime.** `Migrations` is the migration runner, `Admission` and `PoolBudget` the limiters and the connection
  budget they keep together with the workers, `BusyPolling` the upstream client's retry loops. `Basics` is what
  several modules share.

A protocol is a total function from a state and a step to the next state; a step that is not enabled changes
nothing, so every sequence of steps is a run and the theorems quantify over all of them. Outside behaviour
(answers, failures, durations, random ids, clocks) enters as parameters. Code that works step by step on
stored state is a class or a loop, proved against a function that the lemmas are about.

Where the code does not do what its comments or callers may expect, the exact condition is proved:
the counters of an ingest job are exact if and only if no stale queued snapshot is written back (`IngestExact.ExactRunIff`);
hyperedge members survive a repeated push if and only if nothing was taken over (`Reconcile.MembersTwiceIff`);
a deleted memory stays hidden if and only if it is tombstoned, or its documents are gone, when the delete is
acknowledged (`Tombstones.FinalIffHidden`);
the connection budget holds if and only if both classes are bounded and the sum does not overflow (`PoolBudget.BudgetHoldsIff`);
a running ingest job that nobody holds a snapshot of can still be finished if and only if its counters are exact
(`IngestStranded.FinishableIff`);
a shortest path is the chain or nothing if and only if no id has a '|' or some piece of an id is not stored (`ShortestPathQuery.ChainOrEmptyIff`);
overlapping recomputes keep clean repos current if and only if none commits late (`Freshness.FreshRunIff`);
a clean repo's betweenness values are those of its graph if and only if the graph is within the node limit
(`Freshness.CleanIsRankedIff`).
The comment in internal/httpapi/admission.go:206-207 allows up to +50 %; the table stops at +3/8.

## Model

| member | source | states |
|---|---|---|
| IngestRun.CountersCovered | internal/ingest/pool.go:224-345 | In every interleaving of any number of workers, failing store calls, periodic resets, stops and crashes, stored done and failed never exceed the numbers of done and failed items, and the error list has length min(failed, 50). |
| IngestRun.TerminalIsHonest | internal/ingest/pool.go:295-345 | In every such run a terminal job status means every item is terminal, the counters are exact and sum to the total, and succeeded / failed / partial is the right class. |
| IngestRun.ItemsAreKept | internal/ingest/pool.go:224-345 | From any state on, whatever workers and resets do: a stored job stays stored, its items keep their keys and texts, and an item that is done or failed stays so with its error. |
| IngestExact.JobAfter | internal/ingest/pool.go:224-345 | Any protocol step does one of three things to a job: a below-the-record operation that keeps status and exactness, the whole-snapshot queued write-back, or the finalising write. |
| IngestExact.ExactStepIff | internal/ingest/pool.go:241-250 | A step keeps exact counters exact if and only if it is not a write-back of a queued snapshot whose counters the store has moved past. |
| IngestExact.ExactRunIff | internal/ingest/pool.go:241-250 | A whole run keeps a job exact at every moment if and only if no write in it is stale. |
| IngestExact.TerminalStepIff | internal/ingest/pool.go:224-250 | A step leaves a terminal status alone if and only if it does not write back a snapshot read while the job was queued. |
| IngestExact.LoneReaderRun | internal/ingest/pool.go:224-345 | If every read of a job as queued happens while no other worker is on it, then throughout the run, crashes, second reads and resets included, its counters are exact, the error list has length min(failed, 50), and a terminal status is never left. |
| IngestExact.OnlyReaderRun | internal/ingest/pool.go:180-250 | In particular when one worker alone ever reads the job as queued, however often it crashes before its write-back and reads again, and whoever else helps to drain it. |
| IngestStranded.LateWriteStrands | internal/ingest/pool.go:241-250 | When one worker holds a queued snapshot of an exact job and nobody else holds a snapshot of it, its write-back leaves the job running with inexact counters if and only if the snapshot is stale. |
| IngestStranded.LateWriteReachable | internal/ingest/pool.go:190-250 | Even a finished job can be hit, for every job id and item: returns a run to a succeeded job with exact counters and only terminal items that the pending write-back strands. |
| IngestStranded.StrandedForever | internal/ingest/pool.go:295-345 | A running job with inexact counters that nobody holds a snapshot of never becomes terminal again, whatever workers and resets do. |
| IngestStranded.FinishableIff | internal/ingest/pool.go:190-345 | In every reachable state: a running job that nobody holds a snapshot of can still be finished by some continuation if and only if its counters are exact. |
| InsertGuard.InsertsBounded | internal/ingest/pool.go:373-416 | In every run CreateMemory is called for an item at most once plus the number of times a reset returned it to pending while no track id was stored, and the client sends at most four requests per call, so at most 4 * (1 + resets). |
| InsertGuard.PostsExec | internal/lightrag/http.go:188-297 | Over any part of any run, each call stands for at least one request and at most four. |
| InsertGuard.BoundsReached | internal/ingest/pool.go:373-416 | Both bounds are sharp: for any item and any number of resets there is a run, with a crash between each call and the write of its track id, that reaches both. |
| InsertGuard.NoInsertAfterStored | internal/ingest/pool.go:373-396 | Once a track id is stored it stays stored, and CreateMemory calls made plus claims that may still call never grow. |
| InsertGuard.LaterClaimsInsertNothing | internal/ingest/pool.go:373-396 | After the moment a track id is stored, only claims already under way without one can still call CreateMemory, each sent at most four times; a later claim calls nothing. |
| IngestModel.MarkOk | internal/ingest/memstore.go:135-168 | Marking an item moves one item into a terminal status exactly when it moves the matching counter: exactness is kept in both directions, coverage and the error cap are kept. |
| IngestModel.ResetOk | internal/ingest/memstore.go:192-208 | A reset keeps keys, counters and terminal items; exactness is kept in both directions. |
| MemStore.MemStore.CreateJob | internal/ingest/memstore.go:35-47 | A new id stores the record with all items pending, without error and track id, with their keys and texts; a taken id is refused and nothing changes. |
| MemStore.MemStore.UpdateJob | internal/ingest/memstore.go:61-71 | Replaces the whole stored record of a known job and nothing else; an unknown job is an error. |
| MemStore.MemStore.ClaimNextItem | internal/ingest/memstore.go:75-91 | Takes the first pending item, with its stored track id, and marks it running; none pending or an unknown job changes nothing. |
| MemStore.MemStore.SetItemTrackID | internal/ingest/memstore.go:95-109 | Stores the track id on the item with this key and nothing else; an unknown key is no error. |
| MemStore.MemStore.MarkItemDoneAndProgress | internal/ingest/memstore.go:135-168 | Item and job counter move together; an item that is already terminal is left alone. |
| MemStore.MemStore.ResetRunningItems | internal/ingest/memstore.go:192-208 | Every running item of an unfinished job returns to pending, nothing else changes, and the result is the exact number of such items. |
| MemStore.Enqueue | internal/ingest/enqueue.go:50-81 | Fills missing keys in place; refused as empty, as duplicate exactly when two keys are equal, or as taken; otherwise stores a queued job with distinct keys and total equal to the item count, which is the protocol step Enqueue. |
| MemStore.RunJob | internal/ingest/pool.go:224-345 | An undisturbed run terminates by the pending-item measure and touches no other job. A pending item fails, with its error, exactly when no track id is stored and its insert fails or answers with an empty one, and is done otherwise, with the stored or new track id; no other item changes. The counters gain exactly the numbers of newly failed and done items, the error list exactly the newly failed items' errors in order up to the cap, and the job is finalised exactly when every item is accounted for. |
| MemStore.UndisturbedFinishes | internal/ingest/pool.go:295-345 | If no item was left running by somebody else, such a run ends with every item terminal, counters that sum to the total, and the right class. |
| MemStore.ClaimIsStep | internal/ingest/memstore.go:75-91 | The store taking its first pending item is the protocol step Claim for that item. |
| PgStore.PgStore.UpdateJob | internal/ingest/pgstore.go:121-135 | Refines the abstract whole-record write: tables that matched the model match it after the write, for any record; no row is affected exactly when the job is unknown. |
| PgStore.PgStore.ClaimNextItem | internal/ingest/pgstore.go:140-171 | Whatever pending row the query picks among those no other transaction holds, the result is the abstract claim of that item with its stored track id; no row means every pending item is held elsewhere. |
| PgStore.PgStore.SetItemTrackID | internal/ingest/pgstore.go:176-185 | Refines the abstract track-id write. |
| PgStore.PgStore.MarkItemDoneAndProgress | internal/ingest/pgstore.go:209-272 | The two-table transaction refines the abstract mark, with the guard on terminal rows, the counter and the capped error list. |
| PgStore.PgStore.ResetRunningItems | internal/ingest/pgstore.go:360-370 | The single UPDATE refines the reset of every unfinished job. |
| Freshness.CleanIsCurrent | internal/codegraph/analytics_store.go:61-180 | In every interleaving of pushes and of recomputes run by the worker, a repo that is not dirty has communities computed from its current graph, entities and edges alike. |
| Freshness.CleanIsRankedIff | internal/codegraph/analytics_store.go:108-141 | In every such run a clean repo's betweenness values are those of its current graph if and only if there is no positive node limit or the graph has at most that many entities; above the limit they come from an older graph, or there are none. |
| Freshness.RanksGoStale | internal/codegraph/analytics_store.go:108-180 | Such repos exist, with one worker and no overlap: recompute within the limit, push above it, recompute; the repo is clean, its communities current and its betweenness one version old. |
| Freshness.OneRecompute | internal/codegraph/worker.go:147-201 | From rest, one tick with one dirty repo, run to the end, replaces that repo's analytics, cleans it, changes nothing else and comes back to rest. |
| Freshness.FreshRunIff | internal/codegraph/analytics_store.go:61-180 | With any number of recomputes overlapping on any repos, started here or by other processes: at every moment of a run every clean repo has current communities, and current betweenness exactly when its graph is within the limit, if and only if no step of the run commits, over a clean repo, reads of an older graph. |
| Freshness.OwnRunsNeverLate | internal/codegraph/worker.go:147-201 | The claims of the worker are enough: no step of any of its own runs is such a late commit. |
| Freshness.ReplicasGoStale | internal/codegraph/analytics_store.go:61-180 | Runs that go stale exist: two processes recompute a freshly pushed repo and a push falls between their reads. |
| Freshness.CurrentStepIff | internal/codegraph/analytics_store.go:150-180 | The single step behind it: a step keeps a repo fresh, betweenness and the node limit included, if and only if it is not a late commit. |
| Freshness.ReadsExec | internal/codegraph/analytics_store.go:61-110 | In every run, whatever overlaps: what a recompute has loaded stays current until a push moves the time stamp. |
| Freshness.OverlapGoesStale | internal/codegraph/analytics_store.go:61-180 | Two overlapping recomputes of one repo leave it clean with communities one version behind: single-flight is needed. |
| Freshness.BoundedAndSingle | internal/codegraph/worker.go:147-201 | At any time at most one recompute per repo is live and at most the semaphore capacity in all. |
| Freshness.ReturnLeavesNothing | internal/codegraph/worker.go:126-201 | When Run has returned no recompute is left, no repo is claimed and every semaphore slot is free. |
| Freshness.CanReturn | internal/codegraph/worker.go:126-201 | And it can always return: from every reachable state some continuation in which its context is cancelled, tasks end and claims are given back leads to the end of Run. |
| Freshness.QuietRecomputeCleans | internal/codegraph/analytics_store.go:61-180 | In any run a recompute whose repo gets no push between its snapshot and its commit, whatever else happens in between, leaves the repo clean at the graph it had at the snapshot, with current communities, and with current betweenness if and only if that graph is within the limit. |
| Reconcile.PushGraph | internal/codegraph/service.go:31-69 | Accepts exactly the pushes in scope (every owning file listed, roles valid, repo and files present) and then leaves the tables as one reconcile does; a refused push changes nothing. |
| Reconcile.RefusedIff | internal/codegraph/service.go:31-62 | A push is refused exactly when it names no repo or no file, or an entity's non-empty file, an edge's or a symbol's file is not listed, or a symbol's role is neither provides nor requires. |
| Reconcile.GraphStore.Reconcile | internal/codegraph/pgstore.go:74-214 | The transaction over six tables equals the file-granular replace: delete what the files own for the extractor, upsert the push in order, mark analytics dirty. |
| Reconcile.GraphStore.DeleteHyperedgesOf | internal/codegraph/pgstore.go:102-110 | Deletes the owned hyperedges and with them exactly their member rows. |
| Reconcile.PushedEntityAfter | internal/codegraph/pgstore.go:113-128 | The last pushed entity with an id is the row of that id after the push, column by column, extractor included. |
| Reconcile.OtherEntityAfter | internal/codegraph/pgstore.go:86-128 | Every other entity row is as it was, except that the rows of pushed files written by this extractor are gone, and no others. |
| Reconcile.OwnedEntitiesArePushed | internal/codegraph/pgstore.go:86-128 | So after a push every entity row of its repo, extractor and files has a pushed id: what a file no longer has is gone. |
| Reconcile.PushedEdgeAfter | internal/codegraph/pgstore.go:130-151 | The last pushed edge with a key is the row of that key; without score and tier it is EXTRACTED with score 1, without a tier alone EXTRACTED from 1 on, AMBIGUOUS up to 0.3 and INFERRED in between. |
| Reconcile.OtherEdgeAfter | internal/codegraph/pgstore.go:86-151 | Every other edge row is as it was, except that the rows of pushed files written by this extractor are gone. |
| Reconcile.PushedSymbolAfter | internal/codegraph/pgstore.go:153-163 | The last pushed symbol with a key is the row of that key. |
| Reconcile.OtherSymbolAfter | internal/codegraph/pgstore.go:93-101 | Every other symbol row is as it was, except that a push of the AST extractor removes those of its files. |
| Reconcile.PushedHyperedgeAfter | internal/codegraph/pgstore.go:165-182 | The last pushed hyperedge with an id is the row of that id; a missing score counts as 1. |
| Reconcile.OtherHyperedgeAfter | internal/codegraph/pgstore.go:107-109 | Every other hyperedge row is as it was, except that the rows of pushed files written by this extractor are gone. |
| Reconcile.MembersAfter | internal/codegraph/pgstore.go:102-192 | The member rows after a push are the pushed ones and those stored before, except of hyperedges that a pushed file owned. |
| Reconcile.HashesAfter | internal/codegraph/pgstore.go:195-213 | Pushed hashes replace stored ones and no others change; the repo is dirty as of the push and other repos are not touched. |
| Reconcile.OwnedEdgesArePushed | internal/codegraph/pgstore.go:130-160 | After an accepted push the edges owned by its files for its repo and extractor are exactly the pushed ones, normalised, the last of each key winning. |
| Reconcile.OtherEdgesUnchanged | internal/codegraph/pgstore.go:74-160 | Every edge neither pushed nor owned by the pushed files is as it was. |
| Reconcile.OtherScopesUnchanged | internal/codegraph/pgstore.go:74-160 | Edges of other repos and of other extractors are never touched. |
| Reconcile.OtherReposUnchanged | internal/codegraph/pgstore.go:74-214 | Every row of every other repo is as it was, in all seven tables. |
| Reconcile.ForeignEntityTakenIff | internal/codegraph/pgstore.go:113-128 | An entity row of another extractor changes if and only if its id is pushed, and then it becomes the pushed row, extractor included. |
| Reconcile.ForeignHyperedgeTakenIff | internal/codegraph/pgstore.go:161-176 | A hyperedge row of another extractor changes if and only if its id is pushed, and then it becomes the pushed row. |
| Reconcile.SemanticKeepsSymbols | internal/codegraph/pgstore.go:74-180 | A push of another extractor that carries no symbols leaves cross-repo symbols unchanged. |
| Reconcile.NoMemberDangles | internal/codegraph/pgstore.go:95-196 | Every hyperedge member row belongs to a stored hyperedge after a push if it did before. |
| Reconcile.ReconcileTwice | internal/codegraph/pgstore.go:74-214 | Reconciling one accepted push twice equals once for entities, edges, symbols, hyperedges and file hashes. |
| Reconcile.MembersTwiceIff | internal/codegraph/pgstore.go:95-196 | Hyperedge members too are the same after the second time if and only if the first push took over no member row it does not push itself. |
| Reconcile.MembersTwiceFails | internal/codegraph/pgstore.go:95-196 | Pushes that violate that condition exist: two files sharing a hyperedge id. |
| Upserts.UpsertFinal | internal/codegraph/pgstore.go:121-196 | A sequence of ON CONFLICT DO UPDATE rows leaves the last row of each key and every other key untouched. |
| RecursiveCte.EvaluatesToLevels | internal/codegraph/pgstore.go:295-365 | A depth-capped recursive query evaluated with duplicate elimination terminates, and its result is exactly the rows derived by some number of uses of the recursive term. |
| NeighborQuery.AllowedIsListed | internal/codegraph/pgstore.go:370-392 | The comma-joined relation filter allows exactly the listed relations (all, when none is listed) if and only if no name has a comma and the list is not the one empty name. |
| NeighborQuery.WalkTableIsReach | internal/codegraph/pgstore.go:295-365 | The working table holds exactly the (vertex, length) pairs of filtered walks up to the depth. |
| NeighborQuery.NeighborsExact | internal/codegraph/pgstore.go:295-402 | Before its LIMIT the query returns exactly the stored entities some filtered walk of 1 to depth edges reaches, each once, with the length of its shortest such walk. |
| NeighborQuery.InMirrorsOut | internal/codegraph/pgstore.go:295-365 | Among stored entities, v finds u going in at depth d if and only if u finds v going out at depth d. |
| NeighborQuery.WalkedEdgesAre | internal/codegraph/pgstore.go:295-385 | "out" walks an edge from its source to its target and "in" the other way; an edge counts if and only if its relation is allowed and, when a filter is set, its score and tier pass. |
| NeighborQuery.OutNeighbors | internal/codegraph/pgstore.go:295-402 | Over the stored edges, "out" finds exactly the stored entities at the end of a filtered walk of 1 to depth edges from the start, with the length of the shortest. |
| NeighborQuery.InNeighbors | internal/codegraph/pgstore.go:311-402 | And "in" exactly those at the beginning of such a walk to the start. |
| NeighborQuery.ZeroFilterNeighbors | internal/codegraph/pgstore.go:329-402 | With non-negative scores both variants return the same neighbours. |
| ShortestPathQuery.TableIsEnumerated | internal/codegraph/pgstore.go:412-428 | The pruned recursion enumerates exactly the simple paths from the start that do not pass through the target, up to the cap. |
| ShortestPathQuery.PickedIffReachable | internal/codegraph/pgstore.go:412-428 | A row is found if and only if some walk over allowed relations with at most maxDepth edges exists. |
| ShortestPathQuery.PickedIsShortest | internal/codegraph/pgstore.go:412-428 | The picked row is a walk from start to target and no walk of any length is shorter. |
| ShortestPathQuery.PathOverRows | internal/codegraph/pgstore.go:412-428 | Over the stored edges: a row is picked if and only if at most maxDepth edges of allowed relations lead from start to target, and every picked row is such a walk and as short as any. |
| ShortestPathQuery.ResolvedIffStored | internal/codegraph/pgstore.go:430-472 | The answer is the picked chain if and only if every id on it is a stored entity and none contains the separator. |
| ShortestPathQuery.EmptyIff | internal/codegraph/pgstore.go:445-472 | The answer is empty if and only if some separator-delimited piece of some id on the chain is not stored. |
| ShortestPathQuery.ChainOrEmptyIff | internal/codegraph/pgstore.go:430-472 | The answer is the chain or nothing if and only if no id has a separator or some piece of an id is not stored. |
| ShortestPathQuery.SeparatorInId | internal/codegraph/pgstore.go:430-472 | A witness that it can be neither: an id whose two pieces are stored is answered with the pieces. |
| SplitJoin.SplitOfJoin | internal/codegraph/pgstore.go:430-445 | Splitting a joined string gives its parts back if and only if there is a part and none contains the separator. |
| ImportCycleQuery.CountedIffOnCycle | internal/codegraph/pgstore.go:588-607 | A node is counted if and only if it lies on a simple directed import cycle of length 2 to 20, although rows are walks that may cross self-imports. |
| ImportCycleQuery.CountIsExact | internal/codegraph/pgstore.go:588-607 | The reported number is the number of nodes on such cycles. |
| ImportCycleQuery.CountedOverRows | internal/codegraph/pgstore.go:588-607 | Over the stored edges: a node is counted if and only if it lies on a cycle of 2 to 20 distinct nodes, every step an imports edge. |
| LightragFake.Client.InsertText | internal/lightrag/fake/fake.go:144-180 | Adds one document under a track id that was not in use, and keeps the two maps inverse to each other. |
| LightragFake.Client.DeleteDocs | internal/lightrag/fake/fake.go:206-241 | All or nothing: an unknown id changes nothing; otherwise exactly these documents go, every track keeps its other documents in order, and emptied tracks disappear. |
| Purge.Service.DeleteDocs | internal/memory/service.go:380-401 | The outcome is fixed by how the call goes; the track dies exactly on success and on a lost answer, and only the latter adds this call to the lost ones. |
| Purge.Service.DeleteMemoryRaw | internal/memory/service.go:360-402 | Up to four calls (look-up, mark, delete, rollback) fix everything: the outcome, whether the track dies, and whether the tombstone stands afterwards; a delete that is not accepted takes it back unless the rollback itself fails. |
| Purge.RefusalLeavesNoTombstone | internal/memory/service.go:380-401 | Whenever every call but the delete itself works, a refused, busy or failed delete leaves no tombstone. |
| Purge.Service.DeleteMemoriesBySource | internal/memory/service.go:455-519 | Only this file's memories die and only its rows go, a row goes only when its memory is dead. A success leaves no row, loses no answer, returns exactly the number of live memories the file owned and leaves each with a tombstone; a failure means that some outside call did not work; any call without a lost answer returns exactly the deaths. |
| Purge.Service.DeleteMemoriesBySources | internal/memory/service.go:408-449 | The same over a file list: files before the failing one are cleared, later ones untouched, the total includes the failing file's progress, a success returns exactly the number of live memories the files owned, and a failure means that some outside call did not work. |
| Purge.ProgressTrans | internal/memory/service.go:455-519 | Purge progress composes: two partial purges are one, with their counts and their lost answers added. |
| Purge.PurgeMeans | internal/memory/service.go:455-519 | In terms of the index rows: rows of other files and repos stay, and so does every memory without a row of the listed files; once these have no rows left none of their memories is live, and without a lost answer the count is the number of distinct live memories they had. |
| Purge.PurgeAddsUp | internal/memory/service.go:408-519 | For any number of tries cut short anywhere, with anything done to other memories and files between them: once the listed files have no rows, exactly the memories they owned at the start have died in the tries, none is live and, when no delete answer was lost, the returned counts sum to exactly their number; in general the lost delete answers make up the difference. |
| Purge.Service.PurgeUntilDone | internal/memory/service.go:408-519 | The runs of the purge are such tries: a client that calls it until it succeeds is told, in all, exactly the number of live memories the files owned when it began, if no delete answer was lost. |
| Purge.LiveStaysIndexed | internal/memory/service.go:455-519 | A memory that is still live never loses its index row to a purge over any number of tries, so a retry finds it. |
| Tombstones.HiddenStepIff | internal/memory/reaper.go:123-222 | A hidden memory becomes visible in a step if and only if a refused delete takes its tombstone back over living documents; neither reaper ever does it. |
| Tombstones.DeletedStaysDeleted | internal/memory/service.go:294-402 | After the first delete that returns without error over a tombstone in place, with no other delete under way or started later, no GetMemory begun afterwards ever returns the memory, in any interleaving of early acceptance, asynchronous completion, crashed deletes and reaping. |
| Tombstones.SoleDeleteIsFinal | internal/memory/service.go:360-402 | A caller that deletes one call at a time and stops at the first success meets those conditions, whatever refusals, readers and reapers came before. |
| Tombstones.FinalIffHidden | internal/memory/service.go:372-402 | At the first acknowledged delete, later reads are safe in every continuation if and only if the memory is hidden at that moment. |
| Tombstones.RacingRefusal | internal/memory/service.go:380-402 | Two racing deletes can leave the accepted one without a tombstone: a concrete run. |
| Tombstones.LaterRefusalUnhides | internal/memory/service.go:380-402 | One more refused delete after an acknowledged one makes the memory visible again while its documents exist. |
| Tombstones.DeleteCompletes | internal/memory/reaper.go:123-204 | A marked delete can always be finished: its documents vanish and the reaper takes the tombstone away, before or after the caller learns that the upstream accepted, and nothing else changes. |
| Tombstones.DiedIsRetried | internal/memory/service.go:360-378 | A delete whose process dies leaves its tombstone in place, and another call can take it up again. |
| ReaperSweeps.ForceReapBackoff | internal/memory/reaper.go:35-44 | The doubling loop computes min(1 h * 2^(attempts-1), 24 h), one hour for attempts <= 1. |
| ReaperSweeps.TombstoneStore.Mark | internal/memory/tombstone.go:31-43 | Marking again refreshes the age and keeps the re-check schedule; other rows are untouched. |
| ReaperSweeps.TombstoneStore.ListOlderThan | internal/memory/tombstone.go:91-112 | A duplicate-free batch, oldest first, of exactly the due rows up to the limit; nothing left out is older than anything listed. |
| ReaperSweeps.TombstoneStore.RecordForceCheckStillPresent | internal/memory/tombstone.go:119-129 | Bumps the attempts and sets the next check of an existing row; a missing row is no error. |
| ReaperSweeps.Reaper.Tick | internal/memory/reaper.go:123-155 | With failing listings, failing writes and a deadline anywhere, row by row: a tombstone goes exactly when a sweep reaches it, finds its documents gone and the delete works; one the forced sweep finds present is deferred; every other row is as it was. The forced sweep runs unless the first was not listed or cut short. |
| ReaperSweeps.Reaper.ForceTick | internal/memory/reaper.go:165-204 | Of the candidates reached, exactly the confirmed ones whose delete works go, and exactly those still present whose update works get one more attempt and a next check after its backoff; every other row is as it was. |
| ReaperSweeps.SweptMeans | internal/memory/reaper.go:138-204 | The same for each sweep by itself, for any table, list, answers, failing writes and deadline. |
| ReaperSweeps.DueMeans | internal/memory/tombstone.go:91-112 | A row is a candidate of the forced sweep exactly when it is older than the age and no later check is set. |
| ReaperSweeps.OnceADay | internal/memory/reaper.go:157-204 | However the sweeps fall, a stuck track whose deferrals are recorded is re-checked at most 6 times plus once per full day beyond 31 hours after its first check, and its stored attempts are the number of checks. |
| Migrations.Runner.ApplyMigration | internal/pgmigrate/pgmigrate.go:224-265 | One transaction: probe only while baselining, body unless its end state is there, stamp always; a crash rolls all of it back. |
| Migrations.Runner.Run | internal/pgmigrate/pgmigrate.go:179-212 | The loop equals the specification run cut off at any migration, before or inside its transaction; a fully stamped database opens no transaction. |
| Migrations.CrashResume | internal/pgmigrate/pgmigrate.go:179-265 | From the first k effects with a tracker inside them and exact probes, any number of cut-off runs and one completed run leave effects 0..n-1 in order and all stamped: none of the first k again, each later one exactly once. |
| Migrations.SecondRunIsIdle | internal/pgmigrate/pgmigrate.go:179-212 | A further run executes nothing, stamps nothing and commits no transaction. |
| Migrations.UnconditionalAfterFirst | internal/pgmigrate/pgmigrate.go:160-212 | After the first executed migration every later unstamped one executes, whatever its probe says. |
| Migrations.ReplaysIffUnprotected | internal/pgmigrate/pgmigrate.go:160-245 | On a database holding the first k effects a run repeats one of them if and only if some migration among them has neither a stamp nor a probe. |
| LikeEscape.EscapeIsPerChar | internal/codegraph/pgstore.go:61-68 | The three replacement passes equal one pass over the characters. |
| LikeEscape.EscapedIsLiteral | internal/codegraph/pgstore.go:61-68 | Under a backtracking LIKE matcher the escaped query, bare, with a trailing % and between two %, matches exactly the strings equal to, starting with and containing the query. |
| LikeEscape.RankIsStrongest | internal/codegraph/pgstore.go:226-245 | Up to case folding, an entity is selected if and only if it matches in some class, and its rank is the strongest class it matches in. |
| LikeEscape.EmptyQuery | internal/codegraph/pgstore.go:233-242 | An empty query selects by type alone and ranks everything alike. |
| EdgeId.DecodeEncode | internal/memory/edgeid.go:14-24 | Decoding the unpadded base64url encoding of any bytes gives them back. |
| EdgeId.LetterIs | internal/memory/edgeid.go:14-16 | The digits are the URL-safe alphabet in its order: A to Z, a to z, 0 to 9, minus, underscore. |
| EdgeId.EncodingIs | internal/memory/edgeid.go:14-16 | An encoding is one character of that alphabet for every six bits of the bytes in order, with zero bits to fill the last. |
| EdgeId.DecodableIff | internal/memory/edgeid.go:19-32 | A string decodes if and only if, line breaks aside, it has only characters of the alphabet and does not leave a single one after the groups of four; it is an identifier if and only if it decodes to something with a NUL, and is split at the first. |
| EdgeId.RoundTripIff | internal/memory/edgeid.go:14-32 | An identifier is always well-formed and URL-safe, and decodes to the pair it was made from if and only if the source has no NUL. |
| EdgeId.SameIdIff | internal/memory/edgeid.go:9-16 | Two pairs share an identifier if and only if they spell the same bytes; never, without NUL in the sources. |
| EdgeId.BreaksAreIgnored | internal/memory/edgeid.go:21-32 | A line break anywhere in an identifier gives another string that decodes to the same edge. |
| EdgeId.KeyIff | internal/memory/service.go:737-744 | The deduplication key merges two edges if and only if they have one relation and their endpoints spell the same bytes. |
| EdgeId.ListEdges | internal/memory/service.go:715-756 | Fails exactly when the label search or some graph call fails with anything but a 404; otherwise lists returned edges only, every deduplication key exactly once. |
| EdgeId.ReturnedIff | internal/memory/translate.go:201-228 | The edges listed from are exactly those of the labels' answers, with their endpoints, identifier and properties, related by "keywords" if that is not empty and by their type otherwise. |
| EdgeId.ListedOnceIff | internal/memory/service.go:723-756 | The listing holds every distinct (from, to, relation) exactly once if and only if no two returned edges look alike, which holds whenever no source has a NUL. |
| Cohesion.BuildGraph | internal/analytics/compute.go:89-112 | Two known ids are linked if and only if they differ and some edge joins them in either direction, and the edge count is the number of linked pairs. |
| Cohesion.SamePairIff | internal/analytics/compute.go:92-112 | Two edges name the same pair if and only if they join the same two ids in either direction. |
| Cohesion.Handshake | internal/analytics/compute.go:205-215 | The degrees of a member set within itself add up to exactly twice its internal links. |
| Cohesion.PairCount | internal/analytics/compute.go:216-217 | n distinct members have n(n-1)/2 unordered pairs. |
| Cohesion.ComputeCohesion | internal/analytics/compute.go:196-218 | The result is the share of member pairs that are linked, within [0, 1]; 0 for fewer than two members. |
| Cohesion.DensityBounds | internal/analytics/compute.go:193-195 | The density is 1 exactly for a fully linked member set and 0 exactly for one without internal links. |
| Admission.EveryRequestCountedOnce | internal/httpapi/admission.go:137-203 | In every run of a bounded class slots held equal requests running and never exceed the capacity, and all requests are still queued or counted once as admitted, shed or cancelled. |
| Admission.EndsAreFinal | internal/httpapi/admission.go:137-180 | A served, shed or cancelled request never moves again, and a running one can only be served. |
| Admission.ArrivalsAndWaits | internal/httpapi/admission.go:141-180 | An arrival runs at once exactly when a slot is free; a queued request that gets a slot, times out or goes away ends that way and is counted for it, and nothing else changes. |
| Admission.SlotPassesOn | internal/httpapi/admission.go:151-165 | When a running request finishes, a queued one can take its slot. |
| Admission.AdmissionLimiter.Enter | internal/httpapi/admission.go:141-150 | A free slot is taken at once, otherwise the request queues; capacity 0 passes everything through. |
| Admission.AdmissionLimiter.Wait | internal/httpapi/admission.go:161-199 | The three-way wait admits, sheds with a Retry-After value, or cancels, and only shedding advances the spread counter. |
| Admission.AdmissionLimiter.Leave | internal/httpapi/admission.go:151-156 | Gives the slot back and keeps slots equal to running requests. |
| Admission.RetryAfterSpread | internal/httpapi/admission.go:206-224 | The base is the least number of whole seconds, at least one, that covers the configured time; values stay within one and a half times the base, and any four sheds in a row are told the base, and one, two and three eighths more, once each, even where the 64-bit counter wraps. |
| PoolBudget.AcceptedSumIff | cmd/tatara-memory/config.go:359-366 | For an accepted configuration with both classes bounded, the reserved sum is below the pool size if and only if it did not overflow 64 bits. |
| PoolBudget.AcceptedIff | cmd/tatara-memory/config.go:270-368 | A configuration is accepted if and only if every option is in its range and, with both classes bounded, the reserved sum wrapped to 64 bits is below the pool size; so one in range and within budget always is. |
| PoolBudget.BudgetHoldsIff | cmd/tatara-memory/config.go:342-368 | For every accepted configuration: in every reachable state admitted bulk requests, busy ingest workers and recomputes leave a connection free, if and only if both bulk classes are bounded and the sum did not overflow. |
| PoolBudget.CanRelease | internal/codegraph/worker.go:147-201 | From any reachable state a run leads to one that holds no connection and no semaphore slot. |
| PoolBudget.OverflowIsAccepted | cmd/tatara-memory/config.go:359-366 | Two limits at the top of the integer range are accepted although they break the budget. |
| BusyPolling.DeleteDocs | internal/lightrag/http.go:331-392 | The polling loop returns the result and the number of calls of the specification trace, up to the caller's deadline when it has one and for 45 s otherwise, for any answers, durations, oversleeping and cancellation. |
| BusyPolling.PollingIsBounded | internal/lightrag/http.go:348-391 | No sleep is started that would end past the deadline, sleep i is min(200 * 2^i, 2000) ms, and a budget B >= 3000 ms allows at most 5 + (B - 3000) / 2000 calls. |
| BusyPolling.BoundIsReached | internal/lightrag/http.go:356-391 | The bound is sharp: an upstream that is always busy and answers at once is called exactly that often. |
| BusyPolling.DefaultBudget | internal/lightrag/http.go:39-49 | At most 26 calls within the default 45 s. |
| BusyPolling.FirstNotBusy | internal/lightrag/http.go:357-382 | The result is the first reply that is not busy; giving up or a cancelled wait means every reply was busy. |
| BusyPolling.PollExactly | internal/lightrag/http.go:348-391 | The whole trace: each sleep starts when the busy reply before it is in, calls, sleeps and oversleeping included; every call but the last was busy, not cancelled, and left time for another sleep; it gives up exactly when the last one did not. |
| BusyPolling.RoundTrip | internal/lightrag/http.go:188-297 | At most four attempts, one wait between two of them; a request is sent again exactly after no response, 429 or a 5xx status, and succeeds exactly when the last attempt decodes or has a status below 400. |
| BusyPolling.WaitIs | internal/lightrag/http.go:199-273 | A wait is what the server asks for, within 0 to 30 s, or else 200, 400 and 800 ms. |
| BusyPolling.WaitsAreBounded | internal/lightrag/http.go:250-273 | All waiting inside one request together is at most 90 seconds whatever Retry-After says. |

## Left out

- Stored items are values inside the job map; that the original holds pointers to them, shared under one mutex, is not modelled.
- Database errors inside a transaction are a transaction that did not happen; isolation levels, row locks and SKIP LOCKED contention are one atomic step each.
- PgStore.PgStore.ClaimNextItem: which of several pending rows comes first is left open, because all items of a job share one created_at.
- The separate MarkItemDone and IncrementJobProgress of both stores, superseded by the combined operation.
- The notify channel, its drops, and the order in which workers learn of jobs: in `IngestRun` any idle worker may start any job at any time.
- CreateMemory inside the ingest worker is an outcome and a number of requests given by the environment; which of the requests of one call the upstream carried out is not modelled; and the source-index Add that follows it a best-effort side effect.
- MemStore.RunJob: has no store error and no stop, because those are steps of `IngestRun`.
- Freshness.CleanIsCurrent: abstracts communities, labels and cohesion into the graph version they were computed from, and betweenness likewise into another; rows a push replaced carry no betweenness until it is computed again. Other processes recomputing the same repo are covered by `Freshness.FreshRunIff`, with the same node limit and with their own claims left out.
- Reconcile.ReconcileTwice: leaves out the analytics columns of entities, which a delete and re-insert drops by design.
- Source positions, authors and capture times of entities and hyperedges travel with the row as opaque properties.
- Row multiplicities of UNION ALL in the path queries, LIMIT clauses, list clamps, and the order of rows beyond the depth and rank that pick them.
- Which entities the pieces of an id with a separator name, beyond whether all of them are stored.
- LikeEscape.RankIsStrongest: folds case one character at a time; collations, Unicode folding that changes lengths, and a pattern ending in a lone escape character (an error in Postgres, never produced by the escaper) are not modelled.
- Purge.PurgeAddsUp: is about the synchronous upstream; documents that an asynchronous upstream deletes later are the subject of `Tombstones`.
- Source-index additions for the listed files while they are being purged, and purge budgets as wall-clock time: an expired budget is a failing call.
- The override hooks of the in-memory upstream (fixed insert answers, dangling edges) and its entity, label and query maps.
- ReaperSweeps.Reaper.Tick: takes one moment as the time at which both listings are made.
- ReaperSweeps.OnceADay: is about sweeps whose deferrals are recorded; one whose recording fails is checked again on the next tick.
- The tracker-name check, the reserved-tag check, session timeouts and two replicas migrating at once.
- Migrations.CrashResume: takes probes that answer exactly for their own migration's effect, which is what the runner asks of a probe.
- Cohesion.ComputeCohesion: computes over reals, not binary floating point; Louvain communities are any duplicate-free member lists, and betweenness is foreign code.
- Admission.RetryAfterSpread: rounds the seconds up exactly; the original rounds up a float64, which is the same below 2^24 seconds (194 days) and above that may drop a few nanoseconds.
- Admission metrics other than the three outcome counters, response bodies and logging.
- PoolBudget.BudgetHoldsIff: counts the four kinds of holders the configuration reserves for; reads, health checks and the reaper use the connections left free. Allocation limits of the channel constructor are not modelled.
- BusyPolling.RoundTrip: takes the parsed Retry-After wait as given; header parsing, body limits and JSON decoding are not modelled.
- HTTP handlers, routing, authentication, metrics, tracing, the labeler, configuration parsing and the startup gate: one-branch facts.
