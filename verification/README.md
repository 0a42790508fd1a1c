# Eyle: a verified model of its stateful cores

This project models the parts of Eyle whose correctness rests on invariants over whole runs, and proves those
invariants in Dafny 4.11. `dafny verify dfyconfig.toml` checks everything.

| component | what is modelled | modules |
|---|---|---|
| Memory Graph store | changesets of operations over nodes, tags, edges, tasks, pinned anchors, the event log and the text index | `MemoryGraph`, `MemoryCleaning`, `MemoryHistory`, `MemoryInvariants`, `MemoryEffects`, `MemoryStore` |
| Freshness | the memoised recursive evaluation over provenance anchors | `Freshness`, `FreshnessProvenance`, `FreshnessProofs`, `FreshnessOrder`, `FreshnessTrust`, `FreshnessHistory` |
| Recall selections | making, paging, releasing and collecting stored selections | `RecallSelection` |
| Observation ledger | snapshots, cursor handles, single-use Frontiers, paging | `Ledger`, `LedgerProofs`, `FrontierIds` |
| Memory navigation | Memory Frontiers over the ledger and the recall tables | `Navigation`, `NavigationProofs`, `NavigationReading` |
| Persistence | serialised sessions, the recursive scan, orphan collection, restoring | `JsonValue`, `Persistence`, `Recovery` |
| Line coverage | the interval merge of a file's examined ranges | `Coverage` |
| Adapter | cutting a JSON object or array out of text | `JsonFragment`, `JsonGroups` |
| Token accounting | reservations, provider usage, the budget, pauses | `TokenBudget`, `TokenBudgetProofs`, `TokenBudgetRetries` |
| Job queue | reservation, cancellation, finishing and recovery, transaction by transaction | `JobQueue`, `QueueEffects`, `QueueProtocol` |

Code that changes state in place is a class whose methods are proved equal to functions on the state before; the
properties of whole runs are lemmas about those functions. What each operation does is stated once more of the stored
rows and the arguments alone (`MemoryEffects`, `FreshnessProvenance`, `QueueEffects`, `TokenBudgetRetries`, and the
lemmas whose names end in `IsExact`), so that no result rests on the function that computes it. One SQL transaction is one step. Hash ids are injective
(`Ledger.Naming` holds the hash and its inverse), UUIDs are fresh, a provider's freshness answer is a fixed function,
and one case-folding function stands for `casefold` and NOCASE.

## What the proofs found

Several properties one would expect of the code hold only under a condition. Each has a lemma saying exactly when, and
most have a concrete input that shows the failure.

- **The cache of a projection.** `_anchor_status` looks for the source on the stack before it compares the pinned
  revision (eyle/core/memory.py:437-456). A node that names an *older* revision of a node depending on it is therefore a
  dependency cycle when reached through that node, and semantic on its own. On pinned stores the shared cache gives
  every node its own record, in every order, if and only if no such back reference exists
  (`FreshnessOrder.SharedCacheIsExactIff`). On every store, pinned or not, nodes and edges are trusted exactly when no
  trouble can be reached from them, in every projection, if and only if every node with a back reference is in trouble
  anyway (`FreshnessTrust.TrustIsExactIff`); without its cache the walk would be exact on every store
  (`FreshnessProofs.FreshnessIsExact`). Pinned stores have no dependency cycles but self-pins
  (`FreshnessHistory.PinnedHistoryIsRanked`), yet both conditions can fail on them:
  `FreshnessHistory.ProjectionOrderCanMatter` is a pinned history of three changesets where the order of a projection
  changes a node's freshness, and `FreshnessHistory.TrustCanMislead` one of four changesets where a single projected
  node is trusted although a dependency path from it ends in trouble.
- **A Frontier written as an alias.** Dispatch looks a Frontier up by the id as written
  (eyle/runtime/ecc_runtime.py:317-325), while resolving accepts `fr-1` for `fr-0001`
  (eyle/runtime/observation.py:293-312). An alias of a Memory Frontier is consumed by the generic continuation and its
  stored selection is left without a cursor (`NavigationProofs.DispatchSoundIff`). Every session whose first activation
  leaves a remainder gets there (`NavigationProofs.AliasCanStrand`).
- **A refused page.** Refusing a continuation releases the next page's handle outright
  (eyle/providers/standard/tools.py:986-992). The ledger stays sound if and only if no other open Frontier holds that
  handle (`LedgerProofs.RejectSoundIff`), and a disciplined run gets where one does (`LedgerProofs.RefusalCanBreak`).
- **Reports that are not counted.** A request that fails after its usage arrived, an error with a total but no figures,
  and any report of a single figure without a total add nothing to the provider total (llm/executar.py:229-283,
  817-840, 1241-1255). The total is everything the provider reported if and only if no request ended so
  (`TokenBudgetProofs.TotalIsSpentIff`); `TokenBudgetProofs.SettleCountsIff` says which of them at least stop later
  requests.
- **Negative reports.** Generated and reasoning tokens of an answer are added unclamped (llm/executar.py:843-865); an
  account can be paused if and only if both stayed non-negative (`TokenBudgetProofs.ValidatesIff`).
- **Recovery in statements.** The queue's connections are in autocommit mode, so recovery reads and writes in separate
  transactions and its requeue does not look at the cancel flag (eyle/runtime/queue.py:618-669). An accepted
  cancellation stands if and only if no recovery requeues the job after it (`QueueProtocol.CancelStandsIff`), and can
  still be lost if and only if a recovery on its way already read the job as one to requeue
  (`QueueProtocol.CancelCanBeLostIff`); taken as one step recovery always honours it.
- **Complete coverage.** The flag agrees with every line having been seen if and only if lines outside the reported
  length do not make up for missing ones (`Coverage.FlagIsExactIff`). Every record of the Standard provider
  carries a length that bounds its lines (eyle/providers/standard/workspace_io.py:132-141,
  eyle/providers/standard/contracts.py:422-425), and for such records the row is exact
  (`Coverage.MechanicalCoverage`). The Coverage contract asks for neither (eyle/contracts/observation.py:22-62): a
  provider whose record leaves `total_lines` out can make a file complete with a line unseen
  (`Coverage.UnboundedCanMislead`).

## Model

| member | source | states |
|---|---|---|
| MemoryCleaning.CleanTagsIsExact | eyle/runtime/memory_graph.py:89-101 | cleaned tags carry each offered folded spelling exactly once and nothing else |
| MemoryCleaning.RevisedTagsAreExact | eyle/runtime/memory_graph.py:652-654 | tags after an update are the previous and added ones minus the removed ones, and a spelling that was there stays |
| MemoryCleaning.MergedCuesAreExact | eyle/runtime/memory_graph.py:136-158 | merged recall cues are the kept ones, unchanged and first, then the added ones; removal comes before addition |
| Prelude.StripIsExact | eyle/runtime/memory_graph.py:54-60 | stripping removes blanks only, and leaves no blank at either end |
| Prelude.FoldIsExact | eyle/runtime/memory_graph.py:89-101 | folding works letter by letter on the ASCII letters |
| MemoryHistory.SourceRevisionExistsIsExact | eyle/runtime/memory_graph.py:485-510 | with a full history the log-based check holds exactly for revisions 1 up to the current one of an existing source |
| MemoryHistory.NodeEventRevisions | eyle/runtime/memory_graph.py:478-510 | the node events of one id carry exactly the revisions 1..current |
| MemoryHistory.EdgeEventRevisions | eyle/runtime/memory_graph.py:478-510 | the edge events of one id carry exactly the revisions 1..current |
| MemoryInvariants.NodeWriteKeepsValid | eyle/runtime/memory_graph.py:600-666 | writing a node row with tags, anchors, task and event keeps every store invariant: full history, task consistency, sound pins that look back in time |
| MemoryInvariants.EdgeWriteKeepsValid | eyle/runtime/memory_graph.py:718-759 | the same for writing an edge row with its anchors and event |
| MemoryInvariants.TaskWriteKeepsValid | eyle/runtime/memory_graph.py:693-717 | the same for moving a task |
| MemoryInvariants.CreateNodeKeepsValid | eyle/runtime/memory_graph.py:585-618 | creating a node keeps the store invariants |
| MemoryInvariants.UpdateNodeKeepsValid | eyle/runtime/memory_graph.py:619-666 | revising a node keeps the store invariants, opening its task at most once |
| MemoryInvariants.CloseKeepsValid | eyle/runtime/memory_graph.py:667-679 | archiving or superseding a node, possible only with a terminal task, keeps the store invariants |
| MemoryInvariants.SupersedeKeepsValid | eyle/runtime/memory_graph.py:680-692 | superseding keeps the store invariants with its `superseded_by` edge |
| MemoryInvariants.SetTaskStatusKeepsValid | eyle/runtime/memory_graph.py:693-717 | a task move starts from the recorded state, and keeps the store invariants and everything recorded before |
| MemoryInvariants.CreateEdgeKeepsValid | eyle/runtime/memory_graph.py:718-733 | creating an edge keeps the store invariants |
| MemoryInvariants.UpdateEdgeKeepsValid | eyle/runtime/memory_graph.py:734-759 | revising an edge keeps the store invariants |
| MemoryInvariants.RetireEdgeKeepsValid | eyle/runtime/memory_graph.py:760-769 | retiring an edge keeps the store invariants |
| MemoryInvariants.ApplyKeepsValid | eyle/runtime/memory_graph.py:583-771 | every successful operation keeps every store invariant |
| MemoryInvariants.RunIsValid | eyle/runtime/memory_graph.py:560-783 | after any history of changesets, replaying the log gives back exactly the node, tag, edge and task rows with consecutive revisions; task rows exist exactly for nodes of kind task; pins name revisions that existed and look back in time |
| MemoryInvariants.LaterHistoryExtends | eyle/runtime/memory_graph.py:560-783 | later changesets only extend the log and the anchors, never lower a revision, never change scope, domain or context key, and leave closed nodes and retired edges as they were |
| MemoryInvariants.ClosedTaskStaysClosed | eyle/runtime/memory_graph.py:673-717 | the task of a node that is no longer current is resolved or cancelled for ever |
| MemoryInvariants.StoredPinStaysSound | eyle/runtime/memory_graph.py:513-557 | every stored pin keeps naming a revision its source really had, in every later store |
| MemoryInvariants.TaskLookupNeverFails | eyle/runtime/memory_graph.py:693-698 | in a reachable store the missing-task branch of set_task_status is never taken |
| MemoryEffects.AnchorsStore | eyle/runtime/memory_graph.py:513-557 | anchors are stored exactly when each offered one is acceptable, and then one for each, in order, with the pin it names and no other change |
| MemoryEffects.CreateNodeIsExact | eyle/runtime/memory_graph.py:585-618 | when a node is created, and that its row takes every field from the operation or its default, its tags are those offered, its task opens exactly for a task, and nothing else changes |
| MemoryEffects.UpdateNodeIsExact | eyle/runtime/memory_graph.py:619-666 | when a node is revised; content and kind are the stripped argument unless blank, retention and epistemic the given ones or as before, aliases, concepts and cues their own list minus its removals plus its additions, tags the old plus the added minus the removed, the evidence time moves exactly when anchors come |
| MemoryEffects.ArchiveNodeIsExact | eyle/runtime/memory_graph.py:667-679 | exactly a current node whose task is over can be archived; only its status and revision change |
| MemoryEffects.SupersedeNodeIsExact | eyle/runtime/memory_graph.py:667-692 | the same for superseding, which adds exactly the edge to the replacement |
| MemoryEffects.SetTaskStatusIsExact | eyle/runtime/memory_graph.py:693-717 | when a task moves, to which state and revision, and when it is resolved; a move to the same state changes nothing |
| MemoryEffects.CreateEdgeIsExact | eyle/runtime/memory_graph.py:718-733 | when an edge is created, from the stripped source over the stripped relation to the stripped target |
| MemoryEffects.UpdateEdgeIsExact | eyle/runtime/memory_graph.py:734-759 | when an edge is revised; relation and epistemic are the given ones or as before, its ends stay |
| MemoryEffects.RetireEdgeIsExact | eyle/runtime/memory_graph.py:760-769 | exactly a live edge can be retired; only its status and revision change |
| MemoryEffects.OperationIsExact | eyle/runtime/memory_graph.py:583-771 | every operation on a valid store succeeds if and only if the store admits it, and then does what its arguments say to the rows, tags, tasks and anchors, and nothing else |
| MemoryEffects.ChangesetIsExact | eyle/runtime/memory_graph.py:560-783 | after any history a changeset is carried out operation by operation, each doing what it says, or stops at one that is not admitted and leaves the store as it was |
| MemoryEffects.RefusalIsTrue | eyle/runtime/memory_graph.py:583-771 | whichever error an operation gets, what that error says is so |
| MemoryStore.GraphStore.InsertAnchors | eyle/runtime/memory_graph.py:513-557 | the loop stores the checked anchors in order, or reports the first error |
| MemoryStore.GraphStore.CreateNode | eyle/runtime/memory_graph.py:585-618 | in place: the new tables, or the error of the first failing check |
| MemoryStore.GraphStore.UpdateNode | eyle/runtime/memory_graph.py:619-666 | in place: the new tables, or the error of the first failing check |
| MemoryStore.GraphStore.RecordNode | eyle/runtime/memory_graph.py:606-616 | completes the write of a node row: anchors, task and event |
| MemoryStore.GraphStore.ArchiveNode | eyle/runtime/memory_graph.py:667-692 | in place: the closed row and its event, or the error |
| MemoryStore.GraphStore.SupersedeNode | eyle/runtime/memory_graph.py:667-692 | in place: the closed row, the successor edge and both events, or the error |
| MemoryStore.GraphStore.LinkSuccessor | eyle/runtime/memory_graph.py:680-689 | adds and logs the successor edge, or reports a missing replacement or an id conflict |
| MemoryStore.GraphStore.SetTaskStatus | eyle/runtime/memory_graph.py:693-717 | in place: the moved task and its event, nothing for the same state, or the error |
| MemoryStore.GraphStore.CreateEdge | eyle/runtime/memory_graph.py:718-733 | in place: the new edge, or the error |
| MemoryStore.GraphStore.UpdateEdge | eyle/runtime/memory_graph.py:734-759 | in place: the revised edge, or the error |
| MemoryStore.GraphStore.RetireEdge | eyle/runtime/memory_graph.py:760-769 | in place: the retired edge, or the error |
| MemoryStore.GraphStore.Perform | eyle/runtime/memory_graph.py:583-771 | one operation of any kind, in place |
| MemoryStore.GraphStore.PerformAll | eyle/runtime/memory_graph.py:576-771 | the operations in order up to the first failure, tracking which nodes were created and which revised |
| MemoryStore.GraphStore.RowsFor | eyle/runtime/memory_graph.py:411-430 | builds one row for each current node of a chunk and none for closed ones |
| MemoryStore.GraphStore.RefreshChunk | eyle/runtime/memory_graph.py:406-435 | after a chunk, its nodes have exactly the rows of a rebuild and all other rows are as before |
| MemoryStore.GraphStore.RefreshIndex | eyle/runtime/memory_graph.py:392-435 | the same across the chunks of 400 ids |
| MemoryStore.GraphStore.ApplyOperations | eyle/runtime/memory_graph.py:560-783 | a changeset happens wholly or not at all, and the incremental index equals a rebuild from scratch afterwards |
| MemoryStore.RefreshedIsExact | eyle/runtime/memory_graph.py:372-388 | refreshing created and then revised nodes makes an exact index exact again, also for nodes created, revised and closed in one changeset |
| MemoryStore.OperationTouches | eyle/runtime/memory_graph.py:617-691 | an operation leaves the index-relevant columns of every node alone except the one it reports as touched |
| MemoryStore.ExactIndexCarries | eyle/runtime/memory_graph.py:411-430 | the index row of a current node carries its own content, kind, epistemic columns, tags and cues; no other id has one |
| Freshness.CombineIgnoresOrder | eyle/core/memory.py:504-517 | the combined grade does not depend on the order of the anchors |
| Freshness.CombineGood | eyle/core/memory.py:504-517 | the combination is trusted exactly when no status is stale or degraded; one degraded status degrades it |
| Freshness.CombineIsExact | eyle/core/memory.py:504-517 | which grades combine to unbound, semantic, fresh and stale, each if and only if |
| Freshness.GradeIsExact | eyle/core/memory.py:419-559 | of the walk with its cache left out: the grade of a node from its anchors in force alone: unbound without any, stale when each gives it away, trusted when none does, fresh when trusted and one vouches for it |
| FreshnessProvenance.InForceIff | eyle/runtime/memory_graph.py:806-822 | an anchor is in force if and only if it is stored for the entity at the greatest revision, not above the given one, that has any |
| FreshnessProvenance.CurrentProvenance | eyle/runtime/memory_graph.py:806-822 | for a node or an edge that revision is the one its row has now |
| FreshnessProvenance.SomethingInForce | eyle/runtime/memory_graph.py:817-822 | nothing is in force exactly when every anchor of the entity is of a later revision |
| FreshnessProvenance.InForceCount | eyle/runtime/memory_graph.py:806-822 | an anchor is in force as often as it is stored |
| FreshnessProvenance.NewAnchorsTakeOver | eyle/runtime/memory_graph.py:619-666 | after an update with anchors exactly those are in force |
| FreshnessProvenance.UpdateKeepsProvenance | eyle/runtime/memory_graph.py:817-822 | after an update without anchors every node has the anchors in force it had |
| FreshnessProvenance.RetaggingKeepsFreshness | eyle/core/memory.py:520-581 | an update without anchors, such as one that only retags a node, leaves its projected record as it was, under every provider |
| Freshness.Projector.StatusOf | eyle/core/memory.py:419-501 | the method computes the cached walk of one anchor and its new cache |
| Freshness.Projector.StatusesOf | eyle/core/memory.py:527-530 | the same for a node's anchors in order |
| Freshness.Projector.EvaluateNode | eyle/core/memory.py:520-559 | the method computes the cached walk of one node, writing its cache |
| Freshness.Projector.ProjectNodes | eyle/core/memory.py:570-581 | the node records of a projection with one shared cache |
| Freshness.Projector.EndpointOf | eyle/core/memory.py:581-594 | the grade of the projected record under an id, or unbound |
| Freshness.Projector.EvaluateOneEdge | eyle/core/memory.py:583-595 | an edge after the nodes, from an empty stack and with their cache, or from its two ends |
| Freshness.Projector.ProjectRelations | eyle/core/memory.py:582-602 | the edge records of a projection, in order, with the same shared cache |
| FreshnessProofs.FreshnessIsExact | eyle/core/memory.py:419-501 | of the walk with its cache left out, on every store: a node is trusted exactly when no dependency path from it ends in stale material, a missing source or a node of that same path |
| FreshnessProofs.PinnedStoreIsRanked | eyle/runtime/memory_graph.py:806-834 | in a pinned store the last revision moves strictly back along every dependency between distinct nodes, inherited anchors included |
| FreshnessProofs.CyclesAreSelfPins | eyle/core/memory.py:437-456 | such a store has no dependency cycle but nodes pinned to themselves |
| FreshnessProofs.StackIndependent | eyle/core/memory.py:431-461 | without back references a record does not depend on the stack it is evaluated under |
| FreshnessProofs.RecordsAreCacheableIff | eyle/core/memory.py:520-559 | on a pinned store, records are independent of how a node is reached if and only if no node names an older revision of a node depending on it |
| FreshnessProofs.ProjectionAgrees | eyle/core/memory.py:570-581 | without back references every projected node gets its own grade, and on pinned stores its own record, in any order |
| FreshnessProofs.CycleReportsAreSelfReferences | eyle/core/memory.py:437-438 | without back references only a node naming itself is reported as a dependency cycle |
| FreshnessOrder.NodeTaints | eyle/core/memory.py:520-559 | on every store a walk below a node caches everything it reaches, and degrades whatever it caches that names an older revision of that node |
| FreshnessOrder.BackReferenceSpoils | eyle/core/memory.py:570-581 | with a back reference there is an order in which the shared cache returns a record that is not the node's own |
| FreshnessOrder.SharedCacheIsExactIff | eyle/core/memory.py:520-581 | on a pinned store the shared cache is exact for all selections in all orders if and only if there is no back reference |
| FreshnessHistory.SupportAnchors | eyle/core/memory.py:200-286 | memory supports always become anchors with a revision |
| FreshnessHistory.RunPinned | eyle/core/memory.py:223-242 | histories whose memory anchors are pinned leave only pinned memory anchors |
| FreshnessHistory.PinnedHistoryIsRanked | eyle/core/memory.py:223-242 | after every pinned history dependencies point strictly back in time, named nodes exist, and cycles are self-pins |
| FreshnessTrust.TrustIgnoresStack | eyle/core/memory.py:431-461 | when back references are harmless a node is trusted under any stack of its dependents exactly when it is not in trouble |
| FreshnessTrust.NodeTrusts | eyle/core/memory.py:520-559 | the cached walk keeps every cached node trusted exactly when it is not in trouble |
| FreshnessTrust.EdgeTrusts | eyle/core/memory.py:583-595 | an edge is trusted exactly when its anchors are sound and follow nothing in trouble, or, without anchors, when neither projected end is in trouble |
| FreshnessTrust.TrustIsExactIff | eyle/core/memory.py:570-602 | on every store, nodes and edges of all projections in all orders are trusted exactly when no trouble can be reached, if and only if every node with a back reference is in trouble anyway |
| FreshnessHistory.TrustCanMislead | eyle/core/memory.py:520-559 | a pinned history after which one node, projected alone, is trusted although a dependency path from it ends in trouble |
| FreshnessHistory.ProjectionOrderCanMatter | eyle/core/memory.py:437-456 | a pinned history whose projection gives one node a different freshness in a different order |
| RecallSelection.ExactIndexJoinsOnce | eyle/runtime/memory_graph.py:1243-1286 | with one index row per current node the query join never repeats a node |
| RecallSelection.ExactIndexSelects | eyle/runtime/memory_graph.py:1243-1316 | hence every selective request over an exact index succeeds |
| RecallSelection.SelectMatches | eyle/runtime/memory_graph.py:1276-1294 | stores exactly the direct matches in order with ordinals from one, and fails exactly when a wanted node is joined twice |
| RecallSelection.AddNeighbours | eyle/runtime/memory_graph.py:1295-1312 | appends exactly the in-scope one-hop neighbours not matched, each with its least live edge as witness |
| RecallSelection.Select | eyle/runtime/memory_graph.py:1158-1316 | a selection is well formed: unique nodes, ordinals from one, matches first, then witnessed neighbours |
| RecallSelection.MatchesAreExact | eyle/runtime/memory_graph.py:1216-1293 | over an exact index the direct matches are exactly the stored nodes that meet scope, retention, domain, context, nature, volatility and relation, and are asked for by id, tag or text or because nothing is named |
| RecallSelection.NeighboursAreExact | eyle/runtime/memory_graph.py:1294-1315 | the others are exactly the nodes in scope that a live edge connects with a match, and each names such a match and such an edge |
| RecallSelection.RecallTables.CreateSnapshot | eyle/runtime/memory_graph.py:1158-1340 | stores such a selection under a fresh id, or stores nothing, exactly when the selector is empty or the join repeats a node |
| RecallSelection.RecallTables.Release | eyle/runtime/memory_graph.py:1376-1382 | removes one selection |
| RecallSelection.RecallTables.CollectOrphans | eyle/runtime/memory_graph.py:1385-1410 | removes exactly the selections neither preserved nor owned by a live execution |
| RecallSelection.PageIsSlice | eyle/runtime/memory_graph.py:1342-1373 | a page is the slice after the cursor, with its last ordinal and the exact remaining count |
| Ledger.FindOpen | eyle/runtime/observation.py:237-241 | the first open Frontier of a handle, if any |
| Ledger.ObservationLedger.RegisterCursor | eyle/contracts/observation.py:88-106 | in place: the handle under its id |
| Ledger.ObservationLedger.RegisterSnapshotHandle | eyle/contracts/observation.py:109-133 | in place: the snapshot stored once and a handle on it |
| Ledger.ObservationLedger.MaterialiseHandle | eyle/contracts/observation.py:154-201 | in place: the page or the error, and the next handle when the page is incomplete |
| Ledger.ObservationLedger.ReleaseHandle | eyle/contracts/observation.py:204-215 | in place: drops a cursor and, when it was the last, its snapshot |
| Ledger.ObservationLedger.ExposeHandle | eyle/runtime/observation.py:244-279 | in place: the open Frontier that holds the handle, or a new one |
| Ledger.ObservationLedger.ConsumeFrontier | eyle/runtime/observation.py:332-337 | in place: consumed and its handle released |
| Ledger.ObservationLedger.StaleFrontier | eyle/runtime/observation.py:340-351 | in place: stale with its reason and its handle released |
| LedgerProofs.RegisterSnapshotSound | eyle/contracts/observation.py:109-133 | registering keeps handles and snapshots matched: none dangling, none leaked |
| LedgerProofs.MaterialiseSound | eyle/contracts/observation.py:154-201 | materialising keeps the ledger sound and registers at most the next handle |
| LedgerProofs.ReleaseSound | eyle/contracts/observation.py:204-215 | releasing a handle no open Frontier holds keeps the ledger sound |
| LedgerProofs.ExposeSound | eyle/runtime/observation.py:244-279 | publishing keeps open Frontiers on distinct live handles |
| LedgerProofs.ConsumeSound | eyle/runtime/observation.py:332-337 | consuming an open Frontier keeps the ledger sound |
| LedgerProofs.MarkStaleSound | eyle/runtime/observation.py:340-351 | staling an open Frontier keeps the ledger sound |
| LedgerProofs.RejectSoundIff | eyle/providers/standard/tools.py:986-992 | refusing a page keeps the ledger sound if and only if no other open Frontier holds the next page's handle |
| LedgerProofs.RefusalCanBreak | eyle/providers/standard/tools.py:986-992 | a disciplined run from the empty ledger after which refusing a page leaves an open Frontier without its handle |
| LedgerProofs.RunSound | eyle/contracts/observation.py:88-215 | on every disciplined run snapshots named by handles are exactly the stored ones, and open Frontiers hold distinct live handles of their epoch |
| LedgerProofs.ResolvedMaterialises | eyle/runtime/observation.py:315-329 | a Frontier that resolves can be materialised |
| LedgerProofs.PageIsExact | eyle/contracts/observation.py:136-201 | a page is its slice of the snapshot, in the snapshot's own frame, with the exact count still to come |
| LedgerProofs.WholeIsDelivered | eyle/contracts/observation.py:136-201 | a payload without items is delivered whole, with nothing to follow |
| LedgerProofs.OnlyLiveMaterialises | eyle/contracts/observation.py:154-175 | a page is refused exactly for a handle that is unknown or of another epoch, each with its own error |
| LedgerProofs.OnlyOpenContinues | eyle/runtime/observation.py:315-329 | exactly an open Frontier of this epoch can be continued; any other is refused as unknown, consumed or stale, and nothing changes |
| LedgerProofs.ContinuationIsExact | eyle/providers/standard/tools.py:968-1026 | the session's continuation consumes its Frontier and touches no other; while items remain an open Frontier then stands at the next page of the same snapshot, a new one with the exact rest as its count; after the last page the snapshot is gone unless another handle names it |
| LedgerProofs.RefusalIsExact | eyle/providers/standard/tools.py:986-992 | a revised source makes the Frontier stale for that reason, touches no other, and takes the handles of this page and the next away |
| LedgerProofs.ReadyContinues | eyle/providers/standard/tools.py:968-1026 | a Frontier in good standing can always be continued |
| LedgerProofs.RegisteredIsReady | eyle/contracts/observation.py:109-133 | registering a payload over items and publishing its handle makes a Frontier in good standing at the asked offset and page size, alone when the snapshot is new |
| LedgerProofs.DrainIsExact | eyle/contracts/observation.py:136-215 | over the session's own continuations, draining delivers every item once and in order in exactly max(1, ceil) pages; the snapshot survives to the last page and is then gone |
| FrontierIds.PositionIsExact | eyle/runtime/observation.py:261 | an id is stored exactly when it is the padded id of an existing position |
| FrontierIds.StoredLeadsHome | eyle/runtime/observation.py:293-312 | every stored id resolves to its own Frontier |
| FrontierIds.AliasExists | eyle/runtime/observation.py:304-311 | every Frontier also answers to an id that is not the stored one |
| Navigation.CursorRoundTrip | eyle/core/memory.py:687-698 | reading back a published cursor gives it again |
| Navigation.MemorySession.PublishCursor | eyle/core/memory.py:674-702 | publishes a cursor as a Memory Frontier when something remains |
| Navigation.MemorySession.ActivateMemory | eyle/core/memory.py:743-822 | stores a well-formed selection of the graph as it is, delivers its first page, and replaces the view |
| Navigation.MemorySession.MergeNodes | eyle/core/memory.py:872-876 | the loop keeps the first occurrence of every id |
| Navigation.MemorySession.ContinueMemory | eyle/core/memory.py:825-899 | delivers the next page in the source's order of steps: resolve, materialise, page, consume, publish or release |
| Navigation.MemorySession.ContinueGeneric | eyle/providers/standard/tools.py:968-1024 | the generic continuation with its refused case |
| Navigation.MemorySession.DispatchContinue | eyle/runtime/ecc_runtime.py:317-335 | routes an id as written to Memory or to the generic continuation |
| Navigation.MemorySession.ReleaseMemoryNavigation | eyle/core/memory.py:28-62 | releases every selection named by a cursor of the ledger |
| NavigationProofs.PublishKeeps | eyle/core/memory.py:674-702 | publishing adds one Frontier over one new handle and keeps all cursors |
| NavigationProofs.ContinueDelivers | eyle/core/memory.py:825-879 | a continuation delivers the next slice with the exact rest, merges it into the view, and publishes the next cursor or removes the selection |
| NavigationProofs.ContinueTouches | eyle/core/memory.py:825-899 | a continuation consumes its own Frontier and changes no other Frontier and no other selection; the one it publishes says exactly how much remains |
| NavigationProofs.LostSelectionIsRefused | eyle/core/memory.py:840-869 | when the selection is gone the continuation is refused, yet its Frontier is consumed |
| NavigationProofs.ActivateDelivers | eyle/core/memory.py:776-809 | an activation delivers the first slice with the exact rest, makes it the view, and leaves one standing Frontier, or nothing stored |
| NavigationProofs.SessionRunSound | eyle/core/memory.py:674-899 | on every run of a session from its beginning each live selection of the session is named by exactly one cursor of its ledger |
| NavigationProofs.ReleaseLeavesNothing | eyle/core/memory.py:28-62 | the terminal release removes every selection of the session and no other |
| NavigationProofs.DispatchSoundIff | eyle/runtime/ecc_runtime.py:317-335 | as long as no provider reports Memory as changed or refuses a page whose next handle is shared, a continuation leaves the session unsound if and only if its id is an alias of a Memory Frontier that is open in this epoch and whose selection is still stored |
| NavigationProofs.AliasCanStrand | eyle/runtime/ecc_runtime.py:317-335 | after any first activation that leaves a remainder there is an alias whose continuation strands the selection |
| NavigationReading.ApartSpares | eyle/core/memory.py:743-899 | other work in the same epoch leaves a Memory Frontier reading from the same cursor of the same selection |
| NavigationReading.ReadingDelivers | eyle/core/memory.py:825-899 | continuing to the end, with any other work in between, delivers the rest once and in order in exactly the expected pages |
| NavigationReading.ReadingEnds | eyle/core/memory.py:860-869 | after the last page the selection is no longer stored |
| NavigationReading.SelectionIsDelivered | eyle/core/memory.py:743-899 | activation and continuation deliver exactly the stored selection |
| NavigationReading.MergeIntoIsSet | eyle/core/memory.py:872-876 | merging drops nothing and repeats nothing |
| NavigationReading.FinalViewIsSelection | eyle/core/memory.py:809-887 | when nothing else is activated and no other Memory Frontier is continued in between, the view ends as exactly the selection |
| NavigationReading.OnlyMemoryChangesView | eyle/core/memory.py:809-887 | only an activation or a Memory continuation changes the view |
| JsonValue.ScanIsExact | eyle/runtime/service.py:602-612 | the scan finds exactly the snapshot ids standing at any depth |
| JsonValue.Scan | eyle/runtime/service.py:602-612 | the recursive method adds exactly those to the set it is given |
| Persistence.HandleRoundTrip | eyle/contracts/observation.py:218-226 | a handle record reads back as it was |
| Persistence.SnapshotRoundTrip | eyle/contracts/observation.py:229-237 | a snapshot record reads back as it was, a dropped null payload included |
| Persistence.FrontierRoundTrip | eyle/runtime/observation.py:685-692 | a Frontier record reads back as it was |
| Persistence.LedgerRoundTrip | eyle/runtime/observation.py:647-702 | handles, snapshots and Frontiers read back as they were |
| Persistence.ViewRoundTrip | eyle/core/session.py:16-36 | a memory view without blank ids reads back as it was |
| Persistence.SessionRoundTrip | eyle/core/session.py:54-127 | restoring a serialised session gives back its ledger, epoch and view |
| Recovery.CollectOrphanNavigation | eyle/runtime/service.py:592-620 | scans every pending session and removes what neither a scan nor a live owner keeps |
| Recovery.CollectionIsExact | eyle/runtime/service.py:592-620 | a selection survives, unchanged, if and only if some pending record mentions it anywhere in its session or has the execution id of its owner |
| Recovery.PersistedMentions | eyle/runtime/observation.py:647-702 | a serialised session mentions the selection behind each of its open Memory Frontiers |
| Recovery.RestartIsInvisible | eyle/core/session.py:54-127 | after persisting, collecting and restoring, continuing a Memory Frontier gives what it would have given |
| Coverage.Sort | eyle/runtime/observation.py:611 | a sorted permutation of the ranges |
| Coverage.MergeSorted | eyle/runtime/observation.py:612-617 | the merged ranges leave a gap between them and cover the same lines |
| Coverage.MaterialisedIsCount | eyle/runtime/observation.py:618 | separated proper ranges count every line once |
| Coverage.TotalIsReported | eyle/runtime/observation.py:604-605 | the length of a file is the greatest any record reports |
| Coverage.RowTells | eyle/runtime/observation.py:618-626 | for all proper ranges: the number of lines seen, the exact number remaining if and only if all seen lines are of the file or none is missing, and complete exactly when all were seen or the ranges mislead |
| Coverage.MechanicalCoverage | eyle/runtime/observation.py:595-626 | gathers the records, merges their ranges and says all that; exact outright when every record bounds its lines |
| Coverage.FlagIsExactIff | eyle/runtime/observation.py:625 | the flag agrees with every line having been seen if and only if lines outside the file do not make up for missing ones |
| Coverage.UnboundedCanMislead | eyle/contracts/observation.py:22-62 | two records, one without a length, that make a file complete with line 2 unseen |
| JsonFragment.BalancedFragment | server/server.py:410-443 | the loop over stack, quote and escape computes the fragment function |
| JsonFragment.FragmentIff | server/server.py:410-443 | for every text, the result is exactly the part from the first opener to where that bracket first closes |
| JsonGroups.ClosesIff | server/server.py:410-443 | where a bracket first closes, said of the text alone: exactly at the end of a group of plain characters, quoted texts with their escapes and further groups, in which a closing bracket that does not fit is a plain character |
| JsonGroups.FragmentIsGroup | server/server.py:410-443 | for every text the result is exactly the group that begins with the first opening bracket, if that bracket begins one |
| JsonFragment.ValueNeutral | server/server.py:424-442 | scanning any JSON value comes back to the same state and never closes the last bracket |
| JsonFragment.FragmentIsExact | server/server.py:410-443 | any JSON object or array of RFC 8259 is cut out exactly, whatever stands before it without an opener and whatever follows |
| TokenBudget.ExecutionContext.EnsureBudget | llm/executar.py:878-901 | what remains, or the stop for unknown usage or a reached budget |
| TokenBudget.ExecutionContext.ReserveRequest | llm/executar.py:756-763 | in place: the reservation is added to the counters |
| TokenBudget.ExecutionContext.ReleaseUnused | llm/executar.py:781-788 | in place: given back once |
| TokenBudget.ExecutionContext.Finalize | llm/executar.py:791-840 | in place: replaced by provider truth at most once, counted or marked unknown |
| TokenBudget.ExecutionContext.RegisterGenerated | llm/executar.py:843-865 | the reported generated tokens of a call, or the estimate |
| TokenBudget.ExecutionContext.Preflight | llm/executar.py:1118-1139 | reserve, check, and release what cannot be sent |
| TokenBudget.ExecutionContext.SettleRequest | llm/executar.py:1150-1272 | what each outcome does to the counters and whether the loop tries again |
| TokenBudget.ExecutionContext.CallModel | llm/executar.py:999-1314 | the retry loop of one call |
| TokenBudget.ExecutionContext.ContinuationState | eyle/runtime/execution_context.py:189-218 | writes the counters, or refuses a state that would not validate |
| TokenBudget.ExecutionContext.FromContinuation | eyle/runtime/execution_context.py:149-183 | resumes with the same counters and one more resume |
| TokenBudgetProofs.ReleaseUndoesReserve | llm/executar.py:756-788 | reserving and releasing is no change at all |
| TokenBudgetProofs.FinalizeConserves | llm/executar.py:791-840 | provider truth keeps the account conserved and moves the total by exactly what it counts |
| TokenBudgetProofs.ClampsNeverBite | llm/executar.py:758-817 | in a conserved account no clamp to zero changes a counter |
| TokenBudgetProofs.CallKeeps | llm/executar.py:999-1314 | a call keeps the account conserved, sends nothing once usage is unknown, and every request had room |
| TokenBudgetProofs.ResumeKeepsCounters | eyle/runtime/execution_context.py:149-218 | pausing and resuming keeps every counter |
| TokenBudgetProofs.RunKeeps | llm/executar.py:715-1314 | over every run of calls, retries and resumes: budgeted is actual plus reservations still held, cached plus uncached is actual, and the counted totals add up |
| TokenBudgetProofs.AtMostOneOvershoot | llm/executar.py:1118-1133 | every request but the last leaves the total below the limit |
| TokenBudgetProofs.BudgetHolds | llm/executar.py:1118-1148 | when the last request keeps within its reservation and ceiling, the total stays within the limit |
| TokenBudgetProofs.SettleCountsIff | llm/executar.py:817-840 | settling counts what the provider reported exactly when the outcome is not one that drops its report, and never more; says when a dropped report still stops later requests |
| TokenBudgetProofs.TotalIsSpentIff | llm/executar.py:1241-1255 | over every run the total never exceeds what the provider reported, and is exactly that if and only if no request's outcome drops its report |
| TokenBudgetProofs.LostReportLeavesBudget | llm/executar.py:1241-1255 | a request that fails after reporting 20 tokens leaves a limit of 10 untouched |
| TokenBudgetProofs.PartialReportLeavesBudget | llm/executar.py:1241-1255 | so does one that reported 15 prompt tokens and nothing else |
| TokenBudgetProofs.PartialAnswerStops | llm/executar.py:817-840 | an answer with 15 prompt tokens and nothing else is not counted, but stops later requests |
| TokenBudgetRetries.SettleAsksIff | llm/executar.py:1241-1272 | another try is due if and only if the outcome shows no cost: a passing unbilled failure without a figure, or an empty, untruncated, unbilled, riskless answer without figures to an unstructured call; and usage becomes unknown if and only if the outcome leaves open what was spent |
| TokenBudgetRetries.CallIsExact | llm/executar.py:1076-1314 | the requests of a call are those of its first attempts in order, each with the whole room left as its ceiling; one is followed by another only if its outcome shows no cost, and after such an outcome the next is sent unless the window or the budget has no room; the error the call ends with |
| TokenBudgetRetries.PrepareSetsAside | llm/executar.py:1118-1139 | preparing an attempt sets its estimates aside, or changes nothing at all; a reservation refused for an unknown or reached budget stays |
| TokenBudgetRetries.SettleCountsPrompt | llm/executar.py:791-840 | when the reported prompt replaces the reservation, and how it splits into its cached and uncached part |
| TokenBudgetRetries.CallGenerates | llm/executar.py:843-865 | a call adds exactly the generated and reasoning tokens its requests report, or the estimate |
| TokenBudgetProofs.ValidatesIff | eyle/runtime/execution_context.py:31-88 | a conserved account can be paused if and only if generated and reasoning tokens are non-negative |
| TokenBudgetProofs.RunsStayResumable | eyle/runtime/execution_context.py:189-218 | with non-negative reports every run can be paused at its end |
| TokenBudgetProofs.NegativeReportCannotPause | llm/executar.py:843-865 | one answer reporting -1 tokens leaves an account that cannot be paused |
| JobQueue.FirstPending | eyle/runtime/queue.py:255-257 | the least pending id |
| JobQueue.Queue.AddJob | eyle/runtime/queue.py:220-239 | in place: a pending job under the next id |
| JobQueue.Queue.ReserveNext | eyle/runtime/queue.py:242-311 | the reservation loop; its cycle bound is never what ends it |
| JobQueue.Queue.UpdateProgress | eyle/runtime/queue.py:333-381 | published only for an active, unflagged job |
| JobQueue.Queue.CancelJob | eyle/runtime/queue.py:398-456 | cancels a pending job, flags a processing one, leaves a closed one |
| JobQueue.Queue.MarkJobCancelled | eyle/runtime/queue.py:459-495 | closes an active job as cancelled |
| JobQueue.Queue.FinishJob | eyle/runtime/queue.py:552-615 | finishing with nothing in between: cancelled if asked for, else the guarded update |
| JobQueue.Queue.RecoverInterrupted | eyle/runtime/queue.py:618-669 | the recovery with nothing in between |
| QueueEffects.CancelIsExact | eyle/runtime/queue.py:398-456 | exactly an active job can be cancelled: pending it is cancelled at once, processing it is flagged, for the given reason; nothing else changes |
| QueueEffects.MarkIsExact | eyle/runtime/queue.py:459-495 | marking succeeds exactly on an active job, whose row is then cancelled with the given reason and result and no error; all other rows are as before |
| QueueEffects.AskedIsExact | eyle/runtime/queue.py:384-395 | a job is asked to stop exactly when it is flagged or cancelled, for its stored reason |
| QueueEffects.ReserveIsExact | eyle/runtime/queue.py:242-311 | the first pending job is taken by the worker with one attempt more and no trace of a cancellation, or failed for its payload; nothing else changes |
| QueueEffects.FinishIsExact | eyle/runtime/queue.py:552-615 | finishing closes a job exactly when it is processing and unflagged, with what the finish says; an active job asked to stop becomes cancelled and keeps what a failing finish brings |
| QueueEffects.FlaggedEndsCancelled | eyle/runtime/queue.py:552-615 | a flagged job that is finished ends cancelled, whatever its worker reports |
| QueueEffects.PublishIsExact | eyle/runtime/queue.py:333-381 | progress is published exactly for an active job nobody asked to stop |
| QueueProtocol.ClosedForever | eyle/runtime/queue.py:459-615 | in every interleaving a closed row never changes again: at most one terminal transition |
| QueueProtocol.OneWinnerAlways | eyle/runtime/queue.py:552-615 | of all workers finishing a job, stale ones included, at most one is told it succeeded, and the row is what it wrote |
| QueueProtocol.CancelHonours | eyle/runtime/queue.py:398-456 | an accepted cancellation leaves the job cancelled or processing with its flag; it is accepted exactly for active jobs |
| QueueProtocol.CancelStandsIff | eyle/runtime/queue.py:656-665 | it keeps standing in a run if and only if no recovery requeues the job |
| QueueProtocol.CancelCanBeLostIff | eyle/runtime/queue.py:618-669 | it can be lost in some continuation if and only if the job is processing and a recovery on its way holds it as one to requeue |
| QueueProtocol.AtomicRecoveryHonours | eyle/runtime/queue.py:618-669 | with recoveries taken as one step it always stands |
| QueueProtocol.HonouredNeverCloses | eyle/runtime/queue.py:552-615 | while it stands no finish of the job succeeds |
| QueueProtocol.CheckStep | eyle/runtime/queue.py:554-557 | the first transaction of a finish whose job's cancellation stands learns the reason to stop |
| QueueProtocol.ToldStep | eyle/runtime/queue.py:554-557 | its second one closes the job as cancelled for that reason, with what a failing finish brings |
| QueueProtocol.FinishEndsCancelled | eyle/runtime/queue.py:552-615 | in every interleaving, a finish of a job whose cancellation stands leaves it cancelled once two transactions of its own have run |
| QueueProtocol.UndisturbedFinishCloses | eyle/runtime/queue.py:552-615 | in every interleaving, a finish that nobody disturbs closes its job as it says with its third transaction |
| QueueProtocol.RecoveryAlone | eyle/runtime/queue.py:618-669 | left alone, the transactions of a recovery are the recovery as one step |
| QueueProtocol.FinishAsOne | eyle/runtime/queue.py:552-615 | left alone, the transactions of a finish are the finish as one step |
| QueueProtocol.RecoverAtOnceIsExact | eyle/runtime/queue.py:618-669 | as one step recovery cancels exactly the flagged processing jobs, requeues exactly the dead unflagged ones, and leaves the rest |
| QueueProtocol.CancelCanBeLost | eyle/runtime/queue.py:656-665 | a run from the empty queue in which an accepted cancellation is followed by completion |
| QueueProtocol.ReservesOldest | eyle/runtime/queue.py:242-311 | the oldest usable pending job is taken by the worker with its flag cleared; only unusable ones before it change, to failed for their payload |
| QueueProtocol.ReserveFinds | eyle/runtime/queue.py:242-311 | a usable pending job is found unless too many unusable ones stand before it |

## Left out

- Provider tools, sandbox, workspace transactions and the Standard registry: a provider's freshness answer and its refusal of a revised source are parameters.
- HTTP transport, routes, CLI, telemetry, progress texts and prompts: input and output only.
- SQLite durability and locking, full-text tokenisation and ranking: the index is a list of rows, matching and the two ORDER BY clauses are parameters of a selection, and a node's tags enter its row as the tag map rather than the joined text.
- Case folding beyond the ASCII letters: only that it is one function matters here.
- Clocks, heartbeats, process ids and leases: a recovery takes any set of processing jobs as dead.
- The worker's cancel path: it calls a queue function that eyle/runtime/queue.py does not define.
- Anchor ids, changeset ids, execution ids and the list of affected entities that a changeset returns: they decide nothing modelled here; anchors of one revision are in insertion order, which the combined grade does not depend on.
- Timestamps: one number per changeset, used only for `resolved_at` and the evidence time.
- Rows of the graph written by hand or by older schema versions: stores are those reached from the empty one.
- The blank-id filters of the index refresh and of the view: ids are never blank in a store.
- The descriptive fields of projected nodes and edges, their counts of revised sources, and the list of projected tasks.
- Same-changeset aliases of supports: they pin revision 1 of a node created earlier in the changeset.
- Selector arguments, coverage and provenance texts of activations: the cursor carries selector and selection unread, and descriptions and reasons of Memory Frontiers are empty.
- Frontier ids with digits outside ASCII, which the runtime's digit test accepts and its conversion may refuse.
- Malformed member types in persisted records: they read as their defaults, and a session that does not decode is one error.
- Hot parts of a checkpoint (pending results) and the observation entries, events and materials of a ledger: carried through a serialised session unread.
- The schedule of retries, cooldowns, semaphores and timeouts: an attempt is its estimates and its outcome. Token estimates and their calibration are inputs.
- Adapter repairs and the decoding of a cut fragment: `JsonFragment` ends where decoding begins. Number texts admit any run of number characters.
- Truncating integer conversions of provider figures that are not whole numbers: usage figures are whole numbers.
- The progress object of a job and its error texts: progress is a counter, and a closed payload error is a fixed word.
- Ledger.RegisterHandle: overwriting a handle under its own id can change its description, which nothing here reads.
