# PrimaDB: a verified model of the core

PrimaDB is a replicated graph database. Nodes hold fields; a field holds a scalar, bytes, a blob reference, a link or an
add/remove set; every change is an operation stamped with a hybrid logical clock. This project models the parts of it that
are hard to get right and proves what they promise, in Dafny 4.11. `dafny verify dfyconfig.toml` checks all of it.

| module | subject |
|---|---|
| `Order`, `Json`, `Clock`, `Graph` | string order, JSON values and their comparison, the hybrid clock, operations and their effect on a slot |
| `Convergence` | what a set of operations means, independently of order, and that replay computes it |
| `Merge` | state-based merge of snapshots, its algebra, and its agreement with replay |
| `Compaction` | the compacting operation queue |
| `Relationships`, `Transactions`, `Database` | the relationship index, transactions with an undo journal, and the object that holds the state |
| `LocalWrites`, `ReadBack` | a local write after any history is accepted and visible, and reads back through materialization and the index |
| `Records` | what the record overlay shows after any run |
| `Traversal`, `Materialize`, `Query` | graph traversal, cycle-cutting materialization and root snapshots, the lazy query evaluator |
| `Recovery`, `SegmentStore` | the write-ahead log, crash recovery, and the store that performs the writes one by one |
| `SortKeys`, `Pushdown`, `Fragments` | order-preserving index keys, filter pushdown, memoised collection of index entries |
| `CacheProtocol` | concurrent writers and rebuilders of text and vector caches |
| `Vectors` | chunked vector items |

Values are modelled as datatypes and functions; the clock, the queue, the relationship index, the database object and the
segment store are classes whose methods are proved against those functions. Where an input comes from outside (the wall
clock, operation identifiers, the answer of an attached store or of a scope policy, a checksum, the path of an index file)
it is a parameter and every statement holds for all of its values.

## Where the code falls short of a natural expectation

Each of these is stated with the exact condition under which the expectation holds, and with the case in which it fails.

- A slot that receives both whole-field writes and member operations need not converge; a write and a member operation
  commute on a slot exactly under `Convergence.Commutes` (`Convergence.MixedSlots`, `Convergence.MixedPair`,
  `Convergence.MixedFails`).
- Merging two replicas gives what replaying both histories gives unless at some slot both last wrote whole sets of which
  the newer is not empty; a set written as one value, merged with a copy of itself, loses all its members
  (`Merge.MergeIsExact`, `Merge.MergingWrites`, `Merge.MergingWrittenSets`, `Merge.MergeSetIdempotent`).
- Two operations with equal revisions on one key: the queue keeps the one pushed later, replay the one with the greater
  identifier (`Compaction.CompactionIsExact`, `Compaction.TiedRevisions`).
- Two record nodes that claim one key get in each other's way in the record overlay: writing one can clear or replace what
  is shown of the other (`Records.RefreshIsExact`, `Records.OverlayIsExact`, `Records.SharedKeyIsLost`).
- At a saturated counter the clock issues the same revision again (`Clock.SaturationIsExact`).
- A commit that failed half-way is retried without reopening the store, under the same id, as a transaction built anew:
  from the queued operations if there are any, from all nodes in memory otherwise. It can leave behind index keys
  obsoleted by a node whose manifest the first attempt already rewrote, and index keys and files that only the first
  attempt wrote (`Recovery.RetryIsExact`, `Recovery.RetryFinishes`, `Recovery.DifferingRetry`, `Recovery.SmallerRetry`).
- A filter that compares with a zero of the other sign than the stored one is lost by pushdown
  (`Pushdown.PushdownIsExact`, `Pushdown.ZeroIsLost`).
- A node that shows another id than the key it is kept under, because of a stored `$id` or otherwise, is read differently
  by the lazy evaluator (`Query.PlainIsExact`, `Query.IdIsGenerated`, `Query.StoredId`).
- A local transaction reads its change event off the end of the compacted queue, so a write to a record that still has an
  unflushed operation announces nothing: no revision is raised, nothing is persisted by that write, and a clean cache
  stays clean with old content (`CacheProtocol.AnnouncedCovers`, `CacheProtocol.BatchIsExact`). This happens although
  every attempt to persist succeeds, when a second write replaces the queued one while the first is being persisted
  (`CacheProtocol.SilentWrite`).
- A node loaded lazily is merged without the clock observing it, so that a node ahead of the clock can make the next write
  to it vanish (`LocalWrites.WriteAfterLoad`, `LocalWrites.WriteRefused`); a load of a node that is not ahead does no harm
  (`LocalWrites.LocalWritesAreVisible`).

## Hypotheses that recur

- `Mergeable`: distinct operations have distinct markers above the zero marker, each slot gets only writes or only member
  operations, and member operations meet a set or nothing in the starting state. `Replicable` is the same from an empty
  start, without writes of whole sets.
- `LastTieWins`: where operations of one key tie in revision, the last of them has the greatest marker.
- `Settled`: no transaction is open, the relationship index is that of the graph and the queues hold each key once.
  `Honest`: a store that answers a request for a node returns that node. `Known`: what it returns is not ahead of the clock.
- `Chained`: log records have increasing ids, and each lists the removals computed from the manifests before it.
- `Plain`: every node shows, stored or generated, the id it is kept under.

## Model

| member | source | states |
|---|---|---|
| Order.StringOrder | src/clock.rs:13-20 | the order of actor and operation strings is strict and total |
| Order.SplitJoins | src/db.rs:577-585 | splitting a path at its dots takes it apart completely: the pieces hold no dot and join to the path |
| Order.JoinSplits | src/db.rs:577-585 | joined names that hold no dot are found again by splitting |
| Json.EqualIsSame | src/db.rs:8606-8613 | two JSON values are equal if and only if they are the same but for the signs of zero floats, at any depth |
| Clock.RevisionOrder | src/clock.rs:13-26 | revisions are totally ordered by time, counter and actor |
| Clock.MarkerOrder | src/clock.rs:34-46 | markers are totally ordered and the zero marker is least |
| Clock.HybridClock.constructor | src/clock.rs:56-64 | a new clock starts at the given time with counter zero |
| Clock.HybridClock.NextRevision | src/clock.rs:70-84 | the issued revision is the clock's new position, above everything the clock dominated, unless the counter is saturated |
| Clock.HybridClock.Observe | src/clock.rs:86-93 | the clock then dominates the observed revision and moves no further than it |
| Clock.RunDominates | src/clock.rs:70-93 | after any run the clock dominates every revision issued or observed in it |
| Clock.IssuedRevisionsIncrease | src/clock.rs:70-93 | in any run a revision issued before saturation is strictly above all earlier ones, issued or observed |
| Clock.TickIsNext | src/clock.rs:70-84 | below saturation a tick goes to the first position behind the clock's that is not before the given time |
| Clock.SaturationIsExact | src/clock.rs:70-84 | the next revision is greater if and only if time advances or the counter is below its maximum |
| Graph.ApplySlots | src/db.rs:7001-7267 | applying an operation changes its own slot by the slot rule and no other slot |
| Graph.StoredValueStores | src/db.rs:7038-7059 | what a write leaves in its field is the value written: the same scalar, bytes, blob or link, or exactly the listed members, as new as the write |
| Graph.MarkersOrderOperations | src/clock.rs:34-46 | markers order operations by revision, then by operation identifier, and tell apart all that differ in either |
| Graph.Extensional | src/value.rs:10-48 | a graph is determined by its node ids and the contents of its slots |
| Convergence.RegisterStep | src/db.rs:7016-7062 | a write keeps a slot equal to the newest write or deletion seen, whatever arrived before |
| Convergence.SetStep | src/db.rs:7063-7226 | a member operation keeps a set equal to the newest operation per member, its baseline and its version |
| Convergence.JoinStep | src/db.rs:7001-7267 | applying one more operation, new or repeated, to the join of a set of operations gives the join with it |
| Convergence.ReplayJoins | src/db.rs:7001-7267 | replaying a sequence computes the order-free join of the operations in it |
| Convergence.JoinUnique | src/db.rs:7001-7267 | a set of operations has at most one join with a given start |
| Convergence.ReplayClockObserves | src/db.rs:7001-7014 | the clock after replay stands at the greatest revision seen or where it started |
| Convergence.StrongConvergence | src/db.rs:7001-7267 | replicas that start alike and see the same operations in any order, with repetitions, hold the same graph and clock |
| Convergence.MixedPair | src/db.rs:7016-7250 | the same for replaying both on any graph |
| Convergence.MixedSlots | src/db.rs:7016-7250 | on any slot a write and a member operation commute if and only if the write is refused there, or is newer, or the slot absorbs the difference |
| Convergence.MixedOnEmpty | src/db.rs:7016-7250 | on an empty slot they commute if and only if the write is newer or a plain value meets a removal |
| Convergence.MixedFails | src/db.rs:7016-7250 | a deletion and an addition that do not commute |
| Merge.MergeEntry | src/db.rs:8127-8173 | the entry of a member in a merged set is settled from the newest addition, the newest removal and the newer baseline |
| Merge.MergeSetCommutes | src/db.rs:8127-8173 | set merge is commutative on all set states |
| Merge.MergeSetAssociates | src/db.rs:8127-8173 | set merge is associative on all set states |
| Merge.MergeSetIsNormal | src/db.rs:8127-8173 | a merged set is in normal form |
| Merge.MergeSetIdempotent | src/db.rs:8127-8173 | merging a set with itself changes nothing if and only if it is in normal form |
| Merge.MergingWrittenSets | src/db.rs:8127-8173 | merging two copies of a set written as one value drops every member |
| Merge.MergingWrites | src/db.rs:8110-8173 | merging the slots of two writes agrees with replaying both if and only if they do not both write whole sets or the newer set is empty |
| Merge.MergeTombstones | src/db.rs:8073-8089 | the loop over incoming tombstones merges each into its slot |
| Merge.MergeIntoField | src/db.rs:8091-8125 | one incoming field changes its own slot by the merge rule and no other |
| Merge.MergeNodeState | src/db.rs:8067-8108 | the two loops merge every slot of the incoming node state |
| Merge.MergedNodeIsTheMerge | src/db.rs:8067-8108 | merging two node states has exactly one result |
| Merge.ObserveNodeState | src/db.rs:8045-8061 | observing a node state leaves the clock at the greatest revision in it, or unmoved |
| Merge.MergeSnapshot | src/db.rs:8033-8061 | merging a snapshot merges every node and observes every revision |
| Merge.JoinsMerge | src/db.rs:8033-8182 | merging the joins of two operation sets gives the join of their union if and only if no whole sets clash |
| Merge.MergeIsExact | src/db.rs:8033-8182 | merging the states of two operation sequences gives the state of their concatenation if and only if at no slot both last wrote whole sets of which the newer is not empty |
| Merge.MergeAgreesWithReplay | src/db.rs:8033-8182 | in particular it does if no set is written as one value |
| Merge.MergedClock | src/db.rs:8033-8061 | the clock that merged a state is the clock that replayed its operations |
| Merge.MergeReplicas | src/db.rs:8033-8182 | the merge procedure applied to two replicas gives the graph and the clock of one that replayed both histories |
| Merge.MergeCommutes | src/db.rs:8033-8182 | merging reached states is commutative |
| Merge.MergeIdempotent | src/db.rs:8033-8182 | merging a reached state with itself changes nothing |
| Compaction.PositionsUnique | src/db.rs:371-375 | the map of positions is determined by the queue, whose keys are then distinct |
| Compaction.KeyIsTheTarget | src/db.rs:345-369 | two operations share a place in the queue if and only if they name one field and both write all of it, or name one member of it |
| Compaction.CompactedOperations.constructor | src/db.rs:371-375 | a new queue is empty |
| Compaction.CompactedOperations.Push | src/db.rs:389-404 | queueing keeps one operation per key at its first position, the later revision winning, with correct positions |
| Compaction.CompactedOperations.FromOperations | src/db.rs:378-387 | queueing a stream gives its compaction |
| Compaction.CompactedOperations.RebuildIndices | src/db.rs:431-437 | the positions are right again |
| Compaction.CompactedOperations.DrainPrefix | src/db.rs:439-450 | dropping a prefix shifts the positions of the rest |
| Compaction.CompactedOperations.Clear | src/db.rs:426-429 | the queue is empty |
| Compaction.CompactedOrder | src/db.rs:389-404 | a compacted stream holds each key once, in the order keys first occurred |
| Compaction.CompactedIsKept | src/db.rs:389-404 | a compacted stream holds exactly the operations that have the greatest revision of their key and are the last to have it |
| Compaction.CompactedKeepsNewest | src/db.rs:389-404 | these are the newest of each key if and only if the last of tied operations has the greatest marker |
| Compaction.CompactionPreservesMeaning | src/db.rs:345-404 | replaying the compacted stream on any base gives what the whole stream gives, if ties are pushed in that order |
| Compaction.CompactionIsExact | src/db.rs:345-404 | where all operations are newer than the base, the condition on ties is also necessary |
| Compaction.DistinctRevisions | src/db.rs:389-404 | streams that use each revision once meet the condition on ties |
| Compaction.DrainsPreserveMeaning | src/db.rs:389-450 | however pushes and drains are interleaved, what was drained followed by the queue replays to what the whole stream replays to |
| Compaction.CompactionKeepsClock | src/db.rs:345-404 | compaction leaves the clock at the same position, for every stream |
| Compaction.TiedRevisions | src/db.rs:389-404 | for two operations of equal revision on one key, compaction keeps meaning if and only if the later pushed has the greater marker |
| Relationships.ReindexedFrom | src/db.rs:6456-6489 | reindexing a node replaces exactly the edges that leave it |
| Relationships.EdgesAreTheFields | src/db.rs:6456-6489 | the edges of a node are exactly one per link field, to its target, and one per live member of a set field |
| Relationships.ReindexedAllFrom | src/db.rs:6436-6489 | reindexing a set of nodes in any order replaces exactly the edges that leave them |
| Relationships.GroupsUnique | src/db.rs:453-466 | the grouping of an edge set by an endpoint is unique |
| Relationships.RelationshipIndex.Insert | src/db.rs:468-477 | both groupings gain exactly the edge |
| Relationships.RelationshipIndex.RemoveSource | src/db.rs:479-494 | both groupings lose exactly the edges that leave the node, and no empty group stays |
| Relationships.RelationshipIndex.Reindex | src/db.rs:6456-6489 | the edges that leave the node are recomputed |
| Transactions.RunRemembers | src/db.rs:661-751 | every step of a transaction keeps in the journal what is needed to undo it |
| Transactions.RestoredIsStart | src/db.rs:661-751 | restoring from such a journal gives the starting state |
| Transactions.RollbackIsExact | src/db.rs:661-751 | whatever a transaction did, rolling back gives the complete starting state |
| Transactions.IndexIsTheGraph | src/db.rs:6436-6489 | the index is that of the graph after every run, at every traversal inside a transaction and after commit |
| Transactions.CommitEqualsDirect | src/db.rs:1594-1646 | committing leaves what the same steps leave when taken one by one |
| Transactions.RunSettled | src/db.rs:1594-1646 | runs keep the state ready for the next transaction |
| Database.ApplySetField | src/db.rs:7016-7062 | writing a field follows the slot rule; it is accepted if and only if it is newer than the field and its tombstone, changes nothing when refused, and otherwise leaves the value written, with its marker and no tombstone |
| Database.ApplyDeleteField | src/db.rs:7227-7250 | deleting a field follows the slot rule and says whether it was accepted |
| Database.ApplyMember | src/db.rs:7063-7226 | adding or removing a member follows the slot rule and says whether it was accepted |
| Database.Inner.ApplyToGraph | src/db.rs:7015-7251 | the graph becomes the applied graph; nothing else changes |
| Database.Inner.ApplyOperation | src/db.rs:7001-7267 | a refused operation changes nothing; any other is enacted on clock, graph, journal, overlay, index and queues |
| Database.Inner.WriteLocal | src/db.rs:6942-6999 | a local write issues a revision and enacts its operation |
| Database.Inner.RefreshRecordOverlay | src/db.rs:6046-6065 | the overlay forgets the node's old record and holds its current one |
| Database.Inner.FlushPendingIndex | src/db.rs:6445-6454 | every node that waits is reindexed |
| Database.Inner.RequestReindexNode | src/db.rs:6436-6443 | outside a transaction the node is reindexed at once, inside it is noted |
| Database.Inner.EnsureNode | src/db.rs:6524-6531 | the node exists afterwards, journalled |
| Database.Inner.LoadNode | src/db.rs:6503-6521 | given the answer of a store, a node is merged or noted missing, and the result says whether it is there |
| Database.Inner.MaybeLoadNode | src/db.rs:6491-6522 | the same with no store, a store that fails and a store that answers: what changes, what is found, and when the failure shows |
| Database.Inner.ScheduleFetch | src/db.rs:6381-6393 | one fetch is reserved, journalled |
| Database.Inner.ReleaseFetch | src/db.rs:6395-6400 | one reservation is dropped, journalled |
| Database.Inner.ReserveFetch | src/db.rs:6387-6390 | one turn of the loop reserves a node and lists it if it had no reservation |
| Database.Inner.ReserveFetches | src/db.rs:6381-6393 | nodes are reserved in order until the bound is met; the result lists, without repetition, exactly those that had no reservation |
| Database.Inner.ReleaseFetches | src/db.rs:6395-6400 | exactly the listed reservations are dropped |
| Database.Inner.Begin | src/db.rs:674-688 | a journal that holds what is saved eagerly is opened |
| Database.Inner.Commit | src/db.rs:1618-1631 | waiting nodes are reindexed and the journal is dropped |
| Database.Inner.Rollback | src/db.rs:690-751 | the object is back in the state in which the transaction began |
| LocalWrites.NewestShows | src/db.rs:7015-7251 | an operation newer than everything in its slot is accepted and shows: a write as the value written, a removal with its marker |
| LocalWrites.RunCovers | src/db.rs:6942-7014 | in every run whose loads bring nothing ahead of it the clock dominates every revision in the graph |
| LocalWrites.RunCoversQueues | src/db.rs:7001-7014 | in every run the clock dominates every queued revision |
| LocalWrites.LocalWritesAreVisible | src/db.rs:6942-7014 | after every such run the next local write is accepted, shows in its slot and, if the clock dominated the queues at the start, is found in both queues |
| LocalWrites.WriteOutcome | src/db.rs:6942-7267 | in any state with room a write is accepted and queued if and only if its marker is above those its slot holds against it |
| LocalWrites.WriteAfterLoad | src/db.rs:6491-6522 | after a load of any node the next write to it is accepted and queued if and only if its marker is above those the answer holds against it |
| LocalWrites.WriteRefused | src/db.rs:6491-6522 | a load ahead of the clock after which a write is refused and not queued |
| LocalWrites.SequenceCounts | src/clock.rs:95-105 | after any run the sequence in operation identifiers has counted the local writes attempted, up to its greatest value |
| ReadBack.AcceptedReadsBack | src/db.rs:7016-7062 | an accepted write reads back: a scalar, bytes or a blob as its JSON and without an edge, a link as the JSON of its target and one edge, a set as its members in JSON and one edge each |
| ReadBack.NewestReadsBack | src/db.rs:7001-7062 | after any history, in any order and with repetitions, the newest write of a field reads back in the same way |
| ReadBack.NewestIsWritten | src/db.rs:7001-7062 | the newest write of a field is what the field holds in the end, with no tombstone |
| ReadBack.DeletedIsGone | src/db.rs:7227-7250 | an accepted deletion leaves neither a value in the JSON of the node, but for a generated `$id`, nor an edge |
| Records.RecordIsHeld | src/engine.rs:2248-2268 | the record of a node is its string `key` with its scalar, bytes or blob `value`, and a deleted record otherwise |
| Records.RecordNodesStandTogether | src/engine.rs:2244-2246 | the record nodes are those below `__primadb_records/` |
| Records.RefreshShows | src/db.rs:6046-6065 | a refreshed record node is in the overlay if and only if it has a key, and then under that key with its record |
| Records.RefreshIsExact | src/db.rs:6046-6065 | a refresh leaves the overlay true if and only if it disturbs no other record node, by clearing its key or showing another record under it |
| Records.OverlayIsExact | src/db.rs:6046-6065 | the overlay is true all through a run of any steps if and only if no step has two record nodes contend for a key |
| Records.WrittenRecordsAreShown | src/db.rs:6046-6065 | after such a run the overlay shows, for every record node that was written, the record the node holds |
| Records.SharedKeyIsLost | src/db.rs:6046-6065 | of two nodes with one key, one that gets another key takes the record of the other out of the overlay |
| Traversal.StartFrames | src/db.rs:6159-6167 | the frontier starts with exactly the start nodes, at depth zero |
| Traversal.AdjacentIsAlong | src/db.rs:6276-6311 | an edge is taken from a node if and only if it leaves it when outbound edges are asked for or enters it when inbound ones are, over a field and of a kind asked for; it then leads to its other end |
| Traversal.Expand | src/db.rs:6276-6311 | frames for exactly the unvisited ends of edges that go the way asked for, over a field asked for and of a kind asked for |
| Traversal.HeadIsShortest | src/db.rs:6175-6246 | breadth first, the frame to be opened lies at the distance of its node |
| Traversal.WithinDepth | src/db.rs:6175-6246 | breadth first leaves nothing out that lies within the depth limit |
| Traversal.Traverse | src/db.rs:6147-6246 | terminates on every graph; entries are distinct and reached by simple chains as long as their depths; both limit flags and the missing nodes are exactly justified; without the result limit every permitted edge above the depth limit is followed, and breadth first visits all that lies within it, each node at its distance; a complete result covers exactly the reachable nodes |
| Materialize.CollectClosure | src/db.rs:8199-8231 | the worklist ends with exactly the nodes a root needs |
| Materialize.NodeIsDepicted | src/db.rs:7280-7339 | the JSON of a node is the one that shows it: a reference if the node is unknown or on the path, else its id and fields, each with the JSON of its value |
| Materialize.ValueIsDepicted | src/db.rs:7280-7339 | the JSON of a value is the one that shows it: the scalar, tagged bytes, a tagged blob, the linked node, or a tagged list of the set's members in order of their ids |
| Materialize.ReferenceIsExact | src/db.rs:7280-7339 | a node shows as a reference if and only if it is unknown or on the path to itself |
| Materialize.MatchesRootIsBelow | src/db.rs:8199-8201 | a node belongs to a root if and only if it is the root or its id goes on from the root's after a slash |
| Materialize.RestrictedNode | src/db.rs:7280-7339 | a node materializes alike from the graph and from any closed part of it that holds the node |
| Materialize.RootSnapshotKeepsMeaning | src/db.rs:2279-2283 | whatever lies under the root materializes from the root snapshot as from the full graph, reference cuts included, as the JSON that shows it in the full graph |
| Query.SortOrders | src/db.rs:8648-8667 | sorting permutes and leaves no neighbours out of order, even for a comparison that is not transitive |
| Query.MatchesAsAsked | src/db.rs:8606-8646 | a filter lets a value through if and only if the value is there and equal, different, above, below, with the prefix or containing the text, as the filter asks |
| Query.PathNames | src/db.rs:8806-8821 | a path reads a value if and only if it names it: the whole value, the key, or what the names between its dots lead to, member by member |
| Query.CompareReversed | src/db.rs:8840-8852 | comparing two values the other way round gives the reverse order, and fails alike |
| Query.PageTakes | src/db.rs:7562-7569 | the page has the least of the limit and what is left behind the offset, and entry i is element offset plus i |
| Query.NaiveAnswers | src/db.rs:7538-7579 | every accepted candidate is ranked once: the smaller value first or, descending, last; missing values before all others or, descending, behind them; equal and incomparable values by key, equal keys as they stood; the page is that of the ranking, each entry with the key and the JSON of its candidate |
| Query.LazyNodeIsRight | src/db.rs:7654-7748 | a path read from a node without materializing it is what materializing first would give |
| Query.LazyFieldIsRight | src/db.rs:7654-7748 | the same below a field |
| Query.LazyReadIsRight | src/db.rs:7581-7629 | the same for a candidate and a textual path |
| Query.IdIsGenerated | src/db.rs:7654-7748 | the lazy `$id` of a node is its key, and the materialized one is too if and only if the node shows its key |
| Query.PlainIsExact | src/db.rs:7581-7748 | every lazy reading of every candidate and path is right if and only if all nodes show their keys |
| Query.StoredId | src/db.rs:7654-7748 | a node with a stored `$id` that the two readings show differently |
| Query.ReadValue | src/db.rs:7581-7629 | the value is the naive one and the candidate is materialized at most once |
| Query.EvaluateCandidate | src/db.rs:7538-7579 | a candidate is kept if and only if all filters accept it, with the naive order value |
| Query.EvaluateQuery | src/db.rs:7538-7652 | the lazy query returns exactly the entries of the naive one: the accepted candidates, each once, ranked as asked, from the offset up to the limit |
| Recovery.CaughtIndexStep | src/engine.rs:1356-1416 | materializing a payload makes the index follow the manifests for every key named so far, whatever older entries lie around |
| Recovery.ReplayCatchesUp | src/engine.rs:1468-1552 | after replay everything the log names is as its fold says, from any artifacts |
| Recovery.PartialFromLog | src/engine.rs:1300-1354 | any part of the writes of a payload keeps every file a product of the log |
| Recovery.RecoveryIsExact | src/engine.rs:1468-1552 | replaying the log from any mixture of older artifacts leaves exactly the fold of its transactions |
| Recovery.CommitShows | src/engine.rs:1720-1733 | a finished commit shows the fold with the transaction added |
| Recovery.StepSafe | src/engine.rs:1468-1552 | commits, recoveries and power losses that stop anywhere keep the log and its relation to the artifacts |
| Recovery.CrashRecovery | src/engine.rs:1468-1733 | in every run the log only grows, and an open store shows exactly the fold of the logged transactions |
| Recovery.NextIdFollows | src/db.rs:2838 | a store that shows its log goes on with the id after the last one logged, and an empty one with 1 |
| Recovery.RetryAt | src/engine.rs:1157-1179 | after recovery of a retry one index key is right if and only if its removal was not lost and its entry is not stray |
| Recovery.RetryFiles | src/engine.rs:1300-1354 | files other than the index are recovered if and only if each on disk is rewritten by the log or the retry |
| Recovery.RetryIsExact | src/db.rs:2963-3024 | recovery after a retry, from whatever of the log, the first attempt and the retry is on disk, is exact if and only if no removal is lost, no entry is stray and no file is stray |
| Recovery.SameRetryIsExact | src/db.rs:2963-3024 | for a retry of the same transaction only lost removals matter |
| Recovery.RetryFinishes | src/engine.rs:1720-1733 | a retry that completes on the open store shows its transaction if and only if what it does not rewrite is as before the first attempt and no entry is left over |
| Recovery.CoveringRetry | src/db.rs:2973-2985 | if the retry writes at least the files of the first attempt, the first half of that condition holds |
| Recovery.DifferingRetry | src/db.rs:2973-2985 | a retry with another value than the first attempt: no removal is lost, and yet the first entry stays, completed or recovered |
| Recovery.SmallerRetry | src/db.rs:2973-2985 | a retry that holds fewer nodes than the first attempt: nothing is lost, stray or left over in the index, and yet a file stays, completed or recovered |
| SegmentStore.WriteAll | src/engine.rs:1300-1354 | writes files one by one; cut off anywhere it leaves a part of the writes, finished all of them |
| SegmentStore.RemoveAll | src/engine.rs:1300-1354 | the same for removals |
| SegmentStore.ChangedBuckets | src/engine.rs:1356-1416 | exactly the touched buckets are read, removals applied before entries |
| SegmentStore.WriteBuckets | src/engine.rs:1356-1416 | changed buckets are rewritten and empty ones removed; cut off anywhere each bucket is old or new |
| SegmentStore.BucketFile | src/engine.rs:1356-1416 | the file of a bucket afterwards, for changed, emptied and untouched buckets |
| SegmentStore.SegmentFileStore.Materialize | src/engine.rs:1300-1354 | a cut-off materialization is a part of the payload, a finished one all of it |
| SegmentStore.SegmentFileStore.ApplyTransaction | src/engine.rs:1720-1733 | the log record comes first, then the artifacts, then the record is final; cut off anywhere it is a commit step of the model |
| SegmentStore.SegmentFileStore.Finalize | src/engine.rs:1536-1547 | a pending record becomes final, or is dropped if it is final already; the log is the same |
| SegmentStore.SegmentFileStore.ReplayId | src/engine.rs:1468-1552 | one id is materialized once, from the final or the pending record, and its record becomes final |
| SegmentStore.SegmentFileStore.Recover | src/engine.rs:1468-1552 | recovery replays the log in id order, completely or up to a part of one payload |
| SortKeys.HexBelow | src/engine.rs:2188-2195 | hexadecimal numbers of equal width order as their values |
| SortKeys.Utf8Order | src/engine.rs:2188-2195 | encoded code points order as the code points |
| SortKeys.EncodeOrder | src/engine.rs:2188-2195 | encoded components order if and only if the strings do |
| SortKeys.EncodeInjective | src/engine.rs:2188-2195 | different strings have different encodings |
| SortKeys.EncodePrefix | src/engine.rs:2188-2199 | a prefix encodes to a prefix |
| SortKeys.EncodePrefixBack | src/engine.rs:2188-2199 | only prefixes encode to prefixes |
| SortKeys.DecodeEncode | src/engine.rs:2188-2220 | decoding undoes encoding for every string |
| SortKeys.NumberKeyOrder | src/engine.rs:2055-2072 | number keys order exactly as the total order of doubles and are injective |
| SortKeys.DirectKeyParts | src/engine.rs:2074-2098 | a direct-index key splits back into its components |
| SortKeys.DirectKeyInjective | src/engine.rs:2074-2098 | keys of different paths, sort keys or nodes differ |
| Pushdown.KeyOrder | src/engine.rs:2055-2072 | sort keys order as the comparison of query values does |
| Pushdown.AbsorbWithin | src/db.rs:8700-8754 | a filter that accepts a value narrows the scan past its key if and only if the two zeros part |
| Pushdown.BuildAccepts | src/db.rs:8700-8754 | the scan of many filters keeps the key of every value they accept, but for parted zeros |
| Pushdown.PushdownIsExact | src/db.rs:8700-8754 | the scan accepts the key of a value all filters accept if and only if no zero clashes |
| Pushdown.ZeroIsLost | src/db.rs:8700-8754 | a stored zero that an equality with the negative zero accepts and its scan does not |
| Pushdown.NoNegativeZero | src/db.rs:8764-8804 | without negative zeros nothing is lost |
| Pushdown.ScanMatching | src/db.rs:3263-3282 | the scan followed by the residual filters selects exactly the entries that pass both |
| Fragments.CleanAvoids | src/engine.rs:2297-2359 | no chain of links from a node found free of cycles meets the active path |
| Fragments.NoReturn | src/engine.rs:2297-2359 | such a node does not reach back to a node that reaches it |
| Fragments.CollectForgets | src/engine.rs:2297-2359 | what was collected for such a node does not depend on the active path |
| Fragments.CacheHit | src/engine.rs:2297-2305 | using the remembered result is right on every active path |
| Fragments.CollectCached | src/engine.rs:2297-2359 | memoised collection equals the plain recursion on every graph, cyclic or not, and keeps the cache right |
| Fragments.CollectFieldsCached | src/engine.rs:2306-2359 | the same for the fields of a node |
| Fragments.CollectFieldCached | src/engine.rs:2306-2359 | the same for one field |
| Fragments.CollectIsTheRoutes | src/engine.rs:2297-2359 | a fragment is collected if and only if it stands for a chain of link fields without a repeated node that ends in a sortable scalar: the names of its fields joined by dots, that scalar and its sort key |
| Fragments.NodeIndexIsTheRoutes | src/engine.rs:2270-2295 | the index of a node holds an entry for the path and sort key of every such chain, with a value that one of them ends in, and no other entry |
| Fragments.MakeEntries | src/engine.rs:2282-2295 | the entries made of fragments are those the fragments stand for |
| Fragments.NodeIndexIsOwned | src/engine.rs:1962-1991 | the entries of a node belong to it and carry the sort keys of their values |
| Fragments.IndexRoot | src/engine.rs:2270-2295 | the entries of one root are those of the uncached recursion: one for each scalar at the end of a chain of link fields, under the dotted path of the fields, with its value and sort key |
| Fragments.BuildIndexes | src/engine.rs:1962-1991 | with one cache for all roots, every node gets the index of the uncached recursion, and so exactly the entries of its chains of link fields |
| CacheProtocol.Appended | src/db.rs:389-404 | past the old end of the queue lies one operation for each key that was not queued, and nothing else |
| CacheProtocol.AnnouncedNames | src/db.rs:1604-1631 | a transaction's event names exactly the records written through a key that was not queued, or everything if such a record has no readable key |
| CacheProtocol.AnnouncedCovers | src/db.rs:608-650 | it covers a change if and only if it names everything or each changed record was written through such a key |
| CacheProtocol.AppliedCovers | src/db.rs:1993-2015 | the event of applied remote operations covers all they change |
| CacheProtocol.FetchCovers | src/db.rs:2192-2214 | the event of a fetched node covers what the fetch changes |
| CacheProtocol.StepSafe | src/db.rs:3026-3106 | every step of writers, persistence and rebuilders that drops no mark keeps caches fresh or owed and snapshots current or unannounced |
| CacheProtocol.StepExclusive | src/db.rs:3616-3693 | every step keeps one rebuilder for each held collection and none for others |
| CacheProtocol.CacheFreshness | src/db.rs:3616-3770 | over all interleavings without dropped marks, a clean cache with no mark owed is what a rebuild would give; no collection has two rebuilders |
| CacheProtocol.RebuildSucceeds | src/db.rs:3616-3692 | whatever state a cache is in, if it is not clean a rebuild may start, and undisturbed it leaves the cache clean and fresh and all else as before |
| CacheProtocol.BatchIsExact | src/db.rs:1594-1646 | a local transaction that changes a fresh collection keeps it protected if and only if it writes a record there, or one without a readable key, through a key that is not queued |
| CacheProtocol.SilentWrite | src/db.rs:1604-1643 | a run in which every attempt to persist succeeds and which ends with a clean, stale cache and no mark owed |
| Vectors.DecodeFlat | src/vector.rs:825-843 | decoding undoes encoding for every vector |
| Vectors.DecodesTo | src/vector.rs:825-843 | bytes decode to a vector if and only if the vector encodes to them; bytes of other lengths do not decode |
| Vectors.FiniteIsBelowInfinity | src/vector.rs:756 | a number is finite if and only if its bits without the sign are below those of infinity |
| Vectors.EncodeVector | src/vector.rs:825-831 | the loop writes the little-endian bytes, which decode to the vector |
| Vectors.ChunkRoundTrip | src/vector.rs:849-889 | a chunk record reads back as its header and payload |
| Vectors.WriteVector | src/db.rs:1060-1107 | a write leaves exactly its metadata and its chunks, or fails if and only if a header is too long |
| Vectors.CollectChunks | src/db.rs:4532-4556 | chunk records are gathered by header index, and malformed ones are noticed |
| Vectors.Assemble | src/db.rs:4582-4628 | the loop accepts and joins exactly the chunks that agree with the metadata |
| Vectors.AssembledIsChecked | src/db.rs:4582-4628 | from any chunks a vector is read if and only if dimension, encoding, length and both kinds of checksum are right and every chunk is there with the write, index, count and offset expected; it is then the vector whose bytes the payloads hold |
| Vectors.JoinedIsWhole | src/db.rs:4597-4615 | joining gives all bytes of the named write if its chunks are there, and nothing otherwise |
| Vectors.AssembledIsExact | src/db.rs:4582-4628 | from any mixture of writes the result is the whole vector of the named write if and only if its chunks are complete |
| Vectors.ReadItem | src/db.rs:4532-4628 | reading an item gives the deletion, the whole vector of the write the metadata names, or nothing: never a torn vector |
| Vectors.WriteReads | src/db.rs:1060-1107 | the records of one write are whole if and only if the vector is not empty, for every chunk size |

## Left out

- Vacuum, checkpoints, compaction of segment files and quarantine of corrupt records.
- Durability levels: a write to the log is taken to be in order, and files to be written whole or not at all.
- Encryption, signatures, users and scope policies; the answer of a policy is a parameter.
- Networking, synchronisation sessions, watch notifications and subscriptions.
- The text of operation and node identifiers, the wall clock and the hashing of long record keys, which are parameters.
- Text search ranking and approximate vector search; only the freshness of their caches is modelled.
- The order in which a traversal meets the edges of a node, which is immaterial to what is proved; values and filters of traversal entries are a parameter `view`.
- The sort of query results is modelled as a stable insertion sort, which the source leaves to its library.
- SortKeys.DecodeEncode: decoding is modelled on encoded components; byte strings that are not UTF-8 are rejected as the library does, and no more is said of them.
- CacheProtocol.CacheFreshness: the change revision is unbounded, so its saturation is not modelled, and cache files kept on disk are not part of the model.
- Merge.MergeSnapshot: models the graph and the clock; that a merge also clears missing nodes, takes over policies and rebuilds the index and the overlay is left out.
- Vectors.ReadItem: a metadata record that does not parse is no metadata, which the source treats alike; widths of machine integers are not modelled, and distinct writes are taken to have distinct write identifiers.
- Merge.MergedClock: writes of whole sets are excluded, because a merge that loses members also loses their revisions.
- CacheProtocol.StepSafe: a write to the graph outside a transaction changes no record in the model, and the external hooks that flush the queue in a browser are left out.
- LocalWrites.WriteAfterLoad: speaks of one load and one write; runs with several loads ahead of the clock are covered by `LocalWrites.WriteOutcome` at their last state.
- LocalWrites.SequenceCounts: counts the steps of the model; generating a node identifier, which the source counts too, is not one of them.
- Query.EvaluateQuery: where incomparable order values make the comparison intransitive the library's sort may stop with an error or leave any order; the model always ends with neighbours in order.
