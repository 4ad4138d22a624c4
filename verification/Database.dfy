/**
  The database object: the fields that operations, transactions and traversals update in place.
  Each method is proved to make the step that `Transactions` describes.
 */
module Database {
  import opened Json
  import opened Clock
  import opened Graph
  import opened Merge
  import opened Compaction
  import opened Relationships
  import opened Transactions

  /** Storing a slot that is already there changes nothing. */
  lemma SameSlot(state: NodeState, field: string)
    ensures WithSlot(state, field, SlotOf(state, field)) == state
  {
    var after := WithSlot(state, field, SlotOf(state, field));
    assert after.fields == state.fields;
    assert after.tombstones == state.tombstones;
  }

  method ApplySetField(state: NodeState, field: string, value: OperationValue, marker: Marker)
    returns (next: NodeState, accepted: bool)
    ensures forall op: Operation | MarkerOf(op) == marker && op.action.SetField? && op.action.value == value ::
              (next, accepted) == (WithSlot(state, field, StepSlot(SlotOf(state, field), op).0),
                                   StepSlot(SlotOf(state, field), op).1)
    ensures accepted <==> (field in state.tombstones ==> Lt(state.tombstones[field], marker)) &&
                          (field in state.fields ==> Lt(state.fields[field].version, marker))
    ensures !accepted ==> next == state
    ensures accepted ==>
              && field in next.fields && field !in next.tombstones && next.fields[field].version == marker
              && Stores(value, marker, next.fields[field].value)
  {
    MarkerOrder();
    SameSlot(state, field);
    StoredValueStores(value, marker);
    var tombstoneBlocks := field in state.tombstones && Le(marker, state.tombstones[field]);
    var fieldBlocks := field in state.fields && Le(marker, state.fields[field].version);
    if tombstoneBlocks || fieldBlocks {
      return state, false;
    }
    next := state.(tombstones := state.tombstones - {field},
                   fields := state.fields[field := FieldState(StoredValue(value, marker), marker)]);
    accepted := true;
  }

  method ApplyDeleteField(state: NodeState, field: string, marker: Marker)
    returns (next: NodeState, accepted: bool)
    ensures forall op: Operation | MarkerOf(op) == marker && op.action.DeleteField? ::
              (next, accepted) == (WithSlot(state, field, StepSlot(SlotOf(state, field), op).0),
                                   StepSlot(SlotOf(state, field), op).1)
  {
    SameSlot(state, field);
    var fieldBlocks := field in state.fields && Le(marker, state.fields[field].version);
    var tombstoneBlocks := field in state.tombstones && Le(marker, state.tombstones[field]);
    if fieldBlocks || tombstoneBlocks {
      return state, false;
    }
    next := state.(fields := state.fields - {field}, tombstones := state.tombstones[field := marker]);
    accepted := true;
  }

  /** Storing a field and keeping the tombstone, as the member operations do. */
  lemma FieldStored(state: NodeState, field: string, value: FieldState)
    ensures WithSlot(state, field, SlotOf(state, field).(field := Some(value)))
            == state.(fields := state.fields[field := value])
  {
    var after := WithSlot(state, field, SlotOf(state, field).(field := Some(value)));
    assert after.tombstones == state.tombstones;
  }

  method ApplyMember(state: NodeState, field: string, member: NodeId, add: bool, marker: Marker)
    returns (next: NodeState, accepted: bool)
    ensures forall op: Operation |
              MarkerOf(op) == marker && IsMemberOp(op) && op.action.AddMember? == add && op.action.member == member ::
              (next, accepted) == (WithSlot(state, field, StepSlot(SlotOf(state, field), op).0),
                                   StepSlot(SlotOf(state, field), op).1)
  {
    SameSlot(state, field);
    next, accepted := state, false;
    if field in state.tombstones && Le(marker, state.tombstones[field]) {
      return;
    }
    var value: FieldState;
    if field !in state.fields {
      value := FieldState(Set(if add then SetState(ZERO_MARKER, map[member := marker], map[])
                              else SetState(ZERO_MARKER, map[], map[member := marker])), marker);
    } else {
      var current := state.fields[field];
      if current.value.Set? {
        var set_ := current.value.state;
        if Le(marker, set_.baseline) {
          return;
        }
        var memberBlocks := member in set_.members && Le(marker, set_.members[member]);
        var removalBlocks := member in set_.removed && Le(marker, set_.removed[member]);
        if memberBlocks || removalBlocks {
          return;
        }
        var changed := if add then SetState(set_.baseline, set_.members[member := marker], set_.removed - {member})
                       else SetState(set_.baseline, set_.members - {member}, set_.removed[member := marker]);
        value := FieldState(Set(changed), if Lt(current.version, marker) then marker else current.version);
      } else {
        if Le(marker, current.version) {
          return;
        }
        value := FieldState(Set(if add then SetState(marker, map[member := marker], map[])
                                else SetState(ZERO_MARKER, map[], map[member := marker])), marker);
      }
    }
    next := state.(fields := state.fields[field := value]);
    accepted := true;
    FieldStored(state, field, value);
  }

  /** What stands behind the nodes in memory: nothing, a store that fails, or one that answers. */
  datatype Store = Absent | Failing | Answering(answer: Option<NodeState>)

  function Schedules(ns: seq<NodeId>): seq<Step> {
    seq(|ns|, i requires 0 <= i < |ns| => Schedule(ns[i]))
  }

  function Unschedules(ns: seq<NodeId>): seq<Step> {
    seq(|ns|, i requires 0 <= i < |ns| => Unschedule(ns[i]))
  }

  lemma SchedulesNext(s: Db, ns: seq<NodeId>, i: nat)
    requires i < |ns|
    ensures Run(s, Schedules(ns[..i + 1])) == Next(Run(s, Schedules(ns[..i])), Schedule(ns[i]))
  {
    assert Schedules(ns[..i + 1])[..i] == Schedules(ns[..i]);
  }

  /** After trying to reserve nodes: all are scheduled, and those listed, once each, had not been. */
  ghost predicate ReservedOf(before: set<NodeId>, tried: seq<NodeId>, after: set<NodeId>, reserved: seq<NodeId>) {
    && (forall n :: n in after <==> n in before || n in tried)
    && (forall n :: n in reserved <==> n in tried && n !in before)
    && (forall i, j :: 0 <= i < j < |reserved| ==> reserved[i] != reserved[j])
  }

  lemma ReservedNext(before: set<NodeId>, ns: seq<NodeId>, i: nat, after: set<NodeId>, reserved: seq<NodeId>)
    requires i < |ns| && ReservedOf(before, ns[..i], after, reserved)
    ensures ReservedOf(before, ns[..i + 1], after + {ns[i]}, if ns[i] in after then reserved else reserved + [ns[i]])
  {
    assert ns[..i + 1] == ns[..i] + [ns[i]];
  }

  lemma UnschedulesNext(s: Db, ns: seq<NodeId>, i: nat)
    requires i < |ns|
    ensures Run(s, Unschedules(ns[..i + 1])) == Next(Run(s, Unschedules(ns[..i])), Unschedule(ns[i]))
  {
    assert Unschedules(ns[..i + 1])[..i] == Unschedules(ns[..i]);
  }

  class Inner {
    var clock: ClockState
    var nodes: Nodes
    var missing: set<NodeId>
    var scheduled: set<NodeId>
    var overlay: map<string, Option<RecordEntry>>
    var overlayKeys: map<NodeId, string>
    var journal: Option<Journal>
    const maxPending: nat
    const pending: CompactedOperations
    const unflushed: CompactedOperations
    const index: RelationshipIndex

    ghost predicate Valid()
      reads this, pending, unflushed, index
    {
      pending != unflushed && pending.Valid() && unflushed.Valid() && index.Valid()
    }

    ghost function State(): Db
      reads this, pending, unflushed, index
    {
      Db(clock, nodes, missing, scheduled, overlay, overlayKeys, pending.operations, unflushed.operations,
         index.edges, maxPending, journal)
    }

    constructor (clock: ClockState, maxPending: nat)
      ensures Valid() && fresh(pending) && fresh(unflushed) && fresh(index)
      ensures State() == Db(clock, map[], {}, {}, map[], map[], [], [], {}, maxPending, None)
    {
      this.clock, this.maxPending := clock, maxPending;
      nodes, missing, scheduled, overlay, overlayKeys, journal := map[], {}, {}, map[], map[], None;
      pending := new CompactedOperations();
      unflushed := new CompactedOperations();
      index := new RelationshipIndex();
    }

    method JournalNode(n: NodeId)
      requires Valid()
      modifies this`journal
      ensures Valid() && State() == SaveNode(old(State()), n)
    {
      if journal.Some? && n !in journal.value.nodes {
        var saved := journal.value.nodes[n := Lookup(nodes, n)];
        journal := Some(journal.value.(nodes := saved));
      }
    }

    method JournalMissing(n: NodeId)
      requires Valid()
      modifies this`journal
      ensures Valid() && State() == SaveMissing(old(State()), n)
    {
      if journal.Some? && n !in journal.value.missing {
        var saved := journal.value.missing[n := n in missing];
        journal := Some(journal.value.(missing := saved));
      }
    }

    method JournalScheduled(n: NodeId)
      requires Valid()
      modifies this`journal
      ensures Valid() && State() == SaveScheduled(old(State()), n)
    {
      if journal.Some? && n !in journal.value.scheduled {
        var saved := journal.value.scheduled[n := n in scheduled];
        journal := Some(journal.value.(scheduled := saved));
      }
    }

    /** Journals what queueing an operation replaces, then queues it. */
    method PushUnflushed(op: Operation)
      requires Valid()
      modifies this`journal, unflushed
      ensures Valid() && State() == Unflush(old(State()), op)
    {
      if journal.Some? {
        var undo := JournalQueue(journal.value.unflushed, unflushed, op);
        journal := Some(journal.value.(unflushed := undo));
      }
      unflushed.Push(op);
    }

    method PushPending(op: Operation)
      requires Valid()
      modifies this`journal, pending
      ensures Valid() && State() == Enqueue(old(State()), op)
    {
      if journal.Some? {
        var undo := JournalQueue(journal.value.pending, pending, op);
        journal := Some(journal.value.(pending := undo));
      }
      pending.Push(op);
    }

    static method JournalQueue(undo: QueueUndo, queue: CompactedOperations, op: Operation) returns (next: QueueUndo)
      requires queue.Valid()
      ensures next == Remembered(undo, queue.operations, op)
    {
      PositionsUnique(queue.operations, queue.indices, queue.indices);
      var key := KeyOf(op);
      next := undo;
      if key in queue.indices {
        var index := queue.indices[key];
        if index !in undo.replaced {
          next := undo.(replaced := undo.replaced[index := queue.operations[index]]);
        }
      }
    }

    method RequestReindexNode(n: NodeId)
      requires Valid()
      modifies this`journal, index
      ensures Valid() && State() == RequestReindex(old(State()), n)
    {
      if journal.None? {
        index.Reindex(nodes, n);
      } else {
        var j := journal.value;
        journal := Some(j.(sources := j.sources + {n}, stale := j.stale + {n}));
      }
    }

    method RefreshRecordOverlay(n: NodeId)
      requires Valid()
      modifies this`overlay, this`overlayKeys
      ensures Valid() && State() == RefreshOverlay(old(State()), n)
    {
      if !IsRecordNode(n) {
        return;
      }
      if n in overlayKeys {
        overlay := overlay - {overlayKeys[n]};
        overlayKeys := overlayKeys - {n};
      }
      if n in nodes && RecordKey(nodes[n]).Some? {
        var key := RecordKey(nodes[n]).value;
        overlayKeys := overlayKeys[n := key];
        overlay := overlay[key := RecordOf(nodes[n])];
      }
    }

    static method JournalNodes(saved: map<NodeId, Option<NodeState>>, nodes: Nodes, ns: set<NodeId>)
      returns (next: map<NodeId, Option<NodeState>>)
      ensures next == SavedAll(saved, nodes, ns)
    {
      next := saved;
      var left := ns;
      while left != {}
        invariant left <= ns
        invariant forall n :: n in next <==> n in saved || (n in ns && n !in left)
        invariant forall n :: n in next ==> next[n] == if n in saved then saved[n] else Lookup(nodes, n)
        decreases |left|
      {
        var n :| n in left;
        if n !in next {
          next := next[n := Lookup(nodes, n)];
        }
        left := left - {n};
      }
    }

    /** Recomputes the edges of every node that waits for it. */
    method FlushPendingIndex()
      requires Valid()
      modifies this`journal, index
      ensures Valid() && State() == Flush(old(State()))
    {
      if journal.Some? {
        var stale := journal.value.stale;
        var saved := JournalNodes(journal.value.nodes, nodes, stale);
        journal := Some(journal.value.(nodes := saved, stale := {}));
        ReindexSources(stale);
      }
    }

    method ApplyToGraph(op: Operation) returns (accepted: bool)
      requires Valid()
      modifies this`nodes
      ensures Valid() && State() == old(State()).(nodes := Apply(old(nodes), op))
      ensures accepted == Accepted(old(nodes), op)
    {
      var marker := MarkerOf(op);
      var n, field := op.action.node, op.action.field;
      var state := NodeOrNew(nodes, n);
      assert SlotOf(state, field) == SlotAt(nodes, n, field);
      match op.action {
        case SetField(_, _, value) => state, accepted := ApplySetField(state, field, value, marker);
        case DeleteField(_, _) => state, accepted := ApplyDeleteField(state, field, marker);
        case AddMember(_, _, member) => state, accepted := ApplyMember(state, field, member, true, marker);
        case RemoveMember(_, _, member) => state, accepted := ApplyMember(state, field, member, false, marker);
      }
      nodes := nodes[n := state];
    }

    /** Applies a local or remote operation. `allowed` is the answer of the scope policies. */
    method ApplyOperation(op: Operation, local: bool, allowed: bool) returns (accepted: bool)
      requires Valid()
      modifies this, pending, unflushed, index
      ensures Valid()
      ensures var refused := if local then |old(State()).pending| >= maxPending else !allowed;
              && State() == (if refused then old(State()) else Enact(old(State()), op, local))
              && accepted == (!refused && Accepted(old(nodes), op))
    {
      if local && |pending.operations| >= maxPending {
        return false;
      }
      if !local && !allowed {
        return false;
      }
      clock := Observed(clock, op.revision);
      JournalNode(op.action.node);
      accepted := ApplyToGraph(op);
      if accepted {
        RefreshRecordOverlay(op.action.node);
        RequestReindexNode(op.action.node);
        PushUnflushed(op);
        if local {
          PushPending(op);
        }
      }
    }

    /** Issues a revision and applies a local operation. */
    method WriteLocal(now: nat, opId: string, action: Action) returns (accepted: bool)
      requires Valid()
      modifies this, pending, unflushed, index
      ensures Valid() && State() == Next(old(State()), Write(now, opId, action))
    {
      clock := Issued(clock, now);
      var op := Operation(opId, clock.actor, Current(clock), action);
      accepted := ApplyOperation(op, true, true);
    }

    method EnsureNode(n: NodeId)
      requires Valid()
      modifies this
      ensures Valid() && State() == Next(old(State()), Ensure(n))
    {
      JournalNode(n);
      JournalMissing(n);
      missing := missing - {n};
      if n !in nodes {
        nodes := nodes[n := NewNode(n)];
      }
      assert old(nodes)[n := NodeOrNew(old(nodes), n)] == nodes;
    }

    /** Merges what the store gave for a node. */
    method StoreLoaded(n: NodeId, state: NodeState)
      requires Valid()
      modifies this, index
      ensures Valid()
      ensures State() == RequestReindex(
                           SaveMissing(SaveNode(old(State()), n), n).(
                             nodes := old(nodes)[state.id := MergedNode(NodeOrNew(old(nodes), state.id), state)],
                             missing := old(missing) - {n}), n)
      ensures state.id in nodes
    {
      JournalNode(n);
      JournalMissing(n);
      var merged := MergeNodeState(NodeOrNew(nodes, state.id), state);
      MergedNodeIsTheMerge(NodeOrNew(nodes, state.id), state, merged);
      nodes, missing := nodes[state.id := merged], missing - {n};
      RequestReindexNode(n);
    }

    /** Loads a node, given the answer of an attached store. */
    method LoadNode(n: NodeId, answer: Option<NodeState>) returns (found: bool)
      requires Valid()
      modifies this, index
      ensures Valid() && State() == Next(old(State()), Load(n, answer))
      ensures Honest(Load(n, answer)) && !old(n in missing && (n in nodes ==> IsEmpty(nodes[n]))) ==>
              found == (n in nodes)
      ensures old(n in missing && (n in nodes ==> IsEmpty(nodes[n]))) ==> !found
    {
      if n in nodes && !IsEmpty(nodes[n]) {
        return true;
      }
      if n in missing {
        return false;
      }
      match answer {
        case Some(state) =>
          StoreLoaded(n, state);
          found := true;
        case None =>
          found := n in nodes;
          if !found {
            JournalMissing(n);
            missing := missing + {n};
          }
      }
    }

    /** Loads a node. Without a store nothing changes; a store that fails is asked only if it must be. */
    method MaybeLoadNode(n: NodeId, store: Store) returns (found: Option<bool>)
      requires Valid()
      modifies this, index
      ensures Valid()
      ensures State() == if store.Answering? then Next(old(State()), Load(n, store.answer)) else old(State())
      ensures found == None <==> store.Failing? && n !in missing && (n in nodes ==> IsEmpty(nodes[n]))
      ensures store.Absent? ==> found == Some(n in nodes)
      ensures store.Failing? && found.Some? ==> found.value == (n in nodes && !IsEmpty(nodes[n]))
      ensures store.Answering? && Honest(Load(n, store.answer)) ==>
                found == Some(n in nodes && !old(n in missing && (n in nodes ==> IsEmpty(nodes[n]))))
    {
      match store {
        case Absent =>
          return Some(n in nodes);
        case Failing =>
          if n in nodes && !IsEmpty(nodes[n]) {
            return Some(true);
          }
          return if n in missing then Some(false) else None;
        case Answering(answer) =>
          var loaded := LoadNode(n, answer);
          found := Some(loaded);
      }
    }

    method ScheduleFetch(n: NodeId)
      requires Valid()
      modifies this`journal, this`scheduled
      ensures Valid() && State() == Next(old(State()), Schedule(n))
    {
      JournalScheduled(n);
      scheduled := scheduled + {n};
    }

    method ReleaseFetch(n: NodeId)
      requires Valid()
      modifies this`journal, this`scheduled
      ensures Valid() && State() == Next(old(State()), Unschedule(n))
    {
      JournalScheduled(n);
      scheduled := scheduled - {n};
    }

    method ReserveFetch(n: NodeId, reserved: seq<NodeId>) returns (reserved': seq<NodeId>)
      requires Valid()
      modifies this`journal, this`scheduled
      ensures Valid() && State() == Next(old(State()), Schedule(n)) && scheduled == old(scheduled) + {n}
      ensures reserved' == if n in old(scheduled) then reserved else reserved + [n]
    {
      reserved' := if n in scheduled then reserved else reserved + [n];
      ScheduleFetch(n);
    }

    /** Reserves fetches, up to a bound, for those nodes that have none. */
    method ReserveFetches(ns: seq<NodeId>, max: nat) returns (reserved: seq<NodeId>, ghost tried: nat)
      requires Valid()
      modifies this`journal, this`scheduled
      ensures Valid() && tried <= |ns| && State() == Run(old(State()), Schedules(ns[..tried]))
      ensures |reserved| <= max && (tried < |ns| ==> |reserved| == max)
      ensures ReservedOf(old(scheduled), ns[..tried], scheduled, reserved)
    {
      reserved, tried := [], 0;
      var i := 0;
      assert Schedules(ns[..0]) == [];
      while i < |ns| && |reserved| < max
        invariant i <= |ns| && tried == i && Valid() && State() == Run(old(State()), Schedules(ns[..i]))
        invariant |reserved| <= max && ReservedOf(old(scheduled), ns[..i], scheduled, reserved)
      {
        SchedulesNext(old(State()), ns, i);
        ReservedNext(old(scheduled), ns, i, scheduled, reserved);
        reserved := ReserveFetch(ns[i], reserved);
        i, tried := i + 1, i + 1;
      }
    }

    method ReleaseFetches(ns: seq<NodeId>)
      requires Valid()
      modifies this`journal, this`scheduled
      ensures Valid() && State() == Run(old(State()), Unschedules(ns))
      ensures forall n :: n in scheduled <==> n in old(scheduled) && n !in ns
    {
      assert Unschedules(ns[..0]) == [];
      for i := 0 to |ns|
        invariant Valid() && State() == Run(old(State()), Unschedules(ns[..i]))
        invariant forall n :: n in scheduled <==> n in old(scheduled) && n !in ns[..i]
      {
        UnschedulesNext(old(State()), ns, i);
        assert ns[..i + 1] == ns[..i] + [ns[i]];
        ReleaseFetch(ns[i]);
      }
      assert ns[..|ns|] == ns;
    }

    // -------------------------------------------------------------- transactions

    method Begin()
      requires Valid()
      modifies this`journal
      ensures Valid() && State() == Begun(old(State()))
    {
      journal := Some(Journal(clock, map[], overlay, overlayKeys, QueueUndo(|pending.operations|, map[]),
                              QueueUndo(|unflushed.operations|, map[]), map[], map[], {}, {}));
    }

    method Commit()
      requires Valid()
      modifies this`journal, index
      ensures Valid() && State() == Committed(old(State()))
    {
      FlushPendingIndex();
      journal := None;
    }

    static method RestoreQueue(queue: CompactedOperations, undo: QueueUndo)
      requires queue.Valid()
      requires DistinctKeys(RestoredQueue(queue.operations, undo))
      modifies queue
      ensures queue.Valid() && queue.operations == RestoredQueue(old(queue.operations), undo)
    {
      ghost var was := queue.operations;
      if undo.initialLen < |queue.operations| {
        queue.operations := queue.operations[..undo.initialLen];
      }
      var i := 0;
      while i < |queue.operations|
        invariant 0 <= i <= |queue.operations| == |RestoredQueue(was, undo)|
        invariant forall k :: 0 <= k < |queue.operations| ==>
                    queue.operations[k] == if k < i then RestoredQueue(was, undo)[k] else was[k]
      {
        if i in undo.replaced {
          queue.operations := queue.operations[i := undo.replaced[i]];
        }
        i := i + 1;
      }
      assert queue.operations == RestoredQueue(was, undo);
      queue.RebuildIndices();
    }

    /** Undoes a transaction that began in state `start`. */
    method Rollback(ghost start: Db)
      requires Valid() && Settled(start) && Remembers(start, State())
      modifies this, pending, unflushed, index
      ensures Valid() && State() == start
    {
      ghost var was := State();
      RestoredIsStart(start, was);
      var j := journal.value;
      journal := None;
      clock := j.clock;
      RestoreQueue(pending, j.pending);
      RestoreQueue(unflushed, j.unflushed);
      nodes := RestoredMap(nodes, j.nodes);
      missing := RestoredSet(missing, j.missing);
      scheduled := RestoredSet(scheduled, j.scheduled);
      ReindexSources(j.sources);
      overlay := j.overlay;
      overlayKeys := j.overlayKeys;
      assert State() == Restored(was);
    }

    method ReindexSources(sources: set<NodeId>)
      requires Valid()
      modifies index
      ensures Valid() && index.edges == ReindexedAll(old(index.edges), nodes, sources)
    {
      var left := sources;
      ReindexedNone(index.edges, nodes);
      while left != {}
        invariant left <= sources && index.Valid()
        invariant index.edges == ReindexedAll(old(index.edges), nodes, sources - left)
        decreases |left|
      {
        var n :| n in left;
        index.Reindex(nodes, n);
        ReindexedMore(old(index.edges), nodes, sources - left, n);
        assert sources - left + {n} == sources - (left - {n});
        left := left - {n};
      }
      assert sources - {} == sources;
    }
  }

  lemma ReindexedNone(edges: set<Edge>, nodes: Nodes)
    ensures ReindexedAll(edges, nodes, {}) == edges
  {
  }

  lemma ReindexedMore(edges: set<Edge>, nodes: Nodes, done: set<NodeId>, n: NodeId)
    ensures Reindexed(ReindexedAll(edges, nodes, done), nodes, n) == ReindexedAll(edges, nodes, done + {n})
  {
    var a, b := Reindexed(ReindexedAll(edges, nodes, done), nodes, n), ReindexedAll(edges, nodes, done + {n});
    forall m ensures From(a, m) == From(b, m) {
      ReindexedFrom(ReindexedAll(edges, nodes, done), nodes, n, m);
      ReindexedAllFrom(edges, nodes, done, m);
      ReindexedAllFrom(edges, nodes, done + {n}, m);
    }
    SameFrom(a, b);
  }
}
