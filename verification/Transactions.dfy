/**
  Transactions: the database state, the steps that change it, and the journal that can undo
  them. Outside a transaction the journal is absent and the relationship index is kept up to
  date by every step; inside one, reindexing is deferred.
 */
module Transactions {
  import opened Json
  import opened Clock
  import opened Graph
  import opened Merge
  import opened Compaction
  import opened Relationships

  datatype RecordValue = JsonRecord(json: Json) | BytesRecord(base64: string) | BlobRecord(reference: Json)

  datatype RecordEntry = RecordEntry(key: string, value: RecordValue)

  datatype QueueUndo = QueueUndo(initialLen: nat, replaced: map<nat, Operation>)

  datatype Journal = Journal(
    clock: ClockState,
    nodes: map<NodeId, Option<NodeState>>,
    overlay: map<string, Option<RecordEntry>>,
    overlayKeys: map<NodeId, string>,
    pending: QueueUndo,
    unflushed: QueueUndo,
    missing: map<NodeId, bool>,
    scheduled: map<NodeId, bool>,
    sources: set<NodeId>,
    stale: set<NodeId>)

  datatype Db = Db(
    clock: ClockState,
    nodes: Nodes,
    missing: set<NodeId>,
    scheduled: set<NodeId>,
    overlay: map<string, Option<RecordEntry>>,
    overlayKeys: map<NodeId, string>,
    pending: seq<Operation>,
    unflushed: seq<Operation>,
    edges: set<Edge>,
    maxPending: nat,
    journal: Option<Journal>)

  // ---------------------------------------------------------------- journaling

  function SaveNode(s: Db, n: NodeId): Db {
    if s.journal.None? || n in s.journal.value.nodes then s
    else s.(journal := Some(s.journal.value.(nodes := s.journal.value.nodes[n := Lookup(s.nodes, n)])))
  }

  function SaveMissing(s: Db, n: NodeId): Db {
    if s.journal.None? || n in s.journal.value.missing then s
    else s.(journal := Some(s.journal.value.(missing := s.journal.value.missing[n := n in s.missing])))
  }

  function SaveScheduled(s: Db, n: NodeId): Db {
    if s.journal.None? || n in s.journal.value.scheduled then s
    else s.(journal := Some(s.journal.value.(scheduled := s.journal.value.scheduled[n := n in s.scheduled])))
  }

  /** Remembers the operation that `op` is about to replace, unless one is remembered already. */
  ghost function Remembered(undo: QueueUndo, ops: seq<Operation>, op: Operation): QueueUndo {
    if HasKey(ops, KeyOf(op)) then
      var i :| 0 <= i < |ops| && KeyOf(ops[i]) == KeyOf(op);
      if i in undo.replaced then undo else undo.(replaced := undo.replaced[i := ops[i]])
    else undo
  }

  ghost function Unflush(s: Db, op: Operation): Db {
    var saved := if s.journal.None? then s
                 else
                   var j := s.journal.value;
                   s.(journal := Some(j.(unflushed := Remembered(j.unflushed, s.unflushed, op))));
    saved.(unflushed := Pushed(s.unflushed, op))
  }

  ghost function Enqueue(s: Db, op: Operation): Db {
    var saved := if s.journal.None? then s
                 else
                   var j := s.journal.value;
                   s.(journal := Some(j.(pending := Remembered(j.pending, s.pending, op))));
    saved.(pending := Pushed(s.pending, op))
  }

  function RequestReindex(s: Db, n: NodeId): Db {
    match s.journal
    case None => s.(edges := Reindexed(s.edges, s.nodes, n))
    case Some(j) => s.(journal := Some(j.(sources := j.sources + {n}, stale := j.stale + {n})))
  }

  function SavedAll(saved: map<NodeId, Option<NodeState>>, nodes: Nodes,
                    added: set<NodeId>): map<NodeId, Option<NodeState>> {
    map n | n in saved.Keys + added :: if n in saved then saved[n] else Lookup(nodes, n)
  }

  function Flush(s: Db): Db {
    match s.journal
    case None => s
    case Some(j) =>
      s.(edges := ReindexedAll(s.edges, s.nodes, j.stale),
         journal := Some(j.(nodes := SavedAll(j.nodes, s.nodes, j.stale), stale := {})))
  }

  // ---------------------------------------------------------------- the record overlay

  predicate IsRecordNode(n: NodeId) {
    "__primadb_records/" <= n
  }

  function RecordKey(state: NodeState): Option<string> {
    if "key" in state.fields && state.fields["key"].value.Scalar? && state.fields["key"].value.json.Str?
    then Some(state.fields["key"].value.json.s) else None
  }

  function RecordOf(state: NodeState): Option<RecordEntry> {
    match RecordKey(state)
    case None => None
    case Some(key) =>
      if "value" !in state.fields then None
      else
        (match state.fields["value"].value
         case Scalar(json) => Some(RecordEntry(key, JsonRecord(json)))
         case Bytes(base64) => Some(RecordEntry(key, BytesRecord(base64)))
         case Blob(reference) => Some(RecordEntry(key, BlobRecord(reference)))
         case _ => None)
  }

  function RefreshOverlay(s: Db, n: NodeId): Db {
    if !IsRecordNode(n) then s
    else
      var cleared := if n in s.overlayKeys
                     then s.(overlay := s.overlay - {s.overlayKeys[n]}, overlayKeys := s.overlayKeys - {n})
                     else s;
      if n !in s.nodes then cleared
      else
        match RecordKey(s.nodes[n])
        case None => cleared
        case Some(key) => cleared.(overlayKeys := cleared.overlayKeys[n := key],
                                   overlay := cleared.overlay[key := RecordOf(s.nodes[n])])
  }

  // ---------------------------------------------------------------- steps

  datatype Step =
    | Write(now: nat, opId: string, action: Action)
    | Receive(op: Operation, allowed: bool)
    | Ensure(node: NodeId)
    | Load(node: NodeId, answer: Option<NodeState>)
    | Traverse
    | Schedule(node: NodeId)
    | Unschedule(node: NodeId)

  ghost function Enact(s: Db, op: Operation, local: bool): Db {
    var n := op.action.node;
    var saved := SaveNode(s.(clock := Observed(s.clock, op.revision)), n);
    var applied := saved.(nodes := Apply(s.nodes, op));
    if !Accepted(s.nodes, op) then applied
    else
      var queued := Unflush(RequestReindex(RefreshOverlay(applied, n), n), op);
      if local then Enqueue(queued, op) else queued
  }

  const MAX_SEQUENCE: nat := 0xFFFF_FFFF_FFFF_FFFF

  /** The clock after issuing a revision and an operation id. */
  function Issued(c: ClockState, now: nat): ClockState {
    var t := Ticked(c, now);
    t.(sequence := if t.sequence < MAX_SEQUENCE then t.sequence + 1 else t.sequence)
  }

  function LocalOperation(s: Db, now: nat, opId: string, action: Action): Operation {
    Operation(opId, s.clock.actor, Current(Issued(s.clock, now)), action)
  }

  function IsEmpty(state: NodeState): bool {
    state.fields == map[] && state.tombstones == map[]
  }

  function Loaded(s: Db, n: NodeId, answer: Option<NodeState>): Db {
    if (n in s.nodes && !IsEmpty(s.nodes[n])) || n in s.missing then s
    else
      match answer
      case Some(state) =>
        var saved := SaveMissing(SaveNode(s, n), n);
        var merged := saved.(nodes := s.nodes[state.id := MergedNode(NodeOrNew(s.nodes, state.id), state)],
          missing := s.missing - {n});
        RequestReindex(merged, n)
      case None =>
        if n in s.nodes then s else SaveMissing(s, n).(missing := s.missing + {n})
  }

  ghost function Next(s: Db, step: Step): Db {
    match step
    case Write(now, opId, action) =>
      var op := LocalOperation(s, now, opId, action);
      var issued := s.(clock := Issued(s.clock, now));
      if |s.pending| >= s.maxPending then issued else Enact(issued, op, true)
    case Receive(op, allowed) =>
      if allowed then Enact(s, op, false) else s
    case Ensure(n) =>
      SaveMissing(SaveNode(s, n), n).(missing := s.missing - {n}, nodes := s.nodes[n := NodeOrNew(s.nodes, n)])
    case Load(n, answer) => Loaded(s, n, answer)
    case Traverse => Flush(s)
    case Schedule(n) => SaveScheduled(s, n).(scheduled := s.scheduled + {n})
    case Unschedule(n) => SaveScheduled(s, n).(scheduled := s.scheduled - {n})
  }

  ghost function Run(s: Db, steps: seq<Step>): Db
    decreases |steps|
  {
    if steps == [] then s else Next(Run(s, steps[..|steps| - 1]), steps[|steps| - 1])
  }

  // ---------------------------------------------------------------- begin, commit, rollback

  function Begun(s: Db): Db {
    s.(journal := Some(Journal(s.clock, map[], s.overlay, s.overlayKeys, QueueUndo(|s.pending|, map[]),
                               QueueUndo(|s.unflushed|, map[]), map[], map[], {}, {})))
  }

  function Committed(s: Db): Db {
    Flush(s).(journal := None)
  }

  function RestoredMap(m: Nodes, saved: map<NodeId, Option<NodeState>>): Nodes {
    map n | n in m.Keys + saved.Keys && (n in saved ==> saved[n].Some?) :: if n in saved then saved[n].value else m[n]
  }

  function RestoredSet(s: set<NodeId>, saved: map<NodeId, bool>): set<NodeId> {
    (set n | n in s && n !in saved) + (set n | n in saved && saved[n])
  }

  function RestoredQueue(ops: seq<Operation>, undo: QueueUndo): seq<Operation> {
    seq(if |ops| < undo.initialLen then |ops| else undo.initialLen,
        i requires 0 <= i < |ops| => if i in undo.replaced then undo.replaced[i] else ops[i])
  }

  function Restored(s: Db): Db
    requires s.journal.Some?
  {
    var j := s.journal.value;
    var nodes := RestoredMap(s.nodes, j.nodes);
    Db(j.clock, nodes, RestoredSet(s.missing, j.missing), RestoredSet(s.scheduled, j.scheduled),
       j.overlay, j.overlayKeys, RestoredQueue(s.pending, j.pending), RestoredQueue(s.unflushed, j.unflushed),
       ReindexedAll(s.edges, nodes, j.sources), s.maxPending, None)
  }

  /** A store answers a request for a node with that node. */
  predicate Honest(step: Step) {
    step.Load? && step.answer.Some? ==> step.answer.value.id == step.node
  }

  ghost predicate AllHonest(steps: seq<Step>) {
    forall i :: 0 <= i < |steps| ==> Honest(steps[i])
  }

  /** Outside a transaction: queues hold each key once and the index is that of the graph. */
  ghost predicate Settled(s: Db) {
    s.journal.None? && DistinctKeys(s.pending) && DistinctKeys(s.unflushed) && Indexes(s.edges, s.nodes)
  }

  // ---------------------------------------------------------------- the journal remembers the start

  ghost predicate SavedNodes(saved: map<NodeId, Option<NodeState>>, start: Nodes, now: Nodes) {
    forall n :: if n in saved then saved[n] == Lookup(start, n) else Lookup(now, n) == Lookup(start, n)
  }

  ghost predicate SavedSet(saved: map<NodeId, bool>, start: set<NodeId>, now: set<NodeId>) {
    forall n :: if n in saved then saved[n] == (n in start) else n in now <==> n in start
  }

  ghost predicate SavedQueue(undo: QueueUndo, start: seq<Operation>, now: seq<Operation>) {
    && undo.initialLen == |start| <= |now|
    && DistinctKeys(now)
    && forall i :: 0 <= i < |start| ==>
                     && KeyOf(now[i]) == KeyOf(start[i])
                     && if i in undo.replaced then undo.replaced[i] == start[i] else now[i] == start[i]
  }

  ghost predicate SavedEdges(j: Journal, start: set<Edge>, now: set<Edge>) {
    j.stale <= j.sources && forall n :: n !in j.sources ==> From(now, n) == From(start, n)
  }

  ghost predicate Remembers(start: Db, s: Db) {
    && s.journal.Some? && s.maxPending == start.maxPending
    && var j := s.journal.value;
       && j.clock == start.clock && j.overlay == start.overlay && j.overlayKeys == start.overlayKeys
       && SavedNodes(j.nodes, start.nodes, s.nodes)
       && SavedSet(j.missing, start.missing, s.missing)
       && SavedSet(j.scheduled, start.scheduled, s.scheduled)
       && SavedQueue(j.pending, start.pending, s.pending)
       && SavedQueue(j.unflushed, start.unflushed, s.unflushed)
       && SavedEdges(j, start.edges, s.edges)
  }

  lemma RestoredIsStart(start: Db, s: Db)
    requires Settled(start) && Remembers(start, s)
    ensures Restored(s) == start
  {
    var j := s.journal.value;
    var r := Restored(s);
    assert r.nodes == start.nodes by {
      forall n ensures Lookup(r.nodes, n) == Lookup(start.nodes, n) {
        assert Lookup(s.nodes, n) == Lookup(start.nodes, n) || n in j.nodes;
      }
      SameLookups(r.nodes, start.nodes);
    }
    assert r.missing == start.missing && r.scheduled == start.scheduled;
    assert r.pending == start.pending && r.unflushed == start.unflushed;
    assert r.edges == start.edges by {
      forall n ensures From(r.edges, n) == From(start.edges, n) {
        ReindexedAllFrom(s.edges, r.nodes, j.sources, n);
      }
      SameFrom(r.edges, start.edges);
    }
  }

  lemma QueueStep(undo: QueueUndo, start: seq<Operation>, now: seq<Operation>, op: Operation)
    requires SavedQueue(undo, start, now)
    ensures SavedQueue(Remembered(undo, now, op), start, Pushed(now, op))
  {
    PushedKeys(now, op);
    if HasKey(now, KeyOf(op)) {
      var i :| 0 <= i < |now| && KeyOf(now[i]) == KeyOf(op);
      assert forall k :: 0 <= k < |now| && KeyOf(now[k]) == KeyOf(op) ==> k == i;
    }
  }

  lemma SaveNodeRemembers(start: Db, s: Db, n: NodeId)
    requires Remembers(start, s)
    ensures Remembers(start, SaveNode(s, n)) && n in SaveNode(s, n).journal.value.nodes
  {
    assert Lookup(s.nodes, n) == Lookup(start.nodes, n) || n in s.journal.value.nodes;
  }

  lemma ClockChangeRemembers(start: Db, s: Db, c: ClockState)
    requires Remembers(start, s)
    ensures Remembers(start, s.(clock := c))
  {
  }

  lemma SaveMissingRemembers(start: Db, s: Db, n: NodeId)
    requires Remembers(start, s)
    ensures Remembers(start, SaveMissing(s, n)) && n in SaveMissing(s, n).journal.value.missing
  {
  }

  /** A saved node may change. */
  lemma NodeChangeRemembers(start: Db, s: Db, n: NodeId, state: NodeState)
    requires Remembers(start, s) && n in s.journal.value.nodes
    ensures Remembers(start, s.(nodes := s.nodes[n := state]))
  {
    var after := s.nodes[n := state];
    forall m ensures if m in s.journal.value.nodes then s.journal.value.nodes[m] == Lookup(start.nodes, m)
                     else Lookup(after, m) == Lookup(start.nodes, m) {
      assert m != n ==> Lookup(after, m) == Lookup(s.nodes, m);
    }
  }

  lemma MissingChangeRemembers(start: Db, s: Db, n: NodeId)
    requires Remembers(start, s) && n in s.journal.value.missing
    ensures Remembers(start, s.(missing := s.missing + {n}))
    ensures Remembers(start, s.(missing := s.missing - {n}))
  {
  }

  lemma ReindexRemembers(start: Db, s: Db, n: NodeId)
    requires Remembers(start, s)
    ensures Remembers(start, RequestReindex(s, n))
    ensures Remembers(start, RefreshOverlay(s, n))
  {
  }

  lemma QueuesRemember(start: Db, s: Db, op: Operation)
    requires Remembers(start, s)
    ensures Remembers(start, Unflush(s, op))
    ensures Remembers(start, Enqueue(s, op))
  {
    QueueStep(s.journal.value.unflushed, start.unflushed, s.unflushed, op);
    QueueStep(s.journal.value.pending, start.pending, s.pending, op);
  }

  lemma EnactRemembers(start: Db, s: Db, op: Operation, local: bool)
    requires Remembers(start, s)
    ensures Remembers(start, Enact(s, op, local))
  {
    var n := op.action.node;
    var observed := s.(clock := Observed(s.clock, op.revision));
    ClockChangeRemembers(start, s, observed.clock);
    SaveNodeRemembers(start, observed, n);
    NodeChangeRemembers(start, SaveNode(observed, n), n, Apply(s.nodes, op)[n]);
    var applied := SaveNode(observed, n).(nodes := Apply(s.nodes, op));
    if Accepted(s.nodes, op) {
      ReindexRemembers(start, applied, n);
      ReindexRemembers(start, RefreshOverlay(applied, n), n);
      QueuesRemember(start, RequestReindex(RefreshOverlay(applied, n), n), op);
      QueuesRemember(start, Unflush(RequestReindex(RefreshOverlay(applied, n), n), op), op);
    }
  }

  lemma FoundRemembers(start: Db, s: Db, n: NodeId, merged: NodeState)
    requires Remembers(start, s)
    ensures var saved := SaveMissing(SaveNode(s, n), n);
            Remembers(start, RequestReindex(saved.(nodes := s.nodes[n := merged], missing := s.missing - {n}), n))
  {
    SaveNodeRemembers(start, s, n);
    SaveMissingRemembers(start, SaveNode(s, n), n);
    var saved := SaveMissing(SaveNode(s, n), n);
    NodeChangeRemembers(start, saved, n, merged);
    MissingChangeRemembers(start, saved.(nodes := s.nodes[n := merged]), n);
    ReindexRemembers(start, saved.(nodes := s.nodes[n := merged], missing := s.missing - {n}), n);
  }

  lemma LoadRemembers(start: Db, s: Db, n: NodeId, answer: Option<NodeState>)
    requires Remembers(start, s) && Honest(Load(n, answer))
    ensures Remembers(start, Loaded(s, n, answer))
  {
    if answer.Some? {
      FoundRemembers(start, s, n, MergedNode(NodeOrNew(s.nodes, n), answer.value));
    } else {
      SaveMissingRemembers(start, s, n);
      MissingChangeRemembers(start, SaveMissing(s, n), n);
    }
  }

  lemma EnsureRemembers(start: Db, s: Db, n: NodeId)
    requires Remembers(start, s)
    ensures Remembers(start, Next(s, Ensure(n)))
  {
    SaveNodeRemembers(start, s, n);
    SaveMissingRemembers(start, SaveNode(s, n), n);
    var saved := SaveMissing(SaveNode(s, n), n);
    MissingChangeRemembers(start, saved, n);
    NodeChangeRemembers(start, saved.(missing := s.missing - {n}), n, NodeOrNew(s.nodes, n));
  }

  lemma ScheduleRemembers(start: Db, s: Db, n: NodeId)
    requires Remembers(start, s)
    ensures Remembers(start, Next(s, Schedule(n)))
    ensures Remembers(start, Next(s, Unschedule(n)))
  {
    var saved := SaveScheduled(s, n);
    assert saved.journal.value.scheduled == if n in s.journal.value.scheduled then s.journal.value.scheduled
                                            else s.journal.value.scheduled[n := n in s.scheduled];
    assert SavedSet(saved.journal.value.scheduled, start.scheduled, s.scheduled + {n});
    assert SavedSet(saved.journal.value.scheduled, start.scheduled, s.scheduled - {n});
  }

  lemma FlushRemembers(start: Db, s: Db)
    requires Remembers(start, s)
    ensures Remembers(start, Flush(s))
  {
    var j := s.journal.value;
    forall n | n !in j.sources ensures From(Flush(s).edges, n) == From(start.edges, n) {
      ReindexedAllFrom(s.edges, s.nodes, j.stale, n);
    }
    forall n ensures if n in SavedAll(j.nodes, s.nodes, j.stale)
                     then SavedAll(j.nodes, s.nodes, j.stale)[n] == Lookup(start.nodes, n)
                     else Lookup(s.nodes, n) == Lookup(start.nodes, n) {
      assert n in j.nodes || Lookup(s.nodes, n) == Lookup(start.nodes, n);
    }
  }

  lemma StepRemembers(start: Db, s: Db, step: Step)
    requires Remembers(start, s) && Honest(step)
    ensures Remembers(start, Next(s, step))
  {
    match step
    case Write(now, opId, action) =>
      var issued := s.(clock := Issued(s.clock, now));
      ClockChangeRemembers(start, s, issued.clock);
      if |s.pending| < s.maxPending {
        EnactRemembers(start, issued, LocalOperation(s, now, opId, action), true);
      }
    case Receive(op, allowed) =>
      if allowed {
        EnactRemembers(start, s, op, false);
      }
    case Ensure(n) =>
      EnsureRemembers(start, s, n);
    case Load(n, answer) =>
      LoadRemembers(start, s, n, answer);
    case Traverse =>
      FlushRemembers(start, s);
    case Schedule(n) =>
      ScheduleRemembers(start, s, n);
    case Unschedule(n) =>
      ScheduleRemembers(start, s, n);
  }

  lemma {:induction false} RunRemembers(start: Db, steps: seq<Step>)
    requires Settled(start) && AllHonest(steps)
    ensures Remembers(start, Run(Begun(start), steps))
    decreases |steps|
  {
    if steps != [] {
      RunRemembers(start, steps[..|steps| - 1]);
      StepRemembers(start, Run(Begun(start), steps[..|steps| - 1]), steps[|steps| - 1]);
    }
  }

  /** Exact rollback: whatever a transaction did, restoring its journal gives the starting state. */
  lemma RollbackIsExact(start: Db, steps: seq<Step>)
    requires Settled(start) && AllHonest(steps)
    ensures Run(Begun(start), steps).journal.Some?
    ensures Restored(Run(Begun(start), steps)) == start
  {
    RunRemembers(start, steps);
    RestoredIsStart(start, Run(Begun(start), steps));
  }

  // ---------------------------------------------------------------- what journaling does not touch

  /** Everything but the journal and the index. */
  function Visible(s: Db): Db {
    s.(journal := None, edges := {})
  }

  lemma RefreshIsVisible(s: Db, n: NodeId)
    ensures Visible(RefreshOverlay(s, n)) == RefreshOverlay(Visible(s), n)
  {
  }

  lemma SavesAreInvisible(s: Db, n: NodeId)
    ensures Visible(SaveNode(s, n)) == Visible(SaveMissing(s, n)) == Visible(SaveScheduled(s, n)) == Visible(s)
    ensures Visible(RequestReindex(s, n)) == Visible(Flush(s)) == Visible(s)
  {
  }

  lemma QueuesAreVisible(s: Db, op: Operation)
    ensures Visible(Unflush(s, op)) == Visible(s).(unflushed := Pushed(s.unflushed, op))
    ensures Visible(Enqueue(s, op)) == Visible(s).(pending := Pushed(s.pending, op))
  {
  }

  /** The visible effect of an operation. */
  ghost function Effect(v: Db, op: Operation, local: bool): Db {
    var applied := v.(clock := Observed(v.clock, op.revision), nodes := Apply(v.nodes, op));
    if !Accepted(v.nodes, op) then applied
    else RefreshOverlay(applied, op.action.node).(unflushed := Pushed(v.unflushed, op),
                                                  pending := if local then Pushed(v.pending, op) else v.pending)
  }

  lemma EnactVisible(s: Db, op: Operation, local: bool)
    ensures Visible(Enact(s, op, local)) == Effect(Visible(s), op, local)
  {
    var n := op.action.node;
    var observed := s.(clock := Observed(s.clock, op.revision));
    SavesAreInvisible(observed, n);
    var applied := SaveNode(observed, n).(nodes := Apply(s.nodes, op));
    assert Visible(applied) == Visible(s).(clock := observed.clock, nodes := Apply(s.nodes, op));
    if Accepted(s.nodes, op) {
      RefreshIsVisible(applied, n);
      var refreshed := RefreshOverlay(applied, n);
      SavesAreInvisible(refreshed, n);
      var requested := RequestReindex(refreshed, n);
      QueuesAreVisible(requested, op);
      QueuesAreVisible(Unflush(requested, op), op);
      assert requested.unflushed == s.unflushed && requested.pending == s.pending;
    }
  }

  lemma LoadVisible(s: Db, n: NodeId, answer: Option<NodeState>)
    ensures Visible(Loaded(s, n, answer)) == Visible(Loaded(Visible(s), n, answer))
  {
    var v := Visible(s);
    if answer.Some? {
      SavesAreInvisible(s, n);
      SavesAreInvisible(SaveNode(s, n), n);
      var nodes := s.nodes[answer.value.id := MergedNode(NodeOrNew(s.nodes, answer.value.id), answer.value)];
      var merged := SaveMissing(SaveNode(s, n), n).(nodes := nodes, missing := s.missing - {n});
      SavesAreInvisible(merged, n);
      SavesAreInvisible(v.(nodes := nodes, missing := s.missing - {n}), n);
    } else {
      SavesAreInvisible(s, n);
    }
  }

  lemma EnsureVisible(s: Db, n: NodeId)
    ensures Visible(Next(s, Ensure(n))) == Visible(Next(Visible(s), Ensure(n)))
    ensures Visible(Next(s, Schedule(n))) == Visible(Next(Visible(s), Schedule(n)))
    ensures Visible(Next(s, Unschedule(n))) == Visible(Next(Visible(s), Unschedule(n)))
  {
    SavesAreInvisible(s, n);
    SavesAreInvisible(SaveNode(s, n), n);
  }

  lemma WriteVisible(s: Db, now: nat, opId: string, action: Action)
    ensures Visible(Next(s, Write(now, opId, action))) == Visible(Next(Visible(s), Write(now, opId, action)))
  {
    var op := LocalOperation(s, now, opId, action);
    EnactVisible(s.(clock := Issued(s.clock, now)), op, true);
    EnactVisible(Visible(s).(clock := Issued(s.clock, now)), op, true);
  }

  lemma ReceiveVisible(s: Db, op: Operation, allowed: bool)
    ensures Visible(Next(s, Receive(op, allowed))) == Visible(Next(Visible(s), Receive(op, allowed)))
  {
    EnactVisible(s, op, false);
    EnactVisible(Visible(s), op, false);
  }

  /** What a step does to the visible state does not depend on the journal or the index. */
  lemma StepVisible(s: Db, step: Step)
    ensures Visible(Next(s, step)) == Visible(Next(Visible(s), step))
  {
    match step {
      case Write(now, opId, action) => WriteVisible(s, now, opId, action);
      case Receive(op, allowed) => ReceiveVisible(s, op, allowed);
      case Load(n, answer) => LoadVisible(s, n, answer);
      case Traverse => SavesAreInvisible(s, "");
      case Ensure(n) => EnsureVisible(s, n);
      case Schedule(n) => EnsureVisible(s, n);
      case Unschedule(n) => EnsureVisible(s, n);
    }
  }

  // ---------------------------------------------------------------- the index agrees with the graph

  /** The index is right about every node not waiting to be reindexed. */
  ghost predicate IndexAgrees(s: Db) {
    forall n :: (s.journal.Some? && n in s.journal.value.stale) || From(s.edges, n) == NodeEdges(s.nodes, n)
  }

  lemma RequestAgrees(s: Db, changed: Nodes, n: NodeId)
    requires IndexAgrees(s)
    requires forall m :: m != n ==> Lookup(changed, m) == Lookup(s.nodes, m)
    ensures IndexAgrees(RequestReindex(s.(nodes := changed), n))
  {
    var after := RequestReindex(s.(nodes := changed), n);
    forall m | !(after.journal.Some? && m in after.journal.value.stale)
      ensures From(after.edges, m) == NodeEdges(after.nodes, m)
    {
      if s.journal.None? {
        ReindexedFrom(s.edges, changed, n, m);
      }
      if m != n {
        assert Lookup(changed, m) == Lookup(s.nodes, m);
        assert NodeEdges(changed, m) == NodeEdges(s.nodes, m);
      }
    }
  }

  /** A refused operation leaves an existing node alone and creates an empty one otherwise. */
  lemma RefusedEdges(nodes: Nodes, op: Operation, m: NodeId)
    requires !Accepted(nodes, op)
    ensures NodeEdges(Apply(nodes, op), m) == NodeEdges(nodes, m)
  {
    var n, f := op.action.node, op.action.field;
    if m == n {
      var state := NodeOrNew(nodes, n);
      var after := Apply(nodes, op)[n];
      assert StepSlot(SlotAt(nodes, n, f), op).0 == SlotOf(state, f);
      assert after.fields == state.fields;
    }
  }

  lemma EnactAgrees(s: Db, op: Operation, local: bool)
    requires IndexAgrees(s)
    ensures IndexAgrees(Enact(s, op, local))
  {
    var n := op.action.node;
    var saved := SaveNode(s.(clock := Observed(s.clock, op.revision)), n);
    SameIndex(s, saved);
    if Accepted(s.nodes, op) {
      AcceptedAgrees(saved, op, local);
    } else {
      forall m ensures NodeEdges(Apply(s.nodes, op), m) == NodeEdges(s.nodes, m) {
        RefusedEdges(s.nodes, op, m);
      }
    }
  }

  lemma AcceptedAgrees(s: Db, op: Operation, local: bool)
    requires IndexAgrees(s)
    ensures var refreshed := RefreshOverlay(s.(nodes := Apply(s.nodes, op)), op.action.node);
            var queued := Unflush(RequestReindex(refreshed, op.action.node), op);
            IndexAgrees(queued) && IndexAgrees(Enqueue(queued, op))
  {
    var n := op.action.node;
    var nodes := Apply(s.nodes, op);
    var refreshed := RefreshOverlay(s.(nodes := nodes), n);
    var before := refreshed.(nodes := s.nodes);
    SameIndex(s, before);
    RequestAgrees(before, nodes, n);
    assert before.(nodes := nodes) == refreshed;
    var requested := RequestReindex(refreshed, n);
    SameIndex(requested, Unflush(requested, op));
    SameIndex(Unflush(requested, op), Enqueue(Unflush(requested, op), op));
  }

  lemma SameIndex(a: Db, b: Db)
    requires IndexAgrees(a) && a.nodes == b.nodes && a.edges == b.edges
    requires a.journal.Some? == b.journal.Some?
    requires a.journal.Some? ==> a.journal.value.stale == b.journal.value.stale
    ensures IndexAgrees(b)
  {
  }

  lemma FlushAgrees(s: Db)
    requires IndexAgrees(s)
    ensures Indexes(Flush(s).edges, Flush(s).nodes)
    ensures IndexAgrees(Flush(s))
  {
    if s.journal.Some? {
      forall n ensures From(Flush(s).edges, n) == NodeEdges(s.nodes, n) {
        ReindexedAllFrom(s.edges, s.nodes, s.journal.value.stale, n);
      }
    } else {
      forall n ensures From(s.edges, n) == NodeEdges(s.nodes, n) {
      }
    }
  }

  lemma LoadAgrees(s: Db, n: NodeId, answer: Option<NodeState>)
    requires IndexAgrees(s) && Honest(Load(n, answer))
    ensures IndexAgrees(Loaded(s, n, answer))
  {
    if answer.Some? {
      var saved := SaveMissing(SaveNode(s, n), n).(missing := s.missing - {n});
      SameIndex(s, saved);
      RequestAgrees(saved, s.nodes[n := MergedNode(NodeOrNew(s.nodes, n), answer.value)], n);
    } else {
      SameIndex(s, SaveMissing(s, n).(missing := s.missing + {n}));
    }
  }

  lemma EnsureAgrees(s: Db, n: NodeId)
    requires IndexAgrees(s)
    ensures IndexAgrees(Next(s, Ensure(n)))
  {
    var after := Next(s, Ensure(n));
    forall m ensures NodeEdges(after.nodes, m) == NodeEdges(s.nodes, m) {
    }
  }

  lemma StepAgrees(s: Db, step: Step)
    requires IndexAgrees(s) && Honest(step)
    ensures IndexAgrees(Next(s, step))
  {
    match step
    case Write(now, opId, action) =>
      var issued := s.(clock := Issued(s.clock, now));
      SameIndex(s, issued);
      if |s.pending| < s.maxPending {
        EnactAgrees(issued, LocalOperation(s, now, opId, action), true);
      }
    case Receive(op, allowed) =>
      if allowed {
        EnactAgrees(s, op, false);
      }
    case Ensure(n) =>
      EnsureAgrees(s, n);
    case Load(n, answer) =>
      LoadAgrees(s, n, answer);
    case Traverse =>
      FlushAgrees(s);
    case Schedule(n) =>
      SameIndex(s, Next(s, step));
    case Unschedule(n) =>
      SameIndex(s, Next(s, step));
  }

  lemma {:induction false} RunAgrees(s: Db, steps: seq<Step>)
    requires IndexAgrees(s) && AllHonest(steps)
    ensures IndexAgrees(Run(s, steps))
    decreases |steps|
  {
    if steps != [] {
      RunAgrees(s, steps[..|steps| - 1]);
      StepAgrees(Run(s, steps[..|steps| - 1]), steps[|steps| - 1]);
    }
  }

  /**
    The relationship index is that of the graph after every run outside a transaction, at every
    traversal inside one, and after commit.
   */
  lemma IndexIsTheGraph(start: Db, steps: seq<Step>)
    requires Settled(start) && AllHonest(steps)
    ensures var s := Run(start, steps); Indexes(s.edges, s.nodes)
    ensures var s := Next(Run(Begun(start), steps), Traverse); Indexes(s.edges, s.nodes)
    ensures var s := Committed(Run(Begun(start), steps)); Indexes(s.edges, s.nodes)
  {
    RunAgrees(start, steps);
    NoJournal(start, steps);
    FlushAgrees(Run(start, steps));
    assert IndexAgrees(Begun(start));
    RunAgrees(Begun(start), steps);
    FlushAgrees(Run(Begun(start), steps));
  }

  lemma {:induction false} NoJournal(s: Db, steps: seq<Step>)
    requires s.journal.None?
    ensures Run(s, steps).journal.None?
    decreases |steps|
  {
    if steps != [] {
      NoJournal(s, steps[..|steps| - 1]);
      StepNoJournal(Run(s, steps[..|steps| - 1]), steps[|steps| - 1]);
    }
  }

  lemma StepNoJournal(s: Db, step: Step)
    requires s.journal.None?
    ensures Next(s, step).journal.None?
  {
    match step
    case Write(now, opId, action) =>
      EnactNoJournal(s.(clock := Issued(s.clock, now)), LocalOperation(s, now, opId, action), true);
    case Receive(op, allowed) =>
      EnactNoJournal(s, op, false);
    case _ =>
  }

  lemma EnactNoJournal(s: Db, op: Operation, local: bool)
    requires s.journal.None?
    ensures Enact(s, op, local).journal.None?
  {
    var n := op.action.node;
    var applied := s.(clock := Observed(s.clock, op.revision), nodes := Apply(s.nodes, op));
    var requested := RequestReindex(RefreshOverlay(applied, n), n);
    assert requested.journal.None?;
    assert Unflush(requested, op).journal.None?;
  }

  // ---------------------------------------------------------------- committing is doing each step

  lemma {:induction false} RunVisible(t: Db, d: Db, steps: seq<Step>)
    requires Visible(t) == Visible(d)
    ensures Visible(Run(t, steps)) == Visible(Run(d, steps))
    decreases |steps|
  {
    if steps != [] {
      RunVisible(t, d, steps[..|steps| - 1]);
      StepVisible(Run(t, steps[..|steps| - 1]), steps[|steps| - 1]);
      StepVisible(Run(d, steps[..|steps| - 1]), steps[|steps| - 1]);
    }
  }

  /**
    Deferred, deduplicated reindexing changes nothing: committing a transaction leaves the state
    that taking the same steps one by one, each reindexed at once, leaves.
   */
  lemma CommitEqualsDirect(start: Db, steps: seq<Step>)
    requires Settled(start) && AllHonest(steps)
    ensures Committed(Run(Begun(start), steps)) == Run(start, steps)
  {
    var t, d := Run(Begun(start), steps), Run(start, steps);
    RunVisible(Begun(start), start, steps);
    NoJournal(start, steps);
    IndexIsTheGraph(start, steps);
    var c := Committed(t);
    assert Visible(c) == Visible(d);
    forall n ensures From(c.edges, n) == From(d.edges, n) {
      assert From(c.edges, n) == NodeEdges(c.nodes, n);
      assert From(d.edges, n) == NodeEdges(d.nodes, n);
    }
    SameFrom(c.edges, d.edges);
  }

  /** Runs outside a transaction keep the state settled, so transactions may follow one another. */
  lemma {:induction false} RunSettled(s: Db, steps: seq<Step>)
    requires Settled(s) && AllHonest(steps)
    ensures Settled(Run(s, steps))
    decreases |steps|
  {
    if steps == [] {
    } else {
      var front, last := steps[..|steps| - 1], steps[|steps| - 1];
      RunSettled(s, front);
      IndexIsTheGraph(s, steps);
      NoJournal(s, steps);
      StepKeys(Run(s, front), last);
    }
  }

  lemma StepKeys(s: Db, step: Step)
    requires DistinctKeys(s.pending) && DistinctKeys(s.unflushed)
    ensures DistinctKeys(Next(s, step).pending) && DistinctKeys(Next(s, step).unflushed)
  {
    match step {
      case Write(now, opId, action) =>
        EffectKeys(s.(clock := Issued(s.clock, now)), LocalOperation(s, now, opId, action), true);
      case Receive(op, allowed) => EffectKeys(s, op, false);
      case Load(n, answer) => LoadQueues(s, n, answer);
      case _ =>
    }
  }

  lemma LoadQueues(s: Db, n: NodeId, answer: Option<NodeState>)
    ensures Loaded(s, n, answer).pending == s.pending && Loaded(s, n, answer).unflushed == s.unflushed
  {
  }

  lemma EffectKeys(s: Db, op: Operation, local: bool)
    requires DistinctKeys(s.pending) && DistinctKeys(s.unflushed)
    ensures DistinctKeys(Enact(s, op, local).pending) && DistinctKeys(Enact(s, op, local).unflushed)
  {
    EnactVisible(s, op, local);
    PushedKeys(s.pending, op);
    PushedKeys(s.unflushed, op);
    var after := Enact(s, op, local);
    assert Visible(after).pending == after.pending && Visible(after).unflushed == after.unflushed;
  }
}
