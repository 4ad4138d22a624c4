/**
  Local writes are visible: the clock stays ahead of every marker in the graph, so no local
  operation is refused while the counter is not saturated and the pending queue has room.
 */
module LocalWrites {
  import opened Json
  import opened Clock
  import opened Graph
  import opened Merge
  import opened Transactions
  import Compaction

  /** The revision stands somewhere in the slot. */
  predicate Mentions(slot: Slot, r: Revision) {
    r in SlotRevisions(slot)
  }

  /** No marker in the graph is ahead of the clock. */
  ghost predicate Covers(clock: ClockState, nodes: Nodes) {
    forall n, f, r :: Mentions(SlotAt(nodes, n, f), r) ==> Dominates(clock, r)
  }

  /** The slot shows the operation as its latest change. */
  predicate Shows(slot: Slot, op: Operation) {
    match op.action
    case SetField(_, _, value) =>
      && slot.field.Some? && slot.tomb.None? && slot.field.value.version == MarkerOf(op)
      && Stores(value, MarkerOf(op), slot.field.value.value)
    case DeleteField(_, _) =>
      slot == Slot(None, Some(MarkerOf(op)))
    case AddMember(_, _, member) =>
      && slot.field.Some? && slot.field.value.value.Set? && slot.field.value.version == MarkerOf(op)
      && Lookup(slot.field.value.value.state.members, member) == Some(MarkerOf(op))
      && member !in slot.field.value.value.state.removed
    case RemoveMember(_, _, member) =>
      && slot.field.Some? && slot.field.value.value.Set? && slot.field.value.version == MarkerOf(op)
      && member !in slot.field.value.value.state.members
      && Lookup(slot.field.value.value.state.removed, member) == Some(MarkerOf(op))
  }

  /** Every marker in a slot is among its revisions. */
  lemma RevisionsListed(slot: Slot)
    ensures slot.tomb.Some? ==> slot.tomb.value.revision in SlotRevisions(slot)
    ensures slot.field.Some? ==> slot.field.value.version.revision in SlotRevisions(slot)
    ensures slot.field.Some? && slot.field.value.value.Set? ==>
              var s := slot.field.value.value.state;
              && s.baseline.revision in SlotRevisions(slot)
              && (forall x :: x in s.members ==> s.members[x].revision in SlotRevisions(slot))
              && (forall x :: x in s.removed ==> s.removed[x].revision in SlotRevisions(slot))
  {
  }

  lemma Newer(m: Marker, op: Operation)
    requires RevisionLess(m.revision, op.revision)
    ensures !Le(MarkerOf(op), m) && Max(m, MarkerOf(op)) == MarkerOf(op)
  {
    RevisionOrder();
  }

  lemma NewestInSetShows(slot: Slot, op: Operation)
    requires IsMemberOp(op) && forall r :: r in SlotRevisions(slot) ==> RevisionLess(r, op.revision)
    requires slot.field.Some? && slot.field.value.value.Set?
    ensures StepSlot(slot, op).1 && Shows(StepSlot(slot, op).0, op)
  {
    RevisionsListed(slot);
    var s, x := slot.field.value.value.state, op.action.member;
    Newer(slot.field.value.version, op);
    Newer(s.baseline, op);
    if slot.tomb.Some? { Newer(slot.tomb.value, op); }
    if x in s.members { Newer(s.members[x], op); }
    if x in s.removed { Newer(s.removed[x], op); }
    assert !MemberBlocked(s, x, MarkerOf(op)) && !Blocks(slot.tomb, MarkerOf(op));
    assert Max(slot.field.value.version, MarkerOf(op)) == MarkerOf(op);
    assert StepSlot(slot, op).1;
    var after := if op.action.AddMember? then Graph.Joined(s, x, MarkerOf(op)) else Dropped(s, x, MarkerOf(op));
    assert StepSlot(slot, op).0.field == Some(FieldState(Set(after), MarkerOf(op)));
  }

  lemma NewestMemberShows(slot: Slot, op: Operation)
    requires IsMemberOp(op) && forall r :: r in SlotRevisions(slot) ==> RevisionLess(r, op.revision)
    ensures StepSlot(slot, op).1 && Shows(StepSlot(slot, op).0, op)
  {
    if slot.field.Some? && slot.field.value.value.Set? {
      NewestInSetShows(slot, op);
    } else {
      RevisionOrder();
      RevisionsListed(slot);
    }
  }

  /** An operation newer than everything in its slot is accepted and shows. */
  lemma NewestShows(slot: Slot, op: Operation)
    requires forall r :: r in SlotRevisions(slot) ==> RevisionLess(r, op.revision)
    ensures StepSlot(slot, op).1 && Shows(StepSlot(slot, op).0, op)
  {
    if IsMemberOp(op) {
      NewestMemberShows(slot, op);
    } else {
      if op.action.SetField? {
        StoredValueStores(op.action.value, MarkerOf(op));
      }
      RevisionOrder();
      RevisionsListed(slot);
    }
  }

  function SetRevisions(s: SetState): set<Revision> {
    {s.baseline.revision} + MarkerRevisions(s.members) + MarkerRevisions(s.removed)
  }

  lemma MemberMentions(s: SetState, member: NodeId, m: Marker, r: Revision)
    requires r in SetRevisions(Joined(s, member, m)) || r in SetRevisions(Dropped(s, member, m))
    ensures r in SetRevisions(s) || r == m.revision
  {
  }

  /** A step adds no revision to a slot but its own. */
  lemma StepMentions(slot: Slot, op: Operation, r: Revision)
    requires Mentions(StepSlot(slot, op).0, r)
    ensures Mentions(slot, r) || r == op.revision || r == ZERO_MARKER.revision
  {
    var after := StepSlot(slot, op).0;
    if IsMemberOp(op) && StepSlot(slot, op).1 {
      assert after.tomb == slot.tomb;
      if slot.field.Some? && slot.field.value.value.Set? {
        var s, t := slot.field.value.value.state, after.field.value.value.state;
        if r in SetRevisions(t) {
          MemberMentions(s, op.action.member, MarkerOf(op), r);
        }
        assert SetRevisions(s) <= SlotRevisions(slot);
      } else {
        var t := after.field.value.value.state;
        assert SlotRevisions(after) ==
               SlotRevisions(Slot(None, slot.tomb)) + {after.field.value.version.revision} + SetRevisions(t);
      }
    }
  }

  lemma ApplyCovers(clock: ClockState, nodes: Nodes, op: Operation)
    requires Covers(clock, nodes) && Dominates(clock, op.revision)
    ensures Covers(clock, Apply(nodes, op))
  {
    forall n, f, r | Mentions(SlotAt(Apply(nodes, op), n, f), r) ensures Dominates(clock, r) {
      ApplySlots(nodes, op, n, f);
      if n == op.action.node && f == op.action.field {
        StepMentions(SlotAt(nodes, n, f), op, r);
      }
    }
  }

  lemma LaterCovers(c: ClockState, d: ClockState, nodes: Nodes)
    requires Covers(c, nodes) && Dominates(d, Current(c))
    ensures Covers(d, nodes)
  {
    forall n, f, r | Mentions(SlotAt(nodes, n, f), r) ensures Dominates(d, r) {
      assert Dominates(c, r);
    }
  }

  lemma EffectChanges(v: Db, op: Operation, local: bool)
    ensures Effect(v, op, local).clock == Observed(v.clock, op.revision)
    ensures Effect(v, op, local).nodes == Apply(v.nodes, op)
  {
    RefreshKeeps(v.(clock := Observed(v.clock, op.revision), nodes := Apply(v.nodes, op)), op.action.node);
  }

  lemma RefreshKeeps(s: Db, n: NodeId)
    ensures RefreshOverlay(s, n).clock == s.clock && RefreshOverlay(s, n).nodes == s.nodes
  {
  }

  lemma VisibleFields(a: Db, b: Db)
    requires Visible(a) == b
    ensures a.clock == b.clock && a.nodes == b.nodes && a.pending == b.pending && a.unflushed == b.unflushed
  {
  }

  lemma EnactChanges(s: Db, op: Operation, local: bool)
    ensures Enact(s, op, local).clock == Observed(s.clock, op.revision)
    ensures Enact(s, op, local).nodes == Apply(s.nodes, op)
  {
    EnactVisible(s, op, local);
    EffectChanges(Visible(s), op, local);
    VisibleFields(Enact(s, op, local), Effect(Visible(s), op, local));
  }

  lemma EnactCovers(s: Db, op: Operation, local: bool)
    requires Covers(s.clock, s.nodes)
    ensures Covers(Enact(s, op, local).clock, Enact(s, op, local).nodes)
  {
    var clock := Observed(s.clock, op.revision);
    LaterCovers(s.clock, clock, s.nodes);
    ApplyCovers(clock, s.nodes, op);
    EnactChanges(s, op, local);
  }

  // ---------------------------------------------------------------- lazy loads

  /** A merged set holds only markers of the two sets. */
  lemma MergeSetMentions(a: SetState, b: SetState, r: Revision)
    requires r in SetRevisions(MergeSet(a, b))
    ensures r in SetRevisions(a) || r in SetRevisions(b)
  {
    var m := MergeSet(a, b);
    if r in MarkerRevisions(m.members) {
      var x :| x in m.members && m.members[x].revision == r;
      assert Adds(a, b, x) == Lookup(a.members, x) || Adds(a, b, x) == Lookup(b.members, x);
    } else if r in MarkerRevisions(m.removed) {
      var x :| x in m.removed && m.removed[x].revision == r;
      assert Drops(a, b, x) == Lookup(a.removed, x) || Drops(a, b, x) == Lookup(b.removed, x);
    }
  }

  lemma MergeFieldMentions(a: FieldState, b: FieldState, r: Revision)
    requires r in FieldRevisions(MergeField(a, b))
    ensures r in FieldRevisions(a) || r in FieldRevisions(b)
  {
    if a.value.Set? && b.value.Set? {
      var m := MergeField(a, b);
      assert FieldRevisions(m) == {m.version.revision} + SetRevisions(m.value.state);
      assert FieldRevisions(a) == {a.version.revision} + SetRevisions(a.value.state);
      assert FieldRevisions(b) == {b.version.revision} + SetRevisions(b.value.state);
      if r in SetRevisions(m.value.state) {
        MergeSetMentions(a.value.state, b.value.state, r);
      }
    }
  }

  /** A merged slot mentions only revisions of the two slots. */
  lemma MergeMentions(a: Slot, b: Slot, r: Revision)
    requires Mentions(MergeSlot(a, b), r)
    ensures Mentions(a, r) || Mentions(b, r)
  {
    var mid := MergeTomb(a, b.tomb);
    assert Mentions(mid, r) ==> Mentions(a, r) || Mentions(b, r);
    if mid.field.Some? && b.field.Some? && r in FieldRevisions(MergeField(mid.field.value, b.field.value)) {
      MergeFieldMentions(mid.field.value, b.field.value, r);
    }
  }

  /** What a load brings is not ahead of the clock. */
  ghost predicate Known(s: Db, step: Step) {
    step.Load? && step.answer.Some? ==>
      forall f, r :: Mentions(SlotOf(step.answer.value, f), r) ==> Dominates(s.clock, r)
  }

  ghost predicate AllKnown(start: Db, steps: seq<Step>) {
    forall i :: 0 <= i < |steps| ==> Known(Run(start, steps[..i]), steps[i])
  }

  lemma ReindexKeeps(s: Db, n: NodeId)
    ensures RequestReindex(s, n).clock == s.clock && RequestReindex(s, n).nodes == s.nodes
  {
  }

  lemma SavesKeep(s: Db, n: NodeId)
    ensures SaveMissing(SaveNode(s, n), n).clock == s.clock && SaveMissing(s, n).clock == s.clock
    ensures SaveMissing(s, n).nodes == s.nodes
  {
  }

  lemma LoadedNodes(s: Db, n: NodeId, answer: Option<NodeState>)
    ensures Loaded(s, n, answer).clock == s.clock
    ensures Loaded(s, n, answer).nodes == s.nodes ||
            (answer.Some? && Loaded(s, n, answer).nodes ==
                             s.nodes[answer.value.id := MergedNode(NodeOrNew(s.nodes, answer.value.id), answer.value)])
  {
    SavesKeep(s, n);
    if answer.Some? {
      var state := answer.value;
      var merged := s.nodes[state.id := MergedNode(NodeOrNew(s.nodes, state.id), state)];
      ReindexKeeps(SaveMissing(SaveNode(s, n), n).(nodes := merged, missing := s.missing - {n}), n);
    }
  }

  lemma LoadCovers(s: Db, n: NodeId, answer: Option<NodeState>)
    requires Covers(s.clock, s.nodes) && Known(s, Load(n, answer))
    ensures Covers(s.clock, Loaded(s, n, answer).nodes)
  {
    LoadedNodes(s, n, answer);
    var nodes := Loaded(s, n, answer).nodes;
    if nodes != s.nodes {
      var state := answer.value;
      var old_ := NodeOrNew(s.nodes, state.id);
      MergedNodeIsTheMerge(old_, state, MergedNode(old_, state));
      forall m, f, r | Mentions(SlotAt(nodes, m, f), r) ensures Dominates(s.clock, r) {
        if m == state.id {
          assert SlotAt(nodes, m, f) == MergeSlot(SlotOf(old_, f), SlotOf(state, f));
          MergeMentions(SlotOf(old_, f), SlotOf(state, f), r);
          assert SlotOf(old_, f) == SlotAt(s.nodes, m, f);
        } else {
          assert SlotAt(nodes, m, f) == SlotAt(s.nodes, m, f);
        }
      }
    }
  }

  lemma StepCovers(s: Db, step: Step)
    requires Covers(s.clock, s.nodes) && Known(s, step)
    ensures Covers(Next(s, step).clock, Next(s, step).nodes)
  {
    match step {
      case Write(now, opId, action) =>
        var issued := s.(clock := Issued(s.clock, now));
        LaterCovers(s.clock, issued.clock, s.nodes);
        EnactCovers(issued, LocalOperation(s, now, opId, action), true);
      case Receive(op, allowed) =>
        EnactCovers(s, op, false);
      case Ensure(n) =>
        var nodes := s.nodes[n := NodeOrNew(s.nodes, n)];
        forall m, f, r | Mentions(SlotAt(nodes, m, f), r) ensures Dominates(s.clock, r) {
          assert SlotAt(nodes, m, f) == SlotAt(s.nodes, m, f);
        }
      case Load(n, answer) =>
        LoadCovers(s, n, answer);
        LoadedNodes(s, n, answer);
      case _ =>
    }
  }

  /** The clock covers the graph after every run whose loads bring nothing ahead of it. */
  lemma {:induction false} RunCovers(s: Db, steps: seq<Step>)
    requires Covers(s.clock, s.nodes) && AllKnown(s, steps)
    ensures Covers(Run(s, steps).clock, Run(s, steps).nodes)
    decreases |steps|
  {
    if steps != [] {
      var last := |steps| - 1;
      forall i | 0 <= i < last ensures Known(Run(s, steps[..last][..i]), steps[..last][i]) {
        assert steps[..last][..i] == steps[..i];
      }
      RunCovers(s, steps[..last]);
      assert Known(Run(s, steps[..last]), steps[last]);
      StepCovers(Run(s, steps[..last]), steps[last]);
    }
  }

  lemma EffectQueues(v: Db, op: Operation)
    requires Accepted(v.nodes, op)
    ensures Effect(v, op, true).pending == Compaction.Pushed(v.pending, op)
    ensures Effect(v, op, true).unflushed == Compaction.Pushed(v.unflushed, op)
  {
  }

  lemma EnactQueues(s: Db, op: Operation)
    requires Accepted(s.nodes, op)
    ensures Enact(s, op, true).pending == Compaction.Pushed(s.pending, op)
    ensures Enact(s, op, true).unflushed == Compaction.Pushed(s.unflushed, op)
  {
    EnactVisible(s, op, true);
    EffectQueues(Visible(s), op);
    VisibleFields(Enact(s, op, true), Effect(Visible(s), op, true));
  }

  lemma NextIsNewest(s: Db, now: nat, opId: string, action: Action)
    requires Covers(s.clock, s.nodes) && !Saturated(s.clock, now)
    ensures var op := LocalOperation(s, now, opId, action);
            Accepted(s.nodes, op) && Shows(SlotAt(Apply(s.nodes, op), action.node, action.field), op)
  {
    var op := LocalOperation(s, now, opId, action);
    var slot := SlotAt(s.nodes, action.node, action.field);
    forall r | r in SlotRevisions(slot) ensures RevisionLess(r, op.revision) {
      assert Mentions(slot, r);
      assert Dominates(s.clock, r);
    }
    NewestShows(slot, op);
    ApplySlots(s.nodes, op, action.node, action.field);
  }

  // ---------------------------------------------------------------- queues

  /** No queued operation is ahead of the clock. */
  ghost predicate CoversQueue(clock: ClockState, queue: seq<Operation>) {
    forall o :: o in queue ==> Dominates(clock, o.revision)
  }

  ghost predicate CoversQueues(s: Db) {
    CoversQueue(s.clock, s.pending) && CoversQueue(s.clock, s.unflushed)
  }

  lemma PushedCovers(c: ClockState, d: ClockState, queue: seq<Operation>, op: Operation)
    requires CoversQueue(c, queue) && Dominates(d, Current(c)) && Dominates(d, op.revision)
    ensures CoversQueue(d, Compaction.Pushed(queue, op)) && CoversQueue(d, queue)
  {
    forall o | o in queue ensures Dominates(d, o.revision) {
      assert Dominates(c, o.revision);
    }
    assert forall o :: o in Compaction.Pushed(queue, op) ==> o in queue || o == op;
  }

  lemma EffectQueued(v: Db, op: Operation, local: bool)
    ensures Effect(v, op, local).pending == v.pending ||
            Effect(v, op, local).pending == Compaction.Pushed(v.pending, op)
    ensures Effect(v, op, local).unflushed == v.unflushed ||
            Effect(v, op, local).unflushed == Compaction.Pushed(v.unflushed, op)
  {
    RefreshQueues(v.(clock := Observed(v.clock, op.revision), nodes := Apply(v.nodes, op)), op.action.node);
  }

  lemma RefreshQueues(s: Db, n: NodeId)
    ensures RefreshOverlay(s, n).pending == s.pending && RefreshOverlay(s, n).unflushed == s.unflushed
  {
  }

  lemma EnactCoversQueues(s: Db, op: Operation, local: bool)
    requires CoversQueues(s)
    ensures CoversQueues(Enact(s, op, local))
  {
    EnactVisible(s, op, local);
    EffectQueued(Visible(s), op, local);
    EffectChanges(Visible(s), op, local);
    VisibleFields(Enact(s, op, local), Effect(Visible(s), op, local));
    PushedCovers(s.clock, Observed(s.clock, op.revision), s.pending, op);
    PushedCovers(s.clock, Observed(s.clock, op.revision), s.unflushed, op);
  }

  lemma IssuedCoversQueues(s: Db, now: nat)
    requires CoversQueues(s)
    ensures CoversQueues(s.(clock := Issued(s.clock, now)))
  {
    var d := Issued(s.clock, now);
    assert Dominates(d, Current(s.clock));
    forall o | o in s.pending || o in s.unflushed ensures Dominates(d, o.revision) {
      assert Dominates(s.clock, o.revision);
    }
  }

  /** Steps other than writes and remote operations leave the clock and the queues alone. */
  lemma QuietStep(s: Db, step: Step)
    requires !step.Write? && !step.Receive?
    ensures Next(s, step).clock == s.clock
    ensures Next(s, step).pending == s.pending && Next(s, step).unflushed == s.unflushed
  {
    if step.Load? {
      LoadedNodes(s, step.node, step.answer);
      LoadQueues(s, step.node, step.answer);
    }
  }

  lemma StepCoversQueues(s: Db, step: Step)
    requires CoversQueues(s)
    ensures CoversQueues(Next(s, step))
  {
    match step {
      case Write(now, opId, action) =>
        IssuedCoversQueues(s, now);
        EnactCoversQueues(s.(clock := Issued(s.clock, now)), LocalOperation(s, now, opId, action), true);
      case Receive(op, allowed) =>
        EnactCoversQueues(s, op, false);
      case _ =>
        QuietStep(s, step);
    }
  }

  /** The clock dominates every queued revision throughout every run. */
  lemma {:induction false} RunCoversQueues(s: Db, steps: seq<Step>)
    requires CoversQueues(s)
    ensures CoversQueues(Run(s, steps))
    decreases |steps|
  {
    if steps != [] {
      RunCoversQueues(s, steps[..|steps| - 1]);
      StepCoversQueues(Run(s, steps[..|steps| - 1]), steps[|steps| - 1]);
    }
  }

  /** So the next operation enters the queue whatever it holds. */
  lemma NextIsQueued(c: ClockState, now: nat, queue: seq<Operation>, op: Operation)
    requires CoversQueue(c, queue) && !Saturated(c, now) && op.revision == Current(Issued(c, now))
    ensures op in Compaction.Pushed(queue, op)
  {
    RevisionOrder();
    forall e | e in queue ensures !RevisionLess(op.revision, e.revision) {
      assert Dominates(c, e.revision);
    }
    var next := Compaction.Pushed(queue, op);
    if Compaction.HasKey(queue, Compaction.KeyOf(op)) {
      var i :| 0 <= i < |queue|
               && next == if RevisionLess(op.revision, queue[i].revision) then queue else queue[i := op];
      assert queue[i] in queue;
      assert next[i] == op;
    }
  }

  /**
    After every run of writes, remote operations, loads and reads, inside or outside a transaction,
    the next local operation is accepted, shows in its slot and is queued, provided the counter is
    not saturated, the queue has room and the loads brought nothing ahead of the clock.
   */
  lemma LocalWritesAreVisible(start: Db, steps: seq<Step>, now: nat, opId: string, action: Action)
    requires Covers(start.clock, start.nodes) && AllKnown(start, steps)
    requires var s := Run(start, steps); !Saturated(s.clock, now) && |s.pending| < s.maxPending
    ensures var s := Run(start, steps);
            var op := LocalOperation(s, now, opId, action);
            var after := Next(s, Write(now, opId, action));
            && Shows(SlotAt(after.nodes, action.node, action.field), op)
            && after.pending == Compaction.Pushed(s.pending, op)
            && after.unflushed == Compaction.Pushed(s.unflushed, op)
            && (CoversQueues(start) ==> op in after.pending && op in after.unflushed)
  {
    RunCovers(start, steps);
    var s := Run(start, steps);
    if CoversQueues(start) {
      RunCoversQueues(start, steps);
      NextIsQueued(s.clock, now, s.pending, LocalOperation(s, now, opId, action));
      NextIsQueued(s.clock, now, s.unflushed, LocalOperation(s, now, opId, action));
    }
    NextIsNewest(s, now, opId, action);
    var issued := s.(clock := Issued(s.clock, now));
    EnactChanges(issued, LocalOperation(s, now, opId, action), true);
    EnactQueues(issued, LocalOperation(s, now, opId, action));
  }

  // ---------------------------------------------------------------- writes after any load

  function Markers(m: Option<Marker>): set<Marker> {
    if m.Some? then {m.value} else {}
  }

  /** The markers in a slot that an action must be above. */
  function Blockers(slot: Slot, action: Action): set<Marker> {
    Markers(slot.tomb) +
    (if slot.field.None? then {}
     else if action.SetField? || action.DeleteField? || !slot.field.value.value.Set? then {slot.field.value.version}
     else
       var s := slot.field.value.value.state;
       {s.baseline} + Markers(Lookup(s.members, action.member)) + Markers(Lookup(s.removed, action.member)))
  }

  predicate Outranks(op: Operation, slot: Slot) {
    forall b :: b in Blockers(slot, op.action) ==> Lt(b, MarkerOf(op))
  }

  lemma AcceptedIffOutranks(slot: Slot, op: Operation)
    ensures StepSlot(slot, op).1 <==> Outranks(op, slot)
    ensures !StepSlot(slot, op).1 ==> StepSlot(slot, op).0 == slot
  {
    MarkerOrder();
    var blockers := Blockers(slot, op.action);
    assert slot.tomb.Some? ==> slot.tomb.value in blockers;
    if slot.field.Some? {
      var value := slot.field.value.value;
      if IsMemberOp(op) && value.Set? {
        var s, x := value.state, op.action.member;
        assert s.baseline in blockers;
        assert x in s.members ==> s.members[x] in blockers;
        assert x in s.removed ==> s.removed[x] in blockers;
      } else {
        assert slot.field.value.version in blockers;
      }
    }
  }

  /** A load into an absent or empty node leaves there what the answer's slots merge to from nothing. */
  lemma LoadedSlot(s: Db, n: NodeId, state: NodeState, f: string)
    requires n !in s.missing && (n in s.nodes ==> IsEmpty(s.nodes[n])) && state.id == n
    ensures SlotAt(Loaded(s, n, Some(state)).nodes, n, f) == MergeSlot(EMPTY_SLOT, SlotOf(state, f))
  {
    LoadedNodes(s, n, Some(state));
    var old_ := NodeOrNew(s.nodes, n);
    MergedNodeIsTheMerge(old_, state, MergedNode(old_, state));
    assert SlotOf(old_, f) == EMPTY_SLOT;
  }

  lemma RefusedQueue(s: Db, op: Operation)
    requires !Accepted(s.nodes, op)
    ensures Enact(s, op, true).pending == s.pending
  {
  }

  lemma WriteIsEnacted(s: Db, now: nat, opId: string, action: Action)
    requires |s.pending| < s.maxPending
    ensures var op := LocalOperation(s, now, opId, action);
            var after := Next(s, Write(now, opId, action));
            && after.nodes == Apply(s.nodes, op)
            && after.pending == if Accepted(s.nodes, op) then Compaction.Pushed(s.pending, op) else s.pending
  {
    var op := LocalOperation(s, now, opId, action);
    var issued := s.(clock := Issued(s.clock, now));
    EnactChanges(issued, op, true);
    if Accepted(s.nodes, op) {
      EnactQueues(issued, op);
    } else {
      RefusedQueue(issued, op);
    }
  }

  /** In any state with room a write is accepted, and queued, exactly if it is above what its slot holds against it. */
  lemma WriteOutcome(s: Db, now: nat, opId: string, action: Action)
    requires |s.pending| < s.maxPending
    ensures var op := LocalOperation(s, now, opId, action);
            var slot := SlotAt(s.nodes, action.node, action.field);
            var after := Next(s, Write(now, opId, action));
            && SlotAt(after.nodes, action.node, action.field) == StepSlot(slot, op).0
            && (Accepted(s.nodes, op) <==> Outranks(op, slot))
            && after.pending == (if Outranks(op, slot) then Compaction.Pushed(s.pending, op) else s.pending)
            && (!Outranks(op, slot) ==> SlotAt(after.nodes, action.node, action.field) == slot)
  {
    var op := LocalOperation(s, now, opId, action);
    WriteIsEnacted(s, now, opId, action);
    AcceptedIffOutranks(SlotAt(s.nodes, action.node, action.field), op);
    ApplySlots(s.nodes, op, action.node, action.field);
  }

  lemma LoadedQueue(s: Db, n: NodeId, answer: Option<NodeState>)
    ensures Loaded(s, n, answer).pending == s.pending && Loaded(s, n, answer).maxPending == s.maxPending
  {
  }

  /**
    After a load of any node, however far ahead of the clock, the next write to it is accepted, and
    queued, if and only if its marker is above the markers that the answer holds against it.
   */
  lemma WriteAfterLoad(s: Db, n: NodeId, state: NodeState, now: nat, opId: string, action: Action)
    requires n !in s.missing && (n in s.nodes ==> IsEmpty(s.nodes[n])) && state.id == n == action.node
    requires |s.pending| < s.maxPending
    ensures var loaded := Next(s, Load(n, Some(state)));
            var op := LocalOperation(s, now, opId, action);
            var slot := MergeSlot(EMPTY_SLOT, SlotOf(state, action.field));
            var after := Next(loaded, Write(now, opId, action));
            && (Accepted(loaded.nodes, op) <==> Outranks(op, slot))
            && after.pending == (if Outranks(op, slot) then Compaction.Pushed(s.pending, op) else s.pending)
            && SlotAt(after.nodes, n, action.field) == if Outranks(op, slot) then StepSlot(slot, op).0 else slot
  {
    var loaded := Loaded(s, n, Some(state));
    LoadedNodes(s, n, Some(state));
    LoadedSlot(s, n, state, action.field);
    LoadedQueue(s, n, Some(state));
    WriteInState(loaded, s, MergeSlot(EMPTY_SLOT, SlotOf(state, action.field)), now, opId, action);
  }

  /** The outcome of a write depends on the clock, the queue and the slot alone. */
  lemma WriteInState(loaded: Db, s: Db, slot: Slot, now: nat, opId: string, action: Action)
    requires loaded.clock == s.clock && loaded.pending == s.pending && |loaded.pending| < loaded.maxPending
    requires SlotAt(loaded.nodes, action.node, action.field) == slot
    ensures var op := LocalOperation(s, now, opId, action);
            var after := Next(loaded, Write(now, opId, action));
            && (Accepted(loaded.nodes, op) <==> Outranks(op, slot))
            && after.pending == (if Outranks(op, slot) then Compaction.Pushed(s.pending, op) else s.pending)
            && SlotAt(after.nodes, action.node, action.field) ==
               if Outranks(op, slot) then StepSlot(slot, op).0 else slot
  {
    assert LocalOperation(loaded, now, opId, action) == LocalOperation(s, now, opId, action);
    WriteOutcome(loaded, now, opId, action);
  }

  /** A field written at time five by another replica. */
  const AHEAD := FieldState(Scalar(Null), Marker(Revision(5, 0, "other"), "x"))

  const LOADED := NodeState("n", map["f" := AHEAD], map[])

  lemma AheadBlocks(value: Json)
    ensures var op := Operation("id", "local", Revision(1, 0, "local"), SetField("n", "f", ScalarValue(value)));
            && MergeSlot(EMPTY_SLOT, SlotOf(LOADED, "f")) == Slot(Some(AHEAD), None)
            && !Outranks(op, Slot(Some(AHEAD), None))
  {
    var op := Operation("id", "local", Revision(1, 0, "local"), SetField("n", "f", ScalarValue(value)));
    assert AHEAD.version in Blockers(Slot(Some(AHEAD), None), op.action);
  }

  /**
    A node ahead of the clock makes the next write to it vanish: the clock covers the empty graph it
    starts with, nothing is saturated, and yet the write is refused and not queued.
   */
  lemma WriteRefused(s: Db, value: Json)
    requires s.nodes == map[] && s.missing == {} && |s.pending| < s.maxPending
    requires s.clock == ClockState("local", 0, 0, 0)
    ensures var after := Next(Next(s, Load("n", Some(LOADED))), Write(1, "id", SetField("n", "f", ScalarValue(value))));
            && Covers(s.clock, s.nodes) && !Saturated(s.clock, 1)
            && after.pending == s.pending && SlotAt(after.nodes, "n", "f") == Slot(Some(AHEAD), None)
  {
    AheadBlocks(value);
    WriteAfterLoad(s, "n", LOADED, 1, "id", SetField("n", "f", ScalarValue(value)));
  }

  // ---------------------------------------------------------------- identifiers

  /** How many local writes a run attempts. */
  function Attempts(steps: seq<Step>): nat
    decreases |steps|
  {
    if steps == [] then 0 else Attempts(steps[..|steps| - 1]) + if steps[|steps| - 1].Write? then 1 else 0
  }

  lemma StepCounts(s: Db, step: Step)
    requires s.clock.sequence <= MAX_SEQUENCE
    ensures Next(s, step).clock.sequence ==
            if step.Write? && s.clock.sequence < MAX_SEQUENCE then s.clock.sequence + 1 else s.clock.sequence
  {
    match step
    case Write(now, opId, action) =>
      EnactChanges(s.(clock := Issued(s.clock, now)), LocalOperation(s, now, opId, action), true);
    case Receive(op, allowed) => EnactChanges(s, op, false);
    case Load(n, answer) => LoadedNodes(s, n, answer);
    case _ =>
  }

  /** The sequence that operation identifiers carry counts the local writes attempted, up to its greatest value. */
  lemma {:induction false} SequenceCounts(s: Db, steps: seq<Step>)
    requires s.clock.sequence <= MAX_SEQUENCE
    ensures var count := s.clock.sequence + Attempts(steps);
            Run(s, steps).clock.sequence == if count < MAX_SEQUENCE then count else MAX_SEQUENCE
    decreases |steps|
  {
    if steps != [] {
      SequenceCounts(s, steps[..|steps| - 1]);
      StepCounts(Run(s, steps[..|steps| - 1]), steps[|steps| - 1]);
    }
  }
}
