/**
  The record overlay: what it shows of the record nodes that a run writes, and exactly when two
  record nodes that claim one key get in each other's way.
 */
module Records {
  import opened Clock
  import opened Graph
  import opened Json
  import opened Transactions

  // ---------------------------------------------------------------- records in nodes

  predicate HoldsKey(state: NodeState, key: string) {
    "key" in state.fields && state.fields["key"].value == Scalar(Str(key))
  }

  /** The record a node stands for; a missing value, a link or a set is a deleted record. */
  predicate HoldsRecord(state: NodeState, key: string, entry: Option<RecordEntry>) {
    if "value" !in state.fields then entry.None?
    else
      match (state.fields["value"].value, entry)
      case (Scalar(json), Some(RecordEntry(k, JsonRecord(j)))) => k == key && j == json
      case (Bytes(base64), Some(RecordEntry(k, BytesRecord(b)))) => k == key && b == base64
      case (Blob(reference), Some(RecordEntry(k, BlobRecord(r)))) => k == key && r == reference
      case (Link(_), None) => true
      case (Set(_), None) => true
      case _ => false
  }

  lemma RecordNodesStandTogether(n: NodeId)
    ensures IsRecordNode(n) <==> exists rest :: n == "__primadb_records/" + rest
  {
    if IsRecordNode(n) {
      assert n == "__primadb_records/" + n[|"__primadb_records/"|..];
    }
  }

  lemma RecordIsHeld(state: NodeState, key: string, entry: Option<RecordEntry>)
    ensures RecordKey(state) == Some(key) <==> HoldsKey(state, key)
    ensures HoldsKey(state, key) ==> (RecordOf(state) == entry <==> HoldsRecord(state, key, entry))
  {
  }

  // ---------------------------------------------------------------- one refresh

  /** The overlay holds the record of a node under the key of that node. */
  predicate Tracked(s: Db, n: NodeId)
    requires n in s.overlayKeys
  {
    var key := s.overlayKeys[n];
    && IsRecordNode(n) && n in s.nodes && HoldsKey(s.nodes[n], key)
    && key in s.overlay && HoldsRecord(s.nodes[n], key, s.overlay[key])
  }

  ghost predicate TrackedBut(s: Db, n: NodeId) {
    forall m :: m in s.overlayKeys && m != n ==> Tracked(s, m)
  }

  /** Every key of the overlay is that of a node. */
  ghost predicate Claimed(s: Db) {
    forall k :: k in s.overlay ==> exists n :: n in s.overlayKeys && s.overlayKeys[n] == k
  }

  /** The overlay tells the truth: it shows the records of its nodes and no others. */
  ghost predicate OverlayTrue(s: Db) {
    (forall n :: n in s.overlayKeys ==> Tracked(s, n)) && Claimed(s)
  }

  /** Refreshing n disturbs m: it shows another record under the key of m, or clears that key. */
  predicate Disturbs(s: Db, n: NodeId, m: NodeId)
    requires m in s.overlayKeys
  {
    var key := s.overlayKeys[m];
    if n in s.nodes && HoldsKey(s.nodes[n], key)
    then key in s.overlay && !HoldsRecord(s.nodes[n], key, s.overlay[key])
    else n in s.overlayKeys && s.overlayKeys[n] == key
  }

  ghost predicate Disputed(s: Db, n: NodeId) {
    IsRecordNode(n) && exists m :: m in s.overlayKeys && m != n && Disturbs(s, n, m)
  }

  lemma RefreshTracks(s: Db, n: NodeId, m: NodeId)
    requires IsRecordNode(n) && TrackedBut(s, n) && m in s.overlayKeys && m != n
    ensures m in RefreshOverlay(s, n).overlayKeys
    ensures Tracked(RefreshOverlay(s, n), m) <==> !Disturbs(s, n, m)
  {
    assert Tracked(s, m);
    var key := s.overlayKeys[m];
    if n in s.nodes {
      RecordIsHeld(s.nodes[n], key, s.overlay[key]);
      RecordIsHeld(s.nodes[n], key, RecordOf(s.nodes[n]));
      RecordIsHeld(s.nodes[m], key, s.overlay[key]);
      RecordIsHeld(s.nodes[m], key, RecordOf(s.nodes[n]));
    }
  }

  lemma RefreshShows(s: Db, n: NodeId)
    requires IsRecordNode(n)
    ensures var r := RefreshOverlay(s, n);
            && (n in r.overlayKeys <==> n in s.nodes && exists key :: HoldsKey(s.nodes[n], key))
            && (n in r.overlayKeys ==> Tracked(r, n))
            && r.overlayKeys.Keys - {n} == s.overlayKeys.Keys - {n}
  {
    if n in s.nodes {
      var state := s.nodes[n];
      if RecordKey(state).Some? {
        RecordIsHeld(state, RecordKey(state).value, RecordOf(state));
      }
      forall key | HoldsKey(state, key) ensures RecordKey(state) == Some(key) {
        RecordIsHeld(state, key, None);
      }
    }
  }

  lemma RefreshClaims(s: Db, n: NodeId)
    requires Claimed(s)
    ensures Claimed(RefreshOverlay(s, n))
  {
    var r := RefreshOverlay(s, n);
    forall k | k in r.overlay ensures exists m :: m in r.overlayKeys && r.overlayKeys[m] == k {
      if n in r.overlayKeys && r.overlayKeys[n] == k {
      } else {
        var m :| m in s.overlayKeys && s.overlayKeys[m] == k;
        assert m in r.overlayKeys && r.overlayKeys[m] == k;
      }
    }
  }

  /** Refreshing a record node leaves the overlay true if and only if it disturbs no other node. */
  lemma RefreshIsExact(s: Db, n: NodeId)
    requires IsRecordNode(n) && TrackedBut(s, n) && Claimed(s)
    ensures OverlayTrue(RefreshOverlay(s, n)) <==> !Disputed(s, n)
  {
    var r := RefreshOverlay(s, n);
    RefreshShows(s, n);
    RefreshClaims(s, n);
    forall m | m in s.overlayKeys && m != n
      ensures m in r.overlayKeys && (Tracked(r, m) <==> !Disturbs(s, n, m))
    {
      RefreshTracks(s, n, m);
    }
    forall m | m in r.overlayKeys && m != n ensures m in s.overlayKeys {
      assert m in r.overlayKeys.Keys - {n};
    }
  }

  // ---------------------------------------------------------------- steps and runs

  /** The operation that a step puts to the graph. */
  function OperationOf(s: Db, step: Step): Option<Operation> {
    match step
    case Write(now, opId, action) =>
      if |s.pending| >= s.maxPending then None else Some(LocalOperation(s, now, opId, action))
    case Receive(op, allowed) => if allowed then Some(op) else None
    case _ => None
  }

  /** A step has an operation accepted. */
  predicate Accepts(s: Db, step: Step) {
    OperationOf(s, step).Some? && Accepted(s.nodes, OperationOf(s, step).value)
  }

  /** A step writes a record node so that another one is no longer shown. */
  ghost predicate Contends(s: Db, step: Step) {
    && Accepts(s, step)
    && var op := OperationOf(s, step).value;
       Disputed(s.(nodes := Apply(s.nodes, op)), op.action.node)
  }

  /** What an operation leaves of the graph and the overlay. */
  ghost predicate Leaves(s: Db, op: Operation, e: Db) {
    && e.nodes == Apply(s.nodes, op)
    && if Accepted(s.nodes, op) then
         var r := RefreshOverlay(s.(nodes := Apply(s.nodes, op)), op.action.node);
         e.overlay == r.overlay && e.overlayKeys == r.overlayKeys
       else e.overlay == s.overlay && e.overlayKeys == s.overlayKeys
  }

  lemma RefreshSame(a: Db, b: Db, n: NodeId)
    requires a.nodes == b.nodes && a.overlay == b.overlay && a.overlayKeys == b.overlayKeys
    ensures RefreshOverlay(a, n).overlay == RefreshOverlay(b, n).overlay
    ensures RefreshOverlay(a, n).overlayKeys == RefreshOverlay(b, n).overlayKeys
    ensures RefreshOverlay(a, n).nodes == a.nodes
  {
  }

  lemma EffectLeaves(v: Db, op: Operation, local: bool)
    ensures Leaves(v, op, Effect(v, op, local))
  {
    var applied := v.(clock := Observed(v.clock, op.revision), nodes := Apply(v.nodes, op));
    RefreshSame(applied, v.(nodes := Apply(v.nodes, op)), op.action.node);
  }

  lemma LeavesVisible(s: Db, op: Operation, e: Db)
    requires Leaves(Visible(s), op, Visible(e))
    ensures Leaves(s, op, e)
  {
    RefreshSame(Visible(s).(nodes := Apply(s.nodes, op)), s.(nodes := Apply(s.nodes, op)), op.action.node);
  }

  lemma EnactLeaves(s: Db, op: Operation, local: bool)
    ensures Leaves(s, op, Enact(s, op, local))
  {
    EnactVisible(s, op, local);
    EffectLeaves(Visible(s), op, local);
    LeavesVisible(s, op, Enact(s, op, local));
  }

  lemma SameOverlay(a: Db, b: Db)
    requires a.overlay == b.overlay && a.overlayKeys == b.overlayKeys
    requires forall n :: n in a.overlayKeys && n in a.nodes ==> n in b.nodes && a.nodes[n].fields == b.nodes[n].fields
    ensures OverlayTrue(a) ==> OverlayTrue(b)
  {
    if OverlayTrue(a) {
      forall n | n in b.overlayKeys ensures Tracked(b, n) {
        assert Tracked(a, n);
      }
    }
  }

  lemma RefusedFields(nodes: Nodes, op: Operation, m: NodeId)
    requires !Accepted(nodes, op) && m in nodes
    ensures m in Apply(nodes, op) && Apply(nodes, op)[m].fields == nodes[m].fields
    ensures Apply(nodes, op)[m].tombstones == nodes[m].tombstones
  {
    var n, f := op.action.node, op.action.field;
    if m == n {
      assert StepSlot(SlotAt(nodes, n, f), op).0 == SlotOf(nodes[n], f);
    }
  }

  lemma RefusedTracks(s: Db, op: Operation, e: Db)
    requires OverlayTrue(s) && Leaves(s, op, e) && !Accepted(s.nodes, op)
    ensures OverlayTrue(e)
  {
    forall m | m in s.overlayKeys && m in s.nodes ensures m in e.nodes && s.nodes[m].fields == e.nodes[m].fields {
      RefusedFields(s.nodes, op, m);
    }
    SameOverlay(s, e);
  }

  lemma AppliedTracks(s: Db, op: Operation, m: NodeId)
    requires OverlayTrue(s) && m in s.overlayKeys && m != op.action.node
    ensures Tracked(s.(nodes := Apply(s.nodes, op)), m)
  {
    assert Tracked(s, m);
  }

  lemma OnlyRecords(s: Db, n: NodeId)
    requires OverlayTrue(s)
    ensures n in s.overlayKeys ==> IsRecordNode(n)
  {
    assert n in s.overlayKeys ==> Tracked(s, n);
  }

  lemma AcceptedTracks(s: Db, op: Operation, e: Db)
    requires OverlayTrue(s) && Leaves(s, op, e) && Accepted(s.nodes, op)
    ensures OverlayTrue(e) <==> !Disputed(s.(nodes := Apply(s.nodes, op)), op.action.node)
  {
    var n, applied := op.action.node, s.(nodes := Apply(s.nodes, op));
    forall m | m in s.overlayKeys && m != n ensures Tracked(applied, m) {
      AppliedTracks(s, op, m);
    }
    if IsRecordNode(n) {
      assert TrackedBut(applied, n);
      RefreshIsExact(applied, n);
      RefreshSame(applied, applied, n);
      SameOverlay(RefreshOverlay(applied, n), e);
      SameOverlay(e, RefreshOverlay(applied, n));
    } else {
      OnlyRecords(s, n);
      SameOverlay(applied, e);
    }
  }

  /** A step that puts no operation to the graph leaves the overlay and every node that holds something. */
  ghost predicate Keeps(s: Db, e: Db) {
    && e.overlay == s.overlay && e.overlayKeys == s.overlayKeys
    && forall m :: m in s.nodes && !IsEmpty(s.nodes[m]) ==> m in e.nodes && e.nodes[m] == s.nodes[m]
  }

  ghost predicate StepLeaves(s: Db, step: Step, e: Db) {
    match OperationOf(s, step)
    case Some(op) => Leaves(s, op, e)
    case None => Keeps(s, e)
  }

  lemma LeavesIssued(s: Db, now: nat, op: Operation, e: Db)
    requires Leaves(s.(clock := Issued(s.clock, now)), op, e)
    ensures Leaves(s, op, e)
  {
    var issued := s.(clock := Issued(s.clock, now));
    RefreshSame(issued.(nodes := Apply(s.nodes, op)), s.(nodes := Apply(s.nodes, op)), op.action.node);
  }

  lemma WriteLeaves(s: Db, now: nat, opId: string, action: Action)
    ensures StepLeaves(s, Write(now, opId, action), Next(s, Write(now, opId, action)))
  {
    if |s.pending| < s.maxPending {
      var op, issued := LocalOperation(s, now, opId, action), s.(clock := Issued(s.clock, now));
      EnactLeaves(issued, op, true);
      LeavesIssued(s, now, op, Enact(issued, op, true));
    }
  }

  lemma LoadKeeps(s: Db, n: NodeId, answer: Option<NodeState>)
    requires Honest(Load(n, answer))
    ensures Keeps(s, Loaded(s, n, answer))
  {
    LoadVisible(s, n, answer);
    BareLoadKeeps(Visible(s), n, answer);
    KeepsVisible(s, Loaded(s, n, answer), Visible(Loaded(Visible(s), n, answer)));
  }

  lemma BareLoadKeeps(v: Db, n: NodeId, answer: Option<NodeState>)
    requires Honest(Load(n, answer)) && v.journal.None?
    ensures Keeps(v, Visible(Loaded(v, n, answer)))
  {
  }

  lemma KeepsVisible(s: Db, e: Db, w: Db)
    requires Visible(e) == w && Keeps(Visible(s), w)
    ensures Keeps(s, e)
  {
  }

  lemma NextLeaves(s: Db, step: Step)
    requires Honest(step)
    ensures StepLeaves(s, step, Next(s, step))
  {
    match step
    case Write(now, opId, action) => WriteLeaves(s, now, opId, action);
    case Receive(op, allowed) =>
      if allowed {
        EnactLeaves(s, op, false);
      }
    case Load(n, answer) => LoadKeeps(s, n, answer);
    case _ => assert Keeps(s, Next(s, step));
  }

  lemma KeepsTracks(s: Db, e: Db)
    requires OverlayTrue(s) && Keeps(s, e)
    ensures OverlayTrue(e)
  {
    forall m | m in s.overlayKeys && m in s.nodes ensures m in e.nodes && s.nodes[m].fields == e.nodes[m].fields {
      assert Tracked(s, m);
    }
    SameOverlay(s, e);
  }

  lemma LeavesTracks(s: Db, step: Step, e: Db)
    requires OverlayTrue(s) && StepLeaves(s, step, e)
    ensures OverlayTrue(e) <==> !Contends(s, step)
  {
    match OperationOf(s, step)
    case None => KeepsTracks(s, e);
    case Some(op) =>
      if Accepted(s.nodes, op) {
        AcceptedTracks(s, op, e);
      } else {
        RefusedTracks(s, op, e);
      }
  }

  /** A step leaves the overlay true if and only if it has no record node contend with another for a key. */
  lemma StepTracks(s: Db, step: Step)
    requires OverlayTrue(s) && Honest(step)
    ensures OverlayTrue(Next(s, step)) <==> !Contends(s, step)
  {
    NextLeaves(s, step);
    LeavesTracks(s, step, Next(s, step));
  }

  /** The overlay is true after every step. */
  ghost predicate AlwaysTrue(s: Db, steps: seq<Step>)
    decreases |steps|
  {
    OverlayTrue(Run(s, steps)) && (steps != [] ==> AlwaysTrue(s, steps[..|steps| - 1]))
  }

  /** No step has record nodes contend for a key. */
  ghost predicate NeverContends(s: Db, steps: seq<Step>)
    decreases |steps|
  {
    steps != [] ==>
      && NeverContends(s, steps[..|steps| - 1])
      && !Contends(Run(s, steps[..|steps| - 1]), steps[|steps| - 1])
  }

  lemma LastTracks(s: Db, steps: seq<Step>)
    requires steps != [] && Honest(steps[|steps| - 1]) && OverlayTrue(Run(s, steps[..|steps| - 1]))
    ensures OverlayTrue(Run(s, steps)) <==> !Contends(Run(s, steps[..|steps| - 1]), steps[|steps| - 1])
  {
    StepTracks(Run(s, steps[..|steps| - 1]), steps[|steps| - 1]);
  }

  /** The overlay is true all through a run if and only if no step has record nodes contend for a key. */
  lemma {:induction false} OverlayIsExact(s: Db, steps: seq<Step>)
    requires OverlayTrue(s) && AllHonest(steps)
    ensures AlwaysTrue(s, steps) <==> NeverContends(s, steps)
    decreases |steps|
  {
    if steps != [] {
      OverlayIsExact(s, steps[..|steps| - 1]);
      if AlwaysTrue(s, steps[..|steps| - 1]) {
        LastTracks(s, steps);
      }
    }
  }

  // ---------------------------------------------------------------- records that were written

  /** A node that holds something, and is in the overlay if it has a record key. */
  ghost predicate Covered(s: Db, n: NodeId) {
    && n in s.nodes && !IsEmpty(s.nodes[n])
    && ((exists key :: HoldsKey(s.nodes[n], key)) ==> n in s.overlayKeys)
  }

  lemma AppliedIsFilled(nodes: Nodes, op: Operation, n: NodeId)
    requires Accepted(nodes, op) && n == op.action.node
    ensures n in Apply(nodes, op) && !IsEmpty(Apply(nodes, op)[n])
  {
    var f, state := op.action.field, Apply(nodes, op)[n];
    var slot := StepSlot(SlotAt(nodes, n, f), op).0;
    assert slot.field.Some? || slot.tomb.Some?;
    assert f in state.fields || f in state.tombstones;
  }

  lemma WriteCovers(s: Db, op: Operation, e: Db)
    requires Leaves(s, op, e) && Accepted(s.nodes, op) && IsRecordNode(op.action.node)
    ensures Covered(e, op.action.node)
  {
    var n, applied := op.action.node, s.(nodes := Apply(s.nodes, op));
    AppliedIsFilled(s.nodes, op, n);
    RefreshShows(applied, n);
  }

  lemma LeavesCovered(s: Db, op: Operation, e: Db, n: NodeId)
    requires Leaves(s, op, e) && IsRecordNode(n) && Covered(s, n)
    ensures Covered(e, n)
  {
    if !Accepted(s.nodes, op) {
      RefusedFields(s.nodes, op, n);
    } else if n == op.action.node {
      WriteCovers(s, op, e);
    } else if IsRecordNode(op.action.node) {
      var r := RefreshOverlay(s.(nodes := Apply(s.nodes, op)), op.action.node);
      RefreshShows(s.(nodes := Apply(s.nodes, op)), op.action.node);
      assert n in s.overlayKeys ==> n in r.overlayKeys.Keys - {op.action.node};
    }
  }

  lemma StepCovers(s: Db, step: Step, n: NodeId)
    requires Honest(step) && IsRecordNode(n)
    requires Covered(s, n) || (Accepts(s, step) && OperationOf(s, step).value.action.node == n)
    ensures Covered(Next(s, step), n)
  {
    var e := Next(s, step);
    NextLeaves(s, step);
    StepCoversFrom(s, step, n, e);
  }

  lemma StepCoversFrom(s: Db, step: Step, n: NodeId, e: Db)
    requires IsRecordNode(n) && StepLeaves(s, step, e)
    requires Covered(s, n) || (Accepts(s, step) && OperationOf(s, step).value.action.node == n)
    ensures Covered(e, n)
  {
    match OperationOf(s, step)
    case None =>
    case Some(op) =>
      if Covered(s, n) {
        LeavesCovered(s, op, e, n);
      } else {
        WriteCovers(s, op, e);
      }
  }

  /** Some step of the run has an operation on node n accepted. */
  ghost predicate Writes(s: Db, steps: seq<Step>, n: NodeId)
    decreases |steps|
  {
    && steps != []
    && var before, last := Run(s, steps[..|steps| - 1]), steps[|steps| - 1];
       || Writes(s, steps[..|steps| - 1], n)
       || (Accepts(before, last) && OperationOf(before, last).value.action.node == n)
  }

  lemma LastCovers(s: Db, steps: seq<Step>, n: NodeId)
    requires steps != [] && Honest(steps[|steps| - 1]) && IsRecordNode(n)
    requires var before, last := Run(s, steps[..|steps| - 1]), steps[|steps| - 1];
             Covered(before, n) || (Accepts(before, last) && OperationOf(before, last).value.action.node == n)
    ensures Covered(Run(s, steps), n)
  {
    StepCovers(Run(s, steps[..|steps| - 1]), steps[|steps| - 1], n);
  }

  lemma {:induction false} WrittenIsCovered(s: Db, steps: seq<Step>, n: NodeId)
    requires AllHonest(steps) && IsRecordNode(n) && Writes(s, steps, n)
    ensures Covered(Run(s, steps), n)
    decreases |steps|
  {
    if Writes(s, steps[..|steps| - 1], n) {
      WrittenIsCovered(s, steps[..|steps| - 1], n);
    }
    LastCovers(s, steps, n);
  }

  /**
    After a run in which no record nodes contend for a key, the overlay shows the record of every
    record node written: under the key the node has, the value it has.
   */
  lemma WrittenRecordsAreShown(s: Db, steps: seq<Step>, n: NodeId, key: string)
    requires OverlayTrue(s) && AllHonest(steps) && NeverContends(s, steps)
    requires IsRecordNode(n) && Writes(s, steps, n)
    ensures var e := Run(s, steps);
            && n in e.nodes
            && (HoldsKey(e.nodes[n], key) ==> key in e.overlay && HoldsRecord(e.nodes[n], key, e.overlay[key]))
  {
    OverlayIsExact(s, steps);
    WrittenIsCovered(s, steps, n);
    if HoldsKey(Run(s, steps).nodes[n], key) {
      CoveredIsShown(Run(s, steps), n, key);
    }
  }

  lemma CoveredIsShown(e: Db, n: NodeId, key: string)
    requires OverlayTrue(e) && Covered(e, n) && HoldsKey(e.nodes[n], key)
    ensures key in e.overlay && HoldsRecord(e.nodes[n], key, e.overlay[key])
  {
    assert Tracked(e, n);
  }

  /** One case: of two nodes with one key, one gets another, and the record of the other node is gone. */
  lemma SharedKeyIsLost(s: Db, n: NodeId, m: NodeId)
    requires IsRecordNode(n) && TrackedBut(s, n) && Claimed(s)
    requires m != n && m in s.overlayKeys && n in s.overlayKeys && s.overlayKeys[m] == s.overlayKeys[n]
    requires n !in s.nodes || !HoldsKey(s.nodes[n], s.overlayKeys[m])
    ensures s.overlayKeys[m] in s.overlay && s.overlayKeys[m] !in RefreshOverlay(s, n).overlay
  {
    assert Tracked(s, m);
    if n in s.nodes {
      RecordIsHeld(s.nodes[n], s.overlayKeys[m], None);
    }
  }
}
