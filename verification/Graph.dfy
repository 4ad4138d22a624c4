/**
  The replicated graph: nodes with versioned fields and tombstones, and the four
  operations that change one slot, a (node, field) pair, under a version marker.
 */
module Graph {
  import opened Json
  import opened Clock
  import Order

  type NodeId = string

  datatype SetState = SetState(baseline: Marker, members: map<NodeId, Marker>, removed: map<NodeId, Marker>)

  datatype FieldValue =
    | Scalar(json: Json)
    | Bytes(base64: string)
    | Blob(reference: Json)
    | Link(target: NodeId)
    | Set(state: SetState)

  datatype FieldState = FieldState(value: FieldValue, version: Marker)

  datatype NodeState = NodeState(id: NodeId, fields: map<string, FieldState>, tombstones: map<string, Marker>)

  type Nodes = map<NodeId, NodeState>

  datatype OperationValue =
    | ScalarValue(json: Json)
    | BytesValue(base64: string)
    | BlobValue(reference: Json)
    | LinkValue(target: NodeId)
    | SetValue(members: seq<NodeId>)

  datatype Action =
    | SetField(node: NodeId, field: string, value: OperationValue)
    | AddMember(node: NodeId, field: string, member: NodeId)
    | RemoveMember(node: NodeId, field: string, member: NodeId)
    | DeleteField(node: NodeId, field: string)

  datatype Operation = Operation(opId: string, author: string, revision: Revision, action: Action)

  function MarkerOf(op: Operation): Marker {
    Marker(op.revision, op.opId)
  }

  /** Markers order operations by revision, and by identifier where revisions are equal. */
  lemma MarkersOrderOperations(a: Operation, b: Operation)
    ensures Lt(MarkerOf(a), MarkerOf(b)) <==>
            RevisionLess(a.revision, b.revision) || (a.revision == b.revision && Order.Less(a.opId, b.opId))
    ensures MarkerOf(a) == MarkerOf(b) <==> a.revision == b.revision && a.opId == b.opId
  {
  }

  /** Set and delete address a whole slot; the other two address one member of it. */
  predicate IsMemberOp(op: Operation) {
    op.action.AddMember? || op.action.RemoveMember?
  }

  // ---------------------------------------------------------------- slots

  /** What a node holds for one field: a value, a tombstone, neither or both. */
  datatype Slot = Slot(field: Option<FieldState>, tomb: Option<Marker>)

  const EMPTY_SLOT := Slot(None, None)

  function Lookup<K, V>(m: map<K, V>, k: K): Option<V> {
    if k in m then Some(m[k]) else None
  }

  /** Maps with equal lookups are equal. */
  lemma SameLookups<K(!new), V>(a: map<K, V>, b: map<K, V>)
    requires forall k :: Lookup(a, k) == Lookup(b, k)
    ensures a == b
  {
    forall k ensures k in a <==> k in b {
      assert Lookup(a, k) == Lookup(b, k);
    }
    forall k | k in a ensures a[k] == b[k] {
      assert Lookup(a, k) == Lookup(b, k);
    }
  }

  function SlotOf(state: NodeState, field: string): Slot {
    Slot(Lookup(state.fields, field), Lookup(state.tombstones, field))
  }

  function SlotAt(nodes: Nodes, node: NodeId, field: string): Slot {
    if node in nodes then SlotOf(nodes[node], field) else EMPTY_SLOT
  }

  function Store<K, V>(m: map<K, V>, k: K, v: Option<V>): map<K, V> {
    match v
    case Some(x) => m[k := x]
    case None => m - {k}
  }

  function WithSlot(state: NodeState, field: string, slot: Slot): NodeState {
    state.(fields := Store(state.fields, field, slot.field),
           tombstones := Store(state.tombstones, field, slot.tomb))
  }

  function NewNode(id: NodeId): NodeState {
    NodeState(id, map[], map[])
  }

  function NodeOrNew(nodes: Nodes, node: NodeId): NodeState {
    if node in nodes then nodes[node] else NewNode(node)
  }

  /** Node maps with equal keys, ids and slots are equal. */
  lemma Extensional(a: Nodes, b: Nodes)
    requires a.Keys == b.Keys
    requires forall n :: n in a ==> a[n].id == b[n].id
    requires forall n, f :: SlotAt(a, n, f) == SlotAt(b, n, f)
    ensures a == b
  {
    forall n | n in a
      ensures a[n] == b[n]
    {
      forall f
        ensures f in a[n].fields <==> f in b[n].fields
        ensures f in a[n].fields ==> a[n].fields[f] == b[n].fields[f]
        ensures f in a[n].tombstones <==> f in b[n].tombstones
        ensures f in a[n].tombstones ==> a[n].tombstones[f] == b[n].tombstones[f]
      {
        assert SlotAt(a, n, f) == SlotAt(b, n, f);
      }
      assert a[n].fields == b[n].fields;
      assert a[n].tombstones == b[n].tombstones;
    }
  }

  // ---------------------------------------------------------------- one operation on one slot

  predicate Blocks(current: Option<Marker>, m: Marker) {
    current.Some? && Le(m, current.value)
  }

  predicate VersionBlocks(field: Option<FieldState>, m: Marker) {
    field.Some? && Le(m, field.value.version)
  }

  function StoredValue(value: OperationValue, m: Marker): FieldValue {
    match value
    case ScalarValue(json) => Scalar(json)
    case BytesValue(base64) => Bytes(base64)
    case BlobValue(reference) => Blob(reference)
    case LinkValue(target) => Link(target)
    case SetValue(members) => Set(SetState(m, map x | x in members :: m, map[]))
  }

  /** What a written value leaves in its field: the value itself, or exactly the listed members, as new as the write. */
  predicate Stores(value: OperationValue, m: Marker, stored: FieldValue) {
    match (value, stored)
    case (ScalarValue(json), Scalar(j)) => j == json
    case (BytesValue(base64), Bytes(b)) => b == base64
    case (BlobValue(reference), Blob(r)) => r == reference
    case (LinkValue(target), Link(t)) => t == target
    case (SetValue(members), Set(s)) =>
      && s.baseline == m && s.removed == map[]
      && (forall x :: x in members ==> x in s.members)
      && (forall x :: x in s.members ==> x in members && s.members[x] == m)
    case _ => false
  }

  lemma StoredValueStores(value: OperationValue, m: Marker)
    ensures Stores(value, m, StoredValue(value, m))
  {
  }

  predicate MemberBlocked(set_: SetState, member: NodeId, m: Marker) {
    || Le(m, set_.baseline)
    || Blocks(Lookup(set_.members, member), m)
    || Blocks(Lookup(set_.removed, member), m)
  }

  function Joined(set_: SetState, member: NodeId, m: Marker): SetState {
    SetState(set_.baseline, set_.members[member := m], set_.removed - {member})
  }

  function Dropped(set_: SetState, member: NodeId, m: Marker): SetState {
    SetState(set_.baseline, set_.members - {member}, set_.removed[member := m])
  }

  /** The slot after an operation, and whether the operation was accepted. */
  function StepSlot(slot: Slot, op: Operation): (Slot, bool) {
    var m := MarkerOf(op);
    match op.action
    case SetField(_, _, value) =>
      if Blocks(slot.tomb, m) || VersionBlocks(slot.field, m) then (slot, false)
      else (Slot(Some(FieldState(StoredValue(value, m), m)), None), true)
    case DeleteField(_, _) =>
      if Blocks(slot.tomb, m) || VersionBlocks(slot.field, m) then (slot, false)
      else (Slot(None, Some(m)), true)
    case AddMember(_, _, member) =>
      if Blocks(slot.tomb, m) then (slot, false)
      else
        (match slot.field
         case Some(FieldState(Set(set_), version)) =>
           if MemberBlocked(set_, member, m) then (slot, false)
           else (slot.(field := Some(FieldState(Set(Joined(set_, member, m)), Max(version, m)))), true)
         case Some(FieldState(_, version)) =>
           if Le(m, version) then (slot, false)
           else (slot.(field := Some(FieldState(Set(SetState(m, map[member := m], map[])), m))), true)
         case None =>
           (slot.(field := Some(FieldState(Set(SetState(ZERO_MARKER, map[member := m], map[])), m))), true))
    case RemoveMember(_, _, member) =>
      if Blocks(slot.tomb, m) then (slot, false)
      else
        (match slot.field
         case Some(FieldState(Set(set_), version)) =>
           if MemberBlocked(set_, member, m) then (slot, false)
           else (slot.(field := Some(FieldState(Set(Dropped(set_, member, m)), Max(version, m)))), true)
         case Some(FieldState(_, version)) =>
           if Le(m, version) then (slot, false)
           else (slot.(field := Some(FieldState(Set(SetState(ZERO_MARKER, map[], map[member := m])), m))), true)
         case None =>
           (slot.(field := Some(FieldState(Set(SetState(ZERO_MARKER, map[], map[member := m])), m))), true))
  }

  function Accepted(nodes: Nodes, op: Operation): bool {
    StepSlot(SlotAt(nodes, op.action.node, op.action.field), op).1
  }

  /** The graph after an operation. The node is created even when the operation is refused. */
  function Apply(nodes: Nodes, op: Operation): Nodes {
    var n, f := op.action.node, op.action.field;
    nodes[n := WithSlot(NodeOrNew(nodes, n), f, StepSlot(SlotAt(nodes, n, f), op).0)]
  }

  function Replay(nodes: Nodes, ops: seq<Operation>): Nodes
    decreases |ops|
  {
    if ops == [] then nodes else Apply(Replay(nodes, ops[..|ops| - 1]), ops[|ops| - 1])
  }

  /** An operation changes the slot it names and no other, and creates at most its node. */
  lemma ApplySlots(nodes: Nodes, op: Operation, n: NodeId, f: string)
    ensures SlotAt(Apply(nodes, op), n, f) ==
            if n == op.action.node && f == op.action.field then StepSlot(SlotAt(nodes, n, f), op).0
            else SlotAt(nodes, n, f)
    ensures Apply(nodes, op).Keys == nodes.Keys + {op.action.node}
    ensures n in nodes ==> Apply(nodes, op)[n].id == nodes[n].id
    ensures Apply(nodes, op)[op.action.node].id == NodeOrNew(nodes, op.action.node).id
  {
  }

}
