/**
  What is written is what is read: a field write that is the newest of its slot shows in the JSON of
  its node and in the relationship edges, whatever else the graph holds.
 */
module ReadBack {
  import opened Json
  import opened Clock
  import opened Graph
  import opened Convergence
  import opened Relationships
  import opened Materialize

  /** The edges that leave a field of a node. */
  function FieldEdges(nodes: Nodes, n: NodeId, f: string): set<Edge> {
    set e | e in NodeEdges(nodes, n) && e.field == f
  }

  /** The edges of a field are of one kind and lead exactly to the given nodes. */
  ghost predicate LeadsTo(nodes: Nodes, n: NodeId, f: string, kind: EdgeKind, targets: set<NodeId>) {
    forall e :: e in FieldEdges(nodes, n, f) <==> e == Edge(n, f, e.target, kind) && e.target in targets
  }

  /**
    The node shows the written value in its field: a scalar as it was written, bytes and a blob
    reference under their names, a link as its target and the one edge of the field, a set as
    its members, one item and one edge each.
   */
  ghost predicate ReadsBack(nodes: Nodes, n: NodeId, f: string, value: OperationValue) {
    var json := MaterializeNode(nodes, n, {});
    && json.Object? && f in json.members
    && match value
       case ScalarValue(written) =>
         json.members[f] == written && FieldEdges(nodes, n, f) == {}
       case BytesValue(base64) =>
         json.members[f] == Object(map["$bytes" := Str(base64)]) && FieldEdges(nodes, n, f) == {}
       case BlobValue(reference) =>
         json.members[f] == Object(map["$blob" := reference]) && FieldEdges(nodes, n, f) == {}
       case LinkValue(target) =>
         Depicts(nodes, target, {n}, json.members[f]) && LeadsTo(nodes, n, f, LinkEdge, {target})
       case SetValue(members) =>
         && LeadsTo(nodes, n, f, MemberEdge, set x | x in members)
         && json.members[f].Object? && json.members[f].members.Keys == {"$set"}
         && json.members[f].members["$set"].Array?
         && DepictsSet(nodes, set x | x in members, {n}, json.members[f].members["$set"].items)
  }

  /** The field holds what the value stores. */
  ghost predicate Holds(nodes: Nodes, n: NodeId, f: string, value: OperationValue, m: Marker) {
    n in nodes && f in nodes[n].fields && Stores(value, m, nodes[n].fields[f].value)
  }

  lemma FieldIsShown(nodes: Nodes, n: NodeId, f: string)
    requires n in nodes && f in nodes[n].fields
    ensures var json := MaterializeNode(nodes, n, {});
            json.Object? && f in json.members && DepictsValue(nodes, nodes[n].fields[f].value, {n}, json.members[f])
  {
    var json := MaterializeNode(nodes, n, {});
    NodeIsDepicted(nodes, n, {}, json);
    var none: set<NodeId> := {};
    assert none + {n} == {n};
    assert DepictsValue(nodes, nodes[n].fields[f].value, none + {n}, json.members[f]);
  }

  lemma HeldMembers(members: seq<NodeId>, m: Marker, s: SetState)
    requires Stores(SetValue(members), m, Set(s))
    ensures s.members.Keys == set x | x in members
  {
  }

  lemma HeldEdges(nodes: Nodes, n: NodeId, f: string, value: OperationValue, m: Marker)
    requires Holds(nodes, n, f, value, m)
    ensures (value.ScalarValue? || value.BytesValue? || value.BlobValue?) ==> FieldEdges(nodes, n, f) == {}
    ensures value.LinkValue? ==> LeadsTo(nodes, n, f, LinkEdge, {value.target})
    ensures value.SetValue? ==> LeadsTo(nodes, n, f, MemberEdge, set x | x in value.members)
  {
    forall e ensures e in FieldEdges(nodes, n, f) <==> EdgeOfField(nodes, n, e) && e.field == f {
      EdgesAreTheFields(nodes, n, e);
    }
    if value.SetValue? {
      HeldMembers(value.members, m, nodes[n].fields[f].value.state);
    }
  }

  /** A stored value reads back. */
  lemma HeldReadsBack(nodes: Nodes, n: NodeId, f: string, value: OperationValue, m: Marker)
    requires Holds(nodes, n, f, value, m)
    ensures ReadsBack(nodes, n, f, value)
  {
    FieldIsShown(nodes, n, f);
    HeldEdges(nodes, n, f, value, m);
    if value.SetValue? {
      HeldMembers(value.members, m, nodes[n].fields[f].value.state);
    }
  }

  /** An accepted write reads back. */
  lemma AcceptedReadsBack(nodes: Nodes, op: Operation)
    requires op.action.SetField? && Accepted(nodes, op)
    ensures ReadsBack(Apply(nodes, op), op.action.node, op.action.field, op.action.value)
  {
    var n, f := op.action.node, op.action.field;
    ApplySlots(nodes, op, n, f);
    StoredValueStores(op.action.value, MarkerOf(op));
    HeldReadsBack(Apply(nodes, op), n, f, op.action.value, MarkerOf(op));
  }

  /** An accepted deletion leaves nothing to read. */
  lemma DeletedIsGone(nodes: Nodes, op: Operation)
    requires op.action.DeleteField? && Accepted(nodes, op)
    ensures var json := MaterializeNode(Apply(nodes, op), op.action.node, {});
            && json.Object? && (op.action.field in json.members ==> op.action.field == "$id")
            && FieldEdges(Apply(nodes, op), op.action.node, op.action.field) == {}
  {
    var after, n, f := Apply(nodes, op), op.action.node, op.action.field;
    ApplySlots(nodes, op, n, f);
    assert n in after && f !in after[n].fields;
    NodeIsDepicted(after, n, {}, MaterializeNode(after, n, {}));
    forall e ensures e !in FieldEdges(after, n, f) {
      EdgesAreTheFields(after, n, e);
    }
  }

  /** After any history, whatever its order and repetitions, the newest write of a slot reads back. */
  lemma NewestReadsBack(base: Nodes, ops: seq<Operation>, w: Operation)
    requires Mergeable(base, Elements(ops)) && w.action.SetField?
    requires NewestWrite(w, Elements(ops), SlotAt(base, w.action.node, w.action.field), w.action.node, w.action.field)
    ensures ReadsBack(Replay(base, ops), w.action.node, w.action.field, w.action.value)
  {
    var n, f := w.action.node, w.action.field;
    ReplayJoins(base, ops);
    var after := Replay(base, ops);
    assert SlotJoin(SlotAt(base, n, f), Elements(ops), n, f, SlotAt(after, n, f));
    NewestIsWritten(SlotAt(base, n, f), Elements(ops), n, f, SlotAt(after, n, f), w);
    StoredValueStores(w.action.value, MarkerOf(w));
    HeldReadsBack(after, n, f, w.action.value, MarkerOf(w));
  }

  lemma NewestIsWritten(base: Slot, ops: set<Operation>, n: NodeId, f: string, slot: Slot, w: Operation)
    requires Unmixed(ops) && MarkersIdentify(ops)
    requires SlotJoin(base, ops, n, f, slot) && NewestWrite(w, ops, base, n, f)
    ensures slot == Written(w)
  {
    assert !HasMemberOps(ops, n, f) by {
      assert forall o :: o in ops && At(o, n, f) ==> SameSlot(w, o);
    }
    assert RegisterJoin(base, ops, n, f, Written(w));
    RegisterJoinUnique(base, ops, n, f, slot, Written(w));
  }
}
