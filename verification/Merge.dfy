/**
  State-based replication: merging sets, fields, nodes and whole snapshots, and its
  agreement with replaying operations.
 */
module Merge {
  import opened Json
  import opened Clock
  import opened Graph
  import opened Convergence

  // ---------------------------------------------------------------- sets

  function MaxMarker(a: Option<Marker>, b: Option<Marker>): Option<Marker> {
    if a.None? then b else if b.None? then a else Some(Max(a.value, b.value))
  }

  predicate Above(m: Option<Marker>, baseline: Marker) {
    m.Some? && Lt(baseline, m.value)
  }

  predicate AddWins(add: Option<Marker>, drop: Option<Marker>, baseline: Marker) {
    Above(add, baseline) && (Above(drop, baseline) ==> Lt(drop.value, add.value))
  }

  predicate DropWins(add: Option<Marker>, drop: Option<Marker>, baseline: Marker) {
    Above(drop, baseline) && (Above(add, baseline) ==> !Lt(drop.value, add.value))
  }

  function Candidates(a: SetState, b: SetState): set<NodeId> {
    a.members.Keys + a.removed.Keys + b.members.Keys + b.removed.Keys
  }

  function Adds(a: SetState, b: SetState, x: NodeId): Option<Marker> {
    MaxMarker(Lookup(a.members, x), Lookup(b.members, x))
  }

  function Drops(a: SetState, b: SetState, x: NodeId): Option<Marker> {
    MaxMarker(Lookup(a.removed, x), Lookup(b.removed, x))
  }

  function MergeSet(a: SetState, b: SetState): SetState {
    var baseline := Max(a.baseline, b.baseline);
    SetState(baseline,
             map x | x in Candidates(a, b) && AddWins(Adds(a, b, x), Drops(a, b, x), baseline) :: Adds(a, b, x).value,
             map x | x in Candidates(a, b) && DropWins(Adds(a, b, x), Drops(a, b, x), baseline) :: Drops(a, b, x).value)
  }

  /** The entry of one member: the newer of its add and its drop, if above the baseline. */
  datatype Entry = Entry(add: Option<Marker>, drop: Option<Marker>)

  function EntryOf(s: SetState, x: NodeId): Entry {
    Entry(Lookup(s.members, x), Lookup(s.removed, x))
  }

  function Settle(add: Option<Marker>, drop: Option<Marker>, baseline: Marker): Entry {
    Entry(if AddWins(add, drop, baseline) then add else None,
          if DropWins(add, drop, baseline) then drop else None)
  }

  lemma MergeEntry(a: SetState, b: SetState, x: NodeId)
    ensures EntryOf(MergeSet(a, b), x) == Settle(Adds(a, b, x), Drops(a, b, x), Max(a.baseline, b.baseline))
  {
  }

  lemma SameEntries(a: SetState, b: SetState)
    requires a.baseline == b.baseline
    requires forall x :: EntryOf(a, x) == EntryOf(b, x)
    ensures a == b
  {
    forall x ensures Lookup(a.members, x) == Lookup(b.members, x) && Lookup(a.removed, x) == Lookup(b.removed, x) {
      assert EntryOf(a, x) == EntryOf(b, x);
    }
    SameLookups(a.members, b.members);
    SameLookups(a.removed, b.removed);
  }

  /** Settling early loses nothing that a later merge could need. */
  lemma SettleAbsorbs(add: Option<Marker>, drop: Option<Marker>, low: Marker,
                      add': Option<Marker>, drop': Option<Marker>, high: Marker)
    requires Le(low, high)
    ensures var e := Settle(add, drop, low);
            Settle(MaxMarker(e.add, add'), MaxMarker(e.drop, drop'), high)
            == Settle(MaxMarker(add, add'), MaxMarker(drop, drop'), high)
  {
    MarkerOrder();
  }

  lemma MaxMarkerLaws(a: Option<Marker>, b: Option<Marker>, c: Option<Marker>)
    ensures MaxMarker(a, b) == MaxMarker(b, a)
    ensures MaxMarker(MaxMarker(a, b), c) == MaxMarker(a, MaxMarker(b, c))
  {
    MarkerOrder();
  }

  lemma MergeSetCommutes(a: SetState, b: SetState)
    ensures MergeSet(a, b) == MergeSet(b, a)
  {
    assert Max(a.baseline, b.baseline) == Max(b.baseline, a.baseline) by { MarkerOrder(); }
    forall x ensures EntryOf(MergeSet(a, b), x) == EntryOf(MergeSet(b, a), x) {
      MergeEntry(a, b, x);
      MergeEntry(b, a, x);
      MaxMarkerLaws(Lookup(a.members, x), Lookup(b.members, x), None);
      MaxMarkerLaws(Lookup(a.removed, x), Lookup(b.removed, x), None);
    }
    SameEntries(MergeSet(a, b), MergeSet(b, a));
  }

  lemma MergeSetAssociates(a: SetState, b: SetState, c: SetState)
    ensures MergeSet(MergeSet(a, b), c) == MergeSet(a, MergeSet(b, c))
  {
    var left, right := MergeSet(MergeSet(a, b), c), MergeSet(a, MergeSet(b, c));
    assert left.baseline == right.baseline by { MarkerOrder(); }
    forall x ensures EntryOf(left, x) == EntryOf(right, x) {
      MergeSetAssociatesAt(a, b, c, x);
    }
    SameEntries(left, right);
  }

  lemma MergeSetAssociatesAt(a: SetState, b: SetState, c: SetState, x: NodeId)
    ensures EntryOf(MergeSet(MergeSet(a, b), c), x) == EntryOf(MergeSet(a, MergeSet(b, c)), x)
  {
    var (aa, ba, ca) := (Lookup(a.members, x), Lookup(b.members, x), Lookup(c.members, x));
    var (ad, bd, cd) := (Lookup(a.removed, x), Lookup(b.removed, x), Lookup(c.removed, x));
    var ab, bc := Max(a.baseline, b.baseline), Max(b.baseline, c.baseline);
    var abc := Max(ab, c.baseline);
    assert abc == Max(a.baseline, bc) && Le(ab, abc) && Le(bc, abc) by { MarkerOrder(); }
    calc {
      EntryOf(MergeSet(MergeSet(a, b), c), x);
      { MergeEntry(a, b, x); MergeEntry(MergeSet(a, b), c, x); }
      Settle(MaxMarker(Settle(MaxMarker(aa, ba), MaxMarker(ad, bd), ab).add, ca),
             MaxMarker(Settle(MaxMarker(aa, ba), MaxMarker(ad, bd), ab).drop, cd), abc);
      { SettleAbsorbs(MaxMarker(aa, ba), MaxMarker(ad, bd), ab, ca, cd, abc); }
      Settle(MaxMarker(MaxMarker(aa, ba), ca), MaxMarker(MaxMarker(ad, bd), cd), abc);
      { MaxMarkerLaws(aa, ba, ca); MaxMarkerLaws(ad, bd, cd);
        MaxMarkerLaws(aa, MaxMarker(ba, ca), None); MaxMarkerLaws(ad, MaxMarker(bd, cd), None); }
      Settle(MaxMarker(MaxMarker(ba, ca), aa), MaxMarker(MaxMarker(bd, cd), ad), abc);
      { SettleAbsorbs(MaxMarker(ba, ca), MaxMarker(bd, cd), bc, aa, ad, abc); }
      Settle(MaxMarker(Settle(MaxMarker(ba, ca), MaxMarker(bd, cd), bc).add, aa),
             MaxMarker(Settle(MaxMarker(ba, ca), MaxMarker(bd, cd), bc).drop, ad), abc);
      { MergeEntry(b, c, x); MergeEntry(a, MergeSet(b, c), x);
        MaxMarkerLaws(aa, Lookup(MergeSet(b, c).members, x), None);
        MaxMarkerLaws(ad, Lookup(MergeSet(b, c).removed, x), None); }
      EntryOf(MergeSet(a, MergeSet(b, c)), x);
    }
  }

  /** Members and removals are disjoint and every marker is above the baseline. */
  ghost predicate Normal(s: SetState) {
    && s.members.Keys !! s.removed.Keys
    && (forall x :: x in s.members ==> Lt(s.baseline, s.members[x]))
    && (forall x :: x in s.removed ==> Lt(s.baseline, s.removed[x]))
  }

  lemma MergeSetIsNormal(a: SetState, b: SetState)
    ensures Normal(MergeSet(a, b))
  {
  }

  /** Merging a set with itself changes nothing exactly when it is in normal form. */
  lemma MergeSetIdempotent(s: SetState)
    ensures MergeSet(s, s) == s <==> Normal(s)
  {
    if Normal(s) {
      forall x ensures EntryOf(MergeSet(s, s), x) == EntryOf(s, x) {
        MergeEntry(s, s, x);
      }
      SameEntries(MergeSet(s, s), s);
    } else {
      MergeSetIsNormal(s, s);
    }
  }

  /** A set written as one value is not: merging two copies of it drops every member. */
  lemma MergingWrittenSets(members: seq<NodeId>, m: Marker)
    ensures var s := StoredValue(SetValue(members), m).state;
            MergeSet(s, s) == SetState(m, map[], map[])
  {
    MergingTwoWrittenSets(members, m, members, m);
  }

  // ---------------------------------------------------------------- fields, slots and nodes

  function MergeField(existing: FieldState, incoming: FieldState): FieldState {
    if existing.value.Set? && incoming.value.Set? then
      FieldState(Set(MergeSet(existing.value.state, incoming.value.state)), Max(existing.version, incoming.version))
    else if Lt(existing.version, incoming.version) then incoming
    else existing
  }

  function MergeTomb(current: Slot, tomb: Option<Marker>): Slot {
    if tomb.None? || Blocks(current.tomb, tomb.value) || VersionBlocks(current.field, tomb.value) then current
    else Slot(None, tomb)
  }

  function MergeValue(current: Slot, field: Option<FieldState>): Slot {
    if field.None? || Blocks(current.tomb, field.value.version) then current
    else if current.field.Some? then Slot(Some(MergeField(current.field.value, field.value)), None)
    else Slot(field, None)
  }

  function MergeSlot(current: Slot, incoming: Slot): Slot {
    MergeValue(MergeTomb(current, incoming.tomb), incoming.field)
  }

  /** `merged` is `current` with the slots of `incoming` merged into it. */
  ghost predicate MergesNode(current: NodeState, incoming: NodeState, merged: NodeState) {
    merged.id == current.id && forall f :: SlotOf(merged, f) == MergeSlot(SlotOf(current, f), SlotOf(incoming, f))
  }

  function MergedNode(current: NodeState, incoming: NodeState): NodeState {
    var fields := current.fields.Keys + incoming.fields.Keys + current.tombstones.Keys + incoming.tombstones.Keys;
    NodeState(current.id,
              map f | f in fields && MergeSlot(SlotOf(current, f), SlotOf(incoming, f)).field.Some?
                :: MergeSlot(SlotOf(current, f), SlotOf(incoming, f)).field.value,
              map f | f in fields && MergeSlot(SlotOf(current, f), SlotOf(incoming, f)).tomb.Some?
                :: MergeSlot(SlotOf(current, f), SlotOf(incoming, f)).tomb.value)
  }

  /** Merging two node states has one result. */
  lemma MergedNodeIsTheMerge(current: NodeState, incoming: NodeState, merged: NodeState)
    ensures MergesNode(current, incoming, merged) <==> merged == MergedNode(current, incoming)
  {
    var m := MergedNode(current, incoming);
    forall f ensures SlotOf(m, f) == MergeSlot(SlotOf(current, f), SlotOf(incoming, f)) {
    }
    if MergesNode(current, incoming, merged) {
      forall f
        ensures Lookup(merged.fields, f) == Lookup(m.fields, f)
        ensures Lookup(merged.tombstones, f) == Lookup(m.tombstones, f)
      {
        assert SlotOf(merged, f) == SlotOf(m, f);
      }
      SameLookups(merged.fields, m.fields);
      SameLookups(merged.tombstones, m.tombstones);
    }
  }

  ghost predicate IdsMatch(nodes: Nodes) {
    forall n :: n in nodes ==> nodes[n].id == n
  }

  /** `merged` is `nodes` with every node of `snapshot` merged into it. */
  ghost predicate MergesNodes(nodes: Nodes, snapshot: Nodes, merged: Nodes) {
    && merged.Keys == nodes.Keys + snapshot.Keys
    && (forall n :: n in merged ==> merged[n].id == NodeOrNew(nodes, n).id)
    && forall n, f :: SlotAt(merged, n, f) == MergeSlot(SlotAt(nodes, n, f), SlotAt(snapshot, n, f))
  }

  method MergeTombstones(start: NodeState, incoming: map<string, Marker>) returns (current: NodeState)
    ensures current.id == start.id
    ensures forall f :: SlotOf(current, f) == MergeTomb(SlotOf(start, f), Lookup(incoming, f))
  {
    current := start;
    var pending := incoming.Keys;
    while pending != {}
      invariant pending <= incoming.Keys
      invariant current.id == start.id
      invariant forall f :: SlotOf(current, f) ==
                            if f in pending then SlotOf(start, f) else MergeTomb(SlotOf(start, f), Lookup(incoming, f))
      decreases |pending|
    {
      var field :| field in pending;
      pending := pending - {field};
      var tombstone := incoming[field];
      var tombstoneBlocks := field in current.tombstones && Le(tombstone, current.tombstones[field]);
      var fieldBlocks := field in current.fields && Le(tombstone, current.fields[field].version);
      ghost var before := current;
      assert SlotOf(before, field) == SlotOf(start, field);
      if !tombstoneBlocks && !fieldBlocks {
        current := current.(fields := current.fields - {field}, tombstones := current.tombstones[field := tombstone]);
        assert forall f :: f != field ==> SlotOf(current, f) == SlotOf(before, f);
      }
    }
  }

  /** The slots after merging all but the pending fields of `incoming` into `mid`. */
  ghost predicate FieldsBut(mid: NodeState, incoming: NodeState, current: NodeState, pending: set<string>) {
    && current.id == mid.id
    && forall f :: SlotOf(current, f) == if f in pending then SlotOf(mid, f)
                                         else MergeValue(SlotOf(mid, f), Lookup(incoming.fields, f))
  }

  lemma MergedField(mid: NodeState, incoming: NodeState, before: NodeState, after: NodeState, pending: set<string>,
                    field: string)
    requires FieldsBut(mid, incoming, before, pending) && field in pending && after.id == before.id
    requires forall f :: f != field ==> SlotOf(after, f) == SlotOf(before, f)
    requires SlotOf(after, field) == MergeValue(SlotOf(before, field), Lookup(incoming.fields, field))
    ensures FieldsBut(mid, incoming, after, pending - {field})
  {
  }

  method MergeIntoField(current: NodeState, field: string, incoming: FieldState) returns (next: NodeState)
    ensures next.id == current.id
    ensures SlotOf(next, field) == MergeValue(SlotOf(current, field), Some(incoming))
    ensures forall f :: f != field ==> SlotOf(next, f) == SlotOf(current, f)
  {
    next := current;
    if !(field in current.tombstones && Le(incoming.version, current.tombstones[field])) {
      var merged := if field in current.fields then MergeField(current.fields[field], incoming) else incoming;
      next := current.(fields := current.fields[field := merged], tombstones := current.tombstones - {field});
    }
  }

  /** Merges one incoming node state, as `merge_node_state` does with its two loops. */
  method MergeNodeState(start: NodeState, incoming: NodeState) returns (current: NodeState)
    ensures MergesNode(start, incoming, current)
  {
    current := MergeTombstones(start, incoming.tombstones);
    ghost var mid := current;
    var pending := incoming.fields.Keys;
    while pending != {}
      invariant pending <= incoming.fields.Keys && FieldsBut(mid, incoming, current, pending)
      decreases |pending|
    {
      var field :| field in pending;
      var incomingField := incoming.fields[field];
      var next := MergeIntoField(current, field, incomingField);
      MergedField(mid, incoming, current, next, pending, field);
      current, pending := next, pending - {field};
    }
  }

  // ---------------------------------------------------------------- snapshots

  function MarkerRevisions(markers: map<string, Marker>): set<Revision> {
    set k | k in markers :: markers[k].revision
  }

  function ValueRevisions(v: FieldValue): set<Revision> {
    if v.Set? then {v.state.baseline.revision} + MarkerRevisions(v.state.members) + MarkerRevisions(v.state.removed)
    else {}
  }

  function FieldRevisions(f: FieldState): set<Revision> {
    {f.version.revision} + ValueRevisions(f.value)
  }

  /** Every revision a node mentions. */
  function NodeRevisions(s: NodeState): set<Revision> {
    MarkerRevisions(s.tombstones) + set f, r | f in s.fields && r in FieldRevisions(s.fields[f]) :: r
  }

  function Revisions(nodes: Nodes): set<Revision> {
    set n, r | n in nodes && r in NodeRevisions(nodes[n]) :: r
  }

  method ObserveMarkers(start: ClockState, markers: map<string, Marker>) returns (c: ClockState)
    ensures Observes(start, MarkerRevisions(markers), c)
  {
    c := start;
    var pending := markers.Keys;
    ghost var seen: set<Revision> := {};
    while pending != {}
      invariant pending <= markers.Keys
      invariant seen == set k | k in markers && k !in pending :: markers[k].revision
      invariant Observes(start, seen, c)
      decreases |pending|
    {
      var k :| k in pending;
      pending := pending - {k};
      ghost var before := c;
      c := Observed(c, markers[k].revision);
      ObservesCompose(start, seen, before, {markers[k].revision}, c);
      seen := seen + {markers[k].revision};
    }
    assert seen == MarkerRevisions(markers);
  }

  method ObserveNodeState(start: ClockState, node: NodeState) returns (c: ClockState)
    ensures Observes(start, NodeRevisions(node), c)
  {
    c := ObserveMarkers(start, node.tombstones);
    var pending := node.fields.Keys;
    ghost var seen := MarkerRevisions(node.tombstones);
    while pending != {}
      invariant pending <= node.fields.Keys
      invariant seen == MarkerRevisions(node.tombstones) +
                        set f, r | f in node.fields && f !in pending && r in FieldRevisions(node.fields[f]) :: r
      invariant Observes(start, seen, c)
      decreases |pending|
    {
      var f :| f in pending;
      pending := pending - {f};
      ghost var before := c;
      c := ObserveField(c, node.fields[f]);
      ObservesCompose(start, seen, before, FieldRevisions(node.fields[f]), c);
      seen := seen + FieldRevisions(node.fields[f]);
    }
    assert seen == NodeRevisions(node);
  }

  method ObserveField(start: ClockState, field: FieldState) returns (c: ClockState)
    ensures Observes(start, FieldRevisions(field), c)
  {
    c := Observed(start, field.version.revision);
    if field.value.Set? {
      var set_ := field.value.state;
      ghost var c0 := c;
      c := Observed(c, set_.baseline.revision);
      ObservesCompose(start, {field.version.revision}, c0, {set_.baseline.revision}, c);
      ghost var c1 := c;
      c := ObserveMarkers(c, set_.members);
      ObservesCompose(start, {field.version.revision} + {set_.baseline.revision}, c1, MarkerRevisions(set_.members), c);
      ghost var c2 := c;
      c := ObserveMarkers(c, set_.removed);
      ObservesCompose(start, {field.version.revision} + {set_.baseline.revision} + MarkerRevisions(set_.members),
                      c2, MarkerRevisions(set_.removed), c);
      assert FieldRevisions(field) == {field.version.revision} + {set_.baseline.revision}
                                      + MarkerRevisions(set_.members) + MarkerRevisions(set_.removed);
    } else {
      assert FieldRevisions(field) == {field.version.revision};
    }
  }

  /** All nodes of the snapshot but the pending ones are merged. */
  ghost predicate MergedBut(pending: set<NodeId>, start: Nodes, snapshot: Nodes, nodes: Nodes) {
    && nodes.Keys == start.Keys + (snapshot.Keys - pending)
    && (forall n :: n in nodes ==> nodes[n].id == NodeOrNew(start, n).id)
    && forall n, f :: SlotAt(nodes, n, f) == if n in pending then SlotAt(start, n, f)
                                             else MergeSlot(SlotAt(start, n, f), SlotAt(snapshot, n, f))
  }

  lemma MergedOneMore(pending: set<NodeId>, start: Nodes, snapshot: Nodes, nodes: Nodes, n: NodeId, merged: NodeState)
    requires MergedBut(pending, start, snapshot, nodes)
    requires n in pending && n in snapshot
    requires MergesNode(NodeOrNew(nodes, n), snapshot[n], merged)
    ensures MergedBut(pending - {n}, start, snapshot, nodes[n := merged])
  {
    var after := nodes[n := merged];
    forall m, f
      ensures SlotAt(after, m, f) == if m in pending - {n} then SlotAt(start, m, f)
                                     else MergeSlot(SlotAt(start, m, f), SlotAt(snapshot, m, f))
    {
      assert SlotAt(nodes, n, f) == SlotAt(start, n, f);
      assert SlotOf(NodeOrNew(nodes, n), f) == SlotAt(nodes, n, f);
      assert m != n ==> SlotAt(after, m, f) == SlotAt(nodes, m, f);
    }
  }

  lemma MergedEnds(start: Nodes, snapshot: Nodes, nodes: Nodes)
    ensures MergedBut(snapshot.Keys, start, snapshot, start)
    ensures MergedBut({}, start, snapshot, nodes) ==> MergesNodes(start, snapshot, nodes)
  {
    forall n, f | n !in snapshot ensures MergeSlot(SlotAt(start, n, f), SlotAt(snapshot, n, f)) == SlotAt(start, n, f) {
    }
  }

  /** The revisions of all nodes but the pending ones. */
  function RevisionsBut(pending: set<NodeId>, nodes: Nodes): set<Revision> {
    set n, r | n in nodes && n !in pending && r in NodeRevisions(nodes[n]) :: r
  }

  lemma RevisionsOneMore(pending: set<NodeId>, nodes: Nodes, n: NodeId)
    requires n in pending && n in nodes
    ensures RevisionsBut(pending - {n}, nodes) == RevisionsBut(pending, nodes) + NodeRevisions(nodes[n])
  {
  }

  method ObserveNext(ghost clock: ClockState, c: ClockState, snapshot: Nodes, ghost pending: set<NodeId>, n: NodeId)
    returns (next: ClockState)
    requires n in pending && n in snapshot
    requires Observes(clock, RevisionsBut(pending, snapshot), c)
    ensures Observes(clock, RevisionsBut(pending - {n}, snapshot), next)
  {
    next := ObserveNodeState(c, snapshot[n]);
    ObservesCompose(clock, RevisionsBut(pending, snapshot), c, NodeRevisions(snapshot[n]), next);
    RevisionsOneMore(pending, snapshot, n);
  }

  method MergeNext(ghost start: Nodes, nodes: Nodes, snapshot: Nodes, ghost pending: set<NodeId>, n: NodeId)
    returns (next: Nodes)
    requires n in pending && n in snapshot
    requires IdsMatch(snapshot) ==> MergedBut(pending, start, snapshot, nodes)
    ensures IdsMatch(snapshot) ==> MergedBut(pending - {n}, start, snapshot, next)
  {
    var incoming := snapshot[n];
    var merged := MergeNodeState(NodeOrNew(nodes, incoming.id), incoming);
    next := nodes[incoming.id := merged];
    if IdsMatch(snapshot) {
      MergedOneMore(pending, start, snapshot, nodes, n, merged);
    }
  }

  /** Merges a snapshot, node by node, and observes its revisions. */
  method MergeSnapshot(start: Nodes, clock: ClockState, snapshot: Nodes) returns (nodes: Nodes, c: ClockState)
    ensures Observes(clock, Revisions(snapshot), c)
    ensures IdsMatch(snapshot) ==> MergesNodes(start, snapshot, nodes)
  {
    nodes, c := start, clock;
    var pending := snapshot.Keys;
    assert RevisionsBut(pending, snapshot) == {};
    MergedEnds(start, snapshot, nodes);
    while pending != {}
      invariant pending <= snapshot.Keys
      invariant Observes(clock, RevisionsBut(pending, snapshot), c)
      invariant IdsMatch(snapshot) ==> MergedBut(pending, start, snapshot, nodes)
      decreases |pending|
    {
      var n :| n in pending;
      c := ObserveNext(clock, c, snapshot, pending, n);
      nodes := MergeNext(start, nodes, snapshot, pending, n);
      pending := pending - {n};
    }
    assert RevisionsBut({}, snapshot) == Revisions(snapshot);
    MergedEnds(start, snapshot, nodes);
  }

  // ---------------------------------------------------------------- agreement with replay

  /** No set is written as one value. */
  ghost predicate PlainValues(ops: set<Operation>) {
    forall o :: o in ops && o.action.SetField? ==> !o.action.value.SetValue?
  }

  predicate WritesSet(o: Operation) {
    o.action.SetField? && o.action.value.SetValue?
  }

  function Newer(a: Operation, b: Operation): Operation {
    if Lt(MarkerOf(a), MarkerOf(b)) then b else a
  }

  /** Merging two sets that were written as values keeps the newer baseline and no member. */
  lemma MergingTwoWrittenSets(a: seq<NodeId>, m: Marker, b: seq<NodeId>, k: Marker)
    ensures MergeSet(StoredValue(SetValue(a), m).state, StoredValue(SetValue(b), k).state) ==
            SetState(Max(m, k), map[], map[])
  {
    MarkerOrder();
    var s, t := StoredValue(SetValue(a), m).state, StoredValue(SetValue(b), k).state;
    forall x ensures EntryOf(MergeSet(s, t), x) == EntryOf(SetState(Max(m, k), map[], map[]), x) {
      MergeEntry(s, t, x);
    }
    SameEntries(MergeSet(s, t), SetState(Max(m, k), map[], map[]));
  }

  /**
    Merging the slots that two writes leave agrees with replaying both, which leaves the newer, if and
    only if they do not both write whole sets, or the newer writes the empty set.
   */
  lemma MergingWrites(a: Operation, b: Operation)
    requires !IsMemberOp(a) && !IsMemberOp(b) && (MarkerOf(a) == MarkerOf(b) ==> a == b)
    ensures MergeSlot(Written(a), Written(b)) == Written(Newer(a, b))
            <==> (WritesSet(a) && WritesSet(b) ==> Newer(a, b).action.value.members == [])
  {
    MarkerOrder();
    if WritesSet(a) && WritesSet(b) {
      var w := Newer(a, b);
      MergingTwoWrittenSets(a.action.value.members, MarkerOf(a), b.action.value.members, MarkerOf(b));
      assert MergeSlot(Written(a), Written(b)) ==
             Slot(Some(FieldState(Set(SetState(MarkerOf(w), map[], map[])), MarkerOf(w))), None);
      if w.action.value.members != [] {
        assert w.action.value.members[0] in StoredValue(w.action.value, MarkerOf(w)).state.members;
      }
    }
  }

  /** Both sides last wrote whole sets to the slot, and the newer is not empty. */
  ghost predicate SetClash(a: set<Operation>, b: set<Operation>, n: NodeId, f: string) {
    exists wa, wb :: NewestWrite(wa, a, EMPTY_SLOT, n, f) && NewestWrite(wb, b, EMPTY_SLOT, n, f) && Clash(wa, wb)
  }

  predicate Clash(a: Operation, b: Operation) {
    WritesSet(a) && WritesSet(b) && Newer(a, b).action.value.members != []
  }

  ghost predicate NoSetClash(a: set<Operation>, b: set<Operation>) {
    forall n, f :: !SetClash(a, b, n, f)
  }

  lemma PlainNoClash(a: set<Operation>, b: set<Operation>)
    requires PlainValues(a + b)
    ensures NoSetClash(a, b)
  {
    forall n, f ensures !SetClash(a, b, n, f) {
      assert forall w :: NewestWrite(w, a, EMPTY_SLOT, n, f) ==> w in a + b;
    }
  }

  /** Two slots that were both written. */
  lemma RegisterMergeBoth(a: set<Operation>, b: set<Operation>, n: NodeId, f: string, wa: Operation, wb: Operation)
    requires MarkersIdentify(a + b)
    requires NewestWrite(wa, a, EMPTY_SLOT, n, f) && NewestWrite(wb, b, EMPTY_SLOT, n, f)
    ensures RegisterJoin(EMPTY_SLOT, a + b, n, f, MergeSlot(Written(wa), Written(wb))) <==> !SetClash(a, b, n, f)
  {
    MarkerOrder();
    assert wa in a + b && wb in a + b;
    var w := Newer(wa, wb);
    assert NewestWrite(w, a + b, EMPTY_SLOT, n, f);
    MergingWrites(wa, wb);
    assert SetClash(a, b, n, f) <==> Clash(wa, wb) by {
      forall va, vb | NewestWrite(va, a, EMPTY_SLOT, n, f) && NewestWrite(vb, b, EMPTY_SLOT, n, f)
        ensures va == wa && vb == wb
      {
        assert va in a + b && vb in a + b;
      }
    }
    assert RegisterJoin(EMPTY_SLOT, a + b, n, f, Written(w));
    if RegisterJoin(EMPTY_SLOT, a + b, n, f, MergeSlot(Written(wa), Written(wb))) {
      RegisterJoinUnique(EMPTY_SLOT, a + b, n, f, Written(w), MergeSlot(Written(wa), Written(wb)));
    }
  }

  lemma RegisterMerge(a: set<Operation>, b: set<Operation>, n: NodeId, f: string, x: Slot, y: Slot)
    requires MarkersIdentify(a + b)
    requires RegisterJoin(EMPTY_SLOT, a, n, f, x) && RegisterJoin(EMPTY_SLOT, b, n, f, y)
    ensures RegisterJoin(EMPTY_SLOT, a + b, n, f, MergeSlot(x, y)) <==> !SetClash(a, b, n, f)
  {
    if wa :| NewestWrite(wa, a, EMPTY_SLOT, n, f) && x == Written(wa) {
      if wb :| NewestWrite(wb, b, EMPTY_SLOT, n, f) && y == Written(wb) {
        RegisterMergeBoth(a, b, n, f, wa, wb);
      } else {
        assert NewestWrite(wa, a + b, EMPTY_SLOT, n, f) && MergeSlot(x, y) == x;
      }
    } else if wb :| NewestWrite(wb, b, EMPTY_SLOT, n, f) && y == Written(wb) {
      assert NewestWrite(wb, a + b, EMPTY_SLOT, n, f) && MergeSlot(x, y) == y;
    }
  }

  lemma LiveUnion(a: set<Operation>, b: set<Operation>, n: NodeId, f: string)
    ensures forall o :: Live(o, a + b, EMPTY_SLOT, n, f) <==>
                        Live(o, a, EMPTY_SLOT, n, f) || Live(o, b, EMPTY_SLOT, n, f)
  {
  }

  /** One side has no operation on the member. */
  lemma MemberMergeOne(a: set<Operation>, b: set<Operation>, n: NodeId, f: string, s: SetState, t: SetState, x: NodeId,
                       wa: Operation)
    requires AboveZero(a) && s.baseline == t.baseline == ZERO_MARKER
    requires NewestFor(wa, x, a, EMPTY_SLOT, n, f) && Records(s, x, wa)
    requires EntryOf(t, x) == Entry(None, None) && forall o :: Live(o, b, EMPTY_SLOT, n, f) ==> o.action.member != x
    ensures MemberJoin(x, a + b, EMPTY_SLOT, n, f, MergeSet(s, t)) &&
            MemberJoin(x, b + a, EMPTY_SLOT, n, f, MergeSet(t, s))
  {
    assert wa in a;
    LiveUnion(a, b, n, f);
    LiveUnion(b, a, n, f);
    MergeEntry(s, t, x);
    MergeEntry(t, s, x);
    assert NewestFor(wa, x, a + b, EMPTY_SLOT, n, f) && Records(MergeSet(s, t), x, wa);
    assert NewestFor(wa, x, b + a, EMPTY_SLOT, n, f) && Records(MergeSet(t, s), x, wa);
  }

  lemma MemberMerge(a: set<Operation>, b: set<Operation>, n: NodeId, f: string, s: SetState, t: SetState, x: NodeId)
    requires MarkersIdentify(a + b) && AboveZero(a + b)
    requires s.baseline == t.baseline == ZERO_MARKER
    requires MemberJoin(x, a, EMPTY_SLOT, n, f, s) && MemberJoin(x, b, EMPTY_SLOT, n, f, t)
    ensures MemberJoin(x, a + b, EMPTY_SLOT, n, f, MergeSet(s, t))
  {
    if wa :| NewestFor(wa, x, a, EMPTY_SLOT, n, f) && Records(s, x, wa) {
      if wb :| NewestFor(wb, x, b, EMPTY_SLOT, n, f) && Records(t, x, wb) {
        MemberMergeBoth(a, b, n, f, s, t, x, wa, wb);
      } else {
        MemberMergeOne(a, b, n, f, s, t, x, wa);
      }
    } else if wb :| NewestFor(wb, x, b, EMPTY_SLOT, n, f) && Records(t, x, wb) {
      MemberMergeOne(b, a, n, f, t, s, x, wb);
    } else {
      LiveUnion(a, b, n, f);
      MergeEntry(s, t, x);
    }
  }

  lemma MemberMergeBoth(a: set<Operation>, b: set<Operation>, n: NodeId, f: string, s: SetState, t: SetState,
                        x: NodeId, wa: Operation, wb: Operation)
    requires MarkersIdentify(a + b) && AboveZero(a + b)
    requires s.baseline == t.baseline == ZERO_MARKER
    requires NewestFor(wa, x, a, EMPTY_SLOT, n, f) && Records(s, x, wa)
    requires NewestFor(wb, x, b, EMPTY_SLOT, n, f) && Records(t, x, wb)
    ensures MemberJoin(x, a + b, EMPTY_SLOT, n, f, MergeSet(s, t))
  {
    assert wa in a + b && wb in a + b;
    MergeEntry(s, t, x);
    LiveUnion(a, b, n, f);
    var w := if Lt(MarkerOf(wa), MarkerOf(wb)) then wb else wa;
    assert NewestFor(w, x, a + b, EMPTY_SLOT, n, f) by { MarkerOrder(); }
    assert Records(MergeSet(s, t), x, w) by { MarkerOrder(); }
  }

  lemma SetMerge(a: set<Operation>, b: set<Operation>, n: NodeId, f: string, x: Slot, y: Slot)
    requires MarkersIdentify(a + b) && AboveZero(a + b)
    requires SetJoin(EMPTY_SLOT, a, n, f, x) && SetJoin(EMPTY_SLOT, b, n, f, y)
    ensures SetJoin(EMPTY_SLOT, a + b, n, f, MergeSlot(x, y))
  {
    LiveUnion(a, b, n, f);
    if (exists o :: Live(o, a, EMPTY_SLOT, n, f)) && (exists o :: Live(o, b, EMPTY_SLOT, n, f)) {
      var s, t := x.field.value.value.state, y.field.value.value.state;
      forall m ensures MemberJoin(m, a + b, EMPTY_SLOT, n, f, MergeSet(s, t)) {
        assert MemberJoin(m, a, EMPTY_SLOT, n, f, s) && MemberJoin(m, b, EMPTY_SLOT, n, f, t);
        MemberMerge(a, b, n, f, s, t, m);
      }
      assert VersionJoin(a + b, EMPTY_SLOT, n, f, Max(x.field.value.version, y.field.value.version)) by {
        MarkerOrder();
      }
    } else if exists o :: Live(o, a, EMPTY_SLOT, n, f) {
      assert MergeSlot(x, y) == x;
      SetJoinWiden(a, a + b, n, f, x);
    } else if exists o :: Live(o, b, EMPTY_SLOT, n, f) {
      assert MergeSlot(x, y) == y;
      SetJoinWiden(b, a + b, n, f, y);
    }
  }

  /** Only the live operations of a slot matter to its join. */
  lemma SetJoinWiden(a: set<Operation>, c: set<Operation>, n: NodeId, f: string, x: Slot)
    requires SetJoin(EMPTY_SLOT, a, n, f, x)
    requires forall o :: Live(o, a, EMPTY_SLOT, n, f) <==> Live(o, c, EMPTY_SLOT, n, f)
    ensures SetJoin(EMPTY_SLOT, c, n, f, x)
  {
    if exists o :: Live(o, a, EMPTY_SLOT, n, f) {
      var s := x.field.value.value.state;
      forall m ensures MemberJoin(m, c, EMPTY_SLOT, n, f, s) {
        assert MemberJoin(m, a, EMPTY_SLOT, n, f, s);
        if w :| NewestFor(w, m, a, EMPTY_SLOT, n, f) && Records(s, m, w) {
          assert NewestFor(w, m, c, EMPTY_SLOT, n, f);
        }
      }
    }
  }

  lemma MembersNoClash(a: set<Operation>, b: set<Operation>, n: NodeId, f: string)
    requires Unmixed(a + b) && HasMemberOps(a + b, n, f)
    ensures !SetClash(a, b, n, f)
  {
    var m :| m in a + b && At(m, n, f) && IsMemberOp(m);
    forall w ensures !NewestWrite(w, a, EMPTY_SLOT, n, f) {
      if w in a && At(w, n, f) {
        assert w in a + b && SameSlot(m, w);
      }
    }
  }

  lemma SlotMerge(a: set<Operation>, b: set<Operation>, n: NodeId, f: string, x: Slot, y: Slot)
    requires Unmixed(a + b) && MarkersIdentify(a + b) && AboveZero(a + b)
    requires SlotJoin(EMPTY_SLOT, a, n, f, x) && SlotJoin(EMPTY_SLOT, b, n, f, y)
    ensures SlotJoin(EMPTY_SLOT, a + b, n, f, MergeSlot(x, y)) <==> !SetClash(a, b, n, f)
  {
    if HasMemberOps(a + b, n, f) {
      assert !SetClash(a, b, n, f) by {
        MembersNoClash(a, b, n, f);
      }
      var m :| m in a + b && At(m, n, f) && IsMemberOp(m);
      assert forall o :: o in a + b && At(o, n, f) ==> SameSlot(m, o);
      if !HasMemberOps(a, n, f) {
        assert forall o :: o in a ==> o in a + b;
        assert x == EMPTY_SLOT;
      }
      if !HasMemberOps(b, n, f) {
        assert forall o :: o in b ==> o in a + b;
        assert y == EMPTY_SLOT;
      }
      SetMerge(a, b, n, f, x, y);
    } else {
      assert !HasMemberOps(a, n, f) by { assert forall o :: o in a ==> o in a + b; }
      assert !HasMemberOps(b, n, f) by { assert forall o :: o in b ==> o in a + b; }
      RegisterMerge(a, b, n, f, x, y);
    }
  }

  ghost predicate Replicable(ops: set<Operation>) {
    Mergeable(map[], ops) && PlainValues(ops)
  }

  lemma MergeJoins(a: seq<Operation>, b: seq<Operation>, merged: Nodes)
    requires Mergeable(map[], Elements(a) + Elements(b))
    requires MergesNodes(Replay(map[], a), Replay(map[], b), merged)
    ensures Joins(map[], Elements(a) + Elements(b), merged) <==> NoSetClash(Elements(a), Elements(b))
  {
    var x, y := Replay(map[], a), Replay(map[], b);
    var ops := Elements(a) + Elements(b);
    Restrict(Elements(a), ops);
    Restrict(Elements(b), ops);
    ReplayJoins(map[], a);
    ReplayJoins(map[], b);
    JoinsMerge(Elements(a), Elements(b), x, y, merged);
  }

  /** Merging the joins of two operation sets gives the join of their union if and only if no whole sets clash. */
  lemma JoinsMerge(a: set<Operation>, b: set<Operation>, x: Nodes, y: Nodes, merged: Nodes)
    requires Mergeable(map[], a + b)
    requires Joins(map[], a, x) && Joins(map[], b, y)
    requires MergesNodes(x, y, merged)
    ensures Joins(map[], a + b, merged) <==> NoSetClash(a, b)
  {
    assert merged.Keys == set o | o in a + b :: o.action.node by {
      NodesUnion(a, b);
    }
    JoinsMergeIds(a, x, y, merged);
    JoinsMergeSlots(a, b, x, y, merged);
    JoinsFromEmpty(a + b, merged);
  }

  lemma JoinsFromEmpty(ops: set<Operation>, result: Nodes)
    requires result.Keys == set o | o in ops :: o.action.node
    requires forall n :: n in result ==> result[n].id == n
    ensures Joins(map[], ops, result) <==> SlotsJoin(ops, result)
  {
    var none: Nodes := map[];
    assert forall n, f :: SlotAt(none, n, f) == EMPTY_SLOT;
    if Joins(map[], ops, result) {
      forall n, f ensures SlotJoin(EMPTY_SLOT, ops, n, f, SlotAt(result, n, f)) {
        assert SlotJoin(SlotAt(none, n, f), ops, n, f, SlotAt(result, n, f));
      }
    }
  }

  ghost predicate SlotsJoin(ops: set<Operation>, result: Nodes) {
    forall n, f :: SlotJoin(EMPTY_SLOT, ops, n, f, SlotAt(result, n, f))
  }

  lemma JoinsMergeSlots(a: set<Operation>, b: set<Operation>, x: Nodes, y: Nodes, merged: Nodes)
    requires Mergeable(map[], a + b)
    requires Joins(map[], a, x) && Joins(map[], b, y)
    requires forall n, f :: SlotAt(merged, n, f) == MergeSlot(SlotAt(x, n, f), SlotAt(y, n, f))
    ensures SlotsJoin(a + b, merged) <==> NoSetClash(a, b)
  {
    if SlotsJoin(a + b, merged) {
      forall n, f ensures !SetClash(a, b, n, f) {
        assert SlotJoin(EMPTY_SLOT, a + b, n, f, SlotAt(merged, n, f));
        JoinsMergeAt(a, b, x, y, n, f);
      }
    }
    if NoSetClash(a, b) {
      forall n, f ensures SlotJoin(EMPTY_SLOT, a + b, n, f, SlotAt(merged, n, f)) {
        JoinsMergeAt(a, b, x, y, n, f);
      }
    }
  }

  lemma NodesUnion(a: set<Operation>, b: set<Operation>)
    ensures (set o | o in a + b :: o.action.node) ==
            (set o | o in a :: o.action.node) + (set o | o in b :: o.action.node)
  {
  }

  lemma JoinsMergeIds(a: set<Operation>, x: Nodes, y: Nodes, merged: Nodes)
    requires Joins(map[], a, x) && MergesNodes(x, y, merged)
    ensures forall n :: n in merged ==> merged[n].id == n
  {
    forall n | n in merged ensures merged[n].id == n {
      assert merged[n].id == NodeOrNew(x, n).id;
      if n in x {
        assert x[n].id == NodeOrNew(map[], n).id;
      }
    }
  }

  lemma JoinsMergeAt(a: set<Operation>, b: set<Operation>, x: Nodes, y: Nodes, n: NodeId, f: string)
    requires Mergeable(map[], a + b)
    requires Joins(map[], a, x) && Joins(map[], b, y)
    ensures SlotJoin(EMPTY_SLOT, a + b, n, f, MergeSlot(SlotAt(x, n, f), SlotAt(y, n, f))) <==> !SetClash(a, b, n, f)
  {
    var none: Nodes := map[];
    assert SlotAt(none, n, f) == EMPTY_SLOT;
    assert SlotJoin(SlotAt(none, n, f), a, n, f, SlotAt(x, n, f));
    assert SlotJoin(SlotAt(none, n, f), b, n, f, SlotAt(y, n, f));
    SlotMerge(a, b, n, f, SlotAt(x, n, f), SlotAt(y, n, f));
  }

  lemma Restrict(small: set<Operation>, large: set<Operation>)
    requires small <= large && Mergeable(map[], large)
    ensures Mergeable(map[], small) && (PlainValues(large) ==> PlainValues(small))
  {
    assert forall o :: o in small ==> o in large;
  }

  /**
    Merging the states two operation sequences lead to gives the state their concatenation leads to
    if and only if at no slot both sides last wrote whole sets of which the newer is not empty.
   */
  lemma MergeIsExact(a: seq<Operation>, b: seq<Operation>, merged: Nodes)
    requires Mergeable(map[], Elements(a) + Elements(b))
    requires MergesNodes(Replay(map[], a), Replay(map[], b), merged)
    ensures merged == Replay(map[], a + b) <==> NoSetClash(Elements(a), Elements(b))
  {
    ElementsAppend(a, b);
    MergeJoins(a, b, merged);
    ReplayJoins(map[], a + b);
    if Joins(map[], Elements(a + b), merged) {
      JoinUnique(map[], Elements(a + b), merged, Replay(map[], a + b));
    }
  }

  /** In particular it does if no set is written as one value. */
  lemma MergeAgreesWithReplay(a: seq<Operation>, b: seq<Operation>, merged: Nodes)
    requires Replicable(Elements(a) + Elements(b))
    requires MergesNodes(Replay(map[], a), Replay(map[], b), merged)
    ensures merged == Replay(map[], a + b)
  {
    PlainNoClash(Elements(a), Elements(b));
    MergeIsExact(a, b, merged);
  }

  // ---------------------------------------------------------------- the clock after a merge

  function SlotRevisions(slot: Slot): set<Revision> {
    (if slot.tomb.Some? then {slot.tomb.value.revision} else {})
    + (if slot.field.Some? then FieldRevisions(slot.field.value) else {})
  }

  lemma RevisionsBySlot(nodes: Nodes)
    ensures forall r :: r in Revisions(nodes) ==> exists n, f :: r in SlotRevisions(SlotAt(nodes, n, f))
    ensures forall n, f, r :: r in SlotRevisions(SlotAt(nodes, n, f)) ==> r in Revisions(nodes)
  {
    forall r | r in Revisions(nodes) ensures exists n, f :: r in SlotRevisions(SlotAt(nodes, n, f)) {
      var n :| n in nodes && r in NodeRevisions(nodes[n]);
      if r in MarkerRevisions(nodes[n].tombstones) {
        var f :| f in nodes[n].tombstones && r == nodes[n].tombstones[f].revision;
        assert r in SlotRevisions(SlotAt(nodes, n, f));
      } else {
        var f :| f in nodes[n].fields && r in FieldRevisions(nodes[n].fields[f]);
        assert r in SlotRevisions(SlotAt(nodes, n, f));
      }
    }
    forall n, f, r | r in SlotRevisions(SlotAt(nodes, n, f)) ensures r in Revisions(nodes) {
      assert n in nodes;
      assert r in NodeRevisions(nodes[n]);
    }
  }

  /** A slot reached from nothing mentions only revisions of its operations, or zero. */
  lemma SlotMentions(ops: set<Operation>, n: NodeId, f: string, slot: Slot, r: Revision)
    requires PlainValues(ops)
    requires SlotJoin(EMPTY_SLOT, ops, n, f, slot)
    requires r in SlotRevisions(slot)
    ensures r == ZERO_MARKER.revision || r in RevisionsOf(ops)
  {
    if HasMemberOps(ops, n, f) {
      assert exists o :: Live(o, ops, EMPTY_SLOT, n, f);
      var s := slot.field.value.value.state;
      if r in MarkerRevisions(s.members) {
        var x :| x in s.members && s.members[x].revision == r;
        assert MemberJoin(x, ops, EMPTY_SLOT, n, f, s);
      } else if r in MarkerRevisions(s.removed) {
        var x :| x in s.removed && s.removed[x].revision == r;
        assert MemberJoin(x, ops, EMPTY_SLOT, n, f, s);
      }
    }
  }

  /** A slot reached from nothing mentions a revision at least as late as each of its operations. */
  lemma SlotCovers(ops: set<Operation>, slot: Slot, o: Operation)
    requires AboveZero(ops) && Unmixed(ops) && o in ops
    requires SlotJoin(EMPTY_SLOT, ops, o.action.node, o.action.field, slot)
    ensures exists r :: r in SlotRevisions(slot) && !RevisionLess(r, o.revision)
  {
    RevisionOrder();
    var n, f := o.action.node, o.action.field;
    assert At(o, n, f);
    if HasMemberOps(ops, n, f) {
      var m :| m in ops && At(m, n, f) && IsMemberOp(m);
      assert SameSlot(m, o);
      assert Live(o, ops, EMPTY_SLOT, n, f);
      assert slot.field.value.version.revision in SlotRevisions(slot);
    } else {
      assert Outdates(o, EMPTY_SLOT);
      var w :| NewestWrite(w, ops, EMPTY_SLOT, n, f) && slot == Written(w);
      assert MarkerOf(w).revision in SlotRevisions(slot);
    }
  }

  lemma StateMentions(ops: set<Operation>, nodes: Nodes)
    requires Replicable(ops) && Joins(map[], ops, nodes)
    ensures forall r :: r in Revisions(nodes) ==> r == ZERO_MARKER.revision || r in RevisionsOf(ops)
  {
    var none: Nodes := map[];
    RevisionsBySlot(nodes);
    forall r | r in Revisions(nodes) ensures r == ZERO_MARKER.revision || r in RevisionsOf(ops) {
      var n, f :| r in SlotRevisions(SlotAt(nodes, n, f));
      assert SlotJoin(SlotAt(none, n, f), ops, n, f, SlotAt(nodes, n, f));
      SlotMentions(ops, n, f, SlotAt(nodes, n, f), r);
    }
  }

  lemma StateCovers(ops: set<Operation>, nodes: Nodes)
    requires Replicable(ops) && Joins(map[], ops, nodes)
    ensures forall o :: o in ops ==> exists r :: r in Revisions(nodes) && !RevisionLess(r, o.revision)
  {
    var none: Nodes := map[];
    RevisionsBySlot(nodes);
    forall o | o in ops ensures exists r :: r in Revisions(nodes) && !RevisionLess(r, o.revision) {
      var n, f := o.action.node, o.action.field;
      assert SlotJoin(SlotAt(none, n, f), ops, n, f, SlotAt(nodes, n, f));
      SlotCovers(ops, SlotAt(nodes, n, f), o);
    }
  }

  lemma ElementsAppend(a: seq<Operation>, b: seq<Operation>)
    ensures Elements(a + b) == Elements(a) + Elements(b)
  {
  }

  /** The clock of a replica that merges a state is the clock of one that replays its operations. */
  lemma MergedClock(start: ClockState, a: seq<Operation>, b: seq<Operation>, c: ClockState)
    requires Replicable(Elements(b))
    requires Observes(ReplayClock(start, a), Revisions(Replay(map[], b)), c)
    ensures c == ReplayClock(start, a + b)
  {
    var mid := ReplayClock(start, a);
    ReplayJoins(map[], b);
    StateMentions(Elements(b), Replay(map[], b));
    StateCovers(Elements(b), Replay(map[], b));
    assert Observes(mid, RevisionsOf(Elements(b)), c) by {
      ObservesThrough(mid, Revisions(Replay(map[], b)), RevisionsOf(Elements(b)), c);
    }
    ReplayClockObserves(start, a);
    ReplayClockObserves(start, a + b);
    ObservesCompose(start, RevisionsOf(Elements(a)), mid, RevisionsOf(Elements(b)), c);
    assert RevisionsOf(Elements(a)) + RevisionsOf(Elements(b)) == RevisionsOf(Elements(a + b)) by {
      ElementsAppend(a, b);
    }
    ObservesUnique(start, RevisionsOf(Elements(a + b)), c, ReplayClock(start, a + b));
  }

  lemma ObservesThrough(start: ClockState, some: set<Revision>, all: set<Revision>, c: ClockState)
    requires Observes(start, some, c)
    requires forall r :: r in some ==> r == ZERO_MARKER.revision || r in all
    requires forall r :: r in all ==> exists q :: q in some && !RevisionLess(q, r)
    ensures Observes(start, all, c)
  {
    forall r | r in all ensures Dominates(c, r) {
      var q :| q in some && !RevisionLess(q, r);
      assert Dominates(c, q);
    }
    if !SamePosition(c, Current(start)) {
      var r :| r in some && SamePosition(c, r);
      assert r in all;
    }
  }

  /**
    Snapshot merge agrees with operation replay: a replica that replayed `a` and merges the snapshot
    of one that replayed `b` ends with the graph and the clock of one that replayed both.
   */
  method MergeReplicas(ghost start: ClockState, ghost a: seq<Operation>, ghost b: seq<Operation>,
                       nodes: Nodes, clock: ClockState, snapshot: Nodes)
    returns (merged: Nodes, c: ClockState)
    requires Replicable(Elements(a) + Elements(b))
    requires nodes == Replay(map[], a) && clock == ReplayClock(start, a) && snapshot == Replay(map[], b)
    ensures merged == Replay(map[], a + b)
    ensures c == ReplayClock(start, a + b)
  {
    Restrict(Elements(b), Elements(a) + Elements(b));
    ReplayJoins(map[], b);
    assert IdsMatch(snapshot);
    merged, c := MergeSnapshot(nodes, clock, snapshot);
    MergeAgreesWithReplay(a, b, merged);
    MergedClock(start, a, b, c);
  }

  /** On states reached by operations, merging is commutative. */
  lemma MergeCommutes(a: seq<Operation>, b: seq<Operation>, ab: Nodes, ba: Nodes)
    requires Replicable(Elements(a) + Elements(b))
    requires MergesNodes(Replay(map[], a), Replay(map[], b), ab)
    requires MergesNodes(Replay(map[], b), Replay(map[], a), ba)
    ensures ab == ba
  {
    MergeAgreesWithReplay(a, b, ab);
    ElementsAppend(a, b);
    ElementsAppend(b, a);
    assert Elements(a) + Elements(b) == Elements(b) + Elements(a);
    MergeAgreesWithReplay(b, a, ba);
    StrongConvergence(map[], ClockState("", 0, 0, 0), a + b, b + a);
  }

  /** On states reached by operations, merging is idempotent. */
  lemma MergeIdempotent(a: seq<Operation>, aa: Nodes)
    requires Replicable(Elements(a))
    requires MergesNodes(Replay(map[], a), Replay(map[], a), aa)
    ensures aa == Replay(map[], a)
  {
    assert Elements(a) + Elements(a) == Elements(a) == Elements(a + a);
    MergeAgreesWithReplay(a, a, aa);
    StrongConvergence(map[], ClockState("", 0, 0, 0), a + a, a);
  }
}
