/**
  The compacting operation queue: one operation per key, kept at the position of the key's
  first occurrence, with a map from keys to positions.
 */
module Compaction {
  import opened Clock
  import opened Graph
  import opened Convergence

  /** What an operation overwrites: a whole field, or one member of a set. */
  datatype Key = FieldKey(node: NodeId, field: string) | MemberKey(node: NodeId, field: string, member: NodeId)

  function KeyOf(op: Operation): Key {
    match op.action
    case SetField(node, field, _) => FieldKey(node, field)
    case DeleteField(node, field) => FieldKey(node, field)
    case AddMember(node, field, member) => MemberKey(node, field, member)
    case RemoveMember(node, field, member) => MemberKey(node, field, member)
  }

  predicate Member(op: Operation, member: NodeId) {
    (op.action.AddMember? || op.action.RemoveMember?) && op.action.member == member
  }

  /** Operations share a key if and only if they name one field and both write all of it, or one member of it. */
  lemma KeyIsTheTarget(a: Operation, b: Operation)
    ensures KeyOf(a) == KeyOf(b) <==>
            && a.action.node == b.action.node && a.action.field == b.action.field
            && forall member :: Member(a, member) <==> Member(b, member)
  {
    if IsMemberOp(a) {
      assert Member(a, a.action.member);
    }
    if IsMemberOp(b) {
      assert Member(b, b.action.member);
    }
  }

  ghost predicate DistinctKeys(ops: seq<Operation>) {
    forall i, j :: 0 <= i < j < |ops| ==> KeyOf(ops[i]) != KeyOf(ops[j])
  }

  ghost predicate HasKey(ops: seq<Operation>, key: Key) {
    exists i :: 0 <= i < |ops| && KeyOf(ops[i]) == key
  }

  /** The map sends exactly the queued keys to their positions. */
  ghost predicate Positions(ops: seq<Operation>, indices: map<Key, nat>) {
    && (forall i :: 0 <= i < |ops| ==> KeyOf(ops[i]) in indices && indices[KeyOf(ops[i])] == i)
    && (forall k :: k in indices ==> indices[k] < |ops| && KeyOf(ops[indices[k]]) == k)
  }

  /** Positions are a bijection with the keys, and there is only one such map. */
  lemma PositionsUnique(ops: seq<Operation>, a: map<Key, nat>, b: map<Key, nat>)
    requires Positions(ops, a) && Positions(ops, b)
    ensures a == b
    ensures DistinctKeys(ops)
  {
    assert forall k :: k in a ==> k in b && a[k] == b[k];
    assert forall k :: k in b ==> k in a;
  }

  lemma SuffixPositions(ops: seq<Operation>, indices: map<Key, nat>, count: nat)
    requires Positions(ops, indices) && count <= |ops|
    ensures Positions(ops[count..], map k | k in indices && indices[k] >= count :: indices[k] - count)
  {
    var kept := map k | k in indices && indices[k] >= count :: indices[k] - count;
    forall i | 0 <= i < |ops[count..]| ensures KeyOf(ops[count..][i]) in kept && kept[KeyOf(ops[count..][i])] == i {
      assert ops[count..][i] == ops[count + i];
    }
    forall k | k in kept ensures kept[k] < |ops[count..]| && KeyOf(ops[count..][kept[k]]) == k {
      assert ops[count..][kept[k]] == ops[indices[k]];
    }
  }

  /** Queueing an operation: the later revision takes the key's place. */
  ghost function Pushed(ops: seq<Operation>, op: Operation): seq<Operation> {
    if HasKey(ops, KeyOf(op)) then
      var i :| 0 <= i < |ops| && KeyOf(ops[i]) == KeyOf(op);
      if RevisionLess(op.revision, ops[i].revision) then ops else ops[i := op]
    else ops + [op]
  }

  ghost function Compacted(stream: seq<Operation>): seq<Operation>
    decreases |stream|
  {
    if stream == [] then [] else Pushed(Compacted(stream[..|stream| - 1]), stream[|stream| - 1])
  }

  class CompactedOperations {
    var operations: seq<Operation>
    var indices: map<Key, nat>

    ghost predicate Valid()
      reads this
    {
      Positions(operations, indices)
    }

    constructor ()
      ensures Valid() && operations == []
    {
      operations, indices := [], map[];
    }

    method Push(op: Operation)
      requires Valid()
      modifies this
      ensures Valid() && operations == Pushed(old(operations), op)
    {
      var key := KeyOf(op);
      PositionsUnique(operations, indices, indices);
      if key in indices {
        var index := indices[key];
        if !RevisionLess(op.revision, operations[index].revision) {
          operations := operations[index := op];
        }
      } else {
        indices := indices[key := |operations|];
        operations := operations + [op];
      }
    }

    method FromOperations(stream: seq<Operation>)
      requires Valid() && operations == []
      modifies this
      ensures Valid() && operations == Compacted(stream)
    {
      for i := 0 to |stream|
        invariant Valid() && operations == Compacted(stream[..i])
      {
        assert stream[..i + 1][..i] == stream[..i];
        Push(stream[i]);
      }
      assert stream[..|stream|] == stream;
    }

    method RebuildIndices()
      requires DistinctKeys(operations)
      modifies this`indices
      ensures Valid()
    {
      indices := map[];
      for i := 0 to |operations|
        invariant forall j :: 0 <= j < i ==> KeyOf(operations[j]) in indices && indices[KeyOf(operations[j])] == j
        invariant forall k :: k in indices ==> indices[k] < i && KeyOf(operations[indices[k]]) == k
      {
        indices := indices[KeyOf(operations[i]) := i];
      }
    }

    method DrainPrefix(count: nat)
      requires Valid() && count <= |operations|
      modifies this
      ensures Valid() && operations == old(operations)[count..]
    {
      SuffixPositions(operations, indices, count);
      indices := map k | k in indices && indices[k] >= count :: indices[k] - count;
      operations := operations[count..];
    }

    method Clear()
      modifies this
      ensures Valid() && operations == []
    {
      operations, indices := [], map[];
    }
  }

  // ---------------------------------------------------------------- order

  function Keys(ops: seq<Operation>): seq<Key> {
    seq(|ops|, i requires 0 <= i < |ops| => KeyOf(ops[i]))
  }

  /** Each key once, in the order of first occurrence. */
  function FirstOccurrences(keys: seq<Key>): seq<Key>
    decreases |keys|
  {
    if keys == [] then []
    else
      var front := FirstOccurrences(keys[..|keys| - 1]);
      if keys[|keys| - 1] in front then front else front + [keys[|keys| - 1]]
  }

  lemma PushedKeys(ops: seq<Operation>, op: Operation)
    ensures DistinctKeys(ops) ==> DistinctKeys(Pushed(ops, op))
    ensures |ops| <= |Pushed(ops, op)| && forall i :: 0 <= i < |ops| ==> KeyOf(Pushed(ops, op)[i]) == KeyOf(ops[i])
    ensures Keys(Pushed(ops, op)) == if KeyOf(op) in Keys(ops) then Keys(ops) else Keys(ops) + [KeyOf(op)]
  {
    if HasKey(ops, KeyOf(op)) {
      var i :| 0 <= i < |ops| && KeyOf(ops[i]) == KeyOf(op);
      assert Keys(ops)[i] == KeyOf(op);
    } else {
      forall k | k in Keys(ops) ensures k != KeyOf(op) {
        var i :| 0 <= i < |ops| && Keys(ops)[i] == k;
      }
    }
  }

  /** A compacted stream holds each key once, in the order the keys first occurred. */
  lemma {:induction false} CompactedOrder(stream: seq<Operation>)
    ensures DistinctKeys(Compacted(stream))
    ensures Keys(Compacted(stream)) == FirstOccurrences(Keys(stream))
    decreases |stream|
  {
    if stream != [] {
      var front, last := stream[..|stream| - 1], stream[|stream| - 1];
      CompactedOrder(front);
      PushedKeys(Compacted(front), last);
      assert Keys(stream)[..|stream| - 1] == Keys(front);
    }
  }

  // ---------------------------------------------------------------- what the queue keeps

  /** The operation at `j` has the greatest revision of its key, and is the last to have it. */
  predicate Kept(stream: seq<Operation>, j: nat)
    requires j < |stream|
  {
    forall i :: 0 <= i < |stream| && KeyOf(stream[i]) == KeyOf(stream[j]) ==>
                  RevisionLess(stream[i].revision, stream[j].revision) ||
                    (stream[i].revision == stream[j].revision && i <= j)
  }

  lemma PushedElements(queue: seq<Operation>, op: Operation, q: Operation)
    requires DistinctKeys(queue)
    ensures q in Pushed(queue, op) <==>
            || (q == op && forall e :: e in queue && KeyOf(e) == KeyOf(op) ==> !RevisionLess(op.revision, e.revision))
            || (q in queue && (KeyOf(q) == KeyOf(op) ==> RevisionLess(op.revision, q.revision)))
  {
    var next := Pushed(queue, op);
    if HasKey(queue, KeyOf(op)) {
      var i :| 0 <= i < |queue| && KeyOf(queue[i]) == KeyOf(op)
               && next == if RevisionLess(op.revision, queue[i].revision) then queue else queue[i := op];
      assert queue[i] in queue && next[i] in next;
      assert forall e :: e in queue && KeyOf(e) == KeyOf(op) ==> e == queue[i];
      if q in queue && q != queue[i] {
        var k :| 0 <= k < |queue| && queue[k] == q;
        assert next[k] == q;
      }
    } else {
      assert forall e :: e in queue ==> KeyOf(e) != KeyOf(op);
    }
  }

  ghost predicate KeptIn(stream: seq<Operation>, q: Operation) {
    exists j :: 0 <= j < |stream| && Kept(stream, j) && stream[j] == q
  }

  /** An operation kept so far stays kept unless the next one of its key is not older. */
  lemma KeptMore(front: seq<Operation>, op: Operation, j: nat)
    requires j < |front|
    ensures Kept(front + [op], j)
            <==> Kept(front, j) && (KeyOf(op) == KeyOf(front[j]) ==> RevisionLess(op.revision, front[j].revision))
  {
    var stream := front + [op];
    assert stream[|front|] == op;
    assert forall i :: 0 <= i < |front| ==> stream[i] == front[i];
  }

  lemma KeptLast(front: seq<Operation>, op: Operation)
    ensures Kept(front + [op], |front|) <==>
            forall i :: 0 <= i < |front| && KeyOf(front[i]) == KeyOf(op) ==>
                          !RevisionLess(op.revision, front[i].revision)
  {
    RevisionOrder();
    var stream := front + [op];
    assert forall i :: 0 <= i < |front| ==> stream[i] == front[i];
  }

  /** Every key of a stream has an operation that is kept. */
  lemma {:induction false} SomeKept(stream: seq<Operation>, i: nat) returns (j: nat)
    requires i < |stream|
    ensures j < |stream| && KeyOf(stream[j]) == KeyOf(stream[i]) && Kept(stream, j)
    decreases |stream|
  {
    RevisionOrder();
    var front, last := stream[..|stream| - 1], stream[|stream| - 1];
    assert stream == front + [last];
    KeptLast(front, last);
    if Kept(stream, |front|) && KeyOf(last) == KeyOf(stream[i]) {
      j := |front|;
    } else if i < |front| {
      j := SomeKept(front, i);
      KeptMore(front, last, j);
      assert KeyOf(last) == KeyOf(front[j]) ==> RevisionLess(last.revision, front[j].revision);
    } else {
      var m :| 0 <= m < |front| && KeyOf(front[m]) == KeyOf(last) && RevisionLess(last.revision, front[m].revision);
      j := SomeKept(front, m);
      KeptMore(front, last, j);
    }
  }

  lemma NoneLater(front: seq<Operation>, op: Operation)
    ensures (forall i :: 0 <= i < |front| && KeyOf(front[i]) == KeyOf(op) ==>
                           !RevisionLess(op.revision, front[i].revision))
            <==> forall e :: KeptIn(front, e) && KeyOf(e) == KeyOf(op) ==> !RevisionLess(op.revision, e.revision)
  {
    RevisionOrder();
    forall i | 0 <= i < |front| && KeyOf(front[i]) == KeyOf(op) && RevisionLess(op.revision, front[i].revision)
      ensures exists e :: KeptIn(front, e) && KeyOf(e) == KeyOf(op) && RevisionLess(op.revision, e.revision)
    {
      var j := SomeKept(front, i);
      assert KeptIn(front, front[j]);
    }
  }

  /** One more operation: what is kept follows the rule of the queue. */
  lemma KeptInMore(front: seq<Operation>, op: Operation, q: Operation)
    ensures KeptIn(front + [op], q) <==>
            || (q == op && forall e :: KeptIn(front, e) && KeyOf(e) == KeyOf(op) ==>
                                         !RevisionLess(op.revision, e.revision))
            || (KeptIn(front, q) && (KeyOf(q) == KeyOf(op) ==> RevisionLess(op.revision, q.revision)))
  {
    var stream := front + [op];
    KeptLast(front, op);
    NoneLater(front, op);
    if KeptIn(stream, q) {
      var j :| 0 <= j < |stream| && Kept(stream, j) && stream[j] == q;
      if j < |front| {
        KeptMore(front, op, j);
      }
    }
    if KeptIn(front, q) && (KeyOf(q) == KeyOf(op) ==> RevisionLess(op.revision, q.revision)) {
      var j :| 0 <= j < |front| && Kept(front, j) && front[j] == q;
      KeptMore(front, op, j);
      assert stream[j] == q;
    }
    assert stream[|front|] == op;
  }

  /** A compacted stream holds exactly the operations that are kept. */
  lemma {:induction false} CompactedIsKept(stream: seq<Operation>)
    ensures forall q :: q in Compacted(stream) <==> KeptIn(stream, q)
    decreases |stream|
  {
    if stream != [] {
      var front, last := stream[..|stream| - 1], stream[|stream| - 1];
      assert stream == front + [last];
      CompactedIsKept(front);
      CompactedOrder(front);
      forall q ensures q in Compacted(stream) <==> KeptIn(stream, q) {
        PushedElements(Compacted(front), last, q);
        KeptInMore(front, last, q);
      }
    }
  }

  // ---------------------------------------------------------------- meaning

  predicate Ties(a: Operation, b: Operation) {
    KeyOf(a) == KeyOf(b) && a.revision == b.revision
  }

  /** Where revisions tie, the operation the queue keeps has the greatest marker. */
  ghost predicate LastTieWins(stream: seq<Operation>) {
    forall i, j :: 0 <= i < j < |stream| && Ties(stream[i], stream[j]) && Kept(stream, j) ==>
                     Le(MarkerOf(stream[i]), MarkerOf(stream[j]))
  }

  /** `kept` holds some of the operations of `all`, among them the newest of each key. */
  ghost predicate KeepsNewest(kept: set<Operation>, all: set<Operation>) {
    && kept <= all
    && forall o {:trigger Superseded(o, kept)} :: o in all ==> Superseded(o, kept)
  }

  predicate Supersedes(k: Operation, o: Operation) {
    KeyOf(k) == KeyOf(o) && Le(MarkerOf(o), MarkerOf(k))
  }

  ghost predicate Superseded(o: Operation, kept: set<Operation>) {
    exists k :: k in kept && Supersedes(k, o)
  }

  /** Operations that hold all that is kept of a stream keep the newest of each key. */
  lemma HoldingKept(stream: seq<Operation>, held: set<Operation>)
    requires LastTieWins(stream) && held <= Elements(stream)
    requires forall j :: 0 <= j < |stream| && Kept(stream, j) ==> stream[j] in held
    ensures KeepsNewest(held, Elements(stream))
  {
    MarkerOrder();
    forall o | o in Elements(stream) ensures Superseded(o, held) {
      var i :| 0 <= i < |stream| && stream[i] == o;
      var j := SomeKept(stream, i);
      assert stream[j] in held && Supersedes(stream[j], o);
    }
  }

  /** Compaction keeps the newest operation of each key if and only if the last of tied ones has the greatest marker. */
  lemma CompactedKeepsNewest(stream: seq<Operation>)
    ensures KeepsNewest(Elements(Compacted(stream)), Elements(stream)) <==> LastTieWins(stream)
  {
    CompactedIsKept(stream);
    var kept := Elements(Compacted(stream));
    forall q | q in kept ensures q in Elements(stream) {
      assert KeptIn(stream, q);
    }
    forall j | 0 <= j < |stream| && Kept(stream, j) ensures stream[j] in kept {
      assert KeptIn(stream, stream[j]);
    }
    if LastTieWins(stream) {
      HoldingKept(stream, kept);
    }
    if KeepsNewest(kept, Elements(stream)) {
      NewestWins(stream, kept);
    }
  }

  lemma NewestWins(stream: seq<Operation>, kept: set<Operation>)
    requires KeepsNewest(kept, Elements(stream)) && forall q :: q in kept ==> KeptIn(stream, q)
    ensures LastTieWins(stream)
  {
    RevisionOrder();
    forall i, j | 0 <= i < j < |stream| && Ties(stream[i], stream[j]) && Kept(stream, j)
      ensures Le(MarkerOf(stream[i]), MarkerOf(stream[j]))
    {
      assert stream[i] in Elements(stream);
      assert Superseded(stream[i], kept);
      var k :| k in kept && Supersedes(k, stream[i]);
      var m :| 0 <= m < |stream| && Kept(stream, m) && stream[m] == k;
      assert m == j;
    }
  }

  /** Streams in which each revision is used once are never tied. */
  lemma DistinctRevisions(stream: seq<Operation>)
    requires forall i, j :: 0 <= i < |stream| && 0 <= j < |stream| && stream[i].revision == stream[j].revision ==>
             stream[i] == stream[j]
    ensures LastTieWins(stream)
  {
    MarkerOrder();
  }

  lemma RegisterKept(base: Slot, kept: set<Operation>, all: set<Operation>, n: NodeId, f: string, r: Slot)
    requires KeepsNewest(kept, all)
    requires forall o :: o in all && At(o, n, f) ==> !IsMemberOp(o)
    requires RegisterJoin(base, kept, n, f, r)
    ensures RegisterJoin(base, all, n, f, r)
  {
    MarkerOrder();
    if w :| NewestWrite(w, kept, base, n, f) && r == Written(w) {
      forall o | o in all && At(o, n, f) ensures Le(MarkerOf(o), MarkerOf(w)) {
        assert Superseded(o, kept);
        var k :| k in kept && Supersedes(k, o);
        assert At(k, n, f);
      }
      assert NewestWrite(w, all, base, n, f);
    } else {
      forall o | o in all && At(o, n, f) ensures !Outdates(o, base) {
        assert Superseded(o, kept);
        var k :| k in kept && Supersedes(k, o);
        assert At(k, n, f);
      }
    }
  }

  ghost predicate LiveSuperseded(o: Operation, kept: set<Operation>, base: Slot, n: NodeId, f: string)
    requires SetOrAbsent(base) && IsMemberOp(o)
  {
    exists k :: Live(k, kept, base, n, f) && k.action.member == o.action.member && Le(MarkerOf(o), MarkerOf(k))
  }

  lemma LiveKept(base: Slot, kept: set<Operation>, all: set<Operation>, n: NodeId, f: string, o: Operation)
    requires KeepsNewest(kept, all) && SetOrAbsent(base)
    requires Live(o, all, base, n, f)
    ensures LiveSuperseded(o, kept, base, n, f)
  {
    assert Superseded(o, kept);
    var k :| k in kept && Supersedes(k, o);
    assert Live(k, kept, base, n, f) by { MarkerOrder(); }
  }

  lemma MemberKept(base: Slot, kept: set<Operation>, all: set<Operation>, n: NodeId, f: string, s: SetState, x: NodeId)
    requires KeepsNewest(kept, all) && SetOrAbsent(base)
    requires MemberJoin(x, kept, base, n, f, s)
    ensures MemberJoin(x, all, base, n, f, s)
  {
    if w :| NewestFor(w, x, kept, base, n, f) && Records(s, x, w) {
      forall o | Live(o, all, base, n, f) && o.action.member == x ensures Le(MarkerOf(o), MarkerOf(w)) {
        LiveKept(base, kept, all, n, f, o);
        MarkerOrder();
      }
      assert NewestFor(w, x, all, base, n, f);
    } else {
      forall o | Live(o, all, base, n, f) ensures o.action.member != x {
        LiveKept(base, kept, all, n, f, o);
      }
    }
  }

  lemma VersionKept(base: Slot, kept: set<Operation>, all: set<Operation>, n: NodeId, f: string, version: Marker)
    requires KeepsNewest(kept, all) && SetOrAbsent(base)
    requires VersionJoin(kept, base, n, f, version)
    ensures VersionJoin(all, base, n, f, version)
  {
    forall o | Live(o, all, base, n, f) ensures Le(MarkerOf(o), version) {
      LiveKept(base, kept, all, n, f, o);
      MarkerOrder();
    }
    assert forall k :: Live(k, kept, base, n, f) ==> Live(k, all, base, n, f);
  }

  lemma SetKept(base: Slot, kept: set<Operation>, all: set<Operation>, n: NodeId, f: string, r: Slot)
    requires KeepsNewest(kept, all) && SetOrAbsent(base)
    requires SetJoin(base, kept, n, f, r)
    ensures SetJoin(base, all, n, f, r)
  {
    if k :| Live(k, kept, base, n, f) {
      assert Live(k, all, base, n, f);
      var s := r.field.value.value.state;
      forall x ensures MemberJoin(x, all, base, n, f, s) {
        assert MemberJoin(x, kept, base, n, f, s);
        MemberKept(base, kept, all, n, f, s, x);
      }
      VersionKept(base, kept, all, n, f, r.field.value.version);
    } else {
      forall o ensures !Live(o, all, base, n, f) {
        if Live(o, all, base, n, f) {
          LiveKept(base, kept, all, n, f, o);
        }
      }
    }
  }

  lemma SlotKept(base: Slot, kept: set<Operation>, all: set<Operation>, n: NodeId, f: string, r: Slot)
    requires KeepsNewest(kept, all) && Unmixed(all)
    requires SlotJoin(base, kept, n, f, r)
    ensures SlotJoin(base, all, n, f, r)
  {
    if HasMemberOps(all, n, f) {
      var o :| o in all && At(o, n, f) && IsMemberOp(o);
      assert Superseded(o, kept);
      var k :| k in kept && Supersedes(k, o);
      assert k in kept && At(k, n, f) && IsMemberOp(k);
      SetKept(base, kept, all, n, f, r);
    } else {
      assert !HasMemberOps(kept, n, f) by { assert forall k :: k in kept ==> k in all; }
      RegisterKept(base, kept, all, n, f, r);
    }
  }

  lemma JoinsKept(base: Nodes, kept: set<Operation>, all: set<Operation>, r: Nodes)
    requires KeepsNewest(kept, all) && Unmixed(all)
    requires Joins(base, kept, r)
    ensures Joins(base, all, r)
  {
    forall n, f ensures SlotJoin(SlotAt(base, n, f), all, n, f, SlotAt(r, n, f)) {
      assert SlotJoin(SlotAt(base, n, f), kept, n, f, SlotAt(r, n, f));
      SlotKept(SlotAt(base, n, f), kept, all, n, f, SlotAt(r, n, f));
    }
    NodesKept(kept, all);
  }

  lemma NodesKept(kept: set<Operation>, all: set<Operation>)
    requires KeepsNewest(kept, all)
    ensures (set o | o in kept :: o.action.node) == (set o | o in all :: o.action.node)
  {
    forall o | o in all ensures exists k :: k in kept && k.action.node == o.action.node {
      assert Superseded(o, kept);
      var k :| k in kept && Supersedes(k, o);
      assert k.action.node == o.action.node;
    }
  }

  /**
    Compaction preserves meaning: replaying the compacted stream on any base gives the graph that
    replaying the whole stream gives.
   */
  lemma CompactionPreservesMeaning(base: Nodes, stream: seq<Operation>)
    requires Mergeable(base, Elements(stream)) && LastTieWins(stream)
    ensures Replay(base, Compacted(stream)) == Replay(base, stream)
  {
    CompactedKeepsNewest(stream);
    KeptMeansSame(base, Compacted(stream), stream);
  }

  lemma KeptMeansSame(base: Nodes, kept: seq<Operation>, stream: seq<Operation>)
    requires Mergeable(base, Elements(stream)) && KeepsNewest(Elements(kept), Elements(stream))
    ensures Replay(base, kept) == Replay(base, stream)
  {
    assert forall k :: k in Elements(kept) ==> k in Elements(stream);
    ReplayJoins(base, kept);
    ReplayJoins(base, stream);
    JoinsKept(base, Elements(kept), Elements(stream), Replay(base, kept));
    JoinUnique(base, Elements(stream), Replay(base, kept), Replay(base, stream));
  }

  // ---------------------------------------------------------------- the condition is exact

  /** The operation is newer than what the base holds against it. */
  predicate Effective(base: Nodes, o: Operation)
    requires IsMemberOp(o) ==> SetOrAbsent(SlotAt(base, o.action.node, o.action.field))
  {
    var slot := SlotAt(base, o.action.node, o.action.field);
    if IsMemberOp(o) then OutdatesMember(o, slot) else Outdates(o, slot)
  }

  lemma WriteShowsNewest(base: Slot, kept: set<Operation>, all: set<Operation>, n: NodeId, f: string, r: Slot,
                         o: Operation, k: Operation)
    requires MarkersIdentify(all) && kept <= all
    requires RegisterJoin(base, kept, n, f, r) && RegisterJoin(base, all, n, f, r)
    requires o in all && At(o, n, f) && !IsMemberOp(o) && Outdates(o, base)
    requires k in kept && At(k, n, f) && !IsMemberOp(k) && Outdates(k, base)
    ensures Superseded(o, kept)
  {
    var w :| NewestWrite(w, all, base, n, f) && r == Written(w);
    var v :| NewestWrite(v, kept, base, n, f) && r == Written(v);
    assert MarkerOf(w) == MarkerOf(v);
    assert v in all;
    assert Supersedes(v, o);
  }

  lemma MemberShowsNewest(base: Slot, kept: set<Operation>, all: set<Operation>, n: NodeId, f: string, r: Slot,
                          o: Operation, k: Operation)
    requires MarkersIdentify(all) && kept <= all && SetOrAbsent(base)
    requires SetJoin(base, kept, n, f, r) && SetJoin(base, all, n, f, r)
    requires Live(o, all, base, n, f) && Live(k, kept, base, n, f) && k.action.member == o.action.member
    ensures Superseded(o, kept)
  {
    var s, x := r.field.value.value.state, o.action.member;
    assert MemberJoin(x, all, base, n, f, s) && MemberJoin(x, kept, base, n, f, s);
    var w :| NewestFor(w, x, all, base, n, f) && Records(s, x, w);
    var v :| NewestFor(v, x, kept, base, n, f) && Records(s, x, v);
    assert MarkerOf(w) == MarkerOf(v);
    assert v in all;
    assert KeyOf(v) == KeyOf(o) && Supersedes(v, o);
  }

  lemma SlotOfKey(base: Nodes, kept: set<Operation>, all: set<Operation>, o: Operation, k: Operation)
    requires Unmixed(all) && kept <= all && o in all && k in kept && KeyOf(k) == KeyOf(o)
    ensures At(k, o.action.node, o.action.field) && IsMemberOp(k) == IsMemberOp(o)
    ensures HasMemberOps(all, o.action.node, o.action.field) == IsMemberOp(o)
    ensures HasMemberOps(kept, o.action.node, o.action.field) == IsMemberOp(o)
  {
    assert k in all;
    assert forall p :: p in kept ==> p in all;
  }

  /** A slot that both sets lead to shows the newest operation of a key, so both hold it. */
  lemma SlotShowsNewest(base: Nodes, kept: set<Operation>, all: set<Operation>, r: Nodes, o: Operation, k: Operation)
    requires Mergeable(base, all) && kept <= all && Joins(base, kept, r) && Joins(base, all, r)
    requires o in all && k in kept && KeyOf(k) == KeyOf(o)
    requires IsMemberOp(o) ==> SetOrAbsent(SlotAt(base, o.action.node, o.action.field))
    requires IsMemberOp(k) ==> SetOrAbsent(SlotAt(base, k.action.node, k.action.field))
    requires Effective(base, o) && Effective(base, k)
    ensures Superseded(o, kept)
  {
    var n, f := o.action.node, o.action.field;
    SlotOfKey(base, kept, all, o, k);
    var b, x := SlotAt(base, n, f), SlotAt(r, n, f);
    assert SlotJoin(b, kept, n, f, x) && SlotJoin(b, all, n, f, x);
    if IsMemberOp(o) {
      MemberShowsNewest(b, kept, all, n, f, x, o, k);
    } else {
      WriteShowsNewest(b, kept, all, n, f, x, o, k);
    }
  }

  /**
    The condition on ties is exact: where every operation is newer than the base, compaction preserves
    meaning if and only if the last of the tied operations of a key has the greatest marker.
   */
  lemma CompactionIsExact(base: Nodes, stream: seq<Operation>)
    requires Mergeable(base, Elements(stream)) && forall o :: o in stream ==> Effective(base, o)
    ensures Replay(base, Compacted(stream)) == Replay(base, stream) <==> LastTieWins(stream)
  {
    CompactedKeepsNewest(stream);
    if LastTieWins(stream) {
      CompactionPreservesMeaning(base, stream);
    }
    if Replay(base, Compacted(stream)) == Replay(base, stream) {
      SameMeansKept(base, stream);
    }
  }

  lemma SameMeansKept(base: Nodes, stream: seq<Operation>)
    requires Mergeable(base, Elements(stream)) && forall o :: o in stream ==> Effective(base, o)
    requires Replay(base, Compacted(stream)) == Replay(base, stream)
    ensures KeepsNewest(Elements(Compacted(stream)), Elements(stream))
  {
    var kept, all := Elements(Compacted(stream)), Elements(stream);
    CompactedIsKept(stream);
    forall q | q in kept ensures q in all {
      assert KeptIn(stream, q);
    }
    ReplayJoins(base, Compacted(stream));
    ReplayJoins(base, stream);
    forall o | o in all ensures Superseded(o, kept) {
      var i :| 0 <= i < |stream| && stream[i] == o;
      var j := SomeKept(stream, i);
      assert KeptIn(stream, stream[j]);
      assert stream[j] in kept && KeyOf(stream[j]) == KeyOf(o) && Effective(base, stream[j]);
      SlotShowsNewest(base, kept, all, Replay(base, stream), o, stream[j]);
    }
  }

  /**
    Two operations with one revision on one key: the queue keeps the later pushed, replay the one with
    the greater operation id, so meaning is kept exactly when these agree.
   */
  lemma TiedRevisions(base: Nodes, a: Operation, b: Operation)
    requires a.revision == b.revision && KeyOf(a) == KeyOf(b) && MarkerOf(a) != MarkerOf(b)
    requires Mergeable(base, Elements([a, b])) && Effective(base, a) && Effective(base, b)
    ensures Replay(base, Compacted([a, b])) == Replay(base, [a, b]) <==> Lt(MarkerOf(a), MarkerOf(b))
  {
    MarkerOrder();
    CompactionIsExact(base, [a, b]);
    assert Kept([a, b], 1);
    assert LastTieWins([a, b]) <==> Le(MarkerOf([a, b][0]), MarkerOf([a, b][1]));
  }

  // ---------------------------------------------------------------- pushes and drains

  datatype QueueEvent = Push(op: Operation) | Drop(count: nat)

  /** What was dropped from the front so far, in order, and the queue. */
  datatype Queues = Queues(dropped: seq<Operation>, queue: seq<Operation>)

  ghost function QueueRun(events: seq<QueueEvent>): Queues
    decreases |events|
  {
    if events == [] then Queues([], [])
    else
      var before := QueueRun(events[..|events| - 1]);
      match events[|events| - 1]
      case Push(op) => before.(queue := Pushed(before.queue, op))
      case Drop(count) =>
        var n := if count < |before.queue| then count else |before.queue|;
        Queues(before.dropped + before.queue[..n], before.queue[n..])
  }

  function Stream(events: seq<QueueEvent>): seq<Operation>
    decreases |events|
  {
    if events == [] then []
    else
      var before := Stream(events[..|events| - 1]);
      match events[|events| - 1]
      case Push(op) => before + [op]
      case Drop(_) => before
  }

  /** Whatever is kept of the stream was dropped or is queued, and nothing else was. */
  ghost predicate Holds(q: Queues, stream: seq<Operation>) {
    && DistinctKeys(q.queue)
    && (forall o :: o in q.dropped || o in q.queue ==> o in stream)
    && (forall o :: KeptIn(stream, o) ==> o in q.dropped || o in q.queue)
  }

  lemma PushHolds(q: Queues, stream: seq<Operation>, op: Operation)
    requires Holds(q, stream)
    ensures Holds(q.(queue := Pushed(q.queue, op)), stream + [op])
  {
    PushedKeys(q.queue, op);
    forall o ensures o in Pushed(q.queue, op) ==> o in q.queue || o == op {
      PushedElements(q.queue, op, o);
    }
    forall o | KeptIn(stream + [op], o) ensures o in q.dropped || o in Pushed(q.queue, op) {
      PushedElements(q.queue, op, o);
      KeptInMore(stream, op, o);
      if o == op && o !in q.queue {
        LastIsPushed(q, stream, op);
      }
    }
  }

  /** The last operation of a stream, if it is to be kept, meets nothing newer in the queue. */
  lemma LastIsPushed(q: Queues, stream: seq<Operation>, op: Operation)
    requires Holds(q, stream) && KeptIn(stream + [op], op)
    ensures op in q.dropped || op in Pushed(q.queue, op)
  {
    RevisionOrder();
    PushedElements(q.queue, op, op);
    var all := stream + [op];
    var j :| 0 <= j < |all| && Kept(all, j) && all[j] == op;
    forall e | e in q.queue && KeyOf(e) == KeyOf(op) ensures !RevisionLess(op.revision, e.revision) {
      var i :| 0 <= i < |stream| && stream[i] == e;
      assert all[i] == e;
    }
  }

  lemma {:induction false} RunHolds(events: seq<QueueEvent>)
    ensures Holds(QueueRun(events), Stream(events))
    decreases |events|
  {
    if events != [] {
      var front := events[..|events| - 1];
      RunHolds(front);
      var before := QueueRun(front);
      match events[|events| - 1] {
        case Push(op) => PushHolds(before, Stream(front), op);
        case Drop(count) =>
          var n := if count < |before.queue| then count else |before.queue|;
          assert forall o :: o in before.queue <==> o in before.queue[..n] || o in before.queue[n..] by {
            assert before.queue == before.queue[..n] + before.queue[n..];
          }
      }
    }
  }

  /**
    Draining loses nothing: however pushes and drains of the front are interleaved, the drained
    operations followed by those still queued replay to what the whole stream replays to.
   */
  lemma DrainsPreserveMeaning(base: Nodes, events: seq<QueueEvent>)
    requires Mergeable(base, Elements(Stream(events))) && LastTieWins(Stream(events))
    ensures var q := QueueRun(events); Replay(base, q.dropped + q.queue) == Replay(base, Stream(events))
  {
    RunHolds(events);
    var q, stream := QueueRun(events), Stream(events);
    var held := q.dropped + q.queue;
    assert forall o :: o in held <==> o in q.dropped || o in q.queue;
    forall j | 0 <= j < |stream| && Kept(stream, j) ensures stream[j] in Elements(held) {
      assert KeptIn(stream, stream[j]);
    }
    HoldingKept(stream, Elements(held));
    KeptMeansSame(base, held, stream);
  }

  // ---------------------------------------------------------------- the clock

  /** Compaction never moves the clock: whatever is dropped leaves a revision that is not less. */
  lemma CompactionKeepsClock(start: ClockState, stream: seq<Operation>)
    ensures ReplayClock(start, Compacted(stream)) == ReplayClock(start, stream)
  {
    CompactedIsKept(stream);
    var kept, all := Elements(Compacted(stream)), Elements(stream);
    forall q | q in kept ensures q in all {
      assert KeptIn(stream, q);
    }
    ReplayClockObserves(start, Compacted(stream));
    ReplayClockObserves(start, stream);
    var c := ReplayClock(start, Compacted(stream));
    forall r | r in RevisionsOf(all) ensures Dominates(c, r) {
      var i :| 0 <= i < |stream| && stream[i].revision == r;
      var j := SomeKept(stream, i);
      assert KeptIn(stream, stream[j]);
      assert stream[j].revision in RevisionsOf(kept);
      assert Dominates(c, stream[j].revision);
    }
    ObservesUnique(start, RevisionsOf(all), c, ReplayClock(start, stream));
  }
}
