/**
  Strong convergence. The graph reached by replaying operations is described without
  replaying anything: per slot, the newest write wins; per member of a set, the newest
  add or remove wins. The description depends only on the set of operations, so order
  and duplication cannot matter.
 */
module Convergence {
  import opened Json
  import opened Clock
  import opened Graph

  // ---------------------------------------------------------------- hypotheses

  predicate SameSlot(a: Operation, b: Operation) {
    a.action.node == b.action.node && a.action.field == b.action.field
  }

  /** Each slot is used either only by set and delete or only by add and remove member. */
  ghost predicate Unmixed(ops: set<Operation>) {
    forall a, b :: a in ops && b in ops && SameSlot(a, b) ==> IsMemberOp(a) == IsMemberOp(b)
  }

  ghost predicate MarkersIdentify(ops: set<Operation>) {
    forall a, b :: a in ops && b in ops && MarkerOf(a) == MarkerOf(b) ==> a == b
  }

  ghost predicate AboveZero(ops: set<Operation>) {
    forall o :: o in ops ==> Lt(ZERO_MARKER, MarkerOf(o))
  }

  predicate SetOrAbsent(slot: Slot) {
    slot.field.None? || slot.field.value.value.Set?
  }

  /** Member operations meet a set, or nothing, in the graph they start from. */
  ghost predicate Fits(base: Nodes, ops: set<Operation>) {
    forall o :: o in ops && IsMemberOp(o) ==> SetOrAbsent(SlotAt(base, o.action.node, o.action.field))
  }

  ghost predicate Mergeable(base: Nodes, ops: set<Operation>) {
    Unmixed(ops) && MarkersIdentify(ops) && AboveZero(ops) && Fits(base, ops)
  }

  // ---------------------------------------------------------------- the reference description

  predicate At(o: Operation, n: NodeId, f: string) {
    o.action.node == n && o.action.field == f
  }

  /** Newer than whatever value or tombstone the starting slot holds. */
  predicate Outdates(o: Operation, base: Slot) {
    !Blocks(base.tomb, MarkerOf(o)) && !VersionBlocks(base.field, MarkerOf(o))
  }

  /** Newer than the tombstone, baseline and member markers of the starting slot. */
  predicate OutdatesMember(o: Operation, base: Slot)
    requires IsMemberOp(o) && SetOrAbsent(base)
  {
    && !Blocks(base.tomb, MarkerOf(o))
    && (base.field.Some? ==> !MemberBlocked(base.field.value.value.state, o.action.member, MarkerOf(o)))
  }

  function Written(o: Operation): Slot
    requires !IsMemberOp(o)
  {
    if o.action.SetField? then Slot(Some(FieldState(StoredValue(o.action.value, MarkerOf(o)), MarkerOf(o))), None)
    else Slot(None, Some(MarkerOf(o)))
  }

  /** `w` is the newest operation at slot (n, f) that outdates the starting slot. */
  ghost predicate NewestWrite(w: Operation, ops: set<Operation>, base: Slot, n: NodeId, f: string) {
    && w in ops && At(w, n, f) && !IsMemberOp(w) && Outdates(w, base)
    && forall o :: o in ops && At(o, n, f) ==> Le(MarkerOf(o), MarkerOf(w))
  }

  ghost predicate RegisterJoin(base: Slot, ops: set<Operation>, n: NodeId, f: string, result: Slot) {
    || (&& result == base
        && forall o :: o in ops && At(o, n, f) ==> !Outdates(o, base))
    || (exists w :: NewestWrite(w, ops, base, n, f) && result == Written(w))
  }

  /** A member operation of the slot that outdates its start. */
  predicate Live(o: Operation, ops: set<Operation>, base: Slot, n: NodeId, f: string)
    requires SetOrAbsent(base)
  {
    o in ops && At(o, n, f) && IsMemberOp(o) && OutdatesMember(o, base)
  }

  ghost predicate NewestFor(w: Operation, x: NodeId, ops: set<Operation>, base: Slot, n: NodeId, f: string)
    requires SetOrAbsent(base)
  {
    && Live(w, ops, base, n, f) && w.action.member == x
    && forall o :: Live(o, ops, base, n, f) && o.action.member == x ==> Le(MarkerOf(o), MarkerOf(w))
  }

  function BaseSet(base: Slot): SetState
    requires SetOrAbsent(base)
  {
    if base.field.Some? then base.field.value.value.state else SetState(ZERO_MARKER, map[], map[])
  }

  /** `result` holds what `w` last said about `x`. */
  predicate Records(result: SetState, x: NodeId, w: Operation) {
    && Lookup(result.members, x) == (if w.action.AddMember? then Some(MarkerOf(w)) else None)
    && Lookup(result.removed, x) == (if w.action.RemoveMember? then Some(MarkerOf(w)) else None)
  }

  predicate Agree(a: SetState, b: SetState, x: NodeId) {
    Lookup(a.members, x) == Lookup(b.members, x) && Lookup(a.removed, x) == Lookup(b.removed, x)
  }

  /** The entry of `x` is the newest live operation on it, or what the start held. */
  ghost predicate MemberJoin(x: NodeId, ops: set<Operation>, base: Slot, n: NodeId, f: string, result: SetState)
    requires SetOrAbsent(base)
  {
    || (Agree(result, BaseSet(base), x) && forall o :: Live(o, ops, base, n, f) ==> o.action.member != x)
    || (exists w :: NewestFor(w, x, ops, base, n, f) && Records(result, x, w))
  }

  ghost predicate VersionJoin(ops: set<Operation>, base: Slot, n: NodeId, f: string, version: Marker)
    requires SetOrAbsent(base)
  {
    && (forall o :: Live(o, ops, base, n, f) ==> Le(MarkerOf(o), version))
    && (base.field.Some? ==> Le(base.field.value.version, version))
    && (|| (base.field.Some? && version == base.field.value.version)
        || exists o :: Live(o, ops, base, n, f) && version == MarkerOf(o))
  }

  ghost predicate SetJoin(base: Slot, ops: set<Operation>, n: NodeId, f: string, result: Slot)
    requires SetOrAbsent(base)
  {
    if forall o :: !Live(o, ops, base, n, f) then result == base
    else
      && result.tomb == base.tomb
      && result.field.Some? && result.field.value.value.Set?
      && result.field.value.value.state.baseline == BaseSet(base).baseline
      && VersionJoin(ops, base, n, f, result.field.value.version)
      && forall x :: MemberJoin(x, ops, base, n, f, result.field.value.value.state)
  }

  ghost predicate HasMemberOps(ops: set<Operation>, n: NodeId, f: string) {
    exists o :: o in ops && At(o, n, f) && IsMemberOp(o)
  }

  ghost predicate SlotJoin(base: Slot, ops: set<Operation>, n: NodeId, f: string, result: Slot) {
    if HasMemberOps(ops, n, f) then SetOrAbsent(base) && SetJoin(base, ops, n, f, result)
    else RegisterJoin(base, ops, n, f, result)
  }

  /** `result` is `base` joined with the operations `ops`. */
  ghost predicate Joins(base: Nodes, ops: set<Operation>, result: Nodes) {
    && result.Keys == base.Keys + (set o | o in ops :: o.action.node)
    && (forall n :: n in result ==> result[n].id == NodeOrNew(base, n).id)
    && forall n, f :: SlotJoin(SlotAt(base, n, f), ops, n, f, SlotAt(result, n, f))
  }

  // ---------------------------------------------------------------- the description is exact

  /** Only one entry of a member is described. */
  lemma MemberJoinUnique(base: Slot, ops: set<Operation>, n: NodeId, f: string, s1: SetState, s2: SetState, x: NodeId)
    requires MarkersIdentify(ops) && SetOrAbsent(base)
    requires MemberJoin(x, ops, base, n, f, s1) && MemberJoin(x, ops, base, n, f, s2)
    ensures Lookup(s1.members, x) == Lookup(s2.members, x) && Lookup(s1.removed, x) == Lookup(s2.removed, x)
  {
    MarkerOrder();
  }

  lemma SetJoinUnique(base: Slot, ops: set<Operation>, n: NodeId, f: string, r1: Slot, r2: Slot)
    requires MarkersIdentify(ops)
    requires SetOrAbsent(base) && SetJoin(base, ops, n, f, r1) && SetJoin(base, ops, n, f, r2)
    ensures r1 == r2
  {
    MarkerOrder();
    if exists o :: Live(o, ops, base, n, f) {
      var s1, s2 := r1.field.value.value.state, r2.field.value.value.state;
      forall x
        ensures Lookup(s1.members, x) == Lookup(s2.members, x)
        ensures Lookup(s1.removed, x) == Lookup(s2.removed, x)
      {
        MemberJoinUnique(base, ops, n, f, s1, s2, x);
      }
      SameLookups(s1.members, s2.members);
      SameLookups(s1.removed, s2.removed);
    }
  }

  lemma RegisterJoinUnique(base: Slot, ops: set<Operation>, n: NodeId, f: string, r1: Slot, r2: Slot)
    requires MarkersIdentify(ops)
    requires RegisterJoin(base, ops, n, f, r1) && RegisterJoin(base, ops, n, f, r2)
    ensures r1 == r2
  {
    MarkerOrder();
  }

  /** A set of operations has at most one join with a given start. */
  lemma JoinUnique(base: Nodes, ops: set<Operation>, r1: Nodes, r2: Nodes)
    requires MarkersIdentify(ops)
    requires Joins(base, ops, r1) && Joins(base, ops, r2)
    ensures r1 == r2
  {
    forall n, f
      ensures SlotAt(r1, n, f) == SlotAt(r2, n, f)
    {
      var b := SlotAt(base, n, f);
      assert SlotJoin(b, ops, n, f, SlotAt(r1, n, f)) && SlotJoin(b, ops, n, f, SlotAt(r2, n, f));
      if HasMemberOps(ops, n, f) {
        SetJoinUnique(b, ops, n, f, SlotAt(r1, n, f), SlotAt(r2, n, f));
      } else {
        RegisterJoinUnique(b, ops, n, f, SlotAt(r1, n, f), SlotAt(r2, n, f));
      }
    }
    Extensional(r1, r2);
  }

  // ---------------------------------------------------------------- every step keeps it

  lemma RegisterStep(base: Slot, ops: set<Operation>, n: NodeId, f: string, current: Slot, op: Operation)
    requires At(op, n, f) && !IsMemberOp(op)
    requires MarkersIdentify(ops + {op})
    requires forall o :: o in ops && At(o, n, f) ==> !IsMemberOp(o)
    requires RegisterJoin(base, ops, n, f, current)
    ensures RegisterJoin(base, ops + {op}, n, f, StepSlot(current, op).0)
  {
    MarkerOrder();
    var ops' := ops + {op};
    var next := StepSlot(current, op).0;
    if w :| NewestWrite(w, ops, base, n, f) && current == Written(w) {
      if Lt(MarkerOf(w), MarkerOf(op)) {
        assert NewestWrite(op, ops', base, n, f) && next == Written(op);
      } else {
        assert NewestWrite(w, ops', base, n, f) && next == Written(w);
      }
    } else if Outdates(op, base) {
      assert NewestWrite(op, ops', base, n, f) && next == Written(op);
    }
  }

  /** What a member operation does to a set that its tombstone lets it reach. */
  function StepSet(s: SetState, op: Operation): SetState
    requires IsMemberOp(op)
  {
    if MemberBlocked(s, op.action.member, MarkerOf(op)) then s
    else if op.action.AddMember? then Joined(s, op.action.member, MarkerOf(op))
    else Dropped(s, op.action.member, MarkerOf(op))
  }

  lemma LiveGrows(base: Slot, ops: set<Operation>, n: NodeId, f: string, op: Operation)
    requires SetOrAbsent(base) && At(op, n, f) && IsMemberOp(op) && OutdatesMember(op, base)
    ensures forall o :: Live(o, ops + {op}, base, n, f) <==> Live(o, ops, base, n, f) || o == op
  {
  }

  /** An operation on one member leaves the others as they were. */
  lemma SetStepOther(base: Slot, ops: set<Operation>, n: NodeId, f: string, s: SetState, op: Operation, x: NodeId)
    requires SetOrAbsent(base) && At(op, n, f) && IsMemberOp(op) && OutdatesMember(op, base)
    requires x != op.action.member && MemberJoin(x, ops, base, n, f, s)
    ensures MemberJoin(x, ops + {op}, base, n, f, StepSet(s, op))
  {
    LiveGrows(base, ops, n, f, op);
    assert Agree(StepSet(s, op), s, x);
    if w :| NewestFor(w, x, ops, base, n, f) && Records(s, x, w) {
      assert NewestFor(w, x, ops + {op}, base, n, f) && Records(StepSet(s, op), x, w);
    }
  }

  /** A later operation on `x` replaces an earlier one; an earlier one is refused. */
  lemma SetStepDecided(base: Slot, ops: set<Operation>, n: NodeId, f: string, s: SetState, op: Operation, w: Operation)
    requires SetOrAbsent(base) && At(op, n, f) && IsMemberOp(op) && OutdatesMember(op, base)
    requires MarkersIdentify(ops + {op})
    requires s.baseline == BaseSet(base).baseline
    requires NewestFor(w, op.action.member, ops, base, n, f) && Records(s, op.action.member, w)
    requires Lt(ZERO_MARKER, MarkerOf(op))
    ensures MemberJoin(op.action.member, ops + {op}, base, n, f, StepSet(s, op))
  {
    var ops' := ops + {op};
    var s' := StepSet(s, op);
    var x := op.action.member;
    LiveGrows(base, ops, n, f, op);
    if Lt(MarkerOf(w), MarkerOf(op)) {
      assert NewestFor(op, x, ops', base, n, f) by { MarkerOrder(); }
      assert Records(s', x, op) by { NotBlocked(base, s, op); }
    } else {
      assert NewestFor(w, x, ops', base, n, f) by { MarkerOrder(); }
      assert s' == s by { MarkerOrder(); }
    }
  }

  /** An operation passes a set whose entry for its member is older and whose baseline is the start's. */
  lemma NotBlocked(base: Slot, s: SetState, op: Operation)
    requires SetOrAbsent(base) && IsMemberOp(op) && OutdatesMember(op, base)
    requires Lt(ZERO_MARKER, MarkerOf(op))
    requires s.baseline == BaseSet(base).baseline
    requires || Agree(s, BaseSet(base), op.action.member)
             || exists w :: Records(s, op.action.member, w) && Lt(MarkerOf(w), MarkerOf(op))
    ensures !MemberBlocked(s, op.action.member, MarkerOf(op))
  {
    MarkerOrder();
  }

  /** The entry of every member stays the newest live operation on it. */
  lemma SetStepMember(base: Slot, ops: set<Operation>, n: NodeId, f: string, s: SetState, op: Operation, x: NodeId)
    requires SetOrAbsent(base) && At(op, n, f) && IsMemberOp(op)
    requires MarkersIdentify(ops + {op})
    requires Lt(ZERO_MARKER, MarkerOf(op))
    requires s.baseline == BaseSet(base).baseline
    requires MemberJoin(x, ops, base, n, f, s)
    requires OutdatesMember(op, base)
    ensures MemberJoin(x, ops + {op}, base, n, f, StepSet(s, op))
  {
    var ops' := ops + {op};
    var s' := StepSet(s, op);
    LiveGrows(base, ops, n, f, op);
    if x != op.action.member {
      SetStepOther(base, ops, n, f, s, op, x);
    } else if w :| NewestFor(w, x, ops, base, n, f) && Records(s, x, w) {
      SetStepDecided(base, ops, n, f, s, op, w);
    } else {
      NotBlocked(base, s, op);
      assert NewestFor(op, x, ops', base, n, f) && Records(s', x, op);
    }
  }

  /** An operation that changes nothing is no newer than a live operation on its member. */
  lemma BlockedIsOld(base: Slot, ops: set<Operation>, n: NodeId, f: string, s: SetState, op: Operation)
    requires SetOrAbsent(base) && IsMemberOp(op) && OutdatesMember(op, base) && Lt(ZERO_MARKER, MarkerOf(op))
    requires s.baseline == BaseSet(base).baseline && MemberBlocked(s, op.action.member, MarkerOf(op))
    requires MemberJoin(op.action.member, ops, base, n, f, s)
    ensures exists w :: Live(w, ops, base, n, f) && Le(MarkerOf(op), MarkerOf(w))
  {
    MarkerOrder();
  }

  lemma VersionMoves(base: Slot, ops: set<Operation>, n: NodeId, f: string, version: Marker, op: Operation)
    requires SetOrAbsent(base) && At(op, n, f) && IsMemberOp(op) && OutdatesMember(op, base)
    requires VersionJoin(ops, base, n, f, version)
    ensures VersionJoin(ops + {op}, base, n, f, Max(version, MarkerOf(op)))
  {
    MarkerOrder();
    LiveGrows(base, ops, n, f, op);
    assert Live(op, ops + {op}, base, n, f);
  }

  /** The version stays the newest marker that reached the set. */
  lemma SetStepVersion(base: Slot, ops: set<Operation>, n: NodeId, f: string, s: SetState, version: Marker,
                       op: Operation)
    requires SetOrAbsent(base) && At(op, n, f) && IsMemberOp(op)
    requires OutdatesMember(op, base) && Lt(ZERO_MARKER, MarkerOf(op))
    requires s.baseline == BaseSet(base).baseline
    requires VersionJoin(ops, base, n, f, version)
    requires MemberJoin(op.action.member, ops, base, n, f, s)
    ensures VersionJoin(ops + {op}, base, n, f, if StepSet(s, op) == s then version else Max(version, MarkerOf(op)))
  {
    LiveGrows(base, ops, n, f, op);
    SetStepMoves(s, op);
    if StepSet(s, op) == s {
      BlockedIsOld(base, ops, n, f, s, op);
      assert Le(MarkerOf(op), version) by { MarkerOrder(); }
    } else {
      VersionMoves(base, ops, n, f, version, op);
    }
  }

  lemma SetStep(base: Slot, ops: set<Operation>, n: NodeId, f: string, current: Slot, op: Operation)
    requires SetOrAbsent(base) && At(op, n, f) && IsMemberOp(op)
    requires MarkersIdentify(ops + {op})
    requires Lt(ZERO_MARKER, MarkerOf(op))
    requires SetJoin(base, ops, n, f, current)
    ensures SetJoin(base, ops + {op}, n, f, StepSlot(current, op).0)
  {
    var ops' := ops + {op};
    var next := StepSlot(current, op).0;
    if !OutdatesMember(op, base) {
      SetStepRefused(base, ops, n, f, current, op);
    } else {
      assert Live(op, ops', base, n, f);
      if current.field.None? {
        assert current == base && forall o :: !Live(o, ops, base, n, f);
        assert forall o :: Live(o, ops', base, n, f) ==> Live(o, ops, base, n, f) || o == op;
        forall x ensures MemberJoin(x, ops', base, n, f, next.field.value.value.state) {
          if x == op.action.member {
            assert NewestFor(op, x, ops', base, n, f);
          }
        }
      } else {
        SetStepGrows(base, ops, n, f, current, op);
      }
    }
  }

  lemma SetStepGrows(base: Slot, ops: set<Operation>, n: NodeId, f: string, current: Slot, op: Operation)
    requires SetOrAbsent(base) && At(op, n, f) && IsMemberOp(op)
    requires MarkersIdentify(ops + {op})
    requires Lt(ZERO_MARKER, MarkerOf(op))
    requires SetJoin(base, ops, n, f, current) && current.field.Some? && OutdatesMember(op, base)
    ensures SetJoin(base, ops + {op}, n, f, StepSlot(current, op).0)
  {
    var ops' := ops + {op};
    var next := StepSlot(current, op).0;
    var s := current.field.value.value.state;
    assert Live(op, ops', base, n, f);
    assert next.field.value.value.state == StepSet(s, op);
    forall x ensures MemberJoin(x, ops', base, n, f, StepSet(s, op)) {
      assert MemberJoin(x, ops, base, n, f, s);
      SetStepMember(base, ops, n, f, s, op, x);
    }
    assert MemberJoin(op.action.member, ops, base, n, f, s);
    CurrentVersion(base, ops, n, f, current);
    SetStepVersion(base, ops, n, f, s, current.field.value.version, op);
    SetStepMoves(s, op);
  }

  lemma CurrentVersion(base: Slot, ops: set<Operation>, n: NodeId, f: string, current: Slot)
    requires SetOrAbsent(base) && SetJoin(base, ops, n, f, current) && current.field.Some?
    ensures VersionJoin(ops, base, n, f, current.field.value.version)
  {
  }

  lemma SetStepMoves(s: SetState, op: Operation)
    requires IsMemberOp(op)
    ensures StepSet(s, op) == s <==> MemberBlocked(s, op.action.member, MarkerOf(op))
  {
    var x := op.action.member;
    if !MemberBlocked(s, x, MarkerOf(op)) {
      assert Records(StepSet(s, op), x, op);
      assert !Records(s, x, op);
    }
  }

  lemma SetStepRefused(base: Slot, ops: set<Operation>, n: NodeId, f: string, current: Slot, op: Operation)
    requires SetOrAbsent(base) && At(op, n, f) && IsMemberOp(op)
    requires Lt(ZERO_MARKER, MarkerOf(op))
    requires SetJoin(base, ops, n, f, current)
    requires !OutdatesMember(op, base)
    ensures SetJoin(base, ops + {op}, n, f, StepSlot(current, op).0)
  {
    var ops' := ops + {op};
    assert forall o :: Live(o, ops', base, n, f) <==> Live(o, ops, base, n, f);
    var x := op.action.member;
    if exists o :: Live(o, ops, base, n, f) {
      var s := current.field.value.value.state;
      assert MemberJoin(x, ops, base, n, f, s);
      assert StepSlot(current, op).0 == current by { MarkerOrder(); }
      forall y ensures MemberJoin(y, ops', base, n, f, s) {
        assert MemberJoin(y, ops, base, n, f, s);
        if w :| NewestFor(w, y, ops, base, n, f) && Records(s, y, w) {
          assert NewestFor(w, y, ops', base, n, f);
        }
      }
    }
  }

  lemma OtherSlot(base: Slot, ops: set<Operation>, n: NodeId, f: string, current: Slot, op: Operation)
    requires !At(op, n, f)
    requires SlotJoin(base, ops, n, f, current)
    ensures SlotJoin(base, ops + {op}, n, f, current)
  {
    var ops' := ops + {op};
    assert forall o :: o in ops' && At(o, n, f) <==> o in ops && At(o, n, f);
    if HasMemberOps(ops, n, f) {
      assert HasMemberOps(ops', n, f);
      assert forall o :: Live(o, ops', base, n, f) <==> Live(o, ops, base, n, f);
      if exists o :: Live(o, ops, base, n, f) {
        var s := current.field.value.value.state;
        forall x ensures MemberJoin(x, ops', base, n, f, s) {
          assert MemberJoin(x, ops, base, n, f, s);
          if w :| NewestFor(w, x, ops, base, n, f) && Records(s, x, w) {
            assert NewestFor(w, x, ops', base, n, f);
          }
        }
      }
    } else {
      if w :| NewestWrite(w, ops, base, n, f) && current == Written(w) {
        assert NewestWrite(w, ops', base, n, f);
      }
    }
  }

  lemma SlotStep(base: Slot, ops: set<Operation>, n: NodeId, f: string, current: Slot, op: Operation)
    requires At(op, n, f)
    requires Unmixed(ops + {op}) && MarkersIdentify(ops + {op}) && AboveZero(ops + {op})
    requires IsMemberOp(op) ==> SetOrAbsent(base)
    requires SlotJoin(base, ops, n, f, current)
    ensures SlotJoin(base, ops + {op}, n, f, StepSlot(current, op).0)
  {
    var ops' := ops + {op};
    assert op in ops';
    assert forall o :: o in ops && At(o, n, f) ==> SameSlot(o, op) && o in ops';
    if IsMemberOp(op) {
      assert HasMemberOps(ops', n, f);
      if !HasMemberOps(ops, n, f) {
        assert forall o :: !(o in ops && At(o, n, f));
        assert current == base;
      }
      SetStep(base, ops, n, f, current, op);
    } else {
      assert !HasMemberOps(ops', n, f);
      RegisterStep(base, ops, n, f, current, op);
    }
  }

  lemma JoinStepSlot(base: Nodes, ops: set<Operation>, current: Nodes, op: Operation, n: NodeId, f: string)
    requires Mergeable(base, ops + {op})
    requires SlotJoin(SlotAt(base, n, f), ops, n, f, SlotAt(current, n, f))
    ensures SlotJoin(SlotAt(base, n, f), ops + {op}, n, f, SlotAt(Apply(current, op), n, f))
  {
    ApplySlots(current, op, n, f);
    if At(op, n, f) {
      assert op in ops + {op};
      SlotStep(SlotAt(base, n, f), ops, n, f, SlotAt(current, n, f), op);
    } else {
      OtherSlot(SlotAt(base, n, f), ops, n, f, SlotAt(current, n, f), op);
    }
  }

  lemma NodesAfter(ops: set<Operation>, op: Operation)
    ensures (set o | o in ops + {op} :: o.action.node) == (set o | o in ops :: o.action.node) + {op.action.node}
  {
    assert op in ops + {op};
    assert forall o :: o in ops ==> o in ops + {op};
  }

  /** Applying one more operation, new or repeated, joins it. */
  lemma JoinStep(base: Nodes, ops: set<Operation>, current: Nodes, op: Operation)
    requires Mergeable(base, ops + {op})
    requires Joins(base, ops, current)
    ensures Joins(base, ops + {op}, Apply(current, op))
  {
    forall n, f
      ensures SlotJoin(SlotAt(base, n, f), ops + {op}, n, f, SlotAt(Apply(current, op), n, f))
    {
      assert SlotJoin(SlotAt(base, n, f), ops, n, f, SlotAt(current, n, f));
      JoinStepSlot(base, ops, current, op, n, f);
    }
    NodesAfter(ops, op);
    forall n | n in Apply(current, op)
      ensures Apply(current, op)[n].id == NodeOrNew(base, n).id
    {
      ApplySlots(current, op, n, "");
    }
  }

  function Elements(ops: seq<Operation>): set<Operation> {
    set o | o in ops
  }

  /** Replay computes the join: newest write per slot, newest operation per member. */
  lemma {:induction false} ReplayJoins(base: Nodes, ops: seq<Operation>)
    requires Mergeable(base, Elements(ops))
    ensures Joins(base, Elements(ops), Replay(base, ops))
    decreases |ops|
  {
    if ops == [] {
      forall n, f
        ensures SlotJoin(SlotAt(base, n, f), {}, n, f, SlotAt(base, n, f))
      {
      }
    } else {
      var front, last := ops[..|ops| - 1], ops[|ops| - 1];
      assert Elements(ops) == Elements(front) + {last};
      ReplayJoins(base, front);
      JoinStep(base, Elements(front), Replay(base, front), last);
    }
  }

  // ---------------------------------------------------------------- the clock

  function ReplayClock(c: ClockState, ops: seq<Operation>): ClockState
    decreases |ops|
  {
    if ops == [] then c else Observed(ReplayClock(c, ops[..|ops| - 1]), ops[|ops| - 1].revision)
  }

  predicate SamePosition(c: ClockState, r: Revision) {
    c.lastMillis == r.millis && c.counter == r.counter
  }

  /** The clock stands at the latest position among its start and the revisions observed. */
  ghost predicate Observes(start: ClockState, revisions: set<Revision>, c: ClockState) {
    && c.actor == start.actor && c.sequence == start.sequence
    && Dominates(c, Current(start))
    && (forall r :: r in revisions ==> Dominates(c, r))
    && (SamePosition(c, Current(start)) || exists r :: r in revisions && SamePosition(c, r))
  }

  lemma ObservesUnique(start: ClockState, revisions: set<Revision>, c: ClockState, d: ClockState)
    requires Observes(start, revisions, c) && Observes(start, revisions, d)
    ensures c == d
  {
  }

  lemma ObservesCompose(start: ClockState, r: set<Revision>, c: ClockState, s: set<Revision>, d: ClockState)
    requires Observes(start, r, c) && Observes(c, s, d)
    ensures Observes(start, r + s, d)
  {
    if SamePosition(d, Current(c)) && !SamePosition(c, Current(start)) {
      var x :| x in r && SamePosition(c, x);
      assert x in r + s && SamePosition(d, x);
    }
    forall x | x in r + s ensures Dominates(d, x) {
    }
    if y :| y in s && SamePosition(d, y) {
      assert y in r + s;
    }
  }

  function RevisionsOf(ops: set<Operation>): set<Revision> {
    set o | o in ops :: o.revision
  }

  lemma {:induction false} ReplayClockObserves(start: ClockState, ops: seq<Operation>)
    ensures Observes(start, RevisionsOf(Elements(ops)), ReplayClock(start, ops))
    decreases |ops|
  {
    if ops != [] {
      var front, last := ops[..|ops| - 1], ops[|ops| - 1];
      assert Elements(ops) == Elements(front) + {last};
      ReplayClockObserves(start, front);
      ObservesCompose(start, RevisionsOf(Elements(front)), ReplayClock(start, front), {last.revision},
        ReplayClock(start, ops));
      assert RevisionsOf(Elements(front)) + {last.revision} == RevisionsOf(Elements(ops));
    }
  }

  /**
    Strong convergence: two replicas that start alike and see the same operations, in any order
    and however often repeated, hold the same graph and stand at the same clock position.
   */
  lemma StrongConvergence(base: Nodes, start: ClockState, a: seq<Operation>, b: seq<Operation>)
    requires Elements(a) == Elements(b)
    requires Mergeable(base, Elements(a))
    ensures Replay(base, a) == Replay(base, b)
    ensures ReplayClock(start, a) == ReplayClock(start, b)
  {
    ReplayJoins(base, a);
    ReplayJoins(base, b);
    JoinUnique(base, Elements(a), Replay(base, a), Replay(base, b));
    ReplayClockObserves(start, a);
    ReplayClockObserves(start, b);
    ObservesUnique(start, RevisionsOf(Elements(a)), ReplayClock(start, a), ReplayClock(start, b));
  }

  // ---------------------------------------------------------------- mixed slots

  /** A member operation makes of the old slot what it makes of the newly written one. */
  predicate Absorbs(slot: Slot, write: Operation, member: Operation)
    requires !IsMemberOp(write) && IsMemberOp(member)
  {
    && write.action.SetField? && slot.tomb.None?
    && if write.action.value.SetValue? then
         && slot.field.Some? && slot.field.value.value.Set?
         && SameButOne(slot.field.value.value.state, StoredValue(write.action.value, MarkerOf(write)).state,
            member.action.member)
       else if slot.field.Some? && slot.field.value.value.Set? then
         && member.action.RemoveMember?
         && SameButOne(slot.field.value.value.state, SetState(ZERO_MARKER, map[], map[]), member.action.member)
       else slot.field.Some? || member.action.RemoveMember?
  }

  /** Two set states that differ at most in the entry of one member. */
  predicate SameButOne(a: SetState, b: SetState, x: NodeId) {
    a.baseline == b.baseline && a.members - {x} == b.members - {x} && a.removed - {x} == b.removed - {x}
  }

  /**
    Whether a write and a member operation on one slot commute: the write is refused there, or is the
    newer one, or the slot was already such that the member operation does not show the difference.
   */
  predicate Commutes(slot: Slot, write: Operation, member: Operation)
    requires !IsMemberOp(write) && IsMemberOp(member)
  {
    || !StepSlot(slot, write).1
    || Lt(MarkerOf(member), MarkerOf(write))
    || (StepSlot(slot, member).1 && Absorbs(slot, write, member))
  }

  predicate Meet(write: Operation, member: Operation) {
    && !IsMemberOp(write) && IsMemberOp(member) && MarkerOf(write) != MarkerOf(member)
    && Lt(ZERO_MARKER, MarkerOf(write)) && Lt(ZERO_MARKER, MarkerOf(member))
  }

  /** A refused write stays refused after a member operation. */
  lemma RefusedWrite(slot: Slot, write: Operation, member: Operation)
    requires Meet(write, member) && !StepSlot(slot, write).1
    ensures StepSlot(StepSlot(slot, member).0, write).0 == StepSlot(slot, member).0
  {
    MarkerOrder();
    var after := StepSlot(slot, member).0;
    assert after.tomb == slot.tomb;
    assert slot.field.Some? ==> after.field.Some? && Le(slot.field.value.version, after.field.value.version);
  }

  lemma MemberOnWritten(write: Operation, member: Operation)
    requires Meet(write, member)
    ensures StepSlot(Written(write), member).1 <==> Lt(MarkerOf(write), MarkerOf(member))
    ensures !StepSlot(Written(write), member).1 ==> StepSlot(Written(write), member).0 == Written(write)
    ensures StepSlot(Written(write), member).1 ==> StepSlot(Written(write), member).0 != Written(write)
  {
    MarkerOrder();
  }

  /** A write that would be accepted, after a member operation. */
  lemma WriteAfterMember(slot: Slot, write: Operation, member: Operation)
    requires Meet(write, member) && StepSlot(slot, write).1
    ensures StepSlot(slot, write).0 == Written(write)
    ensures StepSlot(StepSlot(slot, member).0, write).0 ==
            if StepSlot(slot, member).1 && Lt(MarkerOf(write), MarkerOf(member)) then StepSlot(slot, member).0
            else Written(write)
  {
    MarkerOrder();
    var after := StepSlot(slot, member).0;
    assert after.tomb == slot.tomb;
    if StepSlot(slot, member).1 {
      assert after.field.Some?;
      assert after.field.value.version == MarkerOf(member) ||
             (slot.field.Some? && after.field.value.version == Max(slot.field.value.version, MarkerOf(member)));
    }
  }

  lemma JoinedSame(a: SetState, b: SetState, x: NodeId, m: Marker)
    ensures Graph.Joined(a, x, m) == Graph.Joined(b, x, m) <==> SameButOne(a, b, x)
    ensures Dropped(a, x, m) == Dropped(b, x, m) <==> SameButOne(a, b, x)
  {
    PutSame(a.members, b.members, x, m);
    PutSame(a.removed, b.removed, x, m);
  }

  lemma PutSame<V>(a: map<NodeId, V>, b: map<NodeId, V>, x: NodeId, v: V)
    ensures a[x := v] == b[x := v] <==> a - {x} == b - {x}
  {
    if a[x := v] == b[x := v] {
      assert a - {x} == a[x := v] - {x};
      assert b - {x} == b[x := v] - {x};
    }
    if a - {x} == b - {x} {
      assert a[x := v] == (a - {x})[x := v];
      assert b[x := v] == (b - {x})[x := v];
    }
  }

  /** The newer member operation, accepted on both slots, makes them equal exactly if the old one absorbs it. */
  lemma SameAfterMember(slot: Slot, write: Operation, member: Operation)
    requires Meet(write, member) && StepSlot(slot, write).1 && StepSlot(slot, member).1
    requires Lt(MarkerOf(write), MarkerOf(member))
    ensures StepSlot(Written(write), member).0 == StepSlot(slot, member).0 <==> Absorbs(slot, write, member)
  {
    MarkerOrder();
    MemberOnWritten(write, member);
    var x, m := member.action.member, MarkerOf(member);
    var none := SetState(ZERO_MARKER, map[], map[]);
    if slot.field.Some? && slot.field.value.value.Set? {
      var s := slot.field.value.value.state;
      JoinedSame(s, none, x, m);
      if write.action.SetField? && write.action.value.SetValue? {
        JoinedSame(s, StoredValue(write.action.value, MarkerOf(write)).state, x, m);
      }
    }
  }

  /** On any slot, a write and a member operation commute exactly under the condition. */
  lemma MixedSlots(slot: Slot, write: Operation, member: Operation)
    requires Meet(write, member)
    ensures StepSlot(StepSlot(slot, write).0, member).0 == StepSlot(StepSlot(slot, member).0, write).0
            <==> Commutes(slot, write, member)
  {
    if !StepSlot(slot, write).1 {
      RefusedWrite(slot, write, member);
    } else {
      WriteAfterMember(slot, write, member);
      MemberOnWritten(write, member);
      MarkerOrder();
      if StepSlot(slot, member).1 && Lt(MarkerOf(write), MarkerOf(member)) {
        SameAfterMember(slot, write, member);
      }
    }
  }

  /** On an empty slot the write must be newer, or a plain value meet a removal. */
  lemma MixedOnEmpty(write: Operation, member: Operation)
    requires Meet(write, member)
    ensures Commutes(EMPTY_SLOT, write, member) <==>
            || Lt(MarkerOf(member), MarkerOf(write))
            || (write.action.SetField? && !write.action.value.SetValue? && member.action.RemoveMember?)
  {
    MarkerOrder();
  }

  /**
    The hypothesis that slots are unmixed is needed: a write and a member operation that meet in one
    slot of any graph commute exactly under the condition; otherwise the surviving baseline, tombstone
    or entry shows which arrived first.
   */
  lemma MixedPair(base: Nodes, write: Operation, member: Operation)
    requires SameSlot(write, member) && Meet(write, member)
    ensures Replay(base, [write, member]) == Replay(base, [member, write])
            <==> Commutes(SlotAt(base, write.action.node, write.action.field), write, member)
  {
    var n, f := write.action.node, write.action.field;
    var x, y := Replay(base, [write, member]), Replay(base, [member, write]);
    MixedSlots(SlotAt(base, n, f), write, member);
    TwoSteps(base, write, member, n, f);
    TwoSteps(base, member, write, n, f);
    if SlotAt(x, n, f) == SlotAt(y, n, f) {
      forall k, g ensures SlotAt(x, k, g) == SlotAt(y, k, g) {
        TwoSteps(base, write, member, k, g);
        TwoSteps(base, member, write, k, g);
      }
      forall k | k in x ensures x[k].id == y[k].id {
        TwoSteps(base, write, member, k, f);
        TwoSteps(base, member, write, k, f);
      }
      Extensional(x, y);
    }
  }

  lemma TwoSteps(base: Nodes, a: Operation, b: Operation, n: NodeId, f: string)
    requires SameSlot(a, b)
    ensures var x := Replay(base, [a, b]);
            && x.Keys == base.Keys + {a.action.node} && (n in x ==> x[n].id == NodeOrNew(base, n).id)
            && SlotAt(x, n, f) ==
               if At(a, n, f) then StepSlot(StepSlot(SlotAt(base, n, f), a).0, b).0 else SlotAt(base, n, f)
  {
    assert [a, b][..1] == [a] && [a][..0] == [];
    assert Replay(base, [a]) == Apply(base, a);
    assert Replay(base, [a, b]) == Apply(Apply(base, a), b);
    ApplySlots(base, a, n, f);
    ApplySlots(Apply(base, a), b, n, f);
  }

  /** One case: a deletion and then an addition leave a tombstone beside the set, the other order does not. */
  lemma MixedFails()
    ensures var drop := Operation("a", "r", Revision(1, 0, "r"), DeleteField("n", "f"));
            var add := Operation("b", "r", Revision(2, 0, "r"), AddMember("n", "f", "x"));
            Replay(map[], [drop, add]) != Replay(map[], [add, drop])
  {
    var drop := Operation("a", "r", Revision(1, 0, "r"), DeleteField("n", "f"));
    var add := Operation("b", "r", Revision(2, 0, "r"), AddMember("n", "f", "x"));
    var none: Nodes := map[];
    assert SlotAt(none, "n", "f") == EMPTY_SLOT;
    MixedPair(none, drop, add);
    MixedOnEmpty(drop, add);
  }
}
