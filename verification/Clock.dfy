/**
  Version markers and the hybrid logical clock that issues them.
  Millis are 64-bit and only compared, so they are unbounded here; the counter
  is 32-bit and saturates, which is modelled.
 */
module Clock {
  import opened Order

  const MAX_COUNTER: nat := 0xFFFF_FFFF

  datatype Revision = Revision(millis: nat, counter: nat, actor: string)

  datatype Marker = Marker(revision: Revision, opId: string)

  /** Order of the (millis, counter) part of a revision. */
  predicate Earlier(aMillis: nat, aCounter: nat, bMillis: nat, bCounter: nat) {
    aMillis < bMillis || (aMillis == bMillis && aCounter < bCounter)
  }

  predicate RevisionLess(a: Revision, b: Revision) {
    || Earlier(a.millis, a.counter, b.millis, b.counter)
    || (a.millis == b.millis && a.counter == b.counter && Less(a.actor, b.actor))
  }

  predicate Lt(a: Marker, b: Marker) {
    RevisionLess(a.revision, b.revision) || (a.revision == b.revision && Less(a.opId, b.opId))
  }

  predicate Le(a: Marker, b: Marker) {
    a == b || Lt(a, b)
  }

  function Max(a: Marker, b: Marker): Marker {
    if Lt(a, b) then b else a
  }

  const ZERO_MARKER := Marker(Revision(0, 0, ""), "")

  /** Revisions are totally ordered. */
  lemma RevisionOrder()
    ensures forall a: Revision :: !RevisionLess(a, a)
    ensures forall a: Revision, b: Revision :: RevisionLess(a, b) || a == b || RevisionLess(b, a)
    ensures forall a: Revision, b: Revision, c: Revision ::
              RevisionLess(a, b) && RevisionLess(b, c) ==> RevisionLess(a, c)
  {
    StringOrder();
  }

  /** Markers are totally ordered and ZERO_MARKER is the least of them. */
  lemma MarkerOrder()
    ensures forall a: Marker :: !Lt(a, a)
    ensures forall a: Marker, b: Marker :: Lt(a, b) || a == b || Lt(b, a)
    ensures forall a: Marker, b: Marker, c: Marker :: Lt(a, b) && Lt(b, c) ==> Lt(a, c)
    ensures forall a: Marker :: Le(ZERO_MARKER, a)
  {
    RevisionOrder();
    StringOrder();
  }

  // ---------------------------------------------------------------- the clock

  datatype ClockState = ClockState(actor: string, lastMillis: nat, counter: nat, sequence: nat)

  function SaturatingNext(counter: nat): nat {
    if counter < MAX_COUNTER then counter + 1 else counter
  }

  function Ticked(c: ClockState, now: nat): ClockState {
    if now > c.lastMillis then c.(lastMillis := now, counter := 0)
    else c.(counter := SaturatingNext(c.counter))
  }

  function Current(c: ClockState): Revision {
    Revision(c.lastMillis, c.counter, c.actor)
  }

  function Observed(c: ClockState, r: Revision): ClockState {
    if r.millis > c.lastMillis then c.(lastMillis := r.millis, counter := r.counter)
    else if r.millis == c.lastMillis && r.counter > c.counter then c.(counter := r.counter)
    else c
  }

  /** The revision is not ahead of the clock. */
  predicate Dominates(c: ClockState, r: Revision) {
    !Earlier(c.lastMillis, c.counter, r.millis, r.counter)
  }

  /** Ticking moves past every position the clock has reached, unless the counter is saturated. */
  predicate Saturated(c: ClockState, now: nat) {
    now <= c.lastMillis && c.counter >= MAX_COUNTER
  }

  class HybridClock {
    var actor: string
    var lastMillis: nat
    var counter: nat
    var sequence: nat

    ghost function State(): ClockState
      reads this
    {
      ClockState(actor, lastMillis, counter, sequence)
    }

    constructor (actor: string, now: nat)
      ensures State() == ClockState(actor, now, 0, 0)
    {
      this.actor, lastMillis, counter, sequence := actor, now, 0, 0;
    }

    /** Issues a revision beyond every revision issued or observed before, until saturation. */
    method NextRevision(now: nat) returns (r: Revision)
      modifies this
      ensures State() == Ticked(old(State()), now)
      ensures r == Current(State())
      ensures forall seen :: old(Dominates(State(), seen)) && !old(Saturated(State(), now)) ==> RevisionLess(seen, r)
    {
      if now > lastMillis {
        lastMillis := now;
        counter := 0;
      } else if counter < MAX_COUNTER {
        counter := counter + 1;
      }
      r := Revision(lastMillis, counter, actor);
    }

    method Observe(revision: Revision)
      modifies this
      ensures State() == Observed(old(State()), revision)
      ensures Dominates(State(), revision)
    {
      if revision.millis > lastMillis {
        lastMillis := revision.millis;
        counter := revision.counter;
      } else if revision.millis == lastMillis && revision.counter > counter {
        counter := revision.counter;
      }
    }
  }

  // ---------------------------------------------------------------- runs of the clock

  datatype ClockEvent = Issue(now: nat) | Observe(seen: Revision)

  function StepClock(c: ClockState, e: ClockEvent): ClockState {
    match e
    case Issue(now) => Ticked(c, now)
    case Observe(seen) => Observed(c, seen)
  }

  function RunClock(c: ClockState, events: seq<ClockEvent>): ClockState
    decreases |events|
  {
    if events == [] then c else StepClock(RunClock(c, events[..|events| - 1]), events[|events| - 1])
  }

  /** The revision issued or observed by event `i` of a run. */
  function RevisionAt(c: ClockState, events: seq<ClockEvent>, i: nat): Revision
    requires i < |events|
  {
    match events[i]
    case Issue(now) => Current(RunClock(c, events[..i + 1]))
    case Observe(seen) => seen
  }

  lemma {:induction false} RunDominates(c: ClockState, events: seq<ClockEvent>, i: nat)
    requires i < |events|
    ensures Dominates(RunClock(c, events), RevisionAt(c, events, i))
    decreases |events|
  {
    var front := events[..|events| - 1];
    if i < |front| {
      RunDominates(c, front, i);
      assert front[..i + 1] == events[..i + 1];
    } else {
      assert events[..i + 1] == events;
    }
  }

  /**
    Over every run, a revision issued before the counter saturates is strictly above every
    revision issued or observed earlier.
   */
  lemma IssuedRevisionsIncrease(c: ClockState, events: seq<ClockEvent>, i: nat, j: nat)
    requires i < j < |events|
    requires events[j].Issue? && !Saturated(RunClock(c, events[..j]), events[j].now)
    ensures RevisionLess(RevisionAt(c, events, i), RevisionAt(c, events, j))
  {
    RunDominates(c, events[..j], i);
    assert events[..j][..i + 1] == events[..i + 1];
    assert events[..j + 1][..j] == events[..j];
  }

  /** A tick goes to the first position behind the clock's that is not before the given time. */
  lemma TickIsNext(c: ClockState, now: nat)
    requires !Saturated(c, now)
    ensures var t := Ticked(c, now);
            && t.lastMillis >= now && Earlier(c.lastMillis, c.counter, t.lastMillis, t.counter)
            && (forall millis: nat, counter: nat ::
                  millis >= now && Earlier(c.lastMillis, c.counter, millis, counter) ==>
                    !Earlier(millis, counter, t.lastMillis, t.counter))
            && t.actor == c.actor && t.sequence == c.sequence
  {
  }

  /** The guard is exact: at a saturated counter the revision of the last position is issued again. */
  lemma SaturationIsExact(c: ClockState, now: nat)
    requires c.counter <= MAX_COUNTER
    ensures RevisionLess(Current(c), Current(Ticked(c, now))) <==> !Saturated(c, now)
    ensures Saturated(c, now) ==> Current(Ticked(c, now)) == Current(c)
  {
    Irreflexive(c.actor);
  }
}
