/**
  The cache-rebuild protocol of text and vector collections. Writers change records under the
  database lock, later raise the change revision, and later still mark caches dirty; rebuilders
  take a snapshot, build without the lock and install what they built if the revision has not moved.
 */
module CacheProtocol {
  import opened Json
  import opened Clock
  import opened Graph
  import opened Transactions
  import opened Compaction

  datatype Kind = Vector | Text

  datatype Collection = Collection(kind: Kind, name: string)

  datatype CacheState = Ready | Stale | Rebuilding

  type Records = map<string, RecordValue>

  /** A cache, with the records it was built from: building is a function of them. */
  datatype Cache = Cache(state: CacheState, dirty: bool, content: Records)

  /** What a change event says was touched: everything, the named record keys, or no record. */
  datatype Impact = Everything | Keys(keys: set<string>) | Nothing

  /** A writer between its mutation and the last of its marks; while it persists it holds a copy of the queue. */
  datatype Writer =
    | Mutated(impact: Impact)
    | Bumped(impact: Impact)
    | Persisting(impact: Impact, captured: seq<Operation>)
    | Persisted(impact: Impact)
    | HalfMarked(impact: Impact)

  /** A rebuilder that has its snapshot, or is about to leave. */
  datatype Rebuilder = Building(of: Collection, revision: nat, snapshot: Records) | Leaving(of: Collection)

  /** What a node holds: no record, a record whose key cannot be read, or a record. */
  datatype Holding = NoRecord | Unreadable | Record(key: string)

  /** Which collection a record key belongs to, for either kind, and what each node holds. */
  datatype Layout = Layout(place: (string, Kind) -> Option<string>, holds: NodeId -> Holding)

  datatype State = State(
    records: Records,
    revision: nat,
    caches: map<Collection, Cache>,
    rebuilding: set<Collection>,
    writers: map<nat, Writer>,
    rebuilders: map<nat, Rebuilder>,
    queue: seq<Operation>)

  const INITIAL := State(map[], 0, map[], {}, map[], map[], [])

  predicate In(k: string, c: Collection, at: Layout) {
    at.place(k, c.kind) == Some(c.name)
  }

  function Within(records: Records, c: Collection, at: Layout): Records {
    map k | k in records && In(k, c, at) :: records[k]
  }

  predicate Touches(impact: Impact, c: Collection, at: Layout) {
    match impact
    case Everything => true
    case Keys(keys) => exists k :: k in keys && In(k, c, at)
    case Nothing => false
  }

  predicate SameRecord(before: Records, after: Records, k: string) {
    (k in before <==> k in after) && (k in before ==> before[k] == after[k])
  }

  /** The event names every record that changed. */
  ghost predicate Covers(impact: Impact, before: Records, after: Records) {
    match impact
    case Everything => true
    case Keys(keys) => forall k :: !SameRecord(before, after, k) ==> k in keys
    case Nothing => before == after
  }

  predicate NeedsRebuild(s: State, c: Collection) {
    c in s.caches ==> s.caches[c].dirty || !s.caches[c].state.Ready?
  }

  function Marked(s: State, impact: Impact, kind: Kind, at: Layout): map<Collection, Cache> {
    map c | c in s.caches ::
      if c.kind == kind && Touches(impact, c, at) then s.caches[c].(state := Stale, dirty := true) else s.caches[c]
  }

  // ---------------------------------------------------------------- what a local transaction announces

  /** The queue of unflushed operations after a transaction. */
  ghost function Queued(queue: seq<Operation>, ops: seq<Operation>): seq<Operation>
    decreases |ops|
  {
    if ops == [] then queue else Pushed(Queued(queue, ops[..|ops| - 1]), ops[|ops| - 1])
  }

  lemma KeysKept(queue: seq<Operation>, longer: seq<Operation>, key: Key)
    requires |queue| <= |longer| && forall i :: 0 <= i < |queue| ==> KeyOf(longer[i]) == KeyOf(queue[i])
    ensures HasKey(queue, key) ==> HasKey(longer, key)
  {
    if i :| 0 <= i < |queue| && KeyOf(queue[i]) == key {
      assert KeyOf(longer[i]) == key;
    }
  }

  /** Some operation writes the record; one of them on a key that was not queued. */
  ghost predicate Writes(ops: seq<Operation>, k: string, at: Layout) {
    exists i :: 0 <= i < |ops| && at.holds(ops[i].action.node) == Record(k)
  }

  ghost predicate WritesNew(queue: seq<Operation>, ops: seq<Operation>, k: string, at: Layout) {
    exists i :: 0 <= i < |ops| && at.holds(ops[i].action.node) == Record(k) && !HasKey(queue, KeyOf(ops[i]))
  }

  /** `longer` is the queue, its keys in place, and then one operation for each key that was not queued. */
  ghost predicate Extends(queue: seq<Operation>, ops: seq<Operation>, longer: seq<Operation>) {
    && |queue| <= |longer|
    && (forall i :: 0 <= i < |queue| ==> KeyOf(longer[i]) == KeyOf(queue[i]))
    && (forall i :: |queue| <= i < |longer| ==> !HasKey(queue, KeyOf(longer[i])) && HasKey(ops, KeyOf(longer[i])))
    && (forall j :: 0 <= j < |ops| ==> HasKey(longer, KeyOf(ops[j])))
  }

  lemma HasMore(ops: seq<Operation>, op: Operation, key: Key)
    ensures HasKey(ops + [op], key) <==> HasKey(ops, key) || key == KeyOf(op)
  {
    var more := ops + [op];
    assert more[|ops|] == op;
    if i :| 0 <= i < |ops| && KeyOf(ops[i]) == key {
      assert KeyOf(more[i]) == key;
    }
  }

  lemma ExtendsMore(queue: seq<Operation>, ops: seq<Operation>, longer: seq<Operation>, op: Operation)
    requires Extends(queue, ops, longer)
    ensures Extends(queue, ops + [op], Pushed(longer, op))
  {
    var end, more := Pushed(longer, op), ops + [op];
    PushedKeys(longer, op);
    KeysKept(queue, longer, KeyOf(op));
    forall i | |queue| <= i < |end| ensures !HasKey(queue, KeyOf(end[i])) && HasKey(more, KeyOf(end[i])) {
      HasMore(ops, op, KeyOf(end[i]));
      if i < |longer| {
        assert KeyOf(end[i]) == KeyOf(longer[i]);
      }
    }
    forall j | 0 <= j < |more| ensures HasKey(end, KeyOf(more[j])) {
      KeysKept(longer, end, KeyOf(more[j]));
      if j == |ops| && !HasKey(longer, KeyOf(op)) {
        assert KeyOf(end[|longer|]) == KeyOf(op);
      }
    }
  }

  /** What lies past the old end of the queue: one operation for each key that was not queued before. */
  lemma {:induction false} Appended(queue: seq<Operation>, ops: seq<Operation>)
    ensures Extends(queue, ops, Queued(queue, ops))
    decreases |ops|
  {
    if ops != [] {
      var front, op := ops[..|ops| - 1], ops[|ops| - 1];
      Appended(queue, front);
      ExtendsMore(queue, front, Queued(queue, front), op);
      assert front + [op] == ops;
    }
  }

  function RecordsOf(ops: seq<Operation>, at: Layout): set<string> {
    set i | 0 <= i < |ops| && at.holds(ops[i].action.node).Record? :: at.holds(ops[i].action.node).key
  }

  /** Some operation touches a record whose key cannot be read; one of them on a key that was not queued. */
  predicate Blind(ops: seq<Operation>, at: Layout) {
    exists i :: 0 <= i < |ops| && at.holds(ops[i].action.node).Unreadable?
  }

  ghost predicate BlindNew(queue: seq<Operation>, ops: seq<Operation>, at: Layout) {
    exists i :: 0 <= i < |ops| && at.holds(ops[i].action.node).Unreadable? && !HasKey(queue, KeyOf(ops[i]))
  }

  /** The event of some operations: the records they touch, or everything if one of them has no readable key. */
  function ImpactOf(ops: seq<Operation>, at: Layout): Impact {
    if Blind(ops, at) then Everything
    else if RecordsOf(ops, at) == {} then Nothing
    else Keys(RecordsOf(ops, at))
  }

  lemma RecordsAreWritten(ops: seq<Operation>, k: string, at: Layout)
    ensures k in RecordsOf(ops, at) <==> Writes(ops, k, at)
  {
  }

  ghost function Suffix(queue: seq<Operation>, ops: seq<Operation>): seq<Operation> {
    Appended(queue, ops);
    Queued(queue, ops)[|queue|..]
  }

  /** The change event of a local transaction, read off the operations past the queue's old end. */
  ghost function Announced(queue: seq<Operation>, ops: seq<Operation>, at: Layout): Impact {
    ImpactOf(Suffix(queue, ops), at)
  }

  predicate Names(impact: Impact, k: string) {
    impact.Everything? || (impact.Keys? && k in impact.keys)
  }

  lemma SameKeySameNode(a: Operation, b: Operation)
    requires KeyOf(a) == KeyOf(b)
    ensures a.action.node == b.action.node
  {
    assert KeyOf(a).node == a.action.node && KeyOf(b).node == b.action.node;
  }

  /** An operation past the old end has the node of one on a key that was not queued. */
  lemma SuffixIsNew(queue: seq<Operation>, ops: seq<Operation>, i: nat) returns (j: nat)
    requires i < |Suffix(queue, ops)|
    ensures j < |ops| && ops[j].action.node == Suffix(queue, ops)[i].action.node && !HasKey(queue, KeyOf(ops[j]))
  {
    Appended(queue, ops);
    var suffix := Suffix(queue, ops);
    assert suffix[i] == Queued(queue, ops)[|queue| + i];
    j :| 0 <= j < |ops| && KeyOf(ops[j]) == KeyOf(suffix[i]);
    SameKeySameNode(ops[j], suffix[i]);
  }

  /** And the other way round. */
  lemma NewIsInSuffix(queue: seq<Operation>, ops: seq<Operation>, j: nat) returns (i: nat)
    requires j < |ops| && !HasKey(queue, KeyOf(ops[j]))
    ensures i < |Suffix(queue, ops)| && Suffix(queue, ops)[i].action.node == ops[j].action.node
  {
    Appended(queue, ops);
    var all := Queued(queue, ops);
    var m :| 0 <= m < |all| && KeyOf(all[m]) == KeyOf(ops[j]);
    assert |queue| <= m;
    SameKeySameNode(all[m], ops[j]);
    i := m - |queue|;
    assert Suffix(queue, ops)[i] == all[m];
  }

  lemma SuffixWrites(queue: seq<Operation>, ops: seq<Operation>, k: string, at: Layout)
    ensures Writes(Suffix(queue, ops), k, at) <==> WritesNew(queue, ops, k, at)
  {
    if Writes(Suffix(queue, ops), k, at) {
      var i :| 0 <= i < |Suffix(queue, ops)| && at.holds(Suffix(queue, ops)[i].action.node) == Record(k);
      var j := SuffixIsNew(queue, ops, i);
    }
    if WritesNew(queue, ops, k, at) {
      var j :| 0 <= j < |ops| && at.holds(ops[j].action.node) == Record(k) && !HasKey(queue, KeyOf(ops[j]));
      var i := NewIsInSuffix(queue, ops, j);
    }
  }

  lemma SuffixBlind(queue: seq<Operation>, ops: seq<Operation>, at: Layout)
    ensures Blind(Suffix(queue, ops), at) <==> BlindNew(queue, ops, at)
  {
    if Blind(Suffix(queue, ops), at) {
      var i :| 0 <= i < |Suffix(queue, ops)| && at.holds(Suffix(queue, ops)[i].action.node).Unreadable?;
      var j := SuffixIsNew(queue, ops, i);
    }
    if BlindNew(queue, ops, at) {
      var j :| 0 <= j < |ops| && at.holds(ops[j].action.node).Unreadable? && !HasKey(queue, KeyOf(ops[j]));
      var i := NewIsInSuffix(queue, ops, j);
    }
  }

  lemma ImpactNames(ops: seq<Operation>, k: string, at: Layout)
    ensures Names(ImpactOf(ops, at), k) <==> Writes(ops, k, at) || Blind(ops, at)
  {
    RecordsAreWritten(ops, k, at);
  }

  /** The event names exactly the records written through a key that was not queued, or everything. */
  lemma AnnouncedNames(queue: seq<Operation>, ops: seq<Operation>, k: string, at: Layout)
    ensures Names(Announced(queue, ops, at), k) <==> WritesNew(queue, ops, k, at) || BlindNew(queue, ops, at)
  {
    ImpactNames(Suffix(queue, ops), k, at);
    SuffixWrites(queue, ops, k, at);
    SuffixBlind(queue, ops, at);
  }

  lemma NamesCover(impact: Impact, before: Records, after: Records)
    ensures Covers(impact, before, after) <==> forall k :: !SameRecord(before, after, k) ==> Names(impact, k)
  {
    if impact.Nothing? && (forall k :: !SameRecord(before, after, k) ==> Names(impact, k)) {
      assert forall k :: SameRecord(before, after, k);
      assert before == after by {
        assert forall k :: SameRecord(before, after, k) ==> (k in before <==> k in after);
      }
    }
  }

  /** So it covers a change exactly when each changed record was written through such a key, or it marks all. */
  lemma AnnouncedCovers(queue: seq<Operation>, ops: seq<Operation>, before: Records, after: Records, at: Layout)
    ensures Covers(Announced(queue, ops, at), before, after)
            <==> BlindNew(queue, ops, at) || forall k :: !SameRecord(before, after, k) ==> WritesNew(queue, ops, k, at)
  {
    var impact := Announced(queue, ops, at);
    NamesCover(impact, before, after);
    forall k ensures Names(impact, k) <==> WritesNew(queue, ops, k, at) || BlindNew(queue, ops, at) {
      AnnouncedNames(queue, ops, k, at);
    }
    if BlindNew(queue, ops, at) {
      SuffixBlind(queue, ops, at);
    }
  }

  /** Applied remote operations announce all they change. */
  lemma AppliedCovers(ops: seq<Operation>, before: Records, after: Records, at: Layout)
    requires forall k :: !SameRecord(before, after, k) ==> Writes(ops, k, at)
    ensures Covers(ImpactOf(ops, at), before, after)
  {
    NamesCover(ImpactOf(ops, at), before, after);
    forall k | !SameRecord(before, after, k) ensures Names(ImpactOf(ops, at), k) {
      ImpactNames(ops, k, at);
    }
  }

  // ---------------------------------------------------------------- steps

  /**
    Ways to change records: a local transaction, applied remote operations, a whole snapshot, and a
    node fetched from elsewhere. A write to the graph changes no record but may announce any that
    is queued. Persisting takes a copy of the queue, writes it without the lock, and then drops it
    from the queue if it is still its beginning.
   */
  datatype Event =
    | Batch(t: nat, ops: seq<Operation>, after: Records)
    | Apply(t: nat, ops: seq<Operation>, after: Records)
    | Refresh(t: nat, after: Records, rest: seq<Operation>)
    | Fetch(t: nat, node: NodeId, after: Records)
    | WriteGraph(t: nat, impact: Impact, rest: seq<Operation>)
    | Bump(t: nat)
    | Capture(t: nat)
    | Drain(t: nat)
    | PersistFails(t: nat)
    | MarkVectors(t: nat)
    | MarkTexts(t: nat)
    | Begin(t: nat, of: Collection)
    | BeginFails(of: Collection, forget: bool)
    | Install(t: nat)
    | BuildFails(t: nat)
    | Leave(t: nat)

  predicate ChangesOnly(before: Records, after: Records, holding: Holding) {
    forall k :: k in before.Keys + after.Keys && !SameRecord(before, after, k) ==> holding == Record(k)
  }

  function FetchImpact(holding: Holding): Impact {
    match holding
    case NoRecord => Nothing
    case Unreadable => Everything
    case Record(k) => Keys({k})
  }

  ghost predicate Enabled(s: State, e: Event, at: Layout) {
    match e
    case Batch(t, ops, after) => t !in s.writers && forall k :: !SameRecord(s.records, after, k) ==> Writes(ops, k, at)
    case Apply(t, ops, after) => t !in s.writers && forall k :: !SameRecord(s.records, after, k) ==> Writes(ops, k, at)
    case Refresh(t, _, _) => t !in s.writers
    case Fetch(t, node, after) => t !in s.writers && ChangesOnly(s.records, after, at.holds(node))
    case WriteGraph(t, _, _) => t !in s.writers
    case Bump(t) => t in s.writers && s.writers[t].Mutated?
    case Capture(t) => t in s.writers && s.writers[t].Bumped?
    case Drain(t) => t in s.writers && s.writers[t].Persisting?
    case PersistFails(t) => t in s.writers && (s.writers[t].Bumped? || s.writers[t].Persisting?)
    case MarkVectors(t) => t in s.writers && s.writers[t].Persisted?
    case MarkTexts(t) => t in s.writers && s.writers[t].HalfMarked?
    case Begin(t, c) => t !in s.rebuilders && NeedsRebuild(s, c) && c !in s.rebuilding
    case BeginFails(c, _) => NeedsRebuild(s, c) && c !in s.rebuilding
    case Install(t) => t in s.rebuilders && s.rebuilders[t].Building?
    case BuildFails(t) => t in s.rebuilders && s.rebuilders[t].Building?
    case Leave(t) => t in s.rebuilders && s.rebuilders[t].Leaving?
  }

  function WithState(caches: map<Collection, Cache>, c: Collection, state: CacheState): map<Collection, Cache> {
    if c in caches then caches[c := caches[c].(state := state)] else caches
  }

  function Drained(queue: seq<Operation>, captured: seq<Operation>): seq<Operation> {
    if captured <= queue then queue[|captured|..] else queue
  }

  /** A transaction that appended nothing raises no revision and marks nothing. */
  ghost function AfterBatch(s: State, t: nat, ops: seq<Operation>, after: Records, at: Layout): State {
    var done := s.(records := after, queue := Queued(s.queue, ops));
    if |done.queue| == |s.queue| then done else done.(writers := s.writers[t := Mutated(Announced(s.queue, ops, at))])
  }

  function AfterInstall(s: State, t: nat): State
    requires t in s.rebuilders && s.rebuilders[t].Building?
  {
    var b := s.rebuilders[t];
    var left := s.(rebuilders := s.rebuilders[t := Leaving(b.of)]);
    if s.revision == b.revision then left.(caches := s.caches[b.of := Cache(Ready, false, b.snapshot)]) else left
  }

  ghost function Next(s: State, e: Event, at: Layout): State
    requires Enabled(s, e, at)
  {
    match e
    case Batch(t, ops, after) =>
      AfterBatch(s, t, ops, after, at)
    case Apply(t, ops, after) =>
      s.(records := after, queue := Queued(s.queue, ops), writers := s.writers[t := Mutated(ImpactOf(ops, at))])
    case Refresh(t, after, rest) =>
      s.(records := after, queue := rest, writers := s.writers[t := Mutated(Everything)])
    case Fetch(t, node, after) =>
      s.(records := after, writers := s.writers[t := Mutated(FetchImpact(at.holds(node)))])
    case WriteGraph(t, impact, rest) =>
      s.(queue := rest, writers := s.writers[t := Mutated(impact)])
    case Bump(t) =>
      s.(revision := s.revision + 1, writers := s.writers[t := Bumped(s.writers[t].impact)])
    case Capture(t) =>
      s.(writers := s.writers[t := Persisting(s.writers[t].impact, s.queue)])
    case Drain(t) =>
      s.(queue := Drained(s.queue, s.writers[t].captured), writers := s.writers[t := Persisted(s.writers[t].impact)])
    case PersistFails(t) =>
      s.(writers := s.writers - {t})
    case MarkVectors(t) =>
      s.(caches := Marked(s, s.writers[t].impact, Vector, at),
        writers := s.writers[t := HalfMarked(s.writers[t].impact)])
    case MarkTexts(t) =>
      s.(caches := Marked(s, s.writers[t].impact, Text, at), writers := s.writers - {t})
    case Begin(t, c) =>
      s.(rebuilding := s.rebuilding + {c}, caches := WithState(s.caches, c, Rebuilding),
         rebuilders := s.rebuilders[t := Building(c, s.revision, Within(s.records, c, at))])
    case BeginFails(c, forget) =>
      s.(caches := if forget then s.caches - {c} else WithState(s.caches, c, Rebuilding))
    case Install(t) =>
      AfterInstall(s, t)
    case BuildFails(t) =>
      s.(rebuilding := s.rebuilding - {s.rebuilders[t].of}, rebuilders := s.rebuilders - {t})
    case Leave(t) =>
      s.(rebuilding := s.rebuilding - {s.rebuilders[t].of}, rebuilders := s.rebuilders - {t})
  }

  // ---------------------------------------------------------------- what every step keeps

  /** The writer has changed the collection's records and has yet to mark its cache. */
  predicate Owes(w: Writer, c: Collection, at: Layout) {
    Touches(w.impact, c, at) && (w.HalfMarked? ==> c.kind == Text)
  }

  ghost predicate Owed(s: State, c: Collection, at: Layout) {
    exists t :: t in s.writers && Owes(s.writers[t], c, at)
  }

  /** The same, but the revision has yet to be raised too. */
  ghost predicate Unannounced(s: State, c: Collection, at: Layout) {
    exists t :: t in s.writers && s.writers[t].Mutated? && Owes(s.writers[t], c, at)
  }

  predicate Clean(s: State, c: Collection) {
    c in s.caches && s.caches[c].state.Ready? && !s.caches[c].dirty
  }

  predicate Fresh(s: State, c: Collection, at: Layout)
    requires c in s.caches
  {
    s.caches[c].content == Within(s.records, c, at)
  }

  /** From any state a cache that is not clean can be rebuilt: undisturbed, that makes it clean and fresh. */
  lemma RebuildSucceeds(s: State, c: Collection, t: nat, at: Layout)
    requires !Clean(s, c) && c !in s.rebuilding && t !in s.rebuilders
    ensures Enabled(s, Begin(t, c), at)
    ensures var begun := Next(s, Begin(t, c), at);
            && Enabled(begun, Install(t), at)
            && var installed := Next(begun, Install(t), at);
               && Clean(installed, c) && Fresh(installed, c, at) && Enabled(installed, Leave(t), at)
               && Next(installed, Leave(t), at) ==
                  s.(caches := s.caches[c := Cache(Ready, false, Within(s.records, c, at))])
  {
    var begun := Next(s, Begin(t, c), at);
    var installed := Next(begun, Install(t), at);
    assert installed.caches == s.caches[c := Cache(Ready, false, Within(s.records, c, at))];
    assert installed.rebuilding - {c} == s.rebuilding;
    assert installed.rebuilders - {t} == s.rebuilders;
  }

  /** A clean cache is fresh unless a mark is owed. */
  ghost predicate CacheRight(s: State, c: Collection, at: Layout) {
    Clean(s, c) ==> Fresh(s, c, at) || Owed(s, c, at)
  }

  /** A snapshot of the current revision is current, but for changes not announced. */
  ghost predicate SnapshotRight(s: State, b: Rebuilder, at: Layout) {
    b.Building? ==>
      && b.revision <= s.revision
      && (b.revision == s.revision ==> b.snapshot == Within(s.records, b.of, at) || Unannounced(s, b.of, at))
  }

  ghost predicate Safe(s: State, c: Collection, at: Layout) {
    && CacheRight(s, c, at)
    && forall t :: t in s.rebuilders && s.rebuilders[t].of == c ==> SnapshotRight(s, s.rebuilders[t], at)
  }

  /** The event of a local transaction touches the collection. */
  ghost predicate Announces(queue: seq<Operation>, ops: seq<Operation>, c: Collection, at: Layout) {
    BlindNew(queue, ops, at) || exists k :: WritesNew(queue, ops, k, at) && In(k, c, at)
  }

  /** The step drops a mark the collection is owed: persisting failed, or every key it wrote there was queued. */
  ghost predicate Loses(s: State, e: Event, c: Collection, at: Layout)
    requires Enabled(s, e, at)
  {
    match e
    case PersistFails(t) => Owes(s.writers[t], c, at)
    case Batch(_, ops, _) => (exists k :: Writes(ops, k, at) && In(k, c, at)) && !Announces(s.queue, ops, c, at)
    case _ => false
  }

  /** Records of the collection that did not change make no difference. */
  lemma Untouched(before: Records, after: Records, c: Collection, at: Layout)
    requires forall k :: In(k, c, at) ==> SameRecord(before, after, k)
    ensures Within(before, c, at) == Within(after, c, at)
  {
    assert forall k :: k in Within(before, c, at) ==> SameRecord(before, after, k);
    assert forall k :: k in Within(after, c, at) ==> SameRecord(before, after, k);
  }

  /** A writer joins, the collection's records change only if the writer owes it, and all else stays. */
  lemma JoinSafe(s: State, s': State, t: nat, impact: Impact, c: Collection, at: Layout)
    requires Safe(s, c, at) && t !in s.writers && s'.writers == s.writers[t := Mutated(impact)]
    requires s'.caches == s.caches && s'.revision == s.revision && s'.rebuilders == s.rebuilders
    requires Touches(impact, c, at) || Within(s'.records, c, at) == Within(s.records, c, at)
    ensures Safe(s', c, at)
  {
    if Touches(impact, c, at) {
      assert t in s'.writers && s'.writers[t].Mutated? && Owes(s'.writers[t], c, at);
    }
    assert forall u :: u in s.writers ==> u in s'.writers && s'.writers[u] == s.writers[u];
    assert Unannounced(s, c, at) ==> Unannounced(s', c, at);
    assert Owed(s, c, at) ==> Owed(s', c, at);
  }

  /** A writer whose event covers what it changed. */
  lemma CoveredSafe(s: State, s': State, t: nat, impact: Impact, c: Collection, at: Layout)
    requires Safe(s, c, at) && t !in s.writers && s'.writers == s.writers[t := Mutated(impact)]
    requires s'.caches == s.caches && s'.revision == s.revision && s'.rebuilders == s.rebuilders
    requires Covers(impact, s.records, s'.records)
    ensures Safe(s', c, at)
  {
    if !Touches(impact, c, at) {
      assert forall k :: In(k, c, at) ==> SameRecord(s.records, s'.records, k);
      Untouched(s.records, s'.records, c, at);
    }
    JoinSafe(s, s', t, impact, c, at);
  }

  lemma FetchCovers(before: Records, after: Records, holding: Holding)
    requires ChangesOnly(before, after, holding)
    ensures Covers(FetchImpact(holding), before, after)
  {
    NamesCover(FetchImpact(holding), before, after);
    forall k | !SameRecord(before, after, k) ensures Names(FetchImpact(holding), k) {
      assert k in before.Keys + after.Keys;
    }
  }

  lemma WriterSafe(s: State, e: Event, c: Collection, at: Layout)
    requires Safe(s, c, at) && Enabled(s, e, at) && (e.Apply? || e.Refresh? || e.Fetch? || e.WriteGraph?)
    ensures Safe(Next(s, e, at), c, at)
  {
    match e {
      case Apply(t, ops, after) =>
        AppliedCovers(ops, s.records, after, at);
        CoveredSafe(s, Next(s, e, at), t, ImpactOf(ops, at), c, at);
      case Refresh(t, after, _) =>
        CoveredSafe(s, Next(s, e, at), t, Everything, c, at);
      case Fetch(t, node, after) =>
        FetchCovers(s.records, after, at.holds(node));
        CoveredSafe(s, Next(s, e, at), t, FetchImpact(at.holds(node)), c, at);
      case WriteGraph(t, impact, _) =>
        JoinSafe(s, Next(s, e, at), t, impact, c, at);
    }
  }

  lemma AnnouncedTouches(queue: seq<Operation>, ops: seq<Operation>, c: Collection, at: Layout)
    ensures Touches(Announced(queue, ops, at), c, at) <==> Announces(queue, ops, c, at)
  {
    var impact := Announced(queue, ops, at);
    SuffixBlind(queue, ops, at);
    forall k ensures Names(impact, k) <==> WritesNew(queue, ops, k, at) || BlindNew(queue, ops, at) {
      AnnouncedNames(queue, ops, k, at);
    }
    if impact.Keys? {
      if k :| WritesNew(queue, ops, k, at) && In(k, c, at) {
        assert Names(impact, k);
      }
      if Touches(impact, c, at) {
        var k :| k in impact.keys && In(k, c, at);
        assert Names(impact, k);
      }
    }
  }

  lemma NothingAppended(queue: seq<Operation>, ops: seq<Operation>, c: Collection, at: Layout)
    requires |Queued(queue, ops)| == |queue|
    ensures !Touches(Announced(queue, ops, at), c, at)
  {
    assert Suffix(queue, ops) == [];
    assert RecordsOf([], at) == {};
  }

  lemma BatchSafe(s: State, e: Event, c: Collection, at: Layout)
    requires Safe(s, c, at) && Enabled(s, e, at) && e.Batch? && !Loses(s, e, c, at)
    ensures Safe(Next(s, e, at), c, at)
  {
    var s' := Next(s, e, at);
    AnnouncedTouches(s.queue, e.ops, c, at);
    if !Touches(Announced(s.queue, e.ops, at), c, at) {
      assert forall k :: In(k, c, at) ==> SameRecord(s.records, e.after, k);
      Untouched(s.records, e.after, c, at);
    }
    if |s'.queue| == |s.queue| {
      NothingAppended(s.queue, e.ops, c, at);
      SameSafe(s, s', c, at);
    } else {
      JoinSafe(s, s', e.t, Announced(s.queue, e.ops, at), c, at);
    }
  }

  /** No clean cache appears, no rebuilder comes, and writers leave only if they owe the collection nothing. */
  lemma SameSafe(s: State, s': State, c: Collection, at: Layout)
    requires Safe(s, c, at) && s'.revision == s.revision && Within(s'.records, c, at) == Within(s.records, c, at)
    requires Clean(s', c) ==> Clean(s, c) && s'.caches[c] == s.caches[c]
    requires Clean(s', c) ==>
               forall t :: t in s.writers && Owes(s.writers[t], c, at) ==> t in s'.writers && Owes(s'.writers[t], c, at)
    requires forall t :: t in s.writers && s.writers[t].Mutated? ==> t in s'.writers && s'.writers[t] == s.writers[t]
    requires forall t :: t in s'.rebuilders && s'.rebuilders[t].Building? && s'.rebuilders[t].of == c ==>
                           t in s.rebuilders && s'.rebuilders[t] == s.rebuilders[t]
    ensures Safe(s', c, at)
  {
    if w :| w in s.writers && s.writers[w].Mutated? && Owes(s.writers[w], c, at) {
      assert w in s'.writers && Owes(s'.writers[w], c, at);
    }
    if Clean(s', c) && Owed(s, c, at) {
      var w :| w in s.writers && Owes(s.writers[w], c, at);
      assert w in s'.writers;
    }
  }

  lemma BumpSafe(s: State, t: nat, c: Collection, at: Layout)
    requires Safe(s, c, at) && Enabled(s, Bump(t), at)
    ensures Safe(Next(s, Bump(t), at), c, at)
  {
    var s' := Next(s, Bump(t), at);
    if w :| w in s.writers && Owes(s.writers[w], c, at) {
      assert w in s'.writers && Owes(s'.writers[w], c, at);
    }
  }

  lemma BeginSafe(s: State, t: nat, of: Collection, c: Collection, at: Layout)
    requires Safe(s, c, at) && Enabled(s, Begin(t, of), at)
    ensures Safe(Next(s, Begin(t, of), at), c, at)
  {
    var s' := Next(s, Begin(t, of), at);
    assert Unannounced(s, c, at) ==> Unannounced(s', c, at);
    assert Owed(s, c, at) ==> Owed(s', c, at);
  }

  lemma InstallSafe(s: State, t: nat, c: Collection, at: Layout)
    requires Safe(s, c, at) && Enabled(s, Install(t), at)
    ensures Safe(Next(s, Install(t), at), c, at)
  {
    var s' := Next(s, Install(t), at);
    assert Unannounced(s, c, at) ==> Unannounced(s', c, at) && Owed(s', c, at);
    assert Owed(s, c, at) ==> Owed(s', c, at);
    if s.rebuilders[t].of == c {
      assert SnapshotRight(s, s.rebuilders[t], at);
    }
  }

  lemma StepSafe(s: State, e: Event, c: Collection, at: Layout)
    requires Safe(s, c, at) && Enabled(s, e, at) && !Loses(s, e, c, at)
    ensures Safe(Next(s, e, at), c, at)
  {
    match e {
      case Batch(_, _, _) => BatchSafe(s, e, c, at);
      case Apply(_, _, _) => WriterSafe(s, e, c, at);
      case Refresh(_, _, _) => WriterSafe(s, e, c, at);
      case Fetch(_, _, _) => WriterSafe(s, e, c, at);
      case WriteGraph(_, _, _) => WriterSafe(s, e, c, at);
      case Bump(t) => BumpSafe(s, t, c, at);
      case Begin(t, of) => BeginSafe(s, t, of, c, at);
      case Install(t) => InstallSafe(s, t, c, at);
      case _ => SameSafe(s, Next(s, e, at), c, at);
    }
  }

  /** The held keys are those of the rebuilders, one each. */
  ghost predicate Exclusive(s: State) {
    && (forall t :: t in s.rebuilders ==> s.rebuilders[t].of in s.rebuilding)
    && (forall t, u :: t in s.rebuilders && u in s.rebuilders && s.rebuilders[t].of == s.rebuilders[u].of ==> t == u)
    && (forall c :: c in s.rebuilding ==> exists t :: t in s.rebuilders && s.rebuilders[t].of == c)
  }

  lemma BeginExclusive(s: State, t: nat, c: Collection, at: Layout)
    requires Exclusive(s) && Enabled(s, Begin(t, c), at)
    ensures Exclusive(Next(s, Begin(t, c), at))
  {
    var s' := Next(s, Begin(t, c), at);
    assert s'.rebuilders[t].of == c;
    forall d | d in s.rebuilding ensures exists u :: u in s'.rebuilders && s'.rebuilders[u].of == d {
      var u :| u in s.rebuilders && s.rebuilders[u].of == d;
      assert u in s'.rebuilders && s'.rebuilders[u].of == d;
    }
  }

  lemma LeaveExclusive(s: State, s': State, t: nat)
    requires Exclusive(s) && t in s.rebuilders
    requires s'.rebuilding == s.rebuilding - {s.rebuilders[t].of} && s'.rebuilders == s.rebuilders - {t}
    ensures Exclusive(s')
  {
    forall d | d in s'.rebuilding ensures exists u :: u in s'.rebuilders && s'.rebuilders[u].of == d {
      var u :| u in s.rebuilders && s.rebuilders[u].of == d;
      assert u in s'.rebuilders && s'.rebuilders[u].of == d;
    }
  }

  /** The same rebuilders, on the same collections. */
  lemma SameExclusive(s: State, s': State)
    requires Exclusive(s) && s'.rebuilding == s.rebuilding && s'.rebuilders.Keys == s.rebuilders.Keys
    requires forall t :: t in s.rebuilders ==> s'.rebuilders[t].of == s.rebuilders[t].of
    ensures Exclusive(s')
  {
    forall d | d in s'.rebuilding ensures exists u :: u in s'.rebuilders && s'.rebuilders[u].of == d {
      var u :| u in s.rebuilders && s.rebuilders[u].of == d;
      assert u in s'.rebuilders && s'.rebuilders[u].of == d;
    }
    forall t, u | t in s'.rebuilders && u in s'.rebuilders && s'.rebuilders[t].of == s'.rebuilders[u].of
      ensures t == u
    {
      assert t in s.rebuilders && u in s.rebuilders && s.rebuilders[t].of == s.rebuilders[u].of;
    }
  }

  lemma SameRebuilders(s: State, e: Event, at: Layout)
    requires Enabled(s, e, at) && !e.Begin? && !e.BuildFails? && !e.Leave?
    ensures var s' := Next(s, e, at);
            && s'.rebuilding == s.rebuilding && s'.rebuilders.Keys == s.rebuilders.Keys
            && forall t :: t in s.rebuilders ==> s'.rebuilders[t].of == s.rebuilders[t].of
  {
  }

  lemma StepExclusive(s: State, e: Event, at: Layout)
    requires Exclusive(s) && Enabled(s, e, at)
    ensures Exclusive(Next(s, e, at))
  {
    match e {
      case Begin(t, c) => BeginExclusive(s, t, c, at);
      case BuildFails(t) => LeaveExclusive(s, Next(s, e, at), t);
      case Leave(t) => LeaveExclusive(s, Next(s, e, at), t);
      case _ =>
        SameRebuilders(s, e, at);
        SameExclusive(s, Next(s, e, at));
    }
  }

  // ---------------------------------------------------------------- runs

  ghost predicate Run(trace: seq<State>, events: seq<Event>, at: Layout) {
    && |trace| == |events| + 1 && trace[0] == INITIAL
    && forall i :: 0 <= i < |events| ==>
                     Enabled(trace[i], events[i], at) && trace[i + 1] == Next(trace[i], events[i], at)
  }

  lemma {:induction false} RunExclusive(trace: seq<State>, events: seq<Event>, at: Layout, n: nat)
    requires Run(trace, events, at) && n <= |events|
    ensures Exclusive(trace[n])
  {
    if n > 0 {
      RunExclusive(trace, events, at, n - 1);
      assert Enabled(trace[n - 1], events[n - 1], at) && trace[n - 1 + 1] == Next(trace[n - 1], events[n - 1], at);
      StepExclusive(trace[n - 1], events[n - 1], at);
    }
  }

  lemma {:induction false} RunSafe(trace: seq<State>, events: seq<Event>, c: Collection, at: Layout, n: nat)
    requires Run(trace, events, at) && n <= |events|
    requires forall i :: 0 <= i < |events| ==> !Loses(trace[i], events[i], c, at)
    ensures Safe(trace[n], c, at)
  {
    if n > 0 {
      RunSafe(trace, events, c, at, n - 1);
      assert Enabled(trace[n - 1], events[n - 1], at) && trace[n - 1 + 1] == Next(trace[n - 1], events[n - 1], at);
      StepSafe(trace[n - 1], events[n - 1], c, at);
    }
  }

  /**
    Cache freshness over all interleavings: if no step has dropped a mark of the collection, its cache,
    when ready and clean, holds what a rebuild from the current records would give, unless a writer
    that touched it is still on its way to marking it; and no collection has two rebuilders.
   */
  lemma CacheFreshness(trace: seq<State>, events: seq<Event>, c: Collection, at: Layout)
    requires Run(trace, events, at)
    requires forall i :: 0 <= i < |events| ==> !Loses(trace[i], events[i], c, at)
    ensures var s := trace[|events|];
            && (Clean(s, c) && !Owed(s, c, at) ==> Fresh(s, c, at))
            && Exclusive(s)
  {
    RunSafe(trace, events, c, at, |events|);
    RunExclusive(trace, events, at, |events|);
  }

  /**
    For a local transaction that changes a collection with a fresh, clean cache, the condition is
    exact: the cache stays protected if and only if some record of the collection, or one whose key
    cannot be read, was written through a key with no unflushed operation.
   */
  lemma BatchIsExact(s: State, e: Event, c: Collection, at: Layout)
    requires Enabled(s, e, at) && e.Batch?
    requires Clean(s, c) && Fresh(s, c, at) && !Owed(s, c, at)
    requires Within(e.after, c, at) != Within(s.records, c, at)
    ensures CacheRight(Next(s, e, at), c, at) <==> Announces(s.queue, e.ops, c, at)
  {
    var s' := Next(s, e, at);
    AnnouncedTouches(s.queue, e.ops, c, at);
    if |s'.queue| == |s.queue| {
      NothingAppended(s.queue, e.ops, c, at);
    }
    if Touches(Announced(s.queue, e.ops, at), c, at) {
      assert e.t in s'.writers && Owes(s'.writers[e.t], c, at);
    } else {
      assert forall w :: w in s'.writers && w != e.t ==> w in s.writers && s'.writers[w] == s.writers[w];
      assert forall w :: w in s'.writers ==> !Owes(s'.writers[w], c, at);
    }
  }

  // ---------------------------------------------------------------- a silent write

  /** An operation writing a record's value, and the layout of a store with one vector collection. */
  function Write(n: nat): Operation {
    Operation("op", "actor", Revision(n, 0, "actor"), SetField("item", "value", ScalarValue(Null)))
  }

  const PLAIN := Layout((k, kind) => if kind == Vector then Some("c") else None, n => Record(n))

  const VECTORS := Collection(Vector, "c")

  function One(text: string): Records {
    map["item" := JsonRecord(Str(text))]
  }

  ghost predicate Leads(s: State, e: Event, s': State) {
    Enabled(s, e, PLAIN) && Next(s, e, PLAIN) == s'
  }

  const ITEM := Keys({"item"})

  lemma WritesOne(op: Operation, k: string, at: Layout)
    requires at.holds(op.action.node) == Record(k)
    ensures Writes([op], k, at) && RecordsOf([op], at) == {k} && !Blind([op], at)
  {
    assert [op][0].action.node == op.action.node;
  }

  lemma QueuedOne(queue: seq<Operation>, op: Operation)
    ensures Queued(queue, [op]) == Pushed(queue, op)
  {
    assert [op][..0] == [];
  }

  /** A transaction of one operation on an empty queue announces its record. */
  lemma AnnouncesOne(op: Operation, k: string, at: Layout)
    requires at.holds(op.action.node) == Record(k)
    ensures Queued([], [op]) == [op] && Announced([], [op], at) == Keys({k})
  {
    QueuedOne([], op);
    WritesOne(op, k, at);
    assert !HasKey([], KeyOf(op));
    assert Suffix([], [op]) == [op];
  }

  /** Any transaction of one write may take place. */
  lemma OneEnabled(s: State, t: nat, n: nat, text: string)
    requires t !in s.writers && s.records.Keys <= {"item"}
    ensures Enabled(s, Batch(t, [Write(n)], One(text)), PLAIN)
  {
    WritesOne(Write(n), "item", PLAIN);
    assert forall k :: k != "item" ==> SameRecord(s.records, One(text), k);
  }

  /** On an empty queue it announces the record. */
  lemma LoudBatch(s: State, t: nat, n: nat, text: string)
    requires t !in s.writers && s.records.Keys <= {"item"} && s.queue == []
    ensures Leads(s, Batch(t, [Write(n)], One(text)),
                  s.(records := One(text), queue := [Write(n)], writers := s.writers[t := Mutated(ITEM)]))
  {
    OneEnabled(s, t, n, text);
    AnnouncesOne(Write(n), "item", PLAIN);
  }

  /** On a queue that holds an earlier write of the record it announces nothing. */
  lemma SilentBatch(s: State, t: nat, m: nat, n: nat, text: string)
    requires t !in s.writers && s.records.Keys <= {"item"} && s.queue == [Write(m)] && m <= n
    ensures Leads(s, Batch(t, [Write(n)], One(text)), s.(records := One(text), queue := [Write(n)]))
  {
    OneEnabled(s, t, n, text);
    QueuedOne(s.queue, Write(n));
    assert KeyOf(s.queue[0]) == KeyOf(Write(n));
    assert HasKey(s.queue, KeyOf(Write(n)));
    assert Pushed(s.queue, Write(n)) == [Write(n)];
  }

  lemma RunOn(trace: seq<State>, events: seq<Event>, e: Event, s: State)
    requires Run(trace, events, PLAIN) && Leads(trace[|events|], e, s)
    ensures Run(trace + [s], events + [e], PLAIN) && (trace + [s])[|events + [e]|] == s
  {
    var trace', events' := trace + [s], events + [e];
    forall i | 0 <= i < |events'|
      ensures Enabled(trace'[i], events'[i], PLAIN) && trace'[i + 1] == Next(trace'[i], events'[i], PLAIN)
    {
      if i < |events| {
        assert trace'[i] == trace[i] && trace'[i + 1] == trace[i + 1] && events'[i] == events[i];
      }
    }
  }

  /** A run extended by a step that does not fail to persist. */
  lemma Then(trace: seq<State>, events: seq<Event>, e: Event, s: State)
    returns (trace': seq<State>, events': seq<Event>)
    requires Run(trace, events, PLAIN) && Leads(trace[|events|], e, s) && !e.PersistFails?
    requires forall i :: 0 <= i < |events| ==> !events[i].PersistFails?
    ensures Run(trace', events', PLAIN) && trace'[|events'|] == s
    ensures forall i :: 0 <= i < |events'| ==> !events'[i].PersistFails?
  {
    RunOn(trace, events, e, s);
    trace', events' := trace + [s], events + [e];
  }

  /** After the first write has marked what it owed; the second write took its place in the queue. */
  const MARKED := State(One("b"), 1, map[], {}, map[], map[], [Write(1)])

  function MarkedBut(w: Writer): State {
    MARKED.(writers := map[0 := w])
  }

  const WRITTEN := State(One("a"), 1, map[], {}, map[], map[], [Write(0)])

  function WrittenBut(w: Writer): State {
    WRITTEN.(writers := map[0 := w])
  }

  /** Raising the revision and copying the queue. */
  lemma FirstSteps()
    ensures Leads(WrittenBut(Mutated(ITEM)).(revision := 0), Bump(0), WrittenBut(Bumped(ITEM)))
    ensures Leads(WrittenBut(Bumped(ITEM)), Capture(0), WrittenBut(Persisting(ITEM, [Write(0)])))
  {
  }

  /** The copy is no longer the beginning of the queue, so nothing is dropped; then the marks. */
  lemma LastSteps()
    ensures Leads(MarkedBut(Persisting(ITEM, [Write(0)])), Drain(0), MarkedBut(Persisted(ITEM)))
    ensures Leads(MarkedBut(Persisted(ITEM)), MarkVectors(0), MarkedBut(HalfMarked(ITEM)))
    ensures Leads(MarkedBut(HalfMarked(ITEM)), MarkTexts(0), MARKED)
  {
    assert [Write(0)][0].revision != [Write(1)][0].revision;
  }

  const REBUILDING := MARKED.(rebuilding := {VECTORS}, rebuilders := map[0 := Building(VECTORS, 1, One("b"))])

  const REBUILT := MARKED.(caches := map[VECTORS := Cache(Ready, false, One("b"))], rebuilding := {VECTORS},
                           rebuilders := map[0 := Leaving(VECTORS)])

  lemma Rebuild()
    ensures Leads(MARKED, Begin(0, VECTORS), REBUILDING) && Leads(REBUILDING, Install(0), REBUILT)
  {
    assert Within(One("b"), VECTORS, PLAIN) == One("b");
  }

  lemma TwoWrites() returns (trace: seq<State>, events: seq<Event>)
    ensures Run(trace, events, PLAIN) && trace[|events|] == MarkedBut(Persisting(ITEM, [Write(0)]))
    ensures forall i :: 0 <= i < |events| ==> !events[i].PersistFails?
  {
    FirstSteps();
    LoudBatch(INITIAL, 0, 0, "a");
    var s3 := WrittenBut(Persisting(ITEM, [Write(0)]));
    var first := Batch(0, [Write(0)], One("a"));
    trace, events := Then([INITIAL], [], first, WrittenBut(Mutated(ITEM)).(revision := 0));
    trace, events := Then(trace, events, Bump(0), WrittenBut(Bumped(ITEM)));
    trace, events := Then(trace, events, Capture(0), s3);
    SilentBatch(s3, 1, 0, 1, "b");
    trace, events := Then(trace, events, Batch(1, [Write(1)], One("b")), MarkedBut(Persisting(ITEM, [Write(0)])));
  }

  /**
    Without the condition, freshness fails although every attempt to persist succeeds: a second write
    replaces the queued one while the first is being persisted, which keeps the queue from being
    drained, and a third write to the record then announces nothing to a cache rebuilt in between.
   */
  lemma SilentWrite() returns (trace: seq<State>, events: seq<Event>)
    ensures Run(trace, events, PLAIN) && forall i :: 0 <= i < |events| ==> !events[i].PersistFails?
    ensures var s := trace[|events|]; Clean(s, VECTORS) && !Owed(s, VECTORS, PLAIN) && !Fresh(s, VECTORS, PLAIN)
  {
    trace, events := TwoWrites();
    LastSteps();
    Rebuild();
    trace, events := Then(trace, events, Drain(0), MarkedBut(Persisted(ITEM)));
    trace, events := Then(trace, events, MarkVectors(0), MarkedBut(HalfMarked(ITEM)));
    trace, events := Then(trace, events, MarkTexts(0), MARKED);
    trace, events := Then(trace, events, Begin(0, VECTORS), REBUILDING);
    trace, events := Then(trace, events, Install(0), REBUILT);
    SilentBatch(REBUILT, 0, 1, 2, "c");
    trace, events := Then(trace, events, Batch(0, [Write(2)], One("c")),
      REBUILT.(records := One("c"), queue := [Write(2)]));
    assert Within(One("c"), VECTORS, PLAIN)["item"] != One("b")["item"];
  }
}
