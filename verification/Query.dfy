/**
  Queries: filtering, ordering and paging candidates. The lazy evaluation reads single values out
  of the graph and materializes a candidate only when it must.
 */
module Query {
  import opened Json
  import opened Graph
  import opened Materialize
  import Clock
  import Order

  datatype Filter =
    | Eq(path: string, value: Json)
    | Ne(path: string, value: Json)
    | Gt(path: string, value: Json)
    | Gte(path: string, value: Json)
    | Lt(path: string, value: Json)
    | Lte(path: string, value: Json)
    | Prefix(path: string, text: string)
    | Contains(path: string, text: string)
    | Exists(path: string)

  datatype OrderBy = OrderBy(path: string, descending: bool)

  datatype Spec = Spec(filters: seq<Filter>, order: Option<OrderBy>, limit: Option<nat>, offset: nat)

  datatype Source = NodeSource(node: NodeId) | FieldSource(node: NodeId, field: string)

  datatype Candidate = Candidate(key: string, source: Source)

  datatype MapEntry = MapEntry(key: string, value: Json)

  // ---------------------------------------------------------------- filters and paths

  predicate ContainsText(s: string, text: string) {
    exists i :: 0 <= i <= |s| && text <= s[i..]
  }

  predicate Compares(value: Option<Json>, expected: Json, accepted: set<Ordering>) {
    value.Some? && Compare(value.value, expected).Some? && Compare(value.value, expected).value in accepted
  }

  predicate Matches(value: Option<Json>, filter: Filter) {
    match filter
    case Eq(_, expected) => value.Some? && Equal(value.value, expected)
    case Ne(_, expected) => value.Some? && !Equal(value.value, expected)
    case Gt(_, expected) => Compares(value, expected, {After})
    case Gte(_, expected) => Compares(value, expected, {After, Same})
    case Lt(_, expected) => Compares(value, expected, {Before})
    case Lte(_, expected) => Compares(value, expected, {Before, Same})
    case Prefix(_, text) => value.Some? && value.value.Str? && text <= value.value.s
    case Contains(_, text) => value.Some? && value.value.Str? && ContainsText(value.value.s, text)
    case Exists(_) => value.Some?
  }

  /** A path: the whole value, the key, or dotted segments into the value. */
  datatype ValuePath = Full | Key | Segments(segments: seq<string>)

  function ParsePath(path: string): ValuePath {
    if path == "" || path == "$value" then Full
    else if path == "$key" then Key
    else Segments(Order.Split(path, '.'))
  }

  /** The value that segments lead to inside a JSON value. */
  function Walk(value: Json, segments: seq<string>): Option<Json>
    decreases |segments|
  {
    if segments == [] then Some(value)
    else if value.Object? && segments[0] in value.members then Walk(value.members[segments[0]], segments[1..])
    else None
  }

  function ValueAt(key: string, value: Json, path: ValuePath): Option<Json> {
    match path
    case Full => Some(value)
    case Key => Some(Str(key))
    case Segments(segments) => Walk(value, segments)
  }

  // ---------------------------------------------------------------- the naive query

  function FieldOf(nodes: Nodes, n: NodeId, f: string): Option<FieldValue> {
    if n in nodes && f in nodes[n].fields then Some(nodes[n].fields[f].value) else None
  }

  function MaterializeCandidate(nodes: Nodes, c: Candidate): Json {
    match c.source
    case NodeSource(n) => MaterializeNode(nodes, n, {})
    case FieldSource(n, f) =>
      (match FieldOf(nodes, n, f)
       case None => Null
       case Some(value) => MaterializeValue(nodes, value, {}))
  }

  datatype Evaluated = Evaluated(candidate: Candidate, full: Option<Json>, orderValue: Option<Json>)

  function ReadNaive(nodes: Nodes, c: Candidate, path: string): Option<Json> {
    ValueAt(c.key, MaterializeCandidate(nodes, c), ParsePath(path))
  }

  predicate AcceptedNaive(nodes: Nodes, c: Candidate, filters: seq<Filter>) {
    forall i :: 0 <= i < |filters| ==> Matches(ReadNaive(nodes, c, filters[i].path), filters[i])
  }

  function OrderNaive(nodes: Nodes, c: Candidate, spec: Spec): Option<Json> {
    if spec.order.Some? then ReadNaive(nodes, c, spec.order.value.path) else None
  }

  function EvaluateNaive(nodes: Nodes, candidates: seq<Candidate>, spec: Spec): seq<Evaluated>
    decreases |candidates|
  {
    if candidates == [] then []
    else
      var front, c := EvaluateNaive(nodes, candidates[..|candidates| - 1], spec), candidates[|candidates| - 1];
      if AcceptedNaive(nodes, c, spec.filters)
      then front + [Evaluated(c, Some(MaterializeCandidate(nodes, c)), OrderNaive(nodes, c, spec))]
      else front
  }

  function Reversed(o: Ordering): Ordering {
    match o case Before => After case Same => Same case After => Before
  }

  function Then(o: Ordering, next: Ordering): Ordering {
    if o.Same? then next else o
  }

  function CompareEvaluated(a: Evaluated, b: Evaluated, order: OrderBy): Ordering {
    var keys := CompareStrings(a.candidate.key, b.candidate.key);
    var base := match (a.orderValue, b.orderValue)
      case (Some(x), Some(y)) => if Compare(x, y).Some? then Compare(x, y).value else Same
      case (Some(_), None) => After
      case (None, Some(_)) => Before
      case (None, None) => keys;
    Then(if order.descending then Reversed(base) else base, keys)
  }

  /** Stable insertion: behind every element it does not precede. */
  function Insert(sorted: seq<Evaluated>, x: Evaluated, order: OrderBy): (r: seq<Evaluated>)
    ensures |r| == |sorted| + 1
    decreases |sorted|
  {
    if sorted == [] then [x]
    else if CompareEvaluated(x, sorted[|sorted| - 1], order).Before?
    then Insert(sorted[..|sorted| - 1], x, order) + [sorted[|sorted| - 1]]
    else sorted + [x]
  }

  /** A stable sort. */
  function Sort(s: seq<Evaluated>, order: OrderBy): (r: seq<Evaluated>)
    ensures |r| == |s|
    decreases |s|
  {
    if s == [] then [] else Insert(Sort(s[..|s| - 1], order), s[|s| - 1], order)
  }

  function Ordered(s: seq<Evaluated>, spec: Spec): (r: seq<Evaluated>)
    ensures |r| == |s|
  {
    if spec.order.Some? then Sort(s, spec.order.value) else s
  }

  function Page<T>(s: seq<T>, spec: Spec): seq<T> {
    var offset := if spec.offset < |s| then spec.offset else |s|;
    var end := if spec.limit.Some? && offset + spec.limit.value < |s| then offset + spec.limit.value else |s|;
    s[offset..end]
  }

  function Entry(nodes: Nodes, e: Evaluated): MapEntry {
    MapEntry(e.candidate.key, if e.full.Some? then e.full.value else MaterializeCandidate(nodes, e.candidate))
  }

  function Entries(nodes: Nodes, s: seq<Evaluated>): seq<MapEntry> {
    seq(|s|, i requires 0 <= i < |s| => Entry(nodes, s[i]))
  }

  /** Materialize every candidate, then filter, sort and page. */
  function NaiveQuery(nodes: Nodes, candidates: seq<Candidate>, spec: Spec): seq<MapEntry> {
    Entries(nodes, Page(Ordered(EvaluateNaive(nodes, candidates, spec), spec), spec))
  }

  /** No element stands right behind one it precedes. */
  ghost predicate InOrder(s: seq<Evaluated>, order: OrderBy) {
    forall i :: 0 <= i < |s| - 1 ==> !CompareEvaluated(s[i + 1], s[i], order).Before?
  }

  lemma Asymmetric(a: Evaluated, b: Evaluated, order: OrderBy)
    requires CompareEvaluated(a, b, order).Before?
    ensures !CompareEvaluated(b, a, order).Before?
  {
    Order.StringOrder();
  }

  lemma {:induction false} InsertPermutes(s: seq<Evaluated>, x: Evaluated, order: OrderBy)
    ensures multiset(Insert(s, x, order)) == multiset(s) + multiset{x}
    decreases |s|
  {
    if s != [] {
      var front, last := s[..|s| - 1], s[|s| - 1];
      assert s == front + [last];
      if CompareEvaluated(x, last, order).Before? {
        InsertPermutes(front, x, order);
      }
    }
  }

  lemma {:induction false} InsertOrders(s: seq<Evaluated>, x: Evaluated, order: OrderBy)
    requires InOrder(s, order)
    ensures InOrder(Insert(s, x, order), order)
    ensures var r := Insert(s, x, order); r[|s|] == x || (|s| > 0 && r[|s|] == s[|s| - 1])
    decreases |s|
  {
    if s != [] {
      var front, last := s[..|s| - 1], s[|s| - 1];
      assert s == front + [last];
      if CompareEvaluated(x, last, order).Before? {
        InsertOrders(front, x, order);
        Asymmetric(x, last, order);
        InOrderLast(Insert(front, x, order), last, order, s);
      } else {
        InOrderMore(s, x, order);
      }
    }
  }

  lemma InOrderMore(s: seq<Evaluated>, x: Evaluated, order: OrderBy)
    requires InOrder(s, order) && (s != [] ==> !CompareEvaluated(x, s[|s| - 1], order).Before?)
    ensures InOrder(s + [x], order)
  {
    var r := s + [x];
    forall i | 0 <= i < |r| - 1 ensures !CompareEvaluated(r[i + 1], r[i], order).Before? {
      if i < |s| - 1 {
        assert r[i] == s[i] && r[i + 1] == s[i + 1];
      }
    }
  }

  /** The last element of an ordered sequence may stand behind what was inserted before it. */
  lemma InOrderLast(front: seq<Evaluated>, last: Evaluated, order: OrderBy, s: seq<Evaluated>)
    requires InOrder(front, order) && InOrder(s, order) && |front| == |s| && s != [] && s[|s| - 1] == last
    requires || !CompareEvaluated(last, front[|front| - 1], order).Before?
             || (|s| > 1 && front[|front| - 1] == s[|s| - 2])
    ensures InOrder(front + [last], order)
  {
    if |s| > 1 && front[|front| - 1] == s[|s| - 2] {
      assert !CompareEvaluated(s[|s| - 2 + 1], s[|s| - 2], order).Before?;
    }
    InOrderMore(front, last, order);
  }

  /** Sorting permutes, and leaves no neighbours out of order even where the comparison is not transitive. */
  lemma {:induction false} SortOrders(s: seq<Evaluated>, order: OrderBy)
    ensures InOrder(Sort(s, order), order)
    ensures multiset(Sort(s, order)) == multiset(s)
    decreases |s|
  {
    if s != [] {
      var front, last := s[..|s| - 1], s[|s| - 1];
      assert s == front + [last];
      SortOrders(front, order);
      InsertOrders(Sort(front, order), last, order);
      InsertPermutes(Sort(front, order), last, order);
    }
  }

  // ---------------------------------------------------------------- what a query answers

  /** What a filter asks of the value at its path, with the filter's own value on the left of comparisons. */
  ghost predicate Satisfies(value: Option<Json>, filter: Filter) {
    && value.Some?
    && match filter
       case Eq(_, expected) => Equal(value.value, expected)
       case Ne(_, expected) => !Equal(value.value, expected)
       case Gt(_, expected) => Compare(expected, value.value) == Some(Before)
       case Gte(_, expected) => Compare(expected, value.value) in {Some(Before), Some(Same)}
       case Lt(_, expected) => Compare(expected, value.value) == Some(After)
       case Lte(_, expected) => Compare(expected, value.value) in {Some(After), Some(Same)}
       case Prefix(_, text) => exists rest :: value.value == Str(text + rest)
       case Contains(_, text) => exists front, rest :: value.value == Str(front + text + rest)
       case Exists(_) => true
  }

  lemma CompareReversed(a: Json, b: Json)
    ensures Compare(b, a) == if Compare(a, b).Some? then Some(Reversed(Compare(a, b).value)) else None
  {
    if a.Str? && b.Str? {
      Order.Connected(a.s, b.s);
      if Order.Less(a.s, b.s) {
        Order.OneWay(a.s, b.s);
      }
    }
  }

  lemma TextIsContained(s: string, text: string)
    ensures ContainsText(s, text) <==> exists front, rest :: s == front + text + rest
  {
    if ContainsText(s, text) {
      var i :| 0 <= i <= |s| && text <= s[i..];
      assert s == s[..i] + text + s[i + |text|..];
    }
    forall front, rest | s == front + text + rest ensures ContainsText(s, text) {
      assert s[|front|..] == text + rest;
    }
  }

  /** A filter lets a value through if and only if it is there and as the filter asks. */
  lemma MatchesAsAsked(value: Option<Json>, filter: Filter)
    ensures Matches(value, filter) <==> Satisfies(value, filter)
  {
    if value.Some? {
      match filter
      case Gt(_, expected) => CompareReversed(value.value, expected);
      case Gte(_, expected) => CompareReversed(value.value, expected);
      case Lt(_, expected) => CompareReversed(value.value, expected);
      case Lte(_, expected) => CompareReversed(value.value, expected);
      case Prefix(_, text) =>
        if Matches(value, filter) {
          assert value.value.s == text + value.value.s[|text|..];
        }
      case Contains(_, text) =>
        if value.value.Str? {
          TextIsContained(value.value.s, text);
        }
      case _ =>
    }
  }

  /** Names that lead from one JSON value to another, member by member. */
  ghost predicate Steps(names: seq<string>, values: seq<Json>) {
    && |values| == |names| + 1
    && forall i :: 0 <= i < |names| ==>
                     values[i].Object? && names[i] in values[i].members && values[i + 1] == values[i].members[names[i]]
  }

  ghost predicate Reaches(from: Json, names: seq<string>, to: Json) {
    exists values: seq<Json> :: Steps(names, values) && values[0] == from && values[|names|] == to
  }

  /** What a path names: the whole value, the key, or what the names between its dots lead to. */
  ghost predicate Names(key: string, value: Json, path: string, found: Json) {
    if path == "" || path == "$value" then found == value
    else if path == "$key" then found == Str(key)
    else exists names: seq<string> ::
           names != [] && Order.Join(names, '.') == path && (forall i :: 0 <= i < |names| ==> '.' !in names[i]) &&
           Reaches(value, names, found)
  }

  lemma ReachesNext(value: Json, names: seq<string>, found: Json)
    requires names != []
    ensures Reaches(value, names, found) <==>
            && value.Object? && names[0] in value.members
            && Reaches(value.members[names[0]], names[1..], found)
  {
    forall values: seq<Json> | Steps(names, values) && values[0] == value && values[|names|] == found
      ensures value.Object? && names[0] in value.members && Reaches(value.members[names[0]], names[1..], found)
    {
      StepsOn(names, values);
    }
    if value.Object? && names[0] in value.members && Reaches(value.members[names[0]], names[1..], found) {
      var values: seq<Json> :|
        Steps(names[1..], values) && values[0] == value.members[names[0]] && values[|names| - 1] == found;
      StepsBefore(value, names, values);
    }
  }

  lemma StepsOn(names: seq<string>, values: seq<Json>)
    requires names != [] && Steps(names, values)
    ensures values[0].Object? && names[0] in values[0].members && values[1] == values[0].members[names[0]]
    ensures Steps(names[1..], values[1..])
  {
    assert values[0 + 1] == values[0].members[names[0]];
    forall i | 0 <= i < |names[1..]|
      ensures values[1..][i].Object? && names[1..][i] in values[1..][i].members
      ensures values[1..][i + 1] == values[1..][i].members[names[1..][i]]
    {
      assert values[i + 1 + 1] == values[i + 1].members[names[i + 1]];
    }
  }

  lemma StepsBefore(value: Json, names: seq<string>, values: seq<Json>)
    requires names != [] && Steps(names[1..], values)
    requires value.Object? && names[0] in value.members && values[0] == value.members[names[0]]
    ensures Steps(names, [value] + values)
  {
    var all := [value] + values;
    forall i | 0 <= i < |names|
      ensures all[i].Object? && names[i] in all[i].members && all[i + 1] == all[i].members[names[i]]
    {
      if i > 0 {
        assert values[i - 1 + 1] == values[i - 1].members[names[1..][i - 1]];
      }
    }
  }

  lemma {:induction false} WalkReaches(value: Json, names: seq<string>, found: Json)
    ensures Walk(value, names) == Some(found) <==> Reaches(value, names, found)
    decreases |names|
  {
    if names == [] {
      assert Steps(names, [value]);
    } else {
      ReachesNext(value, names, found);
      if value.Object? && names[0] in value.members {
        WalkReaches(value.members[names[0]], names[1..], found);
      }
    }
  }

  /** A path reads a value if and only if the path names that value. */
  lemma PathNames(key: string, value: Json, path: string, found: Json)
    ensures ValueAt(key, value, ParsePath(path)) == Some(found) <==> Names(key, value, path, found)
  {
    if ParsePath(path).Segments? {
      var names := Order.Split(path, '.');
      Order.SplitJoins(path, '.');
      WalkReaches(value, names, found);
      forall other: seq<string> |
        other != [] && Order.Join(other, '.') == path && (forall i :: 0 <= i < |other| ==> '.' !in other[i])
        ensures other == names
      {
        Order.JoinSplits(other, '.');
      }
    }
  }

  /** A position whose candidate passes all filters. */
  ghost predicate Accepts(nodes: Nodes, candidates: seq<Candidate>, spec: Spec, j: nat) {
    && j < |candidates|
    && forall i :: 0 <= i < |spec.filters| ==>
                     Satisfies(ReadNaive(nodes, candidates[j], spec.filters[i].path), spec.filters[i])
  }

  ghost function Accepted(nodes: Nodes, candidates: seq<Candidate>, spec: Spec): set<nat> {
    set j: nat | j < |candidates| && Accepts(nodes, candidates, spec, j)
  }

  /** One key stands before another; positions decide between equal keys. */
  ghost predicate KeyFirst(a: string, i: nat, b: string, j: nat) {
    Order.Less(a, b) || (a == b && i < j)
  }

  /**
    Position j may come right behind position i: as the candidates stood if no order is asked for;
    else the smaller value first, or last when descending, missing values before all others, or
    behind them when descending, and keys in order among equal or incomparable values.
   */
  ghost predicate Follows(nodes: Nodes, candidates: seq<Candidate>, spec: Spec, i: nat, j: nat) {
    && i < |candidates| && j < |candidates|
    && match spec.order
       case None => i < j
       case Some(order) =>
         var a, b := candidates[i], candidates[j];
         match (ReadNaive(nodes, a, order.path), ReadNaive(nodes, b, order.path))
         case (None, None) =>
           if order.descending then Order.Less(b.key, a.key) || (a.key == b.key && i < j)
           else KeyFirst(a.key, i, b.key, j)
         case (None, Some(_)) => !order.descending
         case (Some(_), None) => order.descending
         case (Some(x), Some(y)) =>
           match Compare(x, y)
           case Some(Before) => !order.descending
           case Some(After) => order.descending
           case _ => KeyFirst(a.key, i, b.key, j)
  }

  ghost predicate Neat(nodes: Nodes, candidates: seq<Candidate>, spec: Spec, at: seq<nat>) {
    forall i :: 0 <= i < |at| - 1 ==> Follows(nodes, candidates, spec, at[i], at[i + 1])
  }

  /** All positions that pass, each once, in the order asked for. */
  ghost predicate Ranks(nodes: Nodes, candidates: seq<Candidate>, spec: Spec, at: seq<nat>) {
    && multiset(at) == multiset(Accepted(nodes, candidates, spec))
    && Neat(nodes, candidates, spec, at)
  }

  /** An entry holds the key of a candidate and the JSON value that shows it. */
  ghost predicate ShowsAt(nodes: Nodes, candidates: seq<Candidate>, j: nat, entry: MapEntry) {
    && j < |candidates| && entry.key == candidates[j].key
    && match candidates[j].source
       case NodeSource(n) => Depicts(nodes, n, {}, entry.value)
       case FieldSource(n, f) =>
         match FieldOf(nodes, n, f)
         case None => entry.value == Null
         case Some(value) => DepictsValue(nodes, value, {}, entry.value)
  }

  function Least(a: nat, b: nat): nat {
    if a < b then a else b
  }

  /** The entries are those of the positions behind the offset, up to the limit. */
  ghost predicate OnPage(nodes: Nodes, candidates: seq<Candidate>, spec: Spec, at: seq<nat>, entries: seq<MapEntry>) {
    var skipped := Least(spec.offset, |at|);
    && |entries| == (if spec.limit.Some? then Least(spec.limit.value, |at| - skipped) else |at| - skipped)
    && forall i :: 0 <= i < |entries| ==> ShowsAt(nodes, candidates, at[skipped + i], entries[i])
  }

  /** The entries are the page asked for of the ranked positions. */
  ghost predicate Answers(nodes: Nodes, candidates: seq<Candidate>, spec: Spec, at: seq<nat>, entries: seq<MapEntry>) {
    Ranks(nodes, candidates, spec, at) && OnPage(nodes, candidates, spec, at, entries)
  }

  ghost function EvaluatedAt(nodes: Nodes, candidates: seq<Candidate>, spec: Spec, j: nat): Evaluated
    requires j < |candidates|
  {
    var c := candidates[j];
    Evaluated(c, Some(MaterializeCandidate(nodes, c)), OrderNaive(nodes, c, spec))
  }

  ghost function AllEvaluated(nodes: Nodes, candidates: seq<Candidate>, spec: Spec): seq<Evaluated> {
    seq(|candidates|, j requires 0 <= j < |candidates| => EvaluatedAt(nodes, candidates, spec, j))
  }

  ghost function AllAccepted(nodes: Nodes, candidates: seq<Candidate>, spec: Spec): seq<bool> {
    seq(|candidates|, j requires 0 <= j < |candidates| => Accepts(nodes, candidates, spec, j))
  }

  /** The elements of a sequence at given positions. */
  ghost predicate StandAt(all: seq<Evaluated>, s: seq<Evaluated>, at: seq<nat>) {
    |s| == |at| && forall i :: 0 <= i < |s| ==> at[i] < |all| && s[i] == all[at[i]]
  }

  ghost predicate Ascend(at: seq<nat>) {
    forall i, k :: 0 <= i < k < |at| ==> at[i] < at[k]
  }

  ghost predicate Below(at: seq<nat>, n: nat) {
    forall i :: 0 <= i < |at| ==> at[i] < n
  }

  /** The kept ones of the first n positions. */
  ghost function KeptAmong(keep: seq<bool>, n: nat): set<nat>
    requires n <= |keep|
  {
    set j: nat | j < n && keep[j]
  }

  ghost function Kept(all: seq<Evaluated>, keep: seq<bool>, n: nat): seq<Evaluated>
    requires n <= |all| == |keep|
  {
    if n == 0 then [] else Kept(all, keep, n - 1) + if keep[n - 1] then [all[n - 1]] else []
  }

  lemma AcceptsAsAsked(nodes: Nodes, candidates: seq<Candidate>, spec: Spec, j: nat)
    requires j < |candidates|
    ensures AcceptedNaive(nodes, candidates[j], spec.filters) <==> Accepts(nodes, candidates, spec, j)
  {
    var c := candidates[j];
    forall i | 0 <= i < |spec.filters|
      ensures Matches(ReadNaive(nodes, c, spec.filters[i].path), spec.filters[i]) <==>
              Satisfies(ReadNaive(nodes, c, spec.filters[i].path), spec.filters[i])
    {
      MatchesAsAsked(ReadNaive(nodes, c, spec.filters[i].path), spec.filters[i]);
    }
  }

  lemma EvaluatedMore(nodes: Nodes, candidates: seq<Candidate>, spec: Spec, n: nat)
    requires n < |candidates|
    ensures EvaluateNaive(nodes, candidates[..n + 1], spec) ==
            EvaluateNaive(nodes, candidates[..n], spec) +
            if Accepts(nodes, candidates, spec, n) then [EvaluatedAt(nodes, candidates, spec, n)] else []
  {
    assert candidates[..n + 1][..n] == candidates[..n];
    AcceptsAsAsked(nodes, candidates, spec, n);
  }

  lemma KeptStep(nodes: Nodes, candidates: seq<Candidate>, spec: Spec, n: nat)
    requires n < |candidates|
    ensures var all, keep := AllEvaluated(nodes, candidates, spec), AllAccepted(nodes, candidates, spec);
            Kept(all, keep, n + 1) ==
            Kept(all, keep, n) +
            if Accepts(nodes, candidates, spec, n) then [EvaluatedAt(nodes, candidates, spec, n)] else []
  {
  }

  lemma {:induction false} EvaluatedAreKept(nodes: Nodes, candidates: seq<Candidate>, spec: Spec, n: nat)
    requires n <= |candidates|
    ensures EvaluateNaive(nodes, candidates[..n], spec) ==
            Kept(AllEvaluated(nodes, candidates, spec), AllAccepted(nodes, candidates, spec), n)
  {
    if n > 0 {
      EvaluatedAreKept(nodes, candidates, spec, n - 1);
      EvaluatedMore(nodes, candidates, spec, n - 1);
      KeptStep(nodes, candidates, spec, n - 1);
    }
  }

  lemma KeptMore(keep: seq<bool>, n: nat)
    requires n < |keep|
    ensures n !in KeptAmong(keep, n)
    ensures KeptAmong(keep, n + 1) == if keep[n] then KeptAmong(keep, n) + {n} else KeptAmong(keep, n)
  {
  }

  lemma StandBetween(all: seq<Evaluated>, s: seq<Evaluated>, at: seq<nat>, j: nat, k: nat)
    requires StandAt(all, s, at) && j < |all| && k <= |s|
    ensures StandAt(all, s[..k] + [all[j]] + s[k..], at[..k] + [j] + at[k..])
  {
  }

  lemma StandMore(all: seq<Evaluated>, s: seq<Evaluated>, at: seq<nat>, j: nat)
    requires StandAt(all, s, at) && j < |all|
    ensures StandAt(all, s + [all[j]], at + [j])
  {
  }

  /** Keeping takes the kept positions, each once, in order. */
  lemma {:induction false} KeptPositions(all: seq<Evaluated>, keep: seq<bool>, n: nat) returns (at: seq<nat>)
    requires n <= |all| == |keep|
    ensures StandAt(all, Kept(all, keep, n), at) && Ascend(at) && Below(at, n)
    ensures multiset(at) == multiset(KeptAmong(keep, n))
  {
    at := [];
    if n > 0 {
      at := KeptPositions(all, keep, n - 1);
      KeptMore(keep, n - 1);
      if keep[n - 1] {
        StandMore(all, Kept(all, keep, n - 1), at, n - 1);
        at := at + [n - 1];
      } else {
        assert Kept(all, keep, n) == Kept(all, keep, n - 1);
      }
    }
  }

  /** What a stable sort leaves at neighbouring positions. */
  ghost predicate Tidy(all: seq<Evaluated>, order: OrderBy, i: nat, j: nat) {
    && i < |all| && j < |all|
    && if i < j then !CompareEvaluated(all[j], all[i], order).Before?
       else CompareEvaluated(all[i], all[j], order).Before?
  }

  ghost predicate AllTidy(all: seq<Evaluated>, order: OrderBy, at: seq<nat>) {
    forall i :: 0 <= i < |at| - 1 ==> Tidy(all, order, at[i], at[i + 1])
  }

  /** Insertion cuts the sequence at one place, behind the last element that the new one does not precede. */
  lemma {:induction false} InsertCuts(s: seq<Evaluated>, x: Evaluated, order: OrderBy) returns (k: nat)
    ensures k <= |s| && Insert(s, x, order) == s[..k] + [x] + s[k..]
    ensures k < |s| ==> CompareEvaluated(x, s[k], order).Before?
    ensures k > 0 ==> !CompareEvaluated(x, s[k - 1], order).Before?
    decreases |s|
  {
    k := |s|;
    if s != [] && CompareEvaluated(x, s[|s| - 1], order).Before? {
      k := InsertCuts(s[..|s| - 1], x, order);
      assert s == s[..|s| - 1] + [s[|s| - 1]];
      assert s[..|s| - 1][..k] == s[..k] && s[..|s| - 1][k..] + [s[|s| - 1]] == s[k..];
    }
  }

  lemma TidyBetween(all: seq<Evaluated>, order: OrderBy, at: seq<nat>, j: nat, k: nat)
    requires AllTidy(all, order, at) && k <= |at|
    requires k > 0 ==> Tidy(all, order, at[k - 1], j)
    requires k < |at| ==> Tidy(all, order, j, at[k])
    ensures AllTidy(all, order, at[..k] + [j] + at[k..])
  {
    var more := at[..k] + [j] + at[k..];
    forall i | 0 <= i < |more| - 1 ensures Tidy(all, order, more[i], more[i + 1]) {
      if i < k - 1 {
        assert Tidy(all, order, at[i], at[i + 1]);
      } else if i > k {
        assert Tidy(all, order, at[i - 1], at[i - 1 + 1]);
      }
    }
  }

  lemma SameBetween(at: seq<nat>, j: nat, k: nat)
    requires k <= |at|
    ensures multiset(at[..k] + [j] + at[k..]) == multiset(at) + multiset{j}
  {
    assert at == at[..k] + at[k..];
  }

  /** Where insertion cuts, the new position is tidy on both sides. */
  lemma TidyCut(all: seq<Evaluated>, order: OrderBy, s: seq<Evaluated>, at: seq<nat>, j: nat) returns (k: nat)
    requires j < |all| && StandAt(all, s, at) && Below(at, j)
    ensures k <= |s| && Insert(s, all[j], order) == s[..k] + [all[j]] + s[k..]
    ensures k > 0 ==> Tidy(all, order, at[k - 1], j)
    ensures k < |at| ==> Tidy(all, order, j, at[k])
  {
    k := InsertCuts(s, all[j], order);
  }

  lemma InsertedPosition(all: seq<Evaluated>, order: OrderBy, s: seq<Evaluated>, at: seq<nat>, j: nat)
    returns (at': seq<nat>)
    requires j < |all| && StandAt(all, s, at) && AllTidy(all, order, at) && Below(at, j)
    ensures StandAt(all, Insert(s, all[j], order), at')
    ensures AllTidy(all, order, at') && multiset(at') == multiset(at) + multiset{j}
  {
    var k := TidyCut(all, order, s, at, j);
    TidyBetween(all, order, at, j, k);
    StandBetween(all, s, at, j, k);
    SameBetween(at, j, k);
    at' := at[..k] + [j] + at[k..];
  }

  lemma BelowLast(at: seq<nat>, front: seq<nat>)
    requires at != [] && Ascend(at) && multiset(front) == multiset(at[..|at| - 1])
    ensures Below(front, at[|at| - 1]) && multiset(at) == multiset(front) + multiset{at[|at| - 1]}
  {
    assert at == at[..|at| - 1] + [at[|at| - 1]];
    forall i | 0 <= i < |front| ensures front[i] < at[|at| - 1] {
      assert front[i] in multiset(at[..|at| - 1]);
    }
  }

  lemma {:induction false} SortedPositions(all: seq<Evaluated>, order: OrderBy, s: seq<Evaluated>, at: seq<nat>)
    returns (at': seq<nat>)
    requires StandAt(all, s, at) && Ascend(at)
    ensures StandAt(all, Sort(s, order), at') && AllTidy(all, order, at') && multiset(at') == multiset(at)
    decreases |s|
  {
    if s == [] {
      at' := [];
    } else {
      var last := |s| - 1;
      var front := SortedPositions(all, order, s[..last], at[..last]);
      BelowLast(at, front);
      at' := InsertedPosition(all, order, Sort(s[..last], order), front, at[last]);
    }
  }

  /** Neighbours of a sort are as the order asks. */
  lemma TidyFollows(nodes: Nodes, candidates: seq<Candidate>, spec: Spec, i: nat, j: nat)
    requires spec.order.Some? && Tidy(AllEvaluated(nodes, candidates, spec), spec.order.value, i, j)
    ensures Follows(nodes, candidates, spec, i, j)
  {
    var a, b := EvaluatedAt(nodes, candidates, spec, i), EvaluatedAt(nodes, candidates, spec, j);
    Order.Connected(a.candidate.key, b.candidate.key);
    if Order.Less(a.candidate.key, b.candidate.key) {
      Order.OneWay(a.candidate.key, b.candidate.key);
    }
    if a.orderValue.Some? && b.orderValue.Some? {
      CompareReversed(a.orderValue.value, b.orderValue.value);
    }
  }

  lemma EntryShows(nodes: Nodes, candidates: seq<Candidate>, spec: Spec, j: nat)
    requires j < |candidates|
    ensures ShowsAt(nodes, candidates, j, Entry(nodes, EvaluatedAt(nodes, candidates, spec, j)))
  {
    var json := MaterializeCandidate(nodes, candidates[j]);
    match candidates[j].source
    case NodeSource(n) => NodeIsDepicted(nodes, n, {}, json);
    case FieldSource(n, f) =>
      if FieldOf(nodes, n, f).Some? {
        ValueIsDepicted(nodes, FieldOf(nodes, n, f).value, {}, json);
      }
  }

  lemma StandingShows(nodes: Nodes, candidates: seq<Candidate>, spec: Spec, s: seq<Evaluated>, at: seq<nat>, i: nat)
    requires StandAt(AllEvaluated(nodes, candidates, spec), s, at) && i < |s|
    ensures ShowsAt(nodes, candidates, at[i], Entry(nodes, s[i]))
  {
    EntryShows(nodes, candidates, spec, at[i]);
  }

  /** Paging skips the offset, or all there is, and takes the limit, or the rest. */
  lemma PageTakes<T>(s: seq<T>, spec: Spec)
    ensures var skipped := Least(spec.offset, |s|);
            && |Page(s, spec)| == (if spec.limit.Some? then Least(spec.limit.value, |s| - skipped) else |s| - skipped)
            && forall i :: 0 <= i < |Page(s, spec)| ==> Page(s, spec)[i] == s[skipped + i]
  {
  }

  lemma EntriesPage(nodes: Nodes, s: seq<Evaluated>, spec: Spec)
    ensures Entries(nodes, Page(s, spec)) == Page(Entries(nodes, s), spec)
  {
  }

  lemma ShownPage(nodes: Nodes, candidates: seq<Candidate>, spec: Spec, at: seq<nat>, shown: seq<MapEntry>)
    requires |shown| == |at| && forall i :: 0 <= i < |at| ==> ShowsAt(nodes, candidates, at[i], shown[i])
    ensures OnPage(nodes, candidates, spec, at, Page(shown, spec))
  {
    var page, skipped := Page(shown, spec), Least(spec.offset, |at|);
    PageTakes(shown, spec);
    forall i | 0 <= i < |page| ensures ShowsAt(nodes, candidates, at[skipped + i], page[i]) {
      assert ShowsAt(nodes, candidates, at[skipped + i], shown[skipped + i]);
    }
  }

  lemma PageShows(nodes: Nodes, candidates: seq<Candidate>, spec: Spec, s: seq<Evaluated>, at: seq<nat>)
    requires StandAt(AllEvaluated(nodes, candidates, spec), s, at)
    ensures OnPage(nodes, candidates, spec, at, Entries(nodes, Page(s, spec)))
  {
    var shown := Entries(nodes, s);
    forall i | 0 <= i < |at| ensures ShowsAt(nodes, candidates, at[i], shown[i]) {
      StandingShows(nodes, candidates, spec, s, at, i);
    }
    ShownPage(nodes, candidates, spec, at, shown);
    EntriesPage(nodes, s, spec);
  }

  lemma KeptRank(nodes: Nodes, candidates: seq<Candidate>, spec: Spec, at: seq<nat>)
    requires multiset(at) == multiset(KeptAmong(AllAccepted(nodes, candidates, spec), |candidates|))
    requires if spec.order.Some? then AllTidy(AllEvaluated(nodes, candidates, spec), spec.order.value, at)
             else Ascend(at) && Below(at, |candidates|)
    ensures Ranks(nodes, candidates, spec, at)
  {
    assert KeptAmong(AllAccepted(nodes, candidates, spec), |candidates|) == Accepted(nodes, candidates, spec);
    forall i | 0 <= i < |at| - 1 ensures Follows(nodes, candidates, spec, at[i], at[i + 1]) {
      if spec.order.Some? {
        TidyFollows(nodes, candidates, spec, at[i], at[i + 1]);
      }
    }
  }

  /** The naive query answers with the accepted candidates, ranked, on the page asked for. */
  lemma NaiveAnswers(nodes: Nodes, candidates: seq<Candidate>, spec: Spec) returns (at: seq<nat>)
    ensures Answers(nodes, candidates, spec, at, NaiveQuery(nodes, candidates, spec))
  {
    var all, keep := AllEvaluated(nodes, candidates, spec), AllAccepted(nodes, candidates, spec);
    var s := Kept(all, keep, |candidates|);
    at := KeptPositions(all, keep, |candidates|);
    if spec.order.Some? {
      at := SortedPositions(all, spec.order.value, s, at);
    }
    KeptRank(nodes, candidates, spec, at);
    EvaluatedAreKept(nodes, candidates, spec, |candidates|);
    assert candidates[..|candidates|] == candidates;
    PageShows(nodes, candidates, spec, Ordered(s, spec), at);
  }

  // ---------------------------------------------------------------- lazy reading

  datatype Lazy = Read(value: Option<Json>) | Unread

  function LazyNode(nodes: Nodes, n: NodeId, segments: seq<string>, visited: set<NodeId>): Lazy
    decreases |segments|, 0
  {
    if n in visited || n !in nodes || segments == [] then Unread
    else if segments[0] == "$id" then Read(if segments[1..] == [] then Some(Str(n)) else None)
    else LazyField(nodes, n, segments[0], segments[1..], visited + {n})
  }

  function LazyField(nodes: Nodes, n: NodeId, f: string, segments: seq<string>, visited: set<NodeId>): Lazy
    decreases |segments|, 1
  {
    match FieldOf(nodes, n, f)
    case None => Read(None)
    case Some(Scalar(json)) => Read(Walk(json, segments))
    case Some(Link(target)) => if segments == [] then Unread else LazyNode(nodes, target, segments, visited)
    case Some(_) => Unread
  }

  function LazyRead(nodes: Nodes, c: Candidate, path: ValuePath): Lazy {
    match path
    case Full => Unread
    case Key => Read(Some(Str(c.key)))
    case Segments(segments) =>
      match c.source
      case NodeSource(n) => LazyNode(nodes, n, segments, {})
      case FieldSource(n, f) => LazyField(nodes, n, f, segments, {})
  }

  /** The id a node shows, stored or generated, is the key it is kept under. */
  predicate ShowsKey(nodes: Nodes, n: NodeId)
    requires n in nodes
  {
    if "$id" in nodes[n].fields then nodes[n].fields["$id"].value == Scalar(Str(n)) else nodes[n].id == n
  }

  /** What laziness relies on. */
  ghost predicate Plain(nodes: Nodes) {
    forall n :: n in nodes ==> ShowsKey(nodes, n)
  }

  lemma OnlyScalarsAreText(nodes: Nodes, value: FieldValue, visited: set<NodeId>, text: string)
    ensures MaterializeValue(nodes, value, visited) == Str(text) <==> value == Scalar(Str(text))
  {
    match value
    case Link(target) => assert MaterializeNode(nodes, target, visited).Object?;
    case _ =>
  }

  lemma {:induction false} LazyNodeIsRight(nodes: Nodes, n: NodeId, segments: seq<string>, visited: set<NodeId>)
    requires Plain(nodes) && LazyNode(nodes, n, segments, visited).Read?
    ensures Walk(MaterializeNode(nodes, n, visited), segments) == LazyNode(nodes, n, segments, visited).value
    decreases |segments|, 0
  {
    var first, rest := segments[0], segments[1..];
    var fields := MaterializeFields(nodes, nodes[n].fields, visited + {n});
    var members := map["$id" := Str(nodes[n].id)] + fields;
    assert MaterializeNode(nodes, n, visited) == Object(members);
    if first == "$id" {
      assert ShowsKey(nodes, n);
      if first in nodes[n].fields {
        OnlyScalarsAreText(nodes, nodes[n].fields[first].value, visited + {n}, n);
      }
      assert members[first] == Str(n);
    } else if first in nodes[n].fields {
      LazyFieldIsRight(nodes, n, first, rest, visited + {n});
      assert members[first] == MaterializeValue(nodes, nodes[n].fields[first].value, visited + {n});
    }
  }

  lemma {:induction false} LazyFieldIsRight(nodes: Nodes, n: NodeId, f: string, segments: seq<string>,
                                            visited: set<NodeId>)
    requires Plain(nodes) && LazyField(nodes, n, f, segments, visited).Read? && FieldOf(nodes, n, f).Some?
    ensures Walk(MaterializeValue(nodes, FieldOf(nodes, n, f).value, visited), segments) ==
            LazyField(nodes, n, f, segments, visited).value
    decreases |segments|, 1
  {
    match FieldOf(nodes, n, f).value
    case Link(target) => LazyNodeIsRight(nodes, target, segments, visited);
    case _ =>
  }

  /** A lazy reading, where there is one, is what materializing first would have read. */
  lemma LazyReadIsRight(nodes: Nodes, c: Candidate, path: string)
    requires Plain(nodes) && LazyRead(nodes, c, ParsePath(path)).Read?
    ensures ReadNaive(nodes, c, path) == LazyRead(nodes, c, ParsePath(path)).value
  {
    if ParsePath(path).Segments? {
      var segments := ParsePath(path).segments;
      match c.source {
        case NodeSource(n) => LazyNodeIsRight(nodes, n, segments, {});
        case FieldSource(n, f) =>
          if FieldOf(nodes, n, f).Some? {
            LazyFieldIsRight(nodes, n, f, segments, {});
          }
      }
    }
  }

  /** The lazy id of a node is the materialized one if and only if the node shows its key. */
  lemma IdIsGenerated(nodes: Nodes, n: NodeId)
    requires n in nodes
    ensures LazyNode(nodes, n, ["$id"], {}) == Read(Some(Str(n)))
    ensures Walk(MaterializeNode(nodes, n, {}), ["$id"]) == Some(Str(n)) <==> ShowsKey(nodes, n)
  {
    var none: set<NodeId> := {};
    var fields := MaterializeFields(nodes, nodes[n].fields, none + {n});
    var members := map["$id" := Str(nodes[n].id)] + fields;
    assert MaterializeNode(nodes, n, none) == Object(members);
    var path := ["$id"];
    assert path[1..] == [];
    assert LazyNode(nodes, n, path, none) == Read(Some(Str(n)));
    assert Walk(Object(members), path) == Walk(members["$id"], path[1..]);
    if "$id" in nodes[n].fields {
      assert members["$id"] == MaterializeValue(nodes, nodes[n].fields["$id"].value, none + {n});
      OnlyScalarsAreText(nodes, nodes[n].fields["$id"].value, none + {n}, n);
    }
  }

  /** Every lazy reading that a query can make is right. */
  ghost predicate LazyIsRight(nodes: Nodes) {
    forall c, path :: LazyRead(nodes, c, ParsePath(path)).Read? ==>
                        ReadNaive(nodes, c, path) == LazyRead(nodes, c, ParsePath(path)).value
  }

  lemma IdPath()
    ensures ParsePath("$id") == Segments(["$id"])
  {
    Order.SplitNone("$id", '.');
  }

  /** Laziness is right on all candidates and paths if and only if all nodes show their keys. */
  lemma PlainIsExact(nodes: Nodes)
    ensures Plain(nodes) <==> LazyIsRight(nodes)
  {
    if Plain(nodes) {
      forall c, path | LazyRead(nodes, c, ParsePath(path)).Read?
        ensures ReadNaive(nodes, c, path) == LazyRead(nodes, c, ParsePath(path)).value
      {
        LazyReadIsRight(nodes, c, path);
      }
    }
    if LazyIsRight(nodes) {
      forall n | n in nodes ensures ShowsKey(nodes, n) {
        IdPath();
        IdIsGenerated(nodes, n);
        var c := Candidate("", NodeSource(n));
        assert LazyRead(nodes, c, ParsePath("$id")) == LazyNode(nodes, n, ["$id"], {});
        assert ReadNaive(nodes, c, "$id") == Walk(MaterializeNode(nodes, n, {}), ["$id"]);
      }
    }
  }

  /** One case: a node with a stored `$id`. */
  lemma StoredId(version: Clock.Marker)
    ensures var fields := map["$id" := FieldState(Scalar(Str("other")), version)];
            var nodes := map["n" := NodeState("n", fields, map[])];
            && LazyNode(nodes, "n", ["$id"], {}) == Read(Some(Str("n")))
            && Walk(MaterializeNode(nodes, "n", {}), ["$id"]) != Some(Str("n"))
  {
    var fields := map["$id" := FieldState(Scalar(Str("other")), version)];
    var nodes := map["n" := NodeState("n", fields, map[])];
    assert "other" != "n";
    IdIsGenerated(nodes, "n");
  }

  // ---------------------------------------------------------------- the lazy query

  /** A lazily evaluated candidate: right order value, and a full value only if it was needed. */
  ghost predicate Reflects(nodes: Nodes, lazy: Evaluated, naive: Evaluated) {
    && lazy.candidate == naive.candidate && lazy.orderValue == naive.orderValue
    && naive.full == Some(MaterializeCandidate(nodes, naive.candidate))
    && (lazy.full.Some? ==> lazy.full == naive.full)
  }

  ghost predicate AllReflect(nodes: Nodes, lazy: seq<Evaluated>, naive: seq<Evaluated>) {
    |lazy| == |naive| && forall i :: 0 <= i < |lazy| ==> Reflects(nodes, lazy[i], naive[i])
  }

  /** Reads a value, materializing the candidate at most once. */
  method ReadValue(nodes: Nodes, c: Candidate, full: Option<Json>, path: string)
    returns (value: Option<Json>, full': Option<Json>)
    requires Plain(nodes)
    requires full.Some? ==> full.value == MaterializeCandidate(nodes, c)
    ensures value == ReadNaive(nodes, c, path)
    ensures full'.Some? ==> full'.value == MaterializeCandidate(nodes, c)
    ensures full.Some? ==> full'.Some?
  {
    full' := full;
    match LazyRead(nodes, c, ParsePath(path)) {
      case Read(v) =>
        LazyReadIsRight(nodes, c, path);
        value := v;
      case Unread =>
        if full'.None? {
          full' := Some(MaterializeCandidate(nodes, c));
        }
        value := ValueAt(c.key, full'.value, ParsePath(path));
    }
  }

  method EvaluateCandidate(nodes: Nodes, c: Candidate, spec: Spec) returns (e: Option<Evaluated>)
    requires Plain(nodes)
    ensures e.Some? <==> AcceptedNaive(nodes, c, spec.filters)
    ensures e.Some? ==>
              Reflects(nodes, e.value, Evaluated(c, Some(MaterializeCandidate(nodes, c)), OrderNaive(nodes, c, spec)))
  {
    var full: Option<Json> := None;
    for i := 0 to |spec.filters|
      invariant full.Some? ==> full.value == MaterializeCandidate(nodes, c)
      invariant forall k :: 0 <= k < i ==> Matches(ReadNaive(nodes, c, spec.filters[k].path), spec.filters[k])
    {
      var value;
      value, full := ReadValue(nodes, c, full, spec.filters[i].path);
      if !Matches(value, spec.filters[i]) {
        return None;
      }
    }
    var orderValue: Option<Json> := None;
    if spec.order.Some? {
      orderValue, full := ReadValue(nodes, c, full, spec.order.value.path);
    }
    e := Some(Evaluated(c, full, orderValue));
  }

  lemma {:induction false} InsertReflects(nodes: Nodes, lazy: seq<Evaluated>, naive: seq<Evaluated>, x: Evaluated,
                                          y: Evaluated, order: OrderBy)
    requires AllReflect(nodes, lazy, naive) && Reflects(nodes, x, y)
    ensures AllReflect(nodes, Insert(lazy, x, order), Insert(naive, y, order))
    decreases |lazy|
  {
    if lazy != [] {
      var last := |lazy| - 1;
      assert Reflects(nodes, lazy[last], naive[last]);
      if CompareEvaluated(x, lazy[last], order).Before? {
        InsertReflects(nodes, lazy[..last], naive[..last], x, y, order);
      }
    }
  }

  lemma {:induction false} SortReflects(nodes: Nodes, lazy: seq<Evaluated>, naive: seq<Evaluated>, order: OrderBy)
    requires AllReflect(nodes, lazy, naive)
    ensures AllReflect(nodes, Sort(lazy, order), Sort(naive, order))
    decreases |lazy|
  {
    if lazy != [] {
      var last := |lazy| - 1;
      SortReflects(nodes, lazy[..last], naive[..last], order);
      InsertReflects(nodes, Sort(lazy[..last], order), Sort(naive[..last], order), lazy[last], naive[last], order);
    }
  }

  lemma PageReflects(nodes: Nodes, lazy: seq<Evaluated>, naive: seq<Evaluated>, spec: Spec)
    requires AllReflect(nodes, lazy, naive)
    ensures Entries(nodes, Page(lazy, spec)) == Entries(nodes, Page(naive, spec))
  {
    var a, b := Page(lazy, spec), Page(naive, spec);
    var offset := if spec.offset < |lazy| then spec.offset else |lazy|;
    forall i | 0 <= i < |a| ensures Entry(nodes, a[i]) == Entry(nodes, b[i]) {
      assert Reflects(nodes, lazy[offset + i], naive[offset + i]);
    }
  }

  /**
    The lazy query equals the naive one, for every graph, candidate list and spec: it answers with
    the accepted candidates, ranked, on the page asked for.
   */
  method EvaluateQuery(nodes: Nodes, candidates: seq<Candidate>, spec: Spec) returns (entries: seq<MapEntry>)
    requires Plain(nodes)
    ensures entries == NaiveQuery(nodes, candidates, spec)
    ensures exists at :: Answers(nodes, candidates, spec, at, entries)
  {
    var evaluated: seq<Evaluated> := [];
    for i := 0 to |candidates|
      invariant AllReflect(nodes, evaluated, EvaluateNaive(nodes, candidates[..i], spec))
    {
      assert candidates[..i + 1][..i] == candidates[..i];
      var e := EvaluateCandidate(nodes, candidates[i], spec);
      if e.Some? {
        evaluated := evaluated + [e.value];
      }
    }
    assert candidates[..|candidates|] == candidates;
    ghost var naive := EvaluateNaive(nodes, candidates, spec);
    if spec.order.Some? {
      SortReflects(nodes, evaluated, naive, spec.order.value);
      evaluated := Sort(evaluated, spec.order.value);
    }
    PageReflects(nodes, evaluated, Ordered(naive, spec), spec);
    entries := Entries(nodes, Page(evaluated, spec));
    ghost var at := NaiveAnswers(nodes, candidates, spec);
  }
}
