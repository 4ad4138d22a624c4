/**
  Filter pushdown: the filters of one path become bounds on sort keys, and the index is scanned
  within those bounds only.
 */
module Pushdown {
  import opened Json
  import opened Order
  import opened Query
  import opened SortKeys

  datatype Scan = Scan(
    exact: Option<string>,
    prefix: Option<string>,
    startAt: Option<string>,
    startAfter: Option<string>,
    endAt: Option<string>,
    endBefore: Option<string>)

  const UNBOUNDED := Scan(None, None, None, None, None, None)

  function Later(current: Option<string>, key: string): Option<string> {
    if current.Some? && Less(key, current.value) then current else Some(key)
  }

  function Earlier(current: Option<string>, key: string): Option<string> {
    if current.Some? && Less(current.value, key) then current else Some(key)
  }

  /** Narrows a scan by one filter. Filters without a sort key, and those of other kinds, do not narrow. */
  function Absorb(scan: Scan, filter: Filter): Scan {
    match filter
    case Eq(_, value) => if SortKey(value).Some? then scan.(exact := SortKey(value)) else scan
    case Gt(_, value) =>
      if SortKey(value).Some? then scan.(startAfter := Later(scan.startAfter, SortKey(value).value)) else scan
    case Gte(_, value) =>
      if SortKey(value).Some? then scan.(startAt := Later(scan.startAt, SortKey(value).value)) else scan
    case Lt(_, value) =>
      if SortKey(value).Some? then scan.(endBefore := Earlier(scan.endBefore, SortKey(value).value)) else scan
    case Lte(_, value) =>
      if SortKey(value).Some? then scan.(endAt := Earlier(scan.endAt, SortKey(value).value)) else scan
    case Prefix(_, text) => scan.(prefix := Some("s_" + Encode(text)))
    case _ => scan
  }

  function Build(filters: seq<Filter>): Scan
    decreases |filters|
  {
    if filters == [] then UNBOUNDED else Absorb(Build(filters[..|filters| - 1]), filters[|filters| - 1])
  }

  predicate Within(scan: Scan, key: string) {
    && (scan.prefix.Some? ==> scan.prefix.value <= key)
    && (scan.startAt.Some? ==> !Less(key, scan.startAt.value))
    && (scan.startAfter.Some? ==> Less(scan.startAfter.value, key))
    && (scan.endAt.Some? ==> !Less(scan.endAt.value, key))
    && (scan.endBefore.Some? ==> Less(key, scan.endBefore.value))
  }

  predicate Accepts(scan: Scan, key: string) {
    if scan.exact.Some? then key == scan.exact.value else Within(scan, key)
  }

  predicate AllMatch(filters: seq<Filter>, value: Json) {
    forall i :: 0 <= i < |filters| ==> Matches(Some(value), filters[i])
  }

  // ---------------------------------------------------------------- where zeros part

  /** The two zeros compare equal but have different sort keys. */
  predicate Clash(filter: Filter, value: Json) {
    value.Number? &&
    match filter
    case Eq(_, Number(e)) => (value.num.bits == 0 && e.bits == SIGN) || (value.num.bits == SIGN && e.bits == 0)
    case Gte(_, Number(e)) => value.num.bits == SIGN && e.bits == 0
    case Lte(_, Number(e)) => value.num.bits == 0 && e.bits == SIGN
    case _ => false
  }

  predicate Narrows(filter: Filter) {
    filter.Eq? && SortKey(filter.value).Some?
  }

  /** Whether the zeros part in a list: the last equality decides, if there is one. */
  predicate ZeroClash(filters: seq<Filter>, value: Json)
    decreases |filters|
  {
    if filters == [] then false
    else
      var front, last := filters[..|filters| - 1], filters[|filters| - 1];
      if Narrows(last) then Clash(last, value)
      else ZeroClash(front, value) || (Clash(last, value) && forall i :: 0 <= i < |front| ==> !Narrows(front[i]))
  }

  // ---------------------------------------------------------------- one filter

  /** Keys of one kind order as the values do, except for the two zeros. */
  lemma KeyOrder(a: Json, b: Json)
    requires Compare(a, b).Some?
    ensures SortKey(a).Some? && SortKey(b).Some?
    ensures Compare(a, b).value.Before? ==> Less(SortKey(a).value, SortKey(b).value)
    ensures Compare(a, b).value.After? ==> Less(SortKey(b).value, SortKey(a).value)
    ensures Compare(a, b).value.Same? && !a.Number? ==> SortKey(a) == SortKey(b)
  {
    StringOrder();
    match (a, b)
    case (Str(x), Str(y)) =>
      EncodeOrder(x, y);
      EncodeOrder(y, x);
      LessPrefix("s_", Encode(x), Encode(y));
      LessPrefix("s_", Encode(y), Encode(x));
    case (Number(x), Number(y)) =>
      NumberKeyOrder(x.bits, y.bits);
      NumberKeyOrder(y.bits, x.bits);
    case (Bool(x), Bool(y)) =>
      assert "b_0" == "b_" + "0" && "b_1" == "b_" + "1";
      LessPrefix("b_", "0", "1");
      LessPrefix("b_", "1", "0");
    case (Null, Null) =>
  }

  lemma EqualKeys(value: Json, expected: Json)
    requires SortKey(value).Some? && Equal(value, expected)
    ensures SortKey(expected).Some?
    ensures SortKey(value) == SortKey(expected) <==> !Clash(Eq("", expected), value)
  {
    if value.Number? {
      NumberKeyOrder(value.num.bits, expected.num.bits);
    }
  }

  lemma AtLeast(value: Json, expected: Json)
    requires Compares(Some(value), expected, {After, Same})
    ensures SortKey(expected).Some? && SortKey(value).Some?
    ensures !Less(SortKey(value).value, SortKey(expected).value) <==> !Clash(Gte("", expected), value)
  {
    StringOrder();
    KeyOrder(value, expected);
    if value.Number? {
      NumberKeyOrder(value.num.bits, expected.num.bits);
    }
  }

  lemma AtMost(value: Json, expected: Json)
    requires Compares(Some(value), expected, {Before, Same})
    ensures SortKey(expected).Some? && SortKey(value).Some?
    ensures !Less(SortKey(expected).value, SortKey(value).value) <==> !Clash(Lte("", expected), value)
  {
    StringOrder();
    KeyOrder(value, expected);
    if value.Number? {
      NumberKeyOrder(expected.num.bits, value.num.bits);
    }
  }

  /** The later of two lower bounds is the conjunction of both. */
  lemma LaterBounds(current: Option<string>, bound: string, key: string)
    ensures var l := Later(current, bound).value;
            && (!Less(key, l) <==> (current.Some? ==> !Less(key, current.value)) && !Less(key, bound))
            && (Less(l, key) <==> (current.Some? ==> Less(current.value, key)) && Less(bound, key))
  {
    StringOrder();
  }

  lemma EarlierBounds(current: Option<string>, bound: string, key: string)
    ensures var e := Earlier(current, bound).value;
            && (!Less(e, key) <==> (current.Some? ==> !Less(current.value, key)) && !Less(bound, key))
            && (Less(key, e) <==> (current.Some? ==> Less(key, current.value)) && Less(key, bound))
  {
    StringOrder();
  }

  lemma StartAtBounds(scan: Scan, bound: string, key: string)
    ensures Within(scan.(startAt := Later(scan.startAt, bound)), key) <==> Within(scan, key) && !Less(key, bound)
  {
    LaterBounds(scan.startAt, bound, key);
  }

  lemma EndAtBounds(scan: Scan, bound: string, key: string)
    ensures Within(scan.(endAt := Earlier(scan.endAt, bound)), key) <==> Within(scan, key) && !Less(bound, key)
  {
    EarlierBounds(scan.endAt, bound, key);
  }

  lemma AbsorbGt(scan: Scan, filter: Filter, value: Json)
    requires filter.Gt? && Matches(Some(value), filter)
    ensures SortKey(value).Some?
    ensures Within(Absorb(scan, filter), SortKey(value).value) <==> Within(scan, SortKey(value).value)
  {
    KeyOrder(value, filter.value);
    LaterBounds(scan.startAfter, SortKey(filter.value).value, SortKey(value).value);
  }

  lemma AbsorbLt(scan: Scan, filter: Filter, value: Json)
    requires filter.Lt? && Matches(Some(value), filter)
    ensures SortKey(value).Some?
    ensures Within(Absorb(scan, filter), SortKey(value).value) <==> Within(scan, SortKey(value).value)
  {
    KeyOrder(value, filter.value);
    EarlierBounds(scan.endBefore, SortKey(filter.value).value, SortKey(value).value);
  }

  lemma AbsorbGte(scan: Scan, filter: Filter, value: Json)
    requires filter.Gte? && Matches(Some(value), filter)
    ensures SortKey(value).Some?
    ensures Within(Absorb(scan, filter), SortKey(value).value)
            <==> Within(scan, SortKey(value).value) && !Clash(filter, value)
  {
    AtLeast(value, filter.value);
    StartAtBounds(scan, SortKey(filter.value).value, SortKey(value).value);
  }

  lemma ClashAnywhere(filter: Filter, value: Json)
    requires filter.Lte?
    ensures Clash(filter, value) <==> Clash(Lte("", filter.value), value)
  {
  }

  lemma AbsorbLte(scan: Scan, filter: Filter, value: Json)
    requires filter.Lte? && Matches(Some(value), filter)
    ensures SortKey(value).Some?
    ensures Within(Absorb(scan, filter), SortKey(value).value)
            <==> Within(scan, SortKey(value).value) && !Clash(filter, value)
  {
    AtMost(value, filter.value);
    ClashAnywhere(filter, value);
    EndAtBounds(scan, SortKey(filter.value).value, SortKey(value).value);
  }

  lemma PrefixKey(text: string, s: string)
    requires text <= s
    ensures "s_" + Encode(text) <= "s_" + Encode(s)
  {
    EncodePrefix(text, s);
  }

  /** A filter that accepts a value narrows the scan past its key only if the zeros part. */
  lemma AbsorbWithin(scan: Scan, filter: Filter, value: Json)
    requires SortKey(value).Some? && Matches(Some(value), filter) && !filter.Eq?
    requires scan.prefix.Some? ==> scan.prefix.value <= SortKey(value).value
    ensures Within(Absorb(scan, filter), SortKey(value).value)
            <==> Within(scan, SortKey(value).value) && !Clash(filter, value)
  {
    match filter {
      case Gt(_, _) => AbsorbGt(scan, filter, value);
      case Lt(_, _) => AbsorbLt(scan, filter, value);
      case Gte(_, _) => AbsorbGte(scan, filter, value);
      case Lte(_, _) => AbsorbLte(scan, filter, value);
      case Prefix(_, text) => PrefixKey(text, value.s);
      case _ =>
    }
  }

  lemma AbsorbKeeps(scan: Scan, filter: Filter, value: Json)
    requires SortKey(value).Some? && Matches(Some(value), filter) && !filter.Eq?
    requires scan.prefix.Some? ==> scan.prefix.value <= SortKey(value).value
    ensures var after := Absorb(scan, filter);
            after.exact == scan.exact && (after.prefix.Some? ==> after.prefix.value <= SortKey(value).value)
  {
    if filter.Prefix? {
      PrefixKey(filter.text, value.s);
    }
  }

  // ---------------------------------------------------------------- all filters

  predicate NoEquality(filters: seq<Filter>) {
    forall i :: 0 <= i < |filters| ==> !Narrows(filters[i])
  }

  lemma {:induction false} BuildAccepts(filters: seq<Filter>, value: Json)
    requires SortKey(value).Some? && AllMatch(filters, value)
    ensures var scan := Build(filters); var key := SortKey(value).value;
            && (scan.exact.None? <==> NoEquality(filters))
            && (scan.prefix.Some? ==> scan.prefix.value <= key)
            && (scan.exact.None? ==> (Within(scan, key) <==> !ZeroClash(filters, value)))
            && (scan.exact.Some? ==> (key == scan.exact.value <==> !ZeroClash(filters, value)))
    decreases |filters|
  {
    if filters != [] {
      var front, last := filters[..|filters| - 1], filters[|filters| - 1];
      assert AllMatch(front, value);
      BuildAccepts(front, value);
      assert Matches(Some(value), last);
      assert NoEquality(filters) <==> NoEquality(front) && !Narrows(last);
      if last.Eq? {
        EqualKeys(value, last.value);
        assert Clash(last, value) == Clash(Eq("", last.value), value);
      } else {
        AbsorbWithin(Build(front), last, value);
        AbsorbKeeps(Build(front), last, value);
      }
    }
  }

  /**
    Pushdown loses nothing but parted zeros: a scan built from filters that all accept a value accepts
    its sort key if and only if no zero of the other sign stands in the way.
   */
  lemma PushdownIsExact(filters: seq<Filter>, value: Json)
    requires SortKey(value).Some? && AllMatch(filters, value)
    ensures Accepts(Build(filters), SortKey(value).value) <==> !ZeroClash(filters, value)
  {
    BuildAccepts(filters, value);
  }

  predicate IsNegativeZero(value: Json) {
    value.Number? && value.num.bits == SIGN
  }

  /** Without negative zeros nothing is lost. */
  lemma {:induction false} NoNegativeZero(filters: seq<Filter>, value: Json)
    requires !IsNegativeZero(value)
    requires forall i :: 0 <= i < |filters| && (filters[i].Eq? || filters[i].Lte?) ==> !IsNegativeZero(filters[i].value)
    ensures !ZeroClash(filters, value)
    decreases |filters|
  {
    if filters != [] {
      NoNegativeZero(filters[..|filters| - 1], value);
    }
  }

  datatype IndexedValue = IndexedValue(node: string, value: Json, sortable: string)

  predicate Selects(filters: seq<Filter>, e: IndexedValue) {
    AllMatch(filters, e.value) && !ZeroClash(filters, e.value)
  }

  /** Scans an index within the bounds and checks the filters again on what it finds. */
  method ScanMatching(entries: seq<IndexedValue>, filters: seq<Filter>) returns (matched: set<string>)
    requires forall i :: 0 <= i < |entries| ==> SortKey(entries[i].value) == Some(entries[i].sortable)
    ensures forall n :: n in matched <==>
                        exists i :: 0 <= i < |entries| && entries[i].node == n && Selects(filters, entries[i])
  {
    var scan := Build(filters);
    matched := {};
    for k := 0 to |entries|
      invariant forall n :: n in matched <==>
                            exists i :: 0 <= i < k && entries[i].node == n && Selects(filters, entries[i])
    {
      var entry := entries[k];
      if AllMatch(filters, entry.value) {
        PushdownIsExact(filters, entry.value);
      }
      if Accepts(scan, entry.sortable) && AllMatch(filters, entry.value) {
        matched := matched + {entry.node};
      }
    }
  }

  /** One case: a stored zero is equal to a negative zero, but is not found by it. */
  lemma ZeroIsLost(path: string)
    ensures var value, filters := Number(Float(0)), [Eq(path, Number(Float(SIGN)))];
            AllMatch(filters, value) && SortKey(value).Some? && !Accepts(Build(filters), SortKey(value).value)
  {
    var value, filter := Number(Float(0)), Eq(path, Number(Float(SIGN)));
    var filters := [filter];
    assert Matches(Some(value), filter);
    assert Clash(filter, value);
    assert ZeroClash(filters, value);
    PushdownIsExact(filters, value);
  }
}
