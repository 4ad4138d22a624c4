/**
  Index fragments: the scalars reachable from a node through links, with their dotted paths. The
  collector remembers the fragments of nodes whose links lead into no cycle.
 */
module Fragments {
  import opened Json
  import opened Order
  import opened Graph
  import opened SortKeys
  import opened Materialize
  import opened Recovery

  datatype Fragment = Fragment(path: string, value: Json, sortable: string)

  /** Fragments, and whether a node on the active path was met again. */
  datatype Collected = Collected(fragments: seq<Fragment>, cyclic: bool)

  function Under(field: string, f: Fragment): Fragment {
    f.(path := if f.path == "" then field else field + "." + f.path)
  }

  function AllUnder(field: string, fs: seq<Fragment>): seq<Fragment> {
    seq(|fs|, i requires 0 <= i < |fs| => Under(field, fs[i]))
  }

  function ScalarFragments(field: string, value: Json): seq<Fragment> {
    match SortKey(value)
    case Some(key) => [Fragment(field, value, key)]
    case None => []
  }

  // ---------------------------------------------------------------- without a cache

  function Collect(nodes: Nodes, n: NodeId, visited: set<NodeId>): Collected
    decreases |Unopened(nodes, visited)|, 2, 0
  {
    if n in visited then Collected([], true)
    else if n !in nodes then Collected([], false)
    else
      OpeningShrinks(nodes, visited, n);
      CollectFields(nodes, nodes[n].fields, Sorted(nodes[n].fields.Keys), visited + {n})
  }

  function CollectField(nodes: Nodes, field: string, value: FieldValue, visited: set<NodeId>): Collected
    decreases |Unopened(nodes, visited)|, 3, 0
  {
    match value
    case Scalar(json) => Collected(ScalarFragments(field, json), false)
    case Link(target) =>
      var child := Collect(nodes, target, visited);
      Collected(AllUnder(field, child.fragments), child.cyclic)
    case _ => Collected([], false)
  }

  function CollectFields(nodes: Nodes, fields: map<string, FieldState>, names: seq<string>,
                         visited: set<NodeId>): Collected
    requires forall f :: f in names ==> f in fields
    decreases |Unopened(nodes, visited)|, 4, |names|
  {
    if names == [] then Collected([], false)
    else
      var front := CollectFields(nodes, fields, names[..|names| - 1], visited);
      var last := CollectField(nodes, names[|names| - 1], fields[names[|names| - 1]].value, visited);
      Collected(front.fragments + last.fragments, front.cyclic || last.cyclic)
  }

  // ---------------------------------------------------------------- links

  ghost predicate Links(nodes: Nodes, a: NodeId, b: NodeId) {
    a in nodes && exists f :: f in nodes[a].fields && nodes[a].fields[f].value == Link(b)
  }

  ghost predicate LinkPath(nodes: Nodes, p: seq<NodeId>) {
    |p| > 0 && forall i :: 0 <= i < |p| - 1 ==> Links(nodes, p[i], p[i + 1])
  }

  ghost predicate PathFromTo(nodes: Nodes, p: seq<NodeId>, a: NodeId, b: NodeId) {
    LinkPath(nodes, p) && p[0] == a && p[|p| - 1] == b
  }

  /** A path of at least one link leads from `a` to `b`. */
  ghost predicate Leads(nodes: Nodes, a: NodeId, b: NodeId) {
    exists p :: PathFromTo(nodes, p, a, b) && |p| > 1
  }

  predicate Clean(nodes: Nodes, n: NodeId, visited: set<NodeId>) {
    !Collect(nodes, n, visited).cyclic
  }

  lemma {:induction false} CleanField(nodes: Nodes, fields: map<string, FieldState>, names: seq<string>,
                                      visited: set<NodeId>, i: nat)
    requires i < |names| && forall f :: f in names ==> f in fields
    requires !CollectFields(nodes, fields, names, visited).cyclic
    ensures !CollectField(nodes, names[i], fields[names[i]].value, visited).cyclic
    decreases |names|
  {
    if i < |names| - 1 {
      CleanField(nodes, fields, names[..|names| - 1], visited, i);
    }
  }

  /** Below a clean node every linked node is clean. */
  lemma CleanLink(nodes: Nodes, n: NodeId, visited: set<NodeId>, m: NodeId)
    requires Clean(nodes, n, visited) && Links(nodes, n, m)
    ensures n !in visited && Clean(nodes, m, visited + {n})
  {
    var f :| f in nodes[n].fields && nodes[n].fields[f].value == Link(m);
    var names := Sorted(nodes[n].fields.Keys);
    assert f in names;
    var i :| 0 <= i < |names| && names[i] == f;
    CleanField(nodes, nodes[n].fields, names, visited + {n}, i);
  }

  /** From a clean node no path of links meets the active path. */
  lemma {:induction false} CleanAvoids(nodes: Nodes, p: seq<NodeId>, visited: set<NodeId>)
    requires LinkPath(nodes, p) && Clean(nodes, p[0], visited)
    ensures p[|p| - 1] !in visited
    ensures |p| > 1 ==> p[|p| - 1] != p[0]
    decreases |p|
  {
    if |p| > 1 {
      assert Links(nodes, p[0], p[0 + 1]);
      CleanLink(nodes, p[0], visited, p[1]);
      var rest := p[1..];
      assert LinkPath(nodes, rest) by {
        forall i | 0 <= i < |rest| - 1 ensures Links(nodes, rest[i], rest[i + 1]) {
          assert Links(nodes, p[i + 1], p[i + 1 + 1]);
        }
      }
      CleanAvoids(nodes, rest, visited + {p[0]});
    }
  }

  lemma PathsJoin(nodes: Nodes, p: seq<NodeId>, q: seq<NodeId>)
    requires LinkPath(nodes, p) && LinkPath(nodes, q) && p[|p| - 1] == q[0]
    ensures LinkPath(nodes, p + q[1..])
    ensures (p + q[1..])[0] == p[0] && (p + q[1..])[|p + q[1..]| - 1] == q[|q| - 1]
    ensures |p + q[1..]| == |p| + |q| - 1
  {
    var r := p + q[1..];
    forall i | 0 <= i < |r| - 1 ensures Links(nodes, r[i], r[i + 1]) {
      if i < |p| - 1 {
        assert Links(nodes, p[i], p[i + 1]);
      } else {
        assert r[i] == q[i - |p| + 1] && r[i + 1] == q[i - |p| + 1 + 1];
        assert Links(nodes, q[i - |p| + 1], q[i - |p| + 1 + 1]);
      }
    }
  }

  /** A node that reaches a clean node is not reached back from it. */
  lemma NoReturn(nodes: Nodes, n: NodeId, v: NodeId, p: seq<NodeId>)
    requires Clean(nodes, n, {}) && Leads(nodes, v, n)
    ensures !PathFromTo(nodes, p, n, v)
  {
    if PathFromTo(nodes, p, n, v) {
      var q :| PathFromTo(nodes, q, v, n) && |q| > 1;
      PathsJoin(nodes, p, q);
      CleanAvoids(nodes, p + q[1..], {});
    }
  }

  // ---------------------------------------------------------------- the active path does not matter

  /** No node of `more` can be reached from `n` by links. */
  ghost predicate Apart(nodes: Nodes, n: NodeId, more: set<NodeId>) {
    forall p, v :: v in more ==> !PathFromTo(nodes, p, n, v)
  }

  lemma ApartLink(nodes: Nodes, n: NodeId, more: set<NodeId>, m: NodeId)
    requires Apart(nodes, n, more) && Links(nodes, n, m)
    ensures Apart(nodes, m, more)
  {
    forall p, v | v in more ensures !PathFromTo(nodes, p, m, v) {
      if PathFromTo(nodes, p, m, v) {
        assert LinkPath(nodes, [n, m]);
        PathsJoin(nodes, [n, m], p);
        assert PathFromTo(nodes, [n, m] + p[1..], n, v);
      }
    }
  }

  lemma {:induction false} CollectApart(nodes: Nodes, n: NodeId, visited: set<NodeId>, more: set<NodeId>)
    requires Clean(nodes, n, visited) && Apart(nodes, n, more)
    ensures Collect(nodes, n, visited + more) == Collect(nodes, n, visited)
    decreases |Unopened(nodes, visited)|, 2, 0
  {
    assert n !in more by {
      assert PathFromTo(nodes, [n], n, n);
    }
    if n in nodes {
      OpeningShrinks(nodes, visited, n);
      assert visited + more + {n} == visited + {n} + more;
      FieldsApart(nodes, n, Sorted(nodes[n].fields.Keys), visited + {n}, more);
    }
  }

  lemma {:induction false} FieldsApart(nodes: Nodes, n: NodeId, names: seq<string>, visited: set<NodeId>,
                                       more: set<NodeId>)
    requires n in nodes && Apart(nodes, n, more)
    requires forall f :: f in names ==> f in nodes[n].fields
    requires !CollectFields(nodes, nodes[n].fields, names, visited).cyclic
    ensures CollectFields(nodes, nodes[n].fields, names, visited + more) ==
            CollectFields(nodes, nodes[n].fields, names, visited)
    decreases |Unopened(nodes, visited)|, 4, |names|
  {
    if names != [] {
      var front, last := names[..|names| - 1], names[|names| - 1];
      FieldsApart(nodes, n, front, visited, more);
      var value := nodes[n].fields[last].value;
      if value.Link? {
        assert Links(nodes, n, value.target);
        ApartLink(nodes, n, more, value.target);
        CollectApart(nodes, value.target, visited, more);
      }
    }
  }

  /** What a clean collection found does not depend on the path that led to it. */
  lemma {:induction false} CollectForgets(nodes: Nodes, n: NodeId, visited: set<NodeId>, fewer: set<NodeId>)
    requires Clean(nodes, n, visited) && fewer <= visited
    ensures Collect(nodes, n, fewer) == Collect(nodes, n, visited)
    decreases |Unopened(nodes, visited)|, 2, 0
  {
    if n in nodes {
      OpeningShrinks(nodes, visited, n);
      FieldsForget(nodes, nodes[n].fields, Sorted(nodes[n].fields.Keys), visited + {n}, fewer + {n});
    }
  }

  lemma {:induction false} FieldsForget(nodes: Nodes, fields: map<string, FieldState>, names: seq<string>,
                                        visited: set<NodeId>, fewer: set<NodeId>)
    requires fewer <= visited && forall f :: f in names ==> f in fields
    requires !CollectFields(nodes, fields, names, visited).cyclic
    ensures CollectFields(nodes, fields, names, fewer) == CollectFields(nodes, fields, names, visited)
    decreases |Unopened(nodes, visited)|, 4, |names|
  {
    if names != [] {
      var front, last := names[..|names| - 1], names[|names| - 1];
      FieldsForget(nodes, fields, front, visited, fewer);
      var value := fields[last].value;
      if value.Link? {
        CollectForgets(nodes, value.target, visited, fewer);
      }
    }
  }

  // ---------------------------------------------------------------- with a cache

  type Cache = map<NodeId, seq<Fragment>>

  /** Only clean nodes are remembered, with the fragments they have from anywhere. */
  ghost predicate CacheRight(nodes: Nodes, cache: Cache) {
    forall n :: n in cache ==> Clean(nodes, n, {}) && cache[n] == Collect(nodes, n, {}).fragments
  }

  /** Every node on the active path leads by links to the node now collected. */
  ghost predicate ActivePath(nodes: Nodes, visited: set<NodeId>, n: NodeId) {
    forall v :: v in visited ==> Leads(nodes, v, n)
  }

  lemma CacheHit(nodes: Nodes, n: NodeId, visited: set<NodeId>)
    requires Clean(nodes, n, {}) && ActivePath(nodes, visited, n)
    ensures Collect(nodes, n, visited) == Collect(nodes, n, {})
  {
    assert Apart(nodes, n, visited) by {
      forall p, v | v in visited ensures !PathFromTo(nodes, p, n, v) {
        NoReturn(nodes, n, v, p);
      }
    }
    CollectApart(nodes, n, {}, visited);
    assert {} + visited == visited;
  }

  lemma PathDeepens(nodes: Nodes, visited: set<NodeId>, n: NodeId, m: NodeId)
    requires ActivePath(nodes, visited, n) && Links(nodes, n, m)
    ensures ActivePath(nodes, visited + {n}, m)
  {
    assert LinkPath(nodes, [n, m]) && PathFromTo(nodes, [n, m], n, m);
    forall v | v in visited + {n} ensures Leads(nodes, v, m) {
      if v != n {
        var p :| PathFromTo(nodes, p, v, n) && |p| > 1;
        PathsJoin(nodes, p, [n, m]);
        assert PathFromTo(nodes, p + [n, m][1..], v, m);
      }
    }
  }

  /** Every node linked from `n` continues the active path. */
  ghost predicate OpenPath(nodes: Nodes, visited: set<NodeId>, n: NodeId) {
    forall m :: Links(nodes, n, m) ==> ActivePath(nodes, visited, m)
  }

  lemma PathOpens(nodes: Nodes, visited: set<NodeId>, n: NodeId)
    requires ActivePath(nodes, visited, n)
    ensures OpenPath(nodes, visited + {n}, n)
  {
    forall m | Links(nodes, n, m) ensures ActivePath(nodes, visited + {n}, m) {
      PathDeepens(nodes, visited, n, m);
    }
  }

  /** Remembering a clean collection keeps the cache right. */
  lemma CacheMore(nodes: Nodes, cache: Cache, n: NodeId, visited: set<NodeId>)
    requires CacheRight(nodes, cache) && Clean(nodes, n, visited)
    ensures CacheRight(nodes, cache[n := Collect(nodes, n, visited).fragments])
  {
    CollectForgets(nodes, n, visited, {});
  }

  /**
    The memoised collector returns what the plain recursion returns, on every graph, and keeps the
    cache right for every root that follows.
   */
  method CollectCached(nodes: Nodes, n: NodeId, visited: set<NodeId>, cache: Cache)
    returns (fragments: seq<Fragment>, cyclic: bool, cache': Cache)
    requires CacheRight(nodes, cache) && ActivePath(nodes, visited, n)
    ensures CacheRight(nodes, cache')
    ensures Collected(fragments, cyclic) == Collect(nodes, n, visited)
    decreases |Unopened(nodes, visited)|, 1
  {
    if n in cache {
      CacheHit(nodes, n, visited);
      return cache[n], false, cache;
    }
    if n in visited {
      return [], true, cache;
    }
    fragments, cyclic, cache' := [], false, cache;
    if n in nodes {
      OpeningShrinks(nodes, visited, n);
      PathOpens(nodes, visited, n);
      fragments, cyclic, cache' := CollectFieldsCached(nodes, n, visited + {n}, cache');
    }
    if !cyclic {
      CacheMore(nodes, cache', n, visited);
      cache' := cache'[n := fragments];
    }
  }

  lemma CollectFieldsNext(nodes: Nodes, fields: map<string, FieldState>, names: seq<string>, i: nat,
                          visited: set<NodeId>)
    requires i < |names| && forall f :: f in names ==> f in fields
    ensures var front := CollectFields(nodes, fields, names[..i], visited);
            var last := CollectField(nodes, names[i], fields[names[i]].value, visited);
            CollectFields(nodes, fields, names[..i + 1], visited) ==
            Collected(front.fragments + last.fragments, front.cyclic || last.cyclic)
  {
    assert names[..i + 1][..i] == names[..i];
  }

  method CollectFieldsCached(nodes: Nodes, n: NodeId, visited: set<NodeId>, cache: Cache)
    returns (fragments: seq<Fragment>, cyclic: bool, cache': Cache)
    requires n in nodes && CacheRight(nodes, cache) && OpenPath(nodes, visited, n)
    ensures CacheRight(nodes, cache')
    ensures Collected(fragments, cyclic) == CollectFields(nodes, nodes[n].fields, Sorted(nodes[n].fields.Keys), visited)
    decreases |Unopened(nodes, visited)|, 3
  {
    fragments, cyclic, cache' := [], false, cache;
    var fields := nodes[n].fields;
    var names := Sorted(fields.Keys);
    for i := 0 to |names|
      invariant CacheRight(nodes, cache')
      invariant Collected(fragments, cyclic) == CollectFields(nodes, fields, names[..i], visited)
    {
      CollectFieldsNext(nodes, fields, names, i, visited);
      var more, moreCyclic;
      more, moreCyclic, cache' := CollectFieldCached(nodes, n, names[i], visited, cache');
      fragments, cyclic := fragments + more, cyclic || moreCyclic;
    }
    assert names[..|names|] == names;
  }

  method CollectFieldCached(nodes: Nodes, n: NodeId, field: string, visited: set<NodeId>, cache: Cache)
    returns (fragments: seq<Fragment>, cyclic: bool, cache': Cache)
    requires n in nodes && field in nodes[n].fields && CacheRight(nodes, cache) && OpenPath(nodes, visited, n)
    ensures CacheRight(nodes, cache')
    ensures Collected(fragments, cyclic) == CollectField(nodes, field, nodes[n].fields[field].value, visited)
    decreases |Unopened(nodes, visited)|, 2
  {
    fragments, cyclic, cache' := [], false, cache;
    match nodes[n].fields[field].value {
      case Scalar(json) =>
        fragments := ScalarFragments(field, json);
      case Link(target) =>
        assert Links(nodes, n, target);
        var child;
        child, cyclic, cache' := CollectCached(nodes, target, visited, cache);
        fragments := AllUnder(field, child);
      case _ =>
    }
  }

  // ---------------------------------------------------------------- the index of a transaction

  /** The index entries of one node; of two fragments with one key the later stands. */
  function EntriesOfNode(n: NodeId, fs: seq<Fragment>): map<IndexKey, IndexEntry>
    decreases |fs|
  {
    if fs == [] then map[]
    else
      var f := fs[|fs| - 1];
      EntriesOfNode(n, fs[..|fs| - 1])[IndexKey(f.path, f.sortable, n) := IndexEntry(n, f.path, f.value, f.sortable)]
  }

  predicate Sortable(fs: seq<Fragment>) {
    forall i :: 0 <= i < |fs| ==> SortKey(fs[i].value) == Some(fs[i].sortable)
  }

  lemma {:induction false} CollectSortable(nodes: Nodes, n: NodeId, visited: set<NodeId>)
    ensures Sortable(Collect(nodes, n, visited).fragments)
    decreases |Unopened(nodes, visited)|, 2, 0
  {
    if n !in visited && n in nodes {
      OpeningShrinks(nodes, visited, n);
      FieldsSortable(nodes, nodes[n].fields, Sorted(nodes[n].fields.Keys), visited + {n});
    }
  }

  lemma {:induction false} FieldsSortable(nodes: Nodes, fields: map<string, FieldState>, names: seq<string>,
                                          visited: set<NodeId>)
    requires forall f :: f in names ==> f in fields
    ensures Sortable(CollectFields(nodes, fields, names, visited).fragments)
    decreases |Unopened(nodes, visited)|, 4, |names|
  {
    if names != [] {
      FieldsSortable(nodes, fields, names[..|names| - 1], visited);
      var value := fields[names[|names| - 1]].value;
      if value.Link? {
        CollectSortable(nodes, value.target, visited);
      }
    }
  }

  /** Index entries belong to their node and carry the sort key of their value. */
  lemma {:induction false} EntriesAreOwned(n: NodeId, fs: seq<Fragment>)
    requires Sortable(fs)
    ensures forall k :: k in EntriesOfNode(n, fs) ==>
              var e := EntriesOfNode(n, fs)[k];
              k.node == n == e.node && k.path == e.path && k.sortable == e.sortable &&
                SortKey(e.value) == Some(e.sortable)
    decreases |fs|
  {
    if fs != [] {
      EntriesAreOwned(n, fs[..|fs| - 1]);
    }
  }

  // ---------------------------------------------------------------- what an index holds

  /**
    A chain of link fields from `n` that ends in a scalar field: through present nodes that are all
    different and not among the visited ones.
   */
  ghost predicate IsRoute(nodes: Nodes, n: NodeId, visited: set<NodeId>, ns: seq<NodeId>, names: seq<string>) {
    && |ns| == |names| > 0 && ns[0] == n
    && (forall i :: 0 <= i < |ns| ==> ns[i] in nodes && ns[i] !in visited && names[i] in nodes[ns[i]].fields)
    && (forall i, j :: 0 <= i < j < |ns| ==> ns[i] != ns[j])
    && (forall i :: 0 <= i < |ns| - 1 ==> nodes[ns[i]].fields[names[i]].value == Link(ns[i + 1]))
    && nodes[ns[|ns| - 1]].fields[names[|ns| - 1]].value.Scalar?
  }

  /** The scalar at the end of a route. */
  ghost function EndOf(nodes: Nodes, n: NodeId, visited: set<NodeId>, ns: seq<NodeId>, names: seq<string>): Json
    requires IsRoute(nodes, n, visited, ns, names)
  {
    nodes[ns[|ns| - 1]].fields[names[|ns| - 1]].value.json
  }

  /** Without empty names at the end. */
  function Trimmed(names: seq<string>): seq<string>
    decreases |names|
  {
    if names != [] && names[|names| - 1] == "" then Trimmed(names[..|names| - 1]) else names
  }

  /** The dotted path of a route. Empty names at its end leave no trace. */
  function Dotted(names: seq<string>): string {
    Join(Trimmed(names), '.')
  }

  lemma {:induction false} TrimmedFirst(name: string, rest: seq<string>)
    ensures Trimmed([name] + rest) == if Trimmed(rest) == [] then Trimmed([name]) else [name] + Trimmed(rest)
    decreases |rest|
  {
    var all := [name] + rest;
    if rest != [] && rest[|rest| - 1] == "" {
      assert all[..|all| - 1] == [name] + rest[..|rest| - 1];
      TrimmedFirst(name, rest[..|rest| - 1]);
    } else if rest == [] {
      assert all == [name];
    }
  }

  lemma {:induction false} TrimmedEnd(names: seq<string>)
    ensures Trimmed(names) != [] ==> Trimmed(names)[|Trimmed(names)| - 1] != ""
    decreases |names|
  {
    if names != [] && names[|names| - 1] == "" {
      TrimmedEnd(names[..|names| - 1]);
    }
  }

  lemma {:induction false} JoinIsEmpty(names: seq<string>)
    requires names != [] ==> names[|names| - 1] != ""
    ensures Join(names, '.') == "" <==> names == []
  {
  }

  /** A name before a path: alone if the path is empty, else with a dot between. */
  lemma DottedFirst(name: string, rest: seq<string>)
    ensures Dotted([name] + rest) == if Dotted(rest) == "" then name else name + "." + Dotted(rest)
  {
    TrimmedFirst(name, rest);
    TrimmedEnd(rest);
    JoinIsEmpty(Trimmed(rest));
    if Trimmed(rest) != [] {
      assert ([name] + Trimmed(rest))[1..] == Trimmed(rest);
    } else {
      assert Join(Trimmed([name]), '.') == name;
    }
  }

  /** A fragment is found along a route: its dotted path, the scalar at its end and that one's sort key. */
  ghost predicate Along(nodes: Nodes, n: NodeId, visited: set<NodeId>, f: Fragment, ns: seq<NodeId>,
                        names: seq<string>)
  {
    && IsRoute(nodes, n, visited, ns, names)
    && f.path == Dotted(names) && f.value == EndOf(nodes, n, visited, ns, names) && SortKey(f.value) == Some(f.sortable)
  }

  ghost predicate OnRoute(nodes: Nodes, n: NodeId, visited: set<NodeId>, f: Fragment) {
    exists ns, names :: Along(nodes, n, visited, f, ns, names)
  }

  lemma {:induction false} FieldsHold(nodes: Nodes, fields: map<string, FieldState>, names: seq<string>,
                                      visited: set<NodeId>, f: Fragment)
    requires forall g :: g in names ==> g in fields
    ensures f in CollectFields(nodes, fields, names, visited).fragments <==>
            exists g :: g in names && f in CollectField(nodes, g, fields[g].value, visited).fragments
    decreases |names|
  {
    if names != [] {
      var front, last := names[..|names| - 1], names[|names| - 1];
      FieldsHold(nodes, fields, front, visited, f);
      assert names == front + [last];
    }
  }

  /** A route of one field. */
  lemma ShortRoute(nodes: Nodes, n: NodeId, visited: set<NodeId>, g: string, f: Fragment)
    requires n in nodes && n !in visited && g in nodes[n].fields && nodes[n].fields[g].value.Scalar?
    requires f in CollectField(nodes, g, nodes[n].fields[g].value, visited + {n}).fragments
    ensures OnRoute(nodes, n, visited, f)
  {
    assert Dotted([g]) == g by {
      DottedFirst(g, []);
      assert [g] + [] == [g];
    }
    assert Along(nodes, n, visited, f, [n], [g]);
  }

  /** A route through one link more. */
  lemma LongerRoute(nodes: Nodes, n: NodeId, visited: set<NodeId>, g: string, m: NodeId, f: Fragment)
    requires n in nodes && n !in visited && g in nodes[n].fields && nodes[n].fields[g].value == Link(m)
    requires OnRoute(nodes, m, visited + {n}, f)
    ensures OnRoute(nodes, n, visited, Under(g, f))
  {
    var ns, names :| Along(nodes, m, visited + {n}, f, ns, names);
    DottedFirst(g, names);
    assert IsRoute(nodes, n, visited, [n] + ns, [g] + names);
    assert Along(nodes, n, visited, Under(g, f), [n] + ns, [g] + names);
  }

  /** The rest of a route behind its first link. */
  lemma ShorterRoute(nodes: Nodes, n: NodeId, visited: set<NodeId>, f: Fragment, ns: seq<NodeId>, names: seq<string>)
    requires Along(nodes, n, visited, f, ns, names) && |ns| > 1
    ensures var g := f.(path := Dotted(names[1..]));
            && Along(nodes, ns[1], visited + {n}, g, ns[1..], names[1..]) && f == Under(names[0], g)
            && nodes[n].fields[names[0]].value == Link(ns[1])
  {
    assert names == [names[0]] + names[1..];
    DottedFirst(names[0], names[1..]);
    var rest := ns[1..];
    assert nodes[ns[0]].fields[names[0]].value == Link(ns[0 + 1]);
    forall i | 0 <= i < |rest| - 1 ensures nodes[rest[i]].fields[names[1..][i]].value == Link(rest[i + 1]) {
      assert nodes[ns[i + 1]].fields[names[i + 1]].value == Link(ns[i + 1 + 1]);
    }
    assert IsRoute(nodes, ns[1], visited + {n}, rest, names[1..]);
  }

  /** The field that gave a collected fragment. */
  lemma CollectedFrom(nodes: Nodes, n: NodeId, visited: set<NodeId>, f: Fragment) returns (g: string)
    requires f in Collect(nodes, n, visited).fragments
    ensures n in nodes && n !in visited && g in nodes[n].fields
    ensures f in CollectField(nodes, g, nodes[n].fields[g].value, visited + {n}).fragments
  {
    var fields := nodes[n].fields;
    FieldsHold(nodes, fields, Sorted(fields.Keys), visited + {n}, f);
    g :| g in Sorted(fields.Keys) && f in CollectField(nodes, g, fields[g].value, visited + {n}).fragments;
  }

  lemma CollectedUnder(nodes: Nodes, g: string, m: NodeId, visited: set<NodeId>, f: Fragment) returns (c: Fragment)
    requires f in CollectField(nodes, g, Link(m), visited).fragments
    ensures c in Collect(nodes, m, visited).fragments && f == Under(g, c)
  {
    var child := Collect(nodes, m, visited).fragments;
    var i :| 0 <= i < |child| && f == AllUnder(g, child)[i];
    c := child[i];
  }

  /** The collector finds only what lies on routes. */
  lemma {:induction false} CollectFindsRoutes(nodes: Nodes, n: NodeId, visited: set<NodeId>, f: Fragment)
    requires f in Collect(nodes, n, visited).fragments
    ensures OnRoute(nodes, n, visited, f)
    decreases |Unopened(nodes, visited)|
  {
    var g := CollectedFrom(nodes, n, visited, f);
    OpeningShrinks(nodes, visited, n);
    match nodes[n].fields[g].value
    case Scalar(json) => ShortRoute(nodes, n, visited, g, f);
    case Link(m) =>
      var c := CollectedUnder(nodes, g, m, visited + {n}, f);
      CollectFindsRoutes(nodes, m, visited + {n}, c);
      LongerRoute(nodes, n, visited, g, m, c);
  }

  lemma FieldIsCollected(nodes: Nodes, n: NodeId, visited: set<NodeId>, g: string, f: Fragment)
    requires n in nodes && n !in visited && g in nodes[n].fields
    requires f in CollectField(nodes, g, nodes[n].fields[g].value, visited + {n}).fragments
    ensures f in Collect(nodes, n, visited).fragments
  {
    FieldsHold(nodes, nodes[n].fields, Sorted(nodes[n].fields.Keys), visited + {n}, f);
    assert g in Sorted(nodes[n].fields.Keys);
  }

  lemma UnderIsCollected(nodes: Nodes, g: string, m: NodeId, visited: set<NodeId>, f: Fragment)
    requires f in Collect(nodes, m, visited).fragments
    ensures Under(g, f) in CollectField(nodes, g, Link(m), visited).fragments
  {
    var child := Collect(nodes, m, visited).fragments;
    var i :| 0 <= i < |child| && child[i] == f;
    assert AllUnder(g, child)[i] == Under(g, f);
  }

  lemma ShortIsCollected(nodes: Nodes, n: NodeId, visited: set<NodeId>, f: Fragment, ns: seq<NodeId>,
                         names: seq<string>)
    requires Along(nodes, n, visited, f, ns, names) && |ns| == 1
    ensures f in CollectField(nodes, names[0], nodes[n].fields[names[0]].value, visited + {n}).fragments
  {
    var g := names[0];
    DottedFirst(g, []);
    assert [g] + [] == names;
    assert f in ScalarFragments(g, nodes[n].fields[g].value.json);
  }

  lemma {:induction false} RoutesAreCollected(nodes: Nodes, n: NodeId, visited: set<NodeId>, f: Fragment,
                                              ns: seq<NodeId>, names: seq<string>)
    requires Along(nodes, n, visited, f, ns, names)
    ensures f in Collect(nodes, n, visited).fragments
    decreases |ns|
  {
    if |ns| == 1 {
      ShortIsCollected(nodes, n, visited, f, ns, names);
    } else {
      ShorterRoute(nodes, n, visited, f, ns, names);
      var rest := f.(path := Dotted(names[1..]));
      RoutesAreCollected(nodes, ns[1], visited + {n}, rest, ns[1..], names[1..]);
      UnderIsCollected(nodes, names[0], ns[1], visited + {n}, rest);
    }
    FieldIsCollected(nodes, n, visited, names[0], f);
  }

  lemma CollectIsTheRoutes(nodes: Nodes, n: NodeId, visited: set<NodeId>, f: Fragment)
    ensures f in Collect(nodes, n, visited).fragments <==> OnRoute(nodes, n, visited, f)
  {
    if f in Collect(nodes, n, visited).fragments {
      CollectFindsRoutes(nodes, n, visited, f);
    }
    if OnRoute(nodes, n, visited, f) {
      var ns, names :| Along(nodes, n, visited, f, ns, names);
      RoutesAreCollected(nodes, n, visited, f, ns, names);
    }
  }

  function NodeIndex(nodes: Nodes, n: NodeId): map<IndexKey, IndexEntry> {
    EntriesOfNode(n, Collect(nodes, n, {}).fragments)
  }

  function KeyFor(n: NodeId, f: Fragment): IndexKey {
    IndexKey(f.path, f.sortable, n)
  }

  function EntryFor(n: NodeId, f: Fragment): IndexEntry {
    IndexEntry(n, f.path, f.value, f.sortable)
  }

  ghost predicate StandsFor(n: NodeId, fs: seq<Fragment>, k: IndexKey, e: IndexEntry) {
    exists f :: f in fs && k == KeyFor(n, f) && e == EntryFor(n, f)
  }

  lemma {:induction false} FragmentHasEntry(n: NodeId, fs: seq<Fragment>, f: Fragment)
    requires f in fs
    ensures KeyFor(n, f) in EntriesOfNode(n, fs)
    decreases |fs|
  {
    var front, last := fs[..|fs| - 1], fs[|fs| - 1];
    assert fs == front + [last];
    if f != last {
      FragmentHasEntry(n, front, f);
    }
  }

  lemma {:induction false} EntryIsFragment(n: NodeId, fs: seq<Fragment>, k: IndexKey)
    requires k in EntriesOfNode(n, fs)
    ensures StandsFor(n, fs, k, EntriesOfNode(n, fs)[k])
    decreases |fs|
  {
    var front, last := fs[..|fs| - 1], fs[|fs| - 1];
    assert fs == front + [last];
    if k == KeyFor(n, last) {
      assert EntriesOfNode(n, fs)[k] == EntryFor(n, last);
    } else {
      EntryIsFragment(n, front, k);
      var f :| f in front && k == KeyFor(n, f) && EntriesOfNode(n, front)[k] == EntryFor(n, f);
      assert f in fs;
    }
  }

  /**
    What the index of a node holds: an entry for the dotted path of every route from it to a sortable
    scalar, with that scalar and its sort key, and no other.
   */
  ghost predicate IndexOf(nodes: Nodes, n: NodeId, entries: map<IndexKey, IndexEntry>) {
    && (forall f :: OnRoute(nodes, n, {}, f) ==> IndexKey(f.path, f.sortable, n) in entries)
    && (forall k :: k in entries ==>
                      && k.node == n && entries[k].node == n
                      && entries[k].path == k.path && entries[k].sortable == k.sortable
                      && OnRoute(nodes, n, {}, Fragment(k.path, entries[k].value, k.sortable)))
  }

  lemma NodeIndexIsTheRoutes(nodes: Nodes, n: NodeId)
    ensures IndexOf(nodes, n, NodeIndex(nodes, n))
  {
    var fs := Collect(nodes, n, {}).fragments;
    forall f | OnRoute(nodes, n, {}, f) ensures IndexKey(f.path, f.sortable, n) in NodeIndex(nodes, n) {
      CollectIsTheRoutes(nodes, n, {}, f);
      FragmentHasEntry(n, fs, f);
    }
    forall k | k in NodeIndex(nodes, n)
      ensures var e := NodeIndex(nodes, n)[k];
              && k.node == n && e.node == n && e.path == k.path && e.sortable == k.sortable
              && OnRoute(nodes, n, {}, Fragment(k.path, e.value, k.sortable))
    {
      EntryIsFragment(n, fs, k);
      var f :| f in fs && k == KeyFor(n, f) && NodeIndex(nodes, n)[k] == EntryFor(n, f);
      CollectIsTheRoutes(nodes, n, {}, f);
      assert f == Fragment(k.path, NodeIndex(nodes, n)[k].value, k.sortable);
    }
  }

  /** The index entries a transaction stores for a node belong to it and sort as their values do. */
  lemma NodeIndexIsOwned(nodes: Nodes, n: NodeId)
    ensures forall k :: k in NodeIndex(nodes, n) ==>
              var e := NodeIndex(nodes, n)[k];
              k.node == n == e.node && k.path == e.path && k.sortable == e.sortable &&
                SortKey(e.value) == Some(e.sortable)
  {
    CollectSortable(nodes, n, {});
    EntriesAreOwned(n, Collect(nodes, n, {}).fragments);
  }

  /** The entries of some fragments, made one by one. */
  method MakeEntries(root: NodeId, fragments: seq<Fragment>) returns (entries: map<IndexKey, IndexEntry>)
    ensures entries == EntriesOfNode(root, fragments)
  {
    entries := map[];
    for i := 0 to |fragments|
      invariant entries == EntriesOfNode(root, fragments[..i])
    {
      assert fragments[..i + 1][..i] == fragments[..i];
      var f := fragments[i];
      entries := entries[IndexKey(f.path, f.sortable, root) := IndexEntry(root, f.path, f.value, f.sortable)];
    }
    assert fragments[..|fragments|] == fragments;
  }

  method IndexRoot(nodes: Nodes, root: NodeId, cache: Cache) returns (entries: map<IndexKey, IndexEntry>, cache': Cache)
    requires CacheRight(nodes, cache)
    ensures CacheRight(nodes, cache') && entries == NodeIndex(nodes, root) && IndexOf(nodes, root, entries)
  {
    var fragments, _, next := CollectCached(nodes, root, {}, cache);
    cache' := next;
    entries := MakeEntries(root, fragments);
    NodeIndexIsTheRoutes(nodes, root);
  }

  /** Every node that is not left has its index. */
  ghost predicate IndexesBut(nodes: Nodes, left: set<NodeId>, indexes: map<NodeId, map<IndexKey, IndexEntry>>) {
    && (forall n :: n in indexes <==> n in nodes && n !in left)
    && (forall n :: n in indexes ==> indexes[n] == NodeIndex(nodes, n))
  }

  lemma IndexesMore(nodes: Nodes, left: set<NodeId>, indexes: map<NodeId, map<IndexKey, IndexEntry>>, root: NodeId)
    requires IndexesBut(nodes, left, indexes) && root in nodes
    ensures IndexesBut(nodes, left - {root}, indexes[root := NodeIndex(nodes, root)])
  {
    var after := indexes[root := NodeIndex(nodes, root)];
    forall n ensures n in after <==> n in nodes && n !in left - {root} {
      assert n in after <==> n == root || n in indexes;
    }
    forall n | n in after ensures after[n] == NodeIndex(nodes, n) {
      assert n != root ==> after[n] == indexes[n];
    }
  }

  /** All roots, one cache: the index of every node is the one collected without it, and holds its routes. */
  method BuildIndexes(nodes: Nodes) returns (indexes: map<NodeId, map<IndexKey, IndexEntry>>)
    ensures IndexesBut(nodes, {}, indexes)
    ensures forall n :: n in indexes ==> IndexOf(nodes, n, indexes[n])
  {
    indexes := map[];
    var cache: Cache := map[];
    var left := nodes.Keys;
    while left != {}
      invariant CacheRight(nodes, cache) && IndexesBut(nodes, left, indexes)
      invariant left <= nodes.Keys
      decreases |left|
    {
      var root :| root in left;
      var entries;
      entries, cache := IndexRoot(nodes, root, cache);
      IndexesMore(nodes, left, indexes, root);
      left, indexes := left - {root}, indexes[root := entries];
    }
    forall n | n in indexes ensures IndexOf(nodes, n, indexes[n]) {
      NodeIndexIsTheRoutes(nodes, n);
    }
  }
}
