/**
  Reading the graph as JSON: materialization, which cuts cycles with references, and the node
  closure that a root snapshot keeps.
 */
module Materialize {
  import opened Json
  import opened Order
  import opened Graph

  function Reference(n: NodeId): Json {
    Object(map["$ref" := Str(n)])
  }

  /** Nodes that may still be opened on the current path. */
  function Unopened(nodes: Nodes, visited: set<NodeId>): set<NodeId> {
    nodes.Keys - visited
  }

  lemma OpeningShrinks(nodes: Nodes, visited: set<NodeId>, n: NodeId)
    requires n in nodes && n !in visited
    ensures |Unopened(nodes, visited + {n})| < |Unopened(nodes, visited)|
  {
    assert Unopened(nodes, visited) == Unopened(nodes, visited + {n}) + {n};
  }

  /** A node as JSON; nodes on the path to it, and unknown nodes, become references. */
  function MaterializeNode(nodes: Nodes, n: NodeId, visited: set<NodeId>): Json
    decreases |Unopened(nodes, visited)|, 1
  {
    if n in visited || n !in nodes then Reference(n)
    else
      OpeningShrinks(nodes, visited, n);
      Object(map["$id" := Str(nodes[n].id)] + MaterializeFields(nodes, nodes[n].fields, visited + {n}))
  }

  function MaterializeFields(nodes: Nodes, fields: map<string, FieldState>, visited: set<NodeId>): map<string, Json>
    decreases |Unopened(nodes, visited)|, 4
  {
    map f | f in fields :: MaterializeValue(nodes, fields[f].value, visited)
  }

  function MaterializeValue(nodes: Nodes, value: FieldValue, visited: set<NodeId>): Json
    decreases |Unopened(nodes, visited)|, 3
  {
    match value
    case Scalar(json) => json
    case Bytes(base64) => Object(map["$bytes" := Str(base64)])
    case Blob(reference) => Object(map["$blob" := reference])
    case Link(target) => MaterializeNode(nodes, target, visited)
    case Set(state) =>
      Object(map["$set" := Array(MaterializeAll(nodes, Sorted(state.members.Keys), visited))])
  }

  function MaterializeAll(nodes: Nodes, ns: seq<NodeId>, visited: set<NodeId>): (r: seq<Json>)
    ensures |r| == |ns|
    decreases |Unopened(nodes, visited)|, 2, |ns|
  {
    if ns == [] then [] else [MaterializeNode(nodes, ns[0], visited)] + MaterializeAll(nodes, ns[1..], visited)
  }

  // ---------------------------------------------------------------- what the JSON shows

  /** The elements of a set of strings in their order. */
  ghost predicate InKeyOrder(keys: seq<NodeId>, s: set<NodeId>) {
    && (forall x :: x in keys <==> x in s)
    && (forall i, j :: 0 <= i < j < |keys| ==> Less(keys[i], keys[j]))
  }

  lemma {:induction false} InKeyOrderUnique(a: seq<NodeId>, b: seq<NodeId>, s: set<NodeId>)
    requires InKeyOrder(a, s) && InKeyOrder(b, s)
    ensures a == b
    decreases |a|
  {
    NoKeys(a, s);
    NoKeys(b, s);
    if s != {} {
      FirstIsSame(a, b, s);
      var rest := s - {a[0]};
      WithoutFirst(a, s);
      WithoutFirst(b, s);
      InKeyOrderUnique(a[1..], b[1..], rest);
      assert a == [a[0]] + a[1..] && b == [b[0]] + b[1..];
    }
  }

  lemma NoKeys(a: seq<NodeId>, s: set<NodeId>)
    requires InKeyOrder(a, s)
    ensures a == [] <==> s == {}
  {
    if a != [] {
      assert a[0] in s;
    }
  }

  lemma FirstIsSame(a: seq<NodeId>, b: seq<NodeId>, s: set<NodeId>)
    requires InKeyOrder(a, s) && InKeyOrder(b, s) && a != [] && b != []
    ensures a[0] == b[0]
  {
    assert a[0] in b && b[0] in a;
    var i :| 0 <= i < |b| && b[i] == a[0];
    var j :| 0 <= j < |a| && a[j] == b[0];
    if i > 0 && j > 0 {
      OneWay(b[0], b[i]);
    }
  }

  lemma WithoutFirst(a: seq<NodeId>, s: set<NodeId>)
    requires InKeyOrder(a, s) && a != []
    ensures InKeyOrder(a[1..], s - {a[0]})
  {
    forall x ensures x in a[1..] <==> x in s - {a[0]} {
      if x in a[1..] {
        var i :| 0 <= i < |a[1..]| && a[1..][i] == x;
        assert a[i + 1] == x && Less(a[0], a[i + 1]);
        Irreflexive(x);
      }
      if x in s - {a[0]} {
        var i :| 0 <= i < |a| && a[i] == x;
        assert a[1..][i - 1] == x;
      }
    }
  }

  /**
    What the JSON of a node shows. A node on the path to it, or an unknown one, is a reference. Any
    other is an object with its id, unless a field hides it, and its fields.
   */
  ghost predicate Depicts(nodes: Nodes, n: NodeId, visited: set<NodeId>, json: Json)
    decreases |Unopened(nodes, visited)|, 1
  {
    if n in visited || n !in nodes then json == Object(map["$ref" := Str(n)])
    else
      OpeningShrinks(nodes, visited, n);
      && json.Object? && json.members.Keys == nodes[n].fields.Keys + {"$id"}
      && ("$id" in nodes[n].fields || json.members["$id"] == Str(nodes[n].id))
      && forall f :: f in nodes[n].fields ==>
                       DepictsValue(nodes, nodes[n].fields[f].value, visited + {n}, json.members[f])
  }

  /**
    Scalars stand for themselves, bytes and blobs under their names, a link for the node it leads to,
    and a set for its live members: one item each, in key order.
   */
  ghost predicate DepictsValue(nodes: Nodes, value: FieldValue, visited: set<NodeId>, json: Json)
    decreases |Unopened(nodes, visited)|, 4
  {
    if value.Scalar? then json == value.json
    else if value.Bytes? then json == Object(map["$bytes" := Str(value.base64)])
    else if value.Blob? then json == Object(map["$blob" := value.reference])
    else if value.Link? then Depicts(nodes, value.target, visited, json)
    else
      && json.Object? && json.members.Keys == {"$set"} && json.members["$set"].Array?
      && DepictsSet(nodes, value.state.members.Keys, visited, json.members["$set"].items)
  }

  ghost predicate DepictsSet(nodes: Nodes, members: set<NodeId>, visited: set<NodeId>, items: seq<Json>)
    decreases |Unopened(nodes, visited)|, 3
  {
    exists keys :: InKeyOrder(keys, members) && DepictsEach(nodes, keys, visited, items)
  }

  ghost predicate DepictsEach(nodes: Nodes, keys: seq<NodeId>, visited: set<NodeId>, items: seq<Json>)
    decreases |Unopened(nodes, visited)|, 2
  {
    |items| == |keys| && forall i :: 0 <= i < |keys| ==> Depicts(nodes, keys[i], visited, items[i])
  }

  /** The JSON of a node is the one JSON value that shows it. */
  lemma {:induction false} NodeIsDepicted(nodes: Nodes, n: NodeId, visited: set<NodeId>, json: Json)
    ensures Depicts(nodes, n, visited, json) <==> json == MaterializeNode(nodes, n, visited)
    decreases |Unopened(nodes, visited)|, 1
  {
    if n !in visited && n in nodes {
      OpeningShrinks(nodes, visited, n);
      var state := nodes[n];
      var fields := MaterializeFields(nodes, state.fields, visited + {n});
      var members := map["$id" := Str(state.id)] + fields;
      assert MaterializeNode(nodes, n, visited) == Object(members);
      if json.Object? && json.members.Keys == state.fields.Keys + {"$id"} {
        forall f | f in state.fields
          ensures DepictsValue(nodes, state.fields[f].value, visited + {n}, json.members[f])
                  <==> json.members[f] == members[f]
        {
          ValueIsDepicted(nodes, state.fields[f].value, visited + {n}, json.members[f]);
        }
        SameMembers(json.members, members, state.fields.Keys);
      }
    }
  }

  lemma SameMembers(a: map<string, Json>, b: map<string, Json>, fields: set<string>)
    requires a.Keys == b.Keys == fields + {"$id"}
    ensures a == b <==> ("$id" in fields || a["$id"] == b["$id"]) && forall f :: f in fields ==> a[f] == b[f]
  {
    if ("$id" in fields || a["$id"] == b["$id"]) && forall f :: f in fields ==> a[f] == b[f] {
      assert forall k :: k in a ==> a[k] == b[k];
    }
  }

  lemma {:induction false} ValueIsDepicted(nodes: Nodes, value: FieldValue, visited: set<NodeId>, json: Json)
    ensures DepictsValue(nodes, value, visited, json) <==> json == MaterializeValue(nodes, value, visited)
    decreases |Unopened(nodes, visited)|, 5
  {
    match value
    case Link(target) => NodeIsDepicted(nodes, target, visited, json);
    case Set(state) => SetValueIsDepicted(nodes, state, visited, json);
    case _ =>
  }

  lemma {:induction false} SetValueIsDepicted(nodes: Nodes, state: SetState, visited: set<NodeId>, json: Json)
    ensures DepictsValue(nodes, Set(state), visited, json) <==> json == MaterializeValue(nodes, Set(state), visited)
    decreases |Unopened(nodes, visited)|, 4
  {
    var items := MaterializeAll(nodes, Sorted(state.members.Keys), visited);
    IsTagged(json, items);
    if json.Object? && json.members.Keys == {"$set"} && json.members["$set"].Array? {
      SetIsDepicted(nodes, state.members.Keys, visited, json.members["$set"].items);
    }
  }

  lemma IsTagged(json: Json, items: seq<Json>)
    ensures json == Object(map["$set" := Array(items)]) <==>
            json.Object? && json.members.Keys == {"$set"} && json.members["$set"] == Array(items)
  {
    if json.Object? && json.members.Keys == {"$set"} && json.members["$set"] == Array(items) {
      assert json.members == map["$set" := Array(items)];
    }
  }

  lemma SetIsDepicted(nodes: Nodes, members: set<NodeId>, visited: set<NodeId>, items: seq<Json>)
    ensures DepictsSet(nodes, members, visited, items) <==> items == MaterializeAll(nodes, Sorted(members), visited)
    decreases |Unopened(nodes, visited)|, 3
  {
    var keys := Sorted(members);
    assert InKeyOrder(keys, members);
    EachIsDepicted(nodes, keys, visited, items);
    if DepictsSet(nodes, members, visited, items) {
      var ks :| InKeyOrder(ks, members) && DepictsEach(nodes, ks, visited, items);
      InKeyOrderUnique(ks, keys, members);
    }
  }

  lemma EachIsDepicted(nodes: Nodes, keys: seq<NodeId>, visited: set<NodeId>, items: seq<Json>)
    ensures DepictsEach(nodes, keys, visited, items) <==> items == MaterializeAll(nodes, keys, visited)
    decreases |Unopened(nodes, visited)|, 2
  {
    var all := MaterializeAll(nodes, keys, visited);
    forall i | 0 <= i < |keys| ensures all[i] == MaterializeNode(nodes, keys[i], visited) {
      MaterializeAllAt(nodes, keys, visited, i);
    }
    if |items| == |keys| {
      forall i | 0 <= i < |keys|
        ensures Depicts(nodes, keys[i], visited, items[i]) <==> items[i] == MaterializeNode(nodes, keys[i], visited)
      {
        NodeIsDepicted(nodes, keys[i], visited, items[i]);
      }
    }
  }

  lemma {:induction false} MaterializeAllAt(nodes: Nodes, ns: seq<NodeId>, visited: set<NodeId>, i: nat)
    requires i < |ns|
    ensures MaterializeAll(nodes, ns, visited)[i] == MaterializeNode(nodes, ns[i], visited)
    decreases |ns|
  {
    if i > 0 {
      MaterializeAllAt(nodes, ns[1..], visited, i - 1);
    }
  }

  /** A reference appears exactly for a node on the path or an unknown one. */
  lemma ReferenceIsExact(nodes: Nodes, n: NodeId, visited: set<NodeId>)
    ensures MaterializeNode(nodes, n, visited) == Object(map["$ref" := Str(n)]) <==> n in visited || n !in nodes
  {
    var json := MaterializeNode(nodes, n, visited);
    NodeIsDepicted(nodes, n, visited, json);
    if n !in visited && n in nodes {
      assert "$id" in json.members;
    }
  }

  // ---------------------------------------------------------------- the closure of a root

  predicate MatchesRoot(n: NodeId, root: NodeId) {
    n == root || root + "/" <= n
  }

  lemma MatchesRootIsBelow(n: NodeId, root: NodeId)
    ensures MatchesRoot(n, root) <==> n == root || exists rest :: n == root + "/" + rest
  {
    if root + "/" <= n {
      assert n == root + "/" + n[|root| + 1..];
    }
  }

  /** The nodes a value leads to. */
  function Targets(value: FieldValue): set<NodeId> {
    match value
    case Link(target) => {target}
    case Set(state) => state.members.Keys
    case _ => {}
  }

  function NodeTargets(nodes: Nodes, n: NodeId): set<NodeId> {
    if n in nodes then set f, t | f in nodes[n].fields && t in Targets(nodes[n].fields[f].value) :: t else {}
  }

  function RootNodes(nodes: Nodes, root: NodeId): set<NodeId> {
    set n | n in nodes && MatchesRoot(n, root)
  }

  ghost predicate Closed(nodes: Nodes, s: set<NodeId>) {
    forall n :: n in s ==> NodeTargets(nodes, n) <= s
  }

  /** In every closed set that contains the root's nodes. */
  ghost predicate Needed(nodes: Nodes, root: NodeId, n: NodeId) {
    forall t {:trigger Closed(nodes, t)} :: RootNodes(nodes, root) <= t && Closed(nodes, t) ==> n in t
  }

  /** The least closed set that contains the root's nodes. */
  ghost predicate IsClosure(nodes: Nodes, root: NodeId, s: set<NodeId>) {
    && RootNodes(nodes, root) <= s
    && Closed(nodes, s)
    && forall n :: n in s ==> Needed(nodes, root, n)
  }

  lemma TargetsAreNeeded(nodes: Nodes, root: NodeId, n: NodeId)
    requires Needed(nodes, root, n)
    ensures forall t :: t in NodeTargets(nodes, n) ==> Needed(nodes, root, t)
  {
    forall t, s | t in NodeTargets(nodes, n) && RootNodes(nodes, root) <= s && Closed(nodes, s) ensures t in s {
      assert n in s;
    }
  }

  function Known(nodes: Nodes): set<NodeId> {
    nodes.Keys + set n, t | n in nodes && t in NodeTargets(nodes, n) :: t
  }

  method Enumerate(s: set<NodeId>) returns (r: seq<NodeId>)
    ensures forall n :: n in r <==> n in s
  {
    r := [];
    var left := s;
    while left != {}
      invariant left <= s && forall n :: n in r <==> n in s && n !in left
      decreases |left|
    {
      var n :| n in left;
      r, left := r + [n], left - {n};
    }
  }

  method TargetsOf(nodes: Nodes, n: NodeId) returns (r: seq<NodeId>)
    ensures forall t :: t in r <==> t in NodeTargets(nodes, n)
  {
    r := [];
    if n in nodes {
      var fields := nodes[n].fields;
      var left := fields.Keys;
      while left != {}
        invariant left <= fields.Keys
        invariant forall t :: t in r <==> exists f :: f in fields && f !in left && t in Targets(fields[f].value)
        decreases |left|
      {
        var f :| f in left;
        var more := Enumerate(Targets(fields[f].value));
        r, left := r + more, left - {f};
      }
    }
  }

  /** What the worklist keeps: roots and targets are collected or wait, and nothing else does. */
  ghost predicate Collecting(nodes: Nodes, root: NodeId, reachable: set<NodeId>, pending: seq<NodeId>) {
    && (forall n :: n in RootNodes(nodes, root) ==> n in reachable || n in pending)
    && (forall n, t :: n in reachable && t in NodeTargets(nodes, n) ==> t in reachable || t in pending)
    && (forall n :: n in reachable || n in pending ==> Needed(nodes, root, n) && n in Known(nodes))
  }

  lemma CollectMore(nodes: Nodes, root: NodeId, reachable: set<NodeId>, rest: seq<NodeId>, n: NodeId, more: seq<NodeId>)
    requires Collecting(nodes, root, reachable, rest + [n])
    requires forall t :: t in more <==> t in NodeTargets(nodes, n)
    ensures Collecting(nodes, root, reachable + {n}, rest + more)
  {
    assert forall m :: m in rest + [n] <==> m in rest || m == n;
    assert forall m :: m in rest + more <==> m in rest || m in more;
    TargetsAreNeeded(nodes, root, n);
    forall m | m in NodeTargets(nodes, n) ensures m in Known(nodes) {
    }
  }

  lemma CollectDrop(nodes: Nodes, root: NodeId, reachable: set<NodeId>, rest: seq<NodeId>, n: NodeId)
    requires Collecting(nodes, root, reachable, rest + [n]) && n in reachable
    ensures Collecting(nodes, root, reachable, rest)
  {
    assert forall m :: m in rest + [n] <==> m in rest || m == n;
  }

  lemma CollectStarts(nodes: Nodes, root: NodeId, start: seq<NodeId>)
    requires forall n :: n in start <==> n in RootNodes(nodes, root)
    ensures Collecting(nodes, root, {}, start)
  {
  }

  lemma CollectEnds(nodes: Nodes, root: NodeId, reachable: set<NodeId>)
    requires Collecting(nodes, root, reachable, [])
    ensures IsClosure(nodes, root, reachable)
  {
    forall n | n in reachable ensures NodeTargets(nodes, n) <= reachable {
      forall t | t in NodeTargets(nodes, n) ensures t in reachable {
      }
    }
  }

  lemma FewerKnown(nodes: Nodes, reachable: set<NodeId>, n: NodeId)
    requires n in Known(nodes) && n !in reachable
    ensures |Known(nodes) - (reachable + {n})| < |Known(nodes) - reachable|
  {
    assert Known(nodes) - reachable == (Known(nodes) - (reachable + {n})) + {n};
  }

  /** Opens one node of the worklist. */
  method CollectNode(nodes: Nodes, ghost root: NodeId, reachable: set<NodeId>, rest: seq<NodeId>, n: NodeId)
    returns (next: seq<NodeId>)
    requires Collecting(nodes, root, reachable, rest + [n]) && n !in reachable
    ensures Collecting(nodes, root, reachable + {n}, next)
    ensures |Known(nodes) - (reachable + {n})| < |Known(nodes) - reachable|
  {
    var more := TargetsOf(nodes, n);
    assert n in rest + [n];
    FewerKnown(nodes, reachable, n);
    CollectMore(nodes, root, reachable, rest, n, more);
    next := rest + more;
  }

  /** Takes one node off the worklist. */
  method CollectNext(nodes: Nodes, ghost root: NodeId, reachable: set<NodeId>, pending: seq<NodeId>)
    returns (reachable': set<NodeId>, pending': seq<NodeId>)
    requires Collecting(nodes, root, reachable, pending) && pending != []
    ensures Collecting(nodes, root, reachable', pending')
    ensures |Known(nodes) - reachable'| < |Known(nodes) - reachable| ||
            (reachable' == reachable && |pending'| < |pending|)
  {
    var last := |pending| - 1;
    var n := pending[last];
    var rest := pending[..last];
    assert pending == rest + [n];
    if n in reachable {
      CollectDrop(nodes, root, reachable, rest, n);
      reachable', pending' := reachable, rest;
    } else {
      pending' := CollectNode(nodes, root, reachable, rest, n);
      reachable' := reachable + {n};
    }
  }

  /** The worklist that collects the closure terminates with exactly it. */
  method CollectClosure(nodes: Nodes, root: NodeId) returns (reachable: set<NodeId>)
    ensures IsClosure(nodes, root, reachable)
  {
    var pending := Enumerate(RootNodes(nodes, root));
    reachable := {};
    CollectStarts(nodes, root, pending);
    while pending != []
      invariant Collecting(nodes, root, reachable, pending)
      decreases |Known(nodes) - reachable|, |pending|
    {
      reachable, pending := CollectNext(nodes, root, reachable, pending);
    }
    CollectEnds(nodes, root, reachable);
  }

  // ---------------------------------------------------------------- restriction keeps meaning

  function Restricted(nodes: Nodes, kept: set<NodeId>): Nodes {
    map n | n in nodes && n in kept :: nodes[n]
  }

  lemma {:induction false} RestrictedNode(nodes: Nodes, kept: set<NodeId>, n: NodeId, visited: set<NodeId>)
    requires Closed(nodes, kept) && n in kept
    ensures MaterializeNode(Restricted(nodes, kept), n, visited) == MaterializeNode(nodes, n, visited)
    decreases |Unopened(nodes, visited)|, 1
  {
    if n in nodes && n !in visited {
      OpeningShrinks(nodes, visited, n);
      var fields := nodes[n].fields;
      forall f | f in fields
        ensures MaterializeValue(Restricted(nodes, kept), fields[f].value, visited + {n})
                == MaterializeValue(nodes, fields[f].value, visited + {n})
      {
        assert Targets(fields[f].value) <= NodeTargets(nodes, n);
        RestrictedValue(nodes, kept, fields[f].value, visited + {n});
      }
    }
  }

  lemma {:induction false} RestrictedValue(nodes: Nodes, kept: set<NodeId>, value: FieldValue, visited: set<NodeId>)
    requires Closed(nodes, kept) && Targets(value) <= kept
    ensures MaterializeValue(Restricted(nodes, kept), value, visited) == MaterializeValue(nodes, value, visited)
    decreases |Unopened(nodes, visited)|, 3
  {
    match value
    case Link(target) =>
      RestrictedNode(nodes, kept, target, visited);
    case Set(state) =>
      RestrictedAll(nodes, kept, Sorted(state.members.Keys), visited);
    case _ =>
  }

  lemma {:induction false} RestrictedAll(nodes: Nodes, kept: set<NodeId>, ns: seq<NodeId>, visited: set<NodeId>)
    requires Closed(nodes, kept) && forall n :: n in ns ==> n in kept
    ensures MaterializeAll(Restricted(nodes, kept), ns, visited) == MaterializeAll(nodes, ns, visited)
    decreases |Unopened(nodes, visited)|, 2, |ns|
  {
    if ns != [] {
      RestrictedNode(nodes, kept, ns[0], visited);
      RestrictedAll(nodes, kept, ns[1..], visited);
    }
  }

  /**
    A root snapshot preserves meaning: whatever lies under the root materializes from the restricted
    graph to the JSON, with the same reference cuts, that the full graph gives.
   */
  lemma RootSnapshotKeepsMeaning(nodes: Nodes, root: NodeId, kept: set<NodeId>, n: NodeId)
    requires IsClosure(nodes, root, kept) && MatchesRoot(n, root)
    ensures MaterializeNode(Restricted(nodes, kept), n, {}) == MaterializeNode(nodes, n, {})
    ensures Depicts(nodes, n, {}, MaterializeNode(Restricted(nodes, kept), n, {}))
  {
    if n in nodes {
      assert n in RootNodes(nodes, root);
      RestrictedNode(nodes, kept, n, {});
    }
    NodeIsDepicted(nodes, n, {}, MaterializeNode(nodes, n, {}));
  }
}
