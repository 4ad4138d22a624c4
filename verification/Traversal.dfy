/**
  Graph traversal, breadth or depth first, under depth and result limits.
 */
module Traversal {
  import opened Json
  import opened Graph
  import opened Relationships

  datatype Direction = Outbound | Inbound | Both

  datatype Strategy = Bfs | Dfs

  /**
    What a traversal is asked. `view` tells of a node whether the filters accept it, and the value
    to report.
   */
  datatype Spec = Spec(
    direction: Direction,
    strategy: Strategy,
    maxDepth: nat,
    limit: Option<nat>,
    edgeFields: Option<set<string>>,
    followLinks: bool,
    followSets: bool,
    includeStart: bool,
    view: NodeId -> (bool, Option<Json>))

  datatype Frame = Frame(node: NodeId, depth: nat, path: seq<NodeId>, via: Option<Edge>)

  datatype Entry = Entry(node: NodeId, depth: nat, path: seq<NodeId>, via: Option<Edge>, value: Option<Json>)

  datatype Result = Result(entries: seq<Entry>, complete: bool, depthLimitReached: bool, resultLimitReached: bool,
                           missing: set<NodeId>)

  /** The graph a traversal walks: the nodes present and the relationship index. */
  datatype World = World(present: set<NodeId>, edges: set<Edge>, starts: seq<NodeId>, spec: Spec)

  predicate Permits(spec: Spec, e: Edge) {
    && (spec.edgeFields.Some? ==> e.field in spec.edgeFields.value)
    && (if e.kind.LinkEdge? then spec.followLinks else spec.followSets)
  }

  /** The permitted edges at a node, in the directions asked for. */
  function Adjacent(w: World, n: NodeId): set<Edge> {
    set e | && e in w.edges && Permits(w.spec, e)
            && ((!w.spec.direction.Inbound? && e.source == n) || (!w.spec.direction.Outbound? && e.target == n))
  }

  function Across(e: Edge, n: NodeId): NodeId {
    if e.source == n then e.target else e.source
  }

  /**
    The edge may be taken from `n` to `m`: from source to target or the other way, as the direction
    asks, over one of the fields asked for, and as a link or a member only if these are followed.
   */
  predicate Along(spec: Spec, n: NodeId, e: Edge, m: NodeId) {
    && (match spec.direction
        case Outbound => (e.source, e.target) == (n, m)
        case Inbound => (e.source, e.target) == (m, n)
        case Both => (e.source, e.target) == (n, m) || (e.source, e.target) == (m, n))
    && (match spec.edgeFields
        case None => true
        case Some(fields) => e.field in fields)
    && (match e.kind
        case LinkEdge => spec.followLinks
        case MemberEdge => spec.followSets)
  }

  /** One permitted step leads from `n`, which is present, to `m` along `e`. */
  predicate Joins(w: World, n: NodeId, e: Edge, m: NodeId) {
    n in w.present && e in w.edges && Along(w.spec, n, e, m)
  }

  /** The edges gathered at a node, and their far ends, are the permitted steps from it. */
  lemma AdjacentIsAlong(w: World, n: NodeId, e: Edge, m: NodeId)
    ensures e in Adjacent(w, n) && Across(e, n) == m <==> e in w.edges && Along(w.spec, n, e, m)
  {
  }

  ghost predicate LeadsOn(w: World, n: NodeId) {
    exists e, m :: Joins(w, n, e, m)
  }

  lemma AdjacentLeadsOn(w: World, n: NodeId)
    requires n in w.present
    ensures Adjacent(w, n) != {} <==> LeadsOn(w, n)
  {
    if e :| e in Adjacent(w, n) {
      AdjacentIsAlong(w, n, e, Across(e, n));
      assert Joins(w, n, e, Across(e, n));
    }
    if LeadsOn(w, n) {
      var e, m :| Joins(w, n, e, m);
      AdjacentIsAlong(w, n, e, m);
    }
  }

  ghost predicate Leads(w: World, n: NodeId, m: NodeId) {
    exists e :: Joins(w, n, e, m)
  }

  /** A chain of permitted steps from a start. */
  ghost predicate Chain(w: World, p: seq<NodeId>) {
    && |p| > 0 && p[0] in w.starts
    && forall i :: 0 <= i < |p| - 1 ==> Leads(w, p[i], p[i + 1])
  }

  ghost predicate ChainTo(w: World, p: seq<NodeId>, n: NodeId) {
    Chain(w, p) && p[|p| - 1] == n
  }

  ghost predicate Reachable(w: World, n: NodeId) {
    exists p :: ChainTo(w, p, n)
  }

  predicate Simple(p: seq<NodeId>) {
    forall i, j :: 0 <= i < j < |p| ==> p[i] != p[j]
  }

  /** A found node with the simple chain that led to it. */
  ghost predicate Found(w: World, n: NodeId, depth: nat, path: seq<NodeId>, via: Option<Edge>) {
    && ChainTo(w, path, n) && Simple(path)
    && |path| == depth + 1 && depth <= w.spec.maxDepth
    && (if depth == 0 then via.None? else via.Some? && Joins(w, path[depth - 1], via.value, n))
  }

  // ---------------------------------------------------------------- invariants of the walk

  /** Each waiting frame is a found node whose path, up to its end, has been visited. */
  ghost predicate FramesFound(w: World, frontier: seq<Frame>, visited: set<NodeId>) {
    forall i :: 0 <= i < |frontier| ==>
      && Found(w, frontier[i].node, frontier[i].depth, frontier[i].path, frontier[i].via)
      && forall k :: 0 <= k < frontier[i].depth ==> frontier[i].path[k] in visited
  }

  ghost predicate EntriesFound(w: World, entries: seq<Entry>, visited: set<NodeId>) {
    && (forall i :: 0 <= i < |entries| ==>
          && Found(w, entries[i].node, entries[i].depth, entries[i].path, entries[i].via)
          && entries[i].node in visited && entries[i].node in w.present
          && (entries[i].depth > 0 || w.spec.includeStart)
          && w.spec.view(entries[i].node) == (true, entries[i].value))
    && (forall i, j :: 0 <= i < j < |entries| ==> entries[i].node != entries[j].node)
  }

  ghost predicate Awaits(frontier: seq<Frame>, n: NodeId, depth: nat) {
    exists i :: 0 <= i < |frontier| && frontier[i].node == n && frontier[i].depth <= depth
  }

  /**
    Nothing is forgotten: starts, and the neighbours of every visited node that is present and above the
    depth limit, are visited or wait at no more than one step further.
   */
  ghost predicate Pursued(w: World, frontier: seq<Frame>, visited: set<NodeId>, depths: map<NodeId, nat>) {
    && visited == depths.Keys
    && (forall n :: n in w.starts ==> n in visited || Awaits(frontier, n, 0))
    && forall n, m :: n in visited && Leads(w, n, m) && depths[n] < w.spec.maxDepth ==>
                        m in visited || Awaits(frontier, m, depths[n] + 1)
  }

  ghost predicate ReachedAt(w: World, n: NodeId, depth: nat) {
    exists p :: ChainTo(w, p, n) && |p| == depth + 1
  }

  /** A node at the depth limit from which permitted edges lead on. */
  ghost predicate AtLimit(w: World, depths: map<NodeId, nat>, n: NodeId) {
    n in depths && depths[n] == w.spec.maxDepth && LeadsOn(w, n)
  }

  predicate Shown(w: World, n: NodeId, depth: nat) {
    n in w.present && (depth > 0 || w.spec.includeStart) && w.spec.view(n).0
  }

  ghost predicate Emitted(entries: seq<Entry>, n: NodeId) {
    exists i :: 0 <= i < |entries| && entries[i].node == n
  }

  /** Visited nodes lie at their depths, and what was seen of them is reported: no more and no less. */
  ghost predicate Reported(w: World, unresolved: set<NodeId>, depths: map<NodeId, nat>, entries: seq<Entry>,
                           missing: set<NodeId>, depthLimitReached: bool)
  {
    && (forall n :: n in depths ==> ReachedAt(w, n, depths[n]) && depths[n] <= w.spec.maxDepth)
    && (forall n :: n in missing <==> n in unresolved || (n in depths && n !in w.present))
    && (depthLimitReached <==> exists n :: AtLimit(w, depths, n))
    && Listed(w, depths, entries)
  }

  /** Every visited node that is to be shown has an entry, and entries carry the depths of their nodes. */
  ghost predicate Listed(w: World, depths: map<NodeId, nat>, entries: seq<Entry>) {
    && (forall n :: n in depths && Shown(w, n, depths[n]) ==> Emitted(entries, n))
    && (forall i :: 0 <= i < |entries| ==> entries[i].node in depths && depths[entries[i].node] == entries[i].depth)
  }

  /** Under breadth-first search frames wait in order of depth, at most one level ahead. */
  ghost predicate Levelled(frontier: seq<Frame>) {
    forall i, j :: 0 <= i <= j < |frontier| ==> frontier[i].depth <= frontier[j].depth <= frontier[0].depth + 1
  }

  ghost predicate Shortest(w: World, depths: map<NodeId, nat>) {
    forall n, p :: n in depths && ChainTo(w, p, n) ==> depths[n] < |p|
  }

  // ---------------------------------------------------------------- why breadth first is shortest

  /** The first node of a chain that has not been visited. */
  lemma {:induction false} FirstUnvisited(p: seq<NodeId>, visited: set<NodeId>) returns (j: nat)
    requires |p| > 0 && p[|p| - 1] !in visited
    ensures j < |p| && p[j] !in visited && forall i :: 0 <= i < j ==> p[i] in visited
  {
    j := 0;
    while p[j] in visited
      invariant j < |p| && forall i :: 0 <= i < j ==> p[i] in visited
      decreases |p| - j
    {
      j := j + 1;
    }
  }

  lemma ChainPrefix(w: World, p: seq<NodeId>, j: nat)
    requires Chain(w, p) && j < |p|
    ensures ChainTo(w, p[..j + 1], p[j])
  {
  }

  /** The frame at the head of a levelled frontier lies at the distance of its node. */
  lemma HeadIsShortest(w: World, frontier: seq<Frame>, visited: set<NodeId>, depths: map<NodeId, nat>, p: seq<NodeId>)
    requires |frontier| > 0 && Levelled(frontier) && frontier[0].depth <= w.spec.maxDepth
    requires Pursued(w, frontier, visited, depths) && Shortest(w, depths)
    requires frontier[0].node !in visited && ChainTo(w, p, frontier[0].node)
    ensures frontier[0].depth < |p|
  {
    var j := FirstUnvisited(p, visited);
    if j == 0 {
      assert Awaits(frontier, p[0], 0);
    } else {
      ChainPrefix(w, p, j - 1);
      assert depths[p[j - 1]] < j;
      assert Leads(w, p[j - 1], p[j - 1 + 1]);
      if depths[p[j - 1]] < w.spec.maxDepth {
        assert Awaits(frontier, p[j], depths[p[j - 1]] + 1);
      }
    }
  }

  // ---------------------------------------------------------------- the walk

  function Universe(w: World): set<NodeId> {
    (set n | n in w.starts) + (set e | e in w.edges :: e.source) + (set e | e in w.edges :: e.target)
  }

  lemma FoundInUniverse(w: World, n: NodeId, depth: nat, path: seq<NodeId>, via: Option<Edge>)
    requires Found(w, n, depth, path, via)
    ensures n in Universe(w)
  {
    if depth > 0 {
      assert via.value in w.edges;
    }
  }

  function TakenAt(frontier: seq<Frame>, k: nat): seq<Frame>
    requires k < |frontier|
  {
    frontier[..k] + frontier[k + 1..]
  }

  /** Index of the frame to take next: the oldest under breadth first, the newest under depth first. */
  function NextIndex(w: World, frontier: seq<Frame>): nat
    requires |frontier| > 0
  {
    if w.spec.strategy.Bfs? then 0 else |frontier| - 1
  }

  lemma StillAwaits(frontier: seq<Frame>, k: nat, n: NodeId, depth: nat)
    requires k < |frontier| && Awaits(frontier, n, depth) && frontier[k].node != n
    ensures Awaits(TakenAt(frontier, k), n, depth)
  {
    var i :| 0 <= i < |frontier| && frontier[i].node == n && frontier[i].depth <= depth;
    if i < k {
      assert TakenAt(frontier, k)[i] == frontier[i];
    } else {
      assert TakenAt(frontier, k)[i - 1] == frontier[i];
    }
  }

  lemma AwaitsMore(frontier: seq<Frame>, added: seq<Frame>, n: NodeId, depth: nat)
    requires Awaits(frontier, n, depth) || Awaits(added, n, depth)
    ensures Awaits(frontier + added, n, depth)
  {
    if i :| 0 <= i < |frontier| && frontier[i].node == n && frontier[i].depth <= depth {
      assert (frontier + added)[i] == frontier[i];
    } else {
      var i :| 0 <= i < |added| && added[i].node == n && added[i].depth <= depth;
      assert (frontier + added)[|frontier| + i] == added[i];
    }
  }

  /** A frame for a neighbour of the node just visited. */
  ghost predicate Onward(w: World, f: Frame, visited: set<NodeId>, next: Frame) {
    && next.via.Some? && Joins(w, f.node, next.via.value, next.node) && next.node !in visited
    && next.depth == f.depth + 1 && next.path == f.path + [next.node]
  }

  /** Frames for all neighbours of the node just visited, save visited ones; none if it is absent or too deep. */
  ghost predicate Expands(w: World, f: Frame, visited: set<NodeId>, added: seq<Frame>) {
    if f.node !in w.present || f.depth >= w.spec.maxDepth then added == []
    else
      && (forall i :: 0 <= i < |added| ==> Onward(w, f, visited, added[i]))
      && forall e, m :: Joins(w, f.node, e, m) ==> m in visited || Awaits(added, m, f.depth + 1)
  }

  lemma OnwardFound(w: World, f: Frame, visited: set<NodeId>, next: Frame)
    requires Found(w, f.node, f.depth, f.path, f.via) && f.node in w.present && f.depth < w.spec.maxDepth
    requires forall k :: 0 <= k <= f.depth ==> f.path[k] in visited
    requires Onward(w, f, visited, next)
    ensures Found(w, next.node, next.depth, next.path, next.via)
    ensures forall k :: 0 <= k < next.depth ==> next.path[k] in visited
  {
    var p := next.path;
    assert Joins(w, f.node, next.via.value, next.node);
    forall i | 0 <= i < |p| - 1 ensures Leads(w, p[i], p[i + 1]) {
      if i < f.depth {
        assert Leads(w, f.path[i], f.path[i + 1]);
      }
    }
  }

  lemma FramesAfter(w: World, frontier: seq<Frame>, k: nat, visited: set<NodeId>, added: seq<Frame>)
    requires k < |frontier| && FramesFound(w, frontier, visited)
    requires Expands(w, frontier[k], visited + {frontier[k].node}, added)
    ensures FramesFound(w, TakenAt(frontier, k) + added, visited + {frontier[k].node})
  {
    var f := frontier[k];
    var visited' := visited + {f.node};
    var rest := TakenAt(frontier, k);
    forall i | 0 <= i < |rest + added|
      ensures Found(w, (rest + added)[i].node, (rest + added)[i].depth, (rest + added)[i].path, (rest + added)[i].via)
      ensures forall m :: 0 <= m < (rest + added)[i].depth ==> (rest + added)[i].path[m] in visited'
    {
      if i < |rest| {
        var j := if i < k then i else i + 1;
        assert rest[i] == frontier[j];
      } else {
        assert Onward(w, f, visited', added[i - |rest|]);
        OnwardFound(w, f, visited', added[i - |rest|]);
      }
    }
  }

  lemma PursuedAfter(w: World, frontier: seq<Frame>, k: nat, visited: set<NodeId>, depths: map<NodeId, nat>,
                     added: seq<Frame>)
    requires k < |frontier| && Pursued(w, frontier, visited, depths) && frontier[k].node !in visited
    requires Expands(w, frontier[k], visited + {frontier[k].node}, added)
    ensures Pursued(w, TakenAt(frontier, k) + added, visited + {frontier[k].node},
            depths[frontier[k].node := frontier[k].depth])
  {
    var f := frontier[k];
    var visited', depths' := visited + {f.node}, depths[f.node := f.depth];
    var rest := TakenAt(frontier, k);
    forall n | n in w.starts ensures n in visited' || Awaits(rest + added, n, 0) {
      if n !in visited' {
        StillAwaits(frontier, k, n, 0);
        AwaitsMore(rest, added, n, 0);
      }
    }
    forall n, m | n in visited' && Leads(w, n, m) && depths'[n] < w.spec.maxDepth
      ensures m in visited' || Awaits(rest + added, m, depths'[n] + 1)
    {
      if m !in visited' {
        if n == f.node {
          var e :| Joins(w, n, e, m);
        } else {
          StillAwaits(frontier, k, m, depths[n] + 1);
        }
        AwaitsMore(rest, added, m, depths'[n] + 1);
      }
    }
  }

  lemma PursuedDrop(w: World, frontier: seq<Frame>, k: nat, visited: set<NodeId>, depths: map<NodeId, nat>)
    requires k < |frontier| && Pursued(w, frontier, visited, depths) && frontier[k].node in visited
    ensures Pursued(w, TakenAt(frontier, k), visited, depths)
  {
    var rest := TakenAt(frontier, k);
    forall n | n in w.starts ensures n in visited || Awaits(rest, n, 0) {
      if n !in visited {
        StillAwaits(frontier, k, n, 0);
      }
    }
    forall n, m | n in visited && Leads(w, n, m) && depths[n] < w.spec.maxDepth
      ensures m in visited || Awaits(rest, m, depths[n] + 1)
    {
      if m !in visited {
        StillAwaits(frontier, k, m, depths[n] + 1);
      }
    }
  }

  lemma FramesDrop(w: World, frontier: seq<Frame>, k: nat, visited: set<NodeId>)
    requires k < |frontier| && FramesFound(w, frontier, visited)
    ensures FramesFound(w, TakenAt(frontier, k), visited)
  {
    var rest := TakenAt(frontier, k);
    forall i | 0 <= i < |rest| ensures rest[i] == frontier[if i < k then i else i + 1] {
    }
  }

  lemma LevelledAfter(w: World, frontier: seq<Frame>, visited: set<NodeId>, added: seq<Frame>)
    requires |frontier| > 0 && Levelled(frontier)
    requires added == [] || Expands(w, frontier[0], visited, added)
    ensures Levelled(TakenAt(frontier, 0) + added)
  {
    var rest := TakenAt(frontier, 0);
    assert forall i :: 0 <= i < |rest| ==> rest[i] == frontier[i + 1];
    assert forall i :: 0 <= i < |added| ==> Onward(w, frontier[0], visited, added[i]);
  }

  ghost predicate Walking(w: World, frontier: seq<Frame>, visited: set<NodeId>, depths: map<NodeId, nat>) {
    && FramesFound(w, frontier, visited)
    && Pursued(w, frontier, visited, depths)
    && (w.spec.strategy.Bfs? ==> Levelled(frontier) && Shortest(w, depths))
  }

  lemma WalkingDrop(w: World, frontier: seq<Frame>, k: nat, visited: set<NodeId>, depths: map<NodeId, nat>)
    requires Walking(w, frontier, visited, depths)
    requires |frontier| > 0 && k == NextIndex(w, frontier) && frontier[k].node in visited
    ensures Walking(w, TakenAt(frontier, k), visited, depths)
  {
    PursuedDrop(w, frontier, k, visited, depths);
    FramesDrop(w, frontier, k, visited);
    if w.spec.strategy.Bfs? {
      LevelledAfter(w, frontier, visited, []);
      assert TakenAt(frontier, 0) + [] == TakenAt(frontier, 0);
    }
  }

  lemma WalkingOn(w: World, frontier: seq<Frame>, k: nat, visited: set<NodeId>, depths: map<NodeId, nat>,
                  added: seq<Frame>)
    requires Walking(w, frontier, visited, depths)
    requires |frontier| > 0 && k == NextIndex(w, frontier) && frontier[k].node !in visited
    requires Expands(w, frontier[k], visited + {frontier[k].node}, added)
    ensures Walking(w, TakenAt(frontier, k) + added, visited + {frontier[k].node},
            depths[frontier[k].node := frontier[k].depth])
  {
    PursuedAfter(w, frontier, k, visited, depths, added);
    FramesAfter(w, frontier, k, visited, added);
    if w.spec.strategy.Bfs? {
      LevelledAfter(w, frontier, visited + {frontier[k].node}, added);
      ShortestAfter(w, frontier, visited, depths);
    }
  }

  lemma ShortestAfter(w: World, frontier: seq<Frame>, visited: set<NodeId>, depths: map<NodeId, nat>)
    requires Walking(w, frontier, visited, depths) && w.spec.strategy.Bfs?
    requires |frontier| > 0 && frontier[0].node !in visited
    ensures Shortest(w, depths[frontier[0].node := frontier[0].depth])
  {
    var f := frontier[0];
    var depths' := depths[f.node := f.depth];
    assert Found(w, f.node, f.depth, f.path, f.via);
    forall n, p | n in depths' && ChainTo(w, p, n) ensures depths'[n] < |p| {
      if n == f.node {
        HeadIsShortest(w, frontier, visited, depths, p);
      }
    }
  }

  lemma LimitAfter(w: World, f: Frame, depths: map<NodeId, nat>, depths': map<NodeId, nat>, limited: bool)
    requires f.node !in depths && f.depth <= w.spec.maxDepth && depths' == depths[f.node := f.depth]
    requires limited <==> exists n :: AtLimit(w, depths, n)
    ensures (limited || (f.depth >= w.spec.maxDepth && LeadsOn(w, f.node)))
            <==> exists n :: AtLimit(w, depths', n)
  {
    if n :| AtLimit(w, depths, n) {
      assert AtLimit(w, depths', n);
    }
    if f.depth >= w.spec.maxDepth && LeadsOn(w, f.node) {
      assert AtLimit(w, depths', f.node);
    }
    if n :| AtLimit(w, depths', n) {
      assert n != f.node ==> AtLimit(w, depths, n);
    }
  }

  lemma EmittedMore(entries: seq<Entry>, e: Entry)
    ensures Emitted(entries + [e], e.node)
    ensures forall n :: Emitted(entries, n) ==> Emitted(entries + [e], n)
  {
    assert (entries + [e])[|entries|] == e;
    forall n | Emitted(entries, n) ensures Emitted(entries + [e], n) {
      var i :| 0 <= i < |entries| && entries[i].node == n;
      assert (entries + [e])[i].node == n;
    }
  }

  lemma ReportedAfter(w: World, unresolved: set<NodeId>, f: Frame, depths: map<NodeId, nat>, entries: seq<Entry>,
                      missing: set<NodeId>, limited: bool, entries': seq<Entry>, missing': set<NodeId>, limited': bool)
    requires Reported(w, unresolved, depths, entries, missing, limited)
    requires Found(w, f.node, f.depth, f.path, f.via) && f.node !in depths
    requires missing' == if f.node in w.present then missing else missing + {f.node}
    requires limited' <==> limited || (f.depth >= w.spec.maxDepth && LeadsOn(w, f.node))
    requires entries' == if Shown(w, f.node, f.depth)
                         then entries + [Entry(f.node, f.depth, f.path, f.via, w.spec.view(f.node).1)]
                         else entries
    ensures Reported(w, unresolved, depths[f.node := f.depth], entries', missing', limited')
  {
    var depths' := depths[f.node := f.depth];
    LimitAfter(w, f, depths, depths', limited);
    ListedAfter(w, f, depths, entries, entries');
    assert ReachedAt(w, f.node, f.depth);
    assert forall n :: n in depths' <==> n in depths || n == f.node;
  }

  lemma ListedAfter(w: World, f: Frame, depths: map<NodeId, nat>, entries: seq<Entry>, entries': seq<Entry>)
    requires Listed(w, depths, entries) && f.node !in depths
    requires entries' == if Shown(w, f.node, f.depth)
                         then entries + [Entry(f.node, f.depth, f.path, f.via, w.spec.view(f.node).1)]
                         else entries
    ensures Listed(w, depths[f.node := f.depth], entries')
  {
    EmittedMore(entries, Entry(f.node, f.depth, f.path, f.via, w.spec.view(f.node).1));
  }

  /** Frames for the neighbours of a visited node. The order in which edges come is immaterial. */
  method Expand(w: World, f: Frame, visited: set<NodeId>) returns (added: seq<Frame>)
    requires f.node in w.present && f.depth < w.spec.maxDepth
    ensures Expands(w, f, visited, added)
  {
    var pending := Adjacent(w, f.node);
    added := [];
    while pending != {}
      invariant forall e :: e in pending ==> e in Adjacent(w, f.node)
      invariant forall i :: 0 <= i < |added| ==> Onward(w, f, visited, added[i])
      invariant Queued(w, f, visited, pending, added)
      decreases |pending|
    {
      var edge :| edge in pending;
      pending := pending - {edge};
      var next := Across(edge, f.node);
      AdjacentIsAlong(w, f.node, edge, next);
      if next !in visited {
        var frame := Frame(next, f.depth + 1, f.path + [next], Some(edge));
        QueuedMore(w, f, visited, pending, added, frame);
        added := added + [frame];
      }
    }
    forall e, m | Joins(w, f.node, e, m) ensures m in visited || Awaits(added, m, f.depth + 1) {
      AdjacentIsAlong(w, f.node, e, m);
    }
  }

  /** Every edge but the pending ones leads to a visited or a waiting node. */
  ghost predicate Queued(w: World, f: Frame, visited: set<NodeId>, pending: set<Edge>, added: seq<Frame>) {
    forall e :: e in Adjacent(w, f.node) && e !in pending ==>
                  Across(e, f.node) in visited || Awaits(added, Across(e, f.node), f.depth + 1)
  }

  lemma QueuedMore(w: World, f: Frame, visited: set<NodeId>, pending: set<Edge>, added: seq<Frame>, frame: Frame)
    requires frame.via.Some? && frame.node == Across(frame.via.value, f.node) && frame.depth == f.depth + 1
    requires Queued(w, f, visited, pending + {frame.via.value}, added)
    ensures Queued(w, f, visited, pending, added + [frame])
  {
    assert (added + [frame])[|added|] == frame;
    forall e | e in Adjacent(w, f.node) && e !in pending
      ensures Across(e, f.node) in visited || Awaits(added + [frame], Across(e, f.node), f.depth + 1)
    {
      if e != frame.via.value && Across(e, f.node) !in visited {
        AwaitsMore(added, [frame], Across(e, f.node), f.depth + 1);
      }
    }
  }

  /** A node that could be shown but was not visited. */
  ghost predicate LeftOut(w: World, depths: map<NodeId, nat>, n: NodeId) {
    n !in depths && Reachable(w, n) && n in w.present && w.spec.view(n).0
  }

  /**
    What a traversal promises of its result, `depths` being the depths at which it visited nodes.
    Each flag is set exactly for its reason, and without the result limit nothing in reach is left out.
   */
  ghost predicate Correct(w: World, unresolved: set<NodeId>, depths: map<NodeId, nat>, r: Result) {
    && EntriesFound(w, r.entries, depths.Keys)
    && Reported(w, unresolved, depths, r.entries, r.missing, r.depthLimitReached)
    && (w.spec.limit.Some? ==> |r.entries| <= w.spec.limit.value)
    && (r.resultLimitReached ==>
          w.spec.limit.Some? && |r.entries| == w.spec.limit.value && exists n :: LeftOut(w, depths, n))
    && (!r.resultLimitReached ==> Pursued(w, [], depths.Keys, depths))
    && (w.spec.strategy.Bfs? ==> Shortest(w, depths))
    && (w.spec.strategy.Bfs? && !r.resultLimitReached ==>
          forall n, p :: ChainTo(w, p, n) && |p| <= w.spec.maxDepth + 1 ==> n in depths)
    && (r.complete ==>
          && (forall n :: Reachable(w, n) <==> n in depths)
          && (forall n :: Reachable(w, n) && (n !in w.starts || w.spec.includeStart) && w.spec.view(n).0 ==>
                Emitted(r.entries, n)))
  }

  /** Breadth first leaves nothing out that lies within the depth limit. */
  lemma {:induction false} WithinDepth(w: World, depths: map<NodeId, nat>, p: seq<NodeId>)
    requires Pursued(w, [], depths.Keys, depths) && Shortest(w, depths)
    requires Chain(w, p) && |p| <= w.spec.maxDepth + 1
    ensures p[|p| - 1] in depths
    decreases |p|
  {
    if |p| > 1 {
      var front := p[..|p| - 1];
      assert Chain(w, front);
      WithinDepth(w, depths, front);
      assert ChainTo(w, front, p[|p| - 2]);
      assert depths[p[|p| - 2]] < |front|;
      assert Leads(w, p[|p| - 2], p[|p| - 2 + 1]);
    }
  }

  lemma {:induction false} ClosureVisited(w: World, visited: set<NodeId>, depths: map<NodeId, nat>, p: seq<NodeId>)
    requires Pursued(w, [], visited, depths)
    requires forall n, m :: n in visited && Leads(w, n, m) ==> depths[n] < w.spec.maxDepth
    requires Chain(w, p)
    ensures p[|p| - 1] in visited
    decreases |p|
  {
    if |p| > 1 {
      var front := p[..|p| - 1];
      assert Chain(w, front);
      ClosureVisited(w, visited, depths, front);
      assert Leads(w, p[|p| - 2], p[|p| - 2 + 1]);
    }
  }

  lemma DepthZero(w: World, n: NodeId)
    requires ReachedAt(w, n, 0)
    ensures n in w.starts
  {
  }

  lemma CompleteIsReachable(w: World, depths: map<NodeId, nat>, entries: seq<Entry>)
    requires Pursued(w, [], depths.Keys, depths)
    requires Reported(w, {}, depths, entries, {}, false)
    ensures forall n :: Reachable(w, n) <==> n in depths
    ensures forall n :: Reachable(w, n) && (n !in w.starts || w.spec.includeStart) && w.spec.view(n).0 ==>
                          Emitted(entries, n)
  {
    forall n, m | n in depths && Leads(w, n, m) ensures depths[n] < w.spec.maxDepth {
      var e :| Joins(w, n, e, m);
      assert !AtLimit(w, depths, n);
    }
    forall n | Reachable(w, n) ensures n in depths {
      var p :| ChainTo(w, p, n);
      ClosureVisited(w, depths.Keys, depths, p);
    }
    forall n | n in depths ensures Reachable(w, n) && n in w.present && (depths[n] == 0 ==> n in w.starts) {
      assert ReachedAt(w, n, depths[n]);
      if depths[n] == 0 {
        DepthZero(w, n);
      }
    }
  }

  method StartFrames(w: World) returns (frontier: seq<Frame>)
    ensures FramesFound(w, frontier, {}) && Pursued(w, frontier, {}, map[]) && Levelled(frontier)
  {
    frontier := [];
    for i := 0 to |w.starts|
      invariant |frontier| == i
      invariant forall k :: 0 <= k < i ==> frontier[k] == Frame(w.starts[k], 0, [w.starts[k]], None)
    {
      frontier := frontier + [Frame(w.starts[i], 0, [w.starts[i]], None)];
    }
    forall n | n in w.starts ensures Awaits(frontier, n, 0) {
      var k :| 0 <= k < |w.starts| && w.starts[k] == n;
      assert frontier[k].node == n;
    }
    forall k | 0 <= k < |frontier|
      ensures Found(w, frontier[k].node, frontier[k].depth, frontier[k].path, frontier[k].via)
    {
      assert ChainTo(w, frontier[k].path, frontier[k].node);
    }
  }

  lemma EntriesAfter(w: World, f: Frame, visited: set<NodeId>, entries: seq<Entry>)
    requires EntriesFound(w, entries, visited)
    requires Found(w, f.node, f.depth, f.path, f.via) && f.node !in visited && f.node in w.present
    requires (f.depth > 0 || w.spec.includeStart) && w.spec.view(f.node).0
    ensures EntriesFound(w, entries + [Entry(f.node, f.depth, f.path, f.via, w.spec.view(f.node).1)],
            visited + {f.node})
  {
  }

  lemma CorrectAtEnd(w: World, unresolved: set<NodeId>, depths: map<NodeId, nat>, r: Result)
    requires !r.resultLimitReached ==> Pursued(w, [], depths.Keys, depths)
    requires w.spec.strategy.Bfs? ==> Shortest(w, depths)
    requires EntriesFound(w, r.entries, depths.Keys)
    requires Reported(w, unresolved, depths, r.entries, r.missing, r.depthLimitReached)
    requires w.spec.limit.Some? ==> |r.entries| <= w.spec.limit.value
    requires r.resultLimitReached ==>
               w.spec.limit.Some? && |r.entries| == w.spec.limit.value && exists n :: LeftOut(w, depths, n)
    requires r.complete <==> r.missing == {} && !r.depthLimitReached && !r.resultLimitReached
    ensures Correct(w, unresolved, depths, r)
  {
    if r.complete {
      assert unresolved == {} by {
        assert forall n :: n in unresolved ==> n in r.missing;
      }
      CompleteIsReachable(w, depths, r.entries);
    }
    if w.spec.strategy.Bfs? && !r.resultLimitReached {
      forall n, p | ChainTo(w, p, n) && |p| <= w.spec.maxDepth + 1 ensures n in depths {
        WithinDepth(w, depths, p);
      }
    }
  }

  /** Takes one unvisited frame that may be reported, notes what it shows and queues its neighbours. */
  method Visit(w: World, ghost unresolved: set<NodeId>, f: Frame, visited: set<NodeId>, ghost depths: map<NodeId, nat>,
               entries: seq<Entry>, missing: set<NodeId>, limited: bool)
    returns (added: seq<Frame>, entries': seq<Entry>, missing': set<NodeId>, limited': bool)
    requires Found(w, f.node, f.depth, f.path, f.via) && f.node !in visited && visited == depths.Keys
    requires EntriesFound(w, entries, visited) && Reported(w, unresolved, depths, entries, missing, limited)
    ensures Expands(w, f, visited + {f.node}, added)
    ensures EntriesFound(w, entries', visited + {f.node})
    ensures Reported(w, unresolved, depths[f.node := f.depth], entries', missing', limited')
    ensures |entries'| <= |entries| + if Shown(w, f.node, f.depth) then 1 else 0
  {
    added, entries', missing', limited' := [], entries, missing, limited;
    if f.node !in w.present {
      missing' := missing + {f.node};
    } else {
      if (f.depth > 0 || w.spec.includeStart) && w.spec.view(f.node).0 {
        EntriesAfter(w, f, visited, entries);
        entries' := entries + [Entry(f.node, f.depth, f.path, f.via, w.spec.view(f.node).1)];
      }
      AdjacentLeadsOn(w, f.node);
      if f.depth >= w.spec.maxDepth {
        if Adjacent(w, f.node) != {} {
          limited' := true;
        }
      } else {
        added := Expand(w, f, visited + {f.node});
      }
    }
    ReportedAfter(w, unresolved, f, depths, entries, missing, limited, entries', missing', limited');
  }

  /** The state between two frames of a walk. */
  datatype Progress = Progress(frontier: seq<Frame>, seen: set<NodeId>, entries: seq<Entry>, missing: set<NodeId>,
                               limited: bool)

  ghost predicate Tracing(w: World, unresolved: set<NodeId>, t: Progress, depths: map<NodeId, nat>) {
    && Walking(w, t.frontier, t.seen, depths)
    && EntriesFound(w, t.entries, t.seen)
    && Reported(w, unresolved, depths, t.entries, t.missing, t.limited)
    && t.seen <= Universe(w)
    && (w.spec.limit.Some? ==> |t.entries| <= w.spec.limit.value)
  }

  method Drop(w: World, ghost unresolved: set<NodeId>, t: Progress, ghost depths: map<NodeId, nat>)
    returns (next: Progress)
    requires Tracing(w, unresolved, t, depths) && t.frontier != []
    requires t.frontier[NextIndex(w, t.frontier)].node in t.seen
    ensures Tracing(w, unresolved, next, depths) && next.seen == t.seen
    ensures |next.frontier| < |t.frontier|
  {
    var k := NextIndex(w, t.frontier);
    WalkingDrop(w, t.frontier, k, t.seen, depths);
    next := t.(frontier := TakenAt(t.frontier, k));
  }

  method Advance(w: World, ghost unresolved: set<NodeId>, t: Progress, ghost depths: map<NodeId, nat>)
    returns (next: Progress, ghost depths': map<NodeId, nat>)
    requires Tracing(w, unresolved, t, depths) && t.frontier != []
    requires t.frontier[NextIndex(w, t.frontier)].node !in t.seen
    requires var f := t.frontier[NextIndex(w, t.frontier)];
             Shown(w, f.node, f.depth) && w.spec.limit.Some? ==> |t.entries| < w.spec.limit.value
    ensures Tracing(w, unresolved, next, depths')
    ensures |Universe(w) - next.seen| < |Universe(w) - t.seen|
  {
    var k := NextIndex(w, t.frontier);
    var frame := t.frontier[k];
    FoundInUniverse(w, frame.node, frame.depth, frame.path, frame.via);
    var added, entries, missing, limited :=
      Visit(w, unresolved, frame, t.seen, depths, t.entries, t.missing, t.limited);
    WalkingOn(w, t.frontier, k, t.seen, depths, added);
    depths' := depths[frame.node := frame.depth];
    next := Progress(TakenAt(t.frontier, k) + added, t.seen + {frame.node}, entries, missing, limited);
    FewerLeft(Universe(w), t.seen, frame.node);
  }

  lemma FewerLeft(u: set<NodeId>, seen: set<NodeId>, n: NodeId)
    requires n in u && n !in seen
    ensures |u - (seen + {n})| < |u - seen|
  {
    assert u - seen == (u - (seen + {n})) + {n};
  }

  /** A result cut off at the limit. */
  method CutOff(w: World, ghost unresolved: set<NodeId>, t: Progress, ghost depths: map<NodeId, nat>)
    returns (r: Result)
    requires Tracing(w, unresolved, t, depths) && t.frontier != []
    requires t.frontier[NextIndex(w, t.frontier)].node !in t.seen
    requires var f := t.frontier[NextIndex(w, t.frontier)]; Shown(w, f.node, f.depth)
    requires w.spec.limit.Some? && |t.entries| >= w.spec.limit.value
    ensures Correct(w, unresolved, depths, r) && r.resultLimitReached && !r.complete
  {
    r := Result(t.entries, false, t.limited, true, t.missing);
    ghost var f := t.frontier[NextIndex(w, t.frontier)];
    assert Found(w, f.node, f.depth, f.path, f.via);
    assert LeftOut(w, depths, f.node);
    CorrectAtEnd(w, unresolved, depths, r);
  }

  /** A result with nothing left to visit. */
  method Exhausted(w: World, ghost unresolved: set<NodeId>, t: Progress, ghost depths: map<NodeId, nat>)
    returns (r: Result)
    requires Tracing(w, unresolved, t, depths) && t.frontier == []
    ensures Correct(w, unresolved, depths, r)
    ensures r.complete <==> r.missing == {} && !r.depthLimitReached && !r.resultLimitReached
  {
    r := Result(t.entries, t.missing == {} && !t.limited, t.limited, false, t.missing);
    assert Pursued(w, [], depths.Keys, depths);
    CorrectAtEnd(w, unresolved, depths, r);
  }

  method Started(w: World, unresolved: set<NodeId>) returns (t: Progress)
    ensures Tracing(w, unresolved, t, map[])
  {
    var frontier := StartFrames(w);
    t := Progress(frontier, {}, [], unresolved, false);
    ghost var none: map<NodeId, nat> := map[];
    assert forall n :: !AtLimit(w, none, n);
  }

  /**
    Traversal terminates on every graph; it emits each node at most once, with a simple chain of
    permitted edges from a start as long as its depth says; its flags and missing nodes are exactly
    justified; without the result limit it follows every permitted edge above the depth limit, and
    breadth first visits all that lies within that limit, each node at its distance; and a complete
    result covers exactly the reachable nodes.
   */
  method Traverse(w: World, unresolved: set<NodeId>) returns (r: Result, ghost depths: map<NodeId, nat>)
    ensures Correct(w, unresolved, depths, r)
    ensures r.complete <==> r.missing == {} && !r.depthLimitReached && !r.resultLimitReached
  {
    var t := Started(w, unresolved);
    depths := map[];
    while t.frontier != []
      invariant Tracing(w, unresolved, t, depths)
      decreases |Universe(w) - t.seen|, |t.frontier|
    {
      var frame := t.frontier[NextIndex(w, t.frontier)];
      if frame.node in t.seen {
        t := Drop(w, unresolved, t, depths);
      } else if Shown(w, frame.node, frame.depth) && w.spec.limit.Some? && |t.entries| >= w.spec.limit.value {
        r := CutOff(w, unresolved, t, depths);
        return;
      } else {
        t, depths := Advance(w, unresolved, t, depths);
      }
    }
    r := Exhausted(w, unresolved, t, depths);
  }
}
