/**
  The relationship index: the link and set-member edges of the graph, bucketed by source
  and by target.
 */
module Relationships {
  import opened Graph

  datatype EdgeKind = LinkEdge | MemberEdge

  datatype Edge = Edge(source: NodeId, field: string, target: NodeId, kind: EdgeKind)

  /** The edges a field value gives rise to. */
  function ValueEdges(n: NodeId, field: string, value: FieldValue): set<Edge> {
    match value
    case Link(target) => {Edge(n, field, target, LinkEdge)}
    case Set(state) => set x | x in state.members :: Edge(n, field, x, MemberEdge)
    case _ => {}
  }

  function StateEdges(n: NodeId, state: NodeState): set<Edge> {
    set f, e | f in state.fields && e in ValueEdges(n, f, state.fields[f].value) :: e
  }

  function NodeEdges(nodes: Nodes, n: NodeId): set<Edge> {
    if n in nodes then StateEdges(n, nodes[n]) else {}
  }

  /** The edge is that of a link field, or of a live member of a set field, of the node. */
  predicate EdgeOfField(nodes: Nodes, n: NodeId, e: Edge) {
    && e.source == n && n in nodes && e.field in nodes[n].fields
    && var value := nodes[n].fields[e.field].value;
       match e.kind
       case LinkEdge => value == Link(e.target)
       case MemberEdge => value.Set? && e.target in value.state.members
  }

  /** The edges of a node are those of its link fields and of the live members of its set fields. */
  lemma EdgesAreTheFields(nodes: Nodes, n: NodeId, e: Edge)
    ensures e in NodeEdges(nodes, n) <==> EdgeOfField(nodes, n, e)
  {
    if EdgeOfField(nodes, n, e) {
      assert e in ValueEdges(n, e.field, nodes[n].fields[e.field].value);
    }
  }

  function From(edges: set<Edge>, n: NodeId): set<Edge> {
    set e | e in edges && e.source == n
  }

  /** Exactly the link and live-member edges of the graph. */
  ghost predicate Indexes(edges: set<Edge>, nodes: Nodes) {
    forall n :: From(edges, n) == NodeEdges(nodes, n)
  }

  lemma SameFrom(a: set<Edge>, b: set<Edge>)
    requires forall n :: From(a, n) == From(b, n)
    ensures a == b
  {
    forall e ensures e in a <==> e in b {
      assert e in a <==> e in From(a, e.source);
      assert e in b <==> e in From(b, e.source);
    }
  }

  lemma EdgesStartAt(nodes: Nodes, n: NodeId)
    ensures forall e :: e in NodeEdges(nodes, n) ==> e.source == n
  {
  }

  function Reindexed(edges: set<Edge>, nodes: Nodes, n: NodeId): set<Edge> {
    edges - From(edges, n) + NodeEdges(nodes, n)
  }

  lemma ReindexedFrom(edges: set<Edge>, nodes: Nodes, n: NodeId, m: NodeId)
    ensures From(Reindexed(edges, nodes, n), m) == if m == n then NodeEdges(nodes, n) else From(edges, m)
  {
    EdgesStartAt(nodes, n);
  }

  /** The edge set with the edges of every node in `sources` recomputed. */
  function ReindexedAll(edges: set<Edge>, nodes: Nodes, sources: set<NodeId>): set<Edge> {
    (set e | e in edges && e.source !in sources) + (set n, e | n in sources && e in NodeEdges(nodes, n) :: e)
  }

  lemma ReindexedAllFrom(edges: set<Edge>, nodes: Nodes, sources: set<NodeId>, m: NodeId)
    ensures From(ReindexedAll(edges, nodes, sources), m) == if m in sources then NodeEdges(nodes, m) else From(edges, m)
  {
    forall n ensures forall e :: e in NodeEdges(nodes, n) ==> e.source == n {
      EdgesStartAt(nodes, n);
    }
  }

  // ---------------------------------------------------------------- the buckets

  /** `buckets` groups `edges` by `end`, with no empty bucket. */
  ghost predicate Groups(buckets: map<NodeId, set<Edge>>, edges: set<Edge>, end: Edge -> NodeId) {
    && (forall e :: e in edges ==> end(e) in buckets && e in buckets[end(e)])
    && (forall n :: n in buckets ==> buckets[n] != {})
    && (forall n, e :: n in buckets && e in buckets[n] ==> e in edges && end(e) == n)
  }

  function Source(e: Edge): NodeId { e.source }

  function Target(e: Edge): NodeId { e.target }

  /** One edge set has one grouping. */
  lemma GroupsUnique(a: map<NodeId, set<Edge>>, b: map<NodeId, set<Edge>>, edges: set<Edge>, end: Edge -> NodeId)
    requires Groups(a, edges, end) && Groups(b, edges, end)
    ensures a == b
  {
    GroupsInclude(a, b, edges, end);
    GroupsInclude(b, a, edges, end);
    forall n | n in a ensures a[n] == b[n] {
      forall e ensures e in a[n] <==> e in b[n] {
        assert e in a[n] ==> e in edges && end(e) == n;
        assert e in b[n] ==> e in edges && end(e) == n;
      }
    }
  }

  lemma GroupsInclude(a: map<NodeId, set<Edge>>, b: map<NodeId, set<Edge>>, edges: set<Edge>, end: Edge -> NodeId)
    requires Groups(a, edges, end) && Groups(b, edges, end)
    ensures a.Keys <= b.Keys
  {
    forall n | n in a ensures n in b {
      var e :| e in a[n];
      assert end(e) == n;
    }
  }

  function Bucketed(buckets: map<NodeId, set<Edge>>, n: NodeId): set<Edge> {
    if n in buckets then buckets[n] else {}
  }

  lemma InsertGroups(buckets: map<NodeId, set<Edge>>, edges: set<Edge>, end: Edge -> NodeId, e: Edge)
    requires Groups(buckets, edges, end)
    ensures Groups(buckets[end(e) := Bucketed(buckets, end(e)) + {e}], edges + {e}, end)
  {
  }

  function Without(buckets: map<NodeId, set<Edge>>, n: NodeId, e: Edge): map<NodeId, set<Edge>> {
    if n !in buckets then buckets
    else if buckets[n] - {e} == {} then buckets - {n}
    else buckets[n := buckets[n] - {e}]
  }

  lemma RemoveGroups(buckets: map<NodeId, set<Edge>>, edges: set<Edge>, end: Edge -> NodeId, e: Edge)
    requires Groups(buckets, edges, end)
    ensures Groups(Without(buckets, end(e), e), edges - {e}, end)
  {
    var after := Without(buckets, end(e), e);
    forall x | x in edges - {e} ensures end(x) in after && x in after[end(x)] {
      if end(x) == end(e) {
        assert x in buckets[end(e)] - {e};
      }
    }
  }

  /** Dropping a source's group drops its edges. */
  lemma WithoutSource(buckets: map<NodeId, set<Edge>>, edges: set<Edge>, source: NodeId)
    requires Groups(buckets, edges, Source)
    ensures Groups(buckets - {source}, edges - From(edges, source), Source)
  {
  }

  class RelationshipIndex {
    var outbound: map<NodeId, set<Edge>>
    var inbound: map<NodeId, set<Edge>>
    ghost var edges: set<Edge>

    /** `inbound` is the transpose of `outbound`, and neither holds an empty bucket. */
    ghost predicate Valid()
      reads this
    {
      Groups(outbound, edges, Source) && Groups(inbound, edges, Target)
    }

    constructor ()
      ensures Valid() && edges == {}
    {
      outbound, inbound, edges := map[], map[], {};
    }

    method Insert(edge: Edge)
      requires Valid()
      modifies this
      ensures Valid() && edges == old(edges) + {edge}
    {
      InsertGroups(outbound, edges, Source, edge);
      InsertGroups(inbound, edges, Target, edge);
      outbound := outbound[edge.source := Bucketed(outbound, edge.source) + {edge}];
      inbound := inbound[edge.target := Bucketed(inbound, edge.target) + {edge}];
      edges := edges + {edge};
    }

    method RemoveInbound(edge: Edge)
      requires Groups(inbound, edges, Target)
      modifies this`inbound, this`edges
      ensures Groups(inbound, edges, Target) && edges == old(edges) - {edge}
    {
      RemoveGroups(inbound, edges, Target, edge);
      if edge.target in inbound {
        var left := inbound[edge.target] - {edge};
        inbound := if left == {} then inbound - {edge.target} else inbound[edge.target := left];
      }
      edges := edges - {edge};
    }

    method RemoveSource(source: NodeId)
      requires Valid()
      modifies this
      ensures Valid() && edges == old(edges) - From(old(edges), source)
    {
      if source !in outbound {
        assert From(edges, source) == {};
        return;
      }
      var removed := outbound[source];
      forall e ensures e in removed <==> e in From(edges, source) {
        assert e in removed ==> e in edges && Source(e) == source;
        assert e in From(edges, source) ==> Source(e) in outbound && e in outbound[Source(e)];
      }
      ghost var before := edges;
      outbound := outbound - {source};
      var pending := removed;
      while pending != {}
        invariant forall e :: e in pending ==> e in removed
        invariant forall e :: e in edges <==> e in before && (e in removed ==> e in pending)
        invariant Groups(inbound, edges, Target)
        invariant outbound == old(outbound) - {source}
        decreases |pending|
      {
        var edge :| edge in pending;
        RemoveInbound(edge);
        pending := pending - {edge};
      }
      WithoutSource(old(outbound), before, source);
      assert edges == before - From(before, source);
    }

    /** Recomputes the edges that leave one node. */
    method Reindex(nodes: Nodes, n: NodeId)
      requires Valid()
      modifies this
      ensures Valid() && edges == Reindexed(old(edges), nodes, n)
    {
      RemoveSource(n);
      if n in nodes {
        ghost var start := edges;
        var fields := nodes[n].fields;
        var pending := fields.Keys;
        while pending != {}
          invariant pending <= fields.Keys && Valid()
          invariant edges ==
                    start + set f, e | f in fields && f !in pending && e in ValueEdges(n, f, fields[f].value) :: e
          decreases |pending|
        {
          var f :| f in pending;
          InsertAll(ValueEdges(n, f, fields[f].value));
          pending := pending - {f};
        }
        assert edges == start + StateEdges(n, nodes[n]);
      }
    }

    method InsertAll(added: set<Edge>)
      requires Valid()
      modifies this
      ensures Valid() && edges == old(edges) + added
    {
      var pending := added;
      while pending != {}
        invariant pending <= added && Valid()
        invariant forall e :: e in edges <==> e in old(edges) || (e in added && e !in pending)
        decreases |pending|
      {
        var edge :| edge in pending;
        Insert(edge);
        pending := pending - {edge};
      }
    }
  }
}
