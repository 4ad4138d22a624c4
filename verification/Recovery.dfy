/**
  The segment store: a directory of artifacts behind a write-ahead log. A commit logs its payload
  and then rewrites artifacts one by one; recovery replays the log. Under full durability only the
  log is synced, so a power loss may undo any of the artifact writes.
 */
module Recovery {
  import opened Json
  import opened Clock
  import opened Graph
  import opened Transactions

  /** A direct-index key: field path, sort key of the value, and the node that owns the entry. */
  datatype IndexKey = IndexKey(path: string, sortable: string, node: NodeId)

  datatype IndexEntry = IndexEntry(node: NodeId, path: string, value: Json, sortable: string)

  datatype Metadata = Metadata(clock: ClockState, pendingOps: seq<Operation>, nextTxId: nat)

  datatype Tx = Tx(
    id: nat,
    metadata: Metadata,
    nodes: map<NodeId, NodeState>,
    auth: map<NodeId, string>,
    indexes: map<NodeId, seq<IndexKey>>,
    entries: map<IndexKey, IndexEntry>,
    records: map<string, RecordEntry>,
    deleted: set<string>)

  /** What the log keeps: the transaction, and the index keys it makes obsolete. */
  datatype Payload = Payload(tx: Tx, removals: set<IndexKey>)

  type Bucket = map<IndexKey, IndexEntry>

  /** Files other than the log. Index entries share bucket files. */
  datatype Artifacts = Artifacts(
    nodes: map<NodeId, NodeState>,
    auth: map<NodeId, string>,
    manifests: map<NodeId, seq<IndexKey>>,
    buckets: map<string, Bucket>,
    records: map<string, RecordEntry>,
    metadata: Option<Metadata>)

  /** The log holds pending records and, once their artifacts are written, final ones. */
  datatype Disk = Disk(arts: Artifacts, pending: map<nat, Payload>, final: map<nat, Payload>)

  const EMPTY_DISK := Disk(Artifacts(map[], map[], map[], map[], map[], None), map[], map[])

  function ManifestKeys(tx: Tx): set<IndexKey> {
    set n, k | n in tx.indexes && k in tx.indexes[n] :: k
  }

  /** Transactions as they are built: manifests list exactly a node's own keys, each with an entry. */
  ghost predicate WellFormed(tx: Tx) {
    && tx.id > 0 && tx.metadata.nextTxId == tx.id + 1
    && (forall n, k :: n in tx.indexes && k in tx.indexes[n] ==> k.node == n && k in tx.entries)
    && (forall k :: k in tx.records ==> tx.records[k].key == k)
  }

  // ---------------------------------------------------------------- the meaning of the log

  /** What the store holds, files aside. */
  datatype Logical = Logical(
    nodes: map<NodeId, NodeState>,
    auth: map<NodeId, string>,
    manifests: map<NodeId, seq<IndexKey>>,
    index: map<IndexKey, IndexEntry>,
    records: map<string, RecordEntry>,
    metadata: Option<Metadata>)

  const EMPTY := Logical(map[], map[], map[], map[], map[], None)

  /** A transaction replaces its nodes, with all their index entries, and its records. */
  function Folded(l: Logical, tx: Tx): Logical {
    Logical(l.nodes + tx.nodes,
            l.auth + tx.auth,
            l.manifests + tx.indexes,
            (map k | k in l.index && k.node !in tx.indexes :: l.index[k])
            + (map k | k in ManifestKeys(tx) && k in tx.entries :: tx.entries[k]),
            (l.records - tx.deleted) + tx.records,
            Some(tx.metadata))
  }

  function FoldedAll(wal: seq<Payload>): Logical
    decreases |wal|
  {
    if wal == [] then EMPTY else Folded(FoldedAll(wal[..|wal| - 1]), wal[|wal| - 1].tx)
  }

  // ---------------------------------------------------------------- materializing a payload

  function ManifestOf(manifests: map<NodeId, seq<IndexKey>>, n: NodeId): seq<IndexKey> {
    if n in manifests then manifests[n] else []
  }

  /** Keys of the previous manifests that the new ones no longer list. */
  function Removals(manifests: map<NodeId, seq<IndexKey>>, tx: Tx): set<IndexKey> {
    set n, k | n in tx.indexes && k in ManifestOf(manifests, n) && k !in tx.indexes[n] :: k
  }

  function BucketOf(a: Artifacts, path: string): Bucket {
    if path in a.buckets then a.buckets[path] else map[]
  }

  function BucketAfter(b: Bucket, p: Payload, place: IndexKey -> string, path: string): Bucket {
    (map k | k in b && !(k in p.removals && place(k) == path) :: b[k])
    + (map k | k in ManifestKeys(p.tx) && k in p.tx.entries && place(k) == path :: p.tx.entries[k])
  }

  function TouchedPaths(p: Payload, place: IndexKey -> string): set<string> {
    (set k | k in p.removals :: place(k)) + (set k | k in ManifestKeys(p.tx) && k in p.tx.entries :: place(k))
  }

  /** Bucket files after a payload: changed ones are rewritten, or removed when left empty. */
  function BucketsAfter(a: Artifacts, p: Payload, place: IndexKey -> string): map<string, Bucket> {
    map path | path in a.buckets.Keys + TouchedPaths(p, place)
               && (BucketAfter(BucketOf(a, path), p, place, path) == BucketOf(a, path) ==> path in a.buckets)
               && (BucketAfter(BucketOf(a, path), p, place, path) != BucketOf(a, path) ==>
                     BucketAfter(BucketOf(a, path), p, place, path) != map[])
      :: BucketAfter(BucketOf(a, path), p, place, path)
  }

  /** All artifacts after a payload is materialized. */
  function Materialized(a: Artifacts, p: Payload, place: IndexKey -> string): Artifacts {
    Artifacts(a.nodes + p.tx.nodes,
              a.auth + p.tx.auth,
              a.manifests + p.tx.indexes,
              BucketsAfter(a, p, place),
              (a.records - p.tx.deleted) + p.tx.records,
              Some(p.tx.metadata))
  }

  function Replayed(a: Artifacts, wal: seq<Payload>, place: IndexKey -> string): Artifacts
    decreases |wal|
  {
    if wal == [] then a else Materialized(Replayed(a, wal[..|wal| - 1], place), wal[|wal| - 1], place)
  }

  // ---------------------------------------------------------------- a log whose removals are right

  /** A payload built when the store held the fold of `log`. */
  ghost predicate Follows(log: seq<Payload>, p: Payload) {
    && WellFormed(p.tx)
    && p.removals == Removals(FoldedAll(log).manifests, p.tx)
    && (log != [] ==> log[|log| - 1].tx.id < p.tx.id)
  }

  ghost predicate Chained(wal: seq<Payload>) {
    forall i {:trigger Follows(wal[..i], wal[i])} :: 0 <= i < |wal| ==> Follows(wal[..i], wal[i])
  }

  lemma ChainedPrefix(wal: seq<Payload>, i: nat)
    requires Chained(wal) && i <= |wal|
    ensures Chained(wal[..i])
  {
    forall j | 0 <= j < i ensures Follows(wal[..i][..j], wal[..i][j]) {
      assert wal[..i][..j] == wal[..j];
      assert Follows(wal[..j], wal[j]);
    }
  }

  lemma ChainedExtend(wal: seq<Payload>, p: Payload)
    requires Chained(wal) && Follows(wal, p)
    ensures Chained(wal + [p])
  {
    forall j | 0 <= j < |wal| + 1 ensures Follows((wal + [p])[..j], (wal + [p])[j]) {
      if j < |wal| {
        assert (wal + [p])[..j] == wal[..j];
        assert Follows(wal[..j], wal[j]);
      } else {
        assert (wal + [p])[..j] == wal;
      }
    }
  }

  // ---------------------------------------------------------------- artifacts of any age

  /** The artifacts a log writes. */
  datatype Names = Names(nodes: set<NodeId>, auth: set<NodeId>, manifests: set<NodeId>, records: set<string>,
                         keys: set<IndexKey>)

  function NamesOf(tx: Tx): Names {
    Names(tx.nodes.Keys, tx.auth.Keys, tx.indexes.Keys, tx.records.Keys + tx.deleted, ManifestKeys(tx))
  }

  function Both(a: Names, b: Names): Names {
    Names(a.nodes + b.nodes, a.auth + b.auth, a.manifests + b.manifests, a.records + b.records, a.keys + b.keys)
  }

  function Named(wal: seq<Payload>): Names
    decreases |wal|
  {
    if wal == [] then Names({}, {}, {}, {}, {}) else Both(Named(wal[..|wal| - 1]), NamesOf(wal[|wal| - 1].tx))
  }

  /**
    Artifacts that some mixture of the log's writes, old and new, could have left: nothing the log
    does not name, whatever the contents.
   */
  ghost predicate Mixed(a: Artifacts, names: Names, place: IndexKey -> string) {
    && a.nodes.Keys <= names.nodes
    && a.auth.Keys <= names.auth
    && a.manifests.Keys <= names.manifests
    && a.records.Keys <= names.records
    && (forall path, k :: path in a.buckets && k in a.buckets[path] ==> place(k) == path && k in names.keys)
  }

  // ---------------------------------------------------------------- replay catches up

  function IndexAt(a: Artifacts, place: IndexKey -> string, k: IndexKey): Option<IndexEntry> {
    Lookup(BucketOf(a, place(k)), k)
  }

  /** On the named keys `a` is what `l` is, and `l` holds no others. */
  ghost predicate CaughtMap<K(!new), V>(a: map<K, V>, l: map<K, V>, named: set<K>) {
    forall k :: if k in named then Lookup(a, k) == Lookup(l, k) else k !in l
  }

  ghost predicate CaughtIndex(a: Artifacts, index: map<IndexKey, IndexEntry>, named: set<IndexKey>,
                              place: IndexKey -> string) {
    forall k :: if k in named then IndexAt(a, place, k) == Lookup(index, k) else k !in index
  }

  /** Everything the log names so far is as its fold says. */
  ghost predicate Caught(a: Artifacts, l: Logical, names: Names, place: IndexKey -> string) {
    && CaughtMap(a.nodes, l.nodes, names.nodes)
    && CaughtMap(a.auth, l.auth, names.auth)
    && CaughtMap(a.manifests, l.manifests, names.manifests)
    && CaughtMap(a.records, l.records, names.records)
    && CaughtIndex(a, l.index, names.keys, place)
  }

  /** The store shows exactly the logical state. */
  ghost predicate Shows(a: Artifacts, l: Logical, place: IndexKey -> string) {
    && a.nodes == l.nodes && a.auth == l.auth && a.manifests == l.manifests
    && a.records == l.records && a.metadata == l.metadata
    && (forall k :: IndexAt(a, place, k) == Lookup(l.index, k))
    && (forall path, k :: path in a.buckets && k in a.buckets[path] ==> place(k) == path)
  }

  lemma CaughtMapStep<K(!new), V>(a: map<K, V>, l: map<K, V>, named: set<K>, dropped: set<K>, put: map<K, V>)
    requires CaughtMap(a, l, named)
    ensures CaughtMap((a - dropped) + put, (l - dropped) + put, named + (put.Keys + dropped))
  {
  }

  lemma CaughtMapPut<K(!new), V>(a: map<K, V>, l: map<K, V>, named: set<K>, put: map<K, V>)
    requires CaughtMap(a, l, named)
    ensures CaughtMap(a + put, l + put, named + put.Keys)
  {
  }

  lemma CaughtMapEnds<K(!new), V>(a: map<K, V>, l: map<K, V>, named: set<K>)
    requires CaughtMap(a, l, named) && a.Keys <= named
    ensures a == l
  {
    forall k ensures k in a <==> k in l {
      assert k in named ==> Lookup(a, k) == Lookup(l, k);
    }
    forall k | k in a ensures a[k] == l[k] {
      assert Lookup(a, k) == Lookup(l, k);
    }
  }

  // ---------------------------------------------------------------- manifests and the index

  ghost predicate Own(manifests: map<NodeId, seq<IndexKey>>) {
    forall n, k :: n in manifests && k in manifests[n] ==> k.node == n
  }

  predicate Listed(manifests: map<NodeId, seq<IndexKey>>, k: IndexKey) {
    k in ManifestOf(manifests, k.node)
  }

  /** In the fold, a key has an entry exactly when its node's manifest lists it. */
  ghost predicate ManifestsIndex(l: Logical) {
    Own(l.manifests) && forall k :: k in l.index <==> Listed(l.manifests, k)
  }

  lemma ManifestKeysListed(tx: Tx, k: IndexKey)
    requires WellFormed(tx)
    ensures k in ManifestKeys(tx) <==> Listed(tx.indexes, k)
    ensures k in ManifestKeys(tx) ==> k in tx.entries
  {
    if k in ManifestKeys(tx) {
      var n :| n in tx.indexes && k in tx.indexes[n];
      assert k.node == n;
    }
  }

  lemma FoldedIndex(l: Logical, tx: Tx)
    requires ManifestsIndex(l) && WellFormed(tx)
    ensures ManifestsIndex(Folded(l, tx))
  {
    var after := Folded(l, tx);
    assert Own(after.manifests) by {
      forall n, k | n in after.manifests && k in after.manifests[n] ensures k.node == n {
      }
    }
    forall k ensures k in after.index <==> Listed(after.manifests, k) {
      ManifestKeysListed(tx, k);
    }
  }

  lemma {:induction false} FoldIndexes(wal: seq<Payload>)
    requires Chained(wal)
    ensures ManifestsIndex(FoldedAll(wal))
    decreases |wal|
  {
    if wal != [] {
      var last := |wal| - 1;
      ChainedPrefix(wal, last);
      assert Follows(wal[..last], wal[last]);
      FoldIndexes(wal[..last]);
      FoldedIndex(FoldedAll(wal[..last]), wal[last].tx);
    }
  }

  lemma RemovalsOwned(manifests: map<NodeId, seq<IndexKey>>, tx: Tx, k: IndexKey)
    requires Own(manifests)
    ensures k in Removals(manifests, tx) <==> k.node in tx.indexes && Listed(manifests, k) && !Listed(tx.indexes, k)
  {
    if k in Removals(manifests, tx) {
      var n :| n in tx.indexes && k in ManifestOf(manifests, n) && k !in tx.indexes[n];
      assert n in manifests && k.node == n;
    }
  }

  /** Where a key's entry stands after a payload: rewritten, removed, or as before. */
  lemma IndexAfter(a: Artifacts, p: Payload, place: IndexKey -> string, k: IndexKey)
    ensures IndexAt(Materialized(a, p, place), place, k) ==
            if k in ManifestKeys(p.tx) && k in p.tx.entries then Some(p.tx.entries[k])
            else if k in p.removals then None
            else IndexAt(a, place, k)
  {
    var path := place(k);
    var after := BucketAfter(BucketOf(a, path), p, place, path);
    assert BucketOf(Materialized(a, p, place), path) == after by {
      if path !in a.buckets && path !in TouchedPaths(p, place) {
        assert after == map[];
      }
    }
  }

  lemma FoldedAt(l: Logical, tx: Tx, k: IndexKey)
    requires WellFormed(tx)
    ensures Lookup(Folded(l, tx).index, k) ==
            if Listed(tx.indexes, k) then Some(tx.entries[k])
            else if k.node in tx.indexes then None
            else Lookup(l.index, k)
  {
    ManifestKeysListed(tx, k);
  }

  /**
    The removals recorded with a payload make the index follow the manifests, whatever older entries
    lie around: a key the log named before is gone unless its node's manifest lists it.
   */
  lemma CaughtIndexStep(a: Artifacts, l: Logical, named: set<IndexKey>, p: Payload, place: IndexKey -> string)
    requires CaughtIndex(a, l.index, named, place) && ManifestsIndex(l) && WellFormed(p.tx)
    requires p.removals == Removals(l.manifests, p.tx)
    ensures CaughtIndex(Materialized(a, p, place), Folded(l, p.tx).index, named + ManifestKeys(p.tx), place)
  {
    forall k
      ensures if k in named + ManifestKeys(p.tx)
              then IndexAt(Materialized(a, p, place), place, k) == Lookup(Folded(l, p.tx).index, k)
              else k !in Folded(l, p.tx).index
    {
      IndexAfter(a, p, place, k);
      FoldedAt(l, p.tx, k);
      ManifestKeysListed(p.tx, k);
      RemovalsOwned(l.manifests, p.tx, k);
    }
  }

  lemma CaughtStep(a: Artifacts, l: Logical, names: Names, p: Payload, place: IndexKey -> string)
    requires Caught(a, l, names, place) && ManifestsIndex(l) && WellFormed(p.tx)
    requires p.removals == Removals(l.manifests, p.tx)
    ensures Caught(Materialized(a, p, place), Folded(l, p.tx), Both(names, NamesOf(p.tx)), place)
  {
    CaughtMapPut(a.nodes, l.nodes, names.nodes, p.tx.nodes);
    CaughtMapPut(a.auth, l.auth, names.auth, p.tx.auth);
    CaughtMapPut(a.manifests, l.manifests, names.manifests, p.tx.indexes);
    CaughtMapStep(a.records, l.records, names.records, p.tx.deleted, p.tx.records);
    CaughtIndexStep(a, l, names.keys, p, place);
  }

  lemma NothingCaught(a: Artifacts, place: IndexKey -> string)
    ensures Caught(a, EMPTY, Names({}, {}, {}, {}, {}), place)
  {
  }

  lemma FollowsStep(a: Artifacts, log: seq<Payload>, p: Payload, names: Names, place: IndexKey -> string)
    requires Caught(a, FoldedAll(log), names, place) && Chained(log) && Follows(log, p)
    ensures Caught(Materialized(a, p, place), Folded(FoldedAll(log), p.tx), Both(names, NamesOf(p.tx)), place)
  {
    FoldIndexes(log);
    CaughtStep(a, FoldedAll(log), names, p, place);
  }

  ghost predicate CaughtUp(a: Artifacts, wal: seq<Payload>, place: IndexKey -> string) {
    Caught(Replayed(a, wal, place), FoldedAll(wal), Named(wal), place)
  }

  lemma CaughtNext(a: Artifacts, wal: seq<Payload>, place: IndexKey -> string)
    requires Chained(wal) && wal != [] && CaughtUp(a, wal[..|wal| - 1], place)
    ensures CaughtUp(a, wal, place)
  {
    var front, last := wal[..|wal| - 1], wal[|wal| - 1];
    ChainedPrefix(wal, |wal| - 1);
    assert Follows(front, last);
    FollowsStep(Replayed(a, front, place), front, last, Named(front), place);
    assert Replayed(a, wal, place) == Materialized(Replayed(a, front, place), last, place);
    assert FoldedAll(wal) == Folded(FoldedAll(front), last.tx) && Named(wal) == Both(Named(front), NamesOf(last.tx));
  }

  lemma CaughtAtStart(a: Artifacts, wal: seq<Payload>, place: IndexKey -> string)
    requires wal == []
    ensures CaughtUp(a, wal, place)
  {
    NothingCaught(a, place);
    assert Replayed(a, wal, place) == a && FoldedAll(wal) == EMPTY && Named(wal) == Names({}, {}, {}, {}, {});
  }

  lemma {:induction false} CatchesUp(a: Artifacts, wal: seq<Payload>, place: IndexKey -> string)
    requires Chained(wal)
    ensures CaughtUp(a, wal, place)
    decreases |wal|
  {
    if wal == [] {
      CaughtAtStart(a, wal, place);
    } else {
      ChainedPrefix(wal, |wal| - 1);
      CatchesUp(a, wal[..|wal| - 1], place);
      CaughtNext(a, wal, place);
    }
  }

  /** After replay everything the log names is as its fold says, whatever was there before. */
  lemma ReplayCatchesUp(a: Artifacts, wal: seq<Payload>, place: IndexKey -> string)
    requires Chained(wal)
    ensures Caught(Replayed(a, wal, place), FoldedAll(wal), Named(wal), place)
  {
    CatchesUp(a, wal, place);
  }

  // ---------------------------------------------------------------- what partial writing can leave

  /** `b` is `a` with some of the drops and puts made. */
  ghost predicate PartMap<K(!new), V>(a: map<K, V>, b: map<K, V>, dropped: set<K>, put: map<K, V>) {
    forall k :: || Lookup(b, k) == Lookup(a, k)
                || (k in put && Lookup(b, k) == Some(put[k]))
                || (k in dropped && k !in b)
  }

  /** `b` is `a` with some of the writes of the payload made. */
  ghost predicate Partial(a: Artifacts, b: Artifacts, p: Payload, place: IndexKey -> string) {
    && PartMap(a.nodes, b.nodes, {}, p.tx.nodes)
    && PartMap(a.auth, b.auth, {}, p.tx.auth)
    && PartMap(a.manifests, b.manifests, {}, p.tx.indexes)
    && PartMap(a.records, b.records, p.tx.deleted, p.tx.records)
    && (forall path :: || Lookup(b.buckets, path) == Lookup(a.buckets, path)
                       || Lookup(b.buckets, path) == Lookup(BucketsAfter(a, p, place), path))
    && (b.metadata == a.metadata || b.metadata == Some(p.tx.metadata))
  }

  lemma PartMapAll<K(!new), V>(a: map<K, V>, dropped: set<K>, put: map<K, V>)
    ensures PartMap(a, (a - dropped) + put, dropped, put)
  {
  }

  lemma MaterializedIsPartial(a: Artifacts, p: Payload, place: IndexKey -> string)
    ensures Partial(a, Materialized(a, p, place), p, place)
  {
    PartMapAll(a.nodes, {}, p.tx.nodes);
    assert a.nodes - {} == a.nodes && a.auth - {} == a.auth && a.manifests - {} == a.manifests;
    PartMapAll(a.auth, {}, p.tx.auth);
    PartMapAll(a.manifests, {}, p.tx.indexes);
    PartMapAll(a.records, p.tx.deleted, p.tx.records);
  }

  ghost predicate Wrote<K(!new), V>(log: seq<Payload>, of: Payload -> map<K, V>, k: K, v: V) {
    exists i :: 0 <= i < |log| && k in of(log[i]) && of(log[i])[k] == v
  }

  function NodesOf(p: Payload): map<NodeId, NodeState> { p.tx.nodes }

  function AuthOf(p: Payload): map<NodeId, string> { p.tx.auth }

  function IndexesOf(p: Payload): map<NodeId, seq<IndexKey>> { p.tx.indexes }

  function RecordsOf(p: Payload): map<string, RecordEntry> { p.tx.records }

  function EntriesOf(p: Payload): map<IndexKey, IndexEntry> {
    map k | k in ManifestKeys(p.tx) && k in p.tx.entries :: p.tx.entries[k]
  }

  function MetadataOf(p: Payload): map<string, Metadata> { map["" := p.tx.metadata] }

  /** Every file is absent or holds something the log wrote there, however old. */
  ghost predicate FromLog(a: Artifacts, log: seq<Payload>, place: IndexKey -> string) {
    && (forall n :: n in a.nodes ==> Wrote(log, NodesOf, n, a.nodes[n]))
    && (forall n :: n in a.auth ==> Wrote(log, AuthOf, n, a.auth[n]))
    && (forall n :: n in a.manifests ==> Wrote(log, IndexesOf, n, a.manifests[n]))
    && (forall k :: k in a.records ==> Wrote(log, RecordsOf, k, a.records[k]))
    && (a.metadata.Some? ==> Wrote(log, MetadataOf, "", a.metadata.value))
    && (forall path, k :: path in a.buckets && k in a.buckets[path] ==>
          place(k) == path && Wrote(log, EntriesOf, k, a.buckets[path][k]))
  }

  lemma WroteMore<K(!new), V>(log: seq<Payload>, more: seq<Payload>, of: Payload -> map<K, V>, k: K, v: V)
    requires Wrote(log, of, k, v)
    ensures Wrote(log + more, of, k, v)
  {
    var i :| 0 <= i < |log| && k in of(log[i]) && of(log[i])[k] == v;
    assert (log + more)[i] == log[i];
  }

  lemma FromLogMore(a: Artifacts, log: seq<Payload>, more: seq<Payload>, place: IndexKey -> string)
    requires FromLog(a, log, place)
    ensures FromLog(a, log + more, place)
  {
    forall n | n in a.nodes ensures Wrote(log + more, NodesOf, n, a.nodes[n]) {
      WroteMore(log, more, NodesOf, n, a.nodes[n]);
    }
    forall n | n in a.auth ensures Wrote(log + more, AuthOf, n, a.auth[n]) {
      WroteMore(log, more, AuthOf, n, a.auth[n]);
    }
    forall n | n in a.manifests ensures Wrote(log + more, IndexesOf, n, a.manifests[n]) {
      WroteMore(log, more, IndexesOf, n, a.manifests[n]);
    }
    forall k | k in a.records ensures Wrote(log + more, RecordsOf, k, a.records[k]) {
      WroteMore(log, more, RecordsOf, k, a.records[k]);
    }
    if a.metadata.Some? {
      WroteMore(log, more, MetadataOf, "", a.metadata.value);
    }
    forall path, k | path in a.buckets && k in a.buckets[path]
      ensures Wrote(log + more, EntriesOf, k, a.buckets[path][k])
    {
      assert place(k) == path;
      WroteMore(log, more, EntriesOf, k, a.buckets[path][k]);
    }
  }

  lemma PartFromLog<K(!new), V>(a: map<K, V>, b: map<K, V>, dropped: set<K>, put: map<K, V>, log: seq<Payload>,
                                of: Payload -> map<K, V>, i: nat)
    requires i < |log| && of(log[i]) == put && PartMap(a, b, dropped, put)
    requires forall k :: k in a ==> Wrote(log, of, k, a[k])
    ensures forall k :: k in b ==> Wrote(log, of, k, b[k])
  {
    forall k | k in b ensures Wrote(log, of, k, b[k]) {
      if Lookup(b, k) != Lookup(a, k) {
        assert k in of(log[i]) && of(log[i])[k] == b[k];
      } else {
        assert k in a && a[k] == b[k];
      }
    }
  }

  lemma BucketsFromLog(a: Artifacts, b: Artifacts, log: seq<Payload>, i: nat, place: IndexKey -> string)
    requires i < |log| && FromLog(a, log, place) && Partial(a, b, log[i], place)
    ensures forall path, k :: path in b.buckets && k in b.buckets[path] ==>
              place(k) == path && Wrote(log, EntriesOf, k, b.buckets[path][k])
  {
    forall path, k | path in b.buckets && k in b.buckets[path]
      ensures place(k) == path && Wrote(log, EntriesOf, k, b.buckets[path][k])
    {
      if Lookup(b.buckets, path) == Lookup(a.buckets, path) {
        assert path in a.buckets && a.buckets[path] == b.buckets[path];
      } else {
        var after := BucketAfter(BucketOf(a, path), log[i], place, path);
        assert Lookup(BucketsAfter(a, log[i], place), path) == Some(b.buckets[path]);
        assert b.buckets[path] == after;
        if k in EntriesOf(log[i]) && place(k) == path {
          assert after[k] == EntriesOf(log[i])[k];
        } else {
          assert k in BucketOf(a, path) && after[k] == BucketOf(a, path)[k];
        }
      }
    }
  }

  /** Writing any part of a logged payload keeps every file a product of the log. */
  lemma PartialFromLog(a: Artifacts, b: Artifacts, log: seq<Payload>, i: nat, place: IndexKey -> string)
    requires i < |log| && FromLog(a, log, place) && Partial(a, b, log[i], place)
    ensures FromLog(b, log, place)
  {
    var p := log[i];
    PartFromLog(a.nodes, b.nodes, {}, p.tx.nodes, log, NodesOf, i);
    PartFromLog(a.auth, b.auth, {}, p.tx.auth, log, AuthOf, i);
    PartFromLog(a.manifests, b.manifests, {}, p.tx.indexes, log, IndexesOf, i);
    PartFromLog(a.records, b.records, p.tx.deleted, p.tx.records, log, RecordsOf, i);
    BucketsFromLog(a, b, log, i, place);
    if b.metadata == Some(p.tx.metadata) {
      assert "" in MetadataOf(log[i]) && MetadataOf(log[i])[""] == p.tx.metadata;
    }
  }

  lemma {:induction false} ReplayedFromLog(a: Artifacts, log: seq<Payload>, i: nat, place: IndexKey -> string)
    requires i <= |log| && FromLog(a, log, place)
    ensures FromLog(Replayed(a, log[..i], place), log, place)
    decreases i
  {
    if i > 0 {
      ReplayedFromLog(a, log, i - 1, place);
      var before := Replayed(a, log[..i - 1], place);
      assert log[..i][..i - 1] == log[..i - 1];
      MaterializedIsPartial(before, log[i - 1], place);
      PartialFromLog(before, Materialized(before, log[i - 1], place), log, i - 1, place);
    } else {
      assert log[..0] == [];
    }
  }

  // ---------------------------------------------------------------- recovery is exact

  lemma {:induction false} WroteNamed(log: seq<Payload>, i: nat)
    requires i < |log|
    ensures var names := Named(log); var tx := log[i].tx;
            && tx.nodes.Keys <= names.nodes && tx.auth.Keys <= names.auth && tx.indexes.Keys <= names.manifests
            && tx.records.Keys <= names.records && ManifestKeys(tx) <= names.keys
    decreases |log|
  {
    if i < |log| - 1 {
      WroteNamed(log[..|log| - 1], i);
    }
  }

  lemma FromLogIsMixed(a: Artifacts, log: seq<Payload>, place: IndexKey -> string)
    requires FromLog(a, log, place)
    ensures Mixed(a, Named(log), place)
  {
    forall i | 0 <= i < |log|
      ensures var names := Named(log); var tx := log[i].tx;
              && tx.nodes.Keys <= names.nodes && tx.auth.Keys <= names.auth && tx.indexes.Keys <= names.manifests
              && tx.records.Keys <= names.records && ManifestKeys(tx) <= names.keys
    {
      WroteNamed(log, i);
    }
    forall path, k | path in a.buckets && k in a.buckets[path] ensures place(k) == path && k in Named(log).keys {
      assert place(k) == path;
      assert Wrote(log, EntriesOf, k, a.buckets[path][k]);
      var i :| 0 <= i < |log| && k in EntriesOf(log[i]) && EntriesOf(log[i])[k] == a.buckets[path][k];
    }
  }

  lemma CaughtShows(a: Artifacts, l: Logical, names: Names, place: IndexKey -> string)
    requires Caught(a, l, names, place) && Mixed(a, names, place) && a.metadata == l.metadata
    ensures Shows(a, l, place)
  {
    CaughtMapEnds(a.nodes, l.nodes, names.nodes);
    CaughtMapEnds(a.auth, l.auth, names.auth);
    CaughtMapEnds(a.manifests, l.manifests, names.manifests);
    CaughtMapEnds(a.records, l.records, names.records);
    forall k ensures IndexAt(a, place, k) == Lookup(l.index, k) {
      if k !in names.keys {
        assert IndexAt(a, place, k) == None;
      }
    }
  }

  lemma {:induction false} ReplayedMetadata(a: Artifacts, log: seq<Payload>, place: IndexKey -> string)
    requires log == [] ==> a.metadata == None
    ensures Replayed(a, log, place).metadata == FoldedAll(log).metadata
  {
  }

  lemma RecoveredFromLog(a: Artifacts, log: seq<Payload>, place: IndexKey -> string)
    requires FromLog(a, log, place)
    ensures FromLog(Replayed(a, log, place), log, place)
  {
    ReplayedFromLog(a, log, |log|, place);
    assert log[..|log|] == log;
  }

  /**
    Replaying the log from any mixture of older artifacts leaves exactly the fold of its transactions.
   */
  lemma RecoveryIsExact(a: Artifacts, log: seq<Payload>, place: IndexKey -> string)
    requires Chained(log) && FromLog(a, log, place)
    ensures Shows(Replayed(a, log, place), FoldedAll(log), place)
  {
    ReplayCatchesUp(a, log, place);
    RecoveredFromLog(a, log, place);
    FromLogIsMixed(Replayed(a, log, place), log, place);
    assert log == [] ==> a.metadata == None;
    ReplayedMetadata(a, log, place);
    CaughtShows(Replayed(a, log, place), FoldedAll(log), Named(log), place);
  }

  // ---------------------------------------------------------------- runs

  /** The log on disk, in order of transaction ids; a record is pending, final, or briefly both. */
  ghost predicate IsLog(d: Disk, log: seq<Payload>) {
    && (forall i :: 0 <= i < |log| ==> log[i].tx.id in d.pending || log[i].tx.id in d.final)
    && (forall id :: id in d.pending ==> Recorded(log, id, d.pending[id]))
    && (forall id :: id in d.final ==> Recorded(log, id, d.final[id]))
  }

  ghost predicate Recorded(log: seq<Payload>, id: nat, p: Payload) {
    p.tx.id == id && p in log
  }

  /** A store, the payloads whose log records were written, and whether it is open. */
  datatype System = System(disk: Disk, log: seq<Payload>, up: bool)

  datatype Event = Commit(tx: Tx) | Recover | PowerLoss

  function NextId(a: Artifacts): nat {
    if a.metadata.Some? && a.metadata.value.nextTxId > 1 then a.metadata.value.nextTxId else 1
  }

  /** The next id is one more than the last in the log, and 1 for an empty store. */
  lemma NextIdFollows(a: Artifacts, log: seq<Payload>, place: IndexKey -> string)
    requires Chained(log) && Shows(a, FoldedAll(log), place)
    ensures NextId(a) == if log == [] then 1 else log[|log| - 1].tx.id + 1
  {
    if log != [] {
      assert Follows(log[..|log| - 1], log[|log| - 1]);
    }
  }

  /** A commit stops before its log record, after some part of its writes, or completes. */
  ghost predicate Commits(d: Disk, d': Disk, p: Payload, logged: bool, done: bool, place: IndexKey -> string) {
    if !logged then d' == d && !done
    else if done then
      d' == Disk(Materialized(d.arts, p, place), d.pending - {p.tx.id}, d.final[p.tx.id := p])
    else
      d'.pending == d.pending[p.tx.id := p] && d'.final == d.final && Partial(d.arts, d'.arts, p, place)
  }

  /** Recovery replays the log it finds, completely or up to some part of one payload. */
  ghost predicate Recovers(d: Disk, d': Disk, log: seq<Payload>, done: bool, place: IndexKey -> string) {
    && IsLog(d', log)
    && if done then d'.arts == Replayed(d.arts, log, place)
       else exists i :: 0 <= i < |log| && Partial(Replayed(d.arts, log[..i], place), d'.arts, log[i], place)
  }

  ghost predicate Step(s: System, e: Event, s': System, place: IndexKey -> string) {
    match e
    case Commit(tx) =>
      && s.up && WellFormed(tx) && tx.id == NextId(s.disk.arts)
      && var p := Payload(tx, Removals(s.disk.arts.manifests, tx));
         exists logged :: Commits(s.disk, s'.disk, p, logged, s'.up, place) &&
           s'.log == if logged then s.log + [p] else s.log
    case Recover =>
      s'.log == s.log && Recovers(s.disk, s'.disk, s.log, s'.up, place)
    case PowerLoss =>
      s'.log == s.log && !s'.up && IsLog(s'.disk, s.log) && FromLog(s'.disk.arts, s.log, place)
  }

  ghost predicate Steps(s: System, s': System, place: IndexKey -> string) {
    exists e :: Step(s, e, s', place)
  }

  ghost predicate Run(trace: seq<System>, place: IndexKey -> string) {
    && |trace| > 0 && trace[0] == System(EMPTY_DISK, [], false)
    && forall i :: 0 <= i < |trace| - 1 ==> Steps(trace[i], trace[i + 1], place)
  }

  /** What every step keeps. */
  ghost predicate Safe(s: System, place: IndexKey -> string) {
    && IsLog(s.disk, s.log) && Chained(s.log) && FromLog(s.disk.arts, s.log, place)
    && (s.up ==> Shows(s.disk.arts, FoldedAll(s.log), place))
  }

  lemma ShowsCaught(a: Artifacts, l: Logical, names: Names, place: IndexKey -> string)
    requires Shows(a, l, place) && Mixed(a, names, place)
    ensures Caught(a, l, names, place)
  {
    forall k ensures if k in names.keys then IndexAt(a, place, k) == Lookup(l.index, k) else k !in l.index {
      assert IndexAt(a, place, k) == Lookup(l.index, k);
      if IndexAt(a, place, k).Some? {
        assert place(k) in a.buckets && k in a.buckets[place(k)];
      }
    }
  }

  /** The payload of a commit on an up-to-date store continues the log. */
  lemma CommitFollows(s: System, tx: Tx, place: IndexKey -> string)
    requires Safe(s, place) && s.up && WellFormed(tx) && tx.id == NextId(s.disk.arts)
    ensures Follows(s.log, Payload(tx, Removals(s.disk.arts.manifests, tx)))
  {
    if s.log != [] {
      var last := s.log[|s.log| - 1];
      assert FoldedAll(s.log).metadata == Some(last.tx.metadata);
      assert Follows(s.log[..|s.log| - 1], last);
    }
  }

  lemma CommitShows(a: Artifacts, log: seq<Payload>, p: Payload, place: IndexKey -> string)
    requires Chained(log) && FromLog(a, log, place) && Shows(a, FoldedAll(log), place) && Follows(log, p)
    ensures Shows(Materialized(a, p, place), FoldedAll(log + [p]), place)
    ensures FromLog(Materialized(a, p, place), log + [p], place)
  {
    var after, more := Materialized(a, p, place), log + [p];
    assert more[..|log|] == log && more[|log|] == p;
    FromLogMore(a, log, [p], place);
    MaterializedIsPartial(a, p, place);
    PartialFromLog(a, after, more, |log|, place);
    FromLogIsMixed(after, more, place);
    FromLogIsMixed(a, log, place);
    ShowsCaught(a, FoldedAll(log), Named(log), place);
    FollowsStep(a, log, p, Named(log), place);
    CaughtShows(after, FoldedAll(more), Named(more), place);
  }

  lemma IsLogAppend(d: Disk, log: seq<Payload>, p: Payload)
    requires IsLog(d, log) && forall i :: 0 <= i < |log| ==> log[i].tx.id < p.tx.id
    ensures IsLog(d.(pending := d.pending[p.tx.id := p]), log + [p])
    ensures IsLog(d.(pending := d.pending - {p.tx.id}, final := d.final[p.tx.id := p]), log + [p])
  {
    assert forall q :: q in log + [p] <==> q in log || q == p;
    forall i | 0 <= i < |log + [p]|
      ensures (log + [p])[i].tx.id in d.pending || (log + [p])[i].tx.id in d.final || (log + [p])[i].tx.id == p.tx.id
      ensures i < |log| ==> (log + [p])[i].tx.id != p.tx.id
    {
      if i < |log| {
        assert (log + [p])[i] == log[i];
      }
    }
  }

  lemma {:induction false} IdBelow(log: seq<Payload>, i: nat, j: nat)
    requires Chained(log) && i < j < |log|
    ensures log[i].tx.id < log[j].tx.id
    decreases j
  {
    assert Follows(log[..j], log[j]);
    assert log[..j][|log[..j]| - 1] == log[j - 1];
    if i < j - 1 {
      IdBelow(log, i, j - 1);
    }
  }

  lemma IdsBelow(log: seq<Payload>, p: Payload)
    requires Chained(log) && Follows(log, p)
    ensures forall i :: 0 <= i < |log| ==> log[i].tx.id < p.tx.id
  {
    var last := |log| - 1;
    assert log != [] ==> log[last].tx.id < p.tx.id;
    forall i | 0 <= i < |log| ensures log[i].tx.id < p.tx.id {
      assert log[last].tx.id < p.tx.id;
      if i < last {
        IdBelow(log, i, last);
        assert log[i].tx.id < log[last].tx.id;
      } else {
        assert i == last;
      }
    }
  }

  /** A commit whose log record was written. */
  lemma LoggedSafe(s: System, p: Payload, s': System, place: IndexKey -> string)
    requires Safe(s, place) && s.up && Follows(s.log, p)
    requires Commits(s.disk, s'.disk, p, true, s'.up, place) && s'.log == s.log + [p]
    ensures Safe(s', place)
  {
    ChainedExtend(s.log, p);
    IdsBelow(s.log, p);
    IsLogAppend(s.disk, s.log, p);
    if s'.up {
      CommitShows(s.disk.arts, s.log, p, place);
    } else {
      CutFromLog(s.disk.arts, s'.disk.arts, s.log, p, place);
    }
  }

  lemma CutFromLog(a: Artifacts, b: Artifacts, log: seq<Payload>, p: Payload, place: IndexKey -> string)
    requires FromLog(a, log, place) && Partial(a, b, p, place)
    ensures FromLog(b, log + [p], place)
  {
    FromLogMore(a, log, [p], place);
    assert (log + [p])[|log|] == p;
    PartialFromLog(a, b, log + [p], |log|, place);
  }

  lemma CommitSafe(s: System, tx: Tx, s': System, place: IndexKey -> string)
    requires Safe(s, place) && Step(s, Commit(tx), s', place)
    ensures Safe(s', place)
  {
    var p := Payload(tx, Removals(s.disk.arts.manifests, tx));
    var logged :| Commits(s.disk, s'.disk, p, logged, s'.up, place) && s'.log == if logged then s.log + [p] else s.log;
    if logged {
      CommitFollows(s, tx, place);
      LoggedSafe(s, p, s', place);
    }
  }

  lemma RecoveredSafe(s: System, s': System, place: IndexKey -> string)
    requires Safe(s, place) && Step(s, Recover, s', place) && s'.up
    ensures Safe(s', place)
  {
    RecoveryIsExact(s.disk.arts, s.log, place);
    RecoveredFromLog(s.disk.arts, s.log, place);
    assert s'.disk.arts == Replayed(s.disk.arts, s.log, place);
  }

  lemma RecoverSafe(s: System, s': System, place: IndexKey -> string)
    requires Safe(s, place) && Step(s, Recover, s', place)
    ensures Safe(s', place)
  {
    if s'.up {
      RecoveredSafe(s, s', place);
    } else {
      var i :| 0 <= i < |s.log| && Partial(Replayed(s.disk.arts, s.log[..i], place), s'.disk.arts, s.log[i], place);
      ReplayedFromLog(s.disk.arts, s.log, i, place);
      PartialFromLog(Replayed(s.disk.arts, s.log[..i], place), s'.disk.arts, s.log, i, place);
    }
  }

  lemma StepSafe(s: System, e: Event, s': System, place: IndexKey -> string)
    requires Safe(s, place) && Step(s, e, s', place)
    ensures Safe(s', place)
    ensures s.log <= s'.log
  {
    match e
    case Commit(tx) => CommitSafe(s, tx, s', place);
    case Recover => RecoverSafe(s, s', place);
    case PowerLoss =>
  }

  lemma RunFront(trace: seq<System>, place: IndexKey -> string)
    requires Run(trace, place) && |trace| > 1
    ensures Run(trace[..|trace| - 1], place)
    ensures Steps(trace[|trace| - 2], trace[|trace| - 1], place)
  {
    var front := trace[..|trace| - 1];
    forall i | 0 <= i < |front| - 1 ensures Steps(front[i], front[i + 1], place) {
      assert Steps(trace[i], trace[i + 1], place);
    }
    assert Steps(trace[|trace| - 2], trace[|trace| - 2 + 1], place);
  }

  lemma StepsSafe(s: System, s': System, place: IndexKey -> string)
    requires Safe(s, place) && Steps(s, s', place)
    ensures Safe(s', place) && s.log <= s'.log
  {
    var e :| Step(s, e, s', place);
    StepSafe(s, e, s', place);
  }

  lemma InitiallySafe(place: IndexKey -> string)
    ensures Safe(System(EMPTY_DISK, [], false), place)
  {
  }

  /**
    Crash recovery: in every run of commits, recoveries and power losses, each of which may stop
    anywhere, the log only grows, and whenever the store is open it shows exactly the fold, in id
    order, of the transactions whose log records were written.
   */
  lemma {:induction false} CrashRecovery(trace: seq<System>, i: nat, place: IndexKey -> string)
    requires Run(trace, place) && i < |trace|
    ensures var s := trace[|trace| - 1];
            && IsLog(s.disk, s.log) && trace[i].log <= s.log
            && (s.up ==> Shows(s.disk.arts, FoldedAll(s.log), place))
    ensures Safe(trace[|trace| - 1], place)
    decreases |trace|
  {
    if |trace| == 1 {
      InitiallySafe(place);
    } else {
      var front := trace[..|trace| - 1];
      RunFront(trace, place);
      CrashRecovery(front, if i < |front| then i else 0, place);
      StepsSafe(front[|front| - 1], trace[|trace| - 1], place);
    }
  }

  // ---------------------------------------------------------------- retrying without reopening

  /**
    A commit that fails without a crash is retried on the open store, under the same id, as another
    transaction: with operations queued it holds the nodes they touch, without it holds all nodes in
    memory, so that it may write more or fewer files than the first attempt. It reads the manifests
    it finds, some of which the first attempt rewrote.
   */
  ghost predicate Retries(log: seq<Payload>, first: Payload, seen: map<NodeId, seq<IndexKey>>, p: Payload) {
    && Chained(log) && Follows(log, first) && WellFormed(p.tx) && p.tx.id == first.tx.id
    && PartMap(FoldedAll(log).manifests, seen, {}, first.tx.indexes) && p.removals == Removals(seen, p.tx)
  }

  /** A key the retry makes obsolete but does not record, because its manifest was already rewritten. */
  predicate Lost(log: seq<Payload>, p: Payload, k: IndexKey) {
    k in Removals(FoldedAll(log).manifests, p.tx) && k !in p.removals
  }

  /** An entry on disk that only the first attempt wrote and the retry neither writes nor removes. */
  predicate Stray(a: Artifacts, log: seq<Payload>, p: Payload, place: IndexKey -> string, k: IndexKey) {
    IndexAt(a, place, k).Some? && k !in Named(log).keys && !Listed(p.tx.indexes, k) && k !in p.removals
  }

  ghost predicate Intact(a: Artifacts, log: seq<Payload>, p: Payload, place: IndexKey -> string) {
    forall k :: !Lost(log, p, k) && !Stray(a, log, p, place, k)
  }

  lemma SeenOwn(log: seq<Payload>, first: Payload, seen: map<NodeId, seq<IndexKey>>, p: Payload)
    requires Retries(log, first, seen, p)
    ensures Own(seen)
  {
    FoldIndexes(log);
    PartOwn(FoldedAll(log).manifests, seen, first.tx);
  }

  lemma PartOwn(before: map<NodeId, seq<IndexKey>>, seen: map<NodeId, seq<IndexKey>>, first: Tx)
    requires Own(before) && WellFormed(first) && PartMap(before, seen, {}, first.indexes)
    ensures Own(seen)
  {
    forall n, k | n in seen && k in seen[n] ensures k.node == n {
      if Lookup(seen, n) == Lookup(before, n) {
        assert n in before && before[n] == seen[n];
      } else {
        assert seen[n] == first.indexes[n];
      }
    }
  }

  /** A payload leaves alone an entry it does not name and the index does not hold. */
  lemma StepKeeps(a: Artifacts, l: Logical, p: Payload, place: IndexKey -> string, k: IndexKey)
    requires ManifestsIndex(l) && WellFormed(p.tx) && p.removals == Removals(l.manifests, p.tx)
    requires k !in l.index && k !in ManifestKeys(p.tx)
    ensures IndexAt(Materialized(a, p, place), place, k) == IndexAt(a, place, k) && k !in Folded(l, p.tx).index
  {
    RemovalsOwned(l.manifests, p.tx, k);
    IndexAfter(a, p, place, k);
  }

  lemma RecoveredLast(a: Artifacts, log: seq<Payload>, p: Payload, place: IndexKey -> string)
    ensures Replayed(a, log + [p], place) == Materialized(Replayed(a, log, place), p, place)
    ensures FoldedAll(log + [p]) == Folded(FoldedAll(log), p.tx)
  {
    assert (log + [p])[..|log|] == log && (log + [p])[|log|] == p;
  }

  lemma FollowKeeps(a: Artifacts, log: seq<Payload>, p: Payload, place: IndexKey -> string, k: IndexKey)
    requires Chained(log) && Follows(log, p) && k !in FoldedAll(log).index && k !in ManifestKeys(p.tx)
    ensures IndexAt(Materialized(a, p, place), place, k) == IndexAt(a, place, k) &&
            k !in Folded(FoldedAll(log), p.tx).index
  {
    FoldIndexes(log);
    StepKeeps(a, FoldedAll(log), p, place, k);
  }

  lemma UnnamedIsAbsent(log: seq<Payload>, place: IndexKey -> string, k: IndexKey)
    requires Chained(log) && k !in Named(log).keys
    ensures k !in FoldedAll(log).index
  {
    ReplayCatchesUp(EMPTY_DISK.arts, log, place);
  }

  /** Replay leaves alone the entries of keys its log does not name. */
  lemma {:induction false} ReplayKeeps(a: Artifacts, log: seq<Payload>, place: IndexKey -> string, k: IndexKey)
    requires Chained(log) && k !in Named(log).keys
    ensures IndexAt(Replayed(a, log, place), place, k) == IndexAt(a, place, k)
    decreases |log|
  {
    if log != [] {
      var front, last := log[..|log| - 1], log[|log| - 1];
      ReplayKeepsFront(log, k);
      ReplayKeeps(a, front, place, k);
      UnnamedIsAbsent(front, place, k);
      FollowKeeps(Replayed(a, front, place), front, last, place, k);
      assert Replayed(a, log, place) == Materialized(Replayed(a, front, place), last, place);
    }
  }

  lemma ReplayKeepsFront(log: seq<Payload>, k: IndexKey)
    requires Chained(log) && log != [] && k !in Named(log).keys
    ensures Chained(log[..|log| - 1]) && Follows(log[..|log| - 1], log[|log| - 1])
    ensures k !in Named(log[..|log| - 1]).keys && k !in ManifestKeys(log[|log| - 1].tx)
  {
    ChainedPrefix(log, |log| - 1);
    assert Named(log) == Both(Named(log[..|log| - 1]), NamesOf(log[|log| - 1].tx));
  }

  /** One key after recovery: right unless lost or stray. */
  lemma RetryAt(a: Artifacts, log: seq<Payload>, first: Payload, seen: map<NodeId, seq<IndexKey>>, p: Payload,
                place: IndexKey -> string, k: IndexKey)
    requires Retries(log, first, seen, p)
    ensures IndexAt(Materialized(Replayed(a, log, place), p, place), place, k) ==
            Lookup(Folded(FoldedAll(log), p.tx).index, k)
            <==> !Lost(log, p, k) && !Stray(a, log, p, place, k)
  {
    var l, x := FoldedAll(log), Replayed(a, log, place);
    SeenOwn(log, first, seen, p);
    FoldIndexes(log);
    RemovalsOwned(l.manifests, p.tx, k);
    RemovalsOwned(seen, p.tx, k);
    ManifestKeysListed(p.tx, k);
    IndexAfter(x, p, place, k);
    FoldedAt(l, p.tx, k);
    if k in Named(log).keys {
      ReplayCatchesUp(a, log, place);
      assert IndexAt(x, place, k) == Lookup(l.index, k);
    } else {
      ReplayKeeps(a, log, place, k);
      UnnamedIsAbsent(log, place, k);
    }
  }

  /** The files that replaying the log and the retry rewrites. */
  function Rewritten(log: seq<Payload>, p: Payload): Names {
    Both(Named(log), NamesOf(p.tx))
  }

  /** What lies on disk after the retry comes from the log, the first attempt or the retry. */
  lemma RetryFromLog(a: Artifacts, log: seq<Payload>, first: Payload, p: Payload, place: IndexKey -> string)
    requires FromLog(a, log + [first, p], place)
    ensures FromLog(Materialized(Replayed(a, log, place), p, place), log + [first, p], place)
    ensures FromLog(Materialized(a, p, place), log + [first, p], place)
  {
    var ext, x := log + [first, p], Replayed(a, log, place);
    assert ext[..|log|] == log && ext[|log| + 1] == p;
    ReplayedFromLog(a, ext, |log|, place);
    MaterializedIsPartial(x, p, place);
    PartialFromLog(x, Materialized(x, p, place), ext, |log| + 1, place);
    MaterializedIsPartial(a, p, place);
    PartialFromLog(a, Materialized(a, p, place), ext, |log| + 1, place);
  }

  /** Every file on disk is one that the log or the retry rewrites. */
  ghost predicate NoStrayFile(a: Artifacts, log: seq<Payload>, p: Payload) {
    var names := Rewritten(log, p);
    && a.nodes.Keys <= names.nodes && a.auth.Keys <= names.auth
    && a.manifests.Keys <= names.manifests && a.records.Keys <= names.records
  }

  /** A map that is right on the named keys is right if and only if it holds no others. */
  lemma CaughtMapExact<K(!new), V>(a: map<K, V>, l: map<K, V>, named: set<K>)
    requires CaughtMap(a, l, named)
    ensures a == l <==> a.Keys <= named
  {
    if a.Keys <= named {
      CaughtMapEnds(a, l, named);
    }
    if a == l {
      forall k | k in a ensures k in named {
        assert Lookup(a, k) == Lookup(l, k);
      }
    }
  }

  /** Keys outside `named` are as they were. */
  ghost predicate KeptMap<K(!new), V>(a: map<K, V>, b: map<K, V>, named: set<K>) {
    forall k :: k !in named ==> (k in b <==> k in a)
  }

  lemma KeptMapExact<K(!new), V>(a: map<K, V>, b: map<K, V>, named: set<K>)
    requires KeptMap(a, b, named)
    ensures a.Keys <= named <==> b.Keys <= named
  {
  }

  ghost predicate KeptFiles(a: Artifacts, b: Artifacts, names: Names) {
    && KeptMap(a.nodes, b.nodes, names.nodes) && KeptMap(a.auth, b.auth, names.auth)
    && KeptMap(a.manifests, b.manifests, names.manifests) && KeptMap(a.records, b.records, names.records)
  }

  lemma MaterializedKeeps(a: Artifacts, b: Artifacts, names: Names, p: Payload, place: IndexKey -> string)
    requires KeptFiles(a, b, names)
    ensures KeptFiles(a, Materialized(b, p, place), Both(names, NamesOf(p.tx)))
  {
  }

  /** Replay leaves alone the files its log does not name. */
  lemma {:induction false} ReplayKeepsFiles(a: Artifacts, log: seq<Payload>, place: IndexKey -> string)
    ensures KeptFiles(a, Replayed(a, log, place), Named(log))
    decreases |log|
  {
    if log != [] {
      var front, last := log[..|log| - 1], log[|log| - 1];
      ReplayKeepsFiles(a, front, place);
      MaterializedKeeps(a, Replayed(a, front, place), Named(front), last, place);
    }
  }

  ghost predicate SameFiles(a: Artifacts, l: Logical) {
    a.nodes == l.nodes && a.auth == l.auth && a.manifests == l.manifests && a.records == l.records
  }

  lemma RetryCaught(a: Artifacts, log: seq<Payload>, p: Payload, place: IndexKey -> string)
    requires Chained(log)
    ensures var y, l := Materialized(Replayed(a, log, place), p, place), Folded(FoldedAll(log), p.tx);
            var names := Rewritten(log, p);
            && CaughtMap(y.nodes, l.nodes, names.nodes) && CaughtMap(y.auth, l.auth, names.auth)
            && CaughtMap(y.manifests, l.manifests, names.manifests) && CaughtMap(y.records, l.records, names.records)
  {
    var l, x, names := FoldedAll(log), Replayed(a, log, place), Named(log);
    ReplayCatchesUp(a, log, place);
    CaughtMapPut(x.nodes, l.nodes, names.nodes, p.tx.nodes);
    CaughtMapPut(x.auth, l.auth, names.auth, p.tx.auth);
    CaughtMapPut(x.manifests, l.manifests, names.manifests, p.tx.indexes);
    CaughtMapStep(x.records, l.records, names.records, p.tx.deleted, p.tx.records);
  }

  /** Files other than the index are recovered if and only if each is rewritten by the log or the retry. */
  lemma RetryFiles(a: Artifacts, log: seq<Payload>, p: Payload, place: IndexKey -> string)
    requires Chained(log)
    ensures SameFiles(Materialized(Replayed(a, log, place), p, place), Folded(FoldedAll(log), p.tx))
            <==> NoStrayFile(a, log, p)
  {
    var y, l, names := Materialized(Replayed(a, log, place), p, place), Folded(FoldedAll(log), p.tx), Rewritten(log, p);
    RetryCaught(a, log, p, place);
    CaughtMapExact(y.nodes, l.nodes, names.nodes);
    CaughtMapExact(y.auth, l.auth, names.auth);
    CaughtMapExact(y.manifests, l.manifests, names.manifests);
    CaughtMapExact(y.records, l.records, names.records);
    ReplayKeepsFiles(a, log, place);
    MaterializedKeeps(a, Replayed(a, log, place), Named(log), p, place);
    KeptMapExact(a.nodes, y.nodes, names.nodes);
    KeptMapExact(a.auth, y.auth, names.auth);
    KeptMapExact(a.manifests, y.manifests, names.manifests);
    KeptMapExact(a.records, y.records, names.records);
  }

  ghost predicate SameIndex(a: Artifacts, l: Logical, place: IndexKey -> string) {
    forall k :: IndexAt(a, place, k) == Lookup(l.index, k)
  }

  lemma RetryIndex(a: Artifacts, log: seq<Payload>, first: Payload, seen: map<NodeId, seq<IndexKey>>, p: Payload,
                   place: IndexKey -> string)
    requires Retries(log, first, seen, p)
    ensures SameIndex(Materialized(Replayed(a, log, place), p, place), Folded(FoldedAll(log), p.tx), place)
            <==> Intact(a, log, p, place)
  {
    var y, l := Materialized(Replayed(a, log, place), p, place), Folded(FoldedAll(log), p.tx);
    if SameIndex(y, l, place) {
      forall k ensures !Lost(log, p, k) && !Stray(a, log, p, place, k) {
        RetryAt(a, log, first, seen, p, place, k);
      }
    }
    if Intact(a, log, p, place) {
      forall k ensures IndexAt(y, place, k) == Lookup(l.index, k) {
        RetryAt(a, log, first, seen, p, place, k);
      }
    }
  }

  lemma RetryMaterialized(a: Artifacts, log: seq<Payload>, first: Payload, seen: map<NodeId, seq<IndexKey>>, p: Payload,
                          place: IndexKey -> string)
    requires Retries(log, first, seen, p) && FromLog(a, log + [first, p], place)
    ensures Shows(Materialized(Replayed(a, log, place), p, place), Folded(FoldedAll(log), p.tx), place)
            <==> Intact(a, log, p, place) && NoStrayFile(a, log, p)
  {
    RetryFiles(a, log, p, place);
    RetryIndex(a, log, first, seen, p, place);
    RetryFromLog(a, log, first, p, place);
    ShowsParts(Materialized(Replayed(a, log, place), p, place), Folded(FoldedAll(log), p.tx), log + [first, p], place);
  }

  /** What a store shows: its files, its metadata and its index. */
  lemma ShowsParts(a: Artifacts, l: Logical, from: seq<Payload>, place: IndexKey -> string)
    requires FromLog(a, from, place) && a.metadata == l.metadata
    ensures Shows(a, l, place) <==> SameFiles(a, l) && SameIndex(a, l, place)
  {
  }

  /**
    Recovery after a retry, from whatever of the log, the first attempt and the retry is on disk, is
    exact if and only if the retry records every removal, and the first attempt left no stray entry
    and no file that neither the log nor the retry writes.
   */
  lemma RetryIsExact(a: Artifacts, log: seq<Payload>, first: Payload, seen: map<NodeId, seq<IndexKey>>, p: Payload,
                     place: IndexKey -> string)
    requires Retries(log, first, seen, p) && FromLog(a, log + [first, p], place)
    ensures Shows(Replayed(a, log + [p], place), FoldedAll(log + [p]), place)
            <==> Intact(a, log, p, place) && NoStrayFile(a, log, p)
  {
    RetryMaterialized(a, log, first, seen, p, place);
    RecoveredLast(a, log, p, place);
  }

  /** An entry on disk is listed by the log, the first attempt or the retry. */
  lemma EntryIsNamed(a: Artifacts, log: seq<Payload>, first: Payload, p: Payload, place: IndexKey -> string,
                     k: IndexKey)
    requires FromLog(a, log + [first, p], place) && IndexAt(a, place, k).Some?
    ensures k in Named(log).keys || k in ManifestKeys(first.tx) || k in ManifestKeys(p.tx)
  {
    var ext := log + [first, p];
    assert Wrote(ext, EntriesOf, k, a.buckets[place(k)][k]);
    var i :| 0 <= i < |ext| && k in EntriesOf(ext[i]);
    if i < |log| {
      WroteNamed(log, i);
    }
  }

  lemma SameIsNotStray(a: Artifacts, log: seq<Payload>, first: Payload, p: Payload, place: IndexKey -> string,
                       k: IndexKey)
    requires WellFormed(p.tx) && p.tx == first.tx && FromLog(a, log + [first, p], place)
    ensures !Stray(a, log, p, place, k)
  {
    if IndexAt(a, place, k).Some? {
      EntryIsNamed(a, log, first, p, place, k);
      ManifestKeysListed(p.tx, k);
    }
  }

  /** The same transaction again leaves nothing stray, so only lost removals matter. */
  lemma SameRetryIsExact(a: Artifacts, log: seq<Payload>, first: Payload, seen: map<NodeId, seq<IndexKey>>, p: Payload,
                         place: IndexKey -> string)
    requires Retries(log, first, seen, p) && p.tx == first.tx && FromLog(a, log + [first, p], place)
    ensures Shows(Replayed(a, log + [p], place), FoldedAll(log + [p]), place)
            <==> forall k :: !Lost(log, p, k)
  {
    RetryIsExact(a, log, first, seen, p, place);
    CoveringLeavesNone(a, log, first, p, place);
    SameIsIntact(a, log, first, p, place);
  }

  lemma SameIsIntact(a: Artifacts, log: seq<Payload>, first: Payload, p: Payload, place: IndexKey -> string)
    requires WellFormed(p.tx) && p.tx == first.tx && FromLog(a, log + [first, p], place)
    ensures Intact(a, log, p, place) <==> forall k :: !Lost(log, p, k)
  {
    forall k ensures !Stray(a, log, p, place, k) {
      SameIsNotStray(a, log, first, p, place, k);
    }
  }

  /** A retry that writes at least the files of the first attempt leaves none of them. */
  ghost predicate Covers(first: Tx, tx: Tx) {
    && first.nodes.Keys <= tx.nodes.Keys && first.auth.Keys <= tx.auth.Keys && first.indexes.Keys <= tx.indexes.Keys
    && first.records.Keys + first.deleted <= tx.records.Keys + tx.deleted
  }

  lemma CoveringLeavesNone(a: Artifacts, log: seq<Payload>, first: Payload, p: Payload, place: IndexKey -> string)
    requires Covers(first.tx, p.tx) && FromLog(a, log + [first, p], place)
    ensures NoStrayFile(a, log, p)
  {
    var ext := log + [first, p];
    assert ext[..|log| + 1] == log + [first] && ext[..|log| + 1][..|log|] == log;
    assert Named(ext) == Both(Both(Named(log), NamesOf(first.tx)), NamesOf(p.tx));
    FromLogIsMixed(a, ext, place);
  }

  // ---------------------------------------------------------------- a retry that completes

  /** An entry of a node the retry indexes, which the retry neither writes nor removes. */
  predicate Leftover(a: Artifacts, p: Payload, place: IndexKey -> string, k: IndexKey) {
    IndexAt(a, place, k).Some? && k.node in p.tx.indexes && !Listed(p.tx.indexes, k) && k !in p.removals
  }

  /** Outside the rewritten keys two maps agree. */
  ghost predicate SameOutside<K(!new), V>(a: map<K, V>, l: map<K, V>, rewritten: set<K>) {
    forall k :: k !in rewritten ==> Lookup(a, k) == Lookup(l, k)
  }

  lemma SameOnceRewritten<K(!new), V>(a: map<K, V>, l: map<K, V>, dropped: set<K>, put: map<K, V>)
    ensures (a - dropped) + put == (l - dropped) + put <==> SameOutside(a, l, put.Keys + dropped)
  {
    var x, y := (a - dropped) + put, (l - dropped) + put;
    if SameOutside(a, l, put.Keys + dropped) {
      forall k ensures Lookup(x, k) == Lookup(y, k) {
        assert k !in put.Keys + dropped ==> Lookup(a, k) == Lookup(l, k);
      }
      SameLookups(x, y);
    }
    if x == y {
      forall k | k !in put.Keys + dropped ensures Lookup(a, k) == Lookup(l, k) {
        assert Lookup(x, k) == Lookup(a, k) && Lookup(y, k) == Lookup(l, k);
      }
    }
  }

  lemma SameOncePut<K(!new), V>(a: map<K, V>, l: map<K, V>, put: map<K, V>)
    ensures a + put == l + put <==> SameOutside(a, l, put.Keys)
  {
    SameOnceRewritten(a, l, {}, put);
    assert a - {} == a && l - {} == l && put.Keys + {} == put.Keys;
  }

  ghost predicate SameElsewhere(a: Artifacts, l: Logical, tx: Tx, place: IndexKey -> string) {
    forall k: IndexKey :: k.node !in tx.indexes ==> IndexAt(a, place, k) == Lookup(l.index, k)
  }

  /** What the retry does not rewrite is, on disk, as it was before the first attempt. */
  ghost predicate OutsideSame(a: Artifacts, l: Logical, tx: Tx, place: IndexKey -> string) {
    && SameOutside(a.nodes, l.nodes, tx.nodes.Keys) && SameOutside(a.auth, l.auth, tx.auth.Keys)
    && SameOutside(a.manifests, l.manifests, tx.indexes.Keys)
    && SameOutside(a.records, l.records, tx.records.Keys + tx.deleted)
    && SameElsewhere(a, l, tx, place)
  }

  /** A partly written payload leaves a key's entry as it was or as the payload has it. */
  lemma PartialAt(a: Artifacts, b: Artifacts, p: Payload, place: IndexKey -> string, k: IndexKey)
    requires Partial(a, b, p, place)
    ensures IndexAt(b, place, k) == IndexAt(a, place, k) ||
            IndexAt(b, place, k) == IndexAt(Materialized(a, p, place), place, k)
  {
    var path := place(k);
    if Lookup(b.buckets, path) == Lookup(a.buckets, path) {
      assert BucketOf(b, path) == BucketOf(a, path);
    } else {
      assert BucketOf(b, path) == BucketOf(Materialized(a, p, place), path);
    }
  }

  /** The first attempt touches only entries of nodes it indexes. */
  lemma AttemptAt(arts: Artifacts, a: Artifacts, log: seq<Payload>, first: Payload, place: IndexKey -> string,
                  k: IndexKey)
    requires Chained(log) && Follows(log, first) && Partial(arts, a, first, place) && k.node !in first.tx.indexes
    ensures IndexAt(a, place, k) == IndexAt(arts, place, k)
  {
    FoldIndexes(log);
    RemovalsOwned(FoldedAll(log).manifests, first.tx, k);
    ManifestKeysListed(first.tx, k);
    PartialAt(arts, a, first, place, k);
    IndexAfter(arts, first, place, k);
  }

  /** One key after a completed retry. */
  lemma FinishAt(a: Artifacts, log: seq<Payload>, first: Payload, p: Payload, place: IndexKey -> string, k: IndexKey)
    requires Retries(log, first, a.manifests, p)
    ensures IndexAt(Materialized(a, p, place), place, k) == Lookup(Folded(FoldedAll(log), p.tx).index, k)
            <==> !Leftover(a, p, place, k) &&
                 (k.node !in p.tx.indexes ==> IndexAt(a, place, k) == Lookup(FoldedAll(log).index, k))
  {
    SeenOwn(log, first, a.manifests, p);
    RemovalsOwned(a.manifests, p.tx, k);
    ManifestKeysListed(p.tx, k);
    IndexAfter(a, p, place, k);
    FoldedAt(FoldedAll(log), p.tx, k);
  }

  ghost predicate NoLeftovers(a: Artifacts, p: Payload, place: IndexKey -> string) {
    forall k :: !Leftover(a, p, place, k)
  }

  lemma FinishIndex(a: Artifacts, log: seq<Payload>, first: Payload, p: Payload, place: IndexKey -> string)
    requires Retries(log, first, a.manifests, p)
    ensures SameIndex(Materialized(a, p, place), Folded(FoldedAll(log), p.tx), place)
            <==> NoLeftovers(a, p, place) && SameElsewhere(a, FoldedAll(log), p.tx, place)
  {
    var y, l := Materialized(a, p, place), Folded(FoldedAll(log), p.tx);
    if SameIndex(y, l, place) {
      forall k
        ensures !Leftover(a, p, place, k)
        ensures k.node !in p.tx.indexes ==> IndexAt(a, place, k) == Lookup(FoldedAll(log).index, k)
      {
        FinishAt(a, log, first, p, place, k);
      }
    }
    if NoLeftovers(a, p, place) && SameElsewhere(a, FoldedAll(log), p.tx, place) {
      forall k ensures IndexAt(y, place, k) == Lookup(l.index, k) {
        FinishAt(a, log, first, p, place, k);
      }
    }
  }

  lemma FinishFiles(a: Artifacts, l: Logical, p: Payload, place: IndexKey -> string)
    ensures SameFiles(Materialized(a, p, place), Folded(l, p.tx)) <==>
            && SameOutside(a.nodes, l.nodes, p.tx.nodes.Keys) && SameOutside(a.auth, l.auth, p.tx.auth.Keys)
            && SameOutside(a.manifests, l.manifests, p.tx.indexes.Keys)
            && SameOutside(a.records, l.records, p.tx.records.Keys + p.tx.deleted)
  {
    SameOncePut(a.nodes, l.nodes, p.tx.nodes);
    SameOncePut(a.auth, l.auth, p.tx.auth);
    SameOncePut(a.manifests, l.manifests, p.tx.indexes);
    SameOnceRewritten(a.records, l.records, p.tx.deleted, p.tx.records);
  }

  /**
    A retry that completes on the open store shows its transaction if and only if what it does not
    rewrite is as it was before the first attempt, and no entry of a node it indexes is left over.
   */
  lemma RetryFinishes(a: Artifacts, log: seq<Payload>, first: Payload, p: Payload, place: IndexKey -> string)
    requires Retries(log, first, a.manifests, p) && FromLog(a, log + [first, p], place)
    ensures Shows(Materialized(a, p, place), Folded(FoldedAll(log), p.tx), place)
            <==> OutsideSame(a, FoldedAll(log), p.tx, place) && NoLeftovers(a, p, place)
  {
    FinishFiles(a, FoldedAll(log), p, place);
    FinishIndex(a, log, first, p, place);
    RetryFromLog(a, log, first, p, place);
    ShowsParts(Materialized(a, p, place), Folded(FoldedAll(log), p.tx), log + [first, p], place);
    assert OutsideSame(a, FoldedAll(log), p.tx, place) <==>
           SameFiles(Materialized(a, p, place), Folded(FoldedAll(log), p.tx)) &&
           SameElsewhere(a, FoldedAll(log), p.tx, place);
  }

  lemma PartOutside<K(!new), V>(l: map<K, V>, a: map<K, V>, dropped: set<K>, put: map<K, V>, rewritten: set<K>)
    requires PartMap(l, a, dropped, put) && put.Keys + dropped <= rewritten
    ensures SameOutside(a, l, rewritten)
  {
    forall k | k !in rewritten ensures Lookup(a, k) == Lookup(l, k) {
      assert k !in put.Keys + dropped;
    }
  }

  /** If the retry writes at least the files of a first attempt on an up-to-date store, only leftovers matter. */
  lemma CoveringRetry(arts: Artifacts, a: Artifacts, log: seq<Payload>, first: Payload, p: Payload,
                      place: IndexKey -> string)
    requires Chained(log) && Follows(log, first) && Covers(first.tx, p.tx)
    requires Shows(arts, FoldedAll(log), place) && Partial(arts, a, first, place)
    ensures OutsideSame(a, FoldedAll(log), p.tx, place)
  {
    PartOutside(arts.nodes, a.nodes, {}, first.tx.nodes, p.tx.nodes.Keys);
    PartOutside(arts.auth, a.auth, {}, first.tx.auth, p.tx.auth.Keys);
    PartOutside(arts.manifests, a.manifests, {}, first.tx.indexes, p.tx.indexes.Keys);
    PartOutside(arts.records, a.records, first.tx.deleted, first.tx.records, p.tx.records.Keys + p.tx.deleted);
    forall k: IndexKey | k.node !in p.tx.indexes ensures IndexAt(a, place, k) == Lookup(FoldedAll(log).index, k) {
      AttemptAt(arts, a, log, first, place, k);
    }
  }

  // ---------------------------------------------------------------- a retry that differs

  function KeyOn(sortable: string): IndexKey {
    IndexKey("f", sortable, "n")
  }

  function EntryOn(sortable: string): IndexEntry {
    IndexEntry("n", "f", Null, sortable)
  }

  /** A transaction on one node with one index entry. */
  function Indexing(sortable: string, metadata: Metadata): Tx {
    Tx(1, metadata, map[], map[], map["n" := [KeyOn(sortable)]], map[KeyOn(sortable) := EntryOn(sortable)], map[], {})
  }

  lemma IndexingKeys(sortable: string, metadata: Metadata)
    requires metadata.nextTxId == 2
    ensures WellFormed(Indexing(sortable, metadata)) && ManifestKeys(Indexing(sortable, metadata)) == {KeyOn(sortable)}
    ensures Removals(map[], Indexing(sortable, metadata)) == {}
  {
    assert KeyOn(sortable) in Indexing(sortable, metadata).indexes["n"];
  }

  /** The store after the first attempt wrote its index entry and nothing else. */
  function Attempted(place: IndexKey -> string): Artifacts {
    EMPTY_DISK.arts.(buckets := map[place(KeyOn("s_1")) := map[KeyOn("s_1") := EntryOn("s_1")]])
  }

  lemma AttemptedIsPartial(metadata: Metadata, place: IndexKey -> string)
    requires metadata.nextTxId == 2
    ensures Partial(EMPTY_DISK.arts, Attempted(place), Payload(Indexing("s_1", metadata), {}), place)
  {
    var p, k := Payload(Indexing("s_1", metadata), {}), KeyOn("s_1");
    IndexingKeys("s_1", metadata);
    assert TouchedPaths(p, place) == {place(k)};
    assert BucketAfter(map[], p, place, place(k)) == map[k := EntryOn("s_1")];
    assert BucketsAfter(EMPTY_DISK.arts, p, place) == Attempted(place).buckets;
  }

  lemma DifferingRetries(metadata: Metadata)
    requires metadata.nextTxId == 2
    ensures Retries([], Payload(Indexing("s_1", metadata), {}), map[], Payload(Indexing("s_2", metadata), {}))
  {
    IndexingKeys("s_1", metadata);
    IndexingKeys("s_2", metadata);
  }

  /**
    No removal is lost when the value of a field changes between the two attempts on an empty store,
    and yet the entry of the first value stays, whether the retry completes or is recovered.
   */
  lemma DifferingRetry(metadata: Metadata, place: IndexKey -> string)
    requires metadata.nextTxId == 2
    ensures var p := Payload(Indexing("s_2", metadata), {});
            && (forall k :: !Lost([], p, k))
            && Stray(Attempted(place), [], p, place, KeyOn("s_1")) && Leftover(Attempted(place), p, place, KeyOn("s_1"))
            && !Shows(Materialized(Attempted(place), p, place), FoldedAll([p]), place)
            && !Shows(Replayed(Attempted(place), [p], place), FoldedAll([p]), place)
  {
    var a, first, p, k := Attempted(place), Payload(Indexing("s_1", metadata), {}),
      Payload(Indexing("s_2", metadata), {}), KeyOn("s_1");
    IndexingKeys("s_2", metadata);
    AttemptedIsPartial(metadata, place);
    DifferingRetries(metadata);
    assert k.sortable != KeyOn("s_2").sortable;
    assert Leftover(a, p, place, k);
    PartialOfEmpty(a, first, p, place);
    RetryFinishes(a, [], first, p, place);
    RecoveredLast(a, [], p, place);
    assert [] + [p] == [p];
  }

  lemma PartialOfEmpty(a: Artifacts, first: Payload, p: Payload, place: IndexKey -> string)
    requires Partial(EMPTY_DISK.arts, a, first, place)
    ensures FromLog(a, [] + [first, p], place)
  {
    var ext := [] + [first, p];
    assert ext[0] == first;
    PartialFromLog(EMPTY_DISK.arts, a, ext, 0, place);
  }

  /** A transaction on one node without index entries. */
  function Storing(n: NodeId, metadata: Metadata): Tx {
    Tx(1, metadata, map[n := NewNode(n)], map[], map[], map[], map[], {})
  }

  const STORED := EMPTY_DISK.arts.(nodes := map["m" := NewNode("m")])

  lemma StoringIsPlain(n: NodeId, metadata: Metadata)
    requires metadata.nextTxId == 2
    ensures WellFormed(Storing(n, metadata)) && ManifestKeys(Storing(n, metadata)) == {}
    ensures forall manifests :: Removals(manifests, Storing(n, metadata)) == {}
  {
  }

  lemma StoredIsPartial(metadata: Metadata, place: IndexKey -> string)
    ensures Partial(EMPTY_DISK.arts, STORED, Payload(Storing("m", metadata), {}), place)
  {
  }

  lemma StoredHasNoEntries(p: Payload, place: IndexKey -> string)
    requires p.removals == {} && p.tx.indexes == map[]
    ensures Intact(STORED, [], p, place) && NoLeftovers(STORED, p, place)
  {
    forall k ensures IndexAt(STORED, place, k) == None && !Lost([], p, k) {
    }
  }

  /**
    A first attempt that held another node: no removal is lost, no entry is stray or left over, and yet
    the file of that node stays, whether the retry completes or is recovered.
   */
  lemma SmallerRetry(metadata: Metadata, place: IndexKey -> string)
    requires metadata.nextTxId == 2
    ensures var first, p := Payload(Storing("m", metadata), {}), Payload(Storing("n", metadata), {});
            && Retries([], first, STORED.manifests, p) && Partial(EMPTY_DISK.arts, STORED, first, place)
            && Intact(STORED, [], p, place) && NoLeftovers(STORED, p, place)
            && !Shows(Materialized(STORED, p, place), FoldedAll([p]), place)
            && !Shows(Replayed(STORED, [p], place), FoldedAll([p]), place)
  {
    var p := Payload(Storing("n", metadata), {});
    StoringIsPlain("m", metadata);
    StoringIsPlain("n", metadata);
    StoredIsPartial(metadata, place);
    StoredHasNoEntries(p, place);
    RecoveredLast(STORED, [], p, place);
    assert [] + [p] == [p];
    assert "m" in Materialized(STORED, p, place).nodes && "m" !in Folded(EMPTY, p.tx).nodes;
  }
}
