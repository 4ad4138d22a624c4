/**
  The store object. Each method writes one artifact at a time and may be cut off: `budget` is the
  number of writes that happen before the process stops.
 */
module SegmentStore {
  import opened Json
  import opened Graph
  import opened Recovery

  /** The files after all but the pending writes. */
  ghost predicate WrittenBut<V>(files: map<string, V>, next: map<string, V>, writes: map<string, V>,
                                pending: set<string>) {
    forall k :: Lookup(next, k) == if k in writes && k !in pending then Some(writes[k]) else Lookup(files, k)
  }

  lemma WrittenOne<V>(files: map<string, V>, next: map<string, V>, writes: map<string, V>, pending: set<string>,
                      k: string)
    requires WrittenBut(files, next, writes, pending) && k in pending && k in writes
    ensures WrittenBut(files, next[k := writes[k]], writes, pending - {k})
  {
    var after := next[k := writes[k]];
    forall j
      ensures Lookup(after, j) == if j in writes && j !in pending - {k} then Some(writes[j]) else Lookup(files, j)
    {
      assert j != k ==> Lookup(after, j) == Lookup(next, j);
    }
  }

  /** Writes files one by one until done or cut off. */
  method WriteAll<V>(files: map<string, V>, writes: map<string, V>, budget: nat)
    returns (next: map<string, V>, left: nat, done: bool)
    ensures PartMap(files, next, {}, writes)
    ensures done ==> next == files + writes
  {
    next, left, done := files, budget, true;
    var pending := writes.Keys;
    while pending != {}
      invariant pending <= writes.Keys && WrittenBut(files, next, writes, pending)
      decreases |pending|
    {
      if left == 0 {
        return next, 0, false;
      }
      var k :| k in pending;
      WrittenOne(files, next, writes, pending, k);
      next, left, pending := next[k := writes[k]], left - 1, pending - {k};
    }
    SameLookups(next, files + writes);
  }

  /** Removes files one by one until done or cut off. */
  method RemoveAll<V>(files: map<string, V>, removed: set<string>, budget: nat)
    returns (next: map<string, V>, left: nat, done: bool)
    ensures forall k :: Lookup(next, k) == Lookup(files, k) || (k in removed && k !in next)
    ensures done ==> next == files - removed
  {
    next, left, done := files, budget, true;
    var pending := removed;
    while pending != {}
      invariant pending <= removed
      invariant forall k :: Lookup(next, k) == if k in removed && k !in pending then None else Lookup(files, k)
      decreases |pending|
    {
      if left == 0 {
        return next, 0, false;
      }
      var k :| k in pending;
      next, left, pending := next - {k}, left - 1, pending - {k};
    }
    SameLookups(next, files - removed);
  }

  function WithoutKey(buckets: map<string, Bucket>, path: string, k: IndexKey): map<string, Bucket>
    requires path in buckets
  {
    buckets[path := buckets[path] - {k}]
  }

  function WithKey(buckets: map<string, Bucket>, path: string, k: IndexKey, e: IndexEntry): map<string, Bucket>
    requires path in buckets
  {
    buckets[path := buckets[path][k := e]]
  }

  /** What stands for a key in one of the loaded buckets. */
  function Held(buckets: map<string, Bucket>, path: string, k: IndexKey): Option<IndexEntry> {
    if path in buckets then Lookup(buckets[path], k) else None
  }

  lemma HeldAfter(buckets: map<string, Bucket>, path: string, k: IndexKey, e: IndexEntry, path': string, k': IndexKey)
    requires path in buckets
    ensures Held(WithoutKey(buckets, path, k), path', k') ==
            if path' == path && k' == k then None else Held(buckets, path', k')
    ensures Held(WithKey(buckets, path, k, e), path', k') ==
            if path' == path && k' == k then Some(e) else Held(buckets, path', k')
  {
  }

  method RemoveKeys(buckets: map<string, Bucket>, keys: set<IndexKey>, place: IndexKey -> string)
    returns (next: map<string, Bucket>)
    requires forall k :: k in keys ==> place(k) in buckets
    ensures next.Keys == buckets.Keys
    ensures forall path, k :: Held(next, path, k) ==
                              if k in keys && place(k) == path then None else Held(buckets, path, k)
  {
    next := buckets;
    var pending := keys;
    while pending != {}
      invariant pending <= keys && next.Keys == buckets.Keys
      invariant forall path, k :: Held(next, path, k) ==
                                  if k in keys && k !in pending && place(k) == path then None
                                  else Held(buckets, path, k)
      decreases |pending|
    {
      var key :| key in pending;
      ghost var before := next;
      next := WithoutKey(next, place(key), key);
      pending := pending - {key};
      forall path, k
        ensures Held(next, path, k) == if path == place(key) && k == key then None else Held(before, path, k)
      {
        HeldAfter(before, place(key), key, IndexEntry("", "", Null, ""), path, k);
      }
    }
  }

  method AddKeys(buckets: map<string, Bucket>, added: map<IndexKey, IndexEntry>, place: IndexKey -> string)
    returns (next: map<string, Bucket>)
    requires forall k :: k in added ==> place(k) in buckets
    ensures next.Keys == buckets.Keys
    ensures forall path, k :: Held(next, path, k) ==
                              if k in added && place(k) == path then Some(added[k]) else Held(buckets, path, k)
  {
    next := buckets;
    var pending := added.Keys;
    while pending != {}
      invariant pending <= added.Keys && next.Keys == buckets.Keys
      invariant forall path, k :: Held(next, path, k) ==
                                  if k in added && k !in pending && place(k) == path then Some(added[k])
                                  else Held(buckets, path, k)
      decreases |pending|
    {
      var key :| key in pending;
      ghost var before := next;
      next := WithKey(next, place(key), key, added[key]);
      pending := pending - {key};
      forall path, k
        ensures Held(next, path, k) ==
                if path == place(key) && k == key then Some(added[key]) else Held(before, path, k)
      {
        HeldAfter(before, place(key), key, added[key], path, k);
      }
    }
  }

  lemma BucketAfterAt(b: Bucket, p: Payload, place: IndexKey -> string, path: string, k: IndexKey)
    ensures Lookup(BucketAfter(b, p, place, path), k) ==
            if k in EntriesOf(p) && place(k) == path then Some(EntriesOf(p)[k])
            else if k in p.removals && place(k) == path then None
            else Lookup(b, k)
  {
  }

  /** The buckets a payload touches, read, with its removals and then its entries applied. */
  method ChangedBuckets(a: Artifacts, p: Payload, place: IndexKey -> string) returns (loaded: map<string, Bucket>)
    ensures loaded.Keys == TouchedPaths(p, place)
    ensures forall path :: path in loaded ==> loaded[path] == BucketAfter(BucketOf(a, path), p, place, path)
  {
    var read := map path | path in TouchedPaths(p, place) :: BucketOf(a, path);
    var reduced := RemoveKeys(read, p.removals, place);
    loaded := AddKeys(reduced, EntriesOf(p), place);
    forall path | path in loaded ensures loaded[path] == BucketAfter(BucketOf(a, path), p, place, path) {
      assert read[path] == BucketOf(a, path);
      LoadedBucket(read, reduced, loaded, p, place, path);
    }
  }

  lemma LoadedBucket(read: map<string, Bucket>, reduced: map<string, Bucket>, loaded: map<string, Bucket>, p: Payload,
                     place: IndexKey -> string, path: string)
    requires path in read && path in loaded
    requires forall k :: Held(reduced, path, k) ==
                         if k in p.removals && place(k) == path then None else Held(read, path, k)
    requires forall k :: Held(loaded, path, k) ==
                         if k in EntriesOf(p) && place(k) == path then Some(EntriesOf(p)[k]) else Held(reduced, path, k)
    ensures loaded[path] == BucketAfter(read[path], p, place, path)
  {
    forall k ensures Lookup(loaded[path], k) == Lookup(BucketAfter(read[path], p, place, path), k) {
      BucketAfterAt(read[path], p, place, path, k);
      assert Lookup(loaded[path], k) == Held(loaded, path, k);
      assert Held(read, path, k) == Lookup(read[path], k);
    }
    SameLookups(loaded[path], BucketAfter(read[path], p, place, path));
  }

  /** Rewrites changed bucket files, and removes those left empty, until done or cut off. */
  method WriteBuckets(a: Artifacts, p: Payload, place: IndexKey -> string, budget: nat)
    returns (buckets: map<string, Bucket>, left: nat, done: bool)
    ensures forall path :: Lookup(buckets, path) == Lookup(a.buckets, path)
                           || Lookup(buckets, path) == Lookup(BucketsAfter(a, p, place), path)
    ensures done ==> buckets == BucketsAfter(a, p, place)
  {
    var loaded := ChangedBuckets(a, p, place);
    ghost var goal := BucketsAfter(a, p, place);
    forall path ensures Lookup(goal, path) == FileAfter(a, loaded, path) {
      BucketFile(a, p, place, path);
    }
    buckets, left, done := WriteLoaded(a, loaded, budget);
    if done {
      SameLookups(buckets, goal);
    }
  }

  /** The file of a bucket once the loaded buckets are stored. */
  function FileAfter(a: Artifacts, loaded: map<string, Bucket>, path: string): Option<Bucket> {
    if path !in loaded || loaded[path] == BucketOf(a, path) then Lookup(a.buckets, path)
    else if loaded[path] == map[] then None
    else Some(loaded[path])
  }

  method WriteLoaded(a: Artifacts, loaded: map<string, Bucket>, budget: nat)
    returns (buckets: map<string, Bucket>, left: nat, done: bool)
    ensures forall path :: Lookup(buckets, path) == Lookup(a.buckets, path) ||
                           Lookup(buckets, path) == FileAfter(a, loaded, path)
    ensures done ==> forall path :: Lookup(buckets, path) == FileAfter(a, loaded, path)
  {
    buckets, left, done := a.buckets, budget, true;
    var pending := loaded.Keys;
    while pending != {}
      invariant pending <= loaded.Keys
      invariant forall path :: Lookup(buckets, path) ==
                               if path in pending then Lookup(a.buckets, path) else FileAfter(a, loaded, path)
      decreases |pending|
    {
      var path :| path in pending;
      if loaded[path] != BucketOf(a, path) {
        if left == 0 {
          return buckets, 0, false;
        }
        left := left - 1;
        buckets := if loaded[path] == map[] then buckets - {path} else buckets[path := loaded[path]];
      }
      pending := pending - {path};
    }
  }

  /** The file of a bucket after a payload. */
  lemma BucketFile(a: Artifacts, p: Payload, place: IndexKey -> string, path: string)
    ensures var after := BucketAfter(BucketOf(a, path), p, place, path);
            Lookup(BucketsAfter(a, p, place), path) ==
            if after == BucketOf(a, path) then Lookup(a.buckets, path) else if after == map[] then None else Some(after)
    ensures path !in TouchedPaths(p, place) ==> BucketAfter(BucketOf(a, path), p, place, path) == BucketOf(a, path)
  {
    var before := BucketOf(a, path);
    var after := BucketAfter(before, p, place, path);
    if path !in TouchedPaths(p, place) {
      forall k ensures Lookup(after, k) == Lookup(before, k) {
      }
      SameLookups(after, before);
    }
  }

  // ---------------------------------------------------------------- the log, read in order

  function LogIds(log: seq<Payload>, i: nat): set<nat>
    requires i <= |log|
  {
    set j | i <= j < |log| :: log[j].tx.id
  }

  lemma LogIdsNext(log: seq<Payload>, i: nat)
    requires Chained(log) && i < |log|
    ensures LogIds(log, i) == {log[i].tx.id} + LogIds(log, i + 1)
    ensures log[i].tx.id !in LogIds(log, i + 1)
    ensures forall id :: id in LogIds(log, i) ==> log[i].tx.id <= id
  {
    forall j | i < j < |log| ensures log[i].tx.id < log[j].tx.id {
      IdBelow(log, i, j);
    }
  }

  lemma LogIdsEnd(log: seq<Payload>, i: nat)
    requires i <= |log|
    ensures LogIds(log, i) == {} <==> i == |log|
    ensures i == |log| ==> log[..i] == log
  {
    if i < |log| {
      assert log[i].tx.id in LogIds(log, i);
    }
  }

  lemma LogIdsOfDisk(d: Disk, log: seq<Payload>)
    requires IsLog(d, log)
    ensures d.pending.Keys + d.final.Keys == LogIds(log, 0)
  {
    forall id | id in d.pending || id in d.final ensures id in LogIds(log, 0) {
      var q := if id in d.pending then d.pending[id] else d.final[id];
      assert Recorded(log, id, q);
      var j :| 0 <= j < |log| && log[j] == q;
    }
  }

  lemma RecordOfId(log: seq<Payload>, i: nat, q: Payload)
    requires Chained(log) && i < |log| && Recorded(log, log[i].tx.id, q)
    ensures q == log[i]
  {
    var j :| 0 <= j < |log| && log[j] == q;
    if j < i {
      IdBelow(log, j, i);
    } else if i < j {
      IdBelow(log, i, j);
    }
  }

  function LastId(log: seq<Payload>, i: nat): nat
    requires i <= |log|
  {
    if i == 0 then 0 else log[i - 1].tx.id
  }

  lemma LastIdBelow(log: seq<Payload>, i: nat)
    requires Chained(log) && i < |log|
    ensures LastId(log, i) < log[i].tx.id
  {
    assert Follows(log[..i], log[i]);
  }

  /** What recovery takes next, and what is left then. */
  lemma RecoverNext(log: seq<Payload>, i: nat)
    requires Chained(log) && i <= |log| && LogIds(log, i) != {}
    ensures i < |log| && log[i].tx.id in LogIds(log, i) && forall id :: id in LogIds(log, i) ==> log[i].tx.id <= id
    ensures LastId(log, i) < log[i].tx.id && LastId(log, i + 1) == log[i].tx.id
    ensures LogIds(log, i) - {log[i].tx.id} == LogIds(log, i + 1)
  {
    LogIdsEnd(log, i);
    LogIdsNext(log, i);
    LastIdBelow(log, i);
  }

  lemma ReplayedNext(a: Artifacts, log: seq<Payload>, i: nat, place: IndexKey -> string)
    requires i < |log|
    ensures Replayed(a, log[..i + 1], place) == Materialized(Replayed(a, log[..i], place), log[i], place)
  {
    assert log[..i + 1][..i] == log[..i];
  }

  method LeastId(ids: set<nat>, ghost least: nat) returns (id: nat)
    requires least in ids && forall x :: x in ids ==> least <= x
    ensures id == least
  {
    id :| id in ids && forall x :: x in ids ==> id <= x;
  }

  /** Moving a record from pending to final, or dropping a pending copy of a final one, keeps the log. */
  lemma LogKept(d: Disk, log: seq<Payload>, id: nat)
    requires IsLog(d, log) && id in d.pending
    ensures id in d.final ==> IsLog(d.(pending := d.pending - {id}), log)
    ensures IsLog(d.(pending := d.pending - {id}, final := d.final[id := d.pending[id]]), log)
  {
    assert Recorded(log, id, d.pending[id]);
  }

  class SegmentFileStore {
    var arts: Artifacts
    var pending: map<nat, Payload>
    var final: map<nat, Payload>
    const place: IndexKey -> string

    constructor (place: IndexKey -> string)
      ensures State() == EMPTY_DISK && this.place == place
    {
      this.place := place;
      arts, pending, final := EMPTY_DISK.arts, map[], map[];
    }

    ghost function State(): Disk
      reads this
    {
      Disk(arts, pending, final)
    }

    /** Writes the artifacts of a payload: nodes, index, manifests, records and then the metadata. */
    method Materialize(p: Payload, budget: nat) returns (left: nat, done: bool)
      modifies this`arts
      ensures Partial(old(arts), arts, p, place)
      ensures done ==> arts == Materialized(old(arts), p, place)
    {
      ghost var start := arts;
      var nodes, auth, buckets, manifests, records;
      nodes, left, done := WriteAll(arts.nodes, p.tx.nodes, budget);
      arts := arts.(nodes := nodes);
      if !done { return; }
      auth, left, done := WriteAll(arts.auth, p.tx.auth, left);
      arts := arts.(auth := auth);
      if !done { return; }
      SameBuckets(start, arts, p);
      buckets, left, done := WriteBuckets(arts, p, place, left);
      arts := arts.(buckets := buckets);
      if !done { return; }
      manifests, left, done := WriteAll(arts.manifests, p.tx.indexes, left);
      arts := arts.(manifests := manifests);
      if !done { return; }
      records, left, done := RemoveAll(arts.records, p.tx.deleted, left);
      arts := arts.(records := records);
      if !done { return; }
      records, left, done := WriteAll(arts.records, p.tx.records, left);
      arts := arts.(records := records);
      if !done { return; }
      if left == 0 {
        done := false;
        return;
      }
      left := left - 1;
      arts := arts.(metadata := Some(p.tx.metadata));
    }

    lemma SameBuckets(a: Artifacts, b: Artifacts, p: Payload)
      requires a.buckets == b.buckets
      ensures BucketsAfter(a, p, place) == BucketsAfter(b, p, place)
    {
      assert forall path :: BucketOf(a, path) == BucketOf(b, path);
    }

    /** Logs a transaction, writes its artifacts and marks the record final. */
    method ApplyTransaction(tx: Tx, budget: nat) returns (done: bool, ghost logged: bool)
      modifies this
      ensures var p := Payload(tx, Removals(old(arts).manifests, tx));
              Commits(old(State()), State(), p, logged, done, place)
    {
      var payload := Payload(tx, Removals(arts.manifests, tx));
      done, logged := false, false;
      if budget == 0 {
        return;
      }
      pending := pending[tx.id := payload];
      logged := true;
      var left, written := Materialize(payload, budget - 1);
      if written && left > 0 {
        pending, final := pending - {tx.id}, final[tx.id := payload];
        assert old(pending)[tx.id := payload] - {tx.id} == old(pending) - {tx.id};
        done := true;
      }
    }

    /** Makes a pending record final, or drops it if it is final already. */
    method Finalize(id: nat, ghost log: seq<Payload>)
      requires IsLog(State(), log) && id in pending
      modifies this`pending, this`final
      ensures IsLog(State(), log) && arts == old(arts)
    {
      LogKept(State(), log, id);
      if id !in final {
        final := final[id := pending[id]];
      }
      pending := pending - {id};
    }

    /** Replays the record, or the final and the pending record, of one transaction id. */
    method ReplayId(id: nat, last: nat, budget: nat, ghost log: seq<Payload>, ghost i: nat)
      returns (left: nat, done: bool)
      requires Chained(log) && i < |log| && log[i].tx.id == id && last < id
      requires IsLog(State(), log)
      modifies this
      ensures IsLog(State(), log) && Partial(old(arts), arts, log[i], place)
      ensures done ==> arts == Materialized(old(arts), log[i], place)
    {
      var materializedLast := last;
      left, done := budget, true;
      if id in final {
        assert Recorded(log, id, final[id]);
        RecordOfId(log, i, final[id]);
        left, done := Materialize(final[id], left);
        if !done { return; }
        materializedLast := id;
      }
      if id in pending {
        assert Recorded(log, id, pending[id]);
        RecordOfId(log, i, pending[id]);
        if materializedLast < id {
          left, done := Materialize(pending[id], left);
          if !done { return; }
        }
        if left == 0 {
          done := false;
          return;
        }
        left := left - 1;
        Finalize(id, log);
      }
    }

    /** Replays every logged payload in order of transaction ids, until done or cut off. */
    method Recover(budget: nat, ghost log: seq<Payload>) returns (done: bool)
      requires IsLog(State(), log) && Chained(log)
      modifies this
      ensures Recovers(old(State()), State(), log, done, place)
    {
      LogIdsOfDisk(State(), log);
      var ids, last, left := pending.Keys + final.Keys, 0, budget;
      ghost var i := 0;
      assert log[..0] == [];
      while ids != {}
        invariant i <= |log| && ids == LogIds(log, i) && IsLog(State(), log)
        invariant arts == Replayed(old(arts), log[..i], place)
        invariant last == LastId(log, i)
        decreases |log| - i
      {
        RecoverNext(log, i);
        ReplayedNext(old(arts), log, i, place);
        var id := LeastId(ids, log[i].tx.id);
        left, done := ReplayId(id, last, left, log, i);
        if !done { return; }
        ids, last, i := ids - {id}, id, i + 1;
      }
      LogIdsEnd(log, i);
      done := true;
    }
  }
}
