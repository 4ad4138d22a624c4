/**
  Chunked vector items. A write stores a metadata record and one record per chunk, all naming the
  write; reading puts the chunks together again, from records that may come from several writes.
 */
module Vectors {
  import opened Json

  type Byte = n: nat | n < 256

  /** A single-precision number by its bits, as section 3.4 of IEEE 754-2008 lays them out. */
  type Word = n: nat | n < 0x1_0000_0000

  datatype Meta = Meta(
    id: string, writeId: string, dim: nat, encoding: string,
    byteLength: nat, checksum: string, chunkCount: nat, metadata: Option<Json>, deleted: bool)

  datatype Header = Header(writeId: string, index: nat, count: nat, offset: nat, checksum: string)

  datatype Chunk = Chunk(header: Header, payload: seq<Byte>)

  /** The records of an item: its metadata, and the chunk record at each chunk key. */
  datatype Item = Item(meta: Option<Meta>, chunks: map<nat, seq<Byte>>)

  datatype Outcome =
    | Incomplete
    | Deleted
    | Entry(vector: seq<Word>, metadata: Option<Json>, writeId: string, checksum: string)

  /** The text form of a header, read and written, and the checksum. */
  datatype Codec = Codec(
    write: Header -> seq<Byte>,
    read: seq<Byte> -> Option<Header>,
    hash: seq<Byte> -> string)

  /** One call that writes or deletes the item. */
  datatype Call =
    | Put(id: string, writeId: string, vector: seq<Word>, metadata: Option<Json>, chunkSize: nat)
    | Delete(id: string, writeId: string, dim: nat)

  const F32_LE := "f32_le"

  /** PRIMADB_VECTOR_CHUNK_V1 and a line feed. */
  const MAGIC: seq<Byte> := [80, 82, 73, 77, 65, 68, 66, 95, 86, 69, 67, 84,
                             79, 82, 95, 67, 72, 85, 78, 75, 95, 86, 49, 10]

  predicate Finite(w: Word) {
    w / 0x80_0000 % 256 != 255
  }

  /** Finite numbers have, but for the sign, smaller bits than infinity. */
  lemma FiniteIsBelowInfinity(w: Word)
    ensures Finite(w) <==> w % 0x8000_0000 < 0x7F80_0000
  {
    assert w / 0x80_0000 % 256 == w % 0x8000_0000 / 0x80_0000;
  }

  predicate ValidVector(vector: seq<Word>, dim: nat) {
    |vector| == dim && forall i :: 0 <= i < |vector| ==> Finite(vector[i])
  }

  // ---------------------------------------------------------------- little-endian words

  function Little(w: Word): seq<Byte> {
    [w % 256, w / 256 % 256, w / 0x1_0000 % 256, w / 0x100_0000]
  }

  function FromLittle(b: seq<Byte>): Word
    requires |b| == 4
  {
    b[0] as int + 256 * b[1] as int + 0x1_0000 * b[2] as int + 0x100_0000 * b[3] as int
  }

  lemma LittleRoundTrip(w: Word)
    ensures FromLittle(Little(w)) == w
  {
    assert w / 0x1_0000 == w / 256 / 256 && w / 0x100_0000 == w / 256 / 256 / 256;
  }

  function Flat(vector: seq<Word>): seq<Byte> {
    if vector == [] then [] else Flat(vector[..|vector| - 1]) + Little(vector[|vector| - 1])
  }

  function Decode(bytes: seq<Byte>): Option<seq<Word>> {
    if |bytes| % 4 != 0 then None
    else Some(seq(|bytes| / 4, i requires 0 <= i < |bytes| / 4 => FromLittle(bytes[4 * i..4 * i + 4])))
  }

  lemma {:induction false} FlatPieces(vector: seq<Word>, i: nat)
    requires i < |vector|
    ensures |Flat(vector)| == 4 * |vector|
    ensures Flat(vector)[4 * i..4 * i + 4] == Little(vector[i])
  {
    var front := vector[..|vector| - 1];
    if i < |front| {
      FlatPieces(front, i);
      assert Flat(vector)[4 * i..4 * i + 4] == Flat(front)[4 * i..4 * i + 4];
    } else if front != [] {
      FlatPieces(front, 0);
    }
  }

  /** What a write encodes, a read decodes. */
  lemma DecodeFlat(vector: seq<Word>)
    ensures |Flat(vector)| == 4 * |vector|
    ensures Decode(Flat(vector)) == Some(vector)
  {
    if vector != [] {
      FlatPieces(vector, 0);
    }
    forall i | 0 <= i < |vector| ensures FromLittle(Flat(vector)[4 * i..4 * i + 4]) == vector[i] {
      FlatPieces(vector, i);
      LittleRoundTrip(vector[i]);
    }
    DecodeWords(Flat(vector), vector);
  }

  lemma DecodeWords(bytes: seq<Byte>, vector: seq<Word>)
    requires |bytes| == 4 * |vector|
    requires forall i :: 0 <= i < |vector| ==> FromLittle(bytes[4 * i..4 * i + 4]) == vector[i]
    ensures Decode(bytes) == Some(vector)
  {
    assert |bytes| % 4 == 0 && |bytes| / 4 == |vector|;
    assert Decode(bytes).value == vector;
  }

  lemma LittleOfBytes(b: seq<Byte>)
    requires |b| == 4
    ensures Little(FromLittle(b)) == b
  {
    var w: int := FromLittle(b);
    var b0: int, b1: int, b2: int, b3: int := b[0], b[1], b[2], b[3];
    var high := b1 + 256 * b2 + 0x1_0000 * b3;
    assert w == b0 + 256 * high && w / 256 == high && high / 256 == b2 + 256 * b3;
    assert w / 0x1_0000 == w / 256 / 256 && w / 0x100_0000 == w / 256 / 256 / 256;
  }

  /** Decoding takes the last word off the end. */
  lemma DecodeFront(bytes: seq<Byte>)
    requires |bytes| % 4 == 0 && bytes != []
    ensures |bytes| >= 4 && |bytes[..|bytes| - 4]| % 4 == 0
    ensures Decode(bytes).value ==
            Decode(bytes[..|bytes| - 4]).value + [FromLittle(bytes[|bytes| - 4..])]
  {
    var front, vector := bytes[..|bytes| - 4], Decode(bytes).value;
    var words := Decode(front).value;
    assert |vector| == |words| + 1 && 4 * |words| == |front|;
    forall i | 0 <= i < |words| ensures vector[i] == words[i] {
      assert front[4 * i..4 * i + 4] == bytes[4 * i..4 * i + 4];
    }
    assert bytes[4 * |words|..4 * |words| + 4] == bytes[|bytes| - 4..];
  }

  lemma FlatMore(vector: seq<Word>, w: Word)
    ensures Flat(vector + [w]) == Flat(vector) + Little(w)
  {
    assert (vector + [w])[..|vector|] == vector;
  }

  lemma {:induction false} FlatDecode(bytes: seq<Byte>)
    requires |bytes| % 4 == 0
    ensures Flat(Decode(bytes).value) == bytes
    decreases |bytes|
  {
    if bytes != [] {
      var front, last := bytes[..|bytes| - 4], bytes[|bytes| - 4..];
      DecodeFront(bytes);
      FlatDecode(front);
      FlatMore(Decode(front).value, FromLittle(last));
      LittleOfBytes(last);
      assert bytes == front + last;
    }
  }

  /** Bytes decode to a vector if and only if the vector encodes to them. */
  lemma DecodesTo(bytes: seq<Byte>, vector: seq<Word>)
    ensures Decode(bytes) == Some(vector) <==> Flat(vector) == bytes
  {
    DecodeFlat(vector);
    if |bytes| % 4 == 0 {
      FlatDecode(bytes);
    }
  }

  method EncodeVector(vector: seq<Word>) returns (bytes: seq<Byte>)
    ensures bytes == Flat(vector) && Decode(bytes) == Some(vector)
  {
    bytes := [];
    for i := 0 to |vector|
      invariant bytes == Flat(vector[..i])
    {
      assert vector[..i + 1][..i] == vector[..i];
      bytes := bytes + Little(vector[i]);
    }
    assert vector[..|vector|] == vector;
    DecodeFlat(vector);
  }

  // ---------------------------------------------------------------- chunk records

  function EncodeChunk(c: Chunk, codec: Codec): Option<seq<Byte>> {
    var text := codec.write(c.header);
    if |text| >= 0x1_0000_0000 then None else Some(MAGIC + Little(|text|) + text + c.payload)
  }

  function DecodeChunk(bytes: seq<Byte>, codec: Codec): Option<Chunk> {
    var start := |MAGIC| + 4;
    if !(MAGIC <= bytes) || |bytes| < start then None
    else
      var end := start + FromLittle(bytes[|MAGIC|..start]);
      if |bytes| < end then None
      else match codec.read(bytes[start..end])
           case None => None
           case Some(header) => Some(Chunk(header, bytes[end..]))
  }

  ghost predicate Faithful(codec: Codec) {
    forall h :: codec.read(codec.write(h)) == Some(h)
  }

  /** A chunk record reads back as the chunk, whatever bytes its header and payload hold. */
  lemma ChunkRoundTrip(c: Chunk, codec: Codec)
    requires Faithful(codec) && EncodeChunk(c, codec).Some?
    ensures DecodeChunk(EncodeChunk(c, codec).value, codec) == Some(c)
  {
    var text := codec.write(c.header);
    var bytes := EncodeChunk(c, codec).value;
    var start := |MAGIC| + 4;
    LittleRoundTrip(|text|);
    assert MAGIC <= bytes;
    assert bytes[|MAGIC|..start] == Little(|text|);
    assert bytes[start..start + |text|] == text;
    assert bytes[start + |text|..] == c.payload;
  }

  // ---------------------------------------------------------------- what a call writes

  function Max(a: nat, b: nat): nat {
    if a < b then b else a
  }

  function Min(a: nat, b: nat): nat {
    if a < b then a else b
  }

  function CeilDiv(n: nat, size: nat): nat
    requires size > 0
  {
    (n + size - 1) / size
  }

  /** Chunk i starts inside the bytes exactly when i is below the count. */
  lemma CeilDivBounds(n: nat, size: nat, i: nat)
    requires size > 0
    ensures i < CeilDiv(n, size) <==> i * size < n
  {
    var q := CeilDiv(n, size);
    assert q * size <= n + size - 1 < q * size + size;
    if i < q {
      assert (i + 1) * size <= q * size;
    } else {
      assert q * size <= i * size;
    }
  }

  function Size(call: Call): nat
    requires call.Put?
  {
    Max(call.chunkSize, 1)
  }

  function BytesOf(call: Call): seq<Byte>
    requires call.Put?
  {
    Flat(call.vector)
  }

  /** How many chunk records the call writes, and the count it declares. */
  function Written(call: Call): nat
    requires call.Put?
  {
    CeilDiv(|BytesOf(call)|, Size(call))
  }

  function Declared(call: Call): nat
    requires call.Put?
  {
    Max(Written(call), 1)
  }

  function Piece(call: Call, i: nat): seq<Byte>
    requires call.Put? && i < Written(call)
  {
    CeilDivBounds(|BytesOf(call)|, Size(call), i);
    BytesOf(call)[i * Size(call)..Min(i * Size(call) + Size(call), |BytesOf(call)|)]
  }

  function ChunkOf(call: Call, i: nat, codec: Codec): Chunk
    requires call.Put? && i < Written(call)
  {
    Chunk(Header(call.writeId, i, Declared(call), i * Size(call), codec.hash(Piece(call, i))), Piece(call, i))
  }

  function MetaOf(call: Call, codec: Codec): Meta {
    match call
    case Put(id, writeId, vector, metadata, _) =>
      Meta(id, writeId, |vector|, F32_LE, |BytesOf(call)|, codec.hash(BytesOf(call)), Declared(call), metadata, false)
    case Delete(id, writeId, dim) =>
      Meta(id, writeId, dim, F32_LE, 0, codec.hash([]), 0, None, true)
  }

  /** The item as the call leaves it. */
  ghost predicate Leaves(call: Call, item: Item, codec: Codec) {
    && item.meta == Some(MetaOf(call, codec))
    && (call.Delete? ==> item.chunks == map[])
    && (call.Put? ==>
          && (forall i :: i in item.chunks <==> 0 <= i < Written(call))
          && (forall i :: i in item.chunks ==> Some(item.chunks[i]) == EncodeChunk(ChunkOf(call, i, codec), codec)))
  }

  ghost predicate Fits(call: Call, codec: Codec) {
    call.Put? ==> forall i :: 0 <= i < Written(call) ==> EncodeChunk(ChunkOf(call, i, codec), codec).Some?
  }

  /** Writing an item: old chunks go, then metadata and chunks are put; a header too long fails the write. */
  method WriteVector(call: Call, codec: Codec) returns (item: Option<Item>)
    requires call.Put?
    ensures item.Some? <==> Fits(call, codec)
    ensures item.Some? ==> Leaves(call, item.value, codec)
  {
    var bytes := EncodeVector(call.vector);
    var size := Max(call.chunkSize, 1);
    var count := Max(CeilDiv(|bytes|, size), 1);
    var chunks: map<nat, seq<Byte>> := map[];
    var i := 0;
    CeilDivBounds(|bytes|, size, 0);
    while i * size < |bytes|
      invariant i <= Written(call) && (i * size < |bytes| <==> i < Written(call))
      invariant forall j :: j in chunks <==> 0 <= j < i
      invariant forall j :: j in chunks ==> Some(chunks[j]) == EncodeChunk(ChunkOf(call, j, codec), codec)
      decreases Written(call) - i
    {
      CeilDivBounds(|bytes|, size, i + 1);
      var payload := bytes[i * size..Min(i * size + size, |bytes|)];
      var chunk := Chunk(Header(call.writeId, i, count, i * size, codec.hash(payload)), payload);
      assert chunk == ChunkOf(call, i, codec);
      var record := EncodeChunk(chunk, codec);
      if record == None {
        return None;
      }
      chunks := chunks[i := record.value];
      i := i + 1;
    }
    var meta := Meta(call.id, call.writeId, |call.vector|, F32_LE, |bytes|, codec.hash(bytes), count, call.metadata,
      false);
    item := Some(Item(Some(meta), chunks));
  }

  // ---------------------------------------------------------------- reading

  /** Every record is a chunk, kept under the index its header gives. */
  ghost predicate InPlace(records: map<nat, seq<Byte>>, codec: Codec) {
    forall i :: i in records ==>
                  DecodeChunk(records[i], codec).Some? && DecodeChunk(records[i], codec).value.header.index == i
  }

  /** The chunks of all records but those left. */
  ghost predicate Gathered(records: map<nat, seq<Byte>>, left: set<nat>, chunks: map<nat, Chunk>, codec: Codec) {
    && chunks.Keys == records.Keys - left
    && forall i :: i in chunks ==> DecodeChunk(records[i], codec) == Some(chunks[i])
  }

  /** The chunks by the index their headers give, or nothing if a record is malformed. */
  method CollectChunks(records: map<nat, seq<Byte>>, codec: Codec) returns (chunks: map<nat, Chunk>, malformed: bool)
    ensures malformed <==> exists i :: i in records && DecodeChunk(records[i], codec).None?
    ensures forall i :: i in chunks ==> exists j :: j in records && DecodeChunk(records[j], codec) == Some(chunks[i])
    ensures InPlace(records, codec) ==> Gathered(records, {}, chunks, codec)
  {
    chunks, malformed := map[], false;
    var left := records.Keys;
    while left != {}
      invariant left <= records.Keys
      invariant malformed <==> exists i :: i in records && i !in left && DecodeChunk(records[i], codec).None?
      invariant forall i :: i in chunks ==>
                exists j :: j in records && DecodeChunk(records[j], codec) == Some(chunks[i])
      invariant InPlace(records, codec) ==> Gathered(records, left, chunks, codec)
      decreases left
    {
      var k :| k in left;
      left := left - {k};
      match DecodeChunk(records[k], codec) {
        case Some(chunk) => chunks := chunks[chunk.header.index := chunk];
        case None => malformed := true;
      }
    }
  }

  predicate Agrees(c: Chunk, meta: Meta, i: nat, offset: nat, codec: Codec) {
    && c.header.writeId == meta.writeId && c.header.index == i && c.header.count == meta.chunkCount
    && c.header.offset == offset && c.header.checksum == codec.hash(c.payload)
  }

  /** Joining the payloads of chunks i and after to what is assembled so far. */
  function Joined(meta: Meta, chunks: map<nat, Chunk>, i: nat, soFar: seq<Byte>, codec: Codec): Option<seq<Byte>>
    decreases meta.chunkCount - i
  {
    if i >= meta.chunkCount then Some(soFar)
    else if i in chunks && Agrees(chunks[i], meta, i, |soFar|, codec) then
      Joined(meta, chunks, i + 1, soFar + chunks[i].payload, codec)
    else None
  }

  /** What an item means, given its metadata and its chunks. */
  function Assembled(dim: nat, meta: Meta, chunks: map<nat, Chunk>, codec: Codec): Option<seq<Word>> {
    if meta.dim != dim || meta.encoding != F32_LE || meta.chunkCount == 0 || meta.byteLength != dim * 4 then None
    else match Joined(meta, chunks, 0, [], codec)
         case None => None
         case Some(bytes) =>
           if |bytes| != meta.byteLength || codec.hash(bytes) != meta.checksum then None
           else match Decode(bytes)
                case None => None
                case Some(vector) => if ValidVector(vector, dim) then Some(vector) else None
  }

  method Assemble(dim: nat, meta: Meta, chunks: map<nat, Chunk>, codec: Codec) returns (vector: Option<seq<Word>>)
    ensures vector == Assembled(dim, meta, chunks, codec)
  {
    if meta.dim != dim || meta.encoding != F32_LE || meta.chunkCount == 0 || meta.byteLength != dim * 4 {
      return None;
    }
    var bytes: seq<Byte> := [];
    for i := 0 to meta.chunkCount
      invariant Joined(meta, chunks, 0, [], codec) == Joined(meta, chunks, i, bytes, codec)
    {
      if i !in chunks || !Agrees(chunks[i], meta, i, |bytes|, codec) {
        return None;
      }
      bytes := bytes + chunks[i].payload;
    }
    if |bytes| != meta.byteLength || codec.hash(bytes) != meta.checksum {
      return None;
    }
    vector := Decode(bytes);
    if vector.Some? && !ValidVector(vector.value, dim) {
      vector := None;
    }
  }

  // ---------------------------------------------------------------- what a reading has checked

  ghost predicate There(chunks: map<nat, Chunk>, n: nat) {
    forall i :: 0 <= i < n ==> i in chunks
  }

  /** The payloads of the first n chunks, one after the other. */
  ghost function Payloads(chunks: map<nat, Chunk>, n: nat): seq<Byte>
    requires There(chunks, n)
  {
    if n == 0 then [] else Payloads(chunks, n - 1) + chunks[n - 1].payload
  }

  /** A chunk of the write that the metadata names, at its place and offset, with a payload of its checksum. */
  ghost predicate Checked(meta: Meta, chunks: map<nat, Chunk>, i: nat, codec: Codec) {
    There(chunks, i + 1) &&
    chunks[i].header == Header(meta.writeId, i, meta.chunkCount, |Payloads(chunks, i)|, codec.hash(chunks[i].payload))
  }

  lemma {:induction false} JoinedIsChecked(meta: Meta, chunks: map<nat, Chunk>, i: nat, codec: Codec, bytes: seq<Byte>)
    requires i <= meta.chunkCount && There(chunks, i)
    ensures Joined(meta, chunks, i, Payloads(chunks, i), codec) == Some(bytes) <==>
            && (forall j :: i <= j < meta.chunkCount ==> Checked(meta, chunks, j, codec))
            && There(chunks, meta.chunkCount) && bytes == Payloads(chunks, meta.chunkCount)
    decreases meta.chunkCount - i
  {
    if i < meta.chunkCount && There(chunks, i + 1) {
      JoinedIsChecked(meta, chunks, i + 1, codec, bytes);
      assert Agrees(chunks[i], meta, i, |Payloads(chunks, i)|, codec) <==> Checked(meta, chunks, i, codec);
    }
  }

  /**
    A vector is read if and only if the metadata asks for it and all chunks and checksums are
    right, and it is then the one whose little-endian bytes the payloads hold.
   */
  lemma AssembledIsChecked(dim: nat, meta: Meta, chunks: map<nat, Chunk>, codec: Codec, vector: seq<Word>)
    ensures Assembled(dim, meta, chunks, codec) == Some(vector) <==>
            && meta.dim == dim && meta.encoding == F32_LE && meta.chunkCount > 0 && meta.byteLength == dim * 4
            && (forall j :: 0 <= j < meta.chunkCount ==> Checked(meta, chunks, j, codec))
            && There(chunks, meta.chunkCount)
            && var bytes := Payloads(chunks, meta.chunkCount);
               && |bytes| == meta.byteLength && codec.hash(bytes) == meta.checksum
               && Flat(vector) == bytes && ValidVector(vector, dim)
  {
    match Joined(meta, chunks, 0, [], codec)
    case Some(bytes) =>
      JoinedIsChecked(meta, chunks, 0, codec, bytes);
      DecodesTo(bytes, vector);
    case None =>
      if There(chunks, meta.chunkCount) {
        JoinedIsChecked(meta, chunks, 0, codec, Payloads(chunks, meta.chunkCount));
      }
  }

  // ---------------------------------------------------------------- no torn vectors

  /** The chunk at each index was written, at that index, by the named call. */
  ghost predicate FromCalls(chunks: map<nat, Chunk>, calls: map<string, Call>, writer: map<nat, string>, codec: Codec) {
    forall i :: i in chunks ==>
                  && i in writer && writer[i] in calls && calls[writer[i]].Put? && i < Written(calls[writer[i]])
                  && chunks[i] == ChunkOf(calls[writer[i]], i, codec)
  }

  /** No two calls share a write identifier. */
  ghost predicate Identified(calls: map<string, Call>) {
    forall w :: w in calls ==> calls[w].writeId == w
  }

  predicate Complete(chunks: map<nat, Chunk>, call: Call)
    requires call.Put?
  {
    CompleteFrom(chunks, call, 0)
  }

  /** The chunks from i on are there and come from the call. */
  predicate CompleteFrom(chunks: map<nat, Chunk>, call: Call, i: nat)
    requires call.Put?
  {
    forall j :: i <= j < Declared(call) ==> Has(chunks, call, j)
  }

  predicate Has(chunks: map<nat, Chunk>, call: Call, i: nat) {
    i in chunks && chunks[i].header.writeId == call.writeId
  }

  lemma CompleteSplit(chunks: map<nat, Chunk>, call: Call, i: nat)
    requires call.Put? && i < Declared(call)
    ensures CompleteFrom(chunks, call, i) <==> Has(chunks, call, i) && CompleteFrom(chunks, call, i + 1)
  {
  }

  /** The bytes before chunk i. */
  function Before(call: Call, i: nat): seq<Byte>
    requires call.Put?
  {
    BytesOf(call)[..Min(i * Size(call), |BytesOf(call)|)]
  }

  lemma PieceFollows(call: Call, i: nat)
    requires call.Put? && i < Written(call)
    ensures |Before(call, i)| == i * Size(call) && Before(call, i) + Piece(call, i) == Before(call, i + 1)
  {
    var n, size := |BytesOf(call)|, Size(call);
    CeilDivBounds(n, size, i);
    assert (i + 1) * size == i * size + size;
  }

  lemma BeforeEnd(call: Call)
    requires call.Put?
    ensures Before(call, 0) == [] && Before(call, Declared(call)) == BytesOf(call)
  {
    CeilDivBounds(|BytesOf(call)|, Size(call), Declared(call));
    assert BytesOf(call)[..|BytesOf(call)|] == BytesOf(call);
  }

  /** A chunk fits the metadata of a write only if that write made it. */
  lemma AgreesIsMine(chunks: map<nat, Chunk>, calls: map<string, Call>, writer: map<nat, string>, w: string, i: nat,
                     codec: Codec)
    requires FromCalls(chunks, calls, writer, codec) && Identified(calls)
    requires w in calls && calls[w].Put? && i in chunks
    ensures chunks[i].header.writeId == w ==>
              && i < Written(calls[w])
              && chunks[i] == ChunkOf(calls[w], i, codec)
              && Agrees(chunks[i], MetaOf(calls[w], codec), i, i * Size(calls[w]), codec)
  {
    assert writer[i] in calls && chunks[i] == ChunkOf(calls[writer[i]], i, codec);
  }

  lemma JoinedStep(chunks: map<nat, Chunk>, calls: map<string, Call>, writer: map<nat, string>, w: string, i: nat,
                   codec: Codec)
    requires FromCalls(chunks, calls, writer, codec) && Identified(calls)
    requires w in calls && calls[w].Put? && i < Declared(calls[w])
    ensures Joined(MetaOf(calls[w], codec), chunks, i, Before(calls[w], i), codec) ==
            if Has(chunks, calls[w], i)
            then Joined(MetaOf(calls[w], codec), chunks, i + 1, Before(calls[w], i + 1), codec) else None
  {
    if i in chunks {
      AgreesIsMine(chunks, calls, writer, w, i, codec);
      if chunks[i].header.writeId == w {
        PieceFollows(calls[w], i);
      }
    }
  }

  /** Joining from chunk i on gives all the bytes of the write, or fails on a chunk that is not there. */
  lemma {:induction false} JoinedIsWhole(chunks: map<nat, Chunk>, calls: map<string, Call>, writer: map<nat, string>,
                                        w: string, i: nat, codec: Codec)
    requires FromCalls(chunks, calls, writer, codec) && Identified(calls)
    requires w in calls && calls[w].Put? && i <= Declared(calls[w])
    ensures Joined(MetaOf(calls[w], codec), chunks, i, Before(calls[w], i), codec) ==
            if CompleteFrom(chunks, calls[w], i) then Some(BytesOf(calls[w])) else None
    decreases Declared(calls[w]) - i
  {
    var call := calls[w];
    if i == Declared(call) {
      BeforeEnd(call);
    } else {
      JoinedStep(chunks, calls, writer, w, i, codec);
      CompleteSplit(chunks, call, i);
      JoinedIsWhole(chunks, calls, writer, w, i + 1, codec);
    }
  }

  /** What reading an item gives, whatever mixture of writes its chunks come from. */
  lemma AssembledIsExact(dim: nat, chunks: map<nat, Chunk>, calls: map<string, Call>, writer: map<nat, string>,
                         w: string, codec: Codec)
    requires FromCalls(chunks, calls, writer, codec) && Identified(calls)
    requires w in calls && calls[w].Put? && ValidVector(calls[w].vector, |calls[w].vector|)
    ensures Assembled(dim, MetaOf(calls[w], codec), chunks, codec) ==
            if dim == |calls[w].vector| && Complete(chunks, calls[w]) then Some(calls[w].vector) else None
  {
    DecodeFlat(calls[w].vector);
    JoinedIsWhole(chunks, calls, writer, w, 0, codec);
    BeforeEnd(calls[w]);
  }

  /** The records of an item, each left by some call on it. */
  ghost predicate Mixture(item: Item, id: string, calls: map<string, Call>, w: string, writer: map<nat, string>,
                          codec: Codec) {
    && Identified(calls) && w in calls && item.meta == Some(MetaOf(calls[w], codec))
    && (forall v :: v in calls ==>
       calls[v].id == id && (calls[v].Put? ==> ValidVector(calls[v].vector, |calls[v].vector|)))
    && (forall i :: i in item.chunks ==>
                      && i in writer && writer[i] in calls && calls[writer[i]].Put? && i < Written(calls[writer[i]])
                      && EncodeChunk(ChunkOf(calls[writer[i]], i, codec), codec) == Some(item.chunks[i]))
  }

  /** The chunks the reader needs are there and come from the write the metadata names. */
  ghost predicate Whole(item: Item, call: Call, writer: map<nat, string>)
    requires call.Put?
  {
    forall i :: 0 <= i < Declared(call) ==> i in item.chunks && i in writer && writer[i] == call.writeId
  }

  function Read(call: Call, codec: Codec): Outcome
    requires call.Put?
  {
    Entry(call.vector, call.metadata, call.writeId, codec.hash(BytesOf(call)))
  }

  lemma DecodedMixture(item: Item, id: string, calls: map<string, Call>, w: string, writer: map<nat, string>, i: nat,
                       codec: Codec)
    requires Faithful(codec) && Mixture(item, id, calls, w, writer, codec) && i in item.chunks
    ensures DecodeChunk(item.chunks[i], codec) == Some(ChunkOf(calls[writer[i]], i, codec))
  {
    ChunkRoundTrip(ChunkOf(calls[writer[i]], i, codec), codec);
  }

  /**
    Reading one item. No vector is torn: whatever mixture of the records of several writes is found,
    the outcome is the deletion, the whole vector of the write that the metadata names, or nothing;
    and it is the whole vector exactly when all of that write's chunks are there.
   */
  method ReadItem(dim: nat, id: string, item: Item, codec: Codec,
                  ghost calls: map<string, Call>, ghost w: string, ghost writer: map<nat, string>)
    returns (r: Outcome)
    ensures item.meta == None ==> r == Incomplete
    ensures Faithful(codec) && Mixture(item, id, calls, w, writer, codec) ==>
              r == if calls[w].Delete? then Deleted
                   else if dim == |calls[w].vector| && Whole(item, calls[w], writer) then Read(calls[w], codec)
                   else Incomplete
  {
    var chunks, malformed := CollectChunks(item.chunks, codec);
    if item.meta == None {
      return Incomplete;
    }
    var meta := item.meta.value;
    ghost var known := Faithful(codec) && Mixture(item, id, calls, w, writer, codec);
    if known {
      MixtureCollected(item, id, calls, w, writer, codec);
    }
    if malformed || meta.id != id {
      return Incomplete;
    }
    if meta.deleted {
      return Deleted;
    }
    var vector := Assemble(dim, meta, chunks, codec);
    if known && calls[w].Put? {
      MixtureAssembled(dim, item, id, chunks, calls, w, writer, codec);
    }
    match vector {
      case Some(v) => r := Entry(v, meta.metadata, meta.writeId, meta.checksum);
      case None => r := Incomplete;
    }
  }

  lemma MixtureCollected(item: Item, id: string, calls: map<string, Call>, w: string, writer: map<nat, string>,
                         codec: Codec)
    requires Faithful(codec) && Mixture(item, id, calls, w, writer, codec)
    ensures InPlace(item.chunks, codec)
  {
    forall i | i in item.chunks
      ensures DecodeChunk(item.chunks[i], codec).Some? && DecodeChunk(item.chunks[i], codec).value.header.index == i
    {
      DecodedMixture(item, id, calls, w, writer, i, codec);
    }
  }

  /** The decoded chunks of a mixture, by the calls that wrote them. */
  lemma MixtureFromCalls(item: Item, id: string, chunks: map<nat, Chunk>,
                         calls: map<string, Call>, w: string, writer: map<nat, string>, codec: Codec)
    requires Faithful(codec) && Mixture(item, id, calls, w, writer, codec)
    requires Gathered(item.chunks, {}, chunks, codec)
    ensures FromCalls(chunks, calls, writer, codec)
  {
    forall i | i in chunks ensures i in item.chunks && chunks[i] == ChunkOf(calls[writer[i]], i, codec) {
      assert i in item.chunks;
      DecodedMixture(item, id, calls, w, writer, i, codec);
    }
  }

  lemma CompleteIsWhole(item: Item, chunks: map<nat, Chunk>, calls: map<string, Call>, call: Call,
                        writer: map<nat, string>, codec: Codec)
    requires FromCalls(chunks, calls, writer, codec) && Identified(calls) && call.Put?
    requires chunks.Keys == item.chunks.Keys
    ensures Complete(chunks, call) <==> Whole(item, call, writer)
  {
    forall i | 0 <= i < Declared(call)
      ensures Has(chunks, call, i) <==> i in item.chunks && i in writer && writer[i] == call.writeId
    {
      assert i in chunks ==> i in writer && chunks[i].header.writeId == writer[i];
    }
  }

  lemma MixtureAssembled(dim: nat, item: Item, id: string, chunks: map<nat, Chunk>,
                         calls: map<string, Call>, w: string, writer: map<nat, string>, codec: Codec)
    requires Faithful(codec) && Mixture(item, id, calls, w, writer, codec) && calls[w].Put?
    requires Gathered(item.chunks, {}, chunks, codec)
    ensures Assembled(dim, MetaOf(calls[w], codec), chunks, codec) ==
            if dim == |calls[w].vector| && Whole(item, calls[w], writer) then Some(calls[w].vector) else None
  {
    MixtureFromCalls(item, id, chunks, calls, w, writer, codec);
    CompleteIsWhole(item, chunks, calls, calls[w], writer, codec);
    AssembledIsExact(dim, chunks, calls, writer, w, codec);
  }

  /** Every write reads back: exactly the empty vector, which the configuration excludes, has no chunk to read. */
  lemma WriteReads(call: Call, item: Item, writer: map<nat, string>, codec: Codec)
    requires call.Put? && ValidVector(call.vector, |call.vector|) && Leaves(call, item, codec)
    requires forall i :: i in item.chunks ==> i in writer && writer[i] == call.writeId
    ensures Mixture(item, call.id, map[call.writeId := call], call.writeId, writer, codec)
    ensures Whole(item, call, writer) <==> call.vector != []
  {
    DecodeFlat(call.vector);
    CeilDivBounds(|BytesOf(call)|, Size(call), 0);
    forall i | i in item.chunks ensures EncodeChunk(ChunkOf(call, i, codec), codec) == Some(item.chunks[i]) {
    }
    if call.vector != [] {
      assert Declared(call) == Written(call);
    } else {
      assert 0 !in item.chunks;
    }
  }
}
