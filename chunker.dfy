/**
 * src/restic/chunker.go: splitting a file into content-defined chunks,
 * identifying each chunk by the SHA-256 of its bytes, and folding the
 * chunk IDs into an offsets index and one composite digest.
 *
 * The two digest functions are parameters: `contentHash` is restic's Hash
 * (the ID of a chunk's bytes) and `sha256` is the digest that the hasher
 * returned by sha256.New computes over everything written to it.
 */
module Restic {
  import opened Wrappers
  import opened Bytes
  import opened Hex
  import opened Ids
  import opened Errors
  import opened Pool
  import opened ChunkSource
  import opened Sha256

  /** Go's int64. */
  type int64 = x: int | -0x8000_0000_0000_0000 <= x < 0x8000_0000_0000_0000

  const TwoTo64: int := 0x1_0000_0000_0000_0000

  /** The conversion int64(x) of a Go uint: the same bits read as two's complement. */
  function ToInt64(x: uint): (r: int64)
    ensures (x - r) % TwoTo64 == 0
    ensures x < 0x8000_0000_0000_0000 ==> r == x
  {
    if x < 0x8000_0000_0000_0000 then x else x - TwoTo64
  }

  /** chunkOffsets: where a chunk lies in the file. */
  datatype ChunkOffsets = ChunkOffsets(start: int64, length: int64)

  /** chunkResult: what a hashing goroutine sends back for one chunk. */
  datatype ChunkResult = ChunkResult(id: ID, offsets: ChunkOffsets)

  /** The offsets a chunk is recorded with: its start and length as int64, unchanged below 2^63. */
  function OffsetsOf(c: Chunk): (o: ChunkOffsets)
    ensures c.start < 0x8000_0000_0000_0000 ==> o.start == c.start
    ensures c.length < 0x8000_0000_0000_0000 ==> o.length == c.length
  {
    ChunkOffsets(ToInt64(c.start), ToInt64(c.length))
  }

  /** The result computed for one chunk. */
  function ResultOf(contentHash: seq<byte> -> ID, c: Chunk): ChunkResult {
    ChunkResult(contentHash(c.data), OffsetsOf(c))
  }

  /** The results of a sequence of chunks, in the order the chunks came. */
  function Results(contentHash: seq<byte> -> ID, cs: seq<Chunk>): seq<ChunkResult> {
    seq(|cs|, i requires 0 <= i < |cs| => ResultOf(contentHash, cs[i]))
  }

  /** The IDs of a sequence of results, in the same order. */
  function IdsOf(rs: seq<ChunkResult>): seq<ID> {
    seq(|rs|, i requires 0 <= i < |rs| => rs[i].id)
  }

  /** The buffers of a sequence of chunks, in the same order. */
  function Buffers(cs: seq<Chunk>): seq<seq<byte>> {
    seq(|cs|, i requires 0 <= i < |cs| => cs[i].data)
  }

  // ---------------------------------------------------------------------
  // ChunkHash: the composite digest of an ordered list of IDs
  // ---------------------------------------------------------------------

  /**
   * The composite digest of a list of IDs: the hex text of the SHA-256 of
   * the IDs' bytes written one after the other.
   */
  function Composite(sha256: seq<byte> -> ID, ids: seq<ID>): (s: string)
    ensures |s| == 64
    ensures forall i :: 0 <= i < |s| ==> IsHexDigit(s[i])
    ensures Decode(s).Some? && Decode(s).value == sha256(Concat(ids))
  {
    DecodeEncode(sha256(Concat(ids)));
    Encode(sha256(Concat(ids)))
  }

  /** ChunkHash: writes every ID into a fresh SHA-256 hasher, then hex-encodes the sum. */
  method ChunkHash(sha256: seq<byte> -> ID, ids: seq<ID>) returns (s: string)
    ensures s == Composite(sha256, ids)
  {
    var w := new Hasher(sha256);
    for i := 0 to |ids|
      invariant w.digest == sha256
      invariant w.written == Concat(ids[..i])
    {
      w.Write(ids[i]);
      assert ids[..i + 1][..i] == ids[..i];
    }
    assert ids[..|ids|] == ids;
    var sum := w.Sum();
    s := Encode(sum);
  }

  /**
   * The bytes digested for a composite are exactly the IDs in list order:
   * 32 bytes per ID, the i-th block being the i-th ID; an empty list
   * digests the empty input.
   */
  lemma CompositeInput(sha256: seq<byte> -> ID, ids: seq<ID>)
    ensures exists b: seq<byte> ::
      && Decode(Composite(sha256, ids)).Some? && Decode(Composite(sha256, ids)).value == sha256(b)
      && |b| == IdLen * |ids|
      && (forall i :: 0 <= i < |ids| ==> b[IdLen * i .. IdLen * (i + 1)] == ids[i])
    ensures ids == [] ==> Composite(sha256, ids) == Encode(sha256([]))
  {
    var b := Concat(ids);
    forall i | 0 <= i < |ids|
      ensures b[IdLen * i .. IdLen * (i + 1)] == ids[i]
    {
      ConcatAt(ids, i);
    }
  }

  /** The digest input determines the ID list: two lists, or two orders of one list, feed the same bytes only if they are equal. */
  lemma CompositeInputInjective(ids1: seq<ID>, ids2: seq<ID>)
    ensures Concat(ids1) == Concat(ids2) <==> ids1 == ids2
  {
    if Concat(ids1) == Concat(ids2) {
      ConcatInjective(ids1, ids2);
    }
  }

  // ---------------------------------------------------------------------
  // The offsets index
  // ---------------------------------------------------------------------

  /**
   * The map built by storing results in order under their ID's String form;
   * later entries overwrite earlier ones, so there are never more keys than
   * results.
   */
  function OffsetsMap(rs: seq<ChunkResult>): (m: map<string, ChunkOffsets>)
    ensures |m| <= |rs|
  {
    if rs == [] then map[]
    else OffsetsMap(rs[..|rs| - 1])[IdString(rs[|rs| - 1].id) := rs[|rs| - 1].offsets]
  }

  /** The String forms of the results' IDs. */
  function KeyStrings(rs: seq<ChunkResult>): set<string> {
    set i | 0 <= i < |rs| :: IdString(rs[i].id)
  }

  /** Dropping the last result drops at most its key. */
  lemma KeyStringsSnoc(rs: seq<ChunkResult>)
    requires rs != []
    ensures KeyStrings(rs) == KeyStrings(rs[..|rs| - 1]) + {IdString(rs[|rs| - 1].id)}
  {
  }

  /** The keys of the index are exactly the String forms of the results' IDs, and there are at most as many as results. */
  lemma {:induction false} OffsetsMapKeys(rs: seq<ChunkResult>)
    ensures OffsetsMap(rs).Keys == KeyStrings(rs)
    ensures |OffsetsMap(rs)| <= |rs|
  {
    if rs != [] {
      OffsetsMapKeys(rs[..|rs| - 1]);
      KeyStringsSnoc(rs);
    }
  }

  /** An entry whose ID does not occur later in the sequence is the one the index keeps for that ID. */
  lemma {:induction false} OffsetsMapLastWins(rs: seq<ChunkResult>, i: int)
    requires 0 <= i < |rs|
    requires forall j :: i < j < |rs| ==> rs[j].id != rs[i].id
    ensures IdString(rs[i].id) in OffsetsMap(rs)
    ensures OffsetsMap(rs)[IdString(rs[i].id)] == rs[i].offsets
  {
    var n := |rs| - 1;
    if i < n {
      OffsetsMapLastWins(rs[..n], i);
      IdStringInjective(rs[n].id, rs[i].id);
    }
  }

  // ---------------------------------------------------------------------
  // FileChunks
  // ---------------------------------------------------------------------

  /** What FileChunks produces on success. */
  datatype Index = Index(offsets: map<string, ChunkOffsets>, composite: string)

  /**
   * The outcome FileChunks is specified by: on end of stream, the index of
   * all chunk results and the composite over their IDs in stream order;
   * on any other error, that error wrapped with "chunker.Next" and nothing
   * else.
   */
  function ChunkedFile(contentHash: seq<byte> -> ID, sha256: seq<byte> -> ID, stream: ChunkStream)
    : (r: Result<Index, Error>)
    ensures r.Ok? <==> Cause(stream.ending) == EOF
    ensures r.Err? ==> Cause(r.error) == Cause(stream.ending) && r.error == Wrapped("chunker.Next", stream.ending)
  {
    if Cause(stream.ending) == EOF then
      var rs := Results(contentHash, stream.chunks);
      Ok(Index(OffsetsMap(rs), Composite(sha256, IdsOf(rs))))
    else
      Err(Wrap(stream.ending, "chunker.Next"))
  }

  /**
   * The pool events of a run of emitted chunks: for each chunk in turn, a
   * buffer is taken for the Next call that yields it, the chunk's bytes are
   * read to compute its ID, and then its buffer is handed back.
   */
  function PoolEvents(cs: seq<Chunk>): (log: seq<BufferEvent>)
    ensures |log| == 3 * |cs|
  {
    if cs == [] then []
    else
      var c := cs[|cs| - 1];
      PoolEvents(cs[..|cs| - 1]) + [Got, Read(c.data), Freed(c.data)]
  }

  /**
   * Events 3i, 3i+1 and 3i+2 belong to chunk i: its buffer is taken, its
   * bytes are read, and only then is it handed back. Since these positions
   * cover the whole log, every chunk's buffer is handed back exactly once,
   * and never before it was read.
   */
  lemma {:induction false} PoolEventsAt(cs: seq<Chunk>, i: int)
    requires 0 <= i < |cs|
    ensures PoolEvents(cs)[3 * i] == Got
    ensures PoolEvents(cs)[3 * i + 1] == Read(cs[i].data)
    ensures PoolEvents(cs)[3 * i + 2] == Freed(cs[i].data)
  {
    var n := |cs| - 1;
    if i < n {
      PoolEventsAt(cs[..n], i);
    }
  }

  /** One more chunk emitted: its result, its buffer and its pool events follow those of the chunks before it. */
  lemma ExtendPrefix(contentHash: seq<byte> -> ID, cs: seq<Chunk>, k: int)
    requires 0 <= k < |cs|
    ensures Results(contentHash, cs[..k + 1]) == Results(contentHash, cs[..k]) + [ResultOf(contentHash, cs[k])]
    ensures Buffers(cs[..k + 1]) == Buffers(cs[..k]) + [cs[k].data]
    ensures PoolEvents(cs[..k + 1]) == PoolEvents(cs[..k]) + [Got, Read(cs[k].data), Freed(cs[k].data)]
  {
    assert cs[..k + 1][..k] == cs[..k];
  }

  /** One more result drained: the index gains its entry and the hasher its ID. */
  lemma DrainStep(rs: seq<ChunkResult>, i: int)
    requires 0 <= i < |rs|
    ensures OffsetsMap(rs[..i + 1]) == OffsetsMap(rs[..i])[IdString(rs[i].id) := rs[i].offsets]
    ensures Concat(IdsOf(rs[..i + 1])) == Concat(IdsOf(rs[..i])) + rs[i].id
  {
    assert rs[..i + 1][..i] == rs[..i];
    assert IdsOf(rs[..i + 1])[..i] == IdsOf(rs[..i]);
  }

  /**
   * The goroutine started for each chunk: computes the chunk's ID, reading
   * the loaned buffer, and on the way out (the deferred call) gives the
   * buffer back to the pool, once.
   */
  method HashChunk(chunk: Chunk, pool: BufferPool, contentHash: seq<byte> -> ID) returns (result: ChunkResult)
    modifies pool
    ensures result.id == contentHash(chunk.data) && result.offsets == OffsetsOf(chunk)
    ensures pool.returned == old(pool.returned) + [chunk.data]
    ensures pool.acquired == old(pool.acquired)
    ensures pool.log == old(pool.log) + [Read(chunk.data), Freed(chunk.data)]
  {
    pool.NoteRead(chunk.data);
    var id := contentHash(chunk.data);
    result := ChunkResult(id, OffsetsOf(chunk));
    pool.FreeBuf(chunk.data);
  }

  /**
   * The second loop of FileChunks: receives the results in the order the
   * chunks were submitted (the order of the slice of channels, not the
   * order in which hashing finished), writes each ID into a fresh hasher
   * and stores each offsets pair under the ID's String form, overwriting
   * any earlier entry; then hex-encodes the hasher's sum.
   */
  method Drain(resultChannels: seq<ChunkResult>, sha256: seq<byte> -> ID)
    returns (results: map<string, ChunkOffsets>, composite: string)
    ensures results == OffsetsMap(resultChannels)
    ensures composite == Composite(sha256, IdsOf(resultChannels))
  {
    results := map[];
    var w := new Hasher(sha256);
    for i := 0 to |resultChannels|
      invariant w.digest == sha256
      invariant results == OffsetsMap(resultChannels[..i])
      invariant w.written == Concat(IdsOf(resultChannels[..i]))
    {
      var result := resultChannels[i];
      w.Write(result.id);
      results := results[IdString(result.id) := result.offsets];
      DrainStep(resultChannels, i);
    }
    assert resultChannels[..|resultChannels|] == resultChannels;
    var sum := w.Sum();
    composite := Encode(sum);
  }

  /**
   * FileChunks: runs the chunker to the end of the stream, hashing every
   * chunk as it is emitted, then reads the results back in emission order
   * into the offsets index and the composite digest. A read error other
   * than end of stream returns a nil index, the empty string and the
   * wrapped error. A buffer is taken from the pool for every call of Next;
   * each emitted chunk's buffer goes back once, after its ID is computed,
   * and the buffer of the final call (the one that reports the end or the
   * error) does not go back.
   */
  method FileChunks(stream: ChunkStream, pool: BufferPool, contentHash: seq<byte> -> ID, sha256: seq<byte> -> ID)
    returns (results: Option<map<string, ChunkOffsets>>, composite: string, err: Option<Error>)
    modifies pool
    ensures ChunkedFile(contentHash, sha256, stream).Ok? ==>
      && results == Some(ChunkedFile(contentHash, sha256, stream).value.offsets)
      && composite == ChunkedFile(contentHash, sha256, stream).value.composite
      && err == None
    ensures ChunkedFile(contentHash, sha256, stream).Err? ==>
      && results == None
      && composite == ""
      && err == Some(ChunkedFile(contentHash, sha256, stream).error)
    ensures pool.returned == old(pool.returned) + Buffers(stream.chunks)
    ensures pool.acquired == old(pool.acquired) + |stream.chunks| + 1
    ensures pool.Outstanding() == old(pool.Outstanding()) + 1
    ensures pool.log == old(pool.log) + PoolEvents(stream.chunks) + [Got]
  {
    var chnker := new Chunker(stream);
    var resultChannels: seq<ChunkResult> := [];
    while true
      invariant |resultChannels| <= |stream.chunks|
      invariant chnker.ending == stream.ending
      invariant chnker.pending == stream.chunks[|resultChannels|..]
      invariant resultChannels == Results(contentHash, stream.chunks[..|resultChannels|])
      invariant pool.returned == old(pool.returned) + Buffers(stream.chunks[..|resultChannels|])
      invariant pool.acquired == old(pool.acquired) + |resultChannels|
      invariant pool.log == old(pool.log) + PoolEvents(stream.chunks[..|resultChannels|])
      decreases |chnker.pending|
    {
      var buf := pool.GetBuf();
      var chunk, e := chnker.Next(buf);
      if CausedByEOF(e) {
        break;
      }
      if e.Some? {
        assert stream.chunks[..|resultChannels|] == stream.chunks;
        return None, "", Some(Wrap(e.value, "chunker.Next"));
      }
      ExtendPrefix(contentHash, stream.chunks, |resultChannels|);
      var result := HashChunk(chunk, pool, contentHash);
      resultChannels := resultChannels + [result];
    }
    assert stream.chunks[..|resultChannels|] == stream.chunks;

    var m, digest := Drain(resultChannels, sha256);
    return Some(m), digest, None;
  }

  // ---------------------------------------------------------------------
  // Properties of the FileChunks outcome
  // ---------------------------------------------------------------------

  /** The content IDs of a sequence of chunks, in stream order. */
  function ContentIds(contentHash: seq<byte> -> ID, cs: seq<Chunk>): seq<ID> {
    seq<ID>(|cs|, i requires 0 <= i < |cs| => contentHash(cs[i].data))
  }

  /**
   * On success the composite is the ChunkHash of the chunks' IDs in the
   * order the chunker emitted them: the i-th 32-byte block of the digested
   * input is the ID of the i-th chunk.
   */
  lemma ChunkedFileComposite(contentHash: seq<byte> -> ID, sha256: seq<byte> -> ID, stream: ChunkStream)
    requires Cause(stream.ending) == EOF
    ensures ChunkedFile(contentHash, sha256, stream).Ok?
    ensures ChunkedFile(contentHash, sha256, stream).value.composite
         == Composite(sha256, ContentIds(contentHash, stream.chunks))
    ensures forall i :: 0 <= i < |stream.chunks| ==>
      Concat(ContentIds(contentHash, stream.chunks))[IdLen * i .. IdLen * (i + 1)] == contentHash(stream.chunks[i].data)
  {
    var ids := ContentIds(contentHash, stream.chunks);
    assert IdsOf(Results(contentHash, stream.chunks)) == ids;
    forall i | 0 <= i < |stream.chunks|
      ensures Concat(ids)[IdLen * i .. IdLen * (i + 1)] == contentHash(stream.chunks[i].data)
    {
      ConcatAt(ids, i);
    }
  }

  /**
   * On success every emitted chunk's ID String is a key of the index, no
   * other key appears, and there are no more keys than chunks.
   */
  lemma ChunkedFileKeys(contentHash: seq<byte> -> ID, sha256: seq<byte> -> ID, stream: ChunkStream)
    requires Cause(stream.ending) == EOF
    ensures ChunkedFile(contentHash, sha256, stream).Ok?
    ensures var offsets := ChunkedFile(contentHash, sha256, stream).value.offsets;
      && (forall i :: 0 <= i < |stream.chunks| ==> IdString(contentHash(stream.chunks[i].data)) in offsets)
      && (forall k :: k in offsets ==> exists i :: 0 <= i < |stream.chunks| && IdString(contentHash(stream.chunks[i].data)) == k)
      && |offsets| <= |stream.chunks|
  {
    var rs := Results(contentHash, stream.chunks);
    OffsetsMapKeys(rs);
    forall k | k in OffsetsMap(rs)
      ensures exists i :: 0 <= i < |stream.chunks| && IdString(contentHash(stream.chunks[i].data)) == k
    {
      var i :| 0 <= i < |rs| && IdString(rs[i].id) == k;
      assert rs[i].id == contentHash(stream.chunks[i].data);
    }
    forall i | 0 <= i < |stream.chunks|
      ensures IdString(contentHash(stream.chunks[i].data)) in OffsetsMap(rs)
    {
      assert rs[i].id == contentHash(stream.chunks[i].data);
      assert IdString(rs[i].id) in KeyStrings(rs);
    }
  }

  /**
   * When several chunks share an ID, the index holds the offsets of the
   * last of them in stream order.
   */
  lemma ChunkedFileLastWins(contentHash: seq<byte> -> ID, sha256: seq<byte> -> ID, stream: ChunkStream, i: int)
    requires Cause(stream.ending) == EOF
    requires 0 <= i < |stream.chunks|
    requires forall j :: i < j < |stream.chunks| ==> contentHash(stream.chunks[j].data) != contentHash(stream.chunks[i].data)
    ensures ChunkedFile(contentHash, sha256, stream).Ok?
    ensures var offsets := ChunkedFile(contentHash, sha256, stream).value.offsets;
      && IdString(contentHash(stream.chunks[i].data)) in offsets
      && offsets[IdString(contentHash(stream.chunks[i].data))] == OffsetsOf(stream.chunks[i])
  {
    var rs := Results(contentHash, stream.chunks);
    assert forall j :: i < j < |rs| ==> rs[j].id != rs[i].id by {
      forall j | i < j < |rs| ensures rs[j].id != rs[i].id {
        assert rs[j].id == contentHash(stream.chunks[j].data);
      }
    }
    OffsetsMapLastWins(rs, i);
  }

  /**
   * End of stream, however deeply the io.EOF is wrapped, ends chunking
   * normally; a stream with no chunks gives an empty index and the hex
   * digest of the empty input.
   */
  lemma ChunkedFileEmpty(contentHash: seq<byte> -> ID, sha256: seq<byte> -> ID, msgs: seq<string>)
    ensures ChunkedFile(contentHash, sha256, ChunkStream([], WrapAll(EOF, msgs)))
         == Ok(Index(map[], Encode(sha256([]))))
  {
    WrappedEOF(msgs);
    assert IdsOf(Results(contentHash, [])) == [];
  }

  /**
   * A read failure discards everything collected before it: the outcome
   * depends only on the error, not on the chunks emitted before it.
   */
  lemma ChunkedFileErrorDiscards(contentHash: seq<byte> -> ID, sha256: seq<byte> -> ID, s1: ChunkStream, s2: ChunkStream)
    requires s1.ending == s2.ending && Cause(s1.ending) != EOF
    ensures ChunkedFile(contentHash, sha256, s1) == ChunkedFile(contentHash, sha256, s2)
    ensures ChunkedFile(contentHash, sha256, s1) == Err(Wrapped("chunker.Next", s1.ending))
  {
  }
}
