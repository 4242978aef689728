# Content-defined chunking: ID aggregation (restic `chunker.go`)

This project models the aggregation step of restic's file chunking,
`src/restic/chunker.go`:

- `ChunkHash` folds an ordered list of 32-byte chunk IDs into one
  composite digest. It writes the IDs' bytes, in list order, into a SHA-256
  hasher and returns the sum as lower-case hex.
- `FileChunks` runs the content-defined chunker over a reader until end of
  stream. Every emitted chunk is hashed and its buffer returned to the
  buffer pool. The results are then drained in emission order into two
  things. The first is a map from each ID's String form to the chunk's
  `{Start, Length}`, where a later chunk with the same ID overwrites an
  earlier one. The second is the composite digest over the IDs. A read
  error other than (possibly wrapped) `io.EOF` returns a nil map, the
  empty string and the error wrapped with `"chunker.Next"`.

Modules, leaves first:

- `Wrappers` holds `Option` (Go's nil) and `Result`; `Bytes` holds the
  byte type.
- `Hex` models `hex.EncodeToString` and its inverse.
- `Ids` models the 32-byte ID, its String form, and the concatenation of
  IDs that a hasher receives.
- `Errors` models `io.EOF`, `errors.Wrap` and `errors.Cause`.
- `Pool` is the buffer pool of `src/restic/pool/pool.go`, reduced to an
  acquire counter, a log of returned buffers and a ghost log of buffer
  events (taken, read, handed back).
- `ChunkSource` is the external chunker. It is a class whose `Next`
  walks a finite sequence of chunks and then reports the error that ends
  the stream.
- `Sha256` is the SHA-256 hasher as an object that accumulates the bytes
  written to it.
- `Restic` is `chunker.go` itself: `ChunkHash`, `FileChunks`, the
  goroutine body `HashChunk`, the result-draining loop `Drain` (the second
  loop of `FileChunks`, as its own method), and the specification function
  `ChunkedFile`. `FileChunks` is proved against `ChunkedFile`, which has
  its own lemmas.

SHA-256 and restic's `Hash` are not defined here. Both are parameters of
type `seq<byte> -> ID`: `sha256` is the digest behind `sha256.New`, and
`contentHash` is `Hash`. Every result is stated in terms of the bytes fed
to them.

## Model

| member | source | states |
|---|---|---|
| `Restic.ChunkHash` | src/restic/chunker.go:14-20 | the loop that writes each ID into a fresh hasher yields exactly `Composite(sha256, ids)` |
| `Restic.Composite` | src/restic/chunker.go:14-20 | the composite is 64 lower-case hex characters that decode to the SHA-256 of the IDs' concatenated bytes |
| `Restic.CompositeInput` | src/restic/chunker.go:14-20 | the digested input is 32·n bytes whose i-th 32-byte block is the i-th ID; an empty list gives the hex digest of the empty input |
| `Restic.CompositeInputInjective` | src/restic/chunker.go:16-18 | two ID lists, or two orders of one list, feed the same bytes exactly when they are equal |
| `Ids.Concat` | src/restic/chunker.go:16-18 | writing n IDs feeds 32·n bytes |
| `Ids.ConcatAppend` | src/restic/chunker.go:16-18 | writing ids1 and then ids2 feeds the bytes of ids1 followed by those of ids2 |
| `Ids.ConcatAt` | src/restic/chunker.go:16-18 | bytes 32i..32i+31 of what is written are the i-th ID |
| `Ids.SplitConcat` | src/restic/chunker.go:16-18 | cutting the written bytes into 32-byte blocks gives back the ID list |
| `Ids.ConcatInjective` | src/restic/chunker.go:16-18 | equal written bytes imply equal ID lists |
| `Hex.Encode` | src/restic/chunker.go:19 | hex encoding gives two lower-case hex digits per byte |
| `Hex.EncodeAt` | src/restic/chunker.go:19 | byte i becomes the digits at 2i (high nibble) and 2i+1 (low nibble) |
| `Hex.DecodeEncode` | src/restic/chunker.go:19 | decoding the hex text gives back the bytes |
| `Hex.EncodeInjective` | src/restic/chunker.go:19 | distinct byte strings have distinct hex text |
| `Ids.IdString` | src/restic/chunker.go:63 | an ID's String form is 64 lower-case hex characters |
| `Ids.IdStringInjective` | src/restic/chunker.go:63 | two IDs have the same String form if and only if they are equal |
| `Errors.CausedByEOF` | src/restic/chunker.go:39 | a nil error is not end of stream, a bare io.EOF is, and a plain failure is not |
| `Errors.Cause` | src/restic/chunker.go:39 | `errors.Cause` unwraps to an error that wraps nothing |
| `Errors.WrappedEOF` | src/restic/chunker.go:39 | io.EOF wrapped any number of times still has cause io.EOF |
| `Errors.Wrap` | src/restic/chunker.go:44 | wrapping keeps the cause of the wrapped error |
| `ChunkSource.Chunker.constructor` | src/restic/chunker.go:34 | `chunker.New` starts with every chunk of the stream pending and the stream's ending error |
| `ChunkSource.Chunker.Next` | src/restic/chunker.go:38 | Next yields the pending chunks in order with a nil error, then the zero chunk and the ending error |
| `Pool.BufferPool.GetBuf` | src/restic/pool/pool.go:15-17 | GetBuf never fails; on a pool miss it yields a fresh MinSize buffer; it counts one more acquisition and logs a Got event |
| `Pool.BufferPool.NoteRead` | src/restic/chunker.go:50 | reading a loaned buffer's bytes (what `Hash(chunk.Data)` does) is logged as a Read event and changes nothing else |
| `Pool.BufferPool.FreeBuf` | src/restic/pool/pool.go:19-21 | FreeBuf logs the returned buffer and a Freed event, and lowers the outstanding count by one |
| `Sha256.Hasher.constructor` | src/restic/chunker.go:15 | `sha256.New` gives a hasher that has absorbed nothing |
| `Sha256.Hasher.Write` | src/restic/chunker.go:62 | Write appends its argument to the bytes the hasher has absorbed |
| `Sha256.Hasher.Sum` | src/restic/chunker.go:66 | Sum is the digest of everything written so far |
| `Restic.ToInt64` | src/restic/chunker.go:51 | `int64(x)` of a uint agrees with x modulo 2^64 and equals x below 2^63 |
| `Restic.OffsetsOf` | src/restic/chunker.go:51 | a chunk's recorded start and length equal its own wherever they are below 2^63 |
| `Restic.HashChunk` | src/restic/chunker.go:47-52 | the goroutine computes the chunk's ID and offsets and returns exactly that chunk's buffer to the pool once; the pool log shows the buffer read and only then freed |
| `Restic.PoolEvents` | src/restic/chunker.go:37-54 | the chunk loop logs three pool events per emitted chunk |
| `Restic.PoolEventsAt` | src/restic/chunker.go:38-52 | events 3i, 3i+1, 3i+2 are chunk i's buffer taken, its bytes read, and then its buffer freed: each chunk's buffer is freed exactly once and never before it is read |
| `Restic.OffsetsMap` | src/restic/chunker.go:56-64 | the index built by overwriting under each ID's String form never has more keys than results |
| `Restic.OffsetsMapKeys` | src/restic/chunker.go:56-64 | the keys of the index are exactly the String forms of the results' IDs, and there are no more keys than results |
| `Restic.OffsetsMapLastWins` | src/restic/chunker.go:60-64 | an entry whose ID does not occur later is the value the index keeps for that ID |
| `Restic.Drain` | src/restic/chunker.go:56-66 | reading the results in submission order yields exactly the overwrite-index `OffsetsMap` of the results and the `Composite` of their IDs in that order |
| `Restic.ChunkedFile` | src/restic/chunker.go:32-68 | the outcome succeeds exactly when the ending error's cause is io.EOF; otherwise it is the ending error wrapped with "chunker.Next", with the same cause |
| `Restic.FileChunks` | src/restic/chunker.go:32-68 | returns `ChunkedFile`'s index and composite with a nil error on success, or a nil map, "" and the wrapped error on failure; every emitted chunk's buffer goes back to the pool once, after it is read, in the model's sequential order (the source frees them in goroutine completion order); one buffer per Next call is taken, and the pool log is `PoolEvents` of the chunks followed by the final Got |
| `Restic.ChunkedFileComposite` | src/restic/chunker.go:53-66 | the composite from FileChunks is ChunkHash's composite of the chunk IDs in emission order, and block i of the digested input is the ID of chunk i |
| `Restic.ChunkedFileKeys` | src/restic/chunker.go:56-64 | on success every emitted chunk's ID String is a key, every key comes from some chunk, and there are at most as many keys as chunks |
| `Restic.ChunkedFileLastWins` | src/restic/chunker.go:51-63 | when several chunks share an ID, the index holds the `{Start, Length}` of the last of them |
| `Restic.ChunkedFileEmpty` | src/restic/chunker.go:37-66 | a stream with no chunks ending in io.EOF, wrapped any number of times, gives an empty index and the hex digest of the empty input |
| `Restic.ChunkedFileErrorDiscards` | src/restic/chunker.go:43-45 | on a non-EOF error the outcome is the wrapped error alone, whatever chunks came before it |

## Left out

- The rolling-hash boundary detector (`github.com/restic/chunker`:
  `chunker.New`, `Next`, `Pol`) is not part of this model. A `ChunkStream`
  stands for what it would emit for a given reader and polynomial. Chunk
  sizes, minimum and maximum bounds, boundary placement and the fact that
  chunks tile the input are not modelled.
- `ChunkSource.Chunker.Next`: the buffer passed in is not filled. The
  chunk's bytes come from the stream.
- SHA-256 and `Hash` (restic's `id.go`) are not part of this model. They
  are function parameters returning 32-byte IDs. `ID.String` is taken to be
  the hex encoding of the ID's bytes, which is how restic defines it.
- Goroutines and the buffered result channels are not modelled as
  concurrency. Each chunk is hashed in line when it is emitted, by
  `HashChunk`, and the drain reads the results in emission order, as the
  slice of channels enforces. Completion order is not modelled: in the
  source the `FreeBuf` calls happen in goroutine completion order, while
  the model frees them in emission order. Hashing that outlives an error
  return is not modelled either.
- `Pool.BufferPool`: the reuse of returned buffers by `sync.Pool`, and its
  dropping of buffers during garbage collection, are not modelled.
  `GetBuf` always yields a fresh zeroed buffer of `chunker.MinSize` bytes,
  as on a pool miss. In the source a pool hit may yield a buffer of any
  earlier chunk's length.
  The buffer taken for the final `Next` call, the one that reports EOF or
  the error, is never given back. The model keeps this behaviour: a pool
  backed by the garbage collector tolerates it.
- `Restic.HashChunk`: `Hash` is a pure function parameter, so its read of
  the loaned buffer is recorded by the ghost call `NoteRead` placed where
  the ID is computed. The order of read and free is stated on that ghost
  log, not observed on the bytes themselves.
- `Restic.FileChunks`: the source returns the map by reference and
  `hex.EncodeToString` allocates. Both become values here.
- `Errors.Error` has no message text: the `Error()` strings of wrapped
  errors are not modelled.
- `src/cmds/restic/cmd_ls.go` is not part of this model. It covers
  command-line flags, opening the repository, snapshot filtering and
  printing of the tree.
