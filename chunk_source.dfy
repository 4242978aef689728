/**
 * The content-defined chunker of github.com/restic/chunker, which is not
 * part of this model, seen from outside: for a given reader and polynomial
 * it yields a finite sequence of chunks and then an error, which is io.EOF
 * (possibly wrapped) at the end of the stream or a read failure.
 */
module ChunkSource {
  import opened Bytes
  import opened Wrappers
  import opened Errors

  /** Go's uint on a 64-bit platform. */
  type uint = x: int | 0 <= x < 0x1_0000_0000_0000_0000

  /** chunker.Chunk: where the chunk starts in the stream, its length, its bytes. */
  datatype Chunk = Chunk(start: uint, length: uint, data: seq<byte>)

  /** What chunker.New(rd, pol) will produce: its chunks, then the error that ends them. */
  datatype ChunkStream = ChunkStream(chunks: seq<Chunk>, ending: Error)

  /** The chunker.Chunker object: a forward-only cursor over its stream. */
  class Chunker {
    var pending: seq<Chunk>
    const ending: Error

    /** chunker.New(rd, pol). */
    constructor (stream: ChunkStream)
      ensures pending == stream.chunks && ending == stream.ending
    {
      pending := stream.chunks;
      ending := stream.ending;
    }

    /**
     * Next(buf): the next chunk and a nil error, or, once the chunks are
     * exhausted, the zero chunk and the stream's ending error (every time).
     * The buffer would hold the chunk's bytes; the model takes them from
     * the stream instead.
     */
    method Next(buf: seq<byte>) returns (chunk: Chunk, err: Option<Error>)
      modifies this
      ensures old(pending) != [] ==> chunk == old(pending)[0] && err == None && pending == old(pending)[1..]
      ensures old(pending) == [] ==> chunk == Chunk(0, 0, []) && err == Some(ending) && pending == []
    {
      if pending == [] {
        chunk, err := Chunk(0, 0, []), Some(ending);
      } else {
        chunk, err := pending[0], None;
        pending := pending[1..];
      }
    }
  }
}
