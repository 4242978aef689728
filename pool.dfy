/**
 * The process-wide buffer pool of src/restic/pool/pool.go, reduced to what
 * the chunking pipeline needs to account for: how many buffers were handed
 * out, which buffers were given back, in order, and a log of what happened
 * to buffers on loan. Reuse of returned buffers by later calls is not
 * modelled: every buffer handed out is a fresh zeroed one of the chunker's
 * minimum chunk size.
 */
module Pool {
  import opened Bytes

  /** chunker.MinSize: 512 KiB. */
  const MinSize: nat := 512 * 1024

  /** What happens to a pooled buffer: handed out, its bytes read, handed back. */
  datatype BufferEvent = Got | Read(data: seq<byte>) | Freed(data: seq<byte>)

  class BufferPool {
    var acquired: nat                // number of GetBuf calls so far
    var returned: seq<seq<byte>>     // buffers passed to FreeBuf, in call order
    ghost var log: seq<BufferEvent>  // every GetBuf, read of a loaned buffer and FreeBuf, in order

    constructor ()
      ensures acquired == 0 && returned == [] && log == []
    {
      acquired := 0;
      returned := [];
      log := [];
    }

    /** The number of buffers handed out and not given back. */
    function Outstanding(): int
      reads this
    {
      acquired - |returned|
    }

    /** GetBuf on a pool miss: never blocks and never fails; yields a fresh MinSize buffer. */
    method GetBuf() returns (buf: seq<byte>)
      modifies this
      ensures |buf| == MinSize
      ensures acquired == old(acquired) + 1 && returned == old(returned)
      ensures log == old(log) + [Got]
    {
      buf := seq(MinSize, i => 0);
      acquired := acquired + 1;
      log := log + [Got];
    }

    /** Records that the holder of a loaned buffer reads its bytes. */
    ghost method NoteRead(data: seq<byte>)
      modifies this
      ensures acquired == old(acquired) && returned == old(returned)
      ensures log == old(log) + [Read(data)]
    {
      log := log + [Read(data)];
    }

    /** FreeBuf: hands a buffer back for reuse. */
    method FreeBuf(data: seq<byte>)
      modifies this
      ensures returned == old(returned) + [data] && acquired == old(acquired)
      ensures Outstanding() == old(Outstanding()) - 1
      ensures log == old(log) + [Freed(data)]
    {
      returned := returned + [data];
      log := log + [Freed(data)];
    }
  }
}
