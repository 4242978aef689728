/**
 * A SHA-256 hasher as crypto/sha256.New returns it, seen as the bytes
 * written to it so far. The digest function itself is not part of this
 * model: it is supplied by the caller as a function onto 32-byte IDs.
 */
module Sha256 {
  import opened Bytes
  import opened Ids

  class Hasher {
    const digest: seq<byte> -> ID   // SHA-256 of a whole byte string
    var written: seq<byte>          // every byte written so far, in order

    /** sha256.New(). */
    constructor (digest: seq<byte> -> ID)
      ensures this.digest == digest && written == []
    {
      this.digest := digest;
      written := [];
    }

    /** w.Write(p): appends p to the input. */
    method Write(p: seq<byte>)
      modifies this
      ensures written == old(written) + p
    {
      written := written + p;
    }

    /** w.Sum(nil): the digest of everything written; the state is unchanged. */
    method Sum() returns (d: ID)
      ensures d == digest(written)
    {
      d := digest(written);
    }
  }
}
