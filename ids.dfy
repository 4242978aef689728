/**
 * Content identifiers: a restic ID is a 32-byte SHA-256 digest. Its String
 * form is the hex encoding of its bytes, and a list of IDs is fed to a
 * digest by writing the IDs' bytes one after the other.
 */
module Ids {
  import opened Bytes
  import opened Hex

  const IdLen: nat := 32

  /** A 32-byte content identifier. */
  type ID = s: seq<byte> | |s| == IdLen witness seq(32, i => 0)

  /** ID.String: the 64-character lower-case hex rendering of an ID. */
  function IdString(id: ID): (s: string)
    ensures |s| == 2 * IdLen
    ensures forall i :: 0 <= i < |s| ==> IsHexDigit(s[i])
  {
    Encode(id)
  }

  /** Two IDs have the same String form only if they are the same ID. */
  lemma IdStringInjective(a: ID, b: ID)
    ensures IdString(a) == IdString(b) <==> a == b
  {
    if IdString(a) == IdString(b) {
      EncodeInjective(a, b);
    }
  }

  /** The bytes of the IDs, in list order: what a hasher receives when each ID is written in turn. */
  function Concat(ids: seq<ID>): (r: seq<byte>)
    ensures |r| == IdLen * |ids|
  {
    if ids == [] then [] else Concat(ids[..|ids| - 1]) + ids[|ids| - 1]
  }

  /** Cuts a byte string whose length is a multiple of 32 back into IDs; the partner of Concat. */
  function Split(b: seq<byte>): (ids: seq<ID>)
    requires |b| % IdLen == 0
    ensures IdLen * |ids| == |b|
  {
    if b == [] then [] else Split(b[..|b| - IdLen]) + [b[|b| - IdLen..]]
  }

  /** Writing ids1 then ids2 feeds the concatenation of their bytes. */
  lemma {:induction false} ConcatAppend(ids1: seq<ID>, ids2: seq<ID>)
    ensures Concat(ids1 + ids2) == Concat(ids1) + Concat(ids2)
  {
    if ids2 != [] {
      var last := |ids2| - 1;
      assert (ids1 + ids2)[..|ids1 + ids2| - 1] == ids1 + ids2[..last];
      ConcatAppend(ids1, ids2[..last]);
    } else {
      assert ids1 + ids2 == ids1;
    }
  }

  /** Bytes 32i .. 32i+31 of the concatenation are exactly the i-th ID. */
  lemma {:induction false} ConcatAt(ids: seq<ID>, i: int)
    requires 0 <= i < |ids|
    ensures Concat(ids)[IdLen * i .. IdLen * (i + 1)] == ids[i]
  {
    var n := |ids| - 1;
    var front := Concat(ids[..n]);
    assert Concat(ids) == front + ids[n];
    if i < n {
      ConcatAt(ids[..n], i);
      assert IdLen * (i + 1) <= |front|;
    }
  }

  /** Splitting the concatenation gives back the list of IDs. */
  lemma {:induction false} SplitConcat(ids: seq<ID>)
    ensures Split(Concat(ids)) == ids
  {
    if ids != [] {
      var n := |ids| - 1;
      var b := Concat(ids);
      assert b[..|b| - IdLen] == Concat(ids[..n]);
      assert b[|b| - IdLen..] == ids[n];
      SplitConcat(ids[..n]);
    }
  }

  /** Different ID lists never feed the same bytes to the digest. */
  lemma ConcatInjective(ids1: seq<ID>, ids2: seq<ID>)
    requires Concat(ids1) == Concat(ids2)
    ensures ids1 == ids2
  {
    SplitConcat(ids1);
    SplitConcat(ids2);
  }
}
