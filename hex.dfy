/**
 * Base16 ("hex") encoding of byte strings, as Go's encoding/hex package
 * performs it: every byte becomes two lower-case hex digits, high nibble
 * first, in byte order (section 8 of RFC 4648, lower-case alphabet).
 */
module Hex {
  import opened Wrappers
  import opened Bytes

  /** A lower-case hex digit: '0'..'9' or 'a'..'f'. */
  predicate IsHexDigit(c: char) {
    '0' <= c <= '9' || 'a' <= c <= 'f'
  }

  /** The digit of the alphabet "0123456789abcdef" at position n. */
  function Digit(n: int): (c: char)
    requires 0 <= n < 16
    ensures IsHexDigit(c)
  {
    if n < 10 then ('0' as int + n) as char else ('a' as int + n - 10) as char
  }

  /** The value of a lower-case hex digit; inverse of Digit. */
  function DigitValue(c: char): (n: int)
    requires IsHexDigit(c)
    ensures 0 <= n < 16 && Digit(n) == c
  {
    if c <= '9' then c as int - '0' as int else c as int - 'a' as int + 10
  }

  /** hex.EncodeToString: two digits per byte, high nibble first. */
  function Encode(b: seq<byte>): (s: string)
    ensures |s| == 2 * |b|
    ensures forall i :: 0 <= i < |s| ==> IsHexDigit(s[i])
  {
    if b == [] then [] else [Digit(b[0] / 16), Digit(b[0] % 16)] + Encode(b[1..])
  }

  /** Decoding of lower-case hex text; None on odd length or a non-digit. */
  function Decode(s: string): (r: Option<seq<byte>>)
    ensures r.Some? ==> 2 * |r.value| == |s|
  {
    if s == [] then Some([])
    else if |s| < 2 || !IsHexDigit(s[0]) || !IsHexDigit(s[1]) then None
    else
      match Decode(s[2..])
      case None => None
      case Some(rest) => Some([16 * DigitValue(s[0]) + DigitValue(s[1])] + rest)
  }

  /** The digits of byte i sit at positions 2i and 2i+1 of the encoding. */
  lemma {:induction false} EncodeAt(b: seq<byte>, i: int)
    requires 0 <= i < |b|
    ensures Encode(b)[2 * i] == Digit(b[i] / 16)
    ensures Encode(b)[2 * i + 1] == Digit(b[i] % 16)
  {
    if i > 0 {
      EncodeAt(b[1..], i - 1);
    }
  }

  /** Decoding undoes encoding. */
  lemma {:induction false} DecodeEncode(b: seq<byte>)
    ensures Decode(Encode(b)) == Some(b)
  {
    if b != [] {
      var s := Encode(b);
      assert s[2..] == Encode(b[1..]);
      DecodeEncode(b[1..]);
      assert 16 * DigitValue(s[0]) + DigitValue(s[1]) == b[0];
      assert [b[0]] + b[1..] == b;
    }
  }

  /** Encoding is injective: distinct byte strings give distinct text. */
  lemma EncodeInjective(a: seq<byte>, b: seq<byte>)
    requires Encode(a) == Encode(b)
    ensures a == b
  {
    DecodeEncode(a);
    DecodeEncode(b);
  }
}
