/**
 * Hexadecimal text as Node's `Buffer` writes and reads it: `digest('hex')`
 * writes two lower-case digits per byte; `Buffer.from(text, 'hex')` reads
 * digit pairs of either case and stops at the first pair that is not two
 * hex digits, dropping an odd trailing digit.
 */
module Hex {
  import opened Wrappers

  type Byte = b: int | 0 <= b < 256

  /** The lower-case digit `digest('hex')` writes for a nibble. */
  function DigitChar(d: nat): (c: char)
    requires d < 16
    ensures DigitValue(c) == Some(d)
  {
    if d < 10 then ('0' as int + d) as char else ('a' as int + d - 10) as char
  }

  /** The value of one hex digit of either case. */
  function DigitValue(c: char): (r: Option<nat>)
    ensures r.Some? ==> r.value < 16
  {
    if '0' <= c <= '9' then Some(c as int - '0' as int)
    else if 'a' <= c <= 'f' then Some(c as int - 'a' as int + 10)
    else if 'A' <= c <= 'F' then Some(c as int - 'A' as int + 10)
    else None
  }

  /** `digest('hex')`: two lower-case digits per byte, high nibble first. */
  function Encode(bytes: seq<Byte>): (r: string)
    ensures |r| == 2 * |bytes|
    ensures forall k :: 0 <= k < |r| ==> DigitValue(r[k]).Some?
  {
    if bytes == [] then []
    else [DigitChar(bytes[0] / 16), DigitChar(bytes[0] % 16)] + Encode(bytes[1..])
  }

  /** `Buffer.from(text, 'hex')`. */
  function Decode(text: string): (r: seq<Byte>)
    ensures |r| <= |text| / 2
  {
    if |text| < 2 then []
    else
      match (DigitValue(text[0]), DigitValue(text[1]))
      case (Some(hi), Some(lo)) => [hi * 16 + lo] + Decode(text[2..])
      case _ => []
  }

  /**
   * Decoding what was encoded, followed by any text, gives the bytes back
   * and then whatever that text decodes to on its own.
   */
  lemma {:induction false} DecodeEncodeAppend(bytes: seq<Byte>, rest: string)
    ensures Decode(Encode(bytes) + rest) == bytes + Decode(rest)
  {
    if bytes != [] {
      var b := bytes[0];
      var t := Encode(bytes) + rest;
      assert t == [DigitChar(b / 16), DigitChar(b % 16)] + (Encode(bytes[1..]) + rest);
      assert t[2..] == Encode(bytes[1..]) + rest;
      DecodeEncodeAppend(bytes[1..], rest);
      assert (b / 16) * 16 + b % 16 == b;
      assert bytes == [b] + bytes[1..];
    } else {
      assert Encode(bytes) + rest == rest;
    }
  }

  /** Round trip: the hex text of some bytes decodes to exactly those bytes. */
  lemma DecodeEncode(bytes: seq<Byte>)
    ensures Decode(Encode(bytes)) == bytes
  {
    DecodeEncodeAppend(bytes, []);
    assert Encode(bytes) + [] == Encode(bytes);
  }
}
