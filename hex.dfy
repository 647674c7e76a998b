/**
 * Base16 encoding (section 8 of RFC 4648) as Node's `Buffer` does it:
 * `toString("hex")` writes lower-case digits, and `Buffer.from(s, "hex")`
 * reads digits of either case, two per byte, and stops at the first pair
 * that is not two hexadecimal digits (a trailing single digit is dropped).
 */
module Hex {
  import Text

  newtype byte = x: int | 0 <= x < 256

  const Digits: string := "0123456789abcdef"

  predicate IsHexDigit(c: char)
  {
    '0' <= c <= '9' || 'a' <= c <= 'f' || 'A' <= c <= 'F'
  }

  /** The value of one hexadecimal digit, or -1 for any other character. */
  function DigitValue(c: char): (v: int)
    ensures IsHexDigit(c) <==> 0 <= v < 16
    ensures !IsHexDigit(c) ==> v == -1
  {
    if '0' <= c <= '9' then c as int - '0' as int
    else if 'a' <= c <= 'f' then c as int - 'a' as int + 10
    else if 'A' <= c <= 'F' then c as int - 'A' as int + 10
    else -1
  }

  function DigitChar(n: int): (c: char)
    requires 0 <= n < 16
    ensures IsHexDigit(c) && DigitValue(c) == n
    ensures !('A' <= c <= 'Z')
  {
    Digits[n]
  }

  /** `Buffer.toString("hex")`. */
  function Encode(bs: seq<byte>): (s: string)
    ensures |s| == 2 * |bs|
    ensures forall i | 0 <= i < |s| :: IsHexDigit(s[i]) && !('A' <= s[i] <= 'Z')
  {
    if bs == [] then []
    else [DigitChar(bs[0] as int / 16), DigitChar(bs[0] as int % 16)] + Encode(bs[1..])
  }

  /** `Buffer.from(s, "hex")`. */
  function Decode(s: string): (bs: seq<byte>)
    ensures 2 * |bs| <= |s|
  {
    if |s| < 2 || !IsHexDigit(s[0]) || !IsHexDigit(s[1]) then []
    else [(DigitValue(s[0]) * 16 + DigitValue(s[1])) as byte] + Decode(s[2..])
  }

  /** Hex digits never include the envelope separator. */
  lemma EncodeHasNoColon(bs: seq<byte>)
    ensures ':' !in Encode(bs)
  {
  }

  /** Decoding the hex of a byte sequence gives that sequence back. */
  lemma DecodeEncode(bs: seq<byte>)
    ensures Decode(Encode(bs)) == bs
  {
    DecodeEncodeThenJunk(bs, []);
    assert Encode(bs) + [] == Encode(bs);
  }

  /** Anything after well-formed hex that starts with a non-digit is ignored by the decoder. */
  lemma {:induction false} DecodeEncodeThenJunk(bs: seq<byte>, rest: string)
    requires rest == [] || !IsHexDigit(rest[0])
    ensures Decode(Encode(bs) + rest) == bs
  {
    if bs == [] {
      assert Encode(bs) + rest == rest;
    } else {
      var hi, lo := DigitChar(bs[0] as int / 16), DigitChar(bs[0] as int % 16);
      EncodeFirst(bs);
      DecodeEncodeThenJunk(bs[1..], rest);
      ByteDigits(bs[0]);
      DecodeStep(hi, lo, Encode(bs[1..]), rest, bs[0], bs[1..]);
    }
  }

  /** One byte's digits in front of input the decoder reads as `bs` make it read one byte more. */
  lemma DecodeStep(hi: char, lo: char, tail: string, rest: string, b: byte, bs: seq<byte>)
    requires IsHexDigit(hi) && IsHexDigit(lo)
    requires (DigitValue(hi) * 16 + DigitValue(lo)) as byte == b
    requires Decode(tail + rest) == bs
    ensures Decode(([hi, lo] + tail) + rest) == [b] + bs
  {
    Text.Assoc([hi, lo], tail, rest);
    DecodePair(hi, lo, tail + rest);
  }

  /** The decoder turns two leading digits into one byte and goes on with the rest. */
  lemma DecodePair(hi: char, lo: char, rest: string)
    requires IsHexDigit(hi) && IsHexDigit(lo)
    ensures Decode([hi, lo] + rest) == [(DigitValue(hi) * 16 + DigitValue(lo)) as byte] + Decode(rest)
  {
    var s := [hi, lo] + rest;
    assert s[0] == hi && s[1] == lo && s[2..] == rest;
  }

  lemma EncodeFirst(bs: seq<byte>)
    requires bs != []
    ensures Encode(bs) == [DigitChar(bs[0] as int / 16), DigitChar(bs[0] as int % 16)] + Encode(bs[1..])
  {
  }

  /** The two digits written for a byte read back as that byte. */
  lemma ByteDigits(b: byte)
    ensures (DigitValue(DigitChar(b as int / 16)) * 16 + DigitValue(DigitChar(b as int % 16))) as byte == b
  {
    assert (b as int / 16) * 16 + b as int % 16 == b as int;
  }

  /** The decoder does not distinguish the case of the digits. */
  lemma {:induction false} DecodeIgnoresCase(s: string, t: string)
    requires |s| == |t|
    requires forall i | 0 <= i < |s| :: DigitValue(s[i]) == DigitValue(t[i])
    ensures Decode(s) == Decode(t)
    decreases |s|
  {
    if |s| >= 2 {
      assert DigitValue(s[0]) == DigitValue(t[0]) && DigitValue(s[1]) == DigitValue(t[1]);
      DecodeIgnoresCase(s[2..], t[2..]);
    }
  }
}
