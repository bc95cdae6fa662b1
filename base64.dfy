/**
  Base 64 encoding with the standard alphabet and `=` padding (section 4 of
  RFC 4648). The decoder is strict: it accepts exactly the strings the encoder
  produces (length a multiple of four, padding only at the end, zero pad bits),
  so encoding and decoding are inverse to each other in both directions.
*/
module Base64 {
  import opened Wrappers

  type byte = x: int | 0 <= x < 256
  type sextet = x: int | 0 <= x < 64

  predicate InAlphabet(c: char)
  {
    'A' <= c <= 'Z' || 'a' <= c <= 'z' || '0' <= c <= '9' || c == '+' || c == '/'
  }

  /** The character for a six-bit value (Table 1 of RFC 4648). */
  function CharOf(v: sextet): (c: char)
    ensures InAlphabet(c)
  {
    if v < 26 then ('A' as int + v) as char
    else if v < 52 then ('a' as int + (v - 26)) as char
    else if v < 62 then ('0' as int + (v - 52)) as char
    else if v == 62 then '+'
    else '/'
  }

  /** The six-bit value of an alphabet character. */
  function ValueOf(c: char): (v: sextet)
    requires InAlphabet(c)
    ensures CharOf(v) == c
  {
    if 'A' <= c <= 'Z' then c as int - 'A' as int
    else if 'a' <= c <= 'z' then c as int - 'a' as int + 26
    else if '0' <= c <= '9' then c as int - '0' as int + 52
    else if c == '+' then 62
    else 63
  }

  lemma ValueOfCharOf(v: sextet)
    ensures ValueOf(CharOf(v)) == v
  {
  }

  /** A character that can occur in an encoding: an alphabet character or the pad. */
  predicate IsEncodingChar(c: char)
  {
    InAlphabet(c) || c == '='
  }

  /** Three bytes as four characters. */
  function EncodeTriple(a: byte, b: byte, c: byte): string
  {
    [CharOf(a / 4), CharOf(a % 4 * 16 + b / 16), CharOf(b % 16 * 4 + c / 64), CharOf(c % 64)]
  }

  /** The encoding of a byte string; a final group of one or two bytes is padded. */
  function Encode(bs: seq<byte>): (s: string)
    ensures |s| % 4 == 0 && (|s| == 0 <==> |bs| == 0)
    ensures forall i :: 0 <= i < |s| ==> IsEncodingChar(s[i])
    decreases |bs|
  {
    if |bs| == 0 then ""
    else if |bs| == 1 then [CharOf(bs[0] / 4), CharOf(bs[0] % 4 * 16), '=', '=']
    else if |bs| == 2 then [CharOf(bs[0] / 4), CharOf(bs[0] % 4 * 16 + bs[1] / 16), CharOf(bs[1] % 16 * 4), '=']
    else EncodeTriple(bs[0], bs[1], bs[2]) + Encode(bs[3..])
  }

  /** Every started group of three bytes takes four characters. */
  lemma {:induction false} EncodedLength(bs: seq<byte>)
    ensures |Encode(bs)| == (|bs| + 2) / 3 * 4
    decreases |bs|
  {
    if |bs| >= 3 {
      EncodedLength(bs[3..]);
      assert (|bs| + 2) / 3 == (|bs[3..]| + 2) / 3 + 1;
    }
  }

  /** Four alphabet characters as three bytes. */
  function DecodeQuad(q: string): Option<seq<byte>>
    requires |q| == 4
  {
    if InAlphabet(q[0]) && InAlphabet(q[1]) && InAlphabet(q[2]) && InAlphabet(q[3]) then
      var c0, c1, c2, c3 := ValueOf(q[0]), ValueOf(q[1]), ValueOf(q[2]), ValueOf(q[3]);
      Some([c0 * 4 + c1 / 16, c1 % 16 * 16 + c2 / 4, c2 % 4 * 64 + c3])
    else None
  }

  /** The last group: a full quad, or one with one or two pad characters whose pad bits are zero. */
  function DecodeLast(q: string): Option<seq<byte>>
    requires |q| == 4
  {
    if q[2] == '=' && q[3] == '=' then
      if InAlphabet(q[0]) && InAlphabet(q[1]) && ValueOf(q[1]) % 16 == 0 then
        Some([ValueOf(q[0]) * 4 + ValueOf(q[1]) / 16])
      else None
    else if q[3] == '=' then
      if InAlphabet(q[0]) && InAlphabet(q[1]) && InAlphabet(q[2]) && ValueOf(q[2]) % 4 == 0 then
        var c0, c1, c2 := ValueOf(q[0]), ValueOf(q[1]), ValueOf(q[2]);
        Some([c0 * 4 + c1 / 16, c1 % 16 * 16 + c2 / 4])
      else None
    else DecodeQuad(q)
  }

  /** Strict decoding: `None` for every string that is not the encoding of some byte string. */
  function Decode(s: string): Option<seq<byte>>
    decreases |s|
  {
    if |s| == 0 then Some([])
    else if |s| < 4 then None
    else if |s| == 4 then DecodeLast(s)
    else match DecodeQuad(s[..4])
      case None => None
      case Some(t) =>
        match Decode(s[4..])
        case None => None
        case Some(rest) => Some(t + rest)
  }

  /** Division by a power of two that the encoder uses, from a known quotient and remainder. */
  lemma Split(a: int, d: int, q: int, r: int)
    requires d == 4 || d == 16 || d == 64
    requires a == q * d + r && 0 <= r < d
    ensures a / d == q && a % d == r
  {
  }

  lemma TripleRoundTrip(a: byte, b: byte, c: byte)
    ensures DecodeQuad(EncodeTriple(a, b, c)) == Some([a, b, c])
  {
    var c0, c1, c2, c3 := a / 4, a % 4 * 16 + b / 16, b % 16 * 4 + c / 64, c % 64;
    ValueOfCharOf(c0);
    ValueOfCharOf(c1);
    ValueOfCharOf(c2);
    ValueOfCharOf(c3);
    Split(c1, 16, a % 4, b / 16);
    Split(c2, 4, b % 16, c / 64);
  }

  lemma QuadRoundTrip(q: string)
    requires |q| == 4 && DecodeQuad(q).Some?
    ensures var t := DecodeQuad(q).value; EncodeTriple(t[0], t[1], t[2]) == q
  {
    var c0: int, c1: int, c2: int, c3: int := ValueOf(q[0]), ValueOf(q[1]), ValueOf(q[2]), ValueOf(q[3]);
    var a, b, c := c0 * 4 + c1 / 16, c1 % 16 * 16 + c2 / 4, c2 % 4 * 64 + c3;
    Split(a, 4, c0, c1 / 16);
    Split(b, 16, c1 % 16, c2 / 4);
    Split(c, 64, c2 % 4, c3);
    assert a % 4 * 16 + b / 16 == c1;
    assert b % 16 * 4 + c / 64 == c2;
    assert DecodeQuad(q).value == [a, b, c];
  }

  lemma PaddedOneRoundTrip(a: byte)
    ensures Decode(Encode([a])) == Some([a])
  {
    var s := Encode([a]);
    ValueOfCharOf(a / 4);
    ValueOfCharOf(a % 4 * 16);
    Split(a % 4 * 16, 16, a % 4, 0);
    assert DecodeLast(s) == Some([a]);
  }

  lemma PaddedTwoRoundTrip(a: byte, b: byte)
    ensures Decode(Encode([a, b])) == Some([a, b])
  {
    var s := Encode([a, b]);
    var c1, c2 := a % 4 * 16 + b / 16, b % 16 * 4;
    ValueOfCharOf(a / 4);
    ValueOfCharOf(c1);
    ValueOfCharOf(c2);
    Split(c1, 16, a % 4, b / 16);
    Split(c2, 4, b % 16, 0);
    assert DecodeLast(s) == Some([a, b]);
  }

  /** Decoding an encoding gives back the bytes. */
  lemma {:induction false} DecodeEncode(bs: seq<byte>)
    ensures Decode(Encode(bs)) == Some(bs)
    decreases |bs|
  {
    if |bs| == 1 {
      PaddedOneRoundTrip(bs[0]);
      assert [bs[0]] == bs;
    } else if |bs| == 2 {
      PaddedTwoRoundTrip(bs[0], bs[1]);
      assert [bs[0], bs[1]] == bs;
    } else if |bs| == 3 {
      LastTripleRoundTrip(bs);
    } else if |bs| > 3 {
      var r := Encode(bs[3..]);
      assert Encode(bs) == EncodeTriple(bs[0], bs[1], bs[2]) + r;
      assert [bs[0], bs[1], bs[2]] + bs[3..] == bs;
      DecodeEncode(bs[3..]);
      LeadingTripleRoundTrip(bs[0], bs[1], bs[2], r, bs[3..]);
    }
  }

  /** Three bytes encode to one unpadded group, which decodes back to them. */
  lemma LastTripleRoundTrip(bs: seq<byte>)
    requires |bs| == 3
    ensures Decode(Encode(bs)) == Some(bs)
  {
    TripleRoundTrip(bs[0], bs[1], bs[2]);
    FullLastGroup(EncodeTriple(bs[0], bs[1], bs[2]));
    assert Encode(bs) == EncodeTriple(bs[0], bs[1], bs[2]);
    assert [bs[0], bs[1], bs[2]] == bs;
  }

  /** A full group in front of a decodable string contributes its three bytes in front. */
  lemma LeadingTripleRoundTrip(a: byte, b: byte, c: byte, r: string, rest: seq<byte>)
    requires |r| > 0 && Decode(r) == Some(rest)
    ensures Decode(EncodeTriple(a, b, c) + r) == Some([a, b, c] + rest)
  {
    TripleRoundTrip(a, b, c);
    DecodeGroups(EncodeTriple(a, b, c), r, [a, b, c], rest);
  }

  /** A last group without padding decodes like any other group. */
  lemma FullLastGroup(q: string)
    requires |q| == 4 && DecodeQuad(q).Some?
    ensures Decode(q) == DecodeQuad(q)
  {
    assert q[3] != '=';
  }

  /** Decoding a leading full group followed by more text. */
  lemma DecodeGroups(q: string, rest: string, t: seq<byte>, r: seq<byte>)
    requires |q| == 4 && |rest| > 0
    requires DecodeQuad(q) == Some(t) && Decode(rest) == Some(r)
    ensures Decode(q + rest) == Some(t + r)
  {
    var s := q + rest;
    assert s[..4] == q && s[4..] == rest;
  }

  /** Only encodings decode: whatever decodes re-encodes to the same string. */
  lemma {:induction false} EncodeDecode(s: string)
    requires Decode(s).Some?
    ensures Encode(Decode(s).value) == s
    decreases |s|
  {
    if |s| == 4 {
      if s[2] == '=' && s[3] == '=' {
        PaddedOneReencodes(s);
      } else if s[3] == '=' {
        PaddedTwoReencodes(s);
      } else {
        FullLastReencodes(s);
      }
    } else if |s| > 4 {
      EncodeDecode(s[4..]);
      LeadingGroupReencodes(s);
    }
  }

  /** A last group with two pad characters is the encoding of the byte it decodes to. */
  lemma PaddedOneReencodes(q: string)
    requires |q| == 4 && q[2] == '=' && q[3] == '=' && DecodeLast(q).Some?
    ensures Encode(DecodeLast(q).value) == q
  {
    var c0: int, c1: int := ValueOf(q[0]), ValueOf(q[1]);
    var a := c0 * 4 + c1 / 16;
    Split(c1, 16, c1 / 16, 0);
    Split(a, 4, c0, c1 / 16);
  }

  /** A last group with one pad character is the encoding of the two bytes it decodes to. */
  lemma PaddedTwoReencodes(q: string)
    requires |q| == 4 && q[2] != '=' && q[3] == '=' && DecodeLast(q).Some?
    ensures Encode(DecodeLast(q).value) == q
  {
    var c0: int, c1: int, c2: int := ValueOf(q[0]), ValueOf(q[1]), ValueOf(q[2]);
    var a, b := c0 * 4 + c1 / 16, c1 % 16 * 16 + c2 / 4;
    Split(c2, 4, c2 / 4, 0);
    Split(a, 4, c0, c1 / 16);
    Split(b, 16, c1 % 16, c2 / 4);
  }

  /** An unpadded last group is the encoding of the three bytes it decodes to. */
  lemma FullLastReencodes(q: string)
    requires |q| == 4 && q[3] != '=' && DecodeLast(q).Some?
    ensures Encode(DecodeLast(q).value) == q
  {
    QuadRoundTrip(q);
    var t := DecodeQuad(q).value;
    assert Encode(t) == EncodeTriple(t[0], t[1], t[2]) + Encode(t[3..]);
  }

  /** The first group re-encodes to itself when the rest re-encodes to the rest. */
  lemma LeadingGroupReencodes(s: string)
    requires |s| > 4 && Decode(s).Some?
    requires Encode(Decode(s[4..]).value) == s[4..]
    ensures Encode(Decode(s).value) == s
  {
    var t := DecodeQuad(s[..4]).value;
    QuadRoundTrip(s[..4]);
    var bs := Decode(s).value;
    assert bs[..3] == t && bs[3..] == Decode(s[4..]).value;
    assert s == s[..4] + s[4..];
  }

  /** The decoder and the encoder are exact inverses. */
  lemma DecodeIffEncode(s: string, bs: seq<byte>)
    ensures Decode(s) == Some(bs) <==> Encode(bs) == s
  {
    if Decode(s) == Some(bs) {
      EncodeDecode(s);
    }
    if Encode(bs) == s {
      DecodeEncode(bs);
    }
  }
}
