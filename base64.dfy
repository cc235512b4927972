/**
 * Base64 with the standard alphabet and `=` padding, as defined in section 4
 * of RFC 4648. The cache stores trimmed audio as this text and decodes it
 * again on a hit, so the round trip Decode(Encode(b)) == Some(b) is what makes
 * a cache hit return the very bytes that were stored.
 */
module Base64 {
  import opened Types

  /** A 6-bit value, the index of a character in the alphabet. */
  type Sextet = x: int | 0 <= x < 64

  /** The alphabet of section 4, table 1: A-Z, a-z, 0-9, '+', '/'. */
  function CharOf(v: Sextet): (c: char)
    ensures c != '='
  {
    if v < 26 then ('A' as int + v) as char
    else if v < 52 then ('a' as int + (v - 26)) as char
    else if v < 62 then ('0' as int + (v - 52)) as char
    else if v == 62 then '+'
    else '/'
  }

  /** The inverse of CharOf; None for a character outside the alphabet. */
  function ValueOf(c: char): (r: Option<Sextet>)
    ensures r.Some? ==> CharOf(r.value) == c
  {
    if 'A' <= c <= 'Z' then Some(c as int - 'A' as int)
    else if 'a' <= c <= 'z' then Some(c as int - 'a' as int + 26)
    else if '0' <= c <= '9' then Some(c as int - '0' as int + 52)
    else if c == '+' then Some(62)
    else if c == '/' then Some(63)
    else None
  }

  lemma ValueOfCharOf(v: Sextet)
    ensures ValueOf(CharOf(v)) == Some(v)
  {
  }

  /** The characters an encoding may contain: the alphabet and the pad. */
  predicate IsBase64Char(c: char) {
    ValueOf(c).Some? || c == '='
  }

  /** The 24-bit group b0 b1 b2 split into four 6-bit values, most
      significant first; a missing octet counts as zero. */
  function First6(b0: Byte): Sextet { b0 / 4 }
  function Second6(b0: Byte, b1: Byte): Sextet { (b0 % 4) * 16 + b1 / 16 }
  function Third6(b1: Byte, b2: Byte): Sextet { (b1 % 16) * 4 + b2 / 64 }
  function Fourth6(b2: Byte): Sextet { b2 % 64 }

  /** Four 6-bit values joined back into the three octets they carry. */
  function Octet0(c0: Sextet, c1: Sextet): Byte { c0 * 4 + c1 / 16 }
  function Octet1(c1: Sextet, c2: Sextet): Byte { (c1 % 16) * 16 + c2 / 4 }
  function Octet2(c2: Sextet, c3: Sextet): Byte { (c2 % 4) * 64 + c3 }

  /** Three octets become four characters. */
  function EncodeTriple(b0: Byte, b1: Byte, b2: Byte): (s: string)
    ensures |s| == 4 && '=' !in s
  {
    [CharOf(First6(b0)), CharOf(Second6(b0, b1)), CharOf(Third6(b1, b2)), CharOf(Fourth6(b2))]
  }

  /** A final group of two octets: three characters and one pad. */
  function EncodePair(b0: Byte, b1: Byte): (s: string)
    ensures |s| == 4 && s[3] == '=' && '=' !in s[..3]
  {
    [CharOf(First6(b0)), CharOf(Second6(b0, b1)), CharOf(Third6(b1, 0)), '=']
  }

  /** A final group of one octet: two characters and two pads. */
  function EncodeSingle(b0: Byte): (s: string)
    ensures |s| == 4 && s[2] == '=' && s[3] == '=' && '=' !in s[..2]
  {
    [CharOf(First6(b0)), CharOf(Second6(b0, 0)), '=', '=']
  }

  /** The encoding of section 4: every three octets give four characters,
      a final group of one or two octets is padded with `=`. */
  function Encode(b: Bytes): (s: string)
    ensures |s| % 4 == 0 && (|s| == 0 <==> |b| == 0)
    decreases |b|
  {
    if |b| == 0 then ""
    else if |b| == 1 then EncodeSingle(b[0])
    else if |b| == 2 then EncodePair(b[0], b[1])
    else EncodeTriple(b[0], b[1], b[2]) + Encode(b[3..])
  }

  /** Four characters without padding give three octets. */
  function DecodeQuad(s: string): (r: Option<Bytes>)
    requires |s| == 4
    ensures r.Some? ==> |r.value| == 3
  {
    var c0, c1, c2, c3 := ValueOf(s[0]), ValueOf(s[1]), ValueOf(s[2]), ValueOf(s[3]);
    if c0.Some? && c1.Some? && c2.Some? && c3.Some? then
      Some([Octet0(c0.value, c1.value), Octet1(c1.value, c2.value), Octet2(c2.value, c3.value)])
    else None
  }

  /** The last group of an encoding: "xx==", "xxx=" or "xxxx". Bits left
      over in the last character are ignored, as Python's decoder does. */
  function DecodeLastQuad(s: string): (r: Option<Bytes>)
    requires |s| == 4
    ensures r.Some? ==> 1 <= |r.value| <= 3
  {
    var c0, c1, c2 := ValueOf(s[0]), ValueOf(s[1]), ValueOf(s[2]);
    if s[2] == '=' && s[3] == '=' then
      if c0.Some? && c1.Some? then Some([Octet0(c0.value, c1.value)]) else None
    else if s[3] == '=' then
      if c0.Some? && c1.Some? && c2.Some? then
        Some([Octet0(c0.value, c1.value), Octet1(c1.value, c2.value)])
      else None
    else DecodeQuad(s)
  }

  /** Decoding: None for a text that is not a well-formed encoding (a length
      that is not a multiple of four, a character outside the alphabet, a pad
      anywhere but at the end). */
  function Decode(s: string): (r: Option<Bytes>)
    ensures r.Some? ==> 4 * |r.value| <= 3 * |s|
    decreases |s|
  {
    if |s| == 0 then Some([])
    else if |s| < 4 then None
    else if |s| == 4 then DecodeLastQuad(s)
    else
      var head, tail := DecodeQuad(s[..4]), Decode(s[4..]);
      if head.Some? && tail.Some? then Some(head.value + tail.value) else None
  }

  lemma Octet0Inverse(b0: Byte, b1: Byte)
    ensures Octet0(First6(b0), Second6(b0, b1)) == b0
  {
    var m := Second6(b0, b1);
    assert m / 16 == b0 % 4;
  }

  lemma Octet1Inverse(b0: Byte, b1: Byte, b2: Byte)
    ensures Octet1(Second6(b0, b1), Third6(b1, b2)) == b1
  {
    var m := Second6(b0, b1);
    var n := Third6(b1, b2);
    assert m % 16 == b1 / 16;
    assert n / 4 == b1 % 16;
  }

  lemma Octet2Inverse(b1: Byte, b2: Byte)
    ensures Octet2(Third6(b1, b2), Fourth6(b2)) == b2
  {
    var n := Third6(b1, b2);
    assert n % 4 == b2 / 64;
  }

  lemma TripleRoundTrip(b0: Byte, b1: Byte, b2: Byte)
    ensures DecodeQuad(EncodeTriple(b0, b1, b2)) == Some([b0, b1, b2])
    ensures DecodeLastQuad(EncodeTriple(b0, b1, b2)) == Some([b0, b1, b2])
  {
    ValueOfCharOf(First6(b0));
    ValueOfCharOf(Second6(b0, b1));
    ValueOfCharOf(Third6(b1, b2));
    ValueOfCharOf(Fourth6(b2));
    Octet0Inverse(b0, b1);
    Octet1Inverse(b0, b1, b2);
    Octet2Inverse(b1, b2);
  }

  lemma PairRoundTrip(b0: Byte, b1: Byte)
    ensures DecodeLastQuad(EncodePair(b0, b1)) == Some([b0, b1])
  {
    ValueOfCharOf(First6(b0));
    ValueOfCharOf(Second6(b0, b1));
    ValueOfCharOf(Third6(b1, 0));
    Octet0Inverse(b0, b1);
    Octet1Inverse(b0, b1, 0);
  }

  lemma SingleRoundTrip(b0: Byte)
    ensures DecodeLastQuad(EncodeSingle(b0)) == Some([b0])
  {
    ValueOfCharOf(First6(b0));
    ValueOfCharOf(Second6(b0, 0));
    Octet0Inverse(b0, 0);
  }

  /** A text of more than one group whose first group is a full, unpadded
      group decodes to that group's octets followed by the rest's. */
  lemma DecodeFirstGroup(head: string, rest: string, h: Bytes, t: Bytes)
    requires |head| == 4 && |rest| > 0
    requires DecodeQuad(head) == Some(h) && Decode(rest) == Some(t)
    ensures Decode(head + rest) == Some(h + t)
  {
    var s := head + rest;
    assert s[..4] == head;
    assert s[4..] == rest;
  }

  lemma OneRoundTrip(b: Bytes)
    requires |b| == 1
    ensures Decode(Encode(b)) == Some(b)
  {
    SingleRoundTrip(b[0]);
    assert Decode(Encode(b)) == DecodeLastQuad(EncodeSingle(b[0]));
    assert b == [b[0]];
  }

  lemma TwoRoundTrip(b: Bytes)
    requires |b| == 2
    ensures Decode(Encode(b)) == Some(b)
  {
    PairRoundTrip(b[0], b[1]);
    assert Decode(Encode(b)) == DecodeLastQuad(EncodePair(b[0], b[1]));
    assert b == [b[0], b[1]];
  }

  lemma ThreeRoundTrip(b: Bytes)
    requires |b| == 3
    ensures Decode(Encode(b)) == Some(b)
  {
    TripleRoundTrip(b[0], b[1], b[2]);
    assert Encode(b[3..]) == "";
    assert Encode(b) == EncodeTriple(b[0], b[1], b[2]);
    assert Decode(Encode(b)) == DecodeLastQuad(EncodeTriple(b[0], b[1], b[2]));
    assert b == [b[0], b[1], b[2]];
  }

  lemma EncodeFirstGroup(b: Bytes)
    requires |b| > 3
    ensures Encode(b) == EncodeTriple(b[0], b[1], b[2]) + Encode(b[3..])
  {
  }

  lemma SplitAfterThree(b: Bytes)
    requires |b| >= 3
    ensures [b[0], b[1], b[2]] + b[3..] == b
  {
  }

  /** The step of the induction: a leading full group round-trips on its own. */
  lemma LongRoundTrip(b: Bytes)
    requires |b| > 3 && Decode(Encode(b[3..])) == Some(b[3..])
    ensures Decode(Encode(b)) == Some(b)
  {
    var head := EncodeTriple(b[0], b[1], b[2]);
    var rest := b[3..];
    TripleRoundTrip(b[0], b[1], b[2]);
    EncodeFirstGroup(b);
    DecodeFirstGroup(head, Encode(rest), [b[0], b[1], b[2]], rest);
    SplitAfterThree(b);
  }

  /** Decoding undoes encoding, for every octet string. */
  lemma {:induction false} RoundTrip(b: Bytes)
    ensures Decode(Encode(b)) == Some(b)
    decreases |b|
  {
    if |b| == 0 {
    } else if |b| == 1 {
      OneRoundTrip(b);
    } else if |b| == 2 {
      TwoRoundTrip(b);
    } else if |b| == 3 {
      ThreeRoundTrip(b);
    } else {
      RoundTrip(b[3..]);
      LongRoundTrip(b);
    }
  }

  lemma MultipleOfFour(n: nat)
    requires n % 4 == 0
    ensures (n + 4) % 4 == 0
  {
  }

  /** Only a text whose length is a multiple of four decodes. */
  lemma {:induction false} DecodeLength(s: string)
    requires Decode(s).Some?
    ensures |s| % 4 == 0
    decreases |s|
  {
    if |s| > 4 {
      assert Decode(s[4..]).Some?;
      DecodeLength(s[4..]);
      MultipleOfFour(|s| - 4);
    }
  }

  /** Every character of an encoding is in the alphabet or is the pad, so
      the text is plain ASCII (main.py line 107 decodes it as UTF-8). */
  lemma {:induction false} EncodeAlphabet(b: Bytes)
    ensures forall i :: 0 <= i < |Encode(b)| ==> IsBase64Char(Encode(b)[i])
    decreases |b|
  {
    if |b| > 3 {
      EncodeAlphabet(b[3..]);
      EncodeFirstGroup(b);
      var head := EncodeTriple(b[0], b[1], b[2]);
      forall i | 0 <= i < |Encode(b)| ensures IsBase64Char(Encode(b)[i]) {
        if i < 4 {
          ValueOfCharOf([First6(b[0]), Second6(b[0], b[1]), Third6(b[1], b[2]), Fourth6(b[2])][i]);
        } else {
          assert Encode(b)[i] == Encode(b[3..])[i - 4];
        }
      }
    } else if |b| > 0 {
      ValueOfCharOf(First6(b[0]));
      ValueOfCharOf(Second6(b[0], if |b| > 1 then b[1] else 0));
      if |b| > 1 { ValueOfCharOf(Third6(b[1], if |b| > 2 then b[2] else 0)); }
      if |b| > 2 { ValueOfCharOf(Fourth6(b[2])); }
    }
  }

  /** Every three octets, and a final group of one or two, take four
      characters. */
  lemma {:induction false} EncodeLength(b: Bytes)
    ensures |Encode(b)| == 4 * ((|b| + 2) / 3)
    decreases |b|
  {
    if |b| > 3 {
      EncodeLength(b[3..]);
      EncodeFirstGroup(b);
      assert (|b| + 2) / 3 == (|b[3..]| + 2) / 3 + 1;
    }
  }

  /** Encoding is injective: distinct audio never shares a cache value. */
  lemma EncodeInjective(a: Bytes, b: Bytes)
    requires Encode(a) == Encode(b)
    ensures a == b
  {
    RoundTrip(a);
    RoundTrip(b);
  }
}
