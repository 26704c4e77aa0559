/** The Base64 encoding of section 4 of RFC 4648: the 64-character alphabet of
    its Table 1, padding with '=' to a multiple of four characters, and no line
    breaks (android.util.Base64 with the NO_WRAP flag). The decoder is the
    strict one the same RFC allows in section 3.5: it rejects characters
    outside the alphabet, misplaced padding and non-zero pad bits, which makes
    it the exact inverse of the encoder. */
module Base64 {
  import opened Wrappers

  /** One octet, as an unsigned value (the bits of a Kotlin `Byte`). */
  type Byte = b: int | 0 <= b < 256

  /** One 6-bit group: an index into the alphabet. */
  type Sextet = s: int | 0 <= s < 64

  const Pad: char := '='

  predicate IsAlphabetChar(c: char)
  {
    ('A' <= c <= 'Z') || ('a' <= c <= 'z') || ('0' <= c <= '9') || c == '+' || c == '/'
  }

  /** Table 1 of RFC 4648: 0..25 are 'A'..'Z', 26..51 'a'..'z', 52..61 '0'..'9',
      62 is '+' and 63 is '/'. */
  function EncodeChar(i: Sextet): (c: char)
    ensures IsAlphabetChar(c) && c != Pad
  {
    if i < 26 then ('A' as int + i) as char
    else if i < 52 then ('a' as int + (i - 26)) as char
    else if i < 62 then ('0' as int + (i - 52)) as char
    else if i == 62 then '+'
    else '/'
  }

  /** The alphabet index of a character of Table 1. */
  function DecodeChar(c: char): (i: Sextet)
    requires IsAlphabetChar(c)
    ensures EncodeChar(i) == c
  {
    if 'A' <= c <= 'Z' then c as int - 'A' as int
    else if 'a' <= c <= 'z' then c as int - 'a' as int + 26
    else if '0' <= c <= '9' then c as int - '0' as int + 52
    else if c == '+' then 62
    else 63
  }

  lemma DecodeEncodeChar(i: Sextet)
    ensures DecodeChar(EncodeChar(i)) == i
  {
  }

  // ---------------------------------------------------------------- encoder

  /** Three octets become four characters (24 bits as four 6-bit groups). */
  function EncodeTriple(b0: Byte, b1: Byte, b2: Byte): string
  {
    [EncodeChar(b0 / 4), EncodeChar((b0 % 4) * 16 + b1 / 16),
     EncodeChar((b1 % 16) * 4 + b2 / 64), EncodeChar(b2 % 64)]
  }

  /** A final group of two octets: three characters and one pad. */
  function EncodePair(b0: Byte, b1: Byte): string
  {
    [EncodeChar(b0 / 4), EncodeChar((b0 % 4) * 16 + b1 / 16), EncodeChar((b1 % 16) * 4), Pad]
  }

  /** A final group of one octet: two characters and two pads. */
  function EncodeSingle(b0: Byte): string
  {
    [EncodeChar(b0 / 4), EncodeChar((b0 % 4) * 16), Pad, Pad]
  }

  /** Base64.encodeToString(bytes, NO_WRAP): padded to a whole number of quanta. */
  function Encode(bytes: seq<Byte>): string
    decreases |bytes|
  {
    if |bytes| == 0 then ""
    else if |bytes| == 1 then EncodeSingle(bytes[0])
    else if |bytes| == 2 then EncodePair(bytes[0], bytes[1])
    else EncodeTriple(bytes[0], bytes[1], bytes[2]) + Encode(bytes[3..])
  }

  /** Four characters for every started group of three octets. */
  lemma {:induction false} EncodeLength(bytes: seq<Byte>)
    ensures |Encode(bytes)| == 4 * ((|bytes| + 2) / 3)
    decreases |bytes|
  {
    if |bytes| >= 3 {
      var rest := bytes[3..];
      EncodeLength(rest);
      assert (|bytes| + 2) / 3 == (|rest| + 2) / 3 + 1;
    }
  }

  /** Alphabet characters and '=' only, with '=' only in the last two positions. */
  predicate WellPadded(s: string)
  {
    forall k | 0 <= k < |s| :: IsAlphabetChar(s[k]) || (s[k] == Pad && k >= |s| - 2)
  }

  /** An encoding is made of alphabet characters and '=' only (so it holds no
      line break), and '=' occurs only in the last two positions. */
  lemma {:induction false} EncodeAlphabet(bytes: seq<Byte>)
    ensures WellPadded(Encode(bytes))
    decreases |bytes|
  {
    if |bytes| >= 3 {
      EncodeAlphabet(bytes[3..]);
      var head := EncodeTriple(bytes[0], bytes[1], bytes[2]);
      assert Encode(bytes) == head + Encode(bytes[3..]);
      PrependQuantum(head, Encode(bytes[3..]));
    }
  }

  /** A full quantum in front keeps an encoding well padded. */
  lemma PrependQuantum(head: string, tail: string)
    requires |head| == 4 && forall k | 0 <= k < 4 :: IsAlphabetChar(head[k])
    requires WellPadded(tail)
    ensures WellPadded(head + tail)
  {
    forall k | 0 <= k < |head + tail|
      ensures IsAlphabetChar((head + tail)[k]) || ((head + tail)[k] == Pad && k >= |head + tail| - 2)
    {
      if k < 4 {
        assert (head + tail)[k] == head[k];
      } else {
        assert (head + tail)[k] == tail[k - 4];
      }
    }
  }

  // ---------------------------------------------------------------- decoder

  predicate AllAlphabet(q: string)
  {
    forall k | 0 <= k < |q| :: IsAlphabetChar(q[k])
  }

  function DecodeTriple(q: string): seq<Byte>
    requires |q| == 4 && AllAlphabet(q)
  {
    var s0, s1, s2, s3 := DecodeChar(q[0]), DecodeChar(q[1]), DecodeChar(q[2]), DecodeChar(q[3]);
    [s0 * 4 + s1 / 16, (s1 % 16) * 16 + s2 / 4, (s2 % 4) * 64 + s3]
  }

  /** Three sextets and a pad: the top 16 of their 18 bits, as two octets. */
  function JoinPair(s0: Sextet, s1: Sextet, s2: Sextet): seq<Byte>
  {
    [s0 * 4 + s1 / 16, (s1 % 16) * 16 + s2 / 4]
  }

  /** Two sextets and two pads: the top 8 of their 12 bits, as one octet. */
  function JoinSingle(s0: Sextet, s1: Sextet): seq<Byte>
  {
    [s0 * 4 + s1 / 16]
  }

  /** The last quantum: four alphabet characters, or three and one pad, or two
      and two pads; the bits that fall into the padding must be zero. */
  function DecodeFinal(q: string): Option<seq<Byte>>
    requires |q| == 4
  {
    if AllAlphabet(q) then Some(DecodeTriple(q))
    else if AllAlphabet(q[..3]) && q[3] == Pad && DecodeChar(q[2]) % 4 == 0 then
      Some(JoinPair(DecodeChar(q[0]), DecodeChar(q[1]), DecodeChar(q[2])))
    else if AllAlphabet(q[..2]) && q[2] == Pad && q[3] == Pad && DecodeChar(q[1]) % 16 == 0 then
      Some(JoinSingle(DecodeChar(q[0]), DecodeChar(q[1])))
    else None
  }

  /** Decodes a padded Base64 text; None for anything the encoder cannot produce. */
  function Decode(s: string): Option<seq<Byte>>
    decreases |s|
  {
    if |s| == 0 then Some([])
    else if |s| < 4 then None
    else if |s| == 4 then DecodeFinal(s)
    else if !AllAlphabet(s[..4]) then None
    else match Decode(s[4..])
      case None => None
      case Some(rest) => Some(DecodeTriple(s[..4]) + rest)
  }

  /** Only whole quanta decode: a text whose length is not a multiple of four
      is rejected. */
  lemma {:induction false} DecodeLength(s: string)
    ensures Decode(s).Some? ==> |s| % 4 == 0
    decreases |s|
  {
    if |s| > 4 && AllAlphabet(s[..4]) {
      DecodeLength(s[4..]);
    }
  }

  // ---------------------------------------------------------------- round trips

  /** Splitting three octets into sextets and joining them again is the identity. */
  lemma SextetsJoin(b0: Byte, b1: Byte, b2: Byte)
    ensures var s1, s2 := (b0 % 4) * 16 + b1 / 16, (b1 % 16) * 4 + b2 / 64;
      && (b0 / 4) * 4 + s1 / 16 == b0
      && (s1 % 16) * 16 + s2 / 4 == b1
      && (s2 % 4) * 64 + b2 % 64 == b2
  {
    var q1, r1 := b1 / 16, b1 % 16;
    var q2, r2 := b2 / 64, b2 % 64;
    assert ((b0 % 4) * 16 + q1) / 16 == b0 % 4 && ((b0 % 4) * 16 + q1) % 16 == q1;
    assert (r1 * 4 + q2) / 4 == r1 && (r1 * 4 + q2) % 4 == q2;
  }

  lemma TripleRoundTrip(b0: Byte, b1: Byte, b2: Byte)
    ensures AllAlphabet(EncodeTriple(b0, b1, b2))
    ensures DecodeTriple(EncodeTriple(b0, b1, b2)) == [b0, b1, b2]
  {
    var s0, s1, s2, s3 := b0 / 4, (b0 % 4) * 16 + b1 / 16, (b1 % 16) * 4 + b2 / 64, b2 % 64;
    var q := EncodeTriple(b0, b1, b2);
    assert q == [EncodeChar(s0), EncodeChar(s1), EncodeChar(s2), EncodeChar(s3)];
    DecodeEncodeChar(s0);
    DecodeEncodeChar(s1);
    DecodeEncodeChar(s2);
    DecodeEncodeChar(s3);
    SextetsJoin(b0, b1, b2);
    DecodeTripleOf(q, s0, s1, s2, s3);
  }

  /** A quantum of four alphabet characters decodes to the join of their sextets. */
  lemma DecodeTripleOf(q: string, s0: Sextet, s1: Sextet, s2: Sextet, s3: Sextet)
    requires |q| == 4 && AllAlphabet(q)
    requires DecodeChar(q[0]) == s0 && DecodeChar(q[1]) == s1 && DecodeChar(q[2]) == s2 && DecodeChar(q[3]) == s3
    ensures DecodeTriple(q) == [s0 * 4 + s1 / 16, (s1 % 16) * 16 + s2 / 4, (s2 % 4) * 64 + s3]
  {
  }

  lemma SingleRoundTrip(b0: Byte)
    ensures DecodeFinal(EncodeSingle(b0)) == Some([b0])
  {
    var q := EncodeSingle(b0);
    DecodeEncodeChar(b0 / 4);
    DecodeEncodeChar((b0 % 4) * 16);
    assert !AllAlphabet(q) by { assert !IsAlphabetChar(q[3]); }
    assert !AllAlphabet(q[..3]) by { assert !IsAlphabetChar(q[..3][2]); }
    assert AllAlphabet(q[..2]);
    assert ((b0 % 4) * 16) % 16 == 0 && ((b0 % 4) * 16) / 16 == b0 % 4;
  }

  lemma PairRoundTrip(b0: Byte, b1: Byte)
    ensures DecodeFinal(EncodePair(b0, b1)) == Some([b0, b1])
  {
    var q := EncodePair(b0, b1);
    DecodeEncodeChar(b0 / 4);
    DecodeEncodeChar((b0 % 4) * 16 + b1 / 16);
    DecodeEncodeChar((b1 % 16) * 4);
    assert !AllAlphabet(q) by { assert !IsAlphabetChar(q[3]); }
    assert AllAlphabet(q[..3]);
    SextetsJoin(b0, b1, 0);
    assert ((b1 % 16) * 4) % 4 == 0;
  }

  /** A text longer than one quantum decodes quantum by quantum. */
  lemma DecodeStep(head: string, tail: string, bytes: seq<Byte>, rest: seq<Byte>)
    requires |head| == 4 && AllAlphabet(head) && DecodeTriple(head) == bytes
    requires |tail| > 0 && Decode(tail) == Some(rest)
    ensures Decode(head + tail) == Some(bytes + rest)
  {
    var s := head + tail;
    assert s[..4] == head && s[4..] == tail;
  }

  /** A sequence of one to three octets is the display of its elements. */
  lemma ShortDisplay(bytes: seq<Byte>)
    requires 1 <= |bytes| <= 3
    ensures |bytes| == 1 ==> bytes == [bytes[0]]
    ensures |bytes| == 2 ==> bytes == [bytes[0], bytes[1]]
    ensures |bytes| == 3 ==> bytes == [bytes[0], bytes[1], bytes[2]]
  {
  }

  /** Exactly three octets: one quantum without padding. */
  lemma LastQuantumRoundTrip(b0: Byte, b1: Byte, b2: Byte)
    ensures Decode(Encode([b0, b1, b2])) == Some([b0, b1, b2])
  {
    TripleRoundTrip(b0, b1, b2);
    assert [b0, b1, b2][3..] == [];
    assert Encode([b0, b1, b2]) == EncodeTriple(b0, b1, b2);
  }

  /** One to three octets: a single, final quantum. */
  lemma ShortRoundTrip(bytes: seq<Byte>)
    requires 1 <= |bytes| <= 3
    ensures Decode(Encode(bytes)) == Some(bytes)
  {
    ShortDisplay(bytes);
    if |bytes| == 1 {
      SingleRoundTrip(bytes[0]);
    } else if |bytes| == 2 {
      PairRoundTrip(bytes[0], bytes[1]);
    } else {
      LastQuantumRoundTrip(bytes[0], bytes[1], bytes[2]);
    }
  }

  lemma SplitFirstThree(bytes: seq<Byte>)
    requires |bytes| >= 3
    ensures bytes == [bytes[0], bytes[1], bytes[2]] + bytes[3..]
  {
  }

  /** One full quantum in front of a non-empty sequence whose round trip holds. */
  lemma QuantumRoundTrip(bytes: seq<Byte>)
    requires |bytes| > 3 && Decode(Encode(bytes[3..])) == Some(bytes[3..])
    ensures Decode(Encode(bytes)) == Some(bytes)
  {
    SplitFirstThree(bytes);
    var head := EncodeTriple(bytes[0], bytes[1], bytes[2]);
    TripleRoundTrip(bytes[0], bytes[1], bytes[2]);
    assert Encode(bytes) == head + Encode(bytes[3..]);
    DecodeStep(head, Encode(bytes[3..]), [bytes[0], bytes[1], bytes[2]], bytes[3..]);
  }

  /** Every octet sequence comes back from its encoding unchanged. */
  lemma {:induction false} DecodeEncode(bytes: seq<Byte>)
    ensures Decode(Encode(bytes)) == Some(bytes)
    decreases |bytes|
  {
    if |bytes| == 0 {
    } else if |bytes| <= 3 {
      ShortRoundTrip(bytes);
    } else {
      DecodeEncode(bytes[3..]);
      QuantumRoundTrip(bytes);
    }
  }

  /** Joining four sextets into octets and splitting them again is the identity. */
  lemma OctetsSplit(s0: Sextet, s1: Sextet, s2: Sextet, s3: Sextet)
    ensures var b0, b1, b2 := s0 * 4 + s1 / 16, (s1 % 16) * 16 + s2 / 4, (s2 % 4) * 64 + s3;
      && 0 <= b0 < 256 && 0 <= b1 < 256 && 0 <= b2 < 256
      && b0 / 4 == s0
      && (b0 % 4) * 16 + b1 / 16 == s1
      && (b1 % 16) * 4 + b2 / 64 == s2
      && b2 % 64 == s3
  {
    var b0, b1, b2 := s0 * 4 + s1 / 16, (s1 % 16) * 16 + s2 / 4, (s2 % 4) * 64 + s3;
    assert b0 / 4 == s0 && b0 % 4 == s1 / 16;
    assert b1 / 16 == s1 % 16 && b1 % 16 == s2 / 4;
    assert b2 / 64 == s2 % 4 && b2 % 64 == s3;
  }

  /** Octets whose sextets are s0..s3 encode to the characters of s0..s3. */
  lemma EncodeTripleOf(b0: Byte, b1: Byte, b2: Byte, s0: Sextet, s1: Sextet, s2: Sextet, s3: Sextet)
    requires b0 / 4 == s0 && (b0 % 4) * 16 + b1 / 16 == s1 && (b1 % 16) * 4 + b2 / 64 == s2 && b2 % 64 == s3
    ensures EncodeTriple(b0, b1, b2) == [EncodeChar(s0), EncodeChar(s1), EncodeChar(s2), EncodeChar(s3)]
  {
  }

  lemma TripleInverse(q: string)
    requires |q| == 4 && AllAlphabet(q)
    ensures var b := DecodeTriple(q); EncodeTriple(b[0], b[1], b[2]) == q
  {
    var s0: int, s1: int, s2: int, s3: int := DecodeChar(q[0]), DecodeChar(q[1]), DecodeChar(q[2]), DecodeChar(q[3]);
    OctetsSplit(s0, s1, s2, s3);
    var b0: int, b1: int, b2: int := s0 * 4 + s1 / 16, (s1 % 16) * 16 + s2 / 4, (s2 % 4) * 64 + s3;
    assert DecodeTriple(q) == [b0, b1, b2];
    EncodeTripleOf(b0, b1, b2, s0, s1, s2, s3);
    assert q == [q[0], q[1], q[2], q[3]];
  }

  lemma FullFinalInverse(q: string)
    requires |q| == 4 && AllAlphabet(q)
    ensures Encode(DecodeTriple(q)) == q
  {
    TripleInverse(q);
    var b := DecodeTriple(q);
    assert b[3..] == [];
    assert Encode(b) == EncodeTriple(b[0], b[1], b[2]) + Encode([]);
  }

  /** Two octets whose sextets are s0..s2 encode to those characters and a pad. */
  lemma EncodePairOf(b0: Byte, b1: Byte, s0: Sextet, s1: Sextet, s2: Sextet)
    requires b0 / 4 == s0 && (b0 % 4) * 16 + b1 / 16 == s1 && (b1 % 16) * 4 == s2
    ensures Encode([b0, b1]) == [EncodeChar(s0), EncodeChar(s1), EncodeChar(s2), Pad]
  {
  }

  lemma QuantumDisplay(q: string)
    requires |q| == 4
    ensures q == [q[0], q[1], q[2], q[3]]
  {
  }

  /** Three sextets, the last with zero pad bits, survive the join into two octets. */
  lemma PairOfSextets(s0: Sextet, s1: Sextet, s2: Sextet)
    requires s2 % 4 == 0
    ensures Encode(JoinPair(s0, s1, s2)) == [EncodeChar(s0), EncodeChar(s1), EncodeChar(s2), Pad]
  {
    OctetsSplit(s0, s1, s2, 0);
    var b0: int, b1: int := s0 * 4 + s1 / 16, (s1 % 16) * 16 + s2 / 4;
    assert JoinPair(s0, s1, s2) == [b0, b1];
    EncodePairOf(b0, b1, s0, s1, s2);
  }

  lemma PairInverse(q: string)
    requires |q| == 4 && AllAlphabet(q[..3]) && q[3] == Pad && DecodeChar(q[2]) % 4 == 0
    ensures Encode(JoinPair(DecodeChar(q[0]), DecodeChar(q[1]), DecodeChar(q[2]))) == q
  {
    assert IsAlphabetChar(q[..3][0]) && IsAlphabetChar(q[..3][1]) && IsAlphabetChar(q[..3][2]);
    PairOfSextets(DecodeChar(q[0]), DecodeChar(q[1]), DecodeChar(q[2]));
    QuantumDisplay(q);
  }

  /** One octet whose sextets are s0, s1 encodes to those characters and two pads. */
  lemma EncodeSingleOf(b0: Byte, s0: Sextet, s1: Sextet)
    requires b0 / 4 == s0 && (b0 % 4) * 16 == s1
    ensures Encode([b0]) == [EncodeChar(s0), EncodeChar(s1), Pad, Pad]
  {
  }

  lemma SingleInverse(q: string)
    requires |q| == 4 && AllAlphabet(q[..2]) && q[2] == Pad && q[3] == Pad && DecodeChar(q[1]) % 16 == 0
    ensures Encode(JoinSingle(DecodeChar(q[0]), DecodeChar(q[1]))) == q
  {
    assert IsAlphabetChar(q[..2][0]) && IsAlphabetChar(q[..2][1]);
    var s0: int, s1: int := DecodeChar(q[0]), DecodeChar(q[1]);
    OctetsSplit(s0, s1, 0, 0);
    var b0: int := s0 * 4 + s1 / 16;
    assert JoinSingle(s0, s1) == [b0];
    EncodeSingleOf(b0, s0, s1);
    QuantumDisplay(q);
  }

  lemma FinalInverse(q: string, bytes: seq<Byte>)
    requires |q| == 4 && DecodeFinal(q) == Some(bytes)
    ensures Encode(bytes) == q
  {
    if AllAlphabet(q) {
      FullFinalInverse(q);
    } else if AllAlphabet(q[..3]) && q[3] == Pad && DecodeChar(q[2]) % 4 == 0 {
      PairInverse(q);
    } else {
      SingleInverse(q);
    }
  }

  /** The decoder accepts nothing but encodings: whatever it decodes is the
      encoding of the octets it returns. */
  lemma {:induction false} EncodeDecode(s: string, bytes: seq<Byte>)
    requires Decode(s) == Some(bytes)
    ensures Encode(bytes) == s
    decreases |s|
  {
    if |s| == 0 {
    } else if |s| == 4 {
      FinalInverse(s, bytes);
    } else {
      var head, tail := s[..4], s[4..];
      var rest := Decode(tail).value;
      var b := DecodeTriple(head);
      assert bytes == b + rest;
      EncodeDecode(tail, rest);
      TripleInverse(head);
      assert |rest| > 0 by { assert |tail| > 0; }
      assert bytes[3..] == rest && bytes[..3] == b;
      assert s == head + tail;
    }
  }
}
