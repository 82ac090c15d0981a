/**
 * Base64 with the standard alphabet and `=` padding, as defined in section 4 of
 * RFC 4648 (what `java.util.Base64.getEncoder()` produces), and a decoder that
 * inverts it.
 */
module Base64 {
  import opened Util

  /** The alphabet character for a 6-bit value. */
  function SextetChar(v: byte): char
    requires v < 64
  {
    if v < 26 then ('A' as int + v as int) as char
    else if v < 52 then ('a' as int + v as int - 26) as char
    else if v < 62 then ('0' as int + v as int - 52) as char
    else if v == 62 then '+'
    else '/'
  }

  /** The 6-bit value of an alphabet character; `None` for any other character. */
  function CharSextet(c: char): Option<byte>
  {
    if 'A' <= c <= 'Z' then Some((c as int - 'A' as int) as byte)
    else if 'a' <= c <= 'z' then Some((c as int - 'a' as int + 26) as byte)
    else if '0' <= c <= '9' then Some((c as int - '0' as int + 52) as byte)
    else if c == '+' then Some(62)
    else if c == '/' then Some(63)
    else None
  }

  predicate IsAlphabetChar(c: char)
  {
    CharSextet(c).Some?
  }

  /** Every 6-bit value has exactly one alphabet character, and reading it back gives the value. */
  lemma SextetRoundTrip(v: byte)
    requires v < 64
    ensures CharSextet(SextetChar(v)) == Some(v)
    ensures IsAlphabetChar(SextetChar(v)) && Sextet(SextetChar(v)) == v
    ensures SextetChar(v) != '='
  {
    if v < 26 {
      UpperRoundTrip(v);
    } else if v < 52 {
      LowerRoundTrip(v);
    } else if v < 62 {
      DigitRoundTrip(v);
    }
  }

  lemma UpperRoundTrip(v: byte)
    requires v < 26
    ensures CharSextet(SextetChar(v)) == Some(v)
  {
    var c := SextetChar(v);
    assert 'A' <= c <= 'Z' && c as int - 'A' as int == v as int;
  }

  lemma LowerRoundTrip(v: byte)
    requires 26 <= v < 52
    ensures CharSextet(SextetChar(v)) == Some(v)
  {
    var c := SextetChar(v);
    assert 'a' <= c <= 'z' && c as int - 'a' as int + 26 == v as int;
  }

  lemma DigitRoundTrip(v: byte)
    requires 52 <= v < 62
    ensures CharSextet(SextetChar(v)) == Some(v)
  {
    var c := SextetChar(v);
    assert '0' <= c <= '9' && c as int - '0' as int + 52 == v as int;
  }

  function Sextet(c: char): byte
  {
    match CharSextet(c)
    case Some(v) => v
    case None => 0
  }

  /** Three bytes as four characters. */
  function EncodeGroup(b0: byte, b1: byte, b2: byte): string
  {
    [SextetChar(b0 >> 2), SextetChar(((b0 & 3) << 4) | (b1 >> 4)),
     SextetChar(((b1 & 15) << 2) | (b2 >> 6)), SextetChar(b2 & 63)]
  }

  /** The Base64 text of `s`: whole groups of three bytes, then one padded group for a remainder. */
  function Encode(s: seq<byte>): string
    decreases |s|
  {
    if |s| == 0 then ""
    else if |s| == 1 then [SextetChar(s[0] >> 2), SextetChar((s[0] & 3) << 4), '=', '=']
    else if |s| == 2 then
      [SextetChar(s[0] >> 2), SextetChar(((s[0] & 3) << 4) | (s[1] >> 4)), SextetChar((s[1] & 15) << 2), '=']
    else EncodeGroup(s[0], s[1], s[2]) + Encode(s[3..])
  }

  /** Reads Base64 text back into bytes; `None` when the text is not Base64. */
  function Decode(t: string): Option<seq<byte>>
    decreases |t|
  {
    if |t| == 0 then Some([])
    else if |t| < 4 || !IsAlphabetChar(t[0]) || !IsAlphabetChar(t[1]) then None
    else
      var v0, v1 := Sextet(t[0]), Sextet(t[1]);
      var b0 := (v0 << 2) | (v1 >> 4);
      if |t| == 4 && t[2] == '=' && t[3] == '=' then Some([b0])
      else if !IsAlphabetChar(t[2]) then None
      else
        var v2 := Sextet(t[2]);
        var b1 := ((v1 & 15) << 4) | (v2 >> 2);
        if |t| == 4 && t[3] == '=' then Some([b0, b1])
        else if !IsAlphabetChar(t[3]) then None
        else
          var b2 := ((v2 & 3) << 6) | Sextet(t[3]);
          match Decode(t[4..])
          case None => None
          case Some(rest) => Some([b0, b1, b2] + rest)
  }

  /** Decoding the encoding of any byte sequence gives the bytes back. */
  lemma {:induction false} DecodeEncode(s: seq<byte>)
    ensures Decode(Encode(s)) == Some(s)
    decreases |s|
  {
    if |s| == 1 {
      DecodeOneByte(s[0]);
      assert s == [s[0]];
    } else if |s| == 2 {
      DecodeTwoBytes(s[0], s[1]);
      assert s == [s[0], s[1]];
    } else if |s| >= 3 {
      DecodeEncode(s[3..]);
      DecodeGroup(s[0], s[1], s[2], Encode(s[3..]));
      assert s == [s[0], s[1], s[2]] + s[3..];
    }
  }

  /** The three bytes packed into four sextets come back out of them. */
  lemma GroupBits(b0: byte, b1: byte, b2: byte)
    ensures var v0, v1 := b0 >> 2, ((b0 & 3) << 4) | (b1 >> 4);
      var v2, v3 := ((b1 & 15) << 2) | (b2 >> 6), b2 & 63;
      (v0 << 2) | (v1 >> 4) == b0 && ((v1 & 15) << 4) | (v2 >> 2) == b1 && ((v2 & 3) << 6) | v3 == b2
  {
  }

  /** The two bytes of a single-padded group come back out of its three sextets. */
  lemma PairBits(b0: byte, b1: byte)
    ensures var v0, v1, v2 := b0 >> 2, ((b0 & 3) << 4) | (b1 >> 4), (b1 & 15) << 2;
      (v0 << 2) | (v1 >> 4) == b0 && ((v1 & 15) << 4) | (v2 >> 2) == b1
  {
  }

  /** Four alphabet characters decode to the three bytes their sextets spell. */
  lemma DecodeQuad(c0: char, c1: char, c2: char, c3: char, rest: string)
    requires IsAlphabetChar(c0) && IsAlphabetChar(c1) && IsAlphabetChar(c2) && IsAlphabetChar(c3)
    ensures var v0, v1, v2, v3 := Sextet(c0), Sextet(c1), Sextet(c2), Sextet(c3);
      var bs := [(v0 << 2) | (v1 >> 4), ((v1 & 15) << 4) | (v2 >> 2), ((v2 & 3) << 6) | v3];
      Decode([c0, c1, c2, c3] + rest) ==
        match Decode(rest)
        case None => None
        case Some(r) => Some(bs + r)
  {
    var t := [c0, c1, c2, c3] + rest;
    assert t[0] == c0 && t[1] == c1 && t[2] == c2 && t[3] == c3;
    assert c3 != '=';
    assert t[4..] == rest;
  }

  /** Two alphabet characters and two pads decode to one byte. */
  lemma DecodeDoublePadded(c0: char, c1: char)
    requires IsAlphabetChar(c0) && IsAlphabetChar(c1)
    ensures Decode([c0, c1, '=', '=']) == Some([(Sextet(c0) << 2) | (Sextet(c1) >> 4)])
  {
    var t := [c0, c1, '=', '='];
    assert t[0] == c0 && t[1] == c1 && t[2] == '=' && t[3] == '=';
  }

  /** Three alphabet characters and one pad decode to two bytes. */
  lemma DecodeSinglePadded(c0: char, c1: char, c2: char)
    requires IsAlphabetChar(c0) && IsAlphabetChar(c1) && IsAlphabetChar(c2)
    ensures var v0, v1, v2 := Sextet(c0), Sextet(c1), Sextet(c2);
      Decode([c0, c1, c2, '=']) == Some([(v0 << 2) | (v1 >> 4), ((v1 & 15) << 4) | (v2 >> 2)])
  {
    var t := [c0, c1, c2, '='];
    assert t[0] == c0 && t[1] == c1 && t[2] == c2 && t[3] == '=';
    assert c2 != '=';
  }

  lemma DecodeOneByte(b0: byte)
    ensures Decode(Encode([b0])) == Some([b0])
  {
    var v0, v1 := b0 >> 2, (b0 & 3) << 4;
    SextetRoundTrip(v0);
    SextetRoundTrip(v1);
    GroupBits(b0, 0, 0);
    var c0, c1 := SextetChar(v0), SextetChar(v1);
    DecodeDoublePadded(c0, c1);
    assert Encode([b0]) == [c0, c1, '=', '='];
  }

  lemma DecodeTwoBytes(b0: byte, b1: byte)
    ensures Decode(Encode([b0, b1])) == Some([b0, b1])
  {
    var v0, v1, v2 := b0 >> 2, ((b0 & 3) << 4) | (b1 >> 4), (b1 & 15) << 2;
    var t := [SextetChar(v0), SextetChar(v1), SextetChar(v2), '='];
    assert Encode([b0, b1]) == t;
    DecodeTwoBytesText(b0, b1);
  }

  lemma DecodeTwoBytesText(b0: byte, b1: byte)
    ensures var v0, v1, v2 := b0 >> 2, ((b0 & 3) << 4) | (b1 >> 4), (b1 & 15) << 2;
      Decode([SextetChar(v0), SextetChar(v1), SextetChar(v2), '=']) == Some([b0, b1])
  {
    var v0, v1, v2 := b0 >> 2, ((b0 & 3) << 4) | (b1 >> 4), (b1 & 15) << 2;
    SextetRoundTrip(v0);
    SextetRoundTrip(v1);
    SextetRoundTrip(v2);
    PairBits(b0, b1);
    DecodeSinglePadded(SextetChar(v0), SextetChar(v1), SextetChar(v2));
  }

  /** A whole group decodes to its three bytes, followed by whatever the rest decodes to. */
  lemma DecodeGroup(b0: byte, b1: byte, b2: byte, rest: string)
    ensures Decode(EncodeGroup(b0, b1, b2) + rest) ==
      match Decode(rest)
      case None => None
      case Some(r) => Some([b0, b1, b2] + r)
  {
    var v0, v1 := b0 >> 2, ((b0 & 3) << 4) | (b1 >> 4);
    var v2, v3 := ((b1 & 15) << 2) | (b2 >> 6), b2 & 63;
    GroupBits(b0, b1, b2);
    DecodeSextets(v0, v1, v2, v3, rest);
  }

  /** Four sextets written as characters decode to the three bytes they spell. */
  lemma DecodeSextets(v0: byte, v1: byte, v2: byte, v3: byte, rest: string)
    requires v0 < 64 && v1 < 64 && v2 < 64 && v3 < 64
    ensures Decode([SextetChar(v0), SextetChar(v1), SextetChar(v2), SextetChar(v3)] + rest) ==
      match Decode(rest)
      case None => None
      case Some(r) => Some([(v0 << 2) | (v1 >> 4), ((v1 & 15) << 4) | (v2 >> 2), ((v2 & 3) << 6) | v3] + r)
  {
    SextetRoundTrip(v0);
    SextetRoundTrip(v1);
    SextetRoundTrip(v2);
    SextetRoundTrip(v3);
    DecodeQuad(SextetChar(v0), SextetChar(v1), SextetChar(v2), SextetChar(v3), rest);
  }

  /** Distinct byte sequences have distinct encodings. */
  lemma EncodeInjective(a: seq<byte>, b: seq<byte>)
    ensures Encode(a) == Encode(b) ==> a == b
  {
    DecodeEncode(a);
    DecodeEncode(b);
  }

  /** The encoding has four characters for every started group of three bytes. */
  lemma {:induction false} EncodeLength(s: seq<byte>)
    ensures |Encode(s)| == 4 * ((|s| + 2) / 3)
    decreases |s|
  {
    if |s| == 0 {
      DivUnique(2, 3, 0, 2);
    } else if |s| <= 2 {
      DivUnique(|s| + 2, 3, 1, |s| - 1);
    } else {
      EncodeLength(s[3..]);
      DivStep(|s| - 3 + 2, 3);
    }
  }

  /** Only the last two characters can be padding; every other one is from the alphabet. */
  lemma {:induction false} EncodeAlphabet(s: seq<byte>)
    ensures forall i :: 0 <= i < |Encode(s)| - 2 ==> IsAlphabetChar(Encode(s)[i])
    decreases |s|
  {
    if |s| >= 3 {
      EncodeAlphabet(s[3..]);
      var g, rest := EncodeGroup(s[0], s[1], s[2]), Encode(s[3..]);
      GroupAlphabet(s[0], s[1], s[2]);
      assert Encode(s) == g + rest;
      forall i | 0 <= i < |g + rest| - 2
        ensures IsAlphabetChar((g + rest)[i])
      {
        if i >= 4 {
          assert (g + rest)[i] == rest[i - 4];
        }
      }
    } else if |s| == 2 {
      SextetRoundTrip(s[0] >> 2);
    } else if |s| == 1 {
      SextetRoundTrip(s[0] >> 2);
      SextetRoundTrip((s[0] & 3) << 4);
    }
  }

  /** The four characters of a whole group are all from the alphabet. */
  lemma GroupAlphabet(b0: byte, b1: byte, b2: byte)
    ensures |EncodeGroup(b0, b1, b2)| == 4
    ensures forall i :: 0 <= i < 4 ==> IsAlphabetChar(EncodeGroup(b0, b1, b2)[i])
  {
    SextetRoundTrip(b0 >> 2);
    SextetRoundTrip(((b0 & 3) << 4) | (b1 >> 4));
    SextetRoundTrip(((b1 & 15) << 2) | (b2 >> 6));
    SextetRoundTrip(b2 & 63);
  }
}
