/**
 * Block ids of the chunked uploaders. An id is a random UUID written as its
 * 16 bytes (most-significant 64-bit half first, each half big-endian, as a
 * `ByteBuffer` writes a `long`) and then Base64-encoded.
 */
module BlockIds {
  import opened Util
  import Base64

  /** The eight bytes of a Java `long`, most significant first. */
  function LongBytes(v: bv64): seq<byte>
  {
    [(v >> 56) as byte, ((v >> 48) & 0xFF) as byte, ((v >> 40) & 0xFF) as byte, ((v >> 32) & 0xFF) as byte,
     ((v >> 24) & 0xFF) as byte, ((v >> 16) & 0xFF) as byte, ((v >> 8) & 0xFF) as byte, (v & 0xFF) as byte]
  }

  /** The `long` whose big-endian bytes are `b`. */
  function LongOf(b: seq<byte>): bv64
    requires |b| == 8
  {
    (b[0] as bv64 << 56) | (b[1] as bv64 << 48) | (b[2] as bv64 << 40) | (b[3] as bv64 << 32) |
    (b[4] as bv64 << 24) | (b[5] as bv64 << 16) | (b[6] as bv64 << 8) | b[7] as bv64
  }

  /** Reading the eight bytes back gives the `long` that was written. */
  lemma LongRoundTrip(v: bv64)
    ensures |LongBytes(v)| == 8 && LongOf(LongBytes(v)) == v
  {
  }

  /** The 16-byte buffer filled with the two halves of a UUID. */
  function UuidBytes(msb: bv64, lsb: bv64): (r: seq<byte>)
  {
    LongBytes(msb) + LongBytes(lsb)
  }

  /** The block id for a UUID. */
  function BlockIdOf(msb: bv64, lsb: bv64): string
  {
    Base64.Encode(UuidBytes(msb, lsb))
  }

  /** A block id well-formed as the uploaders produce it: Base64 of 16 bytes. */
  predicate IsBlockId(id: string)
  {
    |id| == 24 && id[22..] == "==" && forall i :: 0 <= i < 22 ==> Base64.IsAlphabetChar(id[i])
  }

  /**
   * Every block id is 24 characters long: 22 alphabet characters then `==`,
   * because 16 bytes are five whole groups of three and one leftover byte.
   */
  lemma BlockIdShape(msb: bv64, lsb: bv64)
    ensures IsBlockId(BlockIdOf(msb, lsb))
  {
    var bytes := UuidBytes(msb, lsb);
    assert |bytes| == 16;
    Base64.EncodeLength(bytes);
    assert (16 + 2) / 3 == 6;
    Base64.EncodeAlphabet(bytes);
    BlockIdTail(bytes);
  }

  /** The last four characters of the Base64 text of 16 bytes encode the last byte alone. */
  lemma BlockIdTail(bytes: seq<byte>)
    requires |bytes| == 16
    ensures |Base64.Encode(bytes)| == 24 && Base64.Encode(bytes)[22..] == "=="
  {
    Base64.EncodeLength(bytes);
    assert (16 + 2) / 3 == 6;
    var s := bytes;
    assert Base64.Encode(s) == Base64.EncodeGroup(s[0], s[1], s[2]) + Base64.Encode(s[3..]);
    var s1 := s[3..];
    assert Base64.Encode(s1) == Base64.EncodeGroup(s1[0], s1[1], s1[2]) + Base64.Encode(s1[3..]);
    var s2 := s1[3..];
    assert Base64.Encode(s2) == Base64.EncodeGroup(s2[0], s2[1], s2[2]) + Base64.Encode(s2[3..]);
    var s3 := s2[3..];
    assert Base64.Encode(s3) == Base64.EncodeGroup(s3[0], s3[1], s3[2]) + Base64.Encode(s3[3..]);
    var s4 := s3[3..];
    assert Base64.Encode(s4) == Base64.EncodeGroup(s4[0], s4[1], s4[2]) + Base64.Encode(s4[3..]);
    var s5 := s4[3..];
    assert |s5| == 1;
    var last := Base64.Encode(s5);
    assert last[2..] == "==";
    assert Base64.Encode(s) == Base64.Encode(s)[..20] + last;
  }

  /** Different UUIDs give different block ids. */
  lemma BlockIdInjective(msb: bv64, lsb: bv64, msb': bv64, lsb': bv64)
    ensures BlockIdOf(msb, lsb) == BlockIdOf(msb', lsb') ==> msb == msb' && lsb == lsb'
  {
    if BlockIdOf(msb, lsb) == BlockIdOf(msb', lsb') {
      var a, b := UuidBytes(msb, lsb), UuidBytes(msb', lsb');
      Base64.EncodeInjective(a, b);
      LongRoundTrip(msb);
      LongRoundTrip(lsb);
      LongRoundTrip(msb');
      LongRoundTrip(lsb');
      assert a[..8] == LongBytes(msb) && b[..8] == LongBytes(msb');
      assert a[8..] == LongBytes(lsb) && b[8..] == LongBytes(lsb');
    }
  }

  /**
   * `createBase64BlockId`: draws a random UUID (an arbitrary pair of halves here)
   * and returns its block id.
   */
  method CreateBase64BlockId() returns (id: string)
    ensures IsBlockId(id)
    ensures exists msb: bv64, lsb: bv64 :: id == BlockIdOf(msb, lsb)
  {
    var msb: bv64 :| true;
    var lsb: bv64 :| true;
    id := BlockIdOf(msb, lsb);
    BlockIdShape(msb, lsb);
  }
}
