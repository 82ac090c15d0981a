/**
 * The byte form of a property map, as `Properties.store` writes it and
 * `Properties.load` reads it back. The model uses a self-delimiting encoding in
 * place of the JDK's line-oriented text: every character is three bytes (its code
 * point, most significant byte first, so the first byte is at most 0x10), a key
 * ends with the byte 0xFE and a value with the byte 0xFF. Loading reads the
 * entries in order, a later entry for a key replacing an earlier one.
 */
module PropertiesCodec {
  import opened Util

  type Entry = (string, string)

  /** The byte after a key. */
  const KeyEnd: byte := 0xFE
  /** The byte after a value. */
  const EntryEnd: byte := 0xFF

  /** The byte for a number below 16. */
  function NibbleOf(k: int): (b: byte)
    requires 0 <= k < 16
    ensures b < 16 && b as int == k
  {
    k as byte
  }

  /** The number a byte stands for, read as two nibbles. */
  function ByteValue(b: byte): (n: int)
    ensures 0 <= n < 0x100
  {
    16 * ((b >> 4) as int) + (b & 15) as int
  }

  /** The byte standing for a number below 0x100, built from its two nibbles. */
  function ByteOf(n: int): (b: byte)
    requires 0 <= n < 0x100
    ensures ByteValue(b) == n
  {
    var hi, lo := NibbleOf(n / 16), NibbleOf(n % 16);
    assert ((hi << 4) | lo) >> 4 == hi && ((hi << 4) | lo) & 15 == lo;
    (hi << 4) | lo
  }

  function EncodeChar(c: char): (r: seq<byte>)
    ensures |r| == 3 && ByteValue(r[0]) <= 0x10
  {
    var x := c as int;
    [ByteOf(x / 0x1_0000), ByteOf((x / 0x100) % 0x100), ByteOf(x % 0x100)]
  }

  /** The character three bytes spell, if they spell one. */
  function CharOf(b0: byte, b1: byte, b2: byte): Option<char>
  {
    var x := ByteValue(b0) * 0x1_0000 + ByteValue(b1) * 0x100 + ByteValue(b2);
    if x < 0xD800 || 0xE000 <= x < 0x11_0000 then Some(x as char) else None
  }

  /** A character's three bytes spell that character. */
  lemma CharRoundTrip(c: char)
    ensures var b := EncodeChar(c); CharOf(b[0], b[1], b[2]) == Some(c)
  {
    var x := c as int;
    var q, lo := x / 0x100, x % 0x100;
    var hi, mid := q / 0x100, q % 0x100;
    DivUnique(x, 0x1_0000, hi, mid * 0x100 + lo);
    var b := EncodeChar(c);
    assert ByteValue(b[0]) == hi && ByteValue(b[1]) == mid && ByteValue(b[2]) == lo;
    assert hi * 0x1_0000 + mid * 0x100 + lo == x;
  }

  function EncodeText(s: string): (r: seq<byte>)
    ensures |r| == 3 * |s|
  {
    if s == [] then [] else EncodeChar(s[0]) + EncodeText(s[1..])
  }

  /**
   * Reads characters up to the first `stop` byte found where a character would
   * start; gives the text and the bytes after the stop byte.
   */
  function DecodeText(b: seq<byte>, stop: byte): (r: Option<(string, seq<byte>)>)
    ensures r.Some? ==> |r.value.1| < |b|
    decreases |b|
  {
    if |b| == 0 then None
    else if b[0] == stop then Some(("", b[1..]))
    else if |b| < 3 then None
    else match CharOf(b[0], b[1], b[2])
      case None => None
      case Some(c) =>
        match DecodeText(b[3..], stop)
        case None => None
        case Some((s, rest)) => Some(([c] + s, rest))
  }

  /** Decoding text followed by a stop byte gives the text and whatever came after. */
  lemma {:induction false} DecodeEncodeText(s: string, stop: byte, rest: seq<byte>)
    requires ByteValue(stop) > 0x10
    ensures DecodeText(EncodeText(s) + [stop] + rest, stop) == Some((s, rest))
    decreases |s|
  {
    var b := EncodeText(s) + [stop] + rest;
    if s == [] {
      assert b == [stop] + rest;
    } else {
      var tail := EncodeText(s[1..]) + [stop] + rest;
      DecodeEncodeText(s[1..], stop, rest);
      DecodeCharThen(s[0], tail, stop);
      assert b == EncodeChar(s[0]) + tail;
      assert [s[0]] + s[1..] == s;
    }
  }

  /** A character's bytes in front of some bytes put that character in front of whatever they decode to. */
  lemma DecodeCharThen(c: char, tail: seq<byte>, stop: byte)
    requires ByteValue(stop) > 0x10
    ensures DecodeText(EncodeChar(c) + tail, stop) ==
      match DecodeText(tail, stop)
      case None => None
      case Some((s, rest)) => Some(([c] + s, rest))
  {
    var e := EncodeChar(c);
    var b := e + tail;
    CharRoundTrip(c);
    assert b[0] == e[0] && b[1] == e[1] && b[2] == e[2];
    assert b[0] != stop;
    assert b[3..] == tail;
  }

  function EncodeEntry(e: Entry): seq<byte>
  {
    EncodeText(e.0) + [KeyEnd] + EncodeText(e.1) + [EntryEnd]
  }

  /** The bytes of a sequence of entries, in order. */
  function EncodeEntries(es: seq<Entry>): seq<byte>
  {
    if es == [] then [] else EncodeEntry(es[0]) + EncodeEntries(es[1..])
  }

  /** Reads entries until the bytes run out; `None` when they are not a sequence of entries. */
  function DecodeEntries(b: seq<byte>): Option<seq<Entry>>
    decreases |b|
  {
    if b == [] then Some([])
    else match DecodeText(b, KeyEnd)
      case None => None
      case Some((k, afterKey)) =>
        match DecodeText(afterKey, EntryEnd)
        case None => None
        case Some((v, afterValue)) =>
          match DecodeEntries(afterValue)
          case None => None
          case Some(es) => Some([(k, v)] + es)
  }

  /** Decoding the bytes of any sequence of entries gives the entries back, in order. */
  lemma {:induction false} DecodeEncodeEntries(es: seq<Entry>)
    ensures DecodeEntries(EncodeEntries(es)) == Some(es)
    decreases |es|
  {
    if es != [] {
      DecodeEncodeEntries(es[1..]);
      DecodeEntryThen(es[0], EncodeEntries(es[1..]), es[1..]);
      assert [es[0]] + es[1..] == es;
    }
  }

  /** An entry's bytes followed by the bytes of some entries decode to that entry followed by those entries. */
  lemma DecodeEntryThen(e: Entry, tail: seq<byte>, es: seq<Entry>)
    requires DecodeEntries(tail) == Some(es)
    ensures DecodeEntries(EncodeEntry(e) + tail) == Some([e] + es)
  {
    var (k, v) := e;
    var afterKey := EncodeText(v) + [EntryEnd] + tail;
    EntryBytes(k, v, tail);
    EndBytesAboveText();
    DecodeEncodeText(k, KeyEnd, afterKey);
    DecodeEncodeText(v, EntryEnd, tail);
    DecodeEntriesUnfold(EncodeText(k) + [KeyEnd] + afterKey, k, afterKey, v, tail);
  }

  /** An entry's bytes in front of others: the key's text, the key end, and then the value's text, the entry end and the others. */
  lemma EntryBytes(k: string, v: string, tail: seq<byte>)
    ensures EncodeEntry((k, v)) + tail == EncodeText(k) + [KeyEnd] + (EncodeText(v) + [EntryEnd] + tail)
  {
  }

  /** Neither end byte can start a character. */
  lemma EndBytesAboveText()
    ensures ByteValue(KeyEnd) == 0xFE && ByteValue(EntryEnd) == 0xFF
  {
    assert KeyEnd >> 4 == 15 && KeyEnd & 15 == 14;
    assert EntryEnd >> 4 == 15 && EntryEnd & 15 == 15;
  }

  /** One step of decoding entries, given where the key and the value end. */
  lemma DecodeEntriesUnfold(b: seq<byte>, k: string, afterKey: seq<byte>, v: string, afterValue: seq<byte>)
    requires b != []
    requires DecodeText(b, KeyEnd) == Some((k, afterKey))
    requires DecodeText(afterKey, EntryEnd) == Some((v, afterValue))
    ensures DecodeEntries(b) == match DecodeEntries(afterValue)
      case None => None
      case Some(es) => Some([(k, v)] + es)
  {
  }

  /** The map the entries load into: each entry in turn, a later one replacing an earlier one with the same key. */
  function ToMap(es: seq<Entry>): (m: map<string, string>)
    ensures forall k :: k in m <==> exists i :: 0 <= i < |es| && es[i].0 == k
  {
    if es == [] then map[]
    else
      var last := es[|es| - 1];
      var m := ToMap(es[..|es| - 1]);
      assert forall i :: 0 <= i < |es| - 1 ==> es[..|es| - 1][i] == es[i];
      m[last.0 := last.1]
  }

  /** The map that bytes load into, if they are well formed. */
  function DecodeProperties(b: seq<byte>): Option<map<string, string>>
  {
    match DecodeEntries(b)
    case None => None
    case Some(es) => Some(ToMap(es))
  }

  /** Every map is loaded from some listing of its entries, one entry per key. */
  lemma {:induction false} EntriesOf(props: map<string, string>) returns (es: seq<Entry>)
    ensures ToMap(es) == props && |es| == |props|
    decreases |props|
  {
    if props == map[] {
      es := [];
    } else {
      var k :| k in props;
      var rest := props - {k};
      var before := EntriesOf(rest);
      es := before + [(k, props[k])];
      assert es[..|es| - 1] == before;
      assert rest[k := props[k]] == props;
    }
  }

  /**
   * `Properties.store`: writes the entries of the map, one per key, in an order
   * the map's hashing decides, left open here. Loading the bytes gives back the
   * map.
   */
  method Serialize(props: map<string, string>) returns (bytes: seq<byte>)
    ensures DecodeProperties(bytes) == Some(props)
  {
    ghost var listing := EntriesOf(props);
    var es: seq<Entry> :| ToMap(es) == props && |es| == |props|;
    bytes := EncodeEntries(es);
    DecodeEncodeEntries(es);
  }
}
