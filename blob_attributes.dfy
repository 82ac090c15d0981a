/**
 * A blob's attributes and their property form. The headers are kept under
 * their names prefixed with `@`; the metrics under `sha1`, `creationTime` (the
 * milliseconds as a decimal long) and `size` (a decimal long); a soft deletion
 * under `deleted` and `deletedReason`. `AzureBlobAttributes` binds a set of
 * attributes to the properties file at the blob's attribute key.
 */
module BlobAttributes {
  import opened Util
  import opened ObjectStore
  import opened PropertiesCodec
  import opened PropertiesFile

  const HeaderPrefix: string := "@"
  const Sha1Key: string := "sha1"
  const CreationTimeKey: string := "creationTime"
  const SizeKey: string := "size"
  const DeletedKey: string := "deleted"
  const DeletedReasonKey: string := "deletedReason"

  const LONG_MIN: int := -0x8000_0000_0000_0000

  predicate InLongRange(n: int)
  {
    LONG_MIN <= n <= LONG_MAX
  }

  /** When a blob was created (milliseconds), the SHA-1 of its bytes, and how many bytes it has. */
  datatype BlobMetrics = BlobMetrics(creationTime: int, sha1: string, contentSize: int)

  predicate ValidMetrics(m: BlobMetrics)
  {
    InLongRange(m.creationTime) && InLongRange(m.contentSize)
  }

  /** The attributes of one blob. */
  datatype Attributes = Attributes(
    headers: map<string, string>, metrics: BlobMetrics, deleted: bool, deletedReason: Option<string>)

  // Decimal longs: `Long.toString` and `Long.parseLong`.

  function DigitChar(d: int): char
    requires 0 <= d < 10
  {
    ('0' as int + d) as char
  }

  function DigitValue(c: char): Option<nat>
  {
    if '0' <= c <= '9' then Some(c as int - '0' as int) else None
  }

  /** The decimal digits of `n`, most significant first, without leading zeros. */
  function Digits(n: nat): (s: string)
    ensures |s| >= 1 && '0' <= s[0] <= '9'
    decreases n
  {
    if n < 10 then [DigitChar(n)] else Digits(n / 10) + [DigitChar(n % 10)]
  }

  /** The number a non-empty string of decimal digits spells. */
  function ParseDigits(s: string): Option<nat>
    decreases |s|
  {
    if s == [] then None
    else match DigitValue(s[|s| - 1])
      case None => None
      case Some(d) =>
        if |s| == 1 then Some(d)
        else match ParseDigits(s[..|s| - 1])
          case None => None
          case Some(v) => Some(v * 10 + d)
  }

  /** Reading a number's digits gives the number. */
  lemma {:induction false} ParseDigitsOf(n: nat)
    ensures ParseDigits(Digits(n)) == Some(n)
    decreases n
  {
    var s := Digits(n);
    if n >= 10 {
      ParseDigitsOf(n / 10);
      assert s[..|s| - 1] == Digits(n / 10);
    }
    assert DigitValue(s[|s| - 1]) == Some(n % 10);
  }

  function LongToString(n: int): string
  {
    if n < 0 then "-" + Digits(-n) else Digits(n)
  }

  /** `Long.parseLong`: an optional sign and decimal digits, within the range of a long. */
  function ParseLong(s: string): (r: Option<int>)
    ensures r.Some? ==> InLongRange(r.value)
  {
    if s == [] then None
    else if s[0] == '-' then
      match ParseDigits(s[1..])
      case None => None
      case Some(v) => var n := -(v as int); if LONG_MIN <= n then Some(n) else None
    else
      var digits := if s[0] == '+' then s[1..] else s;
      match ParseDigits(digits)
      case None => None
      case Some(v) => if v <= LONG_MAX then Some(v) else None
  }

  /** Every long reads back from its decimal form. */
  lemma ParseLongToString(n: int)
    requires InLongRange(n)
    ensures ParseLong(LongToString(n)) == Some(n)
  {
    var s := LongToString(n);
    if n < 0 {
      ParseDigitsOf(-n);
      assert s[1..] == Digits(-n);
    } else {
      ParseDigitsOf(n);
    }
  }

  // The property form.

  /** The header names among the property names: those under the header prefix, with the prefix removed. */
  function HeaderNames(props: map<string, string>): (names: set<string>)
    ensures forall n :: n in names <==> HeaderPrefix + n in props
  {
    var names := set k | k in props && StartsWith(k, HeaderPrefix) :: k[1..];
    forall n | HeaderPrefix + n in props ensures n in names {
      assert (HeaderPrefix + n)[1..] == n;
    }
    forall n | n in names ensures HeaderPrefix + n in props {
      var k :| k in props && StartsWith(k, HeaderPrefix) && k[1..] == n;
      assert k == HeaderPrefix + n;
    }
    names
  }

  /** `getHeaders` after reading: each header's value under its prefixed name. */
  function HeadersOf(props: map<string, string>): (h: map<string, string>)
    ensures forall n :: n in h <==> HeaderPrefix + n in props
    ensures forall n :: n in h ==> h[n] == props[HeaderPrefix + n]
  {
    map n | n in HeaderNames(props) :: props[HeaderPrefix + n]
  }

  /** The property names `headers` are kept under. */
  function HeaderKeys(headers: map<string, string>): (keys: set<string>)
    ensures forall k :: k in keys <==> StartsWith(k, HeaderPrefix) && k[1..] in headers
  {
    var keys := set n | n in headers :: HeaderPrefix + n;
    forall k | StartsWith(k, HeaderPrefix) && k[1..] in headers ensures k in keys {
      assert k == HeaderPrefix + k[1..];
    }
    forall k | k in keys ensures StartsWith(k, HeaderPrefix) && k[1..] in headers {
      var n :| n in headers && k == HeaderPrefix + n;
      assert k[1..] == n;
    }
    keys
  }

  /** The properties holding `headers`, each under its prefixed name. */
  function HeaderEntries(headers: map<string, string>): (p: map<string, string>)
    ensures forall n :: HeaderPrefix + n in p <==> n in headers
    ensures forall n :: n in headers ==> p[HeaderPrefix + n] == headers[n]
  {
    var p := map k | k in HeaderKeys(headers) :: headers[k[1..]];
    assert forall n :: (HeaderPrefix + n)[1..] == n;
    p
  }

  /** Setting a property outside the header prefix leaves the headers as they were. */
  lemma HeadersIgnoreUpdate(p: map<string, string>, k: string, v: string)
    requires !StartsWith(k, HeaderPrefix)
    ensures HeadersOf(p[k := v]) == HeadersOf(p)
  {
    assert forall n :: HeaderPrefix + n != k;
  }

  /** Removing a property outside the header prefix leaves the headers as they were. */
  lemma HeadersIgnoreRemoval(p: map<string, string>, k: string)
    requires !StartsWith(k, HeaderPrefix)
    ensures HeadersOf(p - {k}) == HeadersOf(p)
  {
    assert forall n :: HeaderPrefix + n != k;
  }

  /** Adding header entries adds exactly those headers, replacing any of the same name. */
  lemma HeadersAfterEntries(props: map<string, string>, headers: map<string, string>)
    ensures HeadersOf(props + HeaderEntries(headers)) == HeadersOf(props) + headers
  {
    var after, expected := HeadersOf(props + HeaderEntries(headers)), HeadersOf(props) + headers;
    assert after.Keys == expected.Keys;
    forall n | n in after ensures after[n] == expected[n] {
    }
  }

  /** An empty file holds no headers. */
  lemma NoHeadersInEmpty()
    ensures HeadersOf(map[]) == map[]
  {
    assert HeadersOf(map[]).Keys == {};
  }

  /** No fixed attribute name starts with the header prefix. */
  lemma FixedKeysAreNotHeaders(k: string)
    requires k in {Sha1Key, CreationTimeKey, SizeKey, DeletedKey, DeletedReasonKey}
    ensures !StartsWith(k, HeaderPrefix)
  {
    assert k[0] != '@';
  }

  /** The metrics, written under their fixed names. */
  function WithMetrics(props: map<string, string>, m: BlobMetrics): map<string, string>
  {
    props[Sha1Key := m.sha1][CreationTimeKey := LongToString(m.creationTime)][SizeKey := LongToString(m.contentSize)]
  }

  /**
   * The deletion marker and reason: both present when deleted and there is a
   * reason, the marker alone when deleted without one, neither otherwise.
   */
  function WithDeletion(props: map<string, string>, deleted: bool, reason: Option<string>): map<string, string>
  {
    if deleted then
      match reason
      case Some(r) => props[DeletedKey := "true"][DeletedReasonKey := r]
      case None => props[DeletedKey := "true"] - {DeletedReasonKey}
    else props - {DeletedKey, DeletedReasonKey}
  }

  /**
   * `writeTo`: puts the attributes into the properties already there: each
   * header under its prefixed name, then the three metrics, then the deletion
   * marker and reason.
   */
  function WriteTo(props: map<string, string>, a: Attributes): map<string, string>
  {
    WithDeletion(WithMetrics(props + HeaderEntries(a.headers), a.metrics), a.deleted, a.deletedReason)
  }

  /**
   * `readFrom`: the headers, the metrics and the deletion marker and reason.
   * Metrics that are missing or do not parse are refused, as parsing a long
   * refuses them.
   */
  function ReadFrom(props: map<string, string>): (r: Result<Attributes>)
    ensures r.Err? ==> r.failure == IllegalArgument
    ensures r.Ok? ==> r.value.headers == HeadersOf(props) && ValidMetrics(r.value.metrics)
  {
    if Sha1Key !in props || CreationTimeKey !in props || SizeKey !in props then Err(IllegalArgument)
    else match (ParseLong(props[CreationTimeKey]), ParseLong(props[SizeKey]))
      case (Some(created), Some(size)) =>
        Ok(Attributes(HeadersOf(props), BlobMetrics(created, props[Sha1Key], size),
          DeletedKey in props,
          if DeletedReasonKey in props then Some(props[DeletedReasonKey]) else None))
      case _ => Err(IllegalArgument)
  }

  /** Writing the metrics leaves the headers as they were. */
  lemma HeadersAfterMetrics(props: map<string, string>, m: BlobMetrics)
    ensures HeadersOf(WithMetrics(props, m)) == HeadersOf(props)
  {
    FixedKeysAreNotHeaders(Sha1Key);
    FixedKeysAreNotHeaders(CreationTimeKey);
    FixedKeysAreNotHeaders(SizeKey);
    var p1 := props[Sha1Key := m.sha1];
    var p2 := p1[CreationTimeKey := LongToString(m.creationTime)];
    HeadersIgnoreUpdate(props, Sha1Key, m.sha1);
    HeadersIgnoreUpdate(p1, CreationTimeKey, LongToString(m.creationTime));
    HeadersIgnoreUpdate(p2, SizeKey, LongToString(m.contentSize));
  }

  /** Writing the deletion marker and reason leaves the headers as they were. */
  lemma HeadersAfterDeletion(props: map<string, string>, deleted: bool, reason: Option<string>)
    ensures HeadersOf(WithDeletion(props, deleted, reason)) == HeadersOf(props)
  {
    FixedKeysAreNotHeaders(DeletedKey);
    FixedKeysAreNotHeaders(DeletedReasonKey);
    if deleted {
      var p1 := props[DeletedKey := "true"];
      HeadersIgnoreUpdate(props, DeletedKey, "true");
      match reason
      case Some(r) => HeadersIgnoreUpdate(p1, DeletedReasonKey, r);
      case None => HeadersIgnoreRemoval(p1, DeletedReasonKey);
    } else {
      HeadersIgnoreRemoval(props, DeletedKey);
      HeadersIgnoreRemoval(props - {DeletedKey}, DeletedReasonKey);
      assert props - {DeletedKey, DeletedReasonKey} == props - {DeletedKey} - {DeletedReasonKey};
    }
  }

  /** The headers after writing: those already there, with the written ones replacing any of the same name. */
  lemma HeadersAfterWrite(props: map<string, string>, a: Attributes)
    ensures HeadersOf(WriteTo(props, a)) == HeadersOf(props) + a.headers
  {
    var p1 := props + HeaderEntries(a.headers);
    var p2 := WithMetrics(p1, a.metrics);
    HeadersAfterEntries(props, a.headers);
    HeadersAfterMetrics(p1, a.metrics);
    HeadersAfterDeletion(p2, a.deleted, a.deletedReason);
  }

  /** The metrics are kept under their fixed names. */
  lemma MetricsWritten(props: map<string, string>, m: BlobMetrics)
    ensures var p := WithMetrics(props, m);
      Sha1Key in p && CreationTimeKey in p && SizeKey in p && p[Sha1Key] == m.sha1
      && p[CreationTimeKey] == LongToString(m.creationTime) && p[SizeKey] == LongToString(m.contentSize)
  {
  }

  /** The deletion step writes the marker and reason and keeps every other property. */
  lemma DeletionWritten(props: map<string, string>, deleted: bool, reason: Option<string>)
    ensures var p := WithDeletion(props, deleted, reason);
      (DeletedKey in p <==> deleted)
      && (DeletedReasonKey in p <==> deleted && reason.Some?)
      && (DeletedReasonKey in p ==> p[DeletedReasonKey] == reason.value)
      && forall k :: k != DeletedKey && k != DeletedReasonKey ==> (k in p <==> k in props) && (k in p ==> p[k] == props[k])
  {
  }

  /** After writing, the metrics and the deletion marker and reason sit under their fixed names. */
  lemma FixedFieldsWritten(props: map<string, string>, a: Attributes)
    ensures var w := WriteTo(props, a);
      Sha1Key in w && w[Sha1Key] == a.metrics.sha1
      && CreationTimeKey in w && w[CreationTimeKey] == LongToString(a.metrics.creationTime)
      && SizeKey in w && w[SizeKey] == LongToString(a.metrics.contentSize)
      && (DeletedKey in w <==> a.deleted)
      && (DeletedReasonKey in w <==> a.deleted && a.deletedReason.Some?)
      && (DeletedReasonKey in w ==> w[DeletedReasonKey] == a.deletedReason.value)
  {
    var p2 := WithMetrics(props + HeaderEntries(a.headers), a.metrics);
    MetricsWritten(props + HeaderEntries(a.headers), a.metrics);
    DeletionWritten(p2, a.deleted, a.deletedReason);
  }

  /**
   * Reading what was written gives back the attributes, with the headers merged
   * into those already present and the reason dropped when not deleted.
   */
  lemma ReadAfterWrite(props: map<string, string>, a: Attributes)
    requires ValidMetrics(a.metrics)
    ensures ReadFrom(WriteTo(props, a)) == Ok(Attributes(HeadersOf(props) + a.headers, a.metrics,
      a.deleted, if a.deleted then a.deletedReason else None))
  {
    var w := WriteTo(props, a);
    FixedFieldsWritten(props, a);
    HeadersAfterWrite(props, a);
    ParseLongToString(a.metrics.creationTime);
    ParseLongToString(a.metrics.contentSize);
  }

  /** Written into no properties, attributes with consistent deletion fields read back unchanged. */
  lemma ReadAfterWriteFresh(a: Attributes)
    requires ValidMetrics(a.metrics) && (!a.deleted ==> a.deletedReason.None?)
    ensures ReadFrom(WriteTo(map[], a)) == Ok(a)
  {
    ReadAfterWrite(map[], a);
    assert HeadersOf(map[]) + a.headers == a.headers;
  }

  /**
   * What loading the attributes kept at `key` into an empty file gives: nothing
   * when the key holds no object, the attributes when it holds a well-formed
   * listing, and the refusal otherwise.
   */
  function AttributesAt(objects: map<string, seq<byte>>, key: string): (r: Result<Option<Attributes>>)
    ensures r.Err? ==> r.failure == IllegalArgument
    ensures r.Ok? ==> (r.value.None? <==> key !in objects)
    ensures r.Ok? && r.value.Some? ==> ValidMetrics(r.value.value.metrics)
  {
    if key !in objects then Ok(None)
    else match DecodeProperties(objects[key])
      case None => Err(IllegalArgument)
      case Some(props) =>
        match ReadFrom(props)
        case Err(f) => Err(f)
        case Ok(a) => Ok(Some(a))
  }
  /** An object holding the bytes of attributes written over `props` reads back as `ReadAfterWrite` says. */
  lemma StoredAttributesAt(objects: map<string, seq<byte>>, key: string, props: map<string, string>, a: Attributes)
    requires key in objects && DecodeProperties(objects[key]) == Some(WriteTo(props, a))
    requires ValidMetrics(a.metrics)
    ensures AttributesAt(objects, key) == Ok(Some(Attributes(HeadersOf(props) + a.headers, a.metrics,
      a.deleted, if a.deleted then a.deletedReason else None)))
  {
    ReadAfterWrite(props, a);
  }


  /** `AzureBlobAttributes`: attributes bound to the properties file at one key. */
  class AzureBlobAttributes {
    const file: AzurePropertiesFile
    var headers: map<string, string>
    var metrics: Option<BlobMetrics>
    var deleted: bool
    var deletedReason: Option<string>

    /** Attributes to be loaded from `key`: nothing held yet. */
    constructor (client: Container, key: string)
      ensures fresh(file) && file.client == client && file.key == key && file.props == map[]
      ensures headers == map[] && metrics.None? && !deleted && deletedReason.None?
    {
      file := new AzurePropertiesFile(client, key);
      headers := map[];
      metrics := None;
      deleted := false;
      deletedReason := None;
    }

    /** Attributes to be stored at `key`: the given headers and metrics, not deleted. */
    constructor WithMetrics(client: Container, key: string, headers: map<string, string>, metrics: BlobMetrics)
      ensures fresh(file) && file.client == client && file.key == key && file.props == map[]
      ensures this.headers == headers && this.metrics == Some(metrics) && !deleted && deletedReason.None?
    {
      file := new AzurePropertiesFile(client, key);
      this.headers := headers;
      this.metrics := Some(metrics);
      deleted := false;
      deletedReason := None;
    }

    /** Whether the fields hold exactly the attributes `a`. */
    predicate Holds(a: Attributes)
      reads this
    {
      headers == a.headers && metrics == Some(a.metrics) && deleted == a.deleted && deletedReason == a.deletedReason
    }

    /**
     * `load()`: `false`, changing nothing, when the key holds no object;
     * otherwise the file's entries are loaded and the fields read from them,
     * giving `true`. Bytes that are not a listing, and metrics that do not parse,
     * are refused.
     */
    method Load() returns (r: Result<bool>)
      modifies this, file
      ensures file.key !in file.client.objects ==> (r == Ok(false) && file.props == old(file.props)
        && headers == old(headers) && metrics == old(metrics) && deleted == old(deleted)
        && deletedReason == old(deletedReason))
      ensures r == Ok(true) ==> (file.key in file.client.objects
        && DecodeProperties(file.client.objects[file.key]).Some?
        && file.props == old(file.props) + DecodeProperties(file.client.objects[file.key]).value
        && ReadFrom(file.props).Ok? && Holds(ReadFrom(file.props).value))
      ensures old(file.props) == map[] ==> match AttributesAt(file.client.objects, file.key)
        case Ok(None) => r == Ok(false)
        case Ok(Some(a)) => r == Ok(true) && Holds(a)
        case Err(f) => r == Err(f)
    {
      ghost var empty := file.props == map[];
      var present := file.Exists();
      if !present {
        return Ok(false);
      }
      var loaded := file.Load();
      if loaded.Err? {
        return Err(loaded.failure);
      }
      var read := ReadFrom(file.props);
      if empty {
        assert file.props == DecodeProperties(file.client.objects[file.key]).value;
        assert AttributesAt(file.client.objects, file.key) == if read.Ok? then Ok(Some(read.value)) else Err(read.failure);
      }
      if read.Err? {
        return Err(read.failure);
      }
      headers := read.value.headers;
      metrics := Some(read.value.metrics);
      deleted := read.value.deleted;
      deletedReason := read.value.deletedReason;
      r := Ok(true);
    }

    /** `updateFrom`: takes over the headers, metrics and deletion fields of `a`; the file is untouched. */
    method UpdateFrom(a: Attributes)
      modifies this
      ensures Holds(a)
    {
      headers := a.headers;
      metrics := Some(a.metrics);
      deleted := a.deleted;
      deletedReason := a.deletedReason;
    }

    /**
     * `store()`: writes the fields into the file's entries and stores the file.
     * Without metrics there is nothing to write them from, and the write fails
     * on the missing metrics before anything is stored.
     */
    method Store() returns (r: Result<()>)
      modifies file, file.client
      ensures metrics.None? ==> (r == Err(NullPointer) && file.props == old(file.props)
        && file.client.objects == old(file.client.objects) && file.client.log == old(file.client.log))
      ensures metrics.Some? ==> (r.Ok?
        && file.props == WriteTo(old(file.props), Attributes(headers, metrics.value, deleted, deletedReason))
        && file.key in file.client.objects
        && file.client.log == old(file.client.log) + [Written(file.key)])
      ensures metrics.Some? && ValidMetrics(metrics.value) ==>
        AttributesAt(file.client.objects, file.key) == Ok(Some(Attributes(HeadersOf(old(file.props)) + headers,
          metrics.value, deleted, if deleted then deletedReason else None)))
      ensures metrics.Some? ==> file.client.objects == old(file.client.objects)[file.key := file.client.objects[file.key]]
      ensures file.client.staged == old(file.client.staged) && file.client.present == old(file.client.present)
    {
      if metrics.None? {
        return Err(NullPointer);
      }
      var a := Attributes(headers, metrics.value, deleted, deletedReason);
      WriteAndStore(a);
      r := Ok(());
    }

    /** Writes `a` into the file's entries and stores the file. */
    method WriteAndStore(a: Attributes)
      modifies file, file.client
      ensures file.props == WriteTo(old(file.props), a)
      ensures file.key in file.client.objects && file.client.log == old(file.client.log) + [Written(file.key)]
      ensures ValidMetrics(a.metrics) ==>
        AttributesAt(file.client.objects, file.key) == Ok(Some(Attributes(HeadersOf(old(file.props)) + a.headers,
          a.metrics, a.deleted, if a.deleted then a.deletedReason else None)))
      ensures file.client.objects == old(file.client.objects)[file.key := file.client.objects[file.key]]
      ensures file.client.staged == old(file.client.staged) && file.client.present == old(file.client.present)
    {
      ghost var before := file.props;
      file.props := WriteTo(file.props, a);
      file.Store();
      if ValidMetrics(a.metrics) {
        StoredAttributesAt(file.client.objects, file.key, before, a);
      }
    }
  }
}
