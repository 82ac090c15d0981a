/**
 * `AzureBlobStore`: the blob store engine over one container. A blob's bytes
 * and attributes live at the two keys its location gives; the engine keeps a
 * cache of blob handles (each a stale flag, the cached headers and metrics,
 * and a lock), checks the store's type tag at start, and reports every blob it
 * adds or deletes to the metrics store. The metrics store's accumulation is
 * kept here as the log of those reports.
 */
module BlobStore {
  import opened Util
  import opened ObjectStore
  import opened PropertiesCodec
  import opened PropertiesFile
  import opened KeyLayout
  import opened BlobAttributes
  import opened MetricsStore
  import opened Listing

  /** A report to the metrics store: a blob of `size` bytes added, or deleted. */
  datatype Delta = Addition(size: int) | Deletion(size: int)

  /**
   * How an upload's data stream behaves: it reads and closes; reading it
   * fails, which every chunked client rethrows unchecked before it commits
   * anything; or it reads, and closing it fails with an I/O error once the
   * data is written.
   */
  datatype UploadFault = Reads | ReadFails | CloseFails

  /**
   * Where a create takes the blob's bytes from: an upload of `data`, or a
   * copy of the object at `source`, described by the metrics of the blob it
   * belongs to.
   */
  datatype Ingest = Upload(data: seq<byte>, fault: UploadFault) | CopyFrom(source: string, sourceMetrics: BlobMetrics)

  /** Whether the ingester ends in the I/O error that starts a create's clean-up. */
  predicate ClosingFails(ingest: Ingest)
  {
    ingest.Upload? && ingest.fault == CloseFails
  }

  /** What the Java types guarantee of an ingest: a long size, long metrics. */
  predicate LongIngest(ingest: Ingest)
  {
    match ingest
    case Upload(data, _) => |data| <= LONG_MAX
    case CopyFrom(_, m) => ValidMetrics(m)
  }

  /** `Boolean.parseBoolean`: true exactly for `true` in any case. */
  predicate ParseBoolean(s: string)
  {
    EqualsIgnoreCase("true", s)
  }

  /** Whether the headers mark a direct-path blob; a missing header reads as `false`. */
  predicate IsDirectPath(headers: map<string, string>)
  {
    ParseBoolean(if DirectPathBlobHeader in headers then headers[DirectPathBlobHeader] else "false")
  }

  /** The headers of a direct-path blob mark it as one; headers without the mark do not. */
  lemma DirectPathMarked(name: string, headers: map<string, string>)
    ensures IsDirectPath(DirectPathHeaders(name))
    ensures DirectPathBlobHeader !in headers ==> !IsDirectPath(headers)
  {
    assert |"true"| != |"false"|;
  }

  /** Whether the bytes at the metadata key record this store's type and version. */
  predicate RecordsTypeV1(bytes: seq<byte>)
  {
    var props := DecodeProperties(bytes);
    props.Some? && TypeKey in props.value && props.value[TypeKey] == TypeV1
  }

  /**
   * The size `getContentSizeForDeletion` finds at `key`: the stored content
   * size when the attributes there load, nothing otherwise.
   */
  function SizeForDeletion(objects: map<string, seq<byte>>, key: string): (size: Option<int>)
    ensures size.Some? ==> key in objects && InLongRange(size.value)
    ensures AttributesAt(objects, key).Ok? && AttributesAt(objects, key).value.Some? ==> size.Some?
  {
    match AttributesAt(objects, key)
    case Ok(Some(a)) => Some(a.metrics.contentSize)
    case _ => None
  }

  /**
   * What a create reports before the addition: for a direct-path blob, the
   * deletion of the size found at its attribute key.
   */
  function OverwriteDeletion(headers: map<string, string>, objects: map<string, seq<byte>>, key: string): (ds: seq<Delta>)
    ensures |ds| <= 1 && (ds != [] ==> IsDirectPath(headers) && key in objects)
  {
    if IsDirectPath(headers) then DeletionOf(SizeForDeletion(objects, key)) else []
  }

  /** The deletion reported for a size that may be missing. */
  function DeletionOf(size: Option<int>): (ds: seq<Delta>)
    ensures |ds| <= 1 && (ds != [] <==> size.Some?)
  {
    if size.Some? then [Deletion(size.value)] else []
  }

  /**
   * Whether a create of a direct-path blob is refused before it writes: the
   * bytes at its attribute key do not read as attributes.
   */
  predicate RefusedExisting(headers: map<string, string>, objects: map<string, seq<byte>>, key: string)
  {
    IsDirectPath(headers) && AttributesAt(objects, key).Err?
  }

  /**
   * The outcome of the clean-up after a failed upload, from `before` to
   * `after`: the attribute key is deleted, then the content key, and the
   * failure names the blob. A key that holds nothing makes its delete fail
   * unchecked and ends the clean-up there.
   */
  predicate CleanedUp(before: map<string, seq<byte>>, after: map<string, seq<byte>>, f: Failure,
                      attributeKey: string, contentKey: string, blobId: string)
  {
    if attributeKey !in before then f == RuntimeException && after == before
    else if contentKey !in before then f == RuntimeException && after == before - {attributeKey}
    else f == BlobStoreException(Some(blobId)) && after == before - {attributeKey, contentKey}
  }

  /**
   * The attributes `a` at `key`, not deleted before, stored again marked
   * deleted with `reason`; no other key changes.
   */
  predicate SoftDeleted(before: map<string, seq<byte>>, after: map<string, seq<byte>>, key: string,
                        a: Attributes, reason: string)
  {
    key in after && after == before[key := after[key]]
    && AttributesAt(after, key) == Ok(Some(a.(deleted := true, deletedReason := Some(reason))))
  }

  /**
   * What a soft delete of the attributes at `key` does, from the objects and
   * call log before to those after, answering `r`: a failure to load is
   * reported with the blob's id, and nothing there or attributes already
   * deleted give `false`, all three writing nothing; otherwise the attributes
   * are stored again marked deleted with `reason`, in one write, giving `true`.
   */
  predicate SoftDeleteOutcome(before: map<string, seq<byte>>, after: map<string, seq<byte>>,
                              logBefore: seq<Call>, logAfter: seq<Call>,
                              key: string, blobId: string, reason: string, r: Result<bool>)
  {
    match AttributesAt(before, key)
    case Err(_) => r == Err(BlobStoreException(Some(blobId))) && after == before && logAfter == logBefore
    case Ok(None) => r == Ok(false) && after == before && logAfter == logBefore
    case Ok(Some(a)) =>
      if a.deleted then (r == Ok(false) && after == before && logAfter == logBefore)
      else (r == Ok(true) && SoftDeleted(before, after, key, a, reason) && logAfter == logBefore + [Written(key)])
  }

  /** Whether an ingest succeeds: the upload's data reads and closes, the copy's source exists. */
  predicate Ingests(objects: map<string, seq<byte>>, ingest: Ingest)
  {
    match ingest
    case Upload(_, fault) => fault == Reads
    case CopyFrom(source, _) => source in objects
  }

  /** The bytes an ingest writes: the uploaded data, or the source object. */
  function Ingested(objects: map<string, seq<byte>>, ingest: Ingest): seq<byte>
    requires ingest.CopyFrom? ==> ingest.source in objects
  {
    match ingest
    case Upload(data, _) => data
    case CopyFrom(source, _) => objects[source]
  }

  /**
   * The metrics a create records at `now`: the uploaded data's digest and
   * length, or those of the copied blob.
   */
  function IngestedMetrics(ingest: Ingest, now: int, sha1: seq<byte> -> string): (m: BlobMetrics)
    ensures m.creationTime == now
    ensures LongIngest(ingest) && InLongRange(now) ==> ValidMetrics(m)
  {
    match ingest
    case Upload(data, _) => BlobMetrics(now, sha1(data), |data|)
    case CopyFrom(_, m) => BlobMetrics(now, m.sha1, m.contentSize)
  }

  /**
   * What reloading the stale handle `h` from the attributes `found` gives:
   * a failure to load is passed on, and nothing there, or deleted attributes
   * when deleted blobs are not asked for, give no blob; all three leave the
   * handle stale. Otherwise the handle holds the attributes' headers and
   * metrics, is fresh, and is the answer.
   */
  predicate Reloaded(h: AzureBlob, found: Result<Option<Attributes>>, includeDeleted: bool, r: Result<Option<AzureBlob>>)
    reads h
  {
    match found
    case Err(f) => r == Err(f) && h.stale
    case Ok(None) => r == Ok(None) && h.stale
    case Ok(Some(a)) =>
      if a.deleted && !includeDeleted then (r == Ok(None) && h.stale)
      else (r == Ok(Some(h)) && !h.stale && h.headers == a.headers && h.metrics == Some(a.metrics))
  }

  /** A second soft delete right after one that answered `true` finds the attributes deleted: it answers `false` and writes nothing. */
  lemma SecondSoftDeleteRefused(before: map<string, seq<byte>>, mid: map<string, seq<byte>>, after: map<string, seq<byte>>,
                                log0: seq<Call>, log1: seq<Call>, log2: seq<Call>,
                                key: string, blobId: string, reason: string, reason': string, r: Result<bool>)
    requires SoftDeleteOutcome(before, mid, log0, log1, key, blobId, reason, Ok(true))
    requires SoftDeleteOutcome(mid, after, log1, log2, key, blobId, reason', r)
    ensures r == Ok(false) && after == mid && log2 == log1
  {
  }

  /** Whether attributes `found` by `get` make a live source blob with metrics `m`. */
  predicate LiveWith(found: Result<Option<Attributes>>, m: BlobMetrics)
  {
    found.Ok? && found.value.Some? && !found.value.value.deleted && found.value.value.metrics == m
  }

  /** Whether attributes `found` by `get` give no blob: nothing there, or deleted attributes. */
  predicate NoneFound(found: Result<Option<Attributes>>)
  {
    found.Ok? && (found.value.None? || found.value.value.deleted)
  }

  /**
   * The attributes `setBlobAttributes` stores over `existing`: the stored header
   * entries with those of `given` over them, and the metrics and deletion
   * fields of `given`; a reason is only kept for deleted attributes.
   */
  function Updated(existing: Attributes, given: Attributes): (u: Attributes)
    ensures u.metrics == given.metrics && u.deleted == given.deleted
    ensures u.headers.Keys == existing.headers.Keys + given.headers.Keys
    ensures forall n :: n in given.headers ==> u.headers[n] == given.headers[n]
  {
    Attributes(existing.headers + given.headers, given.metrics, given.deleted,
      if given.deleted then given.deletedReason else None)
  }

  /** The property that carries a blob's name among its attributes. */
  const BlobNameProperty: string := HeaderPrefix + BlobNameHeader

  /**
   * The decision of `undelete`: the attributes' properties name the blob, the
   * attributes are deleted, and a checker is given that finds the blob in use.
   */
  function UndeleteApproved(props: map<string, string>, deleted: bool,
                            checker: Option<(string, string) -> bool>, blobId: string): (approved: bool)
    ensures approved ==> BlobNameProperty in props && deleted && checker.Some?
    ensures approved ==> checker.value(blobId, props[BlobNameProperty])
  {
    BlobNameProperty in props && deleted && checker.Some? && checker.value(blobId, props[BlobNameProperty])
  }

  /**
   * What storing `attributes` back undeleted does, from the entries, headers,
   * metrics, objects and call log before: the fields say not deleted and no
   * reason, the rest unchanged. Without metrics the write fails on them and
   * writes nothing; otherwise the attribute key is written once and holds the
   * attributes not deleted, answering `true`.
   */
  predicate Undeleted(attributes: AzureBlobAttributes, props: map<string, string>, headers: map<string, string>,
                      metrics: Option<BlobMetrics>, objects: map<string, seq<byte>>, log: seq<Call>, r: Result<bool>)
    reads attributes, attributes.file, attributes.file.client
  {
    var key := attributes.file.key;
    var client := attributes.file.client;
    !attributes.deleted && attributes.deletedReason.None?
    && attributes.headers == headers && attributes.metrics == metrics
    && (metrics.None? ==> r == Err(NullPointer) && client.objects == objects && client.log == log)
    && (metrics.Some? ==> (r == Ok(true) && key in client.objects && client.objects == objects[key := client.objects[key]]
        && client.log == log + [Written(key)]))
    && (metrics.Some? && ValidMetrics(metrics.value) ==>
        AttributesAt(client.objects, key) == Ok(Some(Attributes(HeadersOf(props) + headers, metrics.value, false, None))))
  }

  /** Whether some attribute key under the content prefix resolves to the blob `id`. */
  predicate ListedAttributeKey(objects: map<string, seq<byte>>, fromHeaders: map<string, string> -> string, id: string)
  {
    exists k :: k in objects && StartsWith(k, ContentPrefix) && NamesId(objects, k, fromHeaders, id)
  }

  /** A cached blob handle: `BlobSupport` with the content read from the store's client. */
  class AzureBlob {
    const id: string
    const client: Container
    const contentKey: string
    /** Whether the cached headers and metrics must be reloaded before use. */
    var stale: bool
    var headers: map<string, string>
    var metrics: Option<BlobMetrics>
    /** Whether the handle's lock is held. */
    var locked: bool

    /** A new handle is stale and holds nothing. */
    constructor (id: string, client: Container, contentKey: string)
      ensures this.id == id && this.client == client && this.contentKey == contentKey
      ensures stale && headers == map[] && metrics.None? && !locked
    {
      this.id := id;
      this.client := client;
      this.contentKey := contentKey;
      stale := true;
      headers := map[];
      metrics := None;
      locked := false;
    }

    /** `lock()`: takes the handle's lock. */
    method Lock()
      requires !locked
      modifies this
      ensures locked && stale == old(stale) && headers == old(headers) && metrics == old(metrics)
    {
      locked := true;
    }

    /** Releases the handle's lock. */
    method Unlock()
      modifies this
      ensures !locked && stale == old(stale) && headers == old(headers) && metrics == old(metrics)
    {
      locked := false;
    }

    /** `refresh`: caches the headers and metrics; the handle is fresh again. */
    method Refresh(headers: map<string, string>, metrics: BlobMetrics)
      modifies this
      ensures !stale && this.headers == headers && this.metrics == Some(metrics) && locked == old(locked)
    {
      this.headers := headers;
      this.metrics := Some(metrics);
      stale := false;
    }

    /** `markStale`: the cached headers and metrics must be reloaded before the next use. */
    method MarkStale()
      modifies this
      ensures stale && headers == old(headers) && metrics == old(metrics) && locked == old(locked)
    {
      stale := true;
    }

    /** `getInputStream`: the bytes at the blob's content key; a missing object surfaces unchecked. */
    method GetInputStream() returns (r: Result<seq<byte>>)
      ensures contentKey in client.objects ==> r == Ok(client.objects[contentKey])
      ensures contentKey !in client.objects ==> r == Err(RuntimeException)
    {
      r := client.Get(contentKey);
    }
  }

  class AzureBlobStore {
    const client: Container
    /** `blobIdLocationResolver.getLocation`. */
    const location: string -> string
    /** `blobIdLocationResolver.fromHeaders`, as the id's string. */
    const fromHeaders: map<string, string> -> string
    /** The SHA-1 digest of a blob's bytes, in its written form. */
    const sha1: seq<byte> -> string
    const storeMetrics: AzureBlobStoreMetricsStore
    /** Whether the store is started: `doStart` has run and `doStop` has not. */
    var started: bool
    /** `liveBlobs`: the cached handles by blob id. */
    var liveBlobs: map<string, AzureBlob>
    /** Every report to the metrics store, oldest first. */
    ghost var deltas: seq<Delta>

    constructor (client: Container, location: string -> string, fromHeaders: map<string, string> -> string,
                 sha1: seq<byte> -> string, storeMetrics: AzureBlobStoreMetricsStore)
      ensures this.client == client && this.location == location && this.fromHeaders == fromHeaders
      ensures this.sha1 == sha1 && this.storeMetrics == storeMetrics
      ensures !started && liveBlobs == map[] && deltas == []
    {
      this.client := client;
      this.location := location;
      this.fromHeaders := fromHeaders;
      this.sha1 := sha1;
      this.storeMetrics := storeMetrics;
      started := false;
      liveBlobs := map[];
      deltas := [];
    }

    /** `contentPath`. */
    function ContentKey(id: string): string
    {
      ContentPath(location(id))
    }

    /** `attributePath`. */
    function AttributeKey(id: string): string
    {
      AttributePath(location(id))
    }

    /**
     * A handle fit to be cached under `id`: it belongs to that id and to this
     * store, its lock is not held, and unless it is stale it holds long metrics.
     */
    predicate HandleValid(id: string, h: AzureBlob)
      reads h
    {
      h.id == id && h.client == client && h.contentKey == ContentKey(id) && !h.locked
      && (!h.stale ==> h.metrics.Some? && ValidMetrics(h.metrics.value))
    }

    /** Every cached handle is fit to be cached under its id; in particular no lock is held between operations. */
    predicate Valid()
      reads this`liveBlobs, liveBlobs.Values
    {
      forall id :: id in liveBlobs ==> HandleValid(id, liveBlobs[id])
    }

    /** The handle cached for `id`, if there is one. */
    function HandleOf(id: string): set<object>
      reads this`liveBlobs
    {
      if id in liveBlobs then {liveBlobs[id]} else {}
    }

    /**
     * `liveBlobs.getUnchecked(id)`: the cached handle, or a new stale one put
     * in its place. The cache holds its handles weakly, so a cached handle may
     * have been dropped and is then replaced as if it had never been there.
     */
    method CachedHandle(id: string) returns (blob: AzureBlob)
      requires Valid()
      modifies this
      ensures Valid() && liveBlobs == old(liveBlobs)[id := blob]
      ensures fresh(blob) || (id in old(liveBlobs) && blob == old(liveBlobs)[id])
      ensures fresh(blob) ==> blob.stale && blob.headers == map[] && blob.metrics.None?
      ensures started == old(started) && deltas == old(deltas)
    {
      var kept: bool :| true;
      if id in liveBlobs && kept {
        blob := liveBlobs[id];
      } else {
        blob := new AzureBlob(id, client, ContentKey(id));
        liveBlobs := liveBlobs[id := blob];
      }
    }

    /**
     * `doStart`: an existing metadata file must record the type `azure/1`
     * (the check refuses any other value, a missing one included); a missing
     * file is written with that type. Then the cache is built and the metrics
     * store gets the client.
     */
    method DoStart() returns (r: Result<()>)
      modifies this, client, storeMetrics
      ensures r.Ok? <==> MetadataFilename !in old(client.objects) || RecordsTypeV1(old(client.objects)[MetadataFilename])
      ensures r.Err? ==> r.failure == if DecodeProperties(old(client.objects)[MetadataFilename]).None? then IllegalArgument else IllegalState
      ensures r.Err? ==> (started == old(started) && liveBlobs == old(liveBlobs) && storeMetrics.client == old(storeMetrics.client))
      ensures r.Ok? ==> (started && liveBlobs == map[] && Valid() && storeMetrics.client == Some(client)
        && MetadataFilename in client.objects && RecordsTypeV1(client.objects[MetadataFilename]))
      ensures MetadataFilename in old(client.objects) ==> client.objects == old(client.objects) && client.log == old(client.log)
      ensures MetadataFilename !in old(client.objects) ==> (client.log == old(client.log) + [Written(MetadataFilename)]
        && client.objects == old(client.objects)[MetadataFilename := client.objects[MetadataFilename]])
      ensures deltas == old(deltas)
    {
      var metadata := new AzurePropertiesFile(client, MetadataFilename);
      var present := metadata.Exists();
      if present {
        var loaded := metadata.Load();
        if loaded.Err? {
          return Err(loaded.failure);
        }
        if TypeKey !in metadata.props || metadata.props[TypeKey] != TypeV1 {
          return Err(IllegalState);
        }
      } else {
        metadata.props := metadata.props[TypeKey := TypeV1];
        metadata.Store();
      }
      liveBlobs := map[];
      started := true;
      storeMetrics.SetAzureClient(Some(client));
      r := Ok(());
    }

    /** `doStop`: drops the cache and stops the metrics store, which lets go of the client. */
    method DoStop()
      modifies this, storeMetrics
      ensures !started && liveBlobs == map[] && storeMetrics.client.None? && deltas == old(deltas)
    {
      liveBlobs := map[];
      started := false;
      storeMetrics.DoStop();
    }

    /** A fresh `AzureBlobAttributes` for `key`, loaded. */
    method LoadAttributes(key: string) returns (attrs: AzureBlobAttributes, r: Result<bool>)
      ensures fresh(attrs) && fresh(attrs.file) && attrs.file.client == client && attrs.file.key == key
      ensures match AttributesAt(client.objects, key)
        case Ok(None) => r == Ok(false) && attrs.metrics.None? && attrs.headers == map[]
        case Ok(Some(a)) => r == Ok(true) && attrs.Holds(a)
        case Err(f) => r == Err(f)
      ensures r == Ok(true) ==> attrs.headers == HeadersOf(attrs.file.props)
    {
      attrs := new AzureBlobAttributes(client, key);
      r := attrs.Load();
    }

    /**
     * `exists`: whether attributes load from the blob's attribute key. Bytes
     * there that do not read as attributes are refused.
     */
    method Exists(blobId: string) returns (r: Result<bool>)
      requires started
      ensures match AttributesAt(client.objects, AttributeKey(blobId))
        case Ok(found) => r == Ok(found.Some?)
        case Err(f) => r == Err(f)
      ensures r == Ok(true) ==> AttributeKey(blobId) in client.objects
    {
      var attrs;
      attrs, r := LoadAttributes(AttributeKey(blobId));
    }

    /**
     * `getContentSizeForDeletion`: loads the attributes and gives their content
     * size; any failure, and attributes without metrics, give nothing.
     */
    method GetContentSizeForDeletion(attrs: AzureBlobAttributes) returns (size: Option<int>)
      modifies attrs, attrs.file
      ensures old(attrs.file.props) == map[] && old(attrs.metrics).None? ==>
        size == SizeForDeletion(attrs.file.client.objects, attrs.file.key)
      ensures size.Some? ==> attrs.metrics.Some? && size.value == attrs.metrics.value.contentSize
    {
      var loaded := attrs.Load();
      if loaded.Err? {
        return None;
      }
      size := if attrs.metrics.Some? then Some(attrs.metrics.value.contentSize) else None;
    }

    /**
     * What a create of a direct-path blob reports as deleted before it
     * overwrites: the stored size when the blob exists. The existence check
     * lets a refusal of the stored attributes through.
     */
    method ExistingSizeForOverwrite(blobId: string, headers: map<string, string>) returns (r: Result<seq<Delta>>)
      requires started
      ensures r.Err? <==> RefusedExisting(headers, client.objects, AttributeKey(blobId))
      ensures r.Err? ==> r.failure == IllegalArgument
      ensures r.Ok? ==> r.value == OverwriteDeletion(headers, client.objects, AttributeKey(blobId))
    {
      var existing := None;
      if IsDirectPath(headers) {
        var attrs := new AzureBlobAttributes(client, AttributeKey(blobId));
        var found := Exists(blobId);
        if found.Err? {
          return Err(found.failure);
        }
        if found.value {
          existing := GetContentSizeForDeletion(attrs);
        }
        return Ok(DeletionOf(existing));
      }
      r := Ok([]);
    }

    /**
     * The ingester: an upload writes the data at `blobPath` and measures it, or
     * fails reading it before anything is written; a copy copies the source
     * object and takes over the source blob's digest and size. Either way the
     * creation time is `now`.
     */
    method IngestTo(blobPath: string, ingest: Ingest, now: int) returns (r: Result<BlobMetrics>)
      modifies client
      ensures r.Ok? <==> Ingests(old(client.objects), ingest)
      ensures r.Ok? ==> (r.value == IngestedMetrics(ingest, now, sha1)
        && client.objects == old(client.objects)[blobPath := Ingested(old(client.objects), ingest)])
      ensures r.Ok? && ingest.Upload? ==> client.log == old(client.log) + [Written(blobPath)]
      ensures r.Ok? && ingest.CopyFrom? ==> client.log == old(client.log) + [Copied(ingest.source, blobPath)]
      ensures ClosingFails(ingest) ==> (r == Err(IOException)
        && client.objects == old(client.objects)[blobPath := ingest.data] && client.log == old(client.log) + [Written(blobPath)])
      ensures r.Err? && !ClosingFails(ingest) ==> (r.failure == RuntimeException
        && client.objects == old(client.objects) && client.log == old(client.log))
      ensures client.staged == old(client.staged) && client.present == old(client.present)
    {
      match ingest
      case Upload(data, fault) =>
        if fault == ReadFails {
          return Err(RuntimeException);
        }
        client.Put(blobPath, data);
        if fault == CloseFails {
          return Err(IOException);
        }
        r := Ok(BlobMetrics(now, sha1(data), |data|));
      case CopyFrom(source, m) =>
        var copied := client.Copy(source, blobPath);
        if copied.Err? {
          return Err(copied.failure);
        }
        r := Ok(BlobMetrics(now, m.sha1, m.contentSize));
    }

    /**
     * The clean-up after an I/O error in a create: deletes the attribute key,
     * then the content key, and reports the failure with the blob's id. A key
     * that holds nothing makes its delete fail unchecked, which ends the
     * clean-up there.
     */
    method CleanUpAfterFailure(blobId: string) returns (f: Failure)
      modifies client
      ensures AttributeKey(blobId) !in old(client.objects) ==> (f == RuntimeException
        && client.objects == old(client.objects) && client.log == old(client.log))
      ensures AttributeKey(blobId) in old(client.objects) && ContentKey(blobId) !in old(client.objects) ==> (f == RuntimeException
        && client.objects == old(client.objects) - {AttributeKey(blobId)}
        && client.log == old(client.log) + [Deleted(AttributeKey(blobId))])
      ensures AttributeKey(blobId) in old(client.objects) && ContentKey(blobId) in old(client.objects) ==> (f == BlobStoreException(Some(blobId))
        && client.objects == old(client.objects) - {AttributeKey(blobId), ContentKey(blobId)}
        && client.log == old(client.log) + [Deleted(AttributeKey(blobId)), Deleted(ContentKey(blobId))])
      ensures client.staged == old(client.staged) && client.present == old(client.present)
    {
      ContentNeverAttribute(location(blobId), location(blobId));
      var removed := client.Delete(AttributeKey(blobId));
      if removed.Err? {
        return removed.failure;
      }
      removed := client.Delete(ContentKey(blobId));
      if removed.Err? {
        return removed.failure;
      }
      f := BlobStoreException(Some(blobId));
    }

    /**
     * `new AzureBlobAttributes(client, key, headers, metrics).store()`: the
     * headers and metrics, not deleted, written as the only entries at `key`.
     */
    method StoreNewAttributes(key: string, headers: map<string, string>, metrics: BlobMetrics)
      requires ValidMetrics(metrics)
      modifies client
      ensures AttributesAt(client.objects, key) == Ok(Some(Attributes(headers, metrics, false, None)))
      ensures key in client.objects && client.objects == old(client.objects)[key := client.objects[key]]
      ensures client.log == old(client.log) + [Written(key)]
      ensures client.staged == old(client.staged) && client.present == old(client.present)
    {
      var attrs := new AzureBlobAttributes.WithMetrics(client, key, headers, metrics);
      assert HeadersOf(attrs.file.props) + headers == headers by {
        NoHeadersInEmpty();
        assert map[] + headers == headers;
      }
      var _ := attrs.Store();
    }

    /**
     * The part of `create` under the handle's lock: ingests the bytes, then
     * refreshes the handle with the headers and the new metrics and stores the
     * attributes. An I/O error from the ingester starts the clean-up and leaves
     * the handle as it was. The lock is released on every path.
     */
    method WriteLocked(blob: AzureBlob, blobId: string, headers: map<string, string>, ingest: Ingest, now: int)
      returns (r: Result<BlobMetrics>)
      requires !blob.locked && InLongRange(now) && LongIngest(ingest)
      modifies client, blob
      ensures !blob.locked
      ensures r.Ok? <==> Ingests(old(client.objects), ingest)
      ensures r.Ok? ==> (!blob.stale && blob.headers == headers && blob.metrics == Some(r.value)
        && ValidMetrics(r.value) && r.value.creationTime == now
        && AttributesAt(client.objects, AttributeKey(blobId)) == Ok(Some(Attributes(headers, r.value, false, None)))
        && AttributeKey(blobId) in client.objects
        && client.objects == old(client.objects)[ContentKey(blobId) := Ingested(old(client.objects), ingest)]
             [AttributeKey(blobId) := client.objects[AttributeKey(blobId)]])
      ensures r.Ok? ==> r.value == IngestedMetrics(ingest, now, sha1)
      ensures r.Err? ==> (blob.stale == old(blob.stale) && blob.headers == old(blob.headers) && blob.metrics == old(blob.metrics))
      ensures r.Err? && !ClosingFails(ingest) ==> (r.failure == RuntimeException
        && client.objects == old(client.objects) && client.log == old(client.log))
      ensures ClosingFails(ingest) ==> (r.Err? && CleanedUp(old(client.objects)[ContentKey(blobId) := ingest.data],
        client.objects, r.failure, AttributeKey(blobId), ContentKey(blobId), blobId))
    {
      ContentNeverAttribute(location(blobId), location(blobId));
      blob.Lock();
      var metrics := IngestTo(ContentKey(blobId), ingest, now);
      if metrics.Err? {
        if metrics.failure == IOException {
          var f := CleanUpAfterFailure(blobId);
          r := Err(f);
        } else {
          r := Err(metrics.failure);
        }
        blob.Unlock();
        return;
      }
      blob.Refresh(headers, metrics.value);
      StoreNewAttributes(AttributeKey(blobId), headers, metrics.value);
      blob.Unlock();
      r := Ok(metrics.value);
    }

    /**
     * `liveBlobs.getUnchecked(blobId)` and the locked part of `create` on the
     * handle it gives; the cache then holds that handle under the id.
     */
    method WriteHandle(blobId: string, headers: map<string, string>, ingest: Ingest, now: int)
      returns (blob: AzureBlob, r: Result<BlobMetrics>)
      requires Valid() && InLongRange(now) && LongIngest(ingest)
      modifies this, client, HandleOf(blobId)
      ensures Valid() && liveBlobs == old(liveBlobs)[blobId := blob] && started == old(started) && deltas == old(deltas)
      ensures r.Ok? <==> Ingests(old(client.objects), ingest)
      ensures r.Ok? ==> (!blob.stale && blob.headers == headers && blob.metrics == Some(r.value)
        && r.value == IngestedMetrics(ingest, now, sha1)
        && AttributesAt(client.objects, AttributeKey(blobId)) == Ok(Some(Attributes(headers, r.value, false, None)))
        && client.objects == old(client.objects)[ContentKey(blobId) := Ingested(old(client.objects), ingest)]
             [AttributeKey(blobId) := client.objects[AttributeKey(blobId)]])
      ensures r.Err? && !ClosingFails(ingest) ==> (r.failure == RuntimeException
        && client.objects == old(client.objects) && client.log == old(client.log))
      ensures ClosingFails(ingest) ==> (r.Err? && CleanedUp(old(client.objects)[ContentKey(blobId) := ingest.data],
        client.objects, r.failure, AttributeKey(blobId), ContentKey(blobId), blobId))
    {
      blob := CachedHandle(blobId);
      assert HandleValid(blobId, blob) by {
        assert blobId in liveBlobs && liveBlobs[blobId] == blob;
      }
      r := WriteLocked(blob, blobId, headers, ingest, now);
    }

    /**
     * The private `create`: for a direct-path blob, the size of the blob it
     * overwrites; then, under the handle's lock, the bytes and attributes; then
     * the overwritten size reported as a deletion before the new size as an
     * addition. The handle is the cached one, refreshed.
     */
    method Create(headers: map<string, string>, ingest: Ingest, blobId: string, now: int) returns (r: Result<AzureBlob>)
      requires started && Valid() && InLongRange(now) && LongIngest(ingest)
      modifies this, client, HandleOf(blobId)
      ensures Valid() && started
      ensures liveBlobs == old(liveBlobs) || (blobId in liveBlobs && liveBlobs == old(liveBlobs)[blobId := liveBlobs[blobId]])
      ensures RefusedExisting(headers, old(client.objects), AttributeKey(blobId)) ==>
        (r == Err(IllegalArgument) && client.objects == old(client.objects) && client.log == old(client.log))
      ensures r.Ok? <==> !RefusedExisting(headers, old(client.objects), AttributeKey(blobId)) && Ingests(old(client.objects), ingest)
      ensures r.Ok? ==> (blobId in liveBlobs && r.value == liveBlobs[blobId] && !r.value.stale && r.value.headers == headers
        && r.value.metrics == Some(IngestedMetrics(ingest, now, sha1))
        && AttributesAt(client.objects, AttributeKey(blobId)) == Ok(Some(Attributes(headers, r.value.metrics.value, false, None)))
        && client.objects == old(client.objects)[ContentKey(blobId) := Ingested(old(client.objects), ingest)]
             [AttributeKey(blobId) := client.objects[AttributeKey(blobId)]]
        && deltas == old(deltas) + OverwriteDeletion(headers, old(client.objects), AttributeKey(blobId))
          + [Addition(r.value.metrics.value.contentSize)])
      ensures r.Err? ==> deltas == old(deltas)
      ensures r.Err? && !ClosingFails(ingest) && !RefusedExisting(headers, old(client.objects), AttributeKey(blobId)) ==>
        (r.failure == RuntimeException && client.objects == old(client.objects) && client.log == old(client.log))
      ensures ClosingFails(ingest) && !RefusedExisting(headers, old(client.objects), AttributeKey(blobId)) ==>
        (r.Err? && CleanedUp(old(client.objects)[ContentKey(blobId) := ingest.data],
           client.objects, r.failure, AttributeKey(blobId), ContentKey(blobId), blobId))
    {
      var existing := ExistingSizeForOverwrite(blobId, headers);
      if existing.Err? {
        return Err(existing.failure);
      }
      var blob, metrics := WriteHandle(blobId, headers, ingest, now);
      if metrics.Err? {
        return Err(metrics.failure);
      }
      deltas := deltas + existing.value + [Addition(metrics.value.contentSize)];
      r := Ok(blob);
    }

    /**
     * `get(blobId, includeDeleted)`: the cached handle when it is fresh, with
     * nothing reloaded. A stale handle is reloaded under its lock from the
     * attributes kept at the empty key (the key the code loads from, not the
     * blob's attribute key): nothing there, or deleted attributes when deleted
     * blobs are not asked for, give no blob and leave the handle stale;
     * attributes that do not read are refused; otherwise the handle is
     * refreshed with them and returned.
     */
    method Get(blobId: string, includeDeleted: bool) returns (r: Result<Option<AzureBlob>>)
      requires Valid()
      modifies this, HandleOf(blobId)
      ensures Valid() && started == old(started) && deltas == old(deltas)
      ensures blobId in liveBlobs && liveBlobs == old(liveBlobs)[blobId := liveBlobs[blobId]]
      ensures fresh(liveBlobs[blobId]) || (blobId in old(liveBlobs) && liveBlobs[blobId] == old(liveBlobs[blobId]))
      ensures var h := liveBlobs[blobId];
        blobId in old(liveBlobs) && h == old(liveBlobs[blobId]) && !old(h.stale) ==>
          (r == Ok(Some(h)) && !h.stale && h.headers == old(h.headers) && h.metrics == old(h.metrics))
      ensures var h := liveBlobs[blobId];
        !(blobId in old(liveBlobs) && h == old(liveBlobs[blobId]) && !old(h.stale)) ==>
          Reloaded(h, AttributesAt(client.objects, ""), includeDeleted, r)
    {
      var blob := CachedHandle(blobId);
      assert HandleValid(blobId, blob) by {
        assert blobId in liveBlobs && liveBlobs[blobId] == blob;
      }
      if !blob.stale {
        return Ok(Some(blob));
      }
      r := ReloadLocked(blob, includeDeleted);
    }

    /**
     * The reload of a stale handle in `get`, under its lock, from the
     * attributes kept at the empty key; the lock is released on every path.
     */
    method ReloadLocked(blob: AzureBlob, includeDeleted: bool) returns (r: Result<Option<AzureBlob>>)
      requires !blob.locked && blob.stale
      modifies blob
      ensures !blob.locked && Reloaded(blob, AttributesAt(client.objects, ""), includeDeleted, r)
      ensures blob.stale ==> blob.headers == old(blob.headers) && blob.metrics == old(blob.metrics)
    {
      blob.Lock();
      var attrs, loaded := LoadAttributes("");
      if loaded.Err? {
        r := Err(loaded.failure);
      } else if !loaded.value || (attrs.deleted && !includeDeleted) {
        r := Ok(None);
      } else {
        blob.Refresh(attrs.headers, attrs.metrics.value);
        r := Ok(Some(blob));
      }
      blob.Unlock();
    }

    /**
     * `doDelete`: under the handle's lock, a soft delete. Nothing there, or
     * attributes already deleted, give `false` and write nothing; otherwise the
     * attributes are stored again marked deleted with the reason, the handle is
     * marked stale and the answer is `true`. No tombstone is recorded anywhere.
     * Any failure is reported with the blob's id.
     */
    method DoDelete(blobId: string, reason: string) returns (r: Result<bool>)
      requires Valid()
      modifies this, client, HandleOf(blobId)
      ensures Valid() && started == old(started) && deltas == old(deltas)
      ensures blobId in liveBlobs && liveBlobs == old(liveBlobs)[blobId := liveBlobs[blobId]]
      ensures SoftDeleteOutcome(old(client.objects), client.objects, old(client.log), client.log,
        AttributeKey(blobId), blobId, reason, r)
      ensures r == Ok(true) ==> liveBlobs[blobId].stale
    {
      var blob := CachedHandle(blobId);
      assert HandleValid(blobId, blob) by {
        assert blobId in liveBlobs && liveBlobs[blobId] == blob;
      }
      r := DeleteLocked(blob, blobId, reason);
    }

    /** The part of `doDelete` under the handle's lock, which is released on every path. */
    method DeleteLocked(blob: AzureBlob, blobId: string, reason: string) returns (r: Result<bool>)
      requires !blob.locked
      modifies client, blob
      ensures !blob.locked && blob.headers == old(blob.headers) && blob.metrics == old(blob.metrics)
      ensures blob.stale == (old(blob.stale) || r == Ok(true))
      ensures SoftDeleteOutcome(old(client.objects), client.objects, old(client.log), client.log,
        AttributeKey(blobId), blobId, reason, r)
    {
      blob.Lock();
      r := MarkDeleted(AttributeKey(blobId), blobId, reason);
      if r == Ok(true) {
        blob.MarkStale();
      }
      blob.Unlock();
    }

    /**
     * The soft delete's work on the attributes at `key`: loads them, and unless
     * they are missing or already deleted stores them marked deleted with the
     * reason.
     */
    method MarkDeleted(key: string, blobId: string, reason: string) returns (r: Result<bool>)
      modifies client
      ensures SoftDeleteOutcome(old(client.objects), client.objects, old(client.log), client.log, key, blobId, reason, r)
    {
      ghost var found := AttributesAt(client.objects, key);
      var attrs, loaded := LoadAttributes(key);
      if loaded.Err? {
        return Err(BlobStoreException(Some(blobId)));
      }
      if !loaded.value || attrs.deleted {
        return Ok(false);
      }
      ghost var a := found.value.value;
      assert attrs.Holds(a) && !a.deleted;
      StoreDeleted(attrs, a, reason);
      r := Ok(true);
    }

    /** `setDeleted(true)`, `setDeletedReason(reason)` and `store()` on loaded attributes `a`. */
    method StoreDeleted(attrs: AzureBlobAttributes, ghost a: Attributes, reason: string)
      requires attrs.Holds(a) && attrs.headers == HeadersOf(attrs.file.props) && ValidMetrics(a.metrics)
      modifies attrs, attrs.file, attrs.file.client
      ensures SoftDeleted(old(attrs.file.client.objects), attrs.file.client.objects, attrs.file.key, a, reason)
      ensures attrs.file.client.log == old(attrs.file.client.log) + [Written(attrs.file.key)]
    {
      var file := attrs.file;
      var client := file.client;
      ghost var deleted := a.(deleted := true, deletedReason := Some(reason));
      attrs.deleted := true;
      attrs.deletedReason := Some(reason);
      MergeSelf(a.headers);
      assert attrs.Holds(deleted) && HeadersOf(file.props) + attrs.headers == deleted.headers;
      var _ := attrs.Store();
      assert AttributesAt(client.objects, file.key) == Ok(Some(deleted));
    }

    /**
     * `doDeleteHard`: finds the stored size, deletes the content key and then
     * the attribute key, reports the size as a deletion when it was found, and
     * answers `true`. A key that holds nothing makes its delete fail, which is
     * reported with the blob's id. The cached handle is dropped on every path;
     * nothing reads the cache in between, so the model drops it first.
     */
    method DoDeleteHard(blobId: string) returns (r: Result<bool>)
      requires Valid()
      modifies this, client
      ensures Valid() && started == old(started) && liveBlobs == old(liveBlobs) - {blobId}
      ensures r.Ok? <==> ContentKey(blobId) in old(client.objects) && AttributeKey(blobId) in old(client.objects)
      ensures r.Ok? ==> (r.value
        && client.objects == old(client.objects) - {ContentKey(blobId), AttributeKey(blobId)}
        && client.log == old(client.log) + [Deleted(ContentKey(blobId)), Deleted(AttributeKey(blobId))]
        && deltas == old(deltas) + DeletionOf(SizeForDeletion(old(client.objects), AttributeKey(blobId))))
      ensures r.Err? ==> (r.failure == BlobStoreException(Some(blobId)) && deltas == old(deltas)
        && client.objects == if ContentKey(blobId) in old(client.objects) then old(client.objects) - {ContentKey(blobId)}
           else old(client.objects))
    {
      Invalidate(blobId);
      var size, removed := DeleteKeys(blobId);
      if removed.Err? {
        r := Err(BlobStoreException(Some(blobId)));
      } else {
        deltas := deltas + DeletionOf(size);
        r := Ok(true);
      }
    }

    /**
     * The client's part of a hard delete: the stored size, then the deletes of
     * the content key and of the attribute key, the first failure ending it.
     */
    method DeleteKeys(blobId: string) returns (size: Option<int>, r: Result<()>)
      modifies client
      ensures size == SizeForDeletion(old(client.objects), AttributeKey(blobId))
      ensures r.Ok? <==> ContentKey(blobId) in old(client.objects) && AttributeKey(blobId) in old(client.objects)
      ensures r.Ok? ==> (client.objects == old(client.objects) - {ContentKey(blobId), AttributeKey(blobId)}
        && client.log == old(client.log) + [Deleted(ContentKey(blobId)), Deleted(AttributeKey(blobId))])
      ensures r.Err? ==> client.objects == if ContentKey(blobId) in old(client.objects) then old(client.objects) - {ContentKey(blobId)}
        else old(client.objects)
    {
      ContentNeverAttribute(location(blobId), location(blobId));
      var attrs := new AzureBlobAttributes(client, AttributeKey(blobId));
      size := GetContentSizeForDeletion(attrs);
      r := client.Delete(ContentKey(blobId));
      if r.Ok? {
        r := client.Delete(AttributeKey(blobId));
      }
    }

    /** `liveBlobs.invalidate`: drops the handle cached for `blobId`. */
    method Invalidate(blobId: string)
      requires Valid()
      modifies this
      ensures Valid() && liveBlobs == old(liveBlobs) - {blobId}
      ensures started == old(started) && deltas == old(deltas)
    {
      liveBlobs := liveBlobs - {blobId};
    }

    /** Whether a handle that is not stale is cached for `id`. */
    predicate CachedFresh(id: string)
      reads this`liveBlobs, liveBlobs.Values
    {
      id in liveBlobs && !liveBlobs[id].stale
    }

    /** `getBlobId`: the assigned id, or without one the id the headers resolve to. */
    function BlobIdFor(headers: map<string, string>, assignedId: Option<string>): string
    {
      if assignedId.Some? then assignedId.value else fromHeaders(headers)
    }

    /**
     * `doCreate`: the private `create` with an upload of `data`, under the
     * assignedId id or the id the headers resolve to. The blob's content key then
     * holds the data, and its attribute key the headers with the data's digest
     * and length, created at `now`. A data stream that fails to read fails the
     * create unchecked with nothing written; one that fails to close after the
     * write starts the clean-up.
     */
    method DoCreate(data: seq<byte>, fault: UploadFault, headers: map<string, string>, assignedId: Option<string>, now: int)
      returns (r: Result<AzureBlob>)
      requires started && Valid() && InLongRange(now) && |data| <= LONG_MAX
      modifies this, client, HandleOf(BlobIdFor(headers, assignedId))
      ensures Valid() && started
      ensures r.Ok? <==> !RefusedExisting(headers, old(client.objects), AttributeKey(BlobIdFor(headers, assignedId))) && fault == Reads
      ensures r.Ok? ==> (r.value.id == BlobIdFor(headers, assignedId)
        && ContentKey(r.value.id) in client.objects && client.objects[ContentKey(r.value.id)] == data
        && AttributesAt(client.objects, AttributeKey(r.value.id))
           == Ok(Some(Attributes(headers, BlobMetrics(now, sha1(data), |data|), false, None)))
        && deltas == old(deltas) + OverwriteDeletion(headers, old(client.objects), AttributeKey(r.value.id)) + [Addition(|data|)])
      ensures r.Err? ==> deltas == old(deltas)
      ensures fault == ReadFails && !RefusedExisting(headers, old(client.objects), AttributeKey(BlobIdFor(headers, assignedId))) ==>
        (r == Err(RuntimeException) && client.objects == old(client.objects) && client.log == old(client.log))
      ensures fault == CloseFails && !RefusedExisting(headers, old(client.objects), AttributeKey(BlobIdFor(headers, assignedId))) ==>
        (r.Err? && CleanedUp(old(client.objects)[ContentKey(BlobIdFor(headers, assignedId)) := data], client.objects, r.failure,
           AttributeKey(BlobIdFor(headers, assignedId)), ContentKey(BlobIdFor(headers, assignedId)), BlobIdFor(headers, assignedId)))
    {
      var blobId := BlobIdFor(headers, assignedId);
      ContentNeverAttribute(location(blobId), location(blobId));
      r := Create(headers, Upload(data, fault), blobId, now);
      if r.Ok? {
        assert HandleValid(blobId, liveBlobs[blobId]);
      }
    }

    /**
     * `copy`: the source blob as `get` gives it, which must be there, then a
     * create under the id the headers resolve to from a server-side copy of the
     * source's content, taking over the source's digest and size. `source` is
     * the metrics of the source blob: those of its fresh cached handle, or
     * those reloaded for it.
     */
    method Copy(blobId: string, headers: map<string, string>, now: int) returns (r: Result<AzureBlob>, ghost source: BlobMetrics)
      requires started && Valid() && InLongRange(now)
      modifies this, client, HandleOf(blobId), HandleOf(fromHeaders(headers))
      ensures Valid() && started
      ensures !old(CachedFresh(blobId)) && NoneFound(AttributesAt(old(client.objects), "")) ==>
        (r == Err(NullPointer) && client.objects == old(client.objects) && client.log == old(client.log))
      ensures r.Ok? ==> ((old(CachedFresh(blobId)) && old(liveBlobs[blobId].metrics) == Some(source))
        || LiveWith(AttributesAt(old(client.objects), ""), source))
      ensures r.Ok? ==> (r.value.id == fromHeaders(headers)
        && ContentKey(blobId) in old(client.objects) && ContentKey(r.value.id) in client.objects
        && client.objects[ContentKey(r.value.id)] == old(client.objects)[ContentKey(blobId)]
        && AttributesAt(client.objects, AttributeKey(r.value.id))
           == Ok(Some(Attributes(headers, BlobMetrics(now, source.sha1, source.contentSize), false, None)))
        && deltas == old(deltas) + OverwriteDeletion(headers, old(client.objects), AttributeKey(r.value.id))
          + [Addition(source.contentSize)])
      ensures r.Err? ==> deltas == old(deltas)
    {
      var blob;
      blob, source := SourceBlob(blobId);
      if blob.Err? {
        return Err(blob.failure), source;
      }
      r := CopyTo(blob.value, source, headers, now);
    }

    /**
     * `checkNotNull(get(blobId))`: the source blob of a copy, with its metrics
     * `source`; no blob is a null-pointer failure.
     */
    method SourceBlob(blobId: string) returns (r: Result<AzureBlob>, ghost source: BlobMetrics)
      requires Valid()
      modifies this, HandleOf(blobId)
      ensures Valid() && started == old(started) && deltas == old(deltas)
      ensures blobId in liveBlobs && liveBlobs == old(liveBlobs)[blobId := liveBlobs[blobId]]
      ensures fresh(liveBlobs[blobId]) || (blobId in old(liveBlobs) && liveBlobs[blobId] == old(liveBlobs[blobId]))
      ensures !old(CachedFresh(blobId)) && NoneFound(AttributesAt(client.objects, "")) ==> r == Err(NullPointer)
      ensures r.Ok? ==> (r.value == liveBlobs[blobId] && r.value.id == blobId && r.value.metrics == Some(source)
        && ValidMetrics(source)
        && ((old(CachedFresh(blobId)) && old(liveBlobs[blobId].metrics) == Some(source))
            || LiveWith(AttributesAt(client.objects, ""), source)))
    {
      source := BlobMetrics(0, "", 0);
      var found := Get(blobId, false);
      if found.Err? {
        return Err(found.failure), source;
      }
      if found.value.None? {
        return Err(NullPointer), source;
      }
      var blob := found.value.value;
      assert HandleValid(blobId, blob) && !blob.stale by {
        assert liveBlobs[blobId] == blob;
      }
      source := blob.metrics.value;
      r := Ok(blob);
    }

    /**
     * The create of a copy: under the id the headers resolve to, from a
     * server-side copy of the source blob's content, with its metrics `source`.
     */
    method CopyTo(blob: AzureBlob, ghost source: BlobMetrics, headers: map<string, string>, now: int) returns (r: Result<AzureBlob>)
      requires started && Valid() && InLongRange(now)
      requires blob.metrics == Some(source) && ValidMetrics(source)
      modifies this, client, HandleOf(fromHeaders(headers))
      ensures Valid() && started
      ensures r.Ok? ==> (r.value.id == fromHeaders(headers)
        && ContentKey(blob.id) in old(client.objects) && ContentKey(r.value.id) in client.objects
        && client.objects[ContentKey(r.value.id)] == old(client.objects)[ContentKey(blob.id)]
        && AttributesAt(client.objects, AttributeKey(r.value.id))
           == Ok(Some(Attributes(headers, BlobMetrics(now, source.sha1, source.contentSize), false, None)))
        && deltas == old(deltas) + OverwriteDeletion(headers, old(client.objects), AttributeKey(r.value.id))
          + [Addition(source.contentSize)])
      ensures r.Err? ==> deltas == old(deltas)
    {
      var id := fromHeaders(headers);
      ContentNeverAttribute(location(id), location(id));
      r := Create(headers, CopyFrom(ContentKey(blob.id), blob.metrics.value), id, now);
      if r.Ok? {
        assert HandleValid(id, liveBlobs[id]);
      }
    }

    /**
     * `getBlobAttributes(blobId)`: the attributes loaded from the blob's
     * attribute key, or nothing when that key holds no object. Only an I/O
     * error is turned into nothing, so bytes there that do not read as
     * attributes are refused.
     */
    method GetBlobAttributes(blobId: string) returns (r: Result<Option<AzureBlobAttributes>>)
      requires started
      ensures match AttributesAt(client.objects, AttributeKey(blobId))
        case Err(f) => r == Err(f)
        case Ok(None) => r == Ok(None)
        case Ok(Some(a)) => (r.Ok? && r.value.Some? && r.value.value.Holds(a)
          && fresh(r.value.value) && fresh(r.value.value.file)
          && r.value.value.file.client == client && r.value.value.file.key == AttributeKey(blobId)
          && r.value.value.headers == HeadersOf(r.value.value.file.props))
    {
      var attrs, loaded := LoadAttributes(AttributeKey(blobId));
      if loaded.Err? {
        return Err(loaded.failure);
      }
      r := if loaded.value then Ok(Some(attrs)) else Ok(None);
    }

    /**
     * `getBlobAttributes(location)`: the attributes loaded from the key of the
     * location, whether or not anything was there to load.
     */
    method GetBlobAttributesAt(key: string) returns (r: Result<AzureBlobAttributes>)
      ensures match AttributesAt(client.objects, key)
        case Err(f) => r == Err(f)
        case Ok(None) => r.Ok? && fresh(r.value) && r.value.metrics.None? && r.value.headers == map[] && r.value.file.key == key
        case Ok(Some(a)) => r.Ok? && fresh(r.value) && r.value.Holds(a) && r.value.file.key == key
    {
      var attrs, loaded := LoadAttributes(key);
      if loaded.Err? {
        return Err(loaded.failure);
      }
      r := Ok(attrs);
    }

    /**
     * `setBlobAttributes`: when attributes load from the blob's attribute key,
     * takes over the given ones and stores them back there; when nothing is
     * there it does nothing.
     */
    method SetBlobAttributes(blobId: string, given: Attributes) returns (r: Result<()>)
      requires started && ValidMetrics(given.metrics)
      modifies client
      ensures match AttributesAt(old(client.objects), AttributeKey(blobId))
        case Err(f) => r == Err(f) && client.objects == old(client.objects) && client.log == old(client.log)
        case Ok(None) => r == Ok(()) && client.objects == old(client.objects) && client.log == old(client.log)
        case Ok(Some(a)) => (r == Ok(()) && AttributeKey(blobId) in client.objects
          && client.objects == old(client.objects)[AttributeKey(blobId) := client.objects[AttributeKey(blobId)]]
          && AttributesAt(client.objects, AttributeKey(blobId)) == Ok(Some(Updated(a, given)))
          && client.log == old(client.log) + [Written(AttributeKey(blobId))])
    {
      ghost var found := AttributesAt(client.objects, AttributeKey(blobId));
      var existing := GetBlobAttributes(blobId);
      if existing.Err? {
        return Err(existing.failure);
      }
      if existing.value.None? {
        return Ok(());
      }
      var attrs := existing.value.value;
      ghost var a := found.value.value;
      attrs.UpdateFrom(given);
      assert HeadersOf(attrs.file.props) + attrs.headers == Updated(a, given).headers;
      var _ := attrs.Store();
      r := Ok(());
    }

    /**
     * `undelete`: answers `false`, changing nothing, unless the decision
     * approves; otherwise answers `true`, and outside a dry run first stores
     * the attributes back not deleted and without a reason.
     */
    method Undelete(checker: Option<(string, string) -> bool>, blobId: string, attributes: AzureBlobAttributes, isDryRun: bool)
      returns (r: Result<bool>)
      requires started
      modifies attributes, attributes.file, attributes.file.client
      ensures var approved := UndeleteApproved(old(attributes.file.props), old(attributes.deleted), checker, blobId);
        !approved || isDryRun ==> (r == Ok(approved)
          && attributes.deleted == old(attributes.deleted) && attributes.deletedReason == old(attributes.deletedReason)
          && attributes.file.client.objects == old(attributes.file.client.objects)
          && attributes.file.client.log == old(attributes.file.client.log))
      ensures UndeleteApproved(old(attributes.file.props), old(attributes.deleted), checker, blobId) && !isDryRun ==>
        Undeleted(attributes, old(attributes.file.props), old(attributes.headers), old(attributes.metrics),
          old(attributes.file.client.objects), old(attributes.file.client.log), r)
    {
      if !UndeleteApproved(attributes.file.props, attributes.deleted, checker, blobId) {
        return Ok(false);
      }
      if isDryRun {
        return Ok(true);
      }
      r := StoreUndeleted(attributes);
    }

    /**
     * `setDeleted(false)`, `setDeletedReason(null)` and `store()`: the
     * attributes stored back not deleted and without a reason, answering `true`.
     */
    method StoreUndeleted(attributes: AzureBlobAttributes) returns (r: Result<bool>)
      modifies attributes, attributes.file, attributes.file.client
      ensures Undeleted(attributes, old(attributes.file.props), old(attributes.headers), old(attributes.metrics),
        old(attributes.file.client.objects), old(attributes.file.client.log), r)
    {
      var file := attributes.file;
      var client := file.client;
      attributes.deleted := false;
      attributes.deletedReason := None;
      var stored := attributes.Store();
      if stored.Err? {
        return Err(stored.failure);
      }
      assert file.key in client.objects && client.objects == old(client.objects)[file.key := client.objects[file.key]];
      r := Ok(true);
    }

    /**
     * `getBlobIdStream`: the ids of the attribute keys under the content
     * prefix. A key outside the direct-path root names its blob by its file
     * name; one inside it is resolved through the attributes loaded from it
     * (`getBlobAttributes(location)`), and when those do not load the
     * listing fails.
     */
    method GetBlobIdStream() returns (r: Result<seq<string>>)
      requires started
      ensures r.Err? <==> exists k :: k in client.objects && StartsWith(k, ContentPrefix) && Unresolved(client.objects, k, fromHeaders)
      ensures r.Err? ==> r.failure == NullPointer
      ensures r.Ok? ==> forall id :: id in r.value <==> ListedAttributeKey(client.objects, fromHeaders, id)
    {
      var names := client.ListNames(ContentPrefix);
      var ids: seq<string> := [];
      var i := 0;
      while i < |names|
        invariant 0 <= i <= |names|
        invariant AttributeIds(client.objects, names[..i], fromHeaders) == Ok(ids)
      {
        var key := names[i];
        assert names[..i + 1][..i] == names[..i];
        if EndsWith(key, BlobAttributeSuffix) {
          var id;
          if ResolvedByHeaders(key) {
            var attrs := GetBlobAttributesAt(key);
            if attrs.Err? {
              assert Unresolved(client.objects, key, fromHeaders);
              return Err(NullPointer);
            }
            id := fromHeaders(attrs.value.headers);
          } else {
            id := BlobIdOfAttributeKey(key);
          }
          ids := ids + [id];
        }
        i := i + 1;
      }
      assert names[..i] == names;
      AttributeIdsMembership(client.objects, names, fromHeaders);
      r := Ok(ids);
    }

    /**
     * `getDirectPathBlobIdStream`: the ids of the direct-path blobs, from the
     * attribute keys listed under the direct-path prefix; the prefix asked for
     * is not used. A listed attribute key that is not under the direct-path
     * root and a slash is refused, failing the listing.
     */
    method GetDirectPathBlobIdStream(prefix: string) returns (r: Result<seq<string>>)
      requires started
      ensures r.Err? <==> exists k :: k in client.objects && StartsWith(k, DirectPathPrefix) && Misplaced(k)
      ensures r.Err? ==> r.failure == IllegalArgument
      ensures r.Ok? ==> forall name :: DirectPathAttributeKey(name) in client.objects ==>
        fromHeaders(DirectPathHeaders(name)) in r.value
      ensures r.Ok? ==> forall id :: id in r.value ==>
        exists name :: DirectPathAttributeKey(name) in client.objects && id == fromHeaders(DirectPathHeaders(name))
    {
      var names := client.ListNames(DirectPathPrefix);
      r := DirectPathIds(names, fromHeaders);
      DirectPathIdsSpec(names, fromHeaders);
      forall name | DirectPathAttributeKey(name) in client.objects
        ensures DirectPathAttributeKey(name) in names
      {
        DirectPathKeyShape(name);
      }
    }

    /** `compact`: does nothing, to the store or to what was reported to its metrics. */
    method Compact()
      requires started
      ensures client.objects == old(client.objects) && client.log == old(client.log) && deltas == old(deltas)
    {
    }

    /** `create` from a path with a size and digest: hard links are not supported, so it always fails. */
    method CreateHardLink(path: string, headers: map<string, string>, size: int, hash: string) returns (r: Result<AzureBlob>)
      requires started
      ensures r == Err(BlobStoreException(None))
    {
      r := Err(BlobStoreException(None));
    }
  }
}
