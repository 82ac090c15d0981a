# Azure Cloud Storage blob store for Nexus Repository, modelled in Dafny

This project models the core of the Azure Cloud Storage blob store plug-in for
Sonatype Nexus Repository and proves properties of that model. A Nexus blob
store keeps each blob as two objects in one Azure container:

- the bytes, at `content/<location>.bytes`;
- the attributes, at `content/<location>.properties`: the headers, the SHA-1,
  size and creation time, and a soft-deletion mark with its reason.

The store's type tag `type=azure/1` sits at `metadata.properties`.

The container is modelled as an abstract object store (`ObjectStore.Container`):

- a map from key to bytes;
- the blocks staged per key;
- a flag saying whether the container exists;
- a log of the calls made on it.

Three clients write to it:

- `AzureClientImpl`, which fills a reused buffer and stages only full blocks;
- `SyncAzureClient`, which stages a block per `available()` round;
- `ReactiveAzureClient`, which stages one chunk at a time and pages through listings.

Each of them turns a byte stream into a list of staged blocks and one commit. Block ids are
the base64 (RFC 4648, section 4) encoding of the 16 bytes of a UUID.

The engine, `AzureBlobStore`, does the following:

- it checks the type tag at start;
- it caches blob handles by id, each with a stale flag, the cached headers and metrics, and a lock;
- it creates, copies, reads, soft- and hard-deletes, lists and undeletes blobs;
- it reports every addition and deletion to the metrics store (kept as a log of `Delta`s).

The model also covers the smaller helpers around the engine:

- the properties file bound to one key;
- the node-scoped metrics store;
- the deleted-blob index as a set of id strings;
- the 4 MiB chunk iterator;
- the factory's choice of client.

Modules follow the source files: `KeyLayout`, `Listing` and `BlobStore` for
`AzureBlobStore.java`; `ClientImpl`, `SyncClient` and `ReactiveClient` for
the three clients; `PropertiesFile`, `MetricsStore`, `DeletedBlobIndex`,
`ChunkIterator` and `ClientFactory` for the helpers. These support modules model behaviour the core
relies on:

- `ObjectStore`: the container;
- `Streams`: an `InputStream` with short reads, an I/O failure point and an estimating `available()`;
- `Base64` and `BlockIds`: block ids;
- `PropertiesCodec`: the byte form of a property map;
- `BlobAttributes`: a blob's attributes in property form;
- `Util`: sequences, chunking and filtering.

Every state-changing operation is a method on a class whose fields are what
the source mutates, and states its whole new state. Pure logic is a function
with a lemma that connects it to a partner: an inverse, a membership
characterisation or a reference definition.

## Model

All source paths below are under `src/main/java/org/sonatype/nexus/blobstore/azure/internal/`, written out in full.

| member | source | states |
|---|---|---|
| KeyLayout.Location | src/main/java/org/sonatype/nexus/blobstore/azure/internal/AzureBlobStore.java:558-560 | the location key is `content/` followed by exactly the resolver's location |
| KeyLayout.ContentPath | src/main/java/org/sonatype/nexus/blobstore/azure/internal/AzureBlobStore.java:544-546 | the content key starts with `content/`, ends with `.bytes`, and the location is exactly what lies between |
| KeyLayout.AttributePath | src/main/java/org/sonatype/nexus/blobstore/azure/internal/AzureBlobStore.java:551-553 | the attribute key starts with `content/`, ends with `.properties`, and the location is exactly what lies between |
| KeyLayout.KeysDifferOnlyInSuffix | src/main/java/org/sonatype/nexus/blobstore/azure/internal/AzureBlobStore.java:544-553 | both keys of a blob are its location key plus a suffix, and they are never equal |
| KeyLayout.ContentNeverAttribute | src/main/java/org/sonatype/nexus/blobstore/azure/internal/AzureBlobStore.java:544-553 | no blob's content key is any blob's attribute key |
| KeyLayout.KeysInjective | src/main/java/org/sonatype/nexus/blobstore/azure/internal/AzureBlobStore.java:544-553 | distinct locations give distinct content keys and distinct attribute keys |
| KeyLayout.BlobKeysAvoidMetadata | src/main/java/org/sonatype/nexus/blobstore/azure/internal/AzureBlobStore.java:86-92 | no blob key is the metadata key `metadata.properties` or the empty key |
| KeyLayout.DirectPathHeaders | src/main/java/org/sonatype/nexus/blobstore/azure/internal/AzureBlobStore.java:573-576 | the headers hold exactly the blob-name header with the name and the direct-path header with `true` |
| KeyLayout.DirectPathAttributeKey | src/main/java/org/sonatype/nexus/blobstore/azure/internal/AzureBlobStore.java:94 | the attribute key of a direct-path blob is the attribute key of the location `directpath/<name>` |
| KeyLayout.AttributePathToDirectPathBlobId | src/main/java/org/sonatype/nexus/blobstore/azure/internal/AzureBlobStore.java:567-578 | succeeds exactly when the key starts with the direct-path prefix and a slash and ends with `.properties`, else fails with an illegal argument; on success the headers are the direct-path headers of a name whose attribute key is the key given |
| KeyLayout.DirectPathRoundTrip | src/main/java/org/sonatype/nexus/blobstore/azure/internal/AzureBlobStore.java:567-578 | decoding the attribute key of a direct-path name gives back that name's headers |
| KeyLayout.FileName | src/main/java/org/sonatype/nexus/blobstore/azure/internal/AzureBlobStore.java:607-609 | the file name is a slash-free suffix of the key, preceded by a slash unless it is the whole key |
| KeyLayout.FileNameKeepsSuffix | src/main/java/org/sonatype/nexus/blobstore/azure/internal/AzureBlobStore.java:607-609 | a slash-free suffix of the key is also a suffix of its file name |
| KeyLayout.BlobIdOfAttributeKey | src/main/java/org/sonatype/nexus/blobstore/azure/internal/AzureBlobStore.java:414-419 | the id taken from an attribute key, followed by `.properties`, is the key's file name, and it has no slash |
| KeyLayout.BlobIdOfAttributePath | src/main/java/org/sonatype/nexus/blobstore/azure/internal/AzureBlobStore.java:414-419 | the id taken from the attribute key of `<dir>/<id>` is `id` again |
| Listing.IdOfAttributeKey | src/main/java/org/sonatype/nexus/blobstore/azure/internal/AzureBlobStore.java:386-390 | an attribute key's id fails to resolve, as a null id, exactly when the key lies inside the direct-path root and the attributes stored there do not load |
| Listing.AttributeIds | src/main/java/org/sonatype/nexus/blobstore/azure/internal/AzureBlobStore.java:414-420 | lists no more ids than there are keys; a failed listing fails as a null id |
| Listing.AttributeIdsMembership | src/main/java/org/sonatype/nexus/blobstore/azure/internal/AzureBlobStore.java:414-420 | the listing fails exactly when some listed attribute key cannot be resolved; otherwise an id is listed exactly when some listed attribute key resolves to it |
| Listing.DirectPathListedByHeaders | src/main/java/org/sonatype/nexus/blobstore/azure/internal/AzureBlobStore.java:386-390 | a direct-path blob's attribute key lies inside the direct-path root, so it is listed under the id its stored headers resolve to, not under its file name |
| Listing.DirectPathIds | src/main/java/org/sonatype/nexus/blobstore/azure/internal/AzureBlobStore.java:430-434 | a failed listing fails with an illegal argument |
| Listing.DirectPathIdsSpec | src/main/java/org/sonatype/nexus/blobstore/azure/internal/AzureBlobStore.java:430-434 | the listing fails exactly when some attribute key lies outside the direct-path root; otherwise it holds the id of every direct-path blob among the keys and nothing else |
| BlobStore.DirectPathMarked | src/main/java/org/sonatype/nexus/blobstore/azure/internal/AzureBlobStore.java:181 | direct-path headers mark a direct-path blob, and headers without the header are read as `false` |
| BlobStore.SizeForDeletion | src/main/java/org/sonatype/nexus/blobstore/azure/internal/AzureBlobStore.java:222-231 | a size is found only at a key that holds something and it is a long; attributes that load always give one |
| BlobStore.OverwriteDeletion | src/main/java/org/sonatype/nexus/blobstore/azure/internal/AzureBlobStore.java:182-188 | at most one deletion is reported before a create, and only for a direct-path blob whose attribute key exists |
| BlobStore.DeletionOf | src/main/java/org/sonatype/nexus/blobstore/azure/internal/AzureBlobStore.java:348-350 | a deletion is reported exactly when the old size was found |
| BlobStore.IngestedMetrics | src/main/java/org/sonatype/nexus/blobstore/azure/internal/AzureBlobStore.java:196-197 | the metrics carry the creation time given and are long-valued whenever the input is |
| BlobStore.SecondSoftDeleteRefused | src/main/java/org/sonatype/nexus/blobstore/azure/internal/AzureBlobStore.java:299-324 | after a soft delete that answered `true`, a second soft delete of the same blob answers `false` and writes nothing |
| BlobStore.Updated | src/main/java/org/sonatype/nexus/blobstore/azure/internal/AzureBlobStore.java:455-460 | the updated attributes take the given metrics and deletion, and the given headers over the stored ones |
| BlobStore.UndeleteApproved | src/main/java/org/sonatype/nexus/blobstore/azure/internal/AzureBlobStore.java:494-503 | undelete is approved only when the blob-name property is present, the attributes are deleted, and a checker is given that approves the blob with that name |
| BlobStore.AzureBlob.constructor | src/main/java/org/sonatype/nexus/blobstore/azure/internal/AzureBlobStore.java:583-585 | a new handle is stale, unlocked and holds no headers or metrics |
| BlobStore.AzureBlob.Lock | src/main/java/org/sonatype/nexus/blobstore/azure/internal/AzureBlobStore.java:192 | takes the handle's lock and changes nothing else |
| BlobStore.AzureBlob.Unlock | src/main/java/org/sonatype/nexus/blobstore/azure/internal/AzureBlobStore.java:217 | releases the handle's lock and changes nothing else |
| BlobStore.AzureBlob.Refresh | src/main/java/org/sonatype/nexus/blobstore/azure/internal/AzureBlobStore.java:198 | the handle holds the given headers and metrics and is no longer stale |
| BlobStore.AzureBlob.MarkStale | src/main/java/org/sonatype/nexus/blobstore/azure/internal/AzureBlobStore.java:322 | the handle is stale and its cached attributes are kept |
| BlobStore.AzureBlob.GetInputStream | src/main/java/org/sonatype/nexus/blobstore/azure/internal/AzureBlobStore.java:588-595 | gives the bytes at the blob's content key, and fails when nothing is there |
| BlobStore.AzureBlobStore.constructor | src/main/java/org/sonatype/nexus/blobstore/azure/internal/AzureBlobStore.java:113-123 | a new store is not started, caches nothing and has reported nothing |
| BlobStore.AzureBlobStore.CachedHandle | src/main/java/org/sonatype/nexus/blobstore/azure/internal/AzureBlobStore.java:140 | the cache's handle for an id is the one cached before or a new stale one, and the cache keeps it under that id |
| BlobStore.AzureBlobStore.DoStart | src/main/java/org/sonatype/nexus/blobstore/azure/internal/AzureBlobStore.java:126-144 | start succeeds exactly when the metadata is absent or records `type=azure/1`; when absent it writes that tag; when present it writes nothing; on success the cache is empty and the metrics store has the client |
| BlobStore.AzureBlobStore.DoStop | src/main/java/org/sonatype/nexus/blobstore/azure/internal/AzureBlobStore.java:148-151 | the cache is dropped and the metrics store loses its client |
| BlobStore.AzureBlobStore.LoadAttributes | src/main/java/org/sonatype/nexus/blobstore/azure/internal/AzureBlobStore.java:476-478 | loading answers `false` when nothing is at the key and `true` with the stored attributes otherwise; it fails on bytes that do not read as attributes |
| BlobStore.AzureBlobStore.Exists | src/main/java/org/sonatype/nexus/blobstore/azure/internal/AzureBlobStore.java:474-483 | a blob exists exactly when attributes are stored at its attribute key |
| BlobStore.AzureBlobStore.GetContentSizeForDeletion | src/main/java/org/sonatype/nexus/blobstore/azure/internal/AzureBlobStore.java:222-231 | the size is the stored content size when the attributes load, and nothing otherwise |
| BlobStore.AzureBlobStore.ExistingSizeForOverwrite | src/main/java/org/sonatype/nexus/blobstore/azure/internal/AzureBlobStore.java:181-188 | for a direct-path blob that exists, the old size is found for a deletion report; nothing is reported otherwise |
| BlobStore.AzureBlobStore.IngestTo | src/main/java/org/sonatype/nexus/blobstore/azure/internal/AzureBlobStore.java:164-170 | the ingester writes the uploaded or copied bytes at the content key and measures them. A failed read or a missing source fails unchecked and writes nothing. A data stream that fails to close fails with an I/O error after the data is written |
| BlobStore.AzureBlobStore.CleanUpAfterFailure | src/main/java/org/sonatype/nexus/blobstore/azure/internal/AzureBlobStore.java:210-215 | deletes the attribute key, then the content key, and fails naming the blob; a key that is already missing ends the clean-up with an unchecked failure |
| BlobStore.AzureBlobStore.StoreNewAttributes | src/main/java/org/sonatype/nexus/blobstore/azure/internal/AzureBlobStore.java:200-202 | after one write the attribute key holds exactly the headers and metrics given, not deleted |
| BlobStore.AzureBlobStore.WriteLocked | src/main/java/org/sonatype/nexus/blobstore/azure/internal/AzureBlobStore.java:192-218 | under the lock the blob's bytes and attributes are written and the handle is refreshed. Only the ingester's I/O error, from closing the data, is cleaned up, over the content already written; any other failure leaves the store as it was. The lock is released on every path |
| BlobStore.AzureBlobStore.WriteHandle | src/main/java/org/sonatype/nexus/blobstore/azure/internal/AzureBlobStore.java:190-218 | the cached handle for the id is written through and keeps its place in the cache |
| BlobStore.AzureBlobStore.Create | src/main/java/org/sonatype/nexus/blobstore/azure/internal/AzureBlobStore.java:173-219 | succeeds exactly when the input can be ingested. On success the handle is fresh with the headers and metrics and both keys hold the new blob. The reports are the deletion of a direct-path blob's old size and then the addition. Only a failure to close the data is cleaned up; an unchecked read failure changes nothing. No failure reports anything |
| BlobStore.AzureBlobStore.DoCreate | src/main/java/org/sonatype/nexus/blobstore/azure/internal/AzureBlobStore.java:160-171 | creating from an upload stores the data and attributes holding the data's digest and length, and reports its length as added. A read failure fails unchecked with nothing written; a failure to close the data cleans up after the write |
| BlobStore.AzureBlobStore.Get | src/main/java/org/sonatype/nexus/blobstore/azure/internal/AzureBlobStore.java:254-289 | a cached handle that is not stale is returned as it is; otherwise the handle is reloaded from the attributes at the empty key. It answers nothing when none are there, or when they are deleted and deleted blobs are not asked for |
| BlobStore.AzureBlobStore.ReloadLocked | src/main/java/org/sonatype/nexus/blobstore/azure/internal/AzureBlobStore.java:259-284 | the locked reload of a stale handle refreshes it from the attributes at the empty key, or leaves it stale when there are none to use; the lock is released |
| BlobStore.AzureBlobStore.DoDelete | src/main/java/org/sonatype/nexus/blobstore/azure/internal/AzureBlobStore.java:292-332 | soft delete answers `false` and writes nothing when no attributes are there or they are already deleted. Otherwise it stores them once, marked deleted with the reason, answers `true` and leaves the handle stale. It never reports to the metrics store |
| BlobStore.AzureBlobStore.DeleteLocked | src/main/java/org/sonatype/nexus/blobstore/azure/internal/AzureBlobStore.java:295-331 | the locked soft delete has the outcome above, marks the handle stale exactly when it answers `true`, and releases the lock |
| BlobStore.AzureBlobStore.MarkDeleted | src/main/java/org/sonatype/nexus/blobstore/azure/internal/AzureBlobStore.java:299-315 | loading and re-storing the attributes marked deleted has the soft-delete outcome |
| BlobStore.AzureBlobStore.StoreDeleted | src/main/java/org/sonatype/nexus/blobstore/azure/internal/AzureBlobStore.java:313-315 | the stored attributes are the loaded ones marked deleted with the reason, written once, and no other key changes |
| BlobStore.AzureBlobStore.DoDeleteHard | src/main/java/org/sonatype/nexus/blobstore/azure/internal/AzureBlobStore.java:335-360 | when both keys exist it deletes the content key, then the attribute key, and answers `true`. It reports a deletion only of a size that loaded. A failure names the blob and reports nothing. The cache entry is dropped on every path |
| BlobStore.AzureBlobStore.DeleteKeys | src/main/java/org/sonatype/nexus/blobstore/azure/internal/AzureBlobStore.java:339-346 | the size is read before the content key and then the attribute key are deleted |
| BlobStore.AzureBlobStore.Invalidate | src/main/java/org/sonatype/nexus/blobstore/azure/internal/AzureBlobStore.java:358 | the id's cache entry is dropped and nothing else changes |
| BlobStore.AzureBlobStore.Copy | src/main/java/org/sonatype/nexus/blobstore/azure/internal/AzureBlobStore.java:235-243 | a missing source fails with a null pointer. A copy stores the source's bytes under the new id, with attributes carrying the source's digest and size, and reports that size as added |
| BlobStore.AzureBlobStore.SourceBlob | src/main/java/org/sonatype/nexus/blobstore/azure/internal/AzureBlobStore.java:236 | the source is the handle `get` gives, with long metrics from the cache or from the attributes loaded |
| BlobStore.AzureBlobStore.CopyTo | src/main/java/org/sonatype/nexus/blobstore/azure/internal/AzureBlobStore.java:237-242 | copying a source handle creates a blob with the source's content and its digest and size |
| BlobStore.AzureBlobStore.GetBlobAttributes | src/main/java/org/sonatype/nexus/blobstore/azure/internal/AzureBlobStore.java:442-451 | gives the attributes stored at the blob's attribute key, or nothing when none are there |
| BlobStore.AzureBlobStore.GetBlobAttributesAt | src/main/java/org/sonatype/nexus/blobstore/azure/internal/AzureBlobStore.java:386-390 | gives the attributes at the key, loaded, or empty with no headers when nothing is there; attributes that do not read are refused |
| BlobStore.AzureBlobStore.SetBlobAttributes | src/main/java/org/sonatype/nexus/blobstore/azure/internal/AzureBlobStore.java:455-466 | when attributes are stored at the key it stores the update of them by the given ones in one write; otherwise it writes nothing |
| BlobStore.AzureBlobStore.Undelete | src/main/java/org/sonatype/nexus/blobstore/azure/internal/AzureBlobStore.java:487-522 | answers whether undelete is approved. In a dry run, or when not approved, it changes nothing. Otherwise the attributes are stored not deleted, without a reason |
| BlobStore.AzureBlobStore.StoreUndeleted | src/main/java/org/sonatype/nexus/blobstore/azure/internal/AzureBlobStore.java:505-514 | clears the deletion mark and reason and stores the attributes in one write |
| BlobStore.AzureBlobStore.GetBlobIdStream | src/main/java/org/sonatype/nexus/blobstore/azure/internal/AzureBlobStore.java:414-420 | fails exactly when some attribute key under the content prefix cannot be resolved; otherwise lists exactly the ids those keys resolve to, by file name outside the direct-path root and by the stored headers inside it |
| BlobStore.AzureBlobStore.Compact | src/main/java/org/sonatype/nexus/blobstore/azure/internal/AzureBlobStore.java:368-378 | requires the store started and changes nothing: no object, no container call, no metrics report |
| BlobStore.AzureBlobStore.GetDirectPathBlobIdStream | src/main/java/org/sonatype/nexus/blobstore/azure/internal/AzureBlobStore.java:430-434 | fails exactly when a listed attribute key is outside the direct-path root; otherwise lists exactly the ids of the direct-path blobs |
| BlobStore.AzureBlobStore.CreateHardLink | src/main/java/org/sonatype/nexus/blobstore/azure/internal/AzureBlobStore.java:153-157 | always fails: hard links are not supported |
| BlobAttributes.Digits | src/main/java/org/sonatype/nexus/blobstore/azure/internal/AzureBlobStore.java:197 | a number's decimal form is non-empty and starts with a digit |
| BlobAttributes.ParseDigitsOf | src/main/java/org/sonatype/nexus/blobstore/azure/internal/AzureBlobStore.java:197 | parsing a number's decimal digits gives the number back |
| BlobAttributes.ParseLong | src/main/java/org/sonatype/nexus/blobstore/azure/internal/AzureBlobStore.java:197 | a parsed long lies in the 64-bit range |
| BlobAttributes.ParseLongToString | src/main/java/org/sonatype/nexus/blobstore/azure/internal/AzureBlobStore.java:197 | parsing the text of a long gives the long back |
| BlobAttributes.HeaderNames | src/main/java/org/sonatype/nexus/blobstore/azure/internal/AzureBlobStore.java:200 | a header is named exactly when its `@`-prefixed property is present |
| BlobAttributes.HeadersOf | src/main/java/org/sonatype/nexus/blobstore/azure/internal/AzureBlobStore.java:275 | the headers are exactly the `@`-prefixed properties, with the prefix removed |
| BlobAttributes.HeaderKeys | src/main/java/org/sonatype/nexus/blobstore/azure/internal/AzureBlobStore.java:200 | the header property keys are exactly `@` followed by a header name |
| BlobAttributes.HeaderEntries | src/main/java/org/sonatype/nexus/blobstore/azure/internal/AzureBlobStore.java:200 | each header is written under its `@`-prefixed key with its value, and nothing else is written |
| BlobAttributes.HeadersAfterEntries | src/main/java/org/sonatype/nexus/blobstore/azure/internal/AzureBlobStore.java:200 | writing header entries over a map gives its old headers overridden by the new ones |
| BlobAttributes.FixedFieldsWritten | src/main/java/org/sonatype/nexus/blobstore/azure/internal/AzureBlobStore.java:313-315 | writing attributes stores the digest, creation time, size, deletion mark and reason (the reason only when deleted) |
| BlobAttributes.DeletionWritten | src/main/java/org/sonatype/nexus/blobstore/azure/internal/AzureBlobStore.java:313-314 | the deletion mark is present exactly when deleted, the reason only then, and no other property changes |
| BlobAttributes.HeadersAfterWrite | src/main/java/org/sonatype/nexus/blobstore/azure/internal/AzureBlobStore.java:200-202 | writing attributes leaves the old headers, overridden by the new ones |
| BlobAttributes.ReadFrom | src/main/java/org/sonatype/nexus/blobstore/azure/internal/AzureBlobStore.java:301 | reading attributes from properties fails only with an illegal argument and gives the headers and long metrics |
| BlobAttributes.ReadAfterWrite | src/main/java/org/sonatype/nexus/blobstore/azure/internal/AzureBlobStore.java:200-202 | reading written attributes gives them back, with the old headers under the new and a reason only when deleted |
| BlobAttributes.ReadAfterWriteFresh | src/main/java/org/sonatype/nexus/blobstore/azure/internal/AzureBlobStore.java:200-202 | attributes written to an empty file read back exactly |
| BlobAttributes.AttributesAt | src/main/java/org/sonatype/nexus/blobstore/azure/internal/AzureBlobStore.java:476-478 | nothing is found exactly when the key holds nothing, and found attributes have long metrics |
| BlobAttributes.StoredAttributesAt | src/main/java/org/sonatype/nexus/blobstore/azure/internal/AzureBlobStore.java:200-202 | a key holding written attributes reads back as them |
| BlobAttributes.AzureBlobAttributes.constructor | src/main/java/org/sonatype/nexus/blobstore/azure/internal/AzureBlobStore.java:299 | new attributes for a key are empty: no headers, no metrics, not deleted |
| BlobAttributes.AzureBlobAttributes.WithMetrics | src/main/java/org/sonatype/nexus/blobstore/azure/internal/AzureBlobStore.java:200 | new attributes for a key hold the given headers and metrics, not deleted |
| BlobAttributes.AzureBlobAttributes.Load | src/main/java/org/sonatype/nexus/blobstore/azure/internal/AzureBlobStore.java:301 | answers `false` and changes nothing when the key holds nothing; otherwise takes over the stored attributes and answers `true`. It fails on bytes that do not read as attributes |
| BlobAttributes.AzureBlobAttributes.UpdateFrom | src/main/java/org/sonatype/nexus/blobstore/azure/internal/AzureBlobStore.java:459 | the attributes hold the given ones |
| BlobAttributes.AzureBlobAttributes.Store | src/main/java/org/sonatype/nexus/blobstore/azure/internal/AzureBlobStore.java:202 | without metrics it fails and writes nothing. Otherwise it writes the key once, and the key then reads back as the attributes held |
| BlobAttributes.AzureBlobAttributes.WriteAndStore | src/main/java/org/sonatype/nexus/blobstore/azure/internal/AzureBlobStore.java:202 | the file's map gets the attributes written into it and is stored at the key, which reads back as them |
| ClientImpl.CheckArguments | src/main/java/org/sonatype/nexus/blobstore/azure/internal/AzureClientImpl.java:52-57 | the arguments are accepted exactly when chunk size, copy timeout and list timeout are all positive, else an illegal argument |
| ClientImpl.AzureClientImpl.constructor | src/main/java/org/sonatype/nexus/blobstore/azure/internal/AzureClientImpl.java:45-58 | the client keeps the container, name, chunk size and timeouts it is given |
| ClientImpl.AzureClientImpl.Create | src/main/java/org/sonatype/nexus/blobstore/azure/internal/AzureClientImpl.java:61-86 | the staged blocks are the input cut into chunk-size pieces, all full but the last. The log is one stage per block, then one commit of the ids in order, also for an empty input. With distinct ids the key holds exactly the input. A read failure is a runtime failure with nothing written to the key |
| ClientImpl.AzureClientImpl.StageFullBlocks | src/main/java/org/sonatype/nexus/blobstore/azure/internal/AzureClientImpl.java:66-76 | the loop stages full blocks only; at the end of the input, the staged blocks followed by the `totalRead < chunkSize` buffered bytes are the input |
| ClientImpl.AzureClientImpl.ReadOnce | src/main/java/org/sonatype/nexus/blobstore/azure/internal/AzureClientImpl.java:70-75 | one read fills the buffer from `totalRead`; a full buffer is staged as a block and reused; the bytes read so far are the staged blocks followed by the buffered bytes |
| ClientImpl.AzureClientImpl.FillBuffer | src/main/java/org/sonatype/nexus/blobstore/azure/internal/AzureClientImpl.java:70-71 | a read into the rest of the buffer appends the next input bytes after those already buffered, or reports the end of the input |
| ClientImpl.AzureClientImpl.StageFullBuffer | src/main/java/org/sonatype/nexus/blobstore/azure/internal/AzureClientImpl.java:72-74 | a full buffer is staged as the next block |
| ClientImpl.AzureClientImpl.StageTail | src/main/java/org/sonatype/nexus/blobstore/azure/internal/AzureClientImpl.java:77-79 | the last, partial block is staged only when bytes are left over |
| ClientImpl.AzureClientImpl.StageLastAndCommit | src/main/java/org/sonatype/nexus/blobstore/azure/internal/AzureClientImpl.java:77-81 | after the tail and the commit, the blocks are the chunks of the input and the key holds the input |
| ClientImpl.AzureClientImpl.Commit | src/main/java/org/sonatype/nexus/blobstore/azure/internal/AzureClientImpl.java:81 | one commit of the ids in staging order; the key then holds the blocks concatenated |
| ClientImpl.AzureClientImpl.UploadBlock | src/main/java/org/sonatype/nexus/blobstore/azure/internal/AzureClientImpl.java:88-94 | stages `buffer[0..length)` under a fresh block id and returns that id |
| ClientImpl.AzureClientImpl.ListFiles | src/main/java/org/sonatype/nexus/blobstore/azure/internal/AzureClientImpl.java:146-149 | the filtered listing is the unfiltered listing filtered in order, and holds exactly the keys with the prefix that pass the filter |
| ClientImpl.AzureClientImpl.CreateContainer | src/main/java/org/sonatype/nexus/blobstore/azure/internal/AzureClientImpl.java:152-156 | afterwards the container exists; an existing container is left untouched |
| Util.ChunksSpec | src/main/java/org/sonatype/nexus/blobstore/azure/internal/AzureClientImpl.java:70-79 | the chunks of an input concatenate back to it. There are `ceil(S / chunkSize)` of them, none empty or over the chunk size, and all but the last full |
| Util.ChunksOfFullBlocks | src/main/java/org/sonatype/nexus/blobstore/azure/internal/AzureClientImpl.java:70-79 | full blocks followed by a short tail are chunked into exactly those blocks and the tail, when there is one |
| Util.FilterMembership | src/main/java/org/sonatype/nexus/blobstore/azure/internal/AzureClientImpl.java:146-149 | a name survives the filter exactly when it was listed and passes the predicate |
| Util.FilterConcat | src/main/java/org/sonatype/nexus/blobstore/azure/internal/AzureClientImpl.java:146-149 | filtering keeps order: filtering a concatenation concatenates the filtered parts |
| Base64.SextetRoundTrip | src/main/java/org/sonatype/nexus/blobstore/azure/internal/AzureClientImpl.java:101 | every 6-bit value has an alphabet character that is not padding and that decodes back to it |
| Base64.DecodeEncode | src/main/java/org/sonatype/nexus/blobstore/azure/internal/AzureClientImpl.java:101 | decoding the encoding of any bytes gives them back |
| Base64.EncodeInjective | src/main/java/org/sonatype/nexus/blobstore/azure/internal/AzureClientImpl.java:101 | different bytes have different encodings |
| Base64.EncodeLength | src/main/java/org/sonatype/nexus/blobstore/azure/internal/AzureClientImpl.java:101 | the encoding of n bytes has `4 * ceil(n / 3)` characters |
| Base64.EncodeAlphabet | src/main/java/org/sonatype/nexus/blobstore/azure/internal/AzureClientImpl.java:101 | all but the last two characters of an encoding are alphabet characters |
| BlockIds.LongRoundTrip | src/main/java/org/sonatype/nexus/blobstore/azure/internal/AzureClientImpl.java:98-100 | a long is put as 8 bytes from which it is read back |
| BlockIds.BlockIdShape | src/main/java/org/sonatype/nexus/blobstore/azure/internal/AzureClientImpl.java:96-102 | every block id is 22 alphabet characters followed by `==`, 24 characters in all |
| BlockIds.BlockIdTail | src/main/java/org/sonatype/nexus/blobstore/azure/internal/AzureClientImpl.java:101 | the encoding of 16 bytes has 24 characters and ends with `==` |
| BlockIds.BlockIdInjective | src/main/java/org/sonatype/nexus/blobstore/azure/internal/AzureClientImpl.java:96-102 | different UUIDs give different block ids |
| BlockIds.CreateBase64BlockId | src/main/java/org/sonatype/nexus/blobstore/azure/internal/AzureClientImpl.java:96-102 | the new id is the encoding of some UUID's two halves and has the block-id shape (the same code is in SyncAzureClient.java:65-71 and ReactiveAzureClient.java:80-86) |
| SyncClient.CheckChunkSize | src/main/java/org/sonatype/nexus/blobstore/azure/internal/SyncAzureClient.java:40 | the chunk size is accepted exactly when positive, else an illegal argument |
| SyncClient.SyncAzureClient.constructor | src/main/java/org/sonatype/nexus/blobstore/azure/internal/SyncAzureClient.java:37-42 | the client keeps the container, chunk size and name it is given |
| SyncClient.SyncAzureClient.Create | src/main/java/org/sonatype/nexus/blobstore/azure/internal/SyncAzureClient.java:45-63 | each staged block is non-empty and at most the chunk size, and the blocks are the bytes read, in order. One commit of the ids in creation order follows. With exact `available()` the whole input is read; with distinct ids the key holds the blocks. Errors become runtime failures |
| SyncClient.SyncAzureClient.StageWhileAvailable | src/main/java/org/sonatype/nexus/blobstore/azure/internal/SyncAzureClient.java:51-57 | the loop runs while `available()` is positive. It stages exactly the bytes read as blocks, each at most the chunk size, and logs one stage per block |
| SyncClient.SyncAzureClient.UploadNext | src/main/java/org/sonatype/nexus/blobstore/azure/internal/SyncAzureClient.java:52-56 | one round appends a fresh id and stages the bytes just read under it |
| SyncClient.SyncAzureClient.ReadChunk | src/main/java/org/sonatype/nexus/blobstore/azure/internal/SyncAzureClient.java:54 | one read gives the next 1 to `chunkSize` bytes of the input |
| SyncClient.SyncAzureClient.StageChunk | src/main/java/org/sonatype/nexus/blobstore/azure/internal/SyncAzureClient.java:55-56 | the chunk is staged under the id, which is appended to the list |
| SyncClient.SyncAzureClient.CreateContainer | src/main/java/org/sonatype/nexus/blobstore/azure/internal/SyncAzureClient.java:137-145 | create-if-not-exists: afterwards the container exists, and an existing one is untouched, so it is idempotent |
| SyncClient.SyncAzureClient.DeleteContainer | src/main/java/org/sonatype/nexus/blobstore/azure/internal/SyncAzureClient.java:148-156 | delete-if-exists: afterwards the container is gone, and a missing one is untouched, so it is idempotent |
| SyncClient.SyncAzureClient.ContainerExists | src/main/java/org/sonatype/nexus/blobstore/azure/internal/SyncAzureClient.java:159-167 | answers whether the container exists |
| ReactiveClient.Listing | src/main/java/org/sonatype/nexus/blobstore/azure/internal/ReactiveAzureClient.java:149-152 | a first page without a segment yields nothing |
| ReactiveClient.ListingUpToStop | src/main/java/org/sonatype/nexus/blobstore/azure/internal/ReactiveAzureClient.java:144-161 | the listing is the items of the pages up to and including the first page that has no segment or no next marker |
| ReactiveClient.ListingNoStop | src/main/java/org/sonatype/nexus/blobstore/azure/internal/ReactiveAzureClient.java:153-160 | when every page has a segment and a next marker, the listing is all their items in page order |
| ReactiveClient.PagesOf | src/main/java/org/sonatype/nexus/blobstore/azure/internal/ReactiveAzureClient.java:144-161 | the pages carry the segments given, each with a segment |
| ReactiveClient.ListingPagesOf | src/main/java/org/sonatype/nexus/blobstore/azure/internal/ReactiveAzureClient.java:144-161 | listing pages made of segments gives the segments concatenated |
| ReactiveClient.ListingPaginate | src/main/java/org/sonatype/nexus/blobstore/azure/internal/ReactiveAzureClient.java:124-127 | listing the names cut into pages of at most 5 gives the names back in order |
| ReactiveClient.ContainerExistsFrom | src/main/java/org/sonatype/nexus/blobstore/azure/internal/ReactiveAzureClient.java:174-185 | `true` exactly on success, `false` exactly on status 404, and a runtime failure on any other storage error |
| ReactiveClient.CheckChunkSize | src/main/java/org/sonatype/nexus/blobstore/azure/internal/ReactiveAzureClient.java:58 | the chunk size is accepted exactly when positive, else an illegal argument |
| ReactiveClient.ReactiveAzureClient.constructor | src/main/java/org/sonatype/nexus/blobstore/azure/internal/ReactiveAzureClient.java:55-60 | the client keeps the container, chunk size and name it is given |
| ReactiveClient.ReactiveAzureClient.Create | src/main/java/org/sonatype/nexus/blobstore/azure/internal/ReactiveAzureClient.java:63-78 | one id per chunk, each chunk staged in turn, then one commit of the ids in append order. On success the chunks are the whole input, each at most the chunk size; with distinct ids the key holds it. A read failure is a runtime failure |
| ReactiveClient.ReactiveAzureClient.StageChunks | src/main/java/org/sonatype/nexus/blobstore/azure/internal/ReactiveAzureClient.java:67-74 | stages the input's chunks one at a time, in order, logging one stage per chunk |
| ReactiveClient.ReactiveAzureClient.NextChunk | src/main/java/org/sonatype/nexus/blobstore/azure/internal/ReactiveAzureClient.java:67 | the next chunk is the next 1 to `chunkSize` input bytes; nothing at the end; an I/O failure when reading fails |
| ReactiveClient.ReactiveAzureClient.StageChunk | src/main/java/org/sonatype/nexus/blobstore/azure/internal/ReactiveAzureClient.java:68-73 | one chunk: a fresh id is appended and the chunk staged under it |
| ReactiveClient.ReactiveAzureClient.Exists | src/main/java/org/sonatype/nexus/blobstore/azure/internal/ReactiveAzureClient.java:100-109 | answers whether the key holds an object |
| ReactiveClient.ReactiveAzureClient.ListFiles | src/main/java/org/sonatype/nexus/blobstore/azure/internal/ReactiveAzureClient.java:123-130 | lists each key under the prefix exactly once |
| ReactiveClient.ReactiveAzureClient.ListFilesFiltered | src/main/java/org/sonatype/nexus/blobstore/azure/internal/ReactiveAzureClient.java:133-136 | the filtered listing is the listing filtered in order |
| ReactiveClient.ReactiveAzureClient.ContainerExists | src/main/java/org/sonatype/nexus/blobstore/azure/internal/ReactiveAzureClient.java:174-185 | answers whether the container exists |
| ReactiveClient.ReactiveAzureClient.CreateContainer | src/main/java/org/sonatype/nexus/blobstore/azure/internal/ReactiveAzureClient.java:164-166 | a plain create: succeeds exactly when the container did not exist, and fails otherwise |
| ReactiveClient.ReactiveAzureClient.DeleteContainer | src/main/java/org/sonatype/nexus/blobstore/azure/internal/ReactiveAzureClient.java:169-171 | a plain delete: succeeds exactly when the container existed, emptying it, and fails otherwise |
| PropertiesCodec.CharRoundTrip | src/main/java/org/sonatype/nexus/blobstore/azure/internal/AzurePropertiesFile.java:53 | each character's bytes decode back to it |
| PropertiesCodec.DecodeEncodeText | src/main/java/org/sonatype/nexus/blobstore/azure/internal/AzurePropertiesFile.java:53 | encoded text followed by a stop byte decodes back to the text and what follows |
| PropertiesCodec.DecodeEncodeEntries | src/main/java/org/sonatype/nexus/blobstore/azure/internal/AzurePropertiesFile.java:43-56 | decoding encoded entries gives them back |
| PropertiesCodec.ToMap | src/main/java/org/sonatype/nexus/blobstore/azure/internal/AzurePropertiesFile.java:46 | the loaded map has exactly the keys of the entries |
| PropertiesCodec.EntriesOf | src/main/java/org/sonatype/nexus/blobstore/azure/internal/AzurePropertiesFile.java:53 | every property map is listed by entries that rebuild it, one per key |
| PropertiesCodec.Serialize | src/main/java/org/sonatype/nexus/blobstore/azure/internal/AzurePropertiesFile.java:52-54 | the stored bytes load back as exactly the map |
| PropertiesFile.Describe | src/main/java/org/sonatype/nexus/blobstore/azure/internal/AzurePropertiesFile.java:66-70 | the text is `AzurePropertiesFile{key=`, the key, and `}` |
| PropertiesFile.DescribeInjective | src/main/java/org/sonatype/nexus/blobstore/azure/internal/AzurePropertiesFile.java:66-70 | files with different keys describe themselves differently |
| PropertiesFile.AzurePropertiesFile.constructor | src/main/java/org/sonatype/nexus/blobstore/azure/internal/AzurePropertiesFile.java:38-41 | a file bound to the client and key, with no entries |
| PropertiesFile.AzurePropertiesFile.Load | src/main/java/org/sonatype/nexus/blobstore/azure/internal/AzurePropertiesFile.java:43-48 | adds the stored entries to the map; a missing object or bytes that are not a listing fail and leave the map as it was |
| PropertiesFile.AzurePropertiesFile.Store | src/main/java/org/sonatype/nexus/blobstore/azure/internal/AzurePropertiesFile.java:50-56 | one write of exactly the key, which then loads back as the map |
| PropertiesFile.AzurePropertiesFile.Exists | src/main/java/org/sonatype/nexus/blobstore/azure/internal/AzurePropertiesFile.java:58-60 | answers whether the client holds an object at the key |
| PropertiesFile.AzurePropertiesFile.Remove | src/main/java/org/sonatype/nexus/blobstore/azure/internal/AzurePropertiesFile.java:62-64 | deletes exactly the key; fails when nothing is there |
| PropertiesFile.AzurePropertiesFile.ToString | src/main/java/org/sonatype/nexus/blobstore/azure/internal/AzurePropertiesFile.java:66-70 | the file's description of its key |
| PropertiesFile.StoreThenLoad | src/main/java/org/sonatype/nexus/blobstore/azure/internal/AzurePropertiesFile.java:43-56 | storing and then loading into a fresh file bound to the same key reproduces the entries exactly |
| MetricsStore.InitialMetrics | src/main/java/org/sonatype/nexus/blobstore/azure/internal/AzureBlobStoreMetricsStore.java:71-73 | fresh metrics count 0 blobs of total size 0, unlimited, with one file store of `Long.MAX_VALUE` space under the configuration key |
| MetricsStore.MetricsFileKey | src/main/java/org/sonatype/nexus/blobstore/azure/internal/AzureBlobStoreMetricsStore.java:67 | the key is the node id, a dash and the metrics file name |
| MetricsStore.MetricsFileKeyPerNode | src/main/java/org/sonatype/nexus/blobstore/azure/internal/AzureBlobStoreMetricsStore.java:67 | different nodes use different metrics keys |
| MetricsStore.AzureBlobStoreMetricsStore.constructor | src/main/java/org/sonatype/nexus/blobstore/azure/internal/AzureBlobStoreMetricsStore.java:44-52 | a new metrics store has no client |
| MetricsStore.AzureBlobStoreMetricsStore.SetAzureClient | src/main/java/org/sonatype/nexus/blobstore/azure/internal/AzureBlobStoreMetricsStore.java:54-56 | the client is the one given |
| MetricsStore.AzureBlobStoreMetricsStore.DoStop | src/main/java/org/sonatype/nexus/blobstore/azure/internal/AzureBlobStoreMetricsStore.java:59-63 | the client is cleared |
| MetricsStore.AzureBlobStoreMetricsStore.GetProperties | src/main/java/org/sonatype/nexus/blobstore/azure/internal/AzureBlobStoreMetricsStore.java:66-68 | a fresh properties file at the node's metrics key; without a client it fails with a null pointer |
| MetricsStore.AzureBlobStoreMetricsStore.BackingFiles | src/main/java/org/sonatype/nexus/blobstore/azure/internal/AzureBlobStoreMetricsStore.java:76-85 | no files without a client, otherwise exactly the one file at the node's metrics key |
| MetricsStore.AzureBlobStoreMetricsStore.Remove | src/main/java/org/sonatype/nexus/blobstore/azure/internal/AzureBlobStoreMetricsStore.java:87-96 | deletes every backing file: nothing without a client; otherwise the metrics key is gone, and a missing one is a runtime failure |
| DeletedBlobIndex.OrientDeletedBlobIndex.constructor | src/main/java/org/sonatype/nexus/blobstore/azure/internal/db/OrientDeletedBlobIndex.java:54-59 | a new index is empty and not registered |
| DeletedBlobIndex.OrientDeletedBlobIndex.DoStart | src/main/java/org/sonatype/nexus/blobstore/azure/internal/db/OrientDeletedBlobIndex.java:62-68 | registers the schema and keeps the ids |
| DeletedBlobIndex.OrientDeletedBlobIndex.Add | src/main/java/org/sonatype/nexus/blobstore/azure/internal/db/OrientDeletedBlobIndex.java:71-76 | afterwards the id is in the index and nothing else changed; adding an id already there breaks the unique index |
| DeletedBlobIndex.OrientDeletedBlobIndex.Remove | src/main/java/org/sonatype/nexus/blobstore/azure/internal/db/OrientDeletedBlobIndex.java:79-81 | afterwards the id is gone and every other id is kept |
| DeletedBlobIndex.OrientDeletedBlobIndex.Browse | src/main/java/org/sonatype/nexus/blobstore/azure/internal/db/OrientDeletedBlobIndex.java:84-87 | yields each stored id exactly once and nothing else |
| ChunkIterator.ChunkBufferIs4MiB | src/main/java/org/sonatype/nexus/blobstore/azure/internal/InputStreamIterator.java:16-18 | `MB` is 1048576 and the chunk buffer is 4194304 bytes |
| ChunkIterator.InputStreamIterator.constructor | src/main/java/org/sonatype/nexus/blobstore/azure/internal/InputStreamIterator.java:22-24 | the iterator reads the stream given |
| ChunkIterator.InputStreamIterator.HasNext | src/main/java/org/sonatype/nexus/blobstore/azure/internal/InputStreamIterator.java:31-38 | answers whether `available()` is positive: only when bytes remain, exactly so when `available()` is exact; an I/O error becomes a runtime failure |
| ChunkIterator.InputStreamIterator.Next | src/main/java/org/sonatype/nexus/blobstore/azure/internal/InputStreamIterator.java:41-51 | the chunk is the next 1 to 4 MiB input bytes, paired with its own length. An I/O error becomes a runtime failure. At the end of the input the negative count makes wrapping the buffer fail |
| ChunkIterator.InputStreamIterator.Spliterator | src/main/java/org/sonatype/nexus/blobstore/azure/internal/InputStreamIterator.java:56-58 | always fails as unsupported |
| ClientFactory.SelectClient | src/main/java/org/sonatype/nexus/blobstore/azure/internal/AzureStorageClientFactory.java:65-68 | the sync client exactly for `sync` in any case, the reactive client otherwise; a chunk size that is not positive is refused, as both clients' constructors do |
| ClientFactory.DefaultChunkSizeAccepted | src/main/java/org/sonatype/nexus/blobstore/azure/internal/AzureStorageClientFactory.java:54-56 | the default chunk size 5242880 is accepted by either client |
| ObjectStore.HoldsBlocksCommit | src/main/java/org/sonatype/nexus/blobstore/azure/internal/AzureClientImpl.java:81 | committing distinct ids that were each staged with a block gives back those blocks in order |
| Streams.InputStream.Read | src/main/java/org/sonatype/nexus/blobstore/azure/internal/AzureClientImpl.java:70 | `read(buffer, off, len)`: 0 for an empty request, -1 at the end, otherwise 1 to `len` next input bytes copied to `buffer[off..]` with the rest of the buffer kept; an I/O failure when the stream fails |
| Streams.InputStream.Available | src/main/java/org/sonatype/nexus/blobstore/azure/internal/SyncAzureClient.java:51 | `available()` never over-reports the remaining bytes and is exact on exact streams; an I/O failure when the stream fails |

## Left out

- The Azure SDKs are not modelled. The container is a map from key to bytes with staged blocks, an existence flag and a call log. HTTP status handling other than the 404 rule of the reactive `containerExists` is not modelled. Neither are timeouts, the copy poller or download streams.
- `AzureClient.java`, the interface every client implements, is replaced by the `ObjectStore.Container` the engine and helpers call directly. So the clients' own `get`, `exists`, `delete` and `copy` (one SDK call each) are the container's methods, not members of each client.
- The engine writes blobs through the container's one-shot write. It does not go through a chunked client `create`; each client's chunked upload is proved separately.
- The JDK `Properties` text format, with its escapes, comment and date line, is not modelled. `PropertiesCodec` uses a byte form instead: three bytes per character, and the bytes 0xFE and 0xFF to end a key and an entry. This form has the same store-then-load round trip. A stored file that does not decode is refused with an illegal argument, as a malformed `\u` escape is.
- `AzureBlobAttributes`, `BlobStoreSupport`, `BlobSupport`, `BlobAttributesSupport` and `BlobStoreMetricsStoreSupport` are not part of this model's source files. Their behaviour is modelled from how `AzureBlobStore.java` uses them. The attribute property names (`@` header prefix, `sha1`, `creationTime`, `size`, `deleted`, `deletedReason`) and the header names are the platform's.
- SHA-1 (FIPS 180-4) is not computed: the digest is a function `sha1` passed to the store. The clock is a parameter `now`. `MetricsInputStream` is not modelled; an upload's size is its data's length.
- The metrics store's accumulation, periodic flushing and quota checks are not modelled. What the engine reports to it is kept as the ghost log `deltas`, and `getMetrics` is left out.
- Locks are a `locked` flag that each operation takes and releases. Threads and races are not modelled. The Guava weak-value cache is a map whose entries may be replaced by new stale handles, standing for entries the collector dropped.
- The `@Guarded` lifecycle states are reduced to a `started` flag, required by the operations guarded by STARTED.
- UUID randomness is an arbitrary choice of the two 64-bit halves. A file's content is stated under the assumption that the chosen ids are pairwise distinct.
- `doInit`, which builds a client from configuration, is not modelled. Neither are `remove`, `isWritable`, `isStorageAvailable` and `getBlobStoreConfiguration`: each is a single call or a constant. Only the factory's choice of client and its default chunk size are modelled.
- The base class's `getBlobId` is `BlobIdFor`, and the location resolver is a function `location` passed to the store: the assigned id, or the one the headers resolve to.
- BlobStore.AzureBlobStore.Undelete: the checker is a function of the blob id and name; the blob store argument it is also given is dropped. The log line and dry-run prefix are not modelled.
- BlobStore.AzureBlobStore.GetBlobIdStream: states which ids are listed but not their order or multiplicity. The listing order of Azure is not modelled beyond each key being listed once. The base class's `getBlobIdFromAttributeFilePath` is not part of this model's source files. Its rule is taken as the platform's: a key whose path contains the direct-path root is resolved through `getBlobAttributes` and the location resolver, and any other key by its file name. A key whose attributes fail to load gives a null id, which fails the listing.
- BlobStore.AzureBlobStore.Create: the clean-up after an `IOException` is reached only when closing the upload's data fails. Every chunked client rethrows a read failure unchecked: `AzureClientImpl.java:83-85`, `SyncAzureClient.java:60-62`, and the reactive client through `blockingGet`. So such a failure skips the clean-up and leaves nothing committed. The model writes through the container's one-shot write, so the blocks a client staged before the failure are not modelled. A failure while storing the attributes is not modelled either, because the container's writes do not fail.
- The engine's lazy Java streams are whole sequences: a refused key fails the whole listing rather than the element where it is met.
- `src/main/java/org/sonatype/nexus/blobstore/gcloud/internal/AzureBlobStore.java` is a stub with no behaviour of its own and is not modelled. Neither are the UI scripts or the descriptor.
- The OrientDB schema and entity mapping behind the deleted-blob index are not modelled. The index is a set of id strings, as its unique hash index makes it; `BlobId` is its unique string.
