/**
 * `ReactiveAzureClient`: the client built on the reactive storage SDK. Its upload
 * turns the stream into chunks of at most `chunkSize` bytes (one chunk per read),
 * stages each chunk under a fresh block id, one at a time and in order, and then
 * commits the ids in the order they were generated. Its listing follows the
 * service's continuation markers page by page.
 */
module ReactiveClient {
  import opened Util
  import opened ObjectStore
  import opened Streams
  import BlockIds

  /** The page size the listing asks the service for. */
  const MaxResults: nat := 5

  /**
   * One response of the flat listing: the page's names (absent when the service
   * sent no segment) and the marker of the next page (absent on the last page).
   */
  datatype Page = Page(segment: Option<seq<string>>, nextMarker: Option<string>)

  /** The names a page contributes. */
  function Items(p: Page): seq<string>
  {
    if p.segment.Some? then p.segment.value else []
  }

  /** Whether the listing stops after this page: no segment, or no next marker. */
  predicate Stops(p: Page)
  {
    p.segment.None? || p.nextMarker.None?
  }

  /**
   * `listContainersResultToContainerObservable` over the responses the service
   * gives, in request order: a page without a segment yields nothing and ends the
   * listing; otherwise its names come first, followed by the listing of the next
   * response when the page carries a marker. When the responses run out the
   * listing ends.
   */
  function Listing(pages: seq<Page>): (r: seq<string>)
    ensures pages != [] && pages[0].segment.None? ==> r == []
  {
    if pages == [] || pages[0].segment.None? then []
    else if pages[0].nextMarker.None? then pages[0].segment.value
    else pages[0].segment.value + Listing(pages[1..])
  }

  /** The names of the given pages, concatenated in page order. */
  function AllItems(pages: seq<Page>): seq<string>
  {
    if pages == [] then [] else Items(pages[0]) + AllItems(pages[1..])
  }

  /**
   * The listing is exactly the names of the pages up to and including the first
   * page that stops it, in page order; later pages are never requested.
   */
  lemma {:induction false} ListingUpToStop(pages: seq<Page>, k: nat)
    requires 0 < k <= |pages|
    requires forall i :: 0 <= i < k - 1 ==> !Stops(pages[i])
    requires Stops(pages[k - 1])
    ensures Listing(pages) == AllItems(pages[..k])
    decreases k
  {
    if k == 1 {
      assert pages[..1][1..] == [];
    } else {
      ListingUpToStop(pages[1..], k - 1);
      assert pages[..k][1..] == pages[1..][..k - 1];
    }
  }

  /** When no page stops the listing, it is the names of every page. */
  lemma {:induction false} ListingNoStop(pages: seq<Page>)
    requires forall i :: 0 <= i < |pages| ==> !Stops(pages[i])
    ensures Listing(pages) == AllItems(pages)
    decreases |pages|
  {
    if pages != [] {
      ListingNoStop(pages[1..]);
    }
  }

  /**
   * The responses a service gives for names listed `m` at a time: one page per
   * segment, each pointing at the next, and a last page without a marker (a
   * single empty page when there are no names).
   */
  function Paginate(names: seq<string>, m: nat): (r: seq<Page>)
    requires m > 0
  {
    PagesOf(Chunks(names, m))
  }

  function PagesOf(segments: seq<seq<string>>): (r: seq<Page>)
    ensures |r| == if segments == [] then 1 else |segments|
    ensures forall i :: 0 <= i < |r| ==> r[i].segment.Some?
    ensures forall i :: 0 <= i < |segments| ==> r[i].segment.value == segments[i]
  {
    if |segments| <= 1 then [Page(Some(if segments == [] then [] else segments[0]), None)]
    else [Page(Some(segments[0]), Some(if segments[1] == [] then "" else segments[1][0]))] + PagesOf(segments[1..])
  }

  /** Following the markers of such pages gives back every segment, in order. */
  lemma {:induction false} ListingPagesOf(segments: seq<seq<string>>)
    ensures Listing(PagesOf(segments)) == Concat(segments)
    decreases |segments|
  {
    if |segments| == 1 {
      assert Concat(segments) == segments[0] + Concat([]);
    } else if |segments| > 1 {
      ListingPagesOf(segments[1..]);
      assert PagesOf(segments)[1..] == PagesOf(segments[1..]);
    }
  }

  /** Listing a paginated answer gives back the names, in the service's order, with at most `m` per page. */
  lemma ListingPaginate(names: seq<string>, m: nat)
    requires m > 0
    ensures Listing(Paginate(names, m)) == names
    ensures forall i :: 0 <= i < |Paginate(names, m)| ==> |Items(Paginate(names, m)[i])| <= m
  {
    ListingPagesOf(Chunks(names, m));
    ChunksConcat(names, m);
    ChunksSizes(names, m);
  }

  /** The outcome of a request for the container's properties. */
  datatype Response = Success | StorageError(status: int)

  /**
   * `containerExists` given the service's answer: true on success, false when the
   * service answers 404, and any other storage error rethrown unchecked.
   */
  function ContainerExistsFrom(response: Response): (r: Result<bool>)
    ensures r == Ok(true) <==> response.Success?
    ensures r == Ok(false) <==> response == StorageError(404)
    ensures r.Err? <==> response.StorageError? && response.status != 404
    ensures r.Err? ==> r.failure == RuntimeException
  {
    match response
    case Success => Ok(true)
    case StorageError(status) => if status == 404 then Ok(false) else Err(RuntimeException)
  }

  /** The constructor's argument check: a chunk size that is not positive is refused. */
  function CheckChunkSize(chunkSize: int): (r: Result<()>)
    ensures r.Ok? <==> chunkSize > 0
    ensures r.Err? ==> r.failure == IllegalArgument
  {
    if chunkSize > 0 then Ok(()) else Err(IllegalArgument)
  }

  class ReactiveAzureClient {
    /** The container, standing for the container URL. */
    const container: Container
    const containerName: string
    const chunkSize: int

    constructor (container: Container, chunkSize: int, containerName: string)
      requires CheckChunkSize(chunkSize).Ok?
      ensures this.container == container && this.chunkSize == chunkSize && this.containerName == containerName
      ensures Valid()
    {
      this.container := container;
      this.containerName := containerName;
      this.chunkSize := chunkSize;
    }

    ghost predicate Valid()
    {
      chunkSize > 0
    }

    /**
     * `create(path, data)`: every read of up to `chunkSize` bytes becomes one
     * chunk, staged under a fresh id appended to the id list; at the end of the
     * stream the list is committed in append order. On success the chunks, none
     * empty and none longer than `chunkSize`, concatenate to the whole input, and
     * the object at `path` is the input when the ids are pairwise distinct. A read
     * failure surfaces as a `RuntimeException` with nothing committed.
     */
    method Create(path: string, data: InputStream) returns (r: Result<()>, ids: seq<string>, ghost chunks: seq<seq<byte>>)
      requires Valid() && data.Valid()
      modifies container, data
      ensures data.Valid() && old(data.pos) <= data.pos
      ensures |ids| == |chunks| && forall i :: 0 <= i < |ids| ==> BlockIds.IsBlockId(ids[i])
      ensures forall i :: 0 <= i < |chunks| ==> 0 < |chunks[i]| <= chunkSize
      ensures data.NeverFails() ==> r.Ok?
      ensures r.Ok? ==> data.pos == |data.data| && Concat(chunks) == old(data.Remaining())
      ensures r.Ok? ==> container.log == old(container.log) + Staging(path, ids, chunks) + [Committed(path, ids)]
      ensures r.Ok? && Distinct(ids) ==> container.objects == old(container.objects)[path := old(data.Remaining())]
      ensures r.Err? ==> r.failure == RuntimeException && container.objects == old(container.objects)
      ensures r.Err? ==> container.log == old(container.log) + Staging(path, ids, chunks)
      ensures r.Err? ==> Concat(chunks) <= old(data.Remaining())
      ensures container.present == old(container.present)
    {
      r, ids, chunks := StageChunks(path, data);
      if r.Ok? {
        ghost var before := container.StagedFor(path);
        var committed := container.CommitBlockList(path, ids);
        assert committed.Ok?;
        if Distinct(ids) {
          HoldsBlocksCommit(before, ids, chunks);
        }
      }
    }

    /** The chunking and staging part of `create`, up to the end of the stream. */
    method StageChunks(path: string, data: InputStream) returns (r: Result<()>, ids: seq<string>, ghost chunks: seq<seq<byte>>)
      requires Valid() && data.Valid()
      modifies container, data
      ensures data.Valid() && old(data.pos) <= data.pos
      ensures |ids| == |chunks| && forall i :: 0 <= i < |ids| ==> BlockIds.IsBlockId(ids[i])
      ensures forall i :: 0 <= i < |chunks| ==> 0 < |chunks[i]| <= chunkSize
      ensures HoldsBlocks(container.StagedFor(path), ids, chunks)
      ensures container.objects == old(container.objects) && container.present == old(container.present)
      ensures container.log == old(container.log) + Staging(path, ids, chunks)
      ensures data.NeverFails() ==> r.Ok?
      ensures r.Ok? ==> data.pos == |data.data| && Concat(chunks) == old(data.Remaining())
      ensures r.Err? ==> r.failure == RuntimeException && Concat(chunks) <= old(data.Remaining())
    {
      ghost var start := data.pos;
      ghost var input := data.Remaining();
      ids, chunks := [], [];
      while true
        invariant data.Valid() && start <= data.pos
        invariant data.data[start..data.pos] == Concat(chunks)
        invariant |ids| == |chunks| && forall i :: 0 <= i < |ids| ==> BlockIds.IsBlockId(ids[i])
        invariant forall i :: 0 <= i < |chunks| ==> 0 < |chunks[i]| <= chunkSize
        invariant HoldsBlocks(container.StagedFor(path), ids, chunks)
        invariant container.objects == old(container.objects) && container.present == old(container.present)
        invariant container.log == old(container.log) + Staging(path, ids, chunks)
        decreases |data.data| - data.pos
      {
        ghost var was := data.pos;
        var next := NextChunk(data);
        if next.Err? {
          assert data.data[start..data.pos] <= input;
          r := Err(RuntimeException);
          return;
        }
        if next.value.None? {
          break;
        }
        var chunk := next.value.value;
        SliceJoin(data.data, start, was, data.pos);
        ids, chunks := StageChunk(path, chunk, ids, chunks, old(container.log));
      }
      r := Ok(());
    }

    /**
     * One emission of the chunking of the stream: a single read into a fresh
     * buffer of `chunkSize` bytes, giving the bytes read, or nothing at the end of
     * the stream.
     */
    method NextChunk(data: InputStream) returns (r: Result<Option<seq<byte>>>)
      requires Valid() && data.Valid()
      modifies data
      ensures data.Valid() && old(data.pos) <= data.pos
      ensures old(data.Failing()) <==> r.Err?
      ensures r.Err? ==> r.failure == IOException && data.pos == old(data.pos)
      ensures r == Ok(None) <==> !old(data.Failing()) && old(data.pos) == |data.data|
      ensures r.Ok? && r.value.Some? ==> 0 < |r.value.value| <= chunkSize && data.data[old(data.pos)..data.pos] == r.value.value
    {
      var buffer := new byte[chunkSize];
      var count := data.Read(buffer, 0, buffer.Length);
      if count.Err? {
        return Err(count.failure);
      }
      if count.value == -1 {
        return Ok(None);
      }
      r := Ok(Some(buffer[..count.value]));
    }

    /** Stages one chunk under a fresh block id and appends the id to the list. */
    method StageChunk(path: string, chunk: seq<byte>, ids: seq<string>, ghost chunks: seq<seq<byte>>, ghost base: seq<Call>)
      returns (ids': seq<string>, ghost chunks': seq<seq<byte>>)
      requires 0 < |chunk| <= chunkSize
      requires |ids| == |chunks| && forall i :: 0 <= i < |ids| ==> BlockIds.IsBlockId(ids[i])
      requires forall i :: 0 <= i < |chunks| ==> 0 < |chunks[i]| <= chunkSize
      requires HoldsBlocks(container.StagedFor(path), ids, chunks)
      requires container.log == base + Staging(path, ids, chunks)
      modifies container
      ensures |ids'| == |ids| + 1 && ids'[..|ids|] == ids && chunks' == chunks + [chunk]
      ensures forall i :: 0 <= i < |ids'| ==> BlockIds.IsBlockId(ids'[i])
      ensures forall i :: 0 <= i < |chunks'| ==> 0 < |chunks'[i]| <= chunkSize
      ensures Concat(chunks') == Concat(chunks) + chunk
      ensures HoldsBlocks(container.StagedFor(path), ids', chunks')
      ensures container.log == base + Staging(path, ids', chunks')
      ensures container.objects == old(container.objects) && container.present == old(container.present)
    {
      ghost var held := container.StagedFor(path);
      var id := BlockIds.CreateBase64BlockId();
      container.StageBlock(path, id, chunk);
      StagingAppend(path, ids, chunks, id, chunk);
      ConcatAppend(chunks, chunk);
      HoldsBlocksStage(held, ids, chunks, id, chunk);
      assert base + Staging(path, ids, chunks) + [Staged(path, id, |chunk|)]
        == base + (Staging(path, ids, chunks) + [Staged(path, id, |chunk|)]);
      ids', chunks' := ids + [id], chunks + [chunk];
    }

    /** `exists(path)`: true exactly when the object's properties can be read. */
    method Exists(path: string) returns (b: bool)
      ensures b <==> path in container.objects
    {
      b := container.Exists(path);
    }

    /**
     * `listFiles(prefix)`: the names under `prefix`, gathered page by page with at
     * most five names a page by following the continuation markers; every such
     * name comes exactly once.
     */
    method ListFiles(contentPrefix: string) returns (names: seq<string>)
      ensures Distinct(names)
      ensures forall n :: n in names <==> n in container.objects && StartsWith(n, contentPrefix)
    {
      var served := container.ListNames(contentPrefix);
      var pages := Paginate(served, MaxResults);
      names := Listing(pages);
      ListingPaginate(served, MaxResults);
    }

    /** Filtered `listFiles(prefix, filter)`: the unfiltered listing, keeping the names the filter accepts, in order. */
    method ListFilesFiltered(contentPrefix: string, filter: string -> bool) returns (names: seq<string>, ghost listed: seq<string>)
      ensures names == Filter(listed, filter)
      ensures forall n :: n in listed <==> n in container.objects && StartsWith(n, contentPrefix)
      ensures forall n :: n in names <==> n in container.objects && StartsWith(n, contentPrefix) && filter(n)
    {
      var all := ListFiles(contentPrefix);
      listed := all;
      names := Filter(all, filter);
      forall n ensures n in names <==> n in listed && filter(n) {
        FilterMembership(listed, filter, n);
      }
    }

    /**
     * `containerExists`: asks for the container's properties, which the service
     * refuses with 404 when there is no container.
     */
    method ContainerExists() returns (r: Result<bool>)
      ensures r == Ok(container.present)
    {
      var response := if container.present then Success else StorageError(404);
      r := ContainerExistsFrom(response);
    }

    /** `createContainer`: a plain create, which fails when the container exists. */
    method CreateContainer() returns (r: Result<()>)
      modifies container
      ensures r.Ok? <==> !old(container.present)
      ensures container.present && container.objects == old(container.objects)
      ensures r.Err? ==> r.failure == RuntimeException && container.log == old(container.log)
    {
      r := container.Create();
    }

    /** `deleteContainer`: a plain delete, which fails when there is no container. */
    method DeleteContainer() returns (r: Result<()>)
      modifies container
      ensures r.Ok? <==> old(container.present)
      ensures !container.present
      ensures r.Ok? ==> container.objects == map[]
      ensures r.Err? ==> r.failure == RuntimeException && container.log == old(container.log)
    {
      r := container.DeleteItself();
    }
  }
}
