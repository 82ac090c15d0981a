/**
 * `SyncAzureClient`: the client built on the synchronous storage SDK. Its upload
 * reads into one reused buffer of `chunkSize` bytes for as long as the stream
 * reports bytes available, generating a block id before each read and staging
 * what the read returned under it, and then commits the ids in generation order.
 *
 * The upload ends as soon as `available()` reports nothing, which is the end of
 * the stream only for a stream that reports exactly: from any other stream the
 * object holds what was read up to that point, a prefix of the input.
 */
module SyncClient {
  import opened Util
  import opened ObjectStore
  import opened Streams
  import BlockIds

  /** The constructor's argument check: a chunk size that is not positive is refused. */
  function CheckChunkSize(chunkSize: int): (r: Result<()>)
    ensures r.Ok? <==> chunkSize > 0
    ensures r.Err? ==> r.failure == IllegalArgument
  {
    if chunkSize > 0 then Ok(()) else Err(IllegalArgument)
  }

  class SyncAzureClient {
    /** The container, standing for the service client and the container name. */
    const container: Container
    const containerName: string
    const chunkSize: int

    constructor (container: Container, chunkSize: int, containerName: string)
      requires CheckChunkSize(chunkSize).Ok?
      ensures this.container == container && this.chunkSize == chunkSize && this.containerName == containerName
      ensures Valid()
    {
      this.container := container;
      this.containerName := containerName;
      this.chunkSize := chunkSize;
    }

    ghost predicate Valid()
    {
      chunkSize > 0
    }

    /**
     * `create(path, data)`. On success the staged blocks, none empty and none
     * longer than `chunkSize`, are the bytes read, in order; one commit names
     * their ids in generation order, and the object at `path` is those bytes when
     * the ids are pairwise distinct. The bytes read are a prefix of the input,
     * and all of it when the stream reports `available()` exactly. A failing
     * stream surfaces as a `RuntimeException`, with nothing committed.
     */
    method Create(path: string, data: InputStream) returns (r: Result<()>, ids: seq<string>, ghost blocks: seq<seq<byte>>)
      requires Valid() && data.Valid()
      modifies container, data
      ensures data.Valid() && old(data.pos) <= data.pos
      ensures |ids| == |blocks| && forall i :: 0 <= i < |ids| ==> BlockIds.IsBlockId(ids[i])
      ensures forall i :: 0 <= i < |blocks| ==> 0 < |blocks[i]| <= chunkSize
      ensures Concat(blocks) == data.data[old(data.pos)..data.pos]
      ensures data.NeverFails() ==> r.Ok?
      ensures r.Ok? && data.exactAvailable ==> data.pos == |data.data| && Concat(blocks) == old(data.Remaining())
      ensures r.Ok? ==> container.log == old(container.log) + Staging(path, ids, blocks) + [Committed(path, ids)]
      ensures r.Ok? && Distinct(ids) ==> container.objects == old(container.objects)[path := Concat(blocks)]
      ensures r.Err? ==> r.failure == RuntimeException && container.objects == old(container.objects)
      ensures r.Err? ==> container.log == old(container.log) + Staging(path, ids, blocks)
      ensures container.present == old(container.present)
    {
      r, ids, blocks := StageWhileAvailable(path, data);
      if r.Ok? {
        ghost var before := container.StagedFor(path);
        var committed := container.CommitBlockList(path, ids);
        assert committed.Ok?;
        if Distinct(ids) {
          HoldsBlocksCommit(before, ids, blocks);
        }
      }
    }

    /** The loop of `create`: one block per read, for as long as `available()` is positive. */
    method StageWhileAvailable(path: string, data: InputStream) returns (r: Result<()>, ids: seq<string>, ghost blocks: seq<seq<byte>>)
      requires Valid() && data.Valid()
      modifies container, data
      ensures data.Valid() && old(data.pos) <= data.pos
      ensures |ids| == |blocks| && forall i :: 0 <= i < |ids| ==> BlockIds.IsBlockId(ids[i])
      ensures forall i :: 0 <= i < |blocks| ==> 0 < |blocks[i]| <= chunkSize
      ensures Concat(blocks) == data.data[old(data.pos)..data.pos]
      ensures HoldsBlocks(container.StagedFor(path), ids, blocks)
      ensures container.objects == old(container.objects) && container.present == old(container.present)
      ensures container.log == old(container.log) + Staging(path, ids, blocks)
      ensures data.NeverFails() ==> r.Ok?
      ensures r.Ok? && data.exactAvailable ==> data.pos == |data.data|
      ensures r.Err? ==> r.failure == RuntimeException
    {
      ghost var start := data.pos;
      var buffer := new byte[chunkSize];
      ids, blocks := [], [];
      while true
        invariant data.Valid() && start <= data.pos
        invariant data.data[start..data.pos] == Concat(blocks)
        invariant StagedChunks(path, ids, blocks, old(container.log))
        invariant container.objects == old(container.objects) && container.present == old(container.present)
        decreases |data.data| - data.pos
      {
        var available := data.Available();
        if available.Err? {
          r := Err(RuntimeException);
          return;
        }
        if available.value == 0 {
          break;
        }
        ghost var was := data.pos;
        ghost var chunk;
        ids, blocks, chunk := UploadNext(path, data, buffer, ids, blocks, old(container.log));
        SliceJoin(data.data, start, was, data.pos);
      }
      r := Ok(());
    }

    /**
     * What staging the chunks `blocks` under `ids` after the log `base` leaves:
     * every id a block id, no chunk empty or longer than `chunkSize`, the staged
     * blocks holding the chunks, and one log entry per chunk.
     */
    ghost predicate StagedChunks(path: string, ids: seq<string>, blocks: seq<seq<byte>>, base: seq<Call>)
      reads container
    {
      |ids| == |blocks| && (forall i :: 0 <= i < |ids| ==> BlockIds.IsBlockId(ids[i]))
      && (forall i :: 0 <= i < |blocks| ==> 0 < |blocks[i]| <= chunkSize)
      && HoldsBlocks(container.StagedFor(path), ids, blocks)
      && container.log == base + Staging(path, ids, blocks)
    }

    /**
     * One turn of the loop: a fresh block id is added to the list, one read fills
     * the front of the buffer, and the bytes read are staged under that id.
     */
    method UploadNext(path: string, data: InputStream, buffer: array<byte>, ids: seq<string>, ghost blocks: seq<seq<byte>>, ghost base: seq<Call>)
      returns (ids': seq<string>, ghost blocks': seq<seq<byte>>, ghost chunk: seq<byte>)
      requires data.Valid() && !data.Failing() && data.pos < |data.data|
      requires buffer.Length == chunkSize > 0
      requires StagedChunks(path, ids, blocks, base)
      modifies container, data, buffer
      ensures data.Valid() && old(data.pos) < data.pos
      ensures chunk == data.data[old(data.pos)..data.pos]
      ensures |ids'| == |ids| + 1 && ids'[..|ids|] == ids && blocks' == blocks + [chunk]
      ensures Concat(blocks') == Concat(blocks) + chunk
      ensures StagedChunks(path, ids', blocks', base)
      ensures container.objects == old(container.objects) && container.present == old(container.present)
    {
      var id := BlockIds.CreateBase64BlockId();
      var block := ReadChunk(data, buffer);
      chunk := block;
      ids', blocks' := StageChunk(path, ids, blocks, id, block, base);
    }

    /** The one read of a turn: at least one byte, at most a buffer's worth, taken from the front of the buffer. */
    static method ReadChunk(data: InputStream, buffer: array<byte>) returns (chunk: seq<byte>)
      requires data.Valid() && !data.Failing() && data.pos < |data.data| && buffer.Length > 0
      modifies data, buffer
      ensures data.Valid() && old(data.pos) < data.pos
      ensures chunk == data.data[old(data.pos)..data.pos] && 0 < |chunk| <= buffer.Length
    {
      var read := data.Read(buffer, 0, buffer.Length);
      assert read.Ok? && read.value >= 1;
      chunk := buffer[..read.value];
    }

    /** Stages `chunk` under `id`, the next id in the list. */
    method StageChunk(path: string, ids: seq<string>, ghost blocks: seq<seq<byte>>, id: string, chunk: seq<byte>, ghost base: seq<Call>)
      returns (ids': seq<string>, ghost blocks': seq<seq<byte>>)
      requires StagedChunks(path, ids, blocks, base)
      requires BlockIds.IsBlockId(id) && 0 < |chunk| <= chunkSize
      modifies container
      ensures ids' == ids + [id] && blocks' == blocks + [chunk]
      ensures Concat(blocks') == Concat(blocks) + chunk
      ensures StagedChunks(path, ids', blocks', base)
      ensures container.objects == old(container.objects) && container.present == old(container.present)
    {
      ghost var held := container.StagedFor(path);
      container.StageBlock(path, id, chunk);
      StagingAppend(path, ids, blocks, id, chunk);
      ConcatAppend(blocks, chunk);
      HoldsBlocksStage(held, ids, blocks, id, chunk);
      LogAppend(base, Staging(path, ids, blocks), Staged(path, id, |chunk|));
      ChunkAppended(ids, blocks, id, chunk, chunkSize);
      ids', blocks' := ids + [id], blocks + [chunk];
    }

    /** `createContainer`: create-if-not-exists, so a second call changes nothing. */
    method CreateContainer()
      modifies container
      ensures container.present
      ensures container.objects == old(container.objects) && container.staged == old(container.staged)
      ensures container.log == if old(container.present) then old(container.log) else old(container.log) + [ContainerCreated]
    {
      var present := container.ContainerExists();
      if !present {
        var created := container.Create();
      }
    }

    /** `deleteContainer`: delete-if-exists, so a second call changes nothing. */
    method DeleteContainer()
      modifies container
      ensures !container.present
      ensures old(container.present) ==> container.objects == map[] && container.log == old(container.log) + [ContainerDeleted]
      ensures !old(container.present) ==> container.objects == old(container.objects) && container.log == old(container.log)
    {
      var present := container.ContainerExists();
      if present {
        var deleted := container.DeleteItself();
      }
    }

    /** `containerExists`. */
    method ContainerExists() returns (b: bool)
      ensures b == container.present
    {
      b := container.ContainerExists();
    }
  }

  /** One more read chunk under one more block id keeps every id a block id and every chunk within bounds. */
  lemma ChunkAppended(ids: seq<string>, blocks: seq<seq<byte>>, id: string, chunk: seq<byte>, c: int)
    requires |ids| == |blocks| && forall i :: 0 <= i < |ids| ==> BlockIds.IsBlockId(ids[i])
    requires forall i :: 0 <= i < |blocks| ==> 0 < |blocks[i]| <= c
    requires BlockIds.IsBlockId(id) && 0 < |chunk| <= c
    ensures forall i :: 0 <= i < |ids + [id]| ==> BlockIds.IsBlockId((ids + [id])[i])
    ensures forall i :: 0 <= i < |blocks + [chunk]| ==> 0 < |(blocks + [chunk])[i]| <= c
  {
  }
}
