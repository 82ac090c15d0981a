/**
 * `AzureClientImpl`: the client that uploads a stream as a block blob by filling
 * a reusable buffer of `chunkSize` bytes, staging each full buffer as one block,
 * staging a final partial buffer if one is left, and committing the list of
 * block ids once.
 */
module ClientImpl {
  import opened Util
  import opened ObjectStore
  import opened Streams
  import BlockIds

  /**
   * The argument checks of the constructor, in the order it makes them; the first
   * one that fails raises `IllegalArgumentException`.
   */
  function CheckArguments(chunkSize: int, copyTimeout: int, listBlobsTimeout: int): (r: Result<()>)
    ensures r.Ok? <==> chunkSize > 0 && copyTimeout > 0 && listBlobsTimeout > 0
    ensures r.Err? ==> r.failure == IllegalArgument
  {
    if chunkSize <= 0 then Err(IllegalArgument)
    else if copyTimeout <= 0 then Err(IllegalArgument)
    else if listBlobsTimeout <= 0 then Err(IllegalArgument)
    else Ok(())
  }

  class AzureClientImpl {
    /** The container this client works on, standing for the service client and the container name. */
    const container: Container
    const containerName: string
    const chunkSize: int
    const copyTimeout: int
    const listBlobsTimeout: int

    /** The constructor, when its argument checks pass. */
    constructor (container: Container, containerName: string, chunkSize: int, copyTimeout: int, listBlobsTimeout: int)
      requires CheckArguments(chunkSize, copyTimeout, listBlobsTimeout).Ok?
      ensures this.container == container && this.containerName == containerName
      ensures this.chunkSize == chunkSize && this.copyTimeout == copyTimeout
      ensures this.listBlobsTimeout == listBlobsTimeout
      ensures Valid()
    {
      this.container := container;
      this.containerName := containerName;
      this.chunkSize := chunkSize;
      this.copyTimeout := copyTimeout;
      this.listBlobsTimeout := listBlobsTimeout;
    }

    ghost predicate Valid()
    {
      chunkSize > 0 && copyTimeout > 0 && listBlobsTimeout > 0
    }

    /**
     * `ids` and `blocks` are what the upload to `path` staged since the log
     * was `base`: one block id per block, each block full, every id held for
     * `path`, and one log entry per block in staging order.
     */
    ghost predicate StagedSoFar(path: string, ids: seq<string>, blocks: seq<seq<byte>>, base: seq<Call>)
      reads container
    {
      |ids| == |blocks| && (forall i :: 0 <= i < |ids| ==> BlockIds.IsBlockId(ids[i]))
      && (forall i :: 0 <= i < |blocks| ==> |blocks[i]| == chunkSize)
      && HoldsBlocks(container.StagedFor(path), ids, blocks)
      && container.log == base + Staging(path, ids, blocks)
    }

    /**
     * `create(path, data)`. On success the whole stream has been read, the staged
     * blocks are exactly the input split into `chunkSize` pieces (so there are
     * `ceil(S / chunkSize)` of them, all full but the last, none empty, and they
     * concatenate back to the input), and one commit names their ids in staging
     * order, even for an empty stream. The object at `path` is then the input,
     * provided the random block ids are pairwise distinct. A read failure is
     * rethrown as a `RuntimeException` after the blocks read so far were staged,
     * and nothing is committed.
     */
    method Create(path: string, data: InputStream) returns (r: Result<()>, ids: seq<string>, ghost blocks: seq<seq<byte>>)
      requires Valid() && data.Valid()
      modifies container, data
      ensures data.Valid() && old(data.pos) <= data.pos
      ensures |ids| == |blocks| && forall i :: 0 <= i < |ids| ==> BlockIds.IsBlockId(ids[i])
      ensures data.NeverFails() ==> r.Ok?
      ensures r.Ok? ==> data.pos == |data.data| && blocks == Chunks(old(data.Remaining()), chunkSize)
      ensures r.Ok? ==> container.log == old(container.log) + Staging(path, ids, blocks) + [Committed(path, ids)]
      ensures r.Ok? && Distinct(ids) ==> container.objects == old(container.objects)[path := old(data.Remaining())]
      ensures r.Err? ==> r.failure == RuntimeException && container.objects == old(container.objects)
      ensures r.Err? ==> container.log == old(container.log) + Staging(path, ids, blocks)
      ensures r.Err? ==> Concat(blocks) <= old(data.Remaining())
      ensures container.present == old(container.present)
    {
      ghost var input := data.Remaining();
      var buffer := new byte[chunkSize];
      var totalRead;
      r, ids, blocks, totalRead := StageFullBlocks(path, data, buffer);
      if r.Ok? {
        ids, blocks := StageLastAndCommit(path, ids, blocks, buffer, totalRead, input, old(container.log));
      }
    }

    /**
     * The end of `create`: stages the partial buffer when it holds anything, then
     * commits every block id, in staging order, in one call.
     */
    method StageLastAndCommit(path: string, ids: seq<string>, ghost blocks: seq<seq<byte>>, buffer: array<byte>,
                              totalRead: nat, ghost input: seq<byte>, ghost base: seq<Call>)
      returns (ids': seq<string>, ghost blocks': seq<seq<byte>>)
      requires chunkSize > 0 && totalRead < chunkSize <= buffer.Length
      requires StagedSoFar(path, ids, blocks, base)
      requires input == Concat(blocks) + buffer[..totalRead]
      modifies container
      ensures |ids'| == |blocks'| && forall i :: 0 <= i < |ids'| ==> BlockIds.IsBlockId(ids'[i])
      ensures blocks' == Chunks(input, chunkSize)
      ensures container.log == base + Staging(path, ids', blocks') + [Committed(path, ids')]
      ensures Distinct(ids') ==> container.objects == old(container.objects)[path := input]
      ensures container.present == old(container.present)
    {
      ghost var tail := buffer[..totalRead];
      ChunksOfFullBlocks(blocks, tail, chunkSize);
      ids', blocks' := StageTail(path, ids, blocks, buffer, totalRead, base);
      assert blocks' == Chunks(input, chunkSize);
      ChunksConcat(input, chunkSize);
      Commit(path, ids', blocks', base);
    }

    /** Stages the first `totalRead` bytes of the buffer as one more block, when there are any. */
    method StageTail(path: string, ids: seq<string>, ghost blocks: seq<seq<byte>>, buffer: array<byte>,
                     totalRead: nat, ghost base: seq<Call>)
      returns (ids': seq<string>, ghost blocks': seq<seq<byte>>)
      requires totalRead <= buffer.Length
      requires |ids| == |blocks| && forall i :: 0 <= i < |ids| ==> BlockIds.IsBlockId(ids[i])
      requires HoldsBlocks(container.StagedFor(path), ids, blocks)
      requires container.log == base + Staging(path, ids, blocks)
      modifies container
      ensures |ids'| == |blocks'| && forall i :: 0 <= i < |ids'| ==> BlockIds.IsBlockId(ids'[i])
      ensures blocks' == blocks + (if buffer[..totalRead] == [] then [] else [buffer[..totalRead]])
      ensures HoldsBlocks(container.StagedFor(path), ids', blocks')
      ensures container.log == base + Staging(path, ids', blocks')
      ensures container.objects == old(container.objects) && container.present == old(container.present)
    {
      ghost var tail := buffer[..totalRead];
      ids', blocks' := ids, blocks;
      if totalRead > 0 {
        ghost var held := container.StagedFor(path);
        var id := UploadBlock(path, totalRead, buffer);
        ids', blocks' := ids + [id], blocks + [tail];
        StagingAppend(path, ids, blocks, id, tail);
        HoldsBlocksStage(held, ids, blocks, id, tail);
        LogAppend(base, Staging(path, ids, blocks), Staged(path, id, |tail|));
        assert forall i :: 0 <= i < |ids'| ==> BlockIds.IsBlockId(ids'[i]) by {
          assert forall i :: 0 <= i < |ids| ==> ids'[i] == ids[i];
        }
      }
    }

    /**
     * `commitBlockList(ids, true)`: one commit of every staged block id in
     * staging order; with distinct ids the object is the blocks concatenated.
     */
    method Commit(path: string, ids: seq<string>, ghost blocks: seq<seq<byte>>, ghost base: seq<Call>)
      requires HoldsBlocks(container.StagedFor(path), ids, blocks)
      requires container.log == base + Staging(path, ids, blocks)
      modifies container
      ensures container.log == base + Staging(path, ids, blocks) + [Committed(path, ids)]
      ensures Distinct(ids) ==> container.objects == old(container.objects)[path := Concat(blocks)]
      ensures container.present == old(container.present)
    {
      ghost var before := container.StagedFor(path);
      var committed := container.CommitBlockList(path, ids);
      assert committed.Ok?;
      if Distinct(ids) {
        HoldsBlocksCommit(before, ids, blocks);
      }
    }

    /**
     * The read loop of `create`: fills `buffer` from offset `totalRead` until the
     * stream ends, staging the buffer each time it is full and starting over at
     * offset zero. On return the staged blocks followed by the first `totalRead`
     * bytes of the buffer are everything read.
     */
    method StageFullBlocks(path: string, data: InputStream, buffer: array<byte>)
      returns (r: Result<()>, ids: seq<string>, ghost blocks: seq<seq<byte>>, totalRead: nat)
      requires data.Valid() && buffer.Length == chunkSize > 0
      modifies container, data, buffer
      ensures data.Valid() && old(data.pos) <= data.pos && totalRead < chunkSize
      ensures StagedSoFar(path, ids, blocks, old(container.log))
      ensures container.objects == old(container.objects) && container.present == old(container.present)
      ensures data.NeverFails() ==> r.Ok?
      ensures r.Ok? ==> data.pos == |data.data| && old(data.Remaining()) == Concat(blocks) + buffer[..totalRead]
      ensures r.Err? ==> r.failure == RuntimeException && Concat(blocks) <= old(data.Remaining())
    {
      ghost var start := data.pos;
      ghost var input := data.Remaining();
      totalRead := 0;
      ids, blocks := [], [];
      while true
        invariant data.Valid() && start <= data.pos
        invariant 0 <= totalRead < chunkSize
        invariant data.data[start..data.pos] == Concat(blocks) + buffer[..totalRead]
        invariant StagedSoFar(path, ids, blocks, old(container.log))
        invariant container.objects == old(container.objects) && container.present == old(container.present)
        decreases |data.data| - data.pos
      {
        var more;
        more, ids, blocks, totalRead := ReadOnce(path, data, buffer, ids, blocks, totalRead, start, old(container.log));
        if more.Err? {
          r := Err(RuntimeException);
          return;
        }
        if !more.value {
          break;
        }
      }
      r := Ok(());
    }

    /**
     * One pass of the read loop: a read into the buffer from offset
     * `totalRead`, and when that fills the buffer, the staging of it and a
     * restart at offset zero. The answer says whether the stream went on;
     * at its end, or on a failure, nothing changes.
     */
    method ReadOnce(path: string, data: InputStream, buffer: array<byte>, ids: seq<string>, ghost blocks: seq<seq<byte>>,
                    totalRead: nat, ghost start: nat, ghost base: seq<Call>)
      returns (r: Result<bool>, ids': seq<string>, ghost blocks': seq<seq<byte>>, totalRead': nat)
      requires data.Valid() && start <= data.pos && totalRead < chunkSize == buffer.Length
      requires data.data[start..data.pos] == Concat(blocks) + buffer[..totalRead]
      requires StagedSoFar(path, ids, blocks, base)
      modifies container, data, buffer
      ensures data.Valid() && old(data.pos) <= data.pos && totalRead' < chunkSize
      ensures data.data[start..data.pos] == Concat(blocks') + buffer[..totalRead']
      ensures StagedSoFar(path, ids', blocks', base)
      ensures container.objects == old(container.objects) && container.present == old(container.present)
      ensures data.NeverFails() ==> r.Ok?
      ensures r == Ok(true) ==> old(data.pos) < data.pos
      ensures r != Ok(true) ==> data.pos == old(data.pos) && blocks' == blocks
      ensures r.Err? ==> Concat(blocks') <= data.data[start..]
      ensures r == Ok(false) ==> data.pos == |data.data| && data.data[start..] == Concat(blocks') + buffer[..totalRead']
    {
      ids', blocks', totalRead' := ids, blocks, totalRead;
      var bytesRead := FillBuffer(data, buffer, totalRead, start, Concat(blocks));
      if bytesRead.Err? {
        assert data.data[start..] == data.data[start..data.pos] + data.data[data.pos..];
        return Err(bytesRead.failure), ids', blocks', totalRead';
      }
      if bytesRead.value == -1 {
        assert data.data[start..] == data.data[start..data.pos];
        return Ok(false), ids', blocks', totalRead';
      }
      totalRead' := totalRead + bytesRead.value;
      if totalRead' == buffer.Length {
        ghost var consumed := data.data[start..data.pos];
        assert consumed == Concat(blocks) + buffer[..];
        ids', blocks' := StageFullBuffer(path, buffer, ids, blocks, base);
        totalRead' := 0;
        assert consumed == Concat(blocks') + buffer[..totalRead'];
      }
      r := Ok(true);
    }

    /**
     * One read of the loop: into the buffer from offset `totalRead`. What was
     * consumed since `start` stays the staged bytes followed by the buffered
     * ones; at the end of the stream nothing is read.
     */
    method FillBuffer(data: InputStream, buffer: array<byte>, totalRead: nat, ghost start: nat, ghost staged: seq<byte>)
      returns (r: Result<int>)
      requires data.Valid() && start <= data.pos && totalRead < buffer.Length
      requires data.data[start..data.pos] == staged + buffer[..totalRead]
      modifies data, buffer
      ensures data.Valid() && old(data.pos) <= data.pos
      ensures data.NeverFails() ==> r.Ok?
      ensures r.Err? ==> data.pos == old(data.pos) && buffer[..totalRead] == old(buffer[..totalRead])
      ensures r == Ok(-1) ==> data.pos == old(data.pos) == |data.data| && buffer[..totalRead] == old(buffer[..totalRead])
      ensures r.Ok? && r.value != -1 ==> (1 <= r.value <= buffer.Length - totalRead
        && data.data[start..data.pos] == staged + buffer[..totalRead + r.value])
    {
      ghost var was, wasBuffered := data.pos, buffer[..totalRead];
      r := data.Read(buffer, totalRead, buffer.Length - totalRead);
      if r.Ok? && r.value != -1 {
        ReadStep(data.data, start, was, data.pos, staged, wasBuffered, buffer[..totalRead + r.value]);
      }
    }

    /** Stages the whole of a full buffer as one more block. */
    method StageFullBuffer(path: string, buffer: array<byte>, ids: seq<string>, ghost blocks: seq<seq<byte>>, ghost base: seq<Call>)
      returns (ids': seq<string>, ghost blocks': seq<seq<byte>>)
      requires buffer.Length == chunkSize
      requires StagedSoFar(path, ids, blocks, base)
      modifies container
      ensures StagedSoFar(path, ids', blocks', base)
      ensures Concat(blocks') == Concat(blocks) + buffer[..]
      ensures container.objects == old(container.objects) && container.present == old(container.present)
    {
      ghost var held := container.StagedFor(path);
      ghost var block := buffer[..];
      assert buffer[..buffer.Length] == block;
      var id := UploadBlock(path, buffer.Length, buffer);
      ids', blocks' := ids + [id], blocks + [block];
      BlockAppended(ids, blocks, id, block, chunkSize);
      StagingAppend(path, ids, blocks, id, block);
      ConcatAppend(blocks, block);
      HoldsBlocksStage(held, ids, blocks, id, block);
      LogAppend(base, Staging(path, ids, blocks), Staged(path, id, |block|));
    }

    /** `uploadBlock`: stages `buffer[0..length)` under a fresh block id and returns the id. */
    method UploadBlock(path: string, length: nat, buffer: array<byte>) returns (id: string)
      requires length <= buffer.Length
      modifies container
      ensures BlockIds.IsBlockId(id)
      ensures container.staged == old(container.staged)[path := old(container.StagedFor(path))[id := buffer[..length]]]
      ensures container.log == old(container.log) + [Staged(path, id, length)]
      ensures container.objects == old(container.objects) && container.present == old(container.present)
    {
      id := BlockIds.CreateBase64BlockId();
      container.StageBlock(path, id, buffer[..length]);
    }

    /**
     * Filtered `listFiles(prefix, filter)`: the names of the unfiltered listing that
     * satisfy the filter, in listing order.
     */
    method ListFiles(contentPrefix: string, filter: string -> bool) returns (names: seq<string>, ghost listed: seq<string>)
      ensures names == Filter(listed, filter)
      ensures forall n :: n in listed <==> n in container.objects && StartsWith(n, contentPrefix)
      ensures forall n :: n in names <==> n in container.objects && StartsWith(n, contentPrefix) && filter(n)
    {
      var all := container.ListNames(contentPrefix);
      listed := all;
      names := Filter(all, filter);
      forall n ensures n in names <==> n in listed && filter(n) {
        FilterMembership(listed, filter, n);
      }
    }

    /** `createContainer`: creates the container only when it does not exist yet. */
    method CreateContainer() returns (r: Result<()>)
      modifies container
      ensures r.Ok? && container.present
      ensures container.objects == old(container.objects) && container.staged == old(container.staged)
      ensures old(container.present) ==> container.log == old(container.log)
    {
      var present := container.ContainerExists();
      if !present {
        var created := container.Create();
      }
      r := Ok(());
    }
  }

  /** Appending the bytes of one read to the buffer keeps "consumed = staged + buffered". */
  lemma ReadStep(data: seq<byte>, start: nat, was: nat, now: nat, staged: seq<byte>, buffered: seq<byte>, buffer: seq<byte>)
    requires start <= was <= now <= |data|
    requires data[start..was] == staged + buffered
    requires |buffer| == |buffered| + (now - was)
    requires buffer[..|buffered|] == buffered && buffer[|buffered|..] == data[was..now]
    ensures data[start..now] == staged + buffer
  {
    assert data[start..now] == data[start..was] + data[was..now];
    assert buffer == buffer[..|buffered|] + buffer[|buffered|..];
  }

  /** One more full block under one more block id keeps every id a block id and every block full. */
  lemma BlockAppended(ids: seq<string>, blocks: seq<seq<byte>>, id: string, block: seq<byte>, c: int)
    requires |ids| == |blocks| && forall i :: 0 <= i < |ids| ==> BlockIds.IsBlockId(ids[i])
    requires forall i :: 0 <= i < |blocks| ==> |blocks[i]| == c
    requires BlockIds.IsBlockId(id) && |block| == c
    ensures |ids + [id]| == |blocks + [block]| && forall i :: 0 <= i < |ids + [id]| ==> BlockIds.IsBlockId((ids + [id])[i])
    ensures forall i :: 0 <= i < |blocks + [block]| ==> |(blocks + [block])[i]| == c
  {
  }
}
