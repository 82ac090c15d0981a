/**
 * The abstract object store that every client of the blob store talks to: one
 * container holding committed objects (key to bytes), the blocks staged for each
 * key but not yet committed, and a log of the calls that change it, so that the
 * order in which a caller writes and deletes can be stated.
 *
 * Deleting, reading or copying a key that holds no object fails, as the service
 * answers such a request with status 404 and the SDKs turn that into an
 * unchecked exception.
 */
module ObjectStore {
  import opened Util

  /** A call that changes the container, as it appears in the log. */
  datatype Call =
    | Staged(key: string, blockId: string, length: nat)
    | Committed(key: string, blockIds: seq<string>)
    | Written(key: string)
    | Deleted(key: string)
    | Copied(source: string, destination: string)
    | ContainerCreated
    | ContainerDeleted

  /** The log entries for staging `blocks` under `ids` for `key`, one entry per block, in order. */
  function Staging(key: string, ids: seq<string>, blocks: seq<seq<byte>>): (r: seq<Call>)
    requires |ids| == |blocks|
    ensures |r| == |ids|
  {
    if ids == [] then []
    else Staging(key, ids[..|ids| - 1], blocks[..|blocks| - 1]) + [Staged(key, ids[|ids| - 1], |blocks[|blocks| - 1]|)]
  }

  /** Staging one more block appends one entry. */
  lemma StagingAppend(key: string, ids: seq<string>, blocks: seq<seq<byte>>, id: string, block: seq<byte>)
    requires |ids| == |blocks|
    ensures Staging(key, ids + [id], blocks + [block]) == Staging(key, ids, blocks) + [Staged(key, id, |block|)]
  {
    assert (ids + [id])[..|ids|] == ids;
    assert (blocks + [block])[..|blocks|] == blocks;
  }

  /** Appending to a log extended by a run of entries extends the run. */
  lemma LogAppend(log: seq<Call>, run: seq<Call>, entry: Call)
    ensures log + run + [entry] == log + (run + [entry])
  {
  }

  /** The `i`-th entry stages the `i`-th block under the `i`-th id. */
  lemma {:induction false} StagingAt(key: string, ids: seq<string>, blocks: seq<seq<byte>>, i: nat)
    requires |ids| == |blocks| && i < |ids|
    ensures Staging(key, ids, blocks)[i] == Staged(key, ids[i], |blocks[i]|)
    decreases |ids|
  {
    if i < |ids| - 1 {
      StagingAt(key, ids[..|ids| - 1], blocks[..|blocks| - 1], i);
    }
  }

  /** The blocks that `ids` name in `blocks`, in the order of `ids`. */
  function BlocksOf(blocks: map<string, seq<byte>>, ids: seq<string>): (r: seq<seq<byte>>)
    requires forall i :: 0 <= i < |ids| ==> ids[i] in blocks
    ensures |r| == |ids|
    ensures forall i :: 0 <= i < |ids| ==> r[i] == blocks[ids[i]]
  {
    if ids == [] then [] else [blocks[ids[0]]] + BlocksOf(blocks, ids[1..])
  }

  /**
   * `blocks` holds every id of `ids`; when the ids are pairwise distinct, each
   * one holds the block staged with it.
   */
  predicate HoldsBlocks(blocks: map<string, seq<byte>>, ids: seq<string>, staged: seq<seq<byte>>)
  {
    |ids| == |staged|
    && (forall i :: 0 <= i < |ids| ==> ids[i] in blocks)
    && (Distinct(ids) ==> forall i :: 0 <= i < |ids| ==> blocks[ids[i]] == staged[i])
  }

  /** Staging one more block under one more id keeps the ids and their blocks held. */
  lemma HoldsBlocksStage(blocks: map<string, seq<byte>>, ids: seq<string>, staged: seq<seq<byte>>, id: string, block: seq<byte>)
    requires HoldsBlocks(blocks, ids, staged)
    ensures HoldsBlocks(blocks[id := block], ids + [id], staged + [block])
  {
    DistinctAppend(ids, id);
    var ids', staged' := ids + [id], staged + [block];
    forall i | 0 <= i < |ids'| ensures ids'[i] in blocks[id := block] {
      if i < |ids| {
        assert ids'[i] == ids[i];
      }
    }
    if Distinct(ids') {
      forall i | 0 <= i < |ids'| ensures blocks[id := block][ids'[i]] == staged'[i] {
        if i < |ids| {
          assert ids'[i] == ids[i] != id;
        }
      }
    }
  }

  /** Committing ids that are held, and distinct, gives back the staged blocks in order. */
  lemma HoldsBlocksCommit(blocks: map<string, seq<byte>>, ids: seq<string>, staged: seq<seq<byte>>)
    requires HoldsBlocks(blocks, ids, staged) && Distinct(ids)
    ensures BlocksOf(blocks, ids) == staged
  {
  }

  /** A container of the object store. */
  class Container {
    /** Whether the container itself exists. */
    var present: bool
    /** Committed objects by key. */
    var objects: map<string, seq<byte>>
    /** Uncommitted blocks, by object key and then by block id. */
    var staged: map<string, map<string, seq<byte>>>
    /** Every call that changed the container, oldest first. */
    var log: seq<Call>

    constructor ()
      ensures present && objects == map[] && staged == map[] && log == []
    {
      present := true;
      objects := map[];
      staged := map[];
      log := [];
    }

    /** The blocks staged for `key` and not yet committed. */
    function StagedFor(key: string): map<string, seq<byte>>
      reads this
    {
      if key in staged then staged[key] else map[]
    }

    /** Stages `block` for `key` under `id`; a block staged earlier under the same id is replaced. */
    method StageBlock(key: string, id: string, block: seq<byte>)
      modifies this
      ensures staged == old(staged)[key := old(StagedFor(key))[id := block]]
      ensures objects == old(objects) && present == old(present)
      ensures log == old(log) + [Staged(key, id, |block|)]
    {
      staged := staged[key := StagedFor(key)[id := block]];
      log := log + [Staged(key, id, |block|)];
    }

    /**
     * Commits the block list `ids` for `key`: the object becomes the named blocks
     * concatenated in list order, replacing any object at `key`, and the blocks
     * staged for `key` are discarded. A list naming a block that was never staged
     * is refused.
     */
    method CommitBlockList(key: string, ids: seq<string>) returns (r: Result<()>)
      modifies this
      ensures r.Ok? <==> forall i :: 0 <= i < |ids| ==> ids[i] in old(StagedFor(key))
      ensures r.Ok? ==> (objects == old(objects)[key := Concat(BlocksOf(old(StagedFor(key)), ids))]
        && staged == old(staged) - {key} && log == old(log) + [Committed(key, ids)])
      ensures r.Err? ==> (r.failure == RuntimeException && objects == old(objects)
        && staged == old(staged) && log == old(log))
      ensures present == old(present)
    {
      var blocks := StagedFor(key);
      if forall i :: 0 <= i < |ids| ==> ids[i] in blocks {
        objects := objects[key := Concat(BlocksOf(blocks, ids))];
        staged := staged - {key};
        log := log + [Committed(key, ids)];
        r := Ok(());
      } else {
        r := Err(RuntimeException);
      }
    }

    /** Writes `content` at `key` in one request, replacing any object there. */
    method Put(key: string, content: seq<byte>)
      modifies this
      ensures objects == old(objects)[key := content]
      ensures staged == old(staged) && present == old(present) && log == old(log) + [Written(key)]
    {
      objects := objects[key := content];
      log := log + [Written(key)];
    }

    /** Reads the object at `key`; fails when there is none. */
    method Get(key: string) returns (r: Result<seq<byte>>)
      ensures key in objects ==> r == Ok(objects[key])
      ensures key !in objects ==> r == Err(RuntimeException)
    {
      if key in objects {
        r := Ok(objects[key]);
      } else {
        r := Err(RuntimeException);
      }
    }

    /** Whether an object is committed at `key`. */
    method Exists(key: string) returns (b: bool)
      ensures b <==> key in objects
    {
      b := key in objects;
    }

    /** Deletes the object at `key`; fails, changing nothing, when there is none. */
    method Delete(key: string) returns (r: Result<()>)
      modifies this
      ensures r.Ok? <==> key in old(objects)
      ensures r.Ok? ==> objects == old(objects) - {key} && log == old(log) + [Deleted(key)]
      ensures r.Err? ==> r.failure == RuntimeException && objects == old(objects) && log == old(log)
      ensures staged == old(staged) && present == old(present)
    {
      if key in objects {
        objects := objects - {key};
        log := log + [Deleted(key)];
        r := Ok(());
      } else {
        r := Err(RuntimeException);
      }
    }

    /** Copies the object at `source` to `destination`; fails when `source` holds nothing. */
    method Copy(source: string, destination: string) returns (r: Result<()>)
      modifies this
      ensures r.Ok? <==> source in old(objects)
      ensures r.Ok? ==> (objects == old(objects)[destination := old(objects)[source]]
        && log == old(log) + [Copied(source, destination)])
      ensures r.Err? ==> r.failure == RuntimeException && objects == old(objects) && log == old(log)
      ensures staged == old(staged) && present == old(present)
    {
      if source in objects {
        objects := objects[destination := objects[source]];
        log := log + [Copied(source, destination)];
        r := Ok(());
      } else {
        r := Err(RuntimeException);
      }
    }

    /**
     * The keys starting with `prefix`, each once. The service lists them in an
     * order of its own, which the model leaves open.
     */
    method ListNames(prefix: string) returns (names: seq<string>)
      ensures Distinct(names)
      ensures forall n :: n in names <==> n in objects && StartsWith(n, prefix)
    {
      names := [];
      var left := set k | k in objects && StartsWith(k, prefix);
      while left != {}
        invariant Distinct(names)
        invariant forall n :: n in names ==> n in objects && StartsWith(n, prefix) && n !in left
        invariant forall k :: k in objects && StartsWith(k, prefix) ==> k in names || k in left
        invariant forall k :: k in left ==> k in objects && StartsWith(k, prefix)
        decreases left
      {
        var k :| k in left;
        names := names + [k];
        left := left - {k};
      }
    }

    /** Whether the container exists. */
    method ContainerExists() returns (b: bool)
      ensures b == present
    {
      b := present;
    }

    /** Creates the container; fails when it already exists. */
    method Create() returns (r: Result<()>)
      modifies this
      ensures r.Ok? <==> !old(present)
      ensures present && objects == old(objects) && staged == old(staged)
      ensures log == if r.Ok? then old(log) + [ContainerCreated] else old(log)
      ensures r.Err? ==> r.failure == RuntimeException
    {
      if present {
        r := Err(RuntimeException);
      } else {
        present := true;
        log := log + [ContainerCreated];
        r := Ok(());
      }
    }

    /** Deletes the container with everything in it; fails when it does not exist. */
    method DeleteItself() returns (r: Result<()>)
      modifies this
      ensures r.Ok? <==> old(present)
      ensures r.Ok? ==> !present && objects == map[] && staged == map[] && log == old(log) + [ContainerDeleted]
      ensures r.Err? ==> (r.failure == RuntimeException && !present && objects == old(objects)
        && staged == old(staged) && log == old(log))
    {
      if present {
        present := false;
        objects := map[];
        staged := map[];
        log := log + [ContainerDeleted];
        r := Ok(());
      } else {
        r := Err(RuntimeException);
      }
    }
  }
}
