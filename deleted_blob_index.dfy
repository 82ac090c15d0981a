/**
 * `OrientDeletedBlobIndex`: the soft-deleted blob ids, kept as records of one
 * string each, the id's unique string form, in a database class whose unique
 * hash index on that string makes the records a set. The class is registered
 * when the index starts; every other operation comes after that.
 */
module DeletedBlobIndex {
  import opened Util

  class OrientDeletedBlobIndex {
    /** Whether the entity class and its index are registered. */
    var registered: bool
    /** The unique strings of the recorded ids. */
    var ids: set<string>

    constructor ()
      ensures !registered && ids == {}
    {
      registered := false;
      ids := {};
    }

    /** `doStart`: registers the entity class with its unique index; the records are untouched. */
    method DoStart()
      modifies this
      ensures registered && ids == old(ids)
    {
      registered := true;
    }

    /**
     * `add(blobId)`: records the id's string. The unique index refuses a second
     * record with the same string, leaving the index as it was.
     */
    method Add(blobId: string) returns (r: Result<()>)
      requires registered
      modifies this
      ensures registered && blobId in ids
      ensures r.Ok? <==> blobId !in old(ids)
      ensures ids == old(ids) + {blobId}
      ensures r.Err? ==> r.failure == RuntimeException
    {
      if blobId in ids {
        return Err(RuntimeException);
      }
      ids := ids + {blobId};
      r := Ok(());
    }

    /** `remove(blobId)`: deletes the record holding the id's string, if there is one; every other id stays. */
    method Remove(blobId: string)
      requires registered
      modifies this
      ensures registered && blobId !in ids
      ensures ids == old(ids) - {blobId}
    {
      ids := ids - {blobId};
    }

    /** `browse`: one id per record, rebuilt from its string, in the order the database gives. */
    method Browse() returns (found: seq<string>)
      requires registered
      ensures Distinct(found)
      ensures forall id :: id in found <==> id in ids
    {
      found := [];
      var left := ids;
      while left != {}
        invariant Distinct(found)
        invariant left <= ids
        invariant forall id :: id in found <==> id in ids && id !in left
        decreases left
      {
        var id :| id in left;
        DistinctAppend(found, id);
        found := found + [id];
        left := left - {id};
      }
    }
  }
}
