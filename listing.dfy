/**
 * The blob ids the store lists from the keys its client returns:
 * `getBlobIdStream` takes every attribute key under the content prefix to an
 * id (its file name without the suffix, or, inside the direct-path root, the
 * id the attributes stored there resolve to), and `getDirectPathBlobIdStream`
 * resolves every attribute key under the direct-path prefix through the
 * headers cut out of it. Each stream is modelled as a whole sequence: the
 * first key that is refused makes the whole listing fail.
 */
module Listing {
  import opened Util
  import opened KeyLayout
  import opened BlobAttributes

  /**
   * Whether `getBlobIdFromAttributeFilePath` resolves an attribute key through
   * the attributes stored there rather than through its file name: its path
   * holds the direct-path root.
   */
  predicate ResolvedByHeaders(key: string)
  {
    Contains(key, DirectPathRoot)
  }

  /**
   * The id `getBlobIdFromAttributeFilePath` gives one listed attribute key.
   * Outside the direct-path root it is the file name without the suffix.
   * Inside, it is the id `fromHeaders` gives the headers loaded from the key
   * (none when nothing is stored there); attributes that do not load give no
   * id, and the `BlobId` built from it is refused as null.
   */
  function IdOfAttributeKey(objects: map<string, seq<byte>>, key: string, fromHeaders: map<string, string> -> string)
    : (r: Result<string>)
    requires EndsWith(key, BlobAttributeSuffix)
    ensures r.Err? <==> ResolvedByHeaders(key) && AttributesAt(objects, key).Err?
    ensures r.Err? ==> r.failure == NullPointer
  {
    if !ResolvedByHeaders(key) then Ok(BlobIdOfAttributeKey(key))
    else match AttributesAt(objects, key)
      case Err(_) => Err(NullPointer)
      case Ok(None) => Ok(fromHeaders(map[]))
      case Ok(Some(a)) => Ok(fromHeaders(a.headers))
  }

  /** Whether `key` is an attribute key whose id cannot be resolved. */
  predicate Unresolved(objects: map<string, seq<byte>>, key: string, fromHeaders: map<string, string> -> string)
  {
    EndsWith(key, BlobAttributeSuffix) && IdOfAttributeKey(objects, key, fromHeaders).Err?
  }

  /** Whether `key` is an attribute key that resolves to `id`. */
  predicate NamesId(objects: map<string, seq<byte>>, key: string, fromHeaders: map<string, string> -> string, id: string)
  {
    EndsWith(key, BlobAttributeSuffix) && IdOfAttributeKey(objects, key, fromHeaders) == Ok(id)
  }

  /**
   * The ids of the attribute keys among `keys`, in their order; the listing
   * fails as soon as one of them cannot be resolved.
   */
  function AttributeIds(objects: map<string, seq<byte>>, keys: seq<string>, fromHeaders: map<string, string> -> string)
    : (r: Result<seq<string>>)
    ensures r.Err? ==> r.failure == NullPointer
    ensures r.Ok? ==> |r.value| <= |keys|
  {
    if keys == [] then Ok([])
    else
      var last := keys[|keys| - 1];
      match AttributeIds(objects, keys[..|keys| - 1], fromHeaders)
      case Err(f) => Err(f)
      case Ok(ids) =>
        if !EndsWith(last, BlobAttributeSuffix) then Ok(ids)
        else match IdOfAttributeKey(objects, last, fromHeaders)
          case Err(f) => Err(f)
          case Ok(id) => Ok(ids + [id])
  }

  /**
   * The listing fails exactly when some attribute key among `keys` cannot be
   * resolved; otherwise an id is listed exactly when some attribute key
   * among `keys` resolves to it.
   */
  lemma {:induction false} AttributeIdsMembership(objects: map<string, seq<byte>>, keys: seq<string>,
                                                  fromHeaders: map<string, string> -> string)
    ensures AttributeIds(objects, keys, fromHeaders).Err? <==> exists k :: k in keys && Unresolved(objects, k, fromHeaders)
    ensures AttributeIds(objects, keys, fromHeaders).Ok? ==> forall id ::
      id in AttributeIds(objects, keys, fromHeaders).value <==> exists k :: k in keys && NamesId(objects, k, fromHeaders, id)
  {
    if keys != [] {
      var init := keys[..|keys| - 1];
      var last := keys[|keys| - 1];
      AttributeIdsMembership(objects, init, fromHeaders);
      assert keys == init + [last];
      assert forall k :: k in keys <==> k in init || k == last;
      var r := AttributeIds(objects, keys, fromHeaders);
      if AttributeIds(objects, init, fromHeaders).Err? {
        var k :| k in init && Unresolved(objects, k, fromHeaders);
        assert k in keys;
      } else if !EndsWith(last, BlobAttributeSuffix) {
        assert !Unresolved(objects, last, fromHeaders);
      } else if r.Err? {
        assert Unresolved(objects, last, fromHeaders);
      } else {
        var ids := AttributeIds(objects, init, fromHeaders).value;
        assert r.value == ids + [IdOfAttributeKey(objects, last, fromHeaders).value];
        assert NamesId(objects, last, fromHeaders, IdOfAttributeKey(objects, last, fromHeaders).value);
      }
    }
  }

  /**
   * A direct-path blob's attribute key lies inside the direct-path root, so
   * the engine's listing gives it the id its stored headers resolve to, not
   * its file name.
   */
  lemma DirectPathListedByHeaders(objects: map<string, seq<byte>>, name: string,
                                  fromHeaders: map<string, string> -> string, a: Attributes)
    requires AttributesAt(objects, DirectPathAttributeKey(name)) == Ok(Some(a))
    ensures EndsWith(DirectPathAttributeKey(name), BlobAttributeSuffix)
    ensures IdOfAttributeKey(objects, DirectPathAttributeKey(name), fromHeaders) == Ok(fromHeaders(a.headers))
  {
    var k := DirectPathAttributeKey(name);
    DirectPathKeyShape(name);
    assert k[|ContentPrefix| + 1..][..|DirectPathRoot|] == DirectPathRoot;
    ContainsAt(k, |ContentPrefix| + 1, DirectPathRoot);
  }

  /**
   * The ids of the direct-path attribute keys among `keys`, in their order,
   * each the id `fromHeaders` gives the headers cut out of the key. Keys
   * without the attribute suffix are passed over; an attribute key outside
   * the direct-path root is refused.
   */
  function DirectPathIds(keys: seq<string>, fromHeaders: map<string, string> -> string): (r: Result<seq<string>>)
    ensures r.Err? ==> r.failure == IllegalArgument
  {
    if keys == [] then Ok([])
    else if !EndsWith(keys[0], BlobAttributeSuffix) then DirectPathIds(keys[1..], fromHeaders)
    else match AttributePathToDirectPathBlobId(keys[0])
      case Err(f) => Err(f)
      case Ok(headers) =>
        match DirectPathIds(keys[1..], fromHeaders)
        case Err(f) => Err(f)
        case Ok(rest) => Ok([fromHeaders(headers)] + rest)
  }

  /** Whether `k` is an attribute key that is not under the direct-path root and a slash. */
  predicate Misplaced(k: string)
  {
    EndsWith(k, BlobAttributeSuffix) && !StartsWith(k, DirectPathPrefix + "/")
  }

  /** The key of a direct-path blob is under the direct-path prefix and ends with the attribute suffix. */
  lemma DirectPathKeyShape(name: string)
    ensures StartsWith(DirectPathAttributeKey(name), DirectPathPrefix + "/")
    ensures StartsWith(DirectPathAttributeKey(name), DirectPathPrefix)
    ensures EndsWith(DirectPathAttributeKey(name), BlobAttributeSuffix)
  {
    var k := DirectPathAttributeKey(name);
    assert k == (DirectPathPrefix + "/") + name + BlobAttributeSuffix;
    assert k[..|DirectPathPrefix| + 1] == DirectPathPrefix + "/";
    assert k[..|DirectPathPrefix|] == DirectPathPrefix;
  }

  /**
   * The direct-path listing fails exactly when some attribute key is
   * misplaced; otherwise it lists the id of every direct-path blob among the
   * keys, and nothing else.
   */
  lemma {:induction false} DirectPathIdsSpec(keys: seq<string>, fromHeaders: map<string, string> -> string)
    ensures DirectPathIds(keys, fromHeaders).Err? <==> exists k :: k in keys && Misplaced(k)
    ensures DirectPathIds(keys, fromHeaders).Ok? ==>
      forall name :: DirectPathAttributeKey(name) in keys ==> fromHeaders(DirectPathHeaders(name)) in DirectPathIds(keys, fromHeaders).value
    ensures DirectPathIds(keys, fromHeaders).Ok? ==>
      forall id :: id in DirectPathIds(keys, fromHeaders).value ==>
        exists name :: DirectPathAttributeKey(name) in keys && id == fromHeaders(DirectPathHeaders(name))
  {
    if keys != [] {
      DirectPathIdsSpec(keys[1..], fromHeaders);
      assert keys == [keys[0]] + keys[1..];
      var k := keys[0];
      var r := DirectPathIds(keys, fromHeaders);
      if !Misplaced(k) {
        assert (exists k' :: k' in keys && Misplaced(k')) <==> (exists k' :: k' in keys[1..] && Misplaced(k'));
      }
      if r.Ok? {
        forall name | DirectPathAttributeKey(name) in keys
          ensures fromHeaders(DirectPathHeaders(name)) in r.value
        {
          if DirectPathAttributeKey(name) == k {
            DirectPathKeyShape(name);
            DirectPathRoundTrip(name);
          }
        }
        forall id | id in r.value
          ensures exists name :: DirectPathAttributeKey(name) in keys && id == fromHeaders(DirectPathHeaders(name))
        {
          if EndsWith(k, BlobAttributeSuffix) && id == r.value[0] {
            var headers := AttributePathToDirectPathBlobId(k).value;
            var name := headers[BlobNameHeader];
            assert DirectPathAttributeKey(name) == k;
          }
        }
      }
    }
  }
}
