/**
 * Where the blob store keeps things in its container. A blob whose id the
 * location resolver places at `loc` keeps its bytes at `content/<loc>.bytes`
 * and its attributes at `content/<loc>.properties`; the store's own type tag
 * lives at `metadata.properties`. A direct-path blob, one addressed by a name
 * its caller chose, sits under `content/directpath/`.
 */
module KeyLayout {
  import opened Util

  const ContentPrefix: string := "content"
  const BlobContentSuffix: string := ".bytes"
  const BlobAttributeSuffix: string := ".properties"
  const MetadataFilename: string := "metadata.properties"
  const TypeKey: string := "type"
  const TypeV1: string := "azure/1"

  /** The location strategy's root for direct-path blobs. */
  const DirectPathRoot: string := "directpath"
  const DirectPathPrefix: string := ContentPrefix + "/" + DirectPathRoot

  /** The header carrying a blob's name. */
  const BlobNameHeader: string := "BlobStore.blob-name"
  /** The header marking a direct-path blob. */
  const DirectPathBlobHeader: string := "BlobStore.direct-path"

  /** `getLocation`: the resolver's location for an id, under the content prefix. */
  function Location(loc: string): (r: string)
    ensures |r| == |loc| + 8 && StartsWith(r, "content/") && r[8..] == loc
  {
    ContentPrefix + "/" + loc
  }

  /** `contentPath`: where a blob's bytes are kept. */
  function ContentPath(loc: string): (k: string)
    ensures |k| == |loc| + 14 && StartsWith(k, "content/") && EndsWith(k, ".bytes")
    ensures k[8..|k| - 6] == loc
  {
    Location(loc) + BlobContentSuffix
  }

  /** `attributePath`: where a blob's attributes are kept. */
  function AttributePath(loc: string): (k: string)
    ensures |k| == |loc| + 19 && StartsWith(k, "content/") && EndsWith(k, ".properties")
    ensures k[8..|k| - 11] == loc
  {
    Location(loc) + BlobAttributeSuffix
  }

  /** A blob's two keys share the location and differ only in their suffix. */
  lemma KeysDifferOnlyInSuffix(loc: string)
    ensures ContentPath(loc) == Location(loc) + ".bytes"
    ensures AttributePath(loc) == Location(loc) + ".properties"
    ensures ContentPath(loc) != AttributePath(loc)
  {
    ContentNeverAttribute(loc, loc);
  }

  /** No key is both a content key and an attribute key, whatever the two locations. */
  lemma ContentNeverAttribute(loc: string, loc': string)
    ensures ContentPath(loc) != AttributePath(loc')
  {
    var c, a := ContentPath(loc), AttributePath(loc');
    assert c[|c| - 6] == '.';
    assert a[|a| - 6] == 'e';
  }

  /** Different locations give different keys of each kind. */
  lemma KeysInjective(loc: string, loc': string)
    ensures ContentPath(loc) == ContentPath(loc') ==> loc == loc'
    ensures AttributePath(loc) == AttributePath(loc') ==> loc == loc'
  {
  }

  /** A blob's keys are never the metadata key, and never empty. */
  lemma BlobKeysAvoidMetadata(loc: string)
    ensures ContentPath(loc) != MetadataFilename && AttributePath(loc) != MetadataFilename
    ensures ContentPath(loc) != "" && AttributePath(loc) != ""
  {
    assert MetadataFilename[0] == 'm';
    assert ContentPath(loc)[0] == 'c' && AttributePath(loc)[0] == 'c';
  }

  /** The headers a direct-path blob named `name` is resolved from. */
  function DirectPathHeaders(name: string): (h: map<string, string>)
    ensures h.Keys == {BlobNameHeader, DirectPathBlobHeader}
    ensures h[BlobNameHeader] == name && h[DirectPathBlobHeader] == "true"
  {
    map[BlobNameHeader := name, DirectPathBlobHeader := "true"]
  }

  /** The attribute key of the direct-path blob named `name`. */
  function DirectPathAttributeKey(name: string): (k: string)
    ensures k == AttributePath(DirectPathRoot + "/" + name)
  {
    DirectPathPrefix + "/" + name + BlobAttributeSuffix
  }

  /**
   * A key that starts with the direct-path prefix and a slash and ends with the
   * attribute suffix is long enough for both: the prefix ends with a slash and
   * the suffix holds none, so the two cannot overlap.
   */
  lemma DirectPathKeyLength(key: string)
    requires StartsWith(key, DirectPathPrefix + "/") && EndsWith(key, BlobAttributeSuffix)
    ensures |key| >= 30
  {
    assert key[18] == '/';
  }

  /**
   * `attributePathToDirectPathBlobId`: the headers the resolver builds the id
   * from, with the name cut out of the key; a key outside the direct-path
   * attribute keys is refused as an illegal argument.
   */
  function AttributePathToDirectPathBlobId(key: string): (r: Result<map<string, string>>)
    ensures r.Ok? <==> StartsWith(key, DirectPathPrefix + "/") && EndsWith(key, BlobAttributeSuffix)
    ensures r.Err? ==> r.failure == IllegalArgument
    ensures r.Ok? ==> (BlobNameHeader in r.value
      && r.value == DirectPathHeaders(r.value[BlobNameHeader])
      && DirectPathAttributeKey(r.value[BlobNameHeader]) == key)
  {
    if !StartsWith(key, DirectPathPrefix + "/") then Err(IllegalArgument)
    else if !EndsWith(key, BlobAttributeSuffix) then Err(IllegalArgument)
    else
      DirectPathKeyLength(key);
      var name := key[|DirectPathPrefix| + 1..|key| - |BlobAttributeSuffix|];
      CutName(key);
      Ok(DirectPathHeaders(name))
  }

  /** The name cut out of a direct-path attribute key gives that key back. */
  lemma CutName(key: string)
    requires StartsWith(key, DirectPathPrefix + "/") && EndsWith(key, BlobAttributeSuffix) && |key| >= 30
    ensures DirectPathAttributeKey(key[19..|key| - 11]) == key
  {
    ThreeParts(key, 19, |key| - 11);
    assert key[..19] == DirectPathPrefix + "/";
    assert key[|key| - 11..] == BlobAttributeSuffix;
  }

  /** A string is its head, its middle and its tail. */
  lemma ThreeParts(s: string, i: nat, j: nat)
    requires i <= j <= |s|
    ensures s == s[..i] + s[i..j] + s[j..]
  {
  }

  /** The attribute key of a direct-path blob decodes back to that blob's headers. */
  lemma DirectPathRoundTrip(name: string)
    ensures AttributePathToDirectPathBlobId(DirectPathAttributeKey(name)) == Ok(DirectPathHeaders(name))
  {
    var key := DirectPathAttributeKey(name);
    assert StartsWith(key, DirectPathPrefix + "/");
    var r := AttributePathToDirectPathBlobId(key);
    var n := r.value[BlobNameHeader];
    assert DirectPathAttributeKey(n) == key;
    assert n == key[19..|key| - 11] == name;
  }

  /** `String.lastIndexOf(c)`: the last index holding `c`, or -1. */
  function LastIndexOf(s: string, c: char): (i: int)
    ensures -1 <= i < |s|
    ensures i >= 0 ==> s[i] == c
    ensures forall j :: i < j < |s| ==> s[j] != c
  {
    if s == [] then -1
    else if s[|s| - 1] == c then |s| - 1
    else LastIndexOf(s[..|s| - 1], c)
  }

  /**
   * `AzureAttributesLocation.getFileName`: the part of the key after its last
   * slash, the whole key when it has none.
   */
  function FileName(key: string): (n: string)
    ensures EndsWith(key, n) && forall j :: 0 <= j < |n| ==> n[j] != '/'
    ensures |n| < |key| ==> key[|key| - |n| - 1] == '/'
  {
    key[LastIndexOf(key, '/') + 1..]
  }

  /** A key ending with a suffix that holds no slash has a file name ending with that suffix. */
  lemma FileNameKeepsSuffix(key: string, suffix: string)
    requires EndsWith(key, suffix) && forall j :: 0 <= j < |suffix| ==> suffix[j] != '/'
    ensures EndsWith(FileName(key), suffix)
  {
    var start := |key| - |suffix|;
    forall j | start <= j < |key| ensures key[j] != '/' {
      assert key[j] == key[start..][j - start] == suffix[j - start];
    }
    assert LastIndexOf(key, '/') < start;
  }

  /**
   * The id `getBlobIdFromAttributeFilePath` gives an attribute key outside the
   * direct-path root: the key's file name without the attribute suffix.
   */
  function BlobIdOfAttributeKey(key: string): (id: string)
    requires EndsWith(key, BlobAttributeSuffix)
    ensures id + BlobAttributeSuffix == FileName(key)
    ensures forall j :: 0 <= j < |id| ==> id[j] != '/'
  {
    var n := FileName(key);
    assert EndsWith(n, BlobAttributeSuffix) by {
      FileNameKeepsSuffix(key, BlobAttributeSuffix);
    }
    assert n[..|n| - 11] + BlobAttributeSuffix == n;
    n[..|n| - |BlobAttributeSuffix|]
  }

  /**
   * A blob whose location ends in a segment naming its id is listed under that
   * id: the id is recovered from the attribute key.
   */
  lemma BlobIdOfAttributePath(dir: string, id: string)
    requires forall j :: 0 <= j < |id| ==> id[j] != '/'
    ensures BlobIdOfAttributeKey(AttributePath(dir + "/" + id)) == id
  {
    var key := AttributePath(dir + "/" + id);
    var slash := |key| - |id| - 12;
    assert key[slash] == '/';
    forall j | slash < j < |key| ensures key[j] != '/' {
      if j < |key| - 11 {
        assert key[j] == id[j - slash - 1];
      } else {
        assert key[j] == BlobAttributeSuffix[j - (|key| - 11)];
      }
    }
    assert LastIndexOf(key, '/') == slash;
    assert FileName(key) == id + BlobAttributeSuffix;
  }
}
