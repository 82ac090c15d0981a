/**
 * `AzurePropertiesFile`: a property map bound to one key of the object store.
 * `load` reads the object at the key and adds its entries to the map, `store`
 * writes the map's bytes to the key in one upload, and `exists` and `remove`
 * ask about and delete that one key.
 */
module PropertiesFile {
  import opened Util
  import opened ObjectStore
  import opened PropertiesCodec

  /** The text of `toString`: the class's simple name followed by the key in braces. */
  function Describe(key: string): (r: string)
    ensures StartsWith(r, "AzurePropertiesFile{key=") && EndsWith(r, "}")
    ensures |r| == |key| + 25 && r[24..|r| - 1] == key
  {
    "AzurePropertiesFile{key=" + key + "}"
  }

  /** Files with different keys describe themselves differently. */
  lemma DescribeInjective(key: string, key': string)
    ensures Describe(key) == Describe(key') ==> key == key'
  {
    if Describe(key) == Describe(key') {
      assert key == Describe(key)[24..|Describe(key)| - 1];
    }
  }

  class AzurePropertiesFile {
    /** The object store, standing for the client. */
    const client: Container
    const key: string
    /** The entries of the map. */
    var props: map<string, string>

    /** A file bound to `key`, with no entries yet. */
    constructor (client: Container, key: string)
      ensures this.client == client && this.key == key && props == map[]
    {
      this.client := client;
      this.key := key;
      props := map[];
    }

    /**
     * `load()`: reads the object at the key and adds its entries to the map, each
     * replacing an entry already there with the same key. A missing object fails
     * as the client's read does, and bytes that are not a property listing are
     * refused; either way the map is left as it was.
     */
    method Load() returns (r: Result<()>)
      modifies this
      ensures key !in client.objects ==> r == Err(RuntimeException) && props == old(props)
      ensures key in client.objects && DecodeProperties(client.objects[key]).None? ==>
        r == Err(IllegalArgument) && props == old(props)
      ensures key in client.objects && DecodeProperties(client.objects[key]).Some? ==>
        r.Ok? && props == old(props) + DecodeProperties(client.objects[key]).value
    {
      var content := client.Get(key);
      if content.Err? {
        return Err(content.failure);
      }
      var loaded := DecodeProperties(content.value);
      if loaded.None? {
        return Err(IllegalArgument);
      }
      props := props + loaded.value;
      r := Ok(());
    }

    /**
     * `store()`: writes the map's bytes to the key with one upload, replacing
     * what was there; loading those bytes gives back exactly this map.
     */
    method Store()
      modifies client
      ensures key in client.objects && DecodeProperties(client.objects[key]) == Some(props)
      ensures client.objects == old(client.objects)[key := client.objects[key]]
      ensures client.log == old(client.log) + [Written(key)]
      ensures client.staged == old(client.staged) && client.present == old(client.present)
    {
      var bytes := Serialize(props);
      client.Put(key, bytes);
    }

    /** `exists()`: whether the client holds an object at the key. */
    method Exists() returns (b: bool)
      ensures b <==> key in client.objects
    {
      b := client.Exists(key);
    }

    /** `remove()`: deletes the object at the key and nothing else; fails when there is none. */
    method Remove() returns (r: Result<()>)
      modifies client
      ensures r.Ok? <==> key in old(client.objects)
      ensures client.objects == old(client.objects) - {key}
      ensures r.Ok? ==> client.log == old(client.log) + [Deleted(key)]
      ensures r.Err? ==> r.failure == RuntimeException && client.log == old(client.log)
    {
      r := client.Delete(key);
    }

    /** `toString()`. */
    function ToString(): (s: string)
      ensures s == Describe(key)
    {
      Describe(key)
    }
  }

  /**
   * Storing a file and then loading into a fresh file bound to the same key
   * reproduces the stored entries exactly.
   */
  method StoreThenLoad(file: AzurePropertiesFile) returns (copy: AzurePropertiesFile)
    modifies file.client
    ensures fresh(copy) && copy.key == file.key && copy.client == file.client
    ensures copy.props == file.props
  {
    file.Store();
    copy := new AzurePropertiesFile(file.client, file.key);
    var loaded := copy.Load();
    assert loaded.Ok?;
  }
}
