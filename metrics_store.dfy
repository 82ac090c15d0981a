/**
 * `AzureBlobStoreMetricsStore`: where the blob store's running totals are kept.
 * Each node keeps its own properties file, at `<node id>-<metrics file name>`,
 * reached through the client the blob store hands over at start and takes back
 * at stop. The accumulation and periodic flushing it inherits are not part of
 * this model.
 */
module MetricsStore {
  import opened Util
  import opened ObjectStore
  import opened PropertiesFile

  /** The blob store type's configuration key, which also names its single file store. */
  const ConfigKey: string := "azure cloud storage"

  /** Available space by file store: the one store of this type, unbounded. */
  const AvailableSpaceByFileStore: map<string, int> := map[ConfigKey := LONG_MAX]

  /** The totals a metrics store starts from before anything is loaded. */
  datatype AccumulatingMetrics = AccumulatingMetrics(
    blobCount: int, totalSize: int, availableSpace: map<string, int>, unlimited: bool)

  /** `getAccumulatingBlobStoreMetrics`: no blobs, no bytes, unbounded space. */
  function InitialMetrics(): (m: AccumulatingMetrics)
    ensures m.blobCount == 0 && m.totalSize == 0 && m.unlimited
    ensures m.availableSpace.Keys == {ConfigKey} && m.availableSpace[ConfigKey] == LONG_MAX
  {
    AccumulatingMetrics(0, 0, AvailableSpaceByFileStore, true)
  }

  /** The key of a node's metrics file. */
  function MetricsFileKey(nodeId: string, metricsFileName: string): (k: string)
    ensures StartsWith(k, nodeId) && EndsWith(k, "-" + metricsFileName)
    ensures |k| == |nodeId| + 1 + |metricsFileName|
  {
    nodeId + "-" + metricsFileName
  }

  /** Nodes with different ids keep their metrics under different keys. */
  lemma MetricsFileKeyPerNode(nodeId: string, nodeId': string, metricsFileName: string)
    ensures MetricsFileKey(nodeId, metricsFileName) == MetricsFileKey(nodeId', metricsFileName) ==> nodeId == nodeId'
  {
    var k, k' := MetricsFileKey(nodeId, metricsFileName), MetricsFileKey(nodeId', metricsFileName);
    if k == k' {
      assert nodeId == k[..|nodeId|] && nodeId' == k'[..|nodeId'|];
    }
  }

  class AzureBlobStoreMetricsStore {
    /** The id of this node. */
    const nodeId: string
    /** The file name every node's metrics key ends with. */
    const metricsFileName: string
    /** The client, when one has been set and not yet cleared. */
    var client: Option<Container>

    constructor (nodeId: string, metricsFileName: string)
      ensures this.nodeId == nodeId && this.metricsFileName == metricsFileName && client.None?
    {
      this.nodeId := nodeId;
      this.metricsFileName := metricsFileName;
      client := None;
    }

    /** The objects the client may change: the container, when there is a client. */
    function Reachable(): set<object>
      reads this
    {
      if client.Some? then {client.value} else {}
    }

    /** `setAzureClient`. */
    method SetAzureClient(client: Option<Container>)
      modifies this
      ensures this.client == client
    {
      this.client := client;
    }

    /** `doStop`: clears the client, so that afterwards there are no backing files. */
    method DoStop()
      modifies this
      ensures client.None?
    {
      client := None;
    }

    /**
     * `getProperties`: a fresh, empty file at this node's metrics key; building it
     * without a client fails the file's null check.
     */
    method GetProperties() returns (r: Result<AzurePropertiesFile>)
      ensures client.None? ==> r == Err(NullPointer)
      ensures client.Some? ==> (r.Ok? && fresh(r.value) && r.value.client == client.value
        && r.value.key == MetricsFileKey(nodeId, metricsFileName) && r.value.props == map[])
    {
      if client.None? {
        return Err(NullPointer);
      }
      var file := new AzurePropertiesFile(client.value, MetricsFileKey(nodeId, metricsFileName));
      r := Ok(file);
    }

    /** `backingFiles`: none without a client, otherwise exactly this node's metrics file. */
    method BackingFiles() returns (files: seq<AzurePropertiesFile>)
      ensures client.None? ==> files == []
      ensures client.Some? ==> (|files| == 1 && fresh(files[0]) && files[0].client == client.value
        && files[0].key == MetricsFileKey(nodeId, metricsFileName))
    {
      if client.None? {
        return [];
      }
      var file := GetProperties();
      files := [file.value];
    }

    /**
     * `remove`: deletes every backing file. Without a client nothing happens;
     * with one, exactly this node's metrics key is deleted, and a failure to
     * delete it surfaces unchecked.
     */
    method Remove() returns (r: Result<()>)
      modifies Reachable()
      ensures client.None? ==> r.Ok?
      ensures client.Some? ==> (r.Ok? <==> MetricsFileKey(nodeId, metricsFileName) in old(client.value.objects))
      ensures client.Some? ==> client.value.objects == old(client.value.objects) - {MetricsFileKey(nodeId, metricsFileName)}
      ensures r.Err? ==> r.failure == RuntimeException
    {
      var files := BackingFiles();
      r := Ok(());
      if files != [] {
        r := files[0].Remove();
      }
    }
  }
}
