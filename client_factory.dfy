/**
 * The choice `AzureStorageClientFactory` makes: the block size every client is
 * built with (5242880 bytes unless configured otherwise) and which client a
 * configured client type selects. A client type equal to `sync`, ignoring case,
 * selects the synchronous client; anything else, or no client type at all,
 * selects the reactive one.
 */
module ClientFactory {
  import opened Util
  import SyncClient
  import ReactiveClient

  /** The block size when none is configured: 5 MiB. */
  const DefaultChunkSize: int := 5242880

  datatype ClientKind = Sync | Reactive

  /**
   * The client `create` builds for a client type and a block size. The
   * constructors of both clients refuse a block size that is not positive.
   */
  function SelectClient(clientType: Option<string>, chunkSize: int): (r: Result<ClientKind>)
    ensures r.Err? <==> chunkSize <= 0
    ensures r.Err? ==> r.failure == IllegalArgument
    ensures r == Ok(Sync) <==> chunkSize > 0 && clientType.Some? && SyncSpelling(clientType.value)
  {
    var kind := if clientType.Some? && EqualsIgnoreCase("sync", clientType.value) then Sync else Reactive;
    match kind
    case Sync => if SyncClient.CheckChunkSize(chunkSize).Ok? then Ok(Sync) else Err(IllegalArgument)
    case Reactive => if ReactiveClient.CheckChunkSize(chunkSize).Ok? then Ok(Reactive) else Err(IllegalArgument)
  }

  /** The spellings of `sync` that `equalsIgnoreCase` accepts, letter by letter. */
  predicate SyncSpelling(s: string)
  {
    |s| == 4 && s[0] in {'s', 'S', 'ſ'} && s[1] in {'y', 'Y'} && s[2] in {'n', 'N'} && s[3] in {'c', 'C'}
  }

  /** The default block size is accepted by both clients, whatever the client type. */
  lemma DefaultChunkSizeAccepted(clientType: Option<string>)
    ensures SelectClient(clientType, DefaultChunkSize).Ok?
  {
  }
}
