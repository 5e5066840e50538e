/** The negotiated key sources (`internal/session/keysource.go`, `internal/session/datachannelkey.go`). */
module KeyMaterial {
  import opened Bytes

  datatype KeySource = KeySource(r1: seq<Byte>, r2: seq<Byte>, preMaster: seq<Byte>)

  datatype KeyError = CannotOverwriteRemoteKey | KeyNotReady

  /** A pair of key sources. It becomes ready with the remote one, which can be set only once. */
  class DataChannelKey {
    var ready: bool
    var localSource: Option<KeySource>
    var remoteSource: Option<KeySource>

    ghost predicate Valid()
      reads this
    {
      ready <==> remoteSource.Some?
    }

    constructor ()
      ensures Valid() && !ready && localSource == None
    {
      ready, localSource, remoteSource := false, None, None;
    }

    method AddRemoteKey(k: KeySource) returns (r: Result<(), KeyError>)
      requires Valid()
      modifies this`ready, this`remoteSource
      ensures Valid() && ready
      ensures r.Ok? <==> !old(ready)
      ensures remoteSource == if old(ready) then old(remoteSource) else Some(k)
    {
      if ready {
        return Err(CannotOverwriteRemoteKey);
      }
      remoteSource := Some(k);
      ready := true;
      return Ok(());
    }

    method AddLocalKey(k: KeySource)
      modifies this`localSource
      ensures localSource == Some(k)
    {
      localSource := Some(k);
    }
  }
}
