/** `ManagedRelpConnectionStub`: the null object a closed pool hands out. It is a stub, and
    every connection operation on it throws IllegalStateException. */
module ConnectionStubs {
  import opened Wrappers
  import opened Text
  import opened Batches

  const UNSUPPORTED := "ManagedRelpConnectionStub does not support this"

  /** What every operation of the stub throws. */
  predicate Unsupported(err: Option<Exception>) {
    err == Some(IllegalState(UNSUPPORTED))
  }

  datatype ManagedRelpConnectionStub = ManagedRelpConnectionStub
  {
    function Reconnect(): (err: Option<Exception>)
      ensures Unsupported(err)
    {
      Some(IllegalState(UNSUPPORTED))
    }

    function Connect(): (err: Option<Exception>)
      ensures Unsupported(err)
    {
      Some(IllegalState(UNSUPPORTED))
    }

    function ForceReconnect(): (err: Option<Exception>)
      ensures Unsupported(err)
    {
      Some(IllegalState(UNSUPPORTED))
    }

    function EnsureSentBytes(bytes: Option<seq<byte>>): (err: Option<Exception>)
      ensures Unsupported(err)
    {
      Some(IllegalState(UNSUPPORTED))
    }

    function EnsureSent(batch: RelpBatch): (err: Option<Exception>)
      ensures Unsupported(err)
    {
      Some(IllegalState(UNSUPPORTED))
    }

    function IsStub(): (b: bool)
      ensures b
    {
      true
    }

    function Close(): (err: Option<Exception>)
      ensures Unsupported(err)
    {
      Some(IllegalState(UNSUPPORTED))
    }
  }
}
