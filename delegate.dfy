/** The `IManagedRelpConnection` a decorator wraps. Its own behaviour is not part of this
    model: it stands for any implementation, records every operation delegated to it, and
    throws the exceptions of a script fixed when it is made. */
module Delegates {
  import opened Wrappers
  import opened Text
  import opened Batches

  /** An operation delegated to the wrapped connection. */
  datatype Op =
    | ReconnectOp
    | ConnectOp
    | ForceReconnectOp
    | EnsureSentBytesOp(bytes: Option<seq<byte>>)
    | EnsureSentOp(batch: RelpBatch)
    | CloseOp

  /** The exception the coming operation throws; once the script is used up, none. */
  function NextFailure(failures: seq<Option<Exception>>): Option<Exception> {
    if failures == [] then None else failures[0]
  }

  function RestOf(failures: seq<Option<Exception>>): (r: seq<Option<Exception>>)
    ensures |r| == if failures == [] then 0 else |failures| - 1
  {
    if failures == [] then [] else failures[1..]
  }

  class RecordedConnection {
    /** What the wrapped connection's `isStub()` answers. */
    const stub: bool
    /** The exceptions the coming operations throw. */
    var failures: seq<Option<Exception>>
    /** Every operation delegated so far, in order. */
    var ops: seq<Op>

    constructor (stub: bool, failures: seq<Option<Exception>>)
      ensures this.stub == stub && this.failures == failures && ops == []
    {
      this.stub := stub;
      this.failures := failures;
      ops := [];
    }

    /** One delegated operation: it is recorded, and it throws what the script says. */
    method Perform(op: Op) returns (err: Option<Exception>)
      modifies this
      ensures ops == old(ops) + [op]
      ensures err == NextFailure(old(failures)) && failures == RestOf(old(failures))
    {
      ops := ops + [op];
      err := NextFailure(failures);
      failures := RestOf(failures);
    }

    function IsStub(): (b: bool)
      ensures b == stub
    {
      stub
    }
  }
}
