/** The two decorators of the client package. `RebindableRelpConnection` reconnects once the
    records sent over the current binding reach a threshold; `RenewableRelpConnection`
    reconnects when the connection was idle for longer than a limit. Time is in milliseconds
    since the epoch, and the current time is a parameter. */
module ClientDecorators {
  import opened Wrappers
  import opened Text
  import opened Batches
  import opened Delegates

  class RebindableRelpConnection {
    const managedRelpConnection: RecordedConnection
    var recordsSent: int
    const rebindRequestAmount: int

    constructor (managedRelpConnection: RecordedConnection, rebindRequestAmount: int)
      ensures this.managedRelpConnection == managedRelpConnection && this.rebindRequestAmount == rebindRequestAmount
      ensures recordsSent == 0
    {
      this.managedRelpConnection := managedRelpConnection;
      recordsSent := 0;
      this.rebindRequestAmount := rebindRequestAmount;
    }

    /** `reconnect()`, `connect()`, `forceReconnect()` and `close()` delegate unchanged. */
    method Reconnect() returns (err: Option<Exception>)
      modifies managedRelpConnection
      ensures managedRelpConnection.ops == old(managedRelpConnection.ops) + [ReconnectOp]
      ensures err == NextFailure(old(managedRelpConnection.failures))
      ensures managedRelpConnection.failures == RestOf(old(managedRelpConnection.failures))
    {
      err := managedRelpConnection.Perform(ReconnectOp);
    }

    method Connect() returns (err: Option<Exception>)
      modifies managedRelpConnection
      ensures managedRelpConnection.ops == old(managedRelpConnection.ops) + [ConnectOp]
      ensures err == NextFailure(old(managedRelpConnection.failures))
      ensures managedRelpConnection.failures == RestOf(old(managedRelpConnection.failures))
    {
      err := managedRelpConnection.Perform(ConnectOp);
    }

    method ForceReconnect() returns (err: Option<Exception>)
      modifies managedRelpConnection
      ensures managedRelpConnection.ops == old(managedRelpConnection.ops) + [ForceReconnectOp]
      ensures err == NextFailure(old(managedRelpConnection.failures))
      ensures managedRelpConnection.failures == RestOf(old(managedRelpConnection.failures))
    {
      err := managedRelpConnection.Perform(ForceReconnectOp);
    }

    method Close() returns (err: Option<Exception>)
      modifies managedRelpConnection
      ensures managedRelpConnection.ops == old(managedRelpConnection.ops) + [CloseOp]
      ensures err == NextFailure(old(managedRelpConnection.failures))
      ensures managedRelpConnection.failures == RestOf(old(managedRelpConnection.failures))
    {
      err := managedRelpConnection.Perform(CloseOp);
    }

    function IsStub(): (b: bool)
      ensures !b
    {
      false
    }

    /** `ensureSent(batch)`: at or past the threshold it reconnects first and starts counting
        from 0; after a normal return of the delegated send it counts the batch's work-queue
        length as it was before the send. */
    method EnsureSent(batch: RelpBatch) returns (err: Option<Exception>)
      modifies this, managedRelpConnection
      ensures var rebind := old(recordsSent) >= rebindRequestAmount;
        var f0 := old(managedRelpConnection.failures);
        var reconnectErr := if rebind then NextFailure(f0) else None;
        var f1 := if rebind then RestOf(f0) else f0;
        var reconnected := if rebind then [ReconnectOp] else [];
        if reconnectErr.Some? then
          err == reconnectErr && recordsSent == old(recordsSent) &&
          managedRelpConnection.ops == old(managedRelpConnection.ops) + reconnected && managedRelpConnection.failures == f1
        else
          var base := if rebind then 0 else old(recordsSent);
          err == NextFailure(f1) && managedRelpConnection.failures == RestOf(f1) &&
          managedRelpConnection.ops == old(managedRelpConnection.ops) + reconnected + [EnsureSentOp(batch)] &&
          recordsSent == base + (if err.None? then |old(batch.workQueue)| else 0)
    {
      if recordsSent >= rebindRequestAmount {
        err := Reconnect();
        if err.Some? {
          return;
        }
        recordsSent := 0;
      }
      var batchLength := batch.GetWorkQueueLength();
      err := managedRelpConnection.Perform(EnsureSentOp(batch));
      if err.Some? {
        return;
      }
      recordsSent := recordsSent + batchLength;
    }

    /** `ensureSent(bytes)`: the payload in a fresh batch of one request, so it counts 1. */
    method EnsureSentBytes(bytes: Option<seq<byte>>) returns (err: Option<Exception>, batch: RelpBatch)
      requires bytes.Some? ==> |bytes.value| <= MaxInt
      modifies this, managedRelpConnection
      ensures fresh(batch) && batch.Valid() && batch.requests.Keys == {0} && batch.requests[0].data == bytes
      ensures var rebind := old(recordsSent) >= rebindRequestAmount;
        var f0 := old(managedRelpConnection.failures);
        var reconnectErr := if rebind then NextFailure(f0) else None;
        var f1 := if rebind then RestOf(f0) else f0;
        var reconnected := if rebind then [ReconnectOp] else [];
        if reconnectErr.Some? then
          err == reconnectErr && recordsSent == old(recordsSent) &&
          managedRelpConnection.ops == old(managedRelpConnection.ops) + reconnected
        else
          var base := if rebind then 0 else old(recordsSent);
          err == NextFailure(f1) &&
          managedRelpConnection.ops == old(managedRelpConnection.ops) + reconnected + [EnsureSentOp(batch)] &&
          recordsSent == base + (if err.None? then 1 else 0)
    {
      batch := new RelpBatch();
      var id := batch.Insert(bytes);
      assert batch.workQueue == {0};
      err := EnsureSent(batch);
    }
  }

  /** Whether a connection last used at `lastAccess` has been idle too long at `now`: Java's
      `lastAccess.plus(maxIdle).isBefore(now)`. */
  predicate Expired(lastAccess: int, maxIdle: int, now: int) {
    lastAccess + maxIdle < now
  }

  class RenewableRelpConnection {
    const managedRelpConnection: RecordedConnection
    const maxIdle: int
    var lastAccess: int

    /** The last access starts at the epoch, so the first send after `maxIdle` from the epoch
        renews the connection. */
    constructor (managedRelpConnection: RecordedConnection, maxIdle: int)
      ensures this.managedRelpConnection == managedRelpConnection && this.maxIdle == maxIdle
      ensures lastAccess == 0
    {
      this.managedRelpConnection := managedRelpConnection;
      this.maxIdle := maxIdle;
      lastAccess := 0;
    }

    /** `reconnect()`, `connect()` and `forceReconnect()` note the access time, then delegate. */
    method Reconnect(now: int) returns (err: Option<Exception>)
      modifies this, managedRelpConnection
      ensures lastAccess == now
      ensures managedRelpConnection.ops == old(managedRelpConnection.ops) + [ReconnectOp]
      ensures err == NextFailure(old(managedRelpConnection.failures))
      ensures managedRelpConnection.failures == RestOf(old(managedRelpConnection.failures))
    {
      lastAccess := now;
      err := managedRelpConnection.Perform(ReconnectOp);
    }

    method Connect(now: int) returns (err: Option<Exception>)
      modifies this, managedRelpConnection
      ensures lastAccess == now
      ensures managedRelpConnection.ops == old(managedRelpConnection.ops) + [ConnectOp]
      ensures err == NextFailure(old(managedRelpConnection.failures))
      ensures managedRelpConnection.failures == RestOf(old(managedRelpConnection.failures))
    {
      lastAccess := now;
      err := managedRelpConnection.Perform(ConnectOp);
    }

    method ForceReconnect(now: int) returns (err: Option<Exception>)
      modifies this, managedRelpConnection
      ensures lastAccess == now
      ensures managedRelpConnection.ops == old(managedRelpConnection.ops) + [ForceReconnectOp]
      ensures err == NextFailure(old(managedRelpConnection.failures))
      ensures managedRelpConnection.failures == RestOf(old(managedRelpConnection.failures))
    {
      lastAccess := now;
      err := managedRelpConnection.Perform(ForceReconnectOp);
    }

    /** `ensureSent(bytes)`: a connection idle for longer than `maxIdle` is force-reconnected
        first; the access time is noted, then the send is delegated. */
    method EnsureSentBytes(bytes: Option<seq<byte>>, now: int) returns (err: Option<Exception>)
      modifies this, managedRelpConnection
      ensures lastAccess == now
      ensures var renew := Expired(old(lastAccess), maxIdle, now);
        var f0 := old(managedRelpConnection.failures);
        var renewErr := if renew then NextFailure(f0) else None;
        var f1 := if renew then RestOf(f0) else f0;
        var renewed := if renew then [ForceReconnectOp] else [];
        if renewErr.Some? then
          err == renewErr && managedRelpConnection.ops == old(managedRelpConnection.ops) + renewed &&
          managedRelpConnection.failures == f1
        else
          err == NextFailure(f1) && managedRelpConnection.failures == RestOf(f1) &&
          managedRelpConnection.ops == old(managedRelpConnection.ops) + renewed + [EnsureSentBytesOp(bytes)]
    {
      if Expired(lastAccess, maxIdle, now) {
        err := ForceReconnect(now);
        if err.Some? {
          return;
        }
      }
      lastAccess := now;
      err := managedRelpConnection.Perform(EnsureSentBytesOp(bytes));
    }

    /** `isStub()` and `close()` delegate. */
    function IsStub(): (b: bool)
      ensures b == managedRelpConnection.stub
    {
      managedRelpConnection.IsStub()
    }

    method Close() returns (err: Option<Exception>)
      modifies managedRelpConnection
      ensures managedRelpConnection.ops == old(managedRelpConnection.ops) + [CloseOp]
      ensures err == NextFailure(old(managedRelpConnection.failures))
      ensures managedRelpConnection.failures == RestOf(old(managedRelpConnection.failures))
    {
      err := managedRelpConnection.Perform(CloseOp);
    }
  }
}
