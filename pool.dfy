/** The pool package: `Pool` keeps idle connections for reuse and hands out a stub once it is
    closed; its `RebindableRelpConnection` reconnects after a number of single sends. The pool
    is modelled sequentially: its lock is always free. */
module PoolConnections {
  import opened Wrappers
  import opened Text
  import opened Delegates

  /** The count after one more send: reset when the threshold was reached, then one more. */
  function Counted(rebindRequestAmount: int, recordsSent: int): int {
    (if recordsSent >= rebindRequestAmount then 0 else recordsSent) + 1
  }

  /** The count and the number of reconnects after `n` successful sends from a fresh
      connection. */
  function AfterSends(rebindRequestAmount: int, n: nat): (r: (int, nat))
    decreases n
  {
    if n == 0 then (0, 0)
    else
      var prev := AfterSends(rebindRequestAmount, n - 1);
      (Counted(rebindRequestAmount, prev.0), prev.1 + (if prev.0 >= rebindRequestAmount then 1 else 0))
  }

  /** With a threshold of `a` >= 1, a reconnect comes before every `a`-th send after the first
      `a`: after `n` > 0 sends, `k` reconnects were made and `c` records counted with
      `n == k * a + c` and `1 <= c <= a`, that is `k == (n - 1) / a` and `c == (n - 1) % a + 1`. */
  lemma {:induction false} RebindEvery(a: int, n: nat)
    requires a >= 1
    ensures n == 0 ==> AfterSends(a, n) == (0, 0)
    ensures n > 0 ==> var (c, k) := AfterSends(a, n); n == k * a + c && 1 <= c <= a
    decreases n
  {
    if n > 1 {
      RebindEvery(a, n - 1);
      var (c, k) := AfterSends(a, n - 1);
      assert (k + 1) * a == k * a + a;
    }
  }

  class RebindableRelpConnection {
    const managedRelpConnection: RecordedConnection
    var recordsSent: int
    const rebindRequestAmount: int

    constructor (managedRelpConnection: RecordedConnection, rebindRequestAmount: int)
      ensures this.managedRelpConnection == managedRelpConnection && this.rebindRequestAmount == rebindRequestAmount
      ensures recordsSent == 0
    {
      this.managedRelpConnection := managedRelpConnection;
      recordsSent := 0;
      this.rebindRequestAmount := rebindRequestAmount;
    }

    /** `reconnect()` and `close()` delegate unchanged. */
    method Reconnect() returns (err: Option<Exception>)
      modifies managedRelpConnection
      ensures managedRelpConnection.ops == old(managedRelpConnection.ops) + [ReconnectOp]
      ensures err == NextFailure(old(managedRelpConnection.failures))
      ensures managedRelpConnection.failures == RestOf(old(managedRelpConnection.failures))
    {
      err := managedRelpConnection.Perform(ReconnectOp);
    }

    method Close() returns (err: Option<Exception>)
      modifies managedRelpConnection
      ensures managedRelpConnection.ops == old(managedRelpConnection.ops) + [CloseOp]
      ensures err == NextFailure(old(managedRelpConnection.failures))
      ensures managedRelpConnection.failures == RestOf(old(managedRelpConnection.failures))
    {
      err := managedRelpConnection.Perform(CloseOp);
    }

    function IsStub(): (b: bool)
      ensures !b
    {
      false
    }

    /** `ensureSent(bytes)`: at or past the threshold it reconnects and resets the count to 0;
        every normal return of the delegated send counts one record. */
    method EnsureSentBytes(bytes: Option<seq<byte>>) returns (err: Option<Exception>)
      modifies this, managedRelpConnection
      ensures var rebind := old(recordsSent) >= rebindRequestAmount;
        var f0 := old(managedRelpConnection.failures);
        var reconnectErr := if rebind then NextFailure(f0) else None;
        var f1 := if rebind then RestOf(f0) else f0;
        var reconnected := if rebind then [ReconnectOp] else [];
        if reconnectErr.Some? then
          err == reconnectErr && recordsSent == old(recordsSent) &&
          managedRelpConnection.ops == old(managedRelpConnection.ops) + reconnected && managedRelpConnection.failures == f1
        else
          err == NextFailure(f1) && managedRelpConnection.failures == RestOf(f1) &&
          managedRelpConnection.ops == old(managedRelpConnection.ops) + reconnected + [EnsureSentBytesOp(bytes)] &&
          recordsSent == if err.None? then Counted(rebindRequestAmount, old(recordsSent)) else if rebind then 0 else old(recordsSent)
    {
      if recordsSent >= rebindRequestAmount {
        err := managedRelpConnection.Perform(ReconnectOp);
        if err.Some? {
          return;
        }
        recordsSent := 0;
      }
      err := managedRelpConnection.Perform(EnsureSentBytesOp(bytes));
      if err.Some? {
        return;
      }
      recordsSent := recordsSent + 1;
    }
  }

  /** `Pool<T>`: `supply(k)` is the object the supplier makes on its `k`-th call, `isStub` is
      what the objects' `isStub()` answers, and `closed` logs every `close()` the pool makes on
      an object, in order; an exception from such a `close()` is swallowed. */
  class Pool<T(==)> {
    const supply: nat -> T
    const isStub: T -> bool
    const stub: T
    var created: nat
    var queue: seq<T>
    var close: bool
    var closed: seq<T>

    /** No stub is ever idle in the pool... */
    ghost predicate NoIdleStub()
      reads this
    {
      forall i :: 0 <= i < |queue| ==> !isStub(queue[i])
    }

    /** ...and a closed pool holds nothing. */
    ghost predicate Valid()
      reads this
    {
      NoIdleStub() && (close ==> queue == [])
    }

    constructor (supply: nat -> T, isStub: T -> bool, stub: T)
      ensures this.supply == supply && this.isStub == isStub && this.stub == stub
      ensures Valid() && created == 0 && queue == [] && !close && closed == []
    {
      this.supply := supply;
      this.isStub := isStub;
      this.stub := stub;
      created := 0;
      queue := [];
      close := false;
      closed := [];
    }

    /** `get()`: the stub once closed; otherwise the longest idle object, or a new one when
        none is idle. */
    method Get() returns (poolable: T)
      requires Valid()
      modifies this
      ensures Valid() && close == old(close) && closed == old(closed)
      ensures old(close) ==> poolable == stub && queue == old(queue) && created == old(created)
      ensures !old(close) && old(queue) != [] ==>
        poolable == old(queue)[0] && !isStub(poolable) && queue == old(queue)[1..] && created == old(created)
      ensures !old(close) && old(queue) == [] ==>
        poolable == supply(old(created)) && queue == [] && created == old(created) + 1
    {
      if close {
        poolable := stub;
      } else if queue != [] {
        poolable := queue[0];
        queue := queue[1..];
      } else {
        poolable := supply(created);
        created := created + 1;
      }
    }

    /** `offer(object)`: anything but a stub joins the idle queue at its tail; once the pool is
        closed, the queue is drained and every drained object closed. */
    method Offer(poolable: T)
      requires NoIdleStub()
      modifies this
      ensures Valid() && close == old(close) && created == old(created)
      ensures var q := old(queue) + (if isStub(poolable) then [] else [poolable]);
        if close then queue == [] && closed == old(closed) + q
        else queue == q && closed == old(closed)
    {
      if !isStub(poolable) {
        queue := queue + [poolable];
      }
      ghost var q := queue;
      if close {
        ghost var k := 0;
        assert queue == q[k..] && closed == old(closed) + q[..k];
        while queue != []
          invariant created == old(created) && close
          invariant forall i :: 0 <= i < |queue| ==> !isStub(queue[i])
          invariant 0 <= k <= |q| && queue == q[k..] && closed == old(closed) + q[..k]
          decreases |queue|
        {
          while true
            invariant created == old(created) && close
            invariant forall i :: 0 <= i < |queue| ==> !isStub(queue[i])
            invariant 0 <= k <= |q| && queue == q[k..] && closed == old(closed) + q[..k]
            decreases |queue|
          {
            if queue == [] {
              break;
            }
            var pooled := queue[0];
            assert q[..k + 1] == q[..k] + [pooled];
            queue := queue[1..];
            closed := closed + [pooled];
            k := k + 1;
          }
        }
        assert k == |q| && q[..k] == q;
      }
    }

    /** `close()`: the pool is marked closed and drained by offering it the stub. */
    method Close()
      requires Valid()
      modifies this
      ensures Valid() && close && queue == [] && created == old(created)
      ensures closed == old(closed) + old(queue) + (if isStub(stub) then [] else [stub])
    {
      ghost var q := queue;
      close := true;
      Offer(stub);
    }
  }
}
