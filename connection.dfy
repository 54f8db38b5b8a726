/** The RELP session of one client connection: the CLOSED / OPEN / COMMIT state machine, the
    sending of a batch (each queued request is stamped with the next transaction number,
    recorded in the window and written out) and the reading of acknowledgements until the
    window is empty. */
module Connections {
  import opened Wrappers
  import opened Text
  import opened Buffers
  import opened RelpCommands
  import opened Frames
  import opened RelpParsing
  import opened TxIds
  import opened Windows
  import opened Batches
  import opened Transports
  import opened Acknowledgements
  import opened Receiving

  datatype ConnectionState = CLOSED | OPEN | COMMIT

  /** The payload of the open command, in US-ASCII. */
  const OFFER: seq<byte> := AsciiEncode("\nrelp_version=0\nrelp_software=RLP-01\ncommands=" + SYSLOG + "\n")

  /** The window after stamping requests `ids[k]` with numbers `txns[k]`, in order. */
  function Recorded(pending: map<int, int>, txns: seq<int>, ids: seq<int>): map<int, int>
    requires |txns| == |ids|
    decreases |txns|
  {
    if txns == [] then pending
    else Recorded(pending, txns[..|txns| - 1], ids[..|ids| - 1])[txns[|txns| - 1] := ids[|ids| - 1]]
  }

  /** The bytes of requests `ids[k]` written with numbers `txns[k]`, in order. Only the
      constant fields of the requests are read. */
  function WireOf(requests: map<int, RelpFrameTX>, ids: seq<int>, txns: seq<int>): seq<byte>
    requires |txns| == |ids| && forall k :: 0 <= k < |ids| ==> ids[k] in requests
    decreases |ids|
  {
    if ids == [] then []
    else
      var n := |ids| - 1;
      var f := requests[ids[n]];
      WireOf(requests, ids[..n], txns[..n]) + FrameBytes(txns[n], f.command, f.dataLength, f.data)
  }

  class RelpConnection {
    var rxBufferSize: int
    var txBufferSize: int
    var preAllocatedTXBuffer: ByteBuffer
    var preAllocatedRXBuffer: ByteBuffer
    var state: ConnectionState
    var txID: TxID
    var window: RelpWindow
    const parser: RelpParser
    const relpClientSocket: Transport
    ghost var Repr: set<object>

    /** `Repr` holds the connection's own objects; the decoder keeps its own footprint. */
    ghost predicate Valid()
      reads this, parser, Repr, parser.Repr
    {
      this in Repr &&
      Repr == {this, preAllocatedTXBuffer, preAllocatedTXBuffer.data, preAllocatedRXBuffer,
               preAllocatedRXBuffer.data, txID, window, relpClientSocket, parser} &&
      parser.Valid() && this !in parser.Repr &&
      preAllocatedTXBuffer != preAllocatedRXBuffer && preAllocatedTXBuffer.data != preAllocatedRXBuffer.data &&
      preAllocatedTXBuffer !in parser.Repr && preAllocatedTXBuffer.data !in parser.Repr &&
      preAllocatedRXBuffer !in parser.Repr && preAllocatedRXBuffer.data !in parser.Repr &&
      preAllocatedTXBuffer.Valid() && preAllocatedRXBuffer.Valid() && txID.Valid() &&
      txBufferSize == preAllocatedTXBuffer.Capacity() && rxBufferSize == preAllocatedRXBuffer.Capacity() &&
      // The transmit buffer is cleared after every send.
      preAllocatedTXBuffer.position == 0 && preAllocatedTXBuffer.limit == preAllocatedTXBuffer.Capacity()
    }

    /** `RelpConnection()`: CLOSED, with a 512-byte receive and a 262144-byte transmit buffer.
        The socket is the given transport. */
    constructor (socket: Transport)
      ensures Valid() && fresh(Repr - {socket}) && fresh(parser.Repr) && relpClientSocket == socket
      ensures state == CLOSED && rxBufferSize == 512 && txBufferSize == 262144
      ensures preAllocatedRXBuffer.View() == Allocated(512) && preAllocatedTXBuffer.View() == Allocated(262144)
      ensures parser.View() == Initial
    {
      state := CLOSED;
      preAllocatedRXBuffer := new ByteBuffer(512);
      rxBufferSize := 512;
      preAllocatedTXBuffer := new ByteBuffer(262144);
      txBufferSize := 262144;
      relpClientSocket := socket;
      parser := new RelpParser();
      txID := new TxID();
      window := new RelpWindow();
      new;
      Repr := {this, preAllocatedTXBuffer, preAllocatedTXBuffer.data, preAllocatedRXBuffer,
               preAllocatedRXBuffer.data, txID, window, relpClientSocket, parser};
    }

    /** `setRxBufferSize(size)`: only while CLOSED; a negative size is refused by the allocation. */
    method SetRxBufferSize(size: int) returns (err: Option<Exception>)
      requires Valid()
      modifies this
      ensures Valid() && fresh(Repr - old(Repr))
      ensures state == old(state) && preAllocatedTXBuffer == old(preAllocatedTXBuffer) && txBufferSize == old(txBufferSize)
      ensures txID == old(txID) && window == old(window)
      ensures old(state) != CLOSED ==>
        err == Some(IllegalState("Connection must be closed to change rxBufferSize"))
      ensures old(state) == CLOSED && size < 0 ==> err == Some(IllegalArgument("capacity < 0"))
      ensures err.Some? ==> rxBufferSize == old(rxBufferSize) && preAllocatedRXBuffer == old(preAllocatedRXBuffer)
      ensures old(state) == CLOSED && size >= 0 ==>
        err.None? && rxBufferSize == size && fresh(preAllocatedRXBuffer) && preAllocatedRXBuffer.View() == Allocated(size)
    {
      if state != CLOSED {
        return Some(IllegalState("Connection must be closed to change rxBufferSize"));
      }
      var buffer := AllocateDirect(size);
      if buffer.Thrown? {
        return Some(buffer.ex);
      }
      preAllocatedRXBuffer := buffer.value;
      rxBufferSize := size;
      Repr := {this, preAllocatedTXBuffer, preAllocatedTXBuffer.data, preAllocatedRXBuffer,
               preAllocatedRXBuffer.data, txID, window, relpClientSocket, parser};
      err := None;
    }

    /** `setTxBufferSize(size)`: only while CLOSED; a negative size is refused by the allocation. */
    method SetTxBufferSize(size: int) returns (err: Option<Exception>)
      requires Valid()
      modifies this
      ensures Valid() && fresh(Repr - old(Repr))
      ensures state == old(state) && preAllocatedRXBuffer == old(preAllocatedRXBuffer) && rxBufferSize == old(rxBufferSize)
      ensures txID == old(txID) && window == old(window)
      ensures old(state) != CLOSED ==>
        err == Some(IllegalState("Connection must be closed to change txBufferSize"))
      ensures old(state) == CLOSED && size < 0 ==> err == Some(IllegalArgument("capacity < 0"))
      ensures err.Some? ==> txBufferSize == old(txBufferSize) && preAllocatedTXBuffer == old(preAllocatedTXBuffer)
      ensures old(state) == CLOSED && size >= 0 ==>
        err.None? && txBufferSize == size && fresh(preAllocatedTXBuffer) && preAllocatedTXBuffer.View() == Allocated(size)
    {
      if state != CLOSED {
        return Some(IllegalState("Connection must be closed to change txBufferSize"));
      }
      var buffer := AllocateDirect(size);
      if buffer.Thrown? {
        return Some(buffer.ex);
      }
      preAllocatedTXBuffer := buffer.value;
      txBufferSize := size;
      Repr := {this, preAllocatedTXBuffer, preAllocatedTXBuffer.data, preAllocatedRXBuffer,
               preAllocatedRXBuffer.data, txID, window, relpClientSocket, parser};
      err := None;
    }

    /** `tearDown()`: close the socket, ignoring an IOException, then CLOSED with both buffers
        cleared. Before the first `open` there is no socket channel and the NullPointerException
        escapes before anything changes. */
    method TearDown() returns (err: Option<Exception>)
      requires Valid()
      modifies this, relpClientSocket, preAllocatedTXBuffer, preAllocatedRXBuffer
      ensures Valid() && Repr == old(Repr)
      ensures txID == old(txID) && window == old(window) && preAllocatedRXBuffer == old(preAllocatedRXBuffer)
      ensures rxBufferSize == old(rxBufferSize) && txBufferSize == old(txBufferSize)
      ensures relpClientSocket.sent == old(relpClientSocket.sent)
      ensures old(relpClientSocket.channel) == Unopened ==> err == Some(NullPointer) && state == old(state)
      ensures old(relpClientSocket.channel) != Unopened ==>
        err.None? && state == CLOSED && relpClientSocket.channel == Closed
      ensures old(relpClientSocket.channel) != Unopened ==>
        preAllocatedRXBuffer.position == 0 && preAllocatedRXBuffer.limit == preAllocatedRXBuffer.Capacity()
    {
      var closed := relpClientSocket.Close();
      if closed == Some(NullPointer) {
        return closed;
      }
      state := CLOSED;
      preAllocatedTXBuffer.Clear();
      preAllocatedRXBuffer.Clear();
      err := None;
    }

    /** `sendRelpRequestAsync(request)`: the frame goes through the preallocated transmit buffer,
        or through a buffer of exactly `length()` bytes when that is larger; a frame longer
        than the buffer chosen is a BufferOverflowException and nothing is written. Otherwise
        the buffer is cleared afterwards whether or not the write succeeds. */
    method SendRelpRequestAsync(request: RelpFrameTX) returns (err: Option<Exception>)
      requires Valid()
      modifies relpClientSocket, preAllocatedTXBuffer, preAllocatedTXBuffer.data
      ensures Valid()
      ensures err == SendError(request.Bytes(), request.Length(), txBufferSize,
                               old(relpClientSocket.channel), old(relpClientSocket.writeTimeouts))
      ensures relpClientSocket.sent == old(relpClientSocket.sent) + (if err.None? then request.Bytes() else [])
      ensures relpClientSocket.channel == old(relpClientSocket.channel)
      ensures relpClientSocket.arrivals == old(relpClientSocket.arrivals)
      ensures relpClientSocket.received == old(relpClientSocket.received)
    {
      var length := request.Length();
      var buffer: ByteBuffer;
      if length > txBufferSize {
        var sized := AllocateDirect(length);
        buffer := sized.value;
      } else {
        buffer := preAllocatedTXBuffer;
      }
      if |request.Bytes()| > buffer.Capacity() {
        return Some(BufferOverflow);
      }
      err := Transmit(request, buffer, relpClientSocket);
    }

    /** The loop of `sendBatch`: pop the smallest queued id, take its request, take the next
        transaction number, stamp the request, record number -> id in the window and write the
        frame. `ids` and `txns` are the ids stamped and the numbers they got. A request that is
        gone from the batch is a NullPointerException, after its number was taken. */
    method SendQueued(batch: RelpBatch) returns (err: Option<Exception>, ghost ids: seq<int>, ghost txns: seq<int>)
      requires Valid() && batch.Valid()
      modifies txID, window, relpClientSocket, preAllocatedTXBuffer, preAllocatedTXBuffer.data, batch, batch.requests.Values
      ensures Valid() && batch.Valid() && parser.View() == old(parser.View())
      ensures batch.requests == old(batch.requests) && batch.responses == old(batch.responses) && batch.nextId == old(batch.nextId)
      ensures relpClientSocket.channel == old(relpClientSocket.channel)
      ensures relpClientSocket.received == old(relpClientSocket.received)
      ensures |ids| == |txns| && txns == IssuedFrom(old(txID.transactionIdentifier), |txns|)
      ensures forall k :: 0 <= k < |ids| ==> ids[k] in old(batch.workQueue) && ids[k] in batch.requests
      ensures Increasing(ids)
      ensures window.pending == Recorded(old(window.pending), txns, ids)
      ensures err.None? ==> relpClientSocket.sent == old(relpClientSocket.sent) + WireOf(batch.requests, ids, txns)
      ensures err.None? ==> txID.transactionIdentifier == CounterAfter(old(txID.transactionIdentifier), |txns|)
      ensures err.None? ==> |batch.workQueue| == 0 && forall id :: id in old(batch.workQueue) ==> id in ids
    {
      ghost var t0, pending0, sent0, queue0 := txID.transactionIdentifier, window.pending, relpClientSocket.sent, batch.workQueue;
      ids, txns := [], [];
      err := None;
      while batch.GetWorkQueueLength() > 0
        invariant Valid() && batch.Valid() && parser.View() == old(parser.View())
        invariant batch.requests == old(batch.requests) && batch.responses == old(batch.responses) && batch.nextId == old(batch.nextId)
        invariant relpClientSocket.channel == old(relpClientSocket.channel)
        invariant relpClientSocket.received == old(relpClientSocket.received)
        invariant 1 <= t0 <= MAX_ID && Progress(batch, t0, pending0, sent0, queue0, ids, txns)
        decreases |batch.workQueue|
      {
        err, ids, txns := SendNext(batch, t0, pending0, sent0, queue0, ids, txns);
        if err.Some? {
          return;
        }
      }
    }

    /** The loop's view of the connection and the batch against the state before it. */
    ghost predicate Progress(batch: RelpBatch, t0: int, pending0: map<int, int>, sent0: seq<byte>, queue0: set<int>, ids: seq<int>, txns: seq<int>)
      reads this, txID, window, relpClientSocket, batch
      requires 1 <= t0 <= MAX_ID
    {
      SentSoFar(t0, pending0, sent0, queue0, batch.workQueue, batch.requests, window.pending,
                txID.transactionIdentifier, relpClientSocket.sent, ids, txns)
    }

    /** One turn of the loop of `sendBatch`. */
    method SendNext(batch: RelpBatch, ghost t0: int, ghost pending0: map<int, int>, ghost sent0: seq<byte>, ghost queue0: set<int>,
                    ghost ids: seq<int>, ghost txns: seq<int>)
      returns (err: Option<Exception>, ghost ids': seq<int>, ghost txns': seq<int>)
      requires Valid() && batch.Valid() && |batch.workQueue| > 0
      requires 1 <= t0 <= MAX_ID && Progress(batch, t0, pending0, sent0, queue0, ids, txns)
      modifies txID, window, relpClientSocket, preAllocatedTXBuffer, preAllocatedTXBuffer.data, batch, batch.requests.Values
      ensures Valid() && batch.Valid() && parser.View() == old(parser.View())
      ensures batch.requests == old(batch.requests) && batch.responses == old(batch.responses) && batch.nextId == old(batch.nextId)
      ensures relpClientSocket.channel == old(relpClientSocket.channel)
      ensures relpClientSocket.received == old(relpClientSocket.received)
      ensures |batch.workQueue| < old(|batch.workQueue|)
      ensures 1 <= t0 <= MAX_ID && StampedSoFar(t0, pending0, queue0, batch.workQueue, batch.requests, window.pending, ids', txns')
      ensures err.None? ==> Progress(batch, t0, pending0, sent0, queue0, ids', txns')
    {
      ghost var queue := batch.workQueue;
      var reqId := PopFrom(batch);
      err, ids', txns' := SendPopped(batch, reqId, t0, pending0, sent0, queue0, queue, ids, txns);
    }

    /** The rest of a turn of `sendBatch`, once `reqId`, the least id of `queue`, was taken off
        the work queue. */
    method SendPopped(batch: RelpBatch, reqId: int, ghost t0: int, ghost pending0: map<int, int>, ghost sent0: seq<byte>,
                      ghost queue0: set<int>, ghost queue: set<int>, ghost ids: seq<int>, ghost txns: seq<int>)
      returns (err: Option<Exception>, ghost ids': seq<int>, ghost txns': seq<int>)
      requires Valid() && batch.Valid() && 1 <= t0 <= MAX_ID
      requires reqId in queue && (forall x :: x in queue ==> reqId <= x) && batch.workQueue == queue - {reqId}
      requires SentSoFar(t0, pending0, sent0, queue0, queue, batch.requests, window.pending,
                         txID.transactionIdentifier, relpClientSocket.sent, ids, txns)
      modifies txID, window, relpClientSocket, preAllocatedTXBuffer, preAllocatedTXBuffer.data, batch.requests.Values
      ensures Valid() && batch.Valid() && parser.View() == old(parser.View())
      ensures batch.requests == old(batch.requests) && batch.responses == old(batch.responses) && batch.nextId == old(batch.nextId)
      ensures batch.workQueue == old(batch.workQueue)
      ensures relpClientSocket.channel == old(relpClientSocket.channel)
      ensures relpClientSocket.received == old(relpClientSocket.received)
      ensures StampedSoFar(t0, pending0, queue0, batch.workQueue, batch.requests, window.pending, ids', txns')
      ensures err.None? ==> Progress(batch, t0, pending0, sent0, queue0, ids', txns')
    {
      ghost var pending, sent := window.pending, relpClientSocket.sent;
      var txnId;
      err, txnId := SendOne(batch, reqId);
      if err == Some(NullPointer) && reqId !in batch.requests {
        return err, ids, txns;
      }
      ids', txns' := ids + [reqId], txns + [txnId];
      SentStep(t0, pending0, sent0, queue0, queue, batch.requests, pending, sent, ids, txns, reqId);
    }

    /** The least id of a non-empty work queue, taken off it; the connection is untouched. */
    method PopFrom(batch: RelpBatch) returns (reqId: int)
      requires Valid() && batch.Valid() && |batch.workQueue| > 0
      modifies batch
      ensures Valid() && parser.View() == old(parser.View())
      ensures batch.Valid() && batch.nextId == old(batch.nextId)
      ensures batch.requests == old(batch.requests) && batch.responses == old(batch.responses)
      ensures reqId in old(batch.workQueue) && (forall x :: x in old(batch.workQueue) ==> reqId <= x)
      ensures batch.workQueue == old(batch.workQueue) - {reqId} && |batch.workQueue| == |old(batch.workQueue)| - 1
    {
      var popped := batch.PopWorkQueue();
      reqId := popped.value;
    }

    /** One request of `sendBatch`: its number is taken first; a missing request is a
        NullPointerException; otherwise it is stamped, recorded in the window and written. */
    method SendOne(batch: RelpBatch, reqId: int) returns (err: Option<Exception>, txnId: int)
      requires Valid() && batch.Valid()
      modifies txID, window, relpClientSocket, preAllocatedTXBuffer, preAllocatedTXBuffer.data, batch.requests.Values
      ensures Valid() && parser.View() == old(parser.View())
      ensures batch.Valid() && batch.requests == old(batch.requests) && batch.responses == old(batch.responses)
      ensures batch.nextId == old(batch.nextId) && batch.workQueue == old(batch.workQueue)
      ensures relpClientSocket.channel == old(relpClientSocket.channel)
      ensures relpClientSocket.received == old(relpClientSocket.received)
      ensures txnId == Issue(old(txID.transactionIdentifier)) && txID.transactionIdentifier == txnId + 1
      ensures reqId !in batch.requests ==> err == Some(NullPointer) && window.pending == old(window.pending)
      ensures reqId in batch.requests ==> window.pending == old(window.pending)[txnId := reqId]
      ensures reqId in batch.requests ==> var f := batch.requests[reqId];
        err == SendError(f.Bytes(), f.Length(), txBufferSize, old(relpClientSocket.channel), old(relpClientSocket.writeTimeouts))
      ensures reqId in batch.requests ==> var f := batch.requests[reqId];
        relpClientSocket.sent == old(relpClientSocket.sent) +
          (if err.None? then FrameBytes(txnId, f.command, f.dataLength, f.data) else [])
    {
      var request := batch.GetRequest(reqId);
      txnId := txID.GetNextTransactionIdentifier();
      if request.None? {
        return Some(NullPointer), txnId;
      }
      request.value.SetTransactionNumber(txnId);
      window.PutPending(txnId, reqId);
      err := SendRelpRequestAsync(request.value);
    }

    /** `sendBatch(batch)`: every queued request is stamped and written, then the
        acknowledgements are read. `sentAll` when the sending finished; an exception while
        sending escapes before anything is read. */
    method SendBatch(batch: RelpBatch)
      returns (err: Option<Exception>, ghost sentAll: bool, ghost ids: seq<int>, ghost txns: seq<int>,
               ghost fed: seq<byte>, ghost stored: map<int, Ack>)
      requires Valid() && batch.Valid()
      modifies txID, window, relpClientSocket, preAllocatedTXBuffer, preAllocatedTXBuffer.data, batch, batch.requests.Values
      modifies parser.Repr, preAllocatedRXBuffer, preAllocatedRXBuffer.data
      ensures Valid() && batch.Valid() && fresh(parser.Repr - old(parser.Repr))
      ensures batch.requests == old(batch.requests) && batch.nextId == old(batch.nextId)
      ensures relpClientSocket.channel == old(relpClientSocket.channel)
      ensures |ids| == |txns| && txns == IssuedFrom(old(txID.transactionIdentifier), |txns|)
      ensures forall k :: 0 <= k < |ids| ==> ids[k] in old(batch.workQueue) && ids[k] in batch.requests
      ensures Increasing(ids)
      ensures old(relpClientSocket.received) <= relpClientSocket.received
      ensures !sentAll ==> err.Some? && fed == [] && batch.responses == old(batch.responses)
      ensures !sentAll ==> window.pending == Recorded(old(window.pending), txns, ids)
      ensures sentAll ==> |batch.workQueue| == 0 && forall id :: id in old(batch.workQueue) ==> id in ids
      ensures sentAll ==> relpClientSocket.sent == old(relpClientSocket.sent) + WireOf(batch.requests, ids, txns)
      ensures sentAll ==> txID.transactionIdentifier == CounterAfter(old(txID.transactionIdentifier), |txns|)
      ensures sentAll && (err.None? || IsReadFailure(err.value)) ==>
        fed + preAllocatedRXBuffer.Written() ==
          old(preAllocatedRXBuffer.Written()) + relpClientSocket.received[|old(relpClientSocket.received)|..]
      ensures sentAll ==>
        var r := AbsorbAll(Session(old(parser.View()), Recorded(old(window.pending), txns, ids), map[]), batch.requests.Keys, fed);
        r.0 == SessionAt(parser, window, stored) &&
        (err.None? ==> r.1.None? && |window.pending| == 0) &&
        (err.Some? ==> r.1 == err || (r.1.None? && IsReadFailure(err.value)))
      ensures sentAll ==> StoredSince(batch, old(batch.responses), stored)
    {
      fed, stored := [], map[];
      err, ids, txns := SendQueued(batch);
      sentAll := err.None?;
      if err.Some? {
        return;
      }
      err, fed, stored := ReadAcks(batch);
    }

    /** What the exchange of one request leaves, against the state before it: request 0 of
        `batch` carries `command` and `data`; its frame, numbered `t`, was written after
        `sent0`; every byte received after `r0` was fed to the decoder or waits in the receive
        buffer after `w0`; what was fed took the decoder from `v0`, with `t` pending for request 0
        on top of `pending0`, to an empty window without error; `stored` is what the batch
        received. */
    ghost predicate Exchanged(win: RelpWindow, rx: ByteBuffer, batch: RelpBatch, command: string, data: Option<seq<byte>>, t: int, pending0: map<int, int>,
                              v0: ParserView, sent0: seq<byte>, w0: seq<byte>, r0: seq<byte>, fed: seq<byte>, stored: map<int, Ack>)
      reads parser, parser.Repr, win, relpClientSocket, rx, rx.data
      reads batch, batch.responses.Values
      requires parser.Valid() && rx.Valid()
    {
      Wf(v0) && batch.Valid() && batch.requests.Keys == {0} &&
      batch.requests[0].command == command && batch.requests[0].data == data &&
      batch.requests[0].dataLength == DataLengthOf(data) &&
      relpClientSocket.sent == sent0 + FrameBytes(t, command, DataLengthOf(data), data) &&
      r0 <= relpClientSocket.received &&
      fed + rx.Written() == w0 + relpClientSocket.received[|r0|..] &&
      AbsorbAll(Session(v0, pending0[t := 0], map[]), {0}, fed) == (SessionAt(parser, win, stored), None) &&
      |win.pending| == 0 && StoredSince(batch, map[], stored)
    }

    /** What `connect` and `disconnect` do with their command: a new batch holding only
        `request` (under id 0), sent with `sendBatch`. */
    method Exchange(request: RelpFrameTX) returns (err: Option<Exception>, batch: RelpBatch, ghost fed: seq<byte>, ghost stored: map<int, Ack>)
      requires Valid() && request.dataLength == DataLengthOf(request.data)
      modifies txID, window, relpClientSocket, preAllocatedTXBuffer, preAllocatedTXBuffer.data, request
      modifies parser.Repr, preAllocatedRXBuffer, preAllocatedRXBuffer.data
      ensures Valid() && fresh(batch) && batch.Valid() && fresh(parser.Repr - old(parser.Repr))
      ensures batch.requests == map[0 := request]
      ensures relpClientSocket.channel == old(relpClientSocket.channel)
      ensures err.None? ==> txID.transactionIdentifier == Issue(old(txID.transactionIdentifier)) + 1
      ensures err.None? ==> Exchanged(window, preAllocatedRXBuffer, batch, request.command, request.data, Issue(old(txID.transactionIdentifier)),
        old(window.pending), old(parser.View()), old(relpClientSocket.sent), old(preAllocatedRXBuffer.Written()),
        old(relpClientSocket.received), fed, stored)
    {
      batch := BatchOf(request);
      ghost var sentAll, ids, txns;
      err, sentAll, ids, txns, fed, stored := SendBatch(batch);
      if sentAll {
        SingleRequest(batch.requests, old(window.pending), old(txID.transactionIdentifier), ids, txns);
      }
    }

    /** `connect()`: only from CLOSED. A new transaction counter and window, the socket opened,
        then the open command with the offer exchanged; OPEN when the response's code is 200.
        `exchanged` when the exchange ended without an exception; then `batch` is the batch it
        used. Exceptions of the open, of the exchange and of reading the response code escape. */
    method Connect()
      returns (r: Outcome<bool>, ghost batch: RelpBatch?, ghost exchanged: bool, ghost fed: seq<byte>, ghost stored: map<int, Ack>)
      requires Valid()
      modifies this, relpClientSocket, preAllocatedTXBuffer, preAllocatedTXBuffer.data
      modifies parser.Repr, preAllocatedRXBuffer, preAllocatedRXBuffer.data
      ensures Valid() && fresh(Repr - old(Repr)) && fresh(parser.Repr - old(parser.Repr))
      ensures preAllocatedTXBuffer == old(preAllocatedTXBuffer) && preAllocatedRXBuffer == old(preAllocatedRXBuffer)
      ensures rxBufferSize == old(rxBufferSize) && txBufferSize == old(txBufferSize)
      ensures state == (if r == Ok(true) then OPEN else old(state))
      ensures old(state) != CLOSED ==>
        r == Thrown(IllegalState("Session is not closed.")) && !exchanged &&
        txID == old(txID) && window == old(window) && relpClientSocket.sent == old(relpClientSocket.sent)
      ensures old(state) == CLOSED ==> fresh(txID) && fresh(window)
      ensures old(state) == CLOSED && OpenError(NextOpen(old(relpClientSocket.opens))).Some? ==>
        r == Thrown(OpenError(NextOpen(old(relpClientSocket.opens))).value) && !exchanged &&
        relpClientSocket.sent == old(relpClientSocket.sent)
      ensures !exchanged ==> r.Thrown?
      ensures exchanged ==> old(state) == CLOSED && batch != null && relpClientSocket.channel == Connected
      ensures exchanged ==> Exchanged(window, preAllocatedRXBuffer, batch, RelpCommands.OPEN, Some(OFFER), 1, map[], old(parser.View()), old(relpClientSocket.sent),
        old(preAllocatedRXBuffer.Written()), old(relpClientSocket.received), fed, stored)
      ensures exchanged ==> r == Verification({0}, batch.responses, 0)
    {
      batch, exchanged, fed, stored := null, false, [], map[];
      if state != CLOSED {
        return Thrown(IllegalState("Session is not closed.")), batch, exchanged, fed, stored;
      }
      Renew();
      var openErr := relpClientSocket.Open();
      if openErr.Some? {
        return Thrown(openErr.value), batch, exchanged, fed, stored;
      }
      r, batch, exchanged, fed, stored := Offer();
    }

    /** The start of `connect`: a new transaction counter and a new window. */
    method Renew()
      requires Valid()
      modifies this
      ensures Valid() && fresh(Repr - old(Repr)) && fresh(txID) && fresh(window)
      ensures txID.transactionIdentifier == 1 && window.pending == map[]
      ensures state == old(state) && rxBufferSize == old(rxBufferSize) && txBufferSize == old(txBufferSize)
      ensures preAllocatedTXBuffer == old(preAllocatedTXBuffer) && preAllocatedRXBuffer == old(preAllocatedRXBuffer)
    {
      txID := new TxID();
      window := new RelpWindow();
      Repr := {this, preAllocatedTXBuffer, preAllocatedTXBuffer.data, preAllocatedRXBuffer,
               preAllocatedRXBuffer.data, txID, window, relpClientSocket, parser};
    }

    /** The second half of `connect`, on a newly opened socket with a new counter and window:
        the open command with the offer exchanged; OPEN when the response's code is 200. */
    method Offer()
      returns (r: Outcome<bool>, ghost batch: RelpBatch?, ghost exchanged: bool, ghost fed: seq<byte>, ghost stored: map<int, Ack>)
      requires Valid() && txID.transactionIdentifier == 1 && window.pending == map[]
      modifies this, txID, window, relpClientSocket, preAllocatedTXBuffer, preAllocatedTXBuffer.data
      modifies parser.Repr, preAllocatedRXBuffer, preAllocatedRXBuffer.data
      ensures Valid() && Repr == old(Repr) && fresh(parser.Repr - old(parser.Repr))
      ensures preAllocatedTXBuffer == old(preAllocatedTXBuffer) && preAllocatedRXBuffer == old(preAllocatedRXBuffer)
      ensures txID == old(txID) && window == old(window)
      ensures rxBufferSize == old(rxBufferSize) && txBufferSize == old(txBufferSize)
      ensures state == (if r == Ok(true) then OPEN else old(state))
      ensures relpClientSocket.channel == old(relpClientSocket.channel)
      ensures !exchanged ==> r.Thrown?
      ensures exchanged ==> batch != null
      ensures exchanged ==> Exchanged(window, preAllocatedRXBuffer, batch, RelpCommands.OPEN, Some(OFFER), 1, map[], old(parser.View()), old(relpClientSocket.sent),
        old(preAllocatedRXBuffer.Written()), old(relpClientSocket.received), fed, stored)
      ensures exchanged ==> r == Verification({0}, batch.responses, 0)
    {
      batch, exchanged := null, false;
      var err, openBatch;
      err, openBatch, fed, stored := ExchangeOffer();
      if err.Some? {
        return Thrown(err.value), batch, exchanged, fed, stored;
      }
      batch, exchanged := openBatch, true;
      r := OpenIfVerified(openBatch, old(parser.View()), old(relpClientSocket.sent), old(preAllocatedRXBuffer.Written()),
                          old(relpClientSocket.received), fed, stored);
    }

    /** The end of `connect`, once the open command was exchanged: OPEN when the response to
        request 0 verifies. */
    method OpenIfVerified(batch: RelpBatch, ghost v0: ParserView, ghost sent0: seq<byte>, ghost w0: seq<byte>, ghost r0: seq<byte>,
                          ghost fed: seq<byte>, ghost stored: map<int, Ack>)
      returns (r: Outcome<bool>)
      requires Valid() && Exchanged(window, preAllocatedRXBuffer, batch, RelpCommands.OPEN, Some(OFFER), 1, map[], v0, sent0, w0, r0, fed, stored)
      modifies this
      ensures Valid() && Repr == old(Repr)
      ensures preAllocatedTXBuffer == old(preAllocatedTXBuffer) && preAllocatedRXBuffer == old(preAllocatedRXBuffer)
      ensures txID == old(txID) && window == old(window)
      ensures rxBufferSize == old(rxBufferSize) && txBufferSize == old(txBufferSize)
      ensures Exchanged(window, preAllocatedRXBuffer, batch, RelpCommands.OPEN, Some(OFFER), 1, map[], v0, sent0, w0, r0, fed, stored)
      ensures r == Verification({0}, batch.responses, 0)
      ensures state == (if r == Ok(true) then OPEN else old(state))
    {
      r := batch.VerifyTransaction(0);
      if r == Ok(true) {
        Enter(OPEN);
      }
    }

    /** The open command with the offer, exchanged on a new counter and window. */
    method ExchangeOffer() returns (err: Option<Exception>, batch: RelpBatch, ghost fed: seq<byte>, ghost stored: map<int, Ack>)
      requires Valid() && txID.transactionIdentifier == 1 && window.pending == map[]
      modifies txID, window, relpClientSocket, preAllocatedTXBuffer, preAllocatedTXBuffer.data
      modifies parser.Repr, preAllocatedRXBuffer, preAllocatedRXBuffer.data
      ensures Valid() && fresh(batch) && batch.Valid() && fresh(parser.Repr - old(parser.Repr))
      ensures relpClientSocket.channel == old(relpClientSocket.channel)
      ensures err.None? ==> Exchanged(window, preAllocatedRXBuffer, batch, RelpCommands.OPEN, Some(OFFER), 1, map[], old(parser.View()),
        old(relpClientSocket.sent), old(preAllocatedRXBuffer.Written()), old(relpClientSocket.received), fed, stored)
    {
      var request := new RelpFrameTX(RelpCommands.OPEN, Some(OFFER));
      err, batch, fed, stored := Exchange(request);
    }

    /** `disconnect()`: only from OPEN. The close command exchanged; a response without data
        means success, upon which the socket is closed and the session CLOSED. An exception of
        that close escapes and leaves the session OPEN. */
    method Disconnect()
      returns (r: Outcome<bool>, ghost batch: RelpBatch?, ghost exchanged: bool, ghost fed: seq<byte>, ghost stored: map<int, Ack>)
      requires Valid()
      modifies this, txID, window, relpClientSocket, preAllocatedTXBuffer, preAllocatedTXBuffer.data
      modifies parser.Repr, preAllocatedRXBuffer, preAllocatedRXBuffer.data
      ensures Valid() && Repr == old(Repr) && fresh(parser.Repr - old(parser.Repr))
      ensures preAllocatedTXBuffer == old(preAllocatedTXBuffer) && preAllocatedRXBuffer == old(preAllocatedRXBuffer)
      ensures txID == old(txID) && window == old(window)
      ensures rxBufferSize == old(rxBufferSize) && txBufferSize == old(txBufferSize)
      ensures state == (if r == Ok(true) then CLOSED else old(state))
      ensures old(state) != OPEN ==>
        r == Thrown(IllegalState("Session is not in open state, can not close.")) && !exchanged &&
        relpClientSocket.sent == old(relpClientSocket.sent) && relpClientSocket.channel == old(relpClientSocket.channel)
      ensures !exchanged ==> r.Thrown?
      ensures exchanged ==> old(state) == OPEN && batch != null
      ensures exchanged ==> Exchanged(window, preAllocatedRXBuffer, batch, RelpCommands.CLOSE, None, Issue(old(txID.transactionIdentifier)), old(window.pending),
        old(parser.View()), old(relpClientSocket.sent), old(preAllocatedRXBuffer.Written()), old(relpClientSocket.received), fed, stored)
      ensures exchanged ==> var ok := 0 in batch.responses && batch.responses[0].dataLength == 0;
        (!ok ==> r == Ok(false) && relpClientSocket.channel == old(relpClientSocket.channel)) &&
        (ok ==> r != Ok(false)) &&
        (ok && r.Thrown? ==> r.ex == NullPointer || r.ex == IOError("close failed"))
      ensures r == Ok(true) ==> relpClientSocket.channel == Closed
    {
      batch, exchanged, fed, stored := null, false, [], map[];
      if state != OPEN {
        return Thrown(IllegalState("Session is not in open state, can not close.")), batch, exchanged, fed, stored;
      }
      var request := new RelpFrameTX.OfCommand(RelpCommands.CLOSE);
      var err, closeBatch;
      err, closeBatch, fed, stored := Exchange(request);
      if err.Some? {
        return Thrown(err.value), batch, exchanged, fed, stored;
      }
      batch, exchanged := closeBatch, true;
      r := Hangup(closeBatch, Issue(old(txID.transactionIdentifier)), old(window.pending), old(parser.View()),
                  old(relpClientSocket.sent), old(preAllocatedRXBuffer.Written()), old(relpClientSocket.received), fed, stored);
    }

    /** The end of `disconnect`, once the close command was exchanged: success when the
        response has no data, and then the socket is closed and the session CLOSED. */
    method Hangup(batch: RelpBatch, ghost t: int, ghost pending0: map<int, int>, ghost v0: ParserView, ghost sent0: seq<byte>,
                  ghost w0: seq<byte>, ghost r0: seq<byte>, ghost fed: seq<byte>, ghost stored: map<int, Ack>)
      returns (r: Outcome<bool>)
      requires Valid() && Exchanged(window, preAllocatedRXBuffer, batch, RelpCommands.CLOSE, None, t, pending0, v0, sent0, w0, r0, fed, stored)
      modifies this, relpClientSocket
      ensures Valid() && Repr == old(Repr)
      ensures preAllocatedTXBuffer == old(preAllocatedTXBuffer) && preAllocatedRXBuffer == old(preAllocatedRXBuffer)
      ensures txID == old(txID) && window == old(window)
      ensures rxBufferSize == old(rxBufferSize) && txBufferSize == old(txBufferSize)
      ensures Exchanged(window, preAllocatedRXBuffer, batch, RelpCommands.CLOSE, None, t, pending0, v0, sent0, w0, r0, fed, stored)
      ensures state == (if r == Ok(true) then CLOSED else old(state))
      ensures var ok := 0 in batch.responses && batch.responses[0].dataLength == 0;
        (!ok ==> r == Ok(false) && relpClientSocket.channel == old(relpClientSocket.channel)) &&
        (ok ==> r != Ok(false)) &&
        (ok && r.Thrown? ==> r.ex == NullPointer || r.ex == IOError("close failed"))
      ensures r == Ok(true) ==> relpClientSocket.channel == Closed
    {
      var closeSuccess := false;
      var closeResponse := batch.GetResponse(0);
      if closeResponse.Some? && closeResponse.value.dataLength == 0 {
        closeSuccess := true;
      }
      if closeSuccess {
        var closeErr := CloseExchanged(batch, t, pending0, v0, sent0, w0, r0, fed, stored);
        if closeErr.Some? {
          return Thrown(closeErr.value);
        }
        Enter(CLOSED);
      }
      r := Ok(closeSuccess);
    }

    /** The socket closed after the close command was exchanged, keeping what was exchanged. */
    method CloseExchanged(batch: RelpBatch, ghost t: int, ghost pending0: map<int, int>, ghost v0: ParserView, ghost sent0: seq<byte>,
                          ghost w0: seq<byte>, ghost r0: seq<byte>, ghost fed: seq<byte>, ghost stored: map<int, Ack>)
      returns (err: Option<Exception>)
      requires Valid() && Exchanged(window, preAllocatedRXBuffer, batch, RelpCommands.CLOSE, None, t, pending0, v0, sent0, w0, r0, fed, stored)
      modifies relpClientSocket
      ensures Valid() && Exchanged(window, preAllocatedRXBuffer, batch, RelpCommands.CLOSE, None, t, pending0, v0, sent0, w0, r0, fed, stored)
      ensures err.Some? ==> err.value == NullPointer || err.value == IOError("close failed")
      ensures err.None? ==> relpClientSocket.channel == Closed
    {
      err := relpClientSocket.Close();
    }

    /** `sendBatch` inside `commit`: the state is COMMIT while the batch is sent and moves back
        to OPEN after a normal return. */
    method SendCommitted(batch: RelpBatch)
      returns (err: Option<Exception>, ghost sentAll: bool, ghost ids: seq<int>, ghost txns: seq<int>,
               ghost fed: seq<byte>, ghost stored: map<int, Ack>)
      requires Valid() && batch.Valid()
      modifies this, txID, window, relpClientSocket, preAllocatedTXBuffer, preAllocatedTXBuffer.data, batch, batch.requests.Values
      modifies parser.Repr, preAllocatedRXBuffer, preAllocatedRXBuffer.data
      ensures Repr == old(Repr) && preAllocatedTXBuffer == old(preAllocatedTXBuffer) && preAllocatedRXBuffer == old(preAllocatedRXBuffer)
      ensures txID == old(txID) && window == old(window)
      ensures rxBufferSize == old(rxBufferSize) && txBufferSize == old(txBufferSize)
      ensures state == (if err.None? then OPEN else COMMIT)
      ensures Valid() && batch.Valid() && fresh(parser.Repr - old(parser.Repr))
      ensures batch.requests == old(batch.requests) && batch.nextId == old(batch.nextId)
      ensures relpClientSocket.channel == old(relpClientSocket.channel)
      ensures |ids| == |txns| && txns == IssuedFrom(old(txID.transactionIdentifier), |txns|)
      ensures forall k :: 0 <= k < |ids| ==> ids[k] in old(batch.workQueue) && ids[k] in batch.requests
      ensures Increasing(ids)
      ensures old(relpClientSocket.received) <= relpClientSocket.received
      ensures !sentAll ==> err.Some? && fed == [] && batch.responses == old(batch.responses)
      ensures !sentAll ==> window.pending == Recorded(old(window.pending), txns, ids)
      ensures sentAll ==> |batch.workQueue| == 0 && forall id :: id in old(batch.workQueue) ==> id in ids
      ensures sentAll ==> relpClientSocket.sent == old(relpClientSocket.sent) + WireOf(batch.requests, ids, txns)
      ensures sentAll ==> txID.transactionIdentifier == CounterAfter(old(txID.transactionIdentifier), |txns|)
      ensures sentAll && (err.None? || IsReadFailure(err.value)) ==>
        fed + preAllocatedRXBuffer.Written() ==
          old(preAllocatedRXBuffer.Written()) + relpClientSocket.received[|old(relpClientSocket.received)|..]
      ensures sentAll ==>
        var r := AbsorbAll(Session(old(parser.View()), Recorded(old(window.pending), txns, ids), map[]), batch.requests.Keys, fed);
        r.0 == SessionAt(parser, window, stored) &&
        (err.None? ==> r.1.None? && |window.pending| == 0) &&
        (err.Some? ==> r.1 == err || (r.1.None? && IsReadFailure(err.value)))
      ensures sentAll ==> StoredSince(batch, old(batch.responses), stored)
    {
      Enter(COMMIT);
      err, sentAll, ids, txns, fed, stored := SendBatch(batch);
      if err.None? {
        Enter(OPEN);
      }
    }

    /** `commit(batch)`: only from OPEN. COMMIT while the batch is sent and its
        acknowledgements read, OPEN again afterwards; an exception of `sendBatch` escapes and
        leaves the session in COMMIT. */
    method Commit(batch: RelpBatch)
      returns (err: Option<Exception>, ghost sentAll: bool, ghost ids: seq<int>, ghost txns: seq<int>,
               ghost fed: seq<byte>, ghost stored: map<int, Ack>)
      requires Valid() && batch.Valid()
      modifies this, txID, window, relpClientSocket, preAllocatedTXBuffer, preAllocatedTXBuffer.data, batch, batch.requests.Values
      modifies parser.Repr, preAllocatedRXBuffer, preAllocatedRXBuffer.data
      ensures Valid() && batch.Valid() && Repr == old(Repr) && fresh(parser.Repr - old(parser.Repr))
      ensures preAllocatedTXBuffer == old(preAllocatedTXBuffer) && preAllocatedRXBuffer == old(preAllocatedRXBuffer)
      ensures txID == old(txID) && window == old(window)
      ensures rxBufferSize == old(rxBufferSize) && txBufferSize == old(txBufferSize)
      ensures batch.requests == old(batch.requests) && batch.nextId == old(batch.nextId)
      ensures relpClientSocket.channel == old(relpClientSocket.channel)
      ensures old(relpClientSocket.received) <= relpClientSocket.received
      ensures old(state) != OPEN ==>
        err == Some(IllegalState("Session is not in open state, can not commit.")) && state == old(state) && !sentAll &&
        ids == [] && batch.workQueue == old(batch.workQueue) && batch.responses == old(batch.responses) &&
        relpClientSocket.sent == old(relpClientSocket.sent)
      ensures old(state) == OPEN ==> state == (if err.None? then OPEN else COMMIT)
      ensures |ids| == |txns| && txns == IssuedFrom(old(txID.transactionIdentifier), |txns|)
      ensures forall k :: 0 <= k < |ids| ==> ids[k] in old(batch.workQueue) && ids[k] in batch.requests
      ensures Increasing(ids)
      ensures !sentAll ==> err.Some? && fed == [] && batch.responses == old(batch.responses)
      ensures !sentAll ==> window.pending == Recorded(old(window.pending), txns, ids)
      ensures sentAll ==> old(state) == OPEN && |batch.workQueue| == 0 && forall id :: id in old(batch.workQueue) ==> id in ids
      ensures sentAll ==> relpClientSocket.sent == old(relpClientSocket.sent) + WireOf(batch.requests, ids, txns)
      ensures sentAll ==> txID.transactionIdentifier == CounterAfter(old(txID.transactionIdentifier), |txns|)
      ensures sentAll && (err.None? || IsReadFailure(err.value)) ==>
        fed + preAllocatedRXBuffer.Written() ==
          old(preAllocatedRXBuffer.Written()) + relpClientSocket.received[|old(relpClientSocket.received)|..]
      ensures sentAll ==>
        var r := AbsorbAll(Session(old(parser.View()), Recorded(old(window.pending), txns, ids), map[]), batch.requests.Keys, fed);
        r.0 == SessionAt(parser, window, stored) &&
        (err.None? ==> r.1.None? && |window.pending| == 0) &&
        (err.Some? ==> r.1 == err || (r.1.None? && IsReadFailure(err.value)))
      ensures sentAll ==> StoredSince(batch, old(batch.responses), stored)
    {
      if state != OPEN {
        return Some(IllegalState("Session is not in open state, can not commit.")), false, [], [], [], map[];
      }
      err, sentAll, ids, txns, fed, stored := SendCommitted(batch);
    }

    /** The session moves to state `s`; nothing else changes. */
    method Enter(s: ConnectionState)
      requires Valid()
      modifies this
      ensures Valid() && state == s
      ensures Repr == old(Repr) && preAllocatedTXBuffer == old(preAllocatedTXBuffer) && preAllocatedRXBuffer == old(preAllocatedRXBuffer)
      ensures txID == old(txID) && window == old(window)
      ensures rxBufferSize == old(rxBufferSize) && txBufferSize == old(txBufferSize)
    {
      state := s;
    }

    /** `readAcks(batch)`: while the window is not empty, read from the socket into the receive
        buffer and feed what arrived to the decoder; a complete response frame whose number is
        pending is stored in the batch and leaves the window. `fed` is every byte given to the
        decoder; `stored` the responses stored in the batch. A read exception or a parse
        exception ends the call. */
    method ReadAcks(batch: RelpBatch) returns (err: Option<Exception>, ghost fed: seq<byte>, ghost stored: map<int, Ack>)
      requires Valid() && batch.Valid()
      modifies parser.Repr, preAllocatedRXBuffer, preAllocatedRXBuffer.data, window, batch, relpClientSocket
      ensures Valid() && batch.Valid() && fresh(parser.Repr - old(parser.Repr))
      ensures batch.requests == old(batch.requests) && batch.workQueue == old(batch.workQueue) && batch.nextId == old(batch.nextId)
      ensures relpClientSocket.sent == old(relpClientSocket.sent) && relpClientSocket.channel == old(relpClientSocket.channel)
      ensures relpClientSocket.writeTimeouts == old(relpClientSocket.writeTimeouts)
      ensures relpClientSocket.closeFailures == old(relpClientSocket.closeFailures)
      ensures txID.transactionIdentifier == old(txID.transactionIdentifier)
      ensures old(relpClientSocket.received) <= relpClientSocket.received
      ensures err.None? || IsReadFailure(err.value) ==>
        fed + preAllocatedRXBuffer.Written() ==
          old(preAllocatedRXBuffer.Written()) + relpClientSocket.received[|old(relpClientSocket.received)|..]
      ensures var r := AbsorbAll(old(SessionAt(parser, window, map[])), batch.requests.Keys, fed);
        r.0 == SessionAt(parser, window, stored) &&
        (err.None? ==> r.1.None? && |window.pending| == 0) &&
        (err.Some? ==> r.1 == err || (r.1.None? && IsReadFailure(err.value)))
      ensures StoredSince(batch, old(batch.responses), stored)
    {
      err, fed, stored := Receiving.ReadAcks(relpClientSocket, parser, preAllocatedRXBuffer, window, batch);
    }


  }

  /** The ids stamped so far and the numbers they got, against the state before the loop of
      `sendBatch` (`queue0`, `pending0`, counter `t0`): the queue only shrinks; the numbers are
      the ones issued from `t0`; the ids came from the queue, in increasing order and below
      every id still queued; the window holds them. */
  ghost predicate StampedSoFar(t0: int, pending0: map<int, int>, queue0: set<int>, queue: set<int>,
                               requests: map<int, RelpFrameTX>, pending: map<int, int>, ids: seq<int>, txns: seq<int>)
    requires 1 <= t0 <= MAX_ID
  {
    queue <= queue0 &&
    |ids| == |txns| && txns == IssuedFrom(t0, |txns|) &&
    (forall k :: 0 <= k < |ids| ==> ids[k] in queue0 && ids[k] in requests) &&
    Increasing(ids) && AllBelow(ids, queue) &&
    pending == Recorded(pending0, txns, ids)
  }

  /** ...and, while nothing has failed, the counter has moved on by one per id, every id of
      the queue is stamped or still queued, and their frames were sent in order. */
  ghost predicate SentSoFar(t0: int, pending0: map<int, int>, sent0: seq<byte>, queue0: set<int>, queue: set<int>,
                            requests: map<int, RelpFrameTX>, pending: map<int, int>, counter: int, sent: seq<byte>,
                            ids: seq<int>, txns: seq<int>)
    requires 1 <= t0 <= MAX_ID
  {
    StampedSoFar(t0, pending0, queue0, queue, requests, pending, ids, txns) &&
    counter == CounterAfter(t0, |txns|) &&
    (forall id :: id in queue0 ==> id in queue || id in ids) &&
    sent == sent0 + WireOf(requests, ids, txns)
  }

  /** Popping the smallest queued id, stamping it with the next number and recording it keeps
      the first half of the loop's view... */
  lemma StampedStep(t0: int, pending0: map<int, int>, queue0: set<int>, queue: set<int>,
                    requests: map<int, RelpFrameTX>, pending: map<int, int>, ids: seq<int>, txns: seq<int>, id: int)
    requires 1 <= t0 <= MAX_ID
    requires StampedSoFar(t0, pending0, queue0, queue, requests, pending, ids, txns)
    requires id in queue && (forall x :: x in queue ==> id <= x) && id in requests
    ensures var t := Issue(CounterAfter(t0, |txns|));
      StampedSoFar(t0, pending0, queue0, queue - {id}, requests, pending[t := id], ids + [id], txns + [t])
  {
    var t := Issue(CounterAfter(t0, |txns|));
    var ids', txns' := ids + [id], txns + [t];
    IncreasingSnoc(ids, queue, id);
    RecordedSnoc(pending0, txns, ids, t, id);
    assert txns' == IssuedFrom(t0, |txns'|);
    assert forall k :: 0 <= k < |ids'| ==> ids'[k] in queue0 && ids'[k] in requests by {
      forall k | 0 <= k < |ids'| ensures ids'[k] in queue0 && ids'[k] in requests {
        if k < |ids| { assert ids'[k] == ids[k]; }
      }
    }
  }

  /** ...and sending its frame keeps the second. */
  lemma SentStep(t0: int, pending0: map<int, int>, sent0: seq<byte>, queue0: set<int>, queue: set<int>,
                 requests: map<int, RelpFrameTX>, pending: map<int, int>, sent: seq<byte>,
                 ids: seq<int>, txns: seq<int>, id: int)
    requires 1 <= t0 <= MAX_ID
    requires SentSoFar(t0, pending0, sent0, queue0, queue, requests, pending, CounterAfter(t0, |txns|), sent, ids, txns)
    requires id in queue && (forall x :: x in queue ==> id <= x) && id in requests
    ensures var t := Issue(CounterAfter(t0, |txns|)); var f := requests[id];
      StampedSoFar(t0, pending0, queue0, queue - {id}, requests, pending[t := id], ids + [id], txns + [t]) &&
      (forall x :: x in queue0 ==> x in queue - {id} || x in ids + [id]) &&
      t + 1 == CounterAfter(t0, |txns + [t]|) &&
      sent + FrameBytes(t, f.command, f.dataLength, f.data) == sent0 + WireOf(requests, ids + [id], txns + [t])
  {
    var t := Issue(CounterAfter(t0, |txns|));
    var ids', queue' := ids + [id], queue - {id};
    StampedStep(t0, pending0, queue0, queue, requests, pending, ids, txns, id);
    SentAppend(requests, sent0, sent, ids, txns, id, t);
    assert CounterAfter(t0, |txns| + 1) == t + 1;
    CoveredStep(queue0, queue, ids, id);
  }

  /** Every id of the queue stays stamped or queued when the popped id is stamped. */
  lemma CoveredStep(queue0: set<int>, queue: set<int>, ids: seq<int>, id: int)
    requires forall x :: x in queue0 ==> x in queue || x in ids
    ensures forall x :: x in queue0 ==> x in queue - {id} || x in ids + [id]
  {
    var ids', queue' := ids + [id], queue - {id};
    forall x | x in queue0 ensures x in queue' || x in ids' {
      if x !in queue' && x != id {
        assert x in ids;
        var k :| 0 <= k < |ids| && ids[k] == x;
        assert ids'[k] == x;
      }
      if x == id { assert ids'[|ids|] == x; }
    }
  }

  lemma SentAppend(requests: map<int, RelpFrameTX>, sent0: seq<byte>, sent: seq<byte>, ids: seq<int>, txns: seq<int>, id: int, t: int)
    requires |txns| == |ids| && (forall k :: 0 <= k < |ids| ==> ids[k] in requests) && id in requests
    requires sent == sent0 + WireOf(requests, ids, txns)
    ensures sent + FrameBytes(t, requests[id].command, requests[id].dataLength, requests[id].data) ==
      sent0 + WireOf(requests, ids + [id], txns + [t])
  {
    WireOfSnoc(requests, ids, txns, id, t);
    AppendAssoc(sent0, WireOf(requests, ids, txns), FrameBytes(t, requests[id].command, requests[id].dataLength, requests[id].data));
  }

  /** The ids stamped so far, in increasing order... */
  ghost predicate Increasing(ids: seq<int>) {
    forall i, j :: 0 <= i < j < |ids| ==> ids[i] < ids[j]
  }

  /** ...and each below every id still queued. */
  ghost predicate AllBelow(ids: seq<int>, queue: set<int>) {
    forall k, id :: 0 <= k < |ids| && id in queue ==> ids[k] < id
  }

  /** Popping the smallest queued id keeps both. */
  lemma IncreasingSnoc(ids: seq<int>, queue: set<int>, id: int)
    requires Increasing(ids) && AllBelow(ids, queue)
    requires id in queue && forall x :: x in queue ==> id <= x
    ensures Increasing(ids + [id]) && AllBelow(ids + [id], queue - {id})
  {
  }

  lemma RecordedSnoc(pending: map<int, int>, txns: seq<int>, ids: seq<int>, t: int, id: int)
    requires |txns| == |ids|
    ensures Recorded(pending, txns + [t], ids + [id]) == Recorded(pending, txns, ids)[t := id]
  {
    assert (txns + [t])[..|txns|] == txns && (ids + [id])[..|ids|] == ids;
  }

  lemma WireOfSnoc(requests: map<int, RelpFrameTX>, ids: seq<int>, txns: seq<int>, id: int, t: int)
    requires |txns| == |ids| && (forall k :: 0 <= k < |ids| ==> ids[k] in requests) && id in requests
    ensures forall k :: 0 <= k < |ids + [id]| ==> (ids + [id])[k] in requests
    ensures WireOf(requests, ids + [id], txns + [t]) ==
      WireOf(requests, ids, txns) + FrameBytes(t, requests[id].command, requests[id].dataLength, requests[id].data)
  {
    assert (txns + [t])[..|txns|] == txns && (ids + [id])[..|ids|] == ids;
  }

  /** The size of the buffer `sendRelpRequestAsync` writes into: a fresh one of `length` bytes
      when that is more than the preallocated `txBufferSize`, the preallocated one otherwise. */
  function SendCapacity(length: int, txBufferSize: int): int {
    if length > txBufferSize then length else txBufferSize
  }

  /** What sending a frame throws: BufferOverflowException when it is longer than the buffer
      chosen for it, otherwise whatever the write throws. */
  function SendError(frame: seq<byte>, length: int, txBufferSize: int, channel: Channel, writeTimeouts: seq<bool>): Option<Exception> {
    if |frame| > SendCapacity(length, txBufferSize) then Some(BufferOverflow) else WriteError(channel, writeTimeouts)
  }

  /** While the 32-bit `length()` has not wrapped round, the chosen buffer always holds the
      frame, so sending throws only what the write throws. */
  lemma SendFitsUnlessWrapped(txn: int, command: string, dataLength: int, data: Option<seq<byte>>,
                              txBufferSize: int, channel: Channel, writeTimeouts: seq<bool>)
    requires 0 <= txBufferSize && PrecomputedLength(txn, command, dataLength, data) <= MaxInt
    ensures var length := Wrap32(PrecomputedLength(txn, command, dataLength, data));
      SendError(FrameBytes(txn, command, dataLength, data), length, txBufferSize, channel, writeTimeouts) ==
        WriteError(channel, writeTimeouts)
  {
  }

  /** Once it has wrapped round to a negative count, the frame goes to the preallocated buffer,
      and a frame longer than that buffer is a BufferOverflowException before anything is
      written. */
  lemma SendOverflowsWhenWrapped(txn: int, command: string, dataLength: int, data: Option<seq<byte>>,
                                 txBufferSize: int, channel: Channel, writeTimeouts: seq<bool>)
    requires MaxInt < PrecomputedLength(txn, command, dataLength, data) < 0x1_0000_0000
    requires 0 <= txBufferSize < |FrameBytes(txn, command, dataLength, data)|
    ensures var length := Wrap32(PrecomputedLength(txn, command, dataLength, data));
      length < 0 &&
      SendError(FrameBytes(txn, command, dataLength, data), length, txBufferSize, channel, writeTimeouts) ==
        Some(BufferOverflow)
  {
    var exact := PrecomputedLength(txn, command, dataLength, data);
    Wrap32Negative(exact);
    assert SendCapacity(Wrap32(exact), txBufferSize) == txBufferSize;
  }

  /** Put the frame into an empty buffer, flip it, write it out and clear the buffer again. */
  method Transmit(request: RelpFrameTX, buffer: ByteBuffer, socket: Transport) returns (err: Option<Exception>)
    requires buffer.Valid() && buffer.position == 0 && buffer.limit == buffer.Capacity()
    requires |request.Bytes()| <= buffer.Capacity()
    modifies buffer, buffer.data, socket
    ensures buffer.Valid() && buffer.position == 0 && buffer.limit == buffer.Capacity()
    ensures err == WriteError(old(socket.channel), old(socket.writeTimeouts))
    ensures socket.sent == old(socket.sent) + (if err.None? then request.Bytes() else [])
    ensures socket.channel == old(socket.channel) && socket.arrivals == old(socket.arrivals)
    ensures socket.received == old(socket.received)
  {
    Stage(request, buffer);
    err := socket.Write(buffer);
    buffer.Clear();
  }

  /** The frame put into an empty buffer, which is then flipped for reading. */
  method Stage(request: RelpFrameTX, buffer: ByteBuffer)
    requires buffer.Valid() && buffer.position == 0 && buffer.limit == buffer.Capacity()
    requires |request.Bytes()| <= buffer.Capacity()
    modifies buffer, buffer.data
    ensures buffer.Valid() && buffer.Unread() == request.Bytes()
  {
    assert buffer.Written() == [];
    request.Write(buffer);
    assert buffer.Written() == request.Bytes();
    buffer.Flip();
  }

  /** `new RelpBatch()` followed by `putRequest(request)`. */
  method BatchOf(request: RelpFrameTX) returns (batch: RelpBatch)
    ensures fresh(batch) && batch.Valid() && batch.nextId == 1
    ensures batch.requests == map[0 := request] && batch.responses == map[] && batch.workQueue == {0}
  {
    batch := new RelpBatch();
    var reqId := batch.PutRequest(request);
  }

  /** A batch of one request: `sendBatch` stamps it with the next number and writes its frame. */
  lemma SingleRequest(requests: map<int, RelpFrameTX>, pending: map<int, int>, t0: int, ids: seq<int>, txns: seq<int>)
    requires 1 <= t0 <= MAX_ID && requests.Keys == {0}
    requires |ids| == |txns| && txns == IssuedFrom(t0, |txns|)
    requires (forall k :: 0 <= k < |ids| ==> ids[k] in {0} && ids[k] in requests) && Increasing(ids) && 0 in ids
    ensures ids == [0] && txns == [Issue(t0)] && CounterAfter(t0, |txns|) == Issue(t0) + 1
    ensures Recorded(pending, txns, ids) == pending[Issue(t0) := 0]
    ensures var f := requests[0]; WireOf(requests, ids, txns) == FrameBytes(Issue(t0), f.command, f.dataLength, f.data)
  {
    AtMostOne(ids, 0);
    assert txns[0] == Issue(CounterAfter(t0, 0));
    assert ids[..0] == [] && txns[..0] == [];
  }

  /** Increasing ids drawn from one value are at most one. */
  lemma AtMostOne(ids: seq<int>, x: int)
    requires Increasing(ids) && forall k :: 0 <= k < |ids| ==> ids[k] in {x}
    ensures |ids| <= 1
  {
    if |ids| > 1 {
      FirstTwo(ids);
      assert false;
    }
  }

  lemma FirstTwo(ids: seq<int>)
    requires Increasing(ids) && |ids| > 1
    ensures ids[0] < ids[1]
  {
  }
}
