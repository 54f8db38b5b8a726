/** The reading of acknowledgements (`readAcks` of a connection): bytes read from the socket go
    through the receive buffer into the decoder; each complete response frame whose number is
    pending is stored in the batch for its request and leaves the window. Written over the
    objects involved (socket, decoder, receive buffer, window, batch) rather than over the whole
    connection. */
module Receiving {
  import opened Wrappers
  import opened Text
  import opened Buffers
  import opened Frames
  import opened RelpParsing
  import opened Windows
  import opened Batches
  import opened Transports
  import opened Acknowledgements

  /** What a response frame holds, as an acknowledgement. */
  ghost function AckOfFrame(f: RelpFrameRX): Ack
    reads f
  {
    Ack(f.transactionNumber, f.command, f.dataLength, f.data)
  }

  /** The responses of a batch against those it had before (`before`): the ids in `stored` hold
      frames with exactly those acknowledgements, every other id is as before. */
  ghost predicate StoredSince(batch: RelpBatch, before: map<int, RelpFrameRX>, stored: map<int, Ack>)
    reads batch, batch.responses.Values
  {
    (forall id :: id in stored ==> id in batch.responses && AckOfFrame(batch.responses[id]) == stored[id]) &&
    (forall id :: id !in stored ==> (id in batch.responses <==> id in before)) &&
    (forall id :: id !in stored && id in before ==> batch.responses[id] == before[id])
  }

  /** The decoder and the receive buffer, each valid, the buffer outside the decoder's footprint. */
  ghost predicate Decoding(parser: RelpParser, rx: ByteBuffer)
    reads parser, parser.Repr, rx
  {
    parser.Valid() && rx.Valid() && rx !in parser.Repr && rx.data !in parser.Repr
  }

  /** The decoder, the window and the responses stored so far, as a value. */
  ghost function SessionAt(parser: RelpParser, window: RelpWindow, stored: map<int, Ack>): Session
    reads parser, parser.Repr, window
    requires parser.Valid()
  {
    Session(parser.View(), window.pending, stored)
  }

  /** Byte `b` took session `s` to `r` with exception `err`, case by case as `Absorb` says. */
  ghost predicate ByteAbsorbed(s: Session, known: set<int>, b: byte, r: Session, err: Option<Exception>)
    requires Wf(s.parser)
  {
    var st := Step(s.parser, b);
    err == st.error &&
    (st.error.None? && st.view.isComplete ==> r == Acknowledge(s, known, AckOf(st.view))) &&
    (!(st.error.None? && st.view.isComplete) ==> r == s.(parser := st.view))
  }

  lemma ByteAbsorbedIsAbsorb(s: Session, known: set<int>, b: byte, r: Session, err: Option<Exception>)
    requires Wf(s.parser) && ByteAbsorbed(s, known, b, r, err)
    ensures Absorb(s, known, b) == (r, err)
  {
  }

  /** One more byte at the end of what was absorbed without error. */
  lemma AbsorbAllSnoc(s0: Session, known: set<int>, fed: seq<byte>, s1: Session, b: byte, r: Session, err: Option<Exception>)
    requires Wf(s0.parser) && AbsorbAll(s0, known, fed) == (s1, None)
    requires Wf(s1.parser) && ByteAbsorbed(s1, known, b, r, err)
    ensures AbsorbAll(s0, known, fed + [b]) == (r, err)
  {
    AbsorbAllConcat(s0, known, fed, [b]);
    assert AbsorbAll(s0, known, fed + [b]) == AbsorbAll(s1, known, [b]);
    AbsorbAllOne(s1, known, b);
    ByteAbsorbedIsAbsorb(s1, known, b, r, err);
  }

  lemma AbsorbAllOne(s: Session, known: set<int>, b: byte)
    requires Wf(s.parser)
    ensures AbsorbAll(s, known, [b]) == Absorb(s, known, b)
  {
    assert [b][1..] == [];
  }

  lemma AppendAssoc(a: seq<byte>, b: seq<byte>, c: seq<byte>)
    ensures (a + b) + c == a + (b + c)
  {
  }

  /** The bookkeeping of `readAcks`: what was fed plus what stays buffered is what was buffered
      at the start plus everything received since. */
  lemma ReceivedBytes(fed: seq<byte>, more: seq<byte>, rest: seq<byte>, w1: seq<byte>, w0: seq<byte>,
                      r0: seq<byte>, r1: seq<byte>, r2: seq<byte>)
    requires r0 <= r1 <= r2
    requires fed + w1 == w0 + r1[|r0|..]
    ensures more + rest == w1 + r2[|r1|..] ==> (fed + more) + rest == w0 + r2[|r0|..]
  {
    assert r2[|r0|..] == r1[|r0|..] + r2[|r1|..];
    if more + rest == w1 + r2[|r1|..] {
      calc {
        (fed + more) + rest;
        fed + (more + rest);
        fed + (w1 + r2[|r1|..]);
        (fed + w1) + r2[|r1|..];
      }
    }
  }

  /** The exceptions a read can throw. */
  predicate IsReadFailure(e: Exception) {
    e in {NullPointer, IOError("channel closed"), Timeout("read timed out"), IOError("read failed")}
  }

  /** What a failed read throws. */
  lemma ReadFailure(r: Outcome<nat>, channel: Channel, arrivals: seq<Arrival>)
    requires r.Thrown?
    requires channel == Unopened ==> r == Thrown(NullPointer)
    requires channel == Closed ==> r == Thrown(IOError("channel closed"))
    requires channel == Connected && arrivals == [] ==> r == Thrown(Timeout("read timed out"))
    requires channel == Connected && arrivals != [] ==> r.ex == Timeout("read timed out") || r.ex == IOError("read failed")
    ensures IsReadFailure(r.ex)
  {
  }

  /** `readAcks(batch)`: while the window is not empty, read from the socket into the receive
      buffer, flip it, feed it to the decoder when the read returned bytes, and compact it.
      `fed` is every byte given to the decoder; `stored` the responses stored in the batch. A
      read exception or a parse exception ends the call. */
  method ReadAcks(socket: Transport, parser: RelpParser, rx: ByteBuffer, window: RelpWindow, batch: RelpBatch)
    returns (err: Option<Exception>, ghost fed: seq<byte>, ghost stored: map<int, Ack>)
    requires Decoding(parser, rx) && batch.Valid() && socket !in parser.Repr
    modifies parser.Repr, rx, rx.data, window, batch, socket
    ensures Decoding(parser, rx) && batch.Valid() && fresh(parser.Repr - old(parser.Repr))
    ensures batch.requests == old(batch.requests) && batch.workQueue == old(batch.workQueue) && batch.nextId == old(batch.nextId)
    ensures socket.sent == old(socket.sent) && socket.channel == old(socket.channel)
    ensures socket.writeTimeouts == old(socket.writeTimeouts) && socket.closeFailures == old(socket.closeFailures)
    ensures old(socket.received) <= socket.received
    ensures err.None? || IsReadFailure(err.value) ==>
      fed + rx.Written() == old(rx.Written()) + socket.received[|old(socket.received)|..]
    ensures var r := AbsorbAll(old(SessionAt(parser, window, map[])), batch.requests.Keys, fed);
      r.0 == SessionAt(parser, window, stored) &&
      (err.None? ==> r.1.None? && |window.pending| == 0) &&
      (err.Some? ==> r.1 == err || (r.1.None? && IsReadFailure(err.value)))
    ensures StoredSince(batch, old(batch.responses), stored)
  {
    ghost var s0, known, before := SessionAt(parser, window, map[]), batch.requests.Keys, batch.responses;
    ghost var w0, r0 := rx.Written(), socket.received;
    fed, stored, err := [], map[], None;
    var notComplete := window.Size() > 0;
    while notComplete
      invariant Decoding(parser, rx) && batch.Valid() && fresh(parser.Repr - old(parser.Repr)) && socket !in parser.Repr
      invariant batch.requests == old(batch.requests) && batch.workQueue == old(batch.workQueue) && batch.nextId == old(batch.nextId)
      invariant socket.sent == old(socket.sent) && socket.channel == old(socket.channel)
      invariant socket.writeTimeouts == old(socket.writeTimeouts) && socket.closeFailures == old(socket.closeFailures)
      invariant Reading(socket, parser, rx, window, batch, s0, known, before, w0, r0, fed, stored)
      invariant notComplete <==> |window.pending| > 0
      invariant err.None?
      decreases |socket.arrivals|
    {
      var done;
      err, done, fed, stored := Turn(socket, parser, rx, window, batch, s0, known, before, w0, r0, fed, stored);
      if err.Some? {
        return;
      }
      notComplete := !done;
    }
  }

  /** The state of `readAcks` between two reads: every byte received since it started (`r0`)
      has gone to the decoder (`fed`) or waits in the receive buffer after what was buffered at
      the start (`w0`); what was fed took the starting session `s0` to the current one without
      error; the responses stored since are `stored`. */
  ghost predicate Reading(socket: Transport, parser: RelpParser, rx: ByteBuffer, window: RelpWindow, batch: RelpBatch,
                          s0: Session, known: set<int>, before: map<int, RelpFrameRX>, w0: seq<byte>, r0: seq<byte>,
                          fed: seq<byte>, stored: map<int, Ack>)
    reads socket, parser, parser.Repr, rx, rx.data, window, batch, batch.responses.Values
    requires Decoding(parser, rx)
  {
    Wf(s0.parser) && r0 <= socket.received && fed + rx.Written() == w0 + socket.received[|r0|..] &&
    AbsorbAll(s0, known, fed) == (SessionAt(parser, window, stored), None) &&
    StoredSince(batch, before, stored)
  }

  /** One turn of the loop of `readAcks`, from one `Reading` state to the next: on a read
      exception nothing is fed and the state is kept; on a parse exception what was fed ends in
      the byte that raised it. */
  method Turn(socket: Transport, parser: RelpParser, rx: ByteBuffer, window: RelpWindow, batch: RelpBatch,
              ghost s0: Session, ghost known: set<int>, ghost before: map<int, RelpFrameRX>, ghost w0: seq<byte>,
              ghost r0: seq<byte>, ghost fed: seq<byte>, ghost stored: map<int, Ack>)
    returns (err: Option<Exception>, done: bool, ghost fed': seq<byte>, ghost stored': map<int, Ack>)
    requires Decoding(parser, rx) && batch.Valid() && socket !in parser.Repr && batch.requests.Keys == known
    requires Reading(socket, parser, rx, window, batch, s0, known, before, w0, r0, fed, stored) && |window.pending| > 0
    modifies parser.Repr, rx, rx.data, window, batch, socket
    ensures Decoding(parser, rx) && batch.Valid() && fresh(parser.Repr - old(parser.Repr)) && socket !in parser.Repr
    ensures batch.requests == old(batch.requests) && batch.workQueue == old(batch.workQueue) && batch.nextId == old(batch.nextId)
    ensures socket.sent == old(socket.sent) && socket.channel == old(socket.channel)
    ensures socket.writeTimeouts == old(socket.writeTimeouts) && socket.closeFailures == old(socket.closeFailures)
    ensures err.None? || IsReadFailure(err.value) ==> Reading(socket, parser, rx, window, batch, s0, known, before, w0, r0, fed', stored')
    ensures err.Some? && !IsReadFailure(err.value) ==>
      r0 <= socket.received && AbsorbAll(s0, known, fed') == (SessionAt(parser, window, stored'), err) &&
      StoredSince(batch, before, stored')
    ensures err.None? ==> (done <==> |window.pending| == 0) && |socket.arrivals| < |old(socket.arrivals)|
  {
    ghost var w1, r1 := rx.Written(), socket.received;
    ghost var more;
    err, done, more, stored' := ReadOnce(socket, parser, rx, window, batch, before, stored);
    ReceivedBytes(fed, more, rx.Written(), w1, w0, r0, r1, socket.received);
    AbsorbAllConcat(s0, known, fed, more);
    fed' := fed + more;
  }

  /** One turn of the loop of `readAcks`: a read; then, if it returned bytes, the inner loop;
      then the buffer is compacted, unless a parse exception escaped first. `done` when the
      window is empty. */
  method ReadOnce(socket: Transport, parser: RelpParser, rx: ByteBuffer, window: RelpWindow, batch: RelpBatch,
                  ghost before: map<int, RelpFrameRX>, ghost stored: map<int, Ack>)
    returns (err: Option<Exception>, done: bool, ghost more: seq<byte>, ghost stored': map<int, Ack>)
    requires Decoding(parser, rx) && batch.Valid() && StoredSince(batch, before, stored) && |window.pending| > 0
    requires socket !in parser.Repr
    modifies parser.Repr, rx, rx.data, window, batch, socket
    ensures Decoding(parser, rx) && batch.Valid() && fresh(parser.Repr - old(parser.Repr))
    ensures batch.requests == old(batch.requests) && batch.workQueue == old(batch.workQueue) && batch.nextId == old(batch.nextId)
    ensures socket.sent == old(socket.sent) && socket.channel == old(socket.channel)
    ensures socket.writeTimeouts == old(socket.writeTimeouts) && socket.closeFailures == old(socket.closeFailures)
    ensures old(socket.received) <= socket.received
    ensures err.None? || IsReadFailure(err.value) ==>
      more + rx.Written() == old(rx.Written()) + socket.received[|old(socket.received)|..]
    ensures err.Some? && IsReadFailure(err.value) ==> more == [] && SessionAt(parser, window, stored') == old(SessionAt(parser, window, stored))
    ensures !(err.Some? && IsReadFailure(err.value)) ==>
      AbsorbAll(old(SessionAt(parser, window, stored)), batch.requests.Keys, more) == (SessionAt(parser, window, stored'), err)
    ensures StoredSince(batch, before, stored')
    ensures err.None? ==> (done <==> |window.pending| == 0) && |socket.arrivals| < |old(socket.arrivals)|
  {
    more, stored', done := [], stored, false;
    var readBytes := Fill(socket, rx);
    if readBytes.Thrown? {
      return Some(readBytes.ex), done, more, stored';
    }
    err, done, more, stored' := Consume(parser, rx, window, batch, readBytes.value, before, stored);
  }

  /** What follows a successful read of `n` bytes: the inner loop if `n` is positive, then the
      compaction of the buffer, which a parse exception skips. */
  method Consume(parser: RelpParser, rx: ByteBuffer, window: RelpWindow, batch: RelpBatch, n: nat,
                 ghost before: map<int, RelpFrameRX>, ghost stored: map<int, Ack>)
    returns (err: Option<Exception>, done: bool, ghost more: seq<byte>, ghost stored': map<int, Ack>)
    requires Decoding(parser, rx) && batch.Valid() && StoredSince(batch, before, stored) && |window.pending| > 0
    modifies parser.Repr, rx, rx.data, window, batch
    ensures Decoding(parser, rx) && batch.Valid() && fresh(parser.Repr - old(parser.Repr))
    ensures batch.requests == old(batch.requests) && batch.workQueue == old(batch.workQueue) && batch.nextId == old(batch.nextId)
    ensures err.None? ==> more + rx.Written() == old(rx.Unread())
    ensures AbsorbAll(old(SessionAt(parser, window, stored)), batch.requests.Keys, more) == (SessionAt(parser, window, stored'), err)
    ensures StoredSince(batch, before, stored')
    ensures err.None? ==> (done <==> |window.pending| == 0)
  {
    more, stored', done, err := [], stored, false, None;
    if n > 0 {
      err, done, more, stored' := Drain(parser, rx, window, batch, before, stored);
      if err.Some? {
        return;
      }
    }
    rx.Compact();
  }

  /** The read of one turn, and the flip that readies the buffer for taking bytes out: on
      success the buffer holds what it held before followed by what was just received. */
  method Fill(socket: Transport, rx: ByteBuffer) returns (r: Outcome<nat>)
    requires rx.Valid()
    modifies socket, rx, rx.data
    ensures rx.Valid()
    ensures socket.sent == old(socket.sent) && socket.channel == old(socket.channel)
    ensures socket.writeTimeouts == old(socket.writeTimeouts) && socket.closeFailures == old(socket.closeFailures)
    ensures old(socket.received) <= socket.received
    ensures r.Thrown? ==> IsReadFailure(r.ex) && socket.received == old(socket.received) && rx.Written() == old(rx.Written())
    ensures r.Ok? ==> rx.Unread() == old(rx.Written()) + socket.received[|old(socket.received)|..]
    ensures r.Ok? ==> r.value == |socket.received| - |old(socket.received)| && |socket.arrivals| < |old(socket.arrivals)|
  {
    ghost var w1, r1 := rx.Written(), socket.received;
    r := socket.Read(rx);
    if r.Thrown? {
      ReadFailure(r, old(socket.channel), old(socket.arrivals));
      return;
    }
    rx.Flip();
    assert rx.Unread() == w1 + socket.received[|r1|..];
  }

  /** The inner loop of `readAcks`: bytes while any remain, up to the one that raises a parse
      exception or after which the window is empty (`stop`). `fed` is what was consumed. */
  method Drain(parser: RelpParser, rx: ByteBuffer, window: RelpWindow, batch: RelpBatch,
               ghost before: map<int, RelpFrameRX>, ghost stored: map<int, Ack>)
    returns (err: Option<Exception>, stop: bool, ghost fed: seq<byte>, ghost stored': map<int, Ack>)
    requires Decoding(parser, rx) && batch.Valid() && StoredSince(batch, before, stored) && |window.pending| > 0
    modifies parser.Repr, rx, window, batch
    ensures Decoding(parser, rx) && batch.Valid() && fresh(parser.Repr - old(parser.Repr))
    ensures batch.requests == old(batch.requests) && batch.workQueue == old(batch.workQueue) && batch.nextId == old(batch.nextId)
    ensures rx.limit == old(rx.limit)
    ensures old(rx.Unread()) == fed + rx.Unread()
    ensures AbsorbAll(old(SessionAt(parser, window, stored)), batch.requests.Keys, fed) == (SessionAt(parser, window, stored'), err)
    ensures StoredSince(batch, before, stored')
    ensures stop ==> err.None? && |window.pending| == 0
    ensures err.None? && !stop ==> rx.Unread() == [] && |window.pending| > 0
  {
    ghost var s0, u0, known := SessionAt(parser, window, stored), rx.Unread(), batch.requests.Keys;
    err, stop, fed, stored' := None, false, [], stored;
    while rx.position < rx.limit
      invariant Decoding(parser, rx) && batch.Valid() && fresh(parser.Repr - old(parser.Repr))
      invariant batch.requests == old(batch.requests) && batch.workQueue == old(batch.workQueue) && batch.nextId == old(batch.nextId)
      invariant rx.limit == old(rx.limit)
      invariant u0 == fed + rx.Unread()
      invariant AbsorbAll(s0, known, fed) == (SessionAt(parser, window, stored'), None)
      invariant StoredSince(batch, before, stored')
      invariant |window.pending| > 0 && err.None? && !stop
      decreases rx.limit - rx.position
    {
      ghost var s1 := SessionAt(parser, window, stored');
      var b;
      b, err, stop, stored' := HandleByte(parser, rx, window, batch, before, stored');
      AbsorbAllSnoc(s0, known, fed, s1, b, SessionAt(parser, window, stored'), err);
      AppendAssoc(fed, [b], rx.Unread());
      fed := fed + [b];
      if err.Some? || stop {
        return;
      }
    }
  }

  /** One byte of the inner loop of `readAcks`: parse it; on a complete frame whose number is
      pending, build the response from the decoder's fields and buffer, store it in the batch
      for the request the number was given to and drop the number from the window; reset the
      decoder; `stop` when the window is then empty. A parse exception escapes at once.
      `stored` tracks the responses stored since `before`. */
  method HandleByte(parser: RelpParser, rx: ByteBuffer, window: RelpWindow, batch: RelpBatch,
                    ghost before: map<int, RelpFrameRX>, ghost stored: map<int, Ack>)
    returns (b: byte, err: Option<Exception>, stop: bool, ghost stored': map<int, Ack>)
    requires Decoding(parser, rx) && batch.Valid() && rx.position < rx.limit
    requires StoredSince(batch, before, stored)
    modifies parser.Repr, rx, window, batch
    ensures Decoding(parser, rx) && batch.Valid() && fresh(parser.Repr - old(parser.Repr))
    ensures batch.requests == old(batch.requests) && batch.workQueue == old(batch.workQueue) && batch.nextId == old(batch.nextId)
    ensures rx.limit == old(rx.limit)
    ensures old(rx.Unread()) == [b] + rx.Unread()
    ensures ByteAbsorbed(old(SessionAt(parser, window, stored)), batch.requests.Keys, b, SessionAt(parser, window, stored'), err)
    ensures StoredSince(batch, before, stored')
    ensures stop <==> err.None? && Completes(old(parser.View()), b) && |window.pending| == 0
  {
    ghost var s := SessionAt(parser, window, stored);
    b, err := ParseNext(parser, rx);
    stop, stored' := CompleteIfDone(parser, window, batch, err, before, stored, s, b);
  }

  /** After byte `b` took the decoder from session `s` to its present state with exception
      `err`: a frame completed without exception is `Complete`d, and `stop` when the window is
      then empty; otherwise nothing changes. */
  method CompleteIfDone(parser: RelpParser, window: RelpWindow, batch: RelpBatch, err: Option<Exception>,
                        ghost before: map<int, RelpFrameRX>, ghost stored: map<int, Ack>, ghost s: Session, ghost b: byte)
    returns (stop: bool, ghost stored': map<int, Ack>)
    requires parser.Valid() && batch.Valid()
    requires StoredSince(batch, before, stored)
    requires Wf(s.parser) && Step(s.parser, b) == Stepped(parser.View(), err)
    requires s.pending == window.pending && s.stored == stored
    modifies parser.Repr, window, batch
    ensures parser.Valid() && batch.Valid() && fresh(parser.Repr - old(parser.Repr))
    ensures batch.requests == old(batch.requests) && batch.workQueue == old(batch.workQueue) && batch.nextId == old(batch.nextId)
    ensures ByteAbsorbed(s, batch.requests.Keys, b, SessionAt(parser, window, stored'), err)
    ensures StoredSince(batch, before, stored')
    ensures stop <==> err.None? && Completes(s.parser, b) && |window.pending| == 0
  {
    stored', stop := stored, false;
    if err.None? && parser.isComplete {
      stored' := Complete(parser, window, batch, before, stored);
      stop := window.Size() == 0;
    }
  }

  /** Take the next received byte and give it to the decoder. */
  method ParseNext(parser: RelpParser, rx: ByteBuffer) returns (b: byte, err: Option<Exception>)
    requires Decoding(parser, rx) && rx.position < rx.limit
    modifies parser.Repr, rx
    ensures Decoding(parser, rx) && fresh(parser.Repr - old(parser.Repr))
    ensures rx.limit == old(rx.limit)
    ensures b == old(rx.Unread())[0] && old(rx.Unread()) == [b] + rx.Unread()
    ensures Stepped(parser.View(), err) == Step(old(parser.View()), b)
  {
    b := rx.Get();
    err := parser.Parse(b);
  }

  /** A complete frame in the decoder: the response for its number, if pending; then reset. */
  method Complete(parser: RelpParser, window: RelpWindow, batch: RelpBatch,
                  ghost before: map<int, RelpFrameRX>, ghost stored: map<int, Ack>)
    returns (ghost stored': map<int, Ack>)
    requires parser.Valid() && batch.Valid() && parser.isComplete
    requires StoredSince(batch, before, stored)
    modifies parser.Repr, window, batch
    ensures parser.Valid() && batch.Valid() && fresh(parser.Repr - old(parser.Repr))
    ensures batch.requests == old(batch.requests) && batch.workQueue == old(batch.workQueue) && batch.nextId == old(batch.nextId)
    ensures SessionAt(parser, window, stored') ==
      Acknowledge(old(SessionAt(parser, window, stored)), batch.requests.Keys, AckOf(old(parser.View())))
    ensures StoredSince(batch, before, stored')
  {
    stored' := Store(parser, window, batch, before, stored);
    parser.Reset();
  }

  /** The response for the complete frame's number, if pending, stored in the batch. */
  method Store(parser: RelpParser, window: RelpWindow, batch: RelpBatch,
               ghost before: map<int, RelpFrameRX>, ghost stored: map<int, Ack>)
    returns (ghost stored': map<int, Ack>)
    requires parser.Valid() && batch.Valid() && parser.isComplete
    requires StoredSince(batch, before, stored)
    modifies parser.Repr, window, batch
    ensures parser.Valid() && parser.Repr == old(parser.Repr) && batch.Valid()
    ensures batch.requests == old(batch.requests) && batch.workQueue == old(batch.workQueue) && batch.nextId == old(batch.nextId)
    ensures var a := AckOf(old(parser.View())); var r := Acknowledge(old(SessionAt(parser, window, stored)), batch.requests.Keys, a);
      window.pending == r.pending && stored' == r.stored
    ensures StoredSince(batch, before, stored')
  {
    ghost var a := AckOf(parser.View());
    stored' := stored;
    var txnId := parser.frameTxnId;
    if window.IsPending(txnId) {
      var requestId := window.GetPending(txnId).value;
      var response := new RelpFrameRX(parser.frameTxnId, parser.frameCommandString, parser.frameLength, parser.frameData);
      stored' := PutStored(batch, requestId, response, before, stored);
      window.RemovePending(txnId);
    }
  }

  /** `putResponse` on the batch, tracked in `stored`. */
  method PutStored(batch: RelpBatch, requestId: int, response: RelpFrameRX,
                   ghost before: map<int, RelpFrameRX>, ghost stored: map<int, Ack>)
    returns (ghost stored': map<int, Ack>)
    requires batch.Valid() && StoredSince(batch, before, stored)
    modifies batch
    ensures batch.Valid()
    ensures batch.requests == old(batch.requests) && batch.workQueue == old(batch.workQueue) && batch.nextId == old(batch.nextId)
    ensures stored' == if requestId in batch.requests then stored[requestId := AckOfFrame(response)] else stored
    ensures StoredSince(batch, before, stored')
  {
    batch.PutResponse(requestId, response);
    stored' := if requestId in batch.requests then stored[requestId := AckOfFrame(response)] else stored;
  }
}
