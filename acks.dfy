/** What reading acknowledgements does with each received byte: the byte goes through the
    decoder; a complete frame whose transaction number is pending becomes the response of the
    request that number was given to, and leaves the window; a complete frame with a number that
    is not pending is dropped; the decoder starts over after every complete frame. */
module Acknowledgements {
  import opened Wrappers
  import opened Text
  import opened Buffers
  import opened RelpCommands
  import opened Frames
  import opened RelpParsing
  import opened FrameRoundTrip

  /** The header fields and payload a response frame keeps. */
  datatype Ack = Ack(txn: int, command: string, dataLength: int, data: seq<byte>)

  /** The decoder, the window (transaction number -> request id) and the responses stored so
      far (request id -> acknowledgement). */
  datatype Session = Session(parser: ParserView, pending: map<int, int>, stored: map<int, Ack>)

  /** Whether byte `b` completes a frame without an error. */
  ghost predicate Completes(p: ParserView, b: byte)
    requires Wf(p)
  {
    Step(p, b).error.None? && Step(p, b).view.isComplete
  }

  /** The acknowledgement a complete decoder holds: its header fields and the unread bytes of
      its frame buffer. */
  ghost function AckOf(p: ParserView): Ack
    requires Wf(p) && p.isComplete
  {
    Ack(p.txnId, p.cmdStr, p.len, p.data.value.Unread())
  }

  /** A complete frame carrying `a`: stored for its request when its number is pending and the
      request is known, the window entry dropped, the decoder reset. */
  function Acknowledge(s: Session, known: set<int>, a: Ack): (r: Session)
    ensures r.parser == Initial
    ensures forall t :: t in r.pending <==> t in s.pending && t != a.txn
    ensures forall t :: t in r.pending ==> r.pending[t] == s.pending[t]
    ensures |r.pending| == |s.pending| - (if a.txn in s.pending then 1 else 0)
    ensures a.txn in s.pending && s.pending[a.txn] in known ==> r.stored == s.stored[s.pending[a.txn] := a]
    ensures !(a.txn in s.pending && s.pending[a.txn] in known) ==> r.stored == s.stored
  {
    if a.txn in s.pending then
      var id := s.pending[a.txn];
      assert s.pending.Keys == (s.pending - {a.txn}).Keys + {a.txn};
      Session(Initial, s.pending - {a.txn}, if id in known then s.stored[id := a] else s.stored)
    else
      s.(parser := Initial)
  }

  /** One byte of `readAcks`'s inner loop; `known` is the batch's request ids. */
  ghost function Absorb(s: Session, known: set<int>, b: byte): (r: (Session, Option<Exception>))
    requires Wf(s.parser)
    ensures Wf(r.0.parser) && r.1 == Step(s.parser, b).error
  {
    var st := Step(s.parser, b);
    if st.error.None? && st.view.isComplete then (Acknowledge(s, known, AckOf(st.view)), None)
    else (s.(parser := st.view), st.error)
  }

  /** Bytes absorbed in order, up to and including the first one the decoder refuses. */
  ghost function AbsorbAll(s: Session, known: set<int>, bs: seq<byte>): (r: (Session, Option<Exception>))
    requires Wf(s.parser)
    ensures Wf(r.0.parser)
    ensures r.1.Some? ==> r.1.value.NumberFormat? || r.1.value.IllegalArgument? || r.1.value.IllegalState?
    decreases |bs|
  {
    if bs == [] then (s, None)
    else
      var r := Absorb(s, known, bs[0]);
      if r.1.Some? then r else AbsorbAll(r.0, known, bs[1..])
  }

  lemma {:induction false} AbsorbAllConcat(s: Session, known: set<int>, a: seq<byte>, b: seq<byte>)
    requires Wf(s.parser)
    ensures AbsorbAll(s, known, a + b) ==
      (var r := AbsorbAll(s, known, a); if r.1.Some? then r else AbsorbAll(r.0, known, b))
    decreases |a|
  {
    if a == [] {
      assert a + b == b;
    } else {
      assert (a + b)[0] == a[0] && (a + b)[1..] == a[1..] + b;
      var r := Absorb(s, known, a[0]);
      if r.1.None? {
        AbsorbAllConcat(r.0, known, a[1..], b);
      }
    }
  }

  /** Bytes that leave the decoder with an unfinished frame and no error only feed the decoder:
      the window and the stored responses do not change. */
  lemma {:induction false} AbsorbIncomplete(s: Session, known: set<int>, bs: seq<byte>)
    requires Wf(s.parser) && Feed(s.parser, bs).error.None? && !Feed(s.parser, bs).view.isComplete
    ensures AbsorbAll(s, known, bs) == (s.(parser := Feed(s.parser, bs).view), None)
    decreases |bs|
  {
    if bs != [] {
      var st := Step(s.parser, bs[0]);
      assert st.error.None?;
      if st.view.isComplete {
        CompleteFrameIsStable(st.view, bs[1..]);
        assert false;
      }
      AbsorbIncomplete(s.(parser := st.view), known, bs[1..]);
    }
  }

  /** A response frame as a peer writes it. */
  datatype Reply = Reply(txn: int, command: string, data: Option<seq<byte>>)
  {
    ghost predicate WellFormed() {
      IsInt32(txn) && IsCommandToken(command) && |command| <= MAX_COMMAND_LENGTH &&
      (data.Some? ==> |data.value| <= MaxInt)
    }

    function Wire(): seq<byte> {
      FrameBytes(txn, command, DataLengthOf(data), data)
    }

    /** What the client keeps of it: a null payload reads back as no bytes. */
    function Kept(): Ack {
      Ack(txn, command, DataLengthOf(data), Payload(data))
    }
  }

  /** A whole well-formed frame, read from the start of a frame, acknowledges its transaction
      number: the request it was pending for gets the frame's fields and payload as its
      response, and a frame for a number that is not pending only resets the decoder. */
  lemma AbsorbReply(s: Session, known: set<int>, r: Reply)
    requires s.parser == Initial && r.WellFormed()
    ensures AbsorbAll(s, known, r.Wire()) == (Acknowledge(s, known, r.Kept()), None)
  {
    var body := FrameBody(r.txn, r.command, DataLengthOf(r.data), r.data);
    var p: ParserView;
    if r.data.Some? {
      ParseFrameBody(r.txn, r.command, r.data.value);
      p := AwaitingNewline(r.txn, r.command, r.data.value);
    } else {
      ParseHeaderBytes(r.txn, r.command, 0);
      assert body == HeaderBytes(r.txn, r.command, 0);
      p := AfterHeader(r.txn, r.command, 0);
    }
    assert Feed(Initial, body) == Stepped(p, None);
    AbsorbIncomplete(s, known, body);
    ParseWrittenFrame(r.txn, r.command, r.data);
    FeedConcat(Initial, body, [LF]);
    FeedOne(p, LF);
    var q := Parsed(r.txn, r.command, Payload(r.data));
    assert Step(p, LF) == Stepped(q, None);
    assert AckOf(q) == r.Kept();
    assert r.Wire() == body + [LF];
    AbsorbAllConcat(s, known, body, [LF]);
  }

  /** The frames of several replies, one after another. */
  function Stream(rs: seq<Reply>): seq<byte>
    decreases |rs|
  {
    if rs == [] then [] else rs[0].Wire() + Stream(rs[1..])
  }

  /** Their acknowledgements applied in order. */
  function AcknowledgeAll(s: Session, known: set<int>, rs: seq<Reply>): (r: Session)
    decreases |rs|
  {
    if rs == [] then s else AcknowledgeAll(Acknowledge(s, known, rs[0].Kept()), known, rs[1..])
  }

  /** A stream of well-formed replies read from the start of a frame is absorbed without error,
      one acknowledgement per reply. */
  lemma {:induction false} AbsorbStream(s: Session, known: set<int>, rs: seq<Reply>)
    requires s.parser == Initial
    requires forall i :: 0 <= i < |rs| ==> rs[i].WellFormed()
    ensures AbsorbAll(s, known, Stream(rs)) == (AcknowledgeAll(s, known, rs), None)
    decreases |rs|
  {
    if rs != [] {
      AbsorbReply(s, known, rs[0]);
      AbsorbAllConcat(s, known, rs[0].Wire(), Stream(rs[1..]));
      AbsorbStream(Acknowledge(s, known, rs[0].Kept()), known, rs[1..]);
    }
  }

  /** The transaction numbers the replies carry. */
  function Txns(rs: seq<Reply>): set<int>
    decreases |rs|
  {
    if rs == [] then {} else {rs[0].txn} + Txns(rs[1..])
  }

  /** After the replies, exactly the numbers none of them carried are still pending... */
  lemma {:induction false} AcknowledgeAllPending(s: Session, known: set<int>, rs: seq<Reply>)
    ensures forall t :: t in AcknowledgeAll(s, known, rs).pending <==> t in s.pending && t !in Txns(rs)
    decreases |rs|
  {
    if rs != [] {
      AcknowledgeAllPending(Acknowledge(s, known, rs[0].Kept()), known, rs[1..]);
    }
  }

  lemma EmptyMap(m: map<int, int>)
    requires forall t :: t !in m
    ensures |m| == 0
  {
    if |m| != 0 {
      assert m.Keys != {};
      if forall t :: t !in m.Keys {
        assert false;
      }
    }
  }

  /** ...so replies that cover every pending number empty the window, the condition on which
      `readAcks` returns. */
  lemma RepliesEmptyWindow(s: Session, known: set<int>, rs: seq<Reply>)
    requires s.parser == Initial
    requires forall i :: 0 <= i < |rs| ==> rs[i].WellFormed()
    requires forall t :: t in s.pending ==> t in Txns(rs)
    ensures AbsorbAll(s, known, Stream(rs)).1.None?
    ensures |AbsorbAll(s, known, Stream(rs)).0.pending| == 0
  {
    AbsorbStream(s, known, rs);
    AcknowledgeAllPending(s, known, rs);
    EmptyMap(AcknowledgeAll(s, known, rs).pending);
  }

  /** A response stored while absorbing belongs to a request that was pending under the
      response's own transaction number, and that request is known. */
  lemma {:induction false} AbsorbAllStored(s: Session, known: set<int>, bs: seq<byte>)
    requires Wf(s.parser)
    ensures var r := AbsorbAll(s, known, bs).0;
      forall id :: id in r.stored ==>
        ((id in s.stored && r.stored[id] == s.stored[id]) ||
         (id in known && r.stored[id].txn in s.pending && s.pending[r.stored[id].txn] == id))
    decreases |bs|
  {
    if bs != [] {
      var a := Absorb(s, known, bs[0]);
      if a.1.None? {
        AbsorbAllStored(a.0, known, bs[1..]);
      }
    }
  }
}
