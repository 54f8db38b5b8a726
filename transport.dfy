/** The socket a connection talks through, as an abstract transport. What the network does is a
    script fixed when the transport is made: the outcome of each `open`, what the peer has sent
    before each `read`, which writes time out and which closes fail. Written bytes go to an
    output log; bytes the peer sent wait in an inbound queue until a read takes them. */
module Transports {
  import opened Wrappers
  import opened Text
  import opened Buffers

  /** Java's socket channel: null before the first `open`, then connected or closed. */
  datatype Channel = Unopened | Connected | Closed

  datatype OpenResult = Established | Refused | OpenTimedOut

  /** What happens on the peer's side before one read call. */
  datatype Arrival = Segment(bytes: seq<byte>) | Quiet | Hangup

  /** The exception an `open` outcome throws. */
  function OpenError(o: OpenResult): (e: Option<Exception>)
    ensures e.None? <==> o == Established
  {
    match o
    case Established => None
    case Refused => Some(IOError("connection refused"))
    case OpenTimedOut => Some(Timeout("connection timed out"))
  }

  /** The outcome of the coming `open`; once the script is used up, opens succeed. */
  function NextOpen(opens: seq<OpenResult>): OpenResult {
    if opens == [] then Established else opens[0]
  }

  /** The outcome of one read with `room` cells free in the buffer, given what was waiting and
      what arrives: the delivered bytes (or the exception) and what stays waiting. */
  datatype Delivery = Delivery(result: Outcome<seq<byte>>, waiting: seq<byte>, hungUp: bool)

  function Deliver(waiting: seq<byte>, hungUp: bool, a: Arrival, room: nat): (d: Delivery)
    ensures d.result.Ok? ==> |d.result.value| <= room && waiting + ArrivedBytes(a) == d.result.value + d.waiting
    ensures d.result.Ok? && room > 0 ==> |d.result.value| > 0
    ensures d.result.Thrown? ==> d.waiting == [] && (d.result.ex == Timeout("read timed out") || d.result.ex == IOError("read failed"))
  {
    var pool := waiting + ArrivedBytes(a);
    var closed := hungUp || a.Hangup?;
    if |pool| == 0 then
      Delivery(if closed then Thrown(IOError("read failed")) else Thrown(Timeout("read timed out")), [], closed)
    else
      var k := if |pool| < room then |pool| else room;
      assert pool == pool[..k] + pool[k..];
      Delivery(Ok(pool[..k]), pool[k..], closed)
  }

  function ArrivedBytes(a: Arrival): seq<byte> {
    if a.Segment? then a.bytes else []
  }

  class Transport {
    var channel: Channel
    /** The outcomes of the coming `open` calls; once used up, opens succeed. */
    var opens: seq<OpenResult>
    /** What the peer does before each coming read; once used up, every read times out. */
    var arrivals: seq<Arrival>
    /** Which coming writes time out; once used up, writes succeed. */
    var writeTimeouts: seq<bool>
    /** Which coming closes fail with an IOException; once used up, closes succeed. */
    var closeFailures: seq<bool>
    /** Bytes the peer sent that no read has taken yet, and whether it has hung up. */
    var waiting: seq<byte>
    var hungUp: bool
    /** Everything written, in order. */
    var sent: seq<byte>
    /** Everything read, in order. */
    var received: seq<byte>

    constructor (opens: seq<OpenResult>, arrivals: seq<Arrival>, writeTimeouts: seq<bool>, closeFailures: seq<bool>)
      ensures channel == Unopened && this.opens == opens && this.arrivals == arrivals
      ensures this.writeTimeouts == writeTimeouts && this.closeFailures == closeFailures
      ensures waiting == [] && !hungUp && sent == [] && received == []
    {
      channel := Unopened;
      this.opens := opens;
      this.arrivals := arrivals;
      this.writeTimeouts := writeTimeouts;
      this.closeFailures := closeFailures;
      waiting := [];
      hungUp := false;
      sent := [];
      received := [];
    }

    /** `open(hostname, port)`: a new channel, connected unless the script says otherwise. */
    method Open() returns (err: Option<Exception>)
      modifies this
      ensures err == OpenError(NextOpen(old(opens)))
      ensures channel == (if NextOpen(old(opens)) == Established then Connected else Closed)
      ensures opens == if old(opens) == [] then [] else old(opens)[1..]
      ensures waiting == [] && !hungUp
      ensures arrivals == old(arrivals) && writeTimeouts == old(writeTimeouts) && closeFailures == old(closeFailures)
      ensures sent == old(sent) && received == old(received)
    {
      var o := Established;
      if opens != [] {
        o := opens[0];
        opens := opens[1..];
      }
      err := OpenError(o);
      channel := if o == Established then Connected else Closed;
      waiting := [];
      hungUp := false;
    }

    /** `read(buffer)`: the bytes the peer sent, as many as fit, put after the buffer's
        position; the count, or the exception. */
    method Read(dst: ByteBuffer) returns (r: Outcome<nat>)
      requires dst.Valid()
      modifies this, dst, dst.data
      ensures dst.Valid() && dst.limit == old(dst.limit)
      ensures channel == old(channel) && opens == old(opens) && sent == old(sent)
      ensures writeTimeouts == old(writeTimeouts) && closeFailures == old(closeFailures)
      ensures old(channel) == Unopened ==> r == Thrown(NullPointer)
      ensures old(channel) == Closed ==> r == Thrown(IOError("channel closed"))
      ensures old(channel) != Connected ==> arrivals == old(arrivals)
      ensures old(channel) == Connected && old(arrivals) == [] ==>
        r == Thrown(Timeout("read timed out")) && arrivals == []
      ensures old(channel) == Connected && old(arrivals) != [] ==>
        var d := Deliver(old(waiting), old(hungUp), old(arrivals)[0], old(dst.Remaining()));
        arrivals == old(arrivals)[1..] && waiting == d.waiting && hungUp == d.hungUp &&
        (d.result.Thrown? ==> r == Thrown(d.result.ex)) &&
        (d.result.Ok? ==> r == Ok(|d.result.value|) && received == old(received) + d.result.value &&
                          dst.Written() == old(dst.Written()) + d.result.value)
      ensures r.Ok? ==> old(channel) == Connected && |arrivals| < |old(arrivals)|
      ensures r.Ok? ==> received == old(received) + dst.Written()[old(dst.position)..]
      ensures r.Ok? ==> dst.position == old(dst.position) + r.value
      ensures r.Thrown? ==> received == old(received) && dst.position == old(dst.position) && dst.Written() == old(dst.Written())
    {
      if channel == Unopened {
        return Thrown(NullPointer);
      }
      if channel == Closed {
        return Thrown(IOError("channel closed"));
      }
      if arrivals == [] {
        return Thrown(Timeout("read timed out"));
      }
      var d := Deliver(waiting, hungUp, arrivals[0], dst.limit - dst.position);
      arrivals := arrivals[1..];
      waiting := d.waiting;
      hungUp := d.hungUp;
      if d.result.Thrown? {
        return Thrown(d.result.ex);
      }
      ghost var before := dst.Written();
      dst.PutAll(d.result.value);
      assert dst.Written()[|before|..] == d.result.value;
      received := received + d.result.value;
      r := Ok(|d.result.value|);
    }

    /** `write(buffer)`: every remaining byte of the buffer goes out, unless the write times
        out, in which case nothing is counted as sent. */
    method Write(src: ByteBuffer) returns (err: Option<Exception>)
      requires src.Valid()
      modifies this, src
      ensures src.Valid() && src.limit == old(src.limit)
      ensures channel == old(channel) && opens == old(opens) && arrivals == old(arrivals)
      ensures waiting == old(waiting) && hungUp == old(hungUp) && received == old(received)
      ensures closeFailures == old(closeFailures)
      ensures err == WriteError(old(channel), old(writeTimeouts))
      ensures writeTimeouts == if old(channel) == Connected && old(writeTimeouts) != [] then old(writeTimeouts)[1..] else old(writeTimeouts)
      ensures sent == old(sent) + (if err.None? then old(src.Unread()) else [])
    {
      err := WriteError(channel, writeTimeouts);
      if channel == Connected && writeTimeouts != [] {
        writeTimeouts := writeTimeouts[1..];
      }
      if err.None? {
        sent := sent + src.Unread();
        src.position := src.limit;
      }
    }

    /** `close()`: the channel is closed even when closing reports an IOException; before the
        first `open` there is no channel and the call throws NullPointerException. */
    method Close() returns (err: Option<Exception>)
      modifies this
      ensures opens == old(opens) && arrivals == old(arrivals) && writeTimeouts == old(writeTimeouts)
      ensures waiting == old(waiting) && hungUp == old(hungUp) && sent == old(sent) && received == old(received)
      ensures old(channel) == Unopened ==> err == Some(NullPointer) && channel == Unopened && closeFailures == old(closeFailures)
      ensures old(channel) != Unopened ==> channel == Closed
      ensures old(channel) != Unopened ==>
        closeFailures == (if old(closeFailures) == [] then [] else old(closeFailures)[1..])
      ensures old(channel) != Unopened ==>
        err == (if old(closeFailures) != [] && old(closeFailures)[0] then Some(IOError("close failed")) else None)
      ensures err.Some? ==> err.value == NullPointer || err.value == IOError("close failed")
    {
      if channel == Unopened {
        return Some(NullPointer);
      }
      channel := Closed;
      err := None;
      if closeFailures != [] {
        if closeFailures[0] {
          err := Some(IOError("close failed"));
        }
        closeFailures := closeFailures[1..];
      }
    }
  }

  /** The exception a write throws on a channel in the given state with the given script. */
  function WriteError(channel: Channel, writeTimeouts: seq<bool>): (e: Option<Exception>)
    ensures e.Some? ==> e.value in {NullPointer, IOError("channel closed"), Timeout("write timed out")}
    ensures channel == Connected && (writeTimeouts == [] || !writeTimeouts[0]) ==> e.None?
  {
    match channel
    case Unopened => Some(NullPointer)
    case Closed => Some(IOError("channel closed"))
    case Connected => if writeTimeouts != [] && writeTimeouts[0] then Some(Timeout("write timed out")) else None
  }
}
