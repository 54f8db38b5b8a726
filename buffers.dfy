/** The part of `java.nio.ByteBuffer` the client uses: a fixed array of cells with a position and a
    limit, filled with `put`, drained with `get`, and switched between the two with `flip`,
    `clear` and `compact`. */
module Buffers {
  import opened Text
  import opened Wrappers

  /** The state of a buffer as a value: its cells, position and limit. */
  datatype BufView = BufView(cells: seq<byte>, position: nat, limit: nat)
  {
    ghost predicate Valid() {
      position <= limit <= |cells|
    }

    /** The bytes between position and limit: what `get` would return next. */
    function Unread(): seq<byte>
      requires Valid()
    {
      cells[position..limit]
    }

    /** `put(b)` when there is room: the byte lands at the position, which moves on by one. */
    function Put(b: byte): (r: BufView)
      requires Valid() && position < limit
      ensures r.Valid() && r.limit == limit && r.position == position + 1
      ensures r.cells[..r.position] == cells[..position] + [b]
    {
      assert cells[position := b][..position + 1] == cells[..position] + [b];
      BufView(cells[position := b], position + 1, limit)
    }

    /** `flip()`: what was written becomes what can be read. */
    function Flip(): (r: BufView)
      requires Valid()
      ensures r.Valid() && r.Unread() == cells[..position]
    {
      BufView(cells, 0, position)
    }
  }

  /** The buffer `ByteBuffer.allocateDirect(n)` returns for n >= 0: zeroed, ready for writing. */
  function Allocated(n: nat): (r: BufView)
    ensures r.Valid() && |r.cells| == n && r.position == 0 && r.limit == n
  {
    BufView(seq(n, _ => 0), 0, n)
  }

  class ByteBuffer {
    const data: array<byte>
    var position: nat
    var limit: nat

    ghost predicate Valid()
      reads this
    {
      position <= limit <= data.Length
    }

    function View(): (v: BufView)
      reads this, data
      ensures v.cells == data[..] && v.position == position && v.limit == limit
    {
      BufView(data[..], position, limit)
    }

    function Capacity(): nat
      reads this
    {
      data.Length
    }

    function Remaining(): (n: nat)
      reads this
      requires Valid()
      ensures n == limit - position
    {
      limit - position
    }

    /** The bytes still to be read (between position and limit). */
    function Unread(): (s: seq<byte>)
      reads this, data
      requires Valid()
      ensures |s| == Remaining() && s == View().Unread()
    {
      data[position..limit]
    }

    /** The bytes written so far (before the position). */
    function Written(): (s: seq<byte>)
      reads this, data
      requires Valid()
      ensures |s| == position
    {
      data[..position]
    }

    /** `ByteBuffer.allocateDirect(capacity)`, for a capacity already known to be non-negative. */
    constructor (capacity: nat)
      ensures Valid() && fresh(data)
      ensures View() == Allocated(capacity)
    {
      data := new byte[capacity](_ => 0);
      position := 0;
      limit := capacity;
      new;
      assert data[..] == seq(capacity, _ => 0);
    }

    /** `put(b)`; the callers of this model always have room. */
    method Put(b: byte)
      requires Valid() && position < limit
      modifies this, data
      ensures Valid() && View() == old(View()).Put(b)
    {
      data[position] := b;
      position := position + 1;
    }

    /** `put(byte[])`: the bytes are copied in order from the position on. */
    method PutAll(bs: seq<byte>)
      requires Valid() && |bs| <= Remaining()
      modifies this, data
      ensures Valid() && limit == old(limit) && position == old(position) + |bs|
      ensures Written() == old(Written()) + bs
    {
      var i := 0;
      while i < |bs|
        invariant 0 <= i <= |bs|
        invariant position == old(position) + i && limit == old(limit)
        invariant data[..position] == old(data[..position]) + bs[..i]
      {
        data[position] := bs[i];
        position := position + 1;
        i := i + 1;
      }
    }

    /** `get()`: the byte at the position, which moves on by one. */
    method Get() returns (b: byte)
      requires Valid() && position < limit
      modifies this
      ensures Valid() && limit == old(limit) && position == old(position) + 1
      ensures b == old(Unread())[0] && old(Unread()) == [b] + Unread()
    {
      b := data[position];
      position := position + 1;
    }

    /** `get(new byte[n])`: exactly `n` bytes, or BufferUnderflowException (position unchanged)
        when fewer remain. */
    method GetBytes(n: nat) returns (r: Outcome<seq<byte>>)
      requires Valid()
      modifies this
      ensures Valid() && limit == old(limit)
      ensures n <= old(Remaining()) ==> r == Ok(old(Unread())[..n]) && position == old(position) + n
      ensures n > old(Remaining()) ==> r == Thrown(BufferUnderflow) && position == old(position)
    {
      if n > limit - position {
        return Thrown(BufferUnderflow);
      }
      assert data[position..position + n] == data[position..limit][..n];
      r := Ok(data[position..position + n]);
      position := position + n;
    }

    /** `flip()`: limit at the old position, position back to 0. */
    method Flip()
      requires Valid()
      modifies this
      ensures Valid() && View() == old(View()).Flip()
      ensures Unread() == old(Written())
    {
      limit := position;
      position := 0;
    }

    /** `clear()`: the whole buffer is writable again; the cells keep their contents. */
    method Clear()
      modifies this
      ensures Valid() && position == 0 && limit == data.Length
    {
      position := 0;
      limit := data.Length;
    }

    /** `compact()`: the unread bytes move to the front, the position goes after them and the
        limit to the capacity, ready for more writing. */
    method Compact()
      requires Valid()
      modifies this, data
      ensures Valid() && limit == data.Length
      ensures Written() == old(Unread())
    {
      var n := limit - position;
      var i := 0;
      while i < n
        invariant 0 <= i <= n
        invariant position == old(position) && limit == old(limit)
        invariant data[..i] == old(data[..])[position..position + i]
        invariant forall k :: i <= k < data.Length ==> data[k] == old(data[k])
      {
        data[i] := data[position + i];
        i := i + 1;
      }
      assert data[..n] == old(data[position..limit]);
      position := n;
      limit := data.Length;
    }
  }

  /** `ByteBuffer.allocateDirect(capacity)`: IllegalArgumentException for a negative capacity. */
  method AllocateDirect(capacity: int) returns (r: Outcome<ByteBuffer>)
    ensures capacity < 0 <==> r.Thrown?
    ensures r.Thrown? ==> r.ex == IllegalArgument("capacity < 0")
    ensures r.Ok? ==> fresh(r.value) && fresh(r.value.data) && r.value.Valid()
    ensures r.Ok? ==> r.value.View() == Allocated(capacity)
  {
    if capacity < 0 {
      return Thrown(IllegalArgument("capacity < 0"));
    }
    var b := new ByteBuffer(capacity);
    return Ok(b);
  }
}
