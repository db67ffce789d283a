/** The read buffer of src/buffer.cc, and the byte queue it stands for. */
module Buffers {
  import opened Options
  import opened Bytes

  // `bytes` is the memory below the write pointer; pointers are offsets, and packetEnd is None while it is NULL.
  datatype Buf = Buf(size: nat, bytes: seq<byte>, used: nat, read: nat, packetEnd: Option<nat>)

  const SIZE_MAX: nat := 0xffff_ffff_ffff_ffff
  const DEFAULT_SIZE: nat := 1024 * 1024

  // No object is larger than this.
  const LARGEST: nat := 0x7fff_ffff_ffff_ffff

  predicate Sound(b: Buf) {
    && b.used == |b.bytes| && b.read <= |b.bytes| <= b.size && DEFAULT_SIZE <= b.size <= LARGEST
    && (if b.packetEnd.None? then b.read == 0 else b.read <= b.packetEnd.value <= |b.bytes|)
  }

  const EMPTY := Buf(DEFAULT_SIZE, [], 0, 0, None)

  // ---------------------------------------------------------------- the space left

  // size_t arithmetic; buffer_used is never reduced when bytes are read, so the bytes read are subtracted twice.
  function Available(b: Buf): nat {
    (b.size - (b.read + b.used)) % (SIZE_MAX + 1)
  }

  /** The space reported is there exactly while read offset and used bytes together fit the buffer. */
  lemma AvailableExact(b: Buf)
    requires Sound(b)
    ensures Available(b) <= b.size - |b.bytes| <==> b.read + b.used <= b.size
    ensures b.read + b.used <= b.size ==> Available(b) == b.size - |b.bytes| - b.read
  {
    if b.read + b.used > b.size {
      assert Available(b) == b.size - (b.read + b.used) + SIZE_MAX + 1;
    }
  }

  // The test in front of memmove.
  predicate Shifts(b: Buf) {
    (Available(b) + b.used) % (SIZE_MAX + 1) < b.size / 2
  }

  /** The buffer is shifted exactly when less than half of it is behind the read pointer, and then the move
      reads beyond its end. */
  lemma ShiftExact(b: Buf)
    requires Sound(b)
    ensures Shifts(b) <==> b.size - b.read < b.size / 2
    ensures Shifts(b) ==> b.read + b.used > b.size
  {
    AvailableExact(b);
    if b.read + b.used > b.size {
      assert Available(b) == b.size - (b.read + b.used) + SIZE_MAX + 1;
      assert Available(b) + b.used == b.size - b.read + SIZE_MAX + 1;
    }
  }

  // ---------------------------------------------------------------- operations

  // The realloc branch; a NULL packet end becomes the start of the buffer.
  function Doubled(b: Buf): Buf {
    if 2 * b.size > LARGEST then b
    else b.(size := 2 * b.size, packetEnd := Some(if b.packetEnd.None? then 0 else b.packetEnd.value))
  }

  // The bytes written by the receiver and the move of the write pointer.
  function Moved(b: Buf, s: seq<byte>): Buf {
    b.(bytes := b.bytes + s, used := b.used + |s|)
  }

  function Ended(b: Buf): Buf
    requires b.packetEnd.Some?
  {
    if b.packetEnd.value == |b.bytes| then b.(bytes := [], used := 0, read := 0, packetEnd := Some(0))
    else b.(read := b.packetEnd.value)
  }

  // Four bytes of header are read, and a payload of `len` bytes follows.
  function Framed(b: Buf, len: nat): Buf {
    b.(read := b.read + 4, packetEnd := Some(b.read + 4 + len))
  }

  // ---------------------------------------------------------------- the queue

  // The bytes not yet consumed, of which the first toEnd belong to the current packet.
  datatype Fifo = Fifo(unread: seq<byte>, toEnd: nat)

  function Abs(b: Buf): (q: Fifo)
    requires Sound(b)
    ensures q.toEnd <= |q.unread|
  {
    Fifo(b.bytes[b.read..], if b.packetEnd.None? then 0 else b.packetEnd.value - b.read)
  }

  datatype Op = Append(s: seq<byte>) | Grow | Frame(len: nat) | End

  predicate Possible(b: Buf, op: Op) {
    match op
    case Append(s) => |b.bytes| + |s| <= b.size
    case Grow => !Shifts(b)
    case Frame(len) => b.read + 4 + len <= |b.bytes|
    case End => b.packetEnd.Some?
  }

  function Apply(b: Buf, op: Op): Buf
    requires Possible(b, op)
  {
    match op
    case Append(s) => Moved(b, s)
    case Grow => Doubled(b)
    case Frame(len) => Framed(b, len)
    case End => Ended(b)
  }

  // The same operation on a queue: bytes go in at one end, headers and packets come out at the other.
  function ApplyFifo(q: Fifo, op: Op): Fifo {
    match op
    case Append(s) => q.(unread := q.unread + s)
    case Grow => q
    case Frame(len) => if 4 <= |q.unread| then Fifo(q.unread[4..], len) else q
    case End => if q.toEnd <= |q.unread| then Fifo(q.unread[q.toEnd..], 0) else q
  }

  lemma Refines(b: Buf, op: Op)
    requires Sound(b) && Possible(b, op)
    ensures Sound(Apply(b, op)) && Abs(Apply(b, op)) == ApplyFifo(Abs(b), op)
  {
    match op
    case Append(s) => assert (b.bytes + s)[b.read..] == b.bytes[b.read..] + s;
    case Grow =>
    case Frame(len) => assert b.bytes[b.read + 4..] == b.bytes[b.read..][4..];
    case End => assert b.bytes[b.packetEnd.value..] == b.bytes[b.read..][b.packetEnd.value - b.read..];
  }

  /** Ending a packet twice is the same as ending it once. */
  lemma EndTwice(b: Buf)
    requires Sound(b) && b.packetEnd.Some?
    ensures Sound(Ended(b)) && Ended(Ended(b)) == Ended(b)
  {
  }

  lemma FrameThenEnd(q: Fifo, len: nat)
    requires 4 + len <= |q.unread|
    ensures var r := ApplyFifo(q, Frame(len));
            && r == Fifo(q.unread[4..], len) && q.unread[4..4 + len] <= r.unread
            && ApplyFifo(r, End) == Fifo(q.unread[4 + len..], 0)
  {
  }

  lemma EndTwiceSame(q: Fifo)
    ensures q.toEnd <= |q.unread| ==> ApplyFifo(ApplyFifo(q, End), End) == ApplyFifo(q, End)
  {
  }

  predicate AllPossible(b: Buf, ops: seq<Op>)
    decreases ops
  {
    ops == [] || (Possible(b, ops[0]) && AllPossible(Apply(b, ops[0]), ops[1..]))
  }

  function ApplyAll(b: Buf, ops: seq<Op>): Buf
    requires AllPossible(b, ops)
    decreases ops
  {
    if ops == [] then b else ApplyAll(Apply(b, ops[0]), ops[1..])
  }

  // What an operation takes out of a queue.
  function Taken(q: Fifo, op: Op): seq<byte> {
    if op.Frame? && 4 <= |q.unread| then q.unread[..4]
    else if op.End? && q.toEnd <= |q.unread| then q.unread[..q.toEnd]
    else []
  }

  function AllTaken(q: Fifo, ops: seq<Op>): seq<byte>
    decreases ops
  {
    if ops == [] then [] else Taken(q, ops[0]) + AllTaken(ApplyFifo(q, ops[0]), ops[1..])
  }

  function Added(op: Op): seq<byte> {
    if op.Append? then op.s else []
  }

  function Appended(ops: seq<Op>): seq<byte> {
    if ops == [] then [] else Added(ops[0]) + Appended(ops[1..])
  }

  lemma TakenStep(q: Fifo, op: Op)
    ensures Taken(q, op) + ApplyFifo(q, op).unread == q.unread + Added(op)
  {
  }

  lemma Rejoin(first: seq<byte>, later: seq<byte>, left: seq<byte>, between: seq<byte>, more: seq<byte>,
               start: seq<byte>, s: seq<byte>)
    requires first + between == start + s && later + left == between + more
    ensures first + later + left == start + (s + more)
  {
    assert first + later + left == first + (later + left);
    assert first + between + more == first + (between + more);
  }

  /** Over any run, what was taken and what is unread make up exactly what was appended, in order, nothing lost. */
  lemma {:induction false} FifoRun(b: Buf, ops: seq<Op>)
    requires Sound(b) && AllPossible(b, ops)
    ensures Sound(ApplyAll(b, ops))
    ensures AllTaken(Abs(b), ops) + Abs(ApplyAll(b, ops)).unread == Abs(b).unread + Appended(ops)
    decreases ops
  {
    hide Sound, Possible, Abs, Apply, ApplyFifo, Taken, Added;
    if ops == [] {
      assert Abs(b).unread + [] == [] + Abs(b).unread;
    } else {
      var op, rest, q := ops[0], ops[1..], Abs(b);
      var next := ApplyFifo(q, op);
      Refines(b, op);
      TakenStep(q, op);
      FifoRun(Apply(b, op), rest);
      Rejoin(Taken(q, op), AllTaken(next, rest), Abs(ApplyAll(b, ops)).unread, next.unread, Appended(rest),
             q.unread, Added(op));
    }
  }

  lemma ApplyFirst(b: Buf, op: Op, ops: seq<Op>)
    requires Possible(b, op) && AllPossible(Apply(b, op), ops)
    ensures AllPossible(b, [op] + ops) && ApplyAll(b, [op] + ops) == ApplyAll(Apply(b, op), ops)
  {
    assert ([op] + ops)[1..] == ops;
  }

  /** The states in which the space reported is not there can be reached: a full buffer of which one packet was read. */
  lemma OverrunReachable(s: seq<byte>)
    requires |s| == DEFAULT_SIZE
    ensures var ops := [Append(s)] + ([Frame(600_000)] + ([End] + []));
            && AllPossible(EMPTY, ops)
            && var b := ApplyAll(EMPTY, ops);
               Sound(b) && b.read + b.used > b.size && Available(b) > b.size - |b.bytes| && Shifts(b)
  {
    assert [] + s == s;
    var b1 := Buf(DEFAULT_SIZE, s, DEFAULT_SIZE, 0, None);
    var b2 := Buf(DEFAULT_SIZE, s, DEFAULT_SIZE, 4, Some(600_004));
    var b3 := Buf(DEFAULT_SIZE, s, DEFAULT_SIZE, 600_004, Some(600_004));
    assert Apply(EMPTY, Append(s)) == b1 && Apply(b1, Frame(600_000)) == b2 && Apply(b2, End) == b3;
    ApplyFirst(b2, End, []);
    ApplyFirst(b1, Frame(600_000), [End] + []);
    ApplyFirst(EMPTY, Append(s), [Frame(600_000)] + ([End] + []));
    AvailableExact(b3);
    ShiftExact(b3);
  }

  // ---------------------------------------------------------------- the object

  class ReadBuffer {
    var data: array<byte>
    var used: nat
    var write: nat
    var read: nat
    var packetEnd: Option<nat>

    ghost predicate Valid()
      reads this, data
    {
      write <= data.Length && Sound(State())
    }

    ghost function State(): Buf
      reads this, data
      requires write <= data.Length
    {
      Buf(data.Length, data[..write], used, read, packetEnd)
    }

    ghost function Queue(): (q: Fifo)
      reads this, data
      requires Valid()
      ensures q.toEnd > 0 ==> packetEnd.Some?
    {
      Abs(State())
    }

    constructor ()
      ensures Valid() && fresh(data) && State() == EMPTY
    {
      data := new byte[DEFAULT_SIZE];
      used, write, read, packetEnd := 0, 0, 0, None;
    }

    method GetAvailable() returns (available: nat)
      requires Valid()
      ensures available <= data.Length - write <==> read + used <= data.Length
      ensures read + used <= data.Length ==> available == data.Length - write - read
      ensures available == Available(State())
    {
      AvailableExact(State());
      available := (data.Length - (read + used)) % (SIZE_MAX + 1);
    }

    // memmove would read beyond the buffer, so that only the other branch has a meaning.
    method Increase() returns (ok: bool)
      requires Valid() && !Shifts(State())
      modifies this
      ensures Valid() && (data == old(data) || fresh(data))
      ensures State() == Doubled(old(State())) && Queue() == old(Queue())
      ensures ok <==> 2 * old(data.Length) <= LARGEST
      ensures data.Length == (if ok then 2 else 1) * old(data.Length) && data[..write] == old(data[..write])
      ensures read == old(read) && used == old(used) && write == old(write)
    {
      Refines(State(), Grow);
      var newSize := data.Length * 2;
      if newSize > LARGEST {
        return false;
      }
      var packetEndSize := if packetEnd.Some? then packetEnd.value else 0;
      var newData := new byte[newSize];
      forall k | 0 <= k < data.Length {
        newData[k] := data[k];
      }
      assert newData[..write] == data[..write];
      data := newData;
      packetEnd := Some(packetEndSize);
      return true;
    }

    // The receiver puts s behind the write pointer; then the pointer is moved.
    method MoveWrite(s: seq<byte>)
      requires Valid() && write + |s| <= data.Length
      modifies this, data
      ensures Valid() && data == old(data)
      ensures State() == Moved(old(State()), s) && Queue() == ApplyFifo(old(Queue()), Append(s))
      ensures write == old(write) + |s|
    {
      Refines(State(), Append(s));
      ghost var before := data[..write];
      forall k | 0 <= k < |s| {
        data[write + k] := s[k];
      }
      assert data[..write] == before;
      write := write + |s|;
      used := used + |s|;
      assert data[..write] == before + s;
    }

    method UnreadData() returns (n: nat)
      requires Valid()
      ensures n == |Queue().unread|
    {
      n := write - read;
    }

    // What the read pointer points to.
    method UnreadBytes() returns (b: seq<byte>)
      requires Valid()
      ensures b == Queue().unread
    {
      b := data[read..write];
      assert b == data[..write][read..];
    }

    // The length in the header has been read: steps over the header and sets the packet end.
    method BeginPacket(len: nat)
      requires Valid() && 4 + len <= |Queue().unread|
      modifies this
      ensures Valid() && data == old(data) && packetEnd.Some?
      ensures State() == Framed(old(State()), len) && Queue() == ApplyFifo(old(Queue()), Frame(len))
      ensures write == old(write)
    {
      Refines(State(), Frame(len));
      read := read + 4;
      packetEnd := Some(read + len);
    }

    method PacketReadEnd()
      requires Valid() && packetEnd.Some?
      modifies this
      ensures Valid() && packetEnd.Some? && data == old(data)
      ensures State() == Ended(old(State())) && Queue() == ApplyFifo(old(Queue()), End)
      ensures if Queue().unread == [] then write == 0 else write == old(write)
    {
      Refines(State(), End);
      if packetEnd.value == write {
        read, write, used, packetEnd := 0, 0, 0, Some(0);
      } else {
        read := packetEnd.value;
      }
    }

    // on_alloc: how many bytes the receiver may put behind the write pointer.
    method Alloc(suggested: nat) returns (room: nat)
      requires Valid() && read + used <= data.Length
      modifies this
      ensures Valid() && (data == old(data) || fresh(data))
      ensures room <= data.Length - write
      ensures Queue() == old(Queue()) && write == old(write) && read == old(read) && used == old(used)
      ensures data.Length >= old(data.Length) && room >= old(data.Length) - read - used
      ensures room == Available(State())
      ensures room < suggested ==> data.Length > old(data.Length) || 2 * data.Length > LARGEST
    {
      AvailableExact(State());
      ShiftExact(State());
      room := GetAvailable();
      if room < suggested {
        var ok := Increase();
        AvailableExact(State());
        room := GetAvailable();
      }
    }
  }
}
