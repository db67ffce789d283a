/** An application that makes the connection object go through a run, and a condition under which it may. */
module Application {
  import opened Bytes
  import opened Buffers
  import opened Protocol
  import opened Safety
  import opened Connections

  // What libuv asks for.
  const SUGGESTED_SIZE := 64 * 1024

  // An upper bound of the write offset after an event: a buffer that has been used up starts again at its beginning.
  function LoadAfter(c: Con, load: nat, e: Event): nat
    requires Inv(c) && Enabled(c, e)
  {
    if After(c, e).unread == [] then 0 else load + if e.Chunk? then |e.bytes| else 0
  }

  // Between two moments at which all that came has been used up, no more than half of the initial buffer arrives.
  predicate WithinHalf(c: Con, load: nat, events: seq<Event>)
    requires Inv(c) && AllEnabled(c, events)
    decreases |events|
  {
    if events == [] then true
    else
      && (events[0].Chunk? ==> 2 * (load + |events[0].bytes|) <= DEFAULT_SIZE)
      && (InvAfter(c, events[0]); WithinHalf(After(c, events[0]), LoadAfter(c, load, events[0]), events[1..]))
  }

  // The object has come to state c, or a packet was too short.
  ghost predicate Reached(con: Connection, c: Con)
    reads con, con.readBuffer, con.readBuffer.data, con.nextPacketQueue
  {
    con.Shaped() && con.overrun == c.core.fault && (!con.overrun ==> con.Valid() && con.View() == c)
  }

  // Bytes come: room is asked for first, and it suffices.
  method Arrive(con: Connection, bytes: seq<byte>, ghost load: nat)
    requires con.Valid() && !con.overrun && con.readBuffer.write <= load && 2 * (load + |bytes|) <= DEFAULT_SIZE
    modifies con, con.readBuffer, con.readBuffer.data, con.nextPacketQueue
    ensures Reached(con, Deliver(old(con.View()), bytes))
    ensures con.readBuffer.data == old(con.readBuffer.data) || fresh(con.readBuffer.data)
    ensures !con.overrun ==> con.readBuffer.write <= if con.View().unread == [] then 0 else load + |bytes|
  {
    hide Inv, Abs, Deliver;
    var room := con.OnAlloc(SUGGESTED_SIZE);
    assert |bytes| <= room;
    var _ := con.Receive(bytes);
  }

  // One event is made happen.
  method Happen(con: Connection, e: Event, ghost load: nat)
    requires con.Valid() && !con.overrun && Enabled(con.View(), e) && con.readBuffer.write <= load
    requires e.Chunk? ==> 2 * (load + |e.bytes|) <= DEFAULT_SIZE
    modifies con, con.readBuffer, con.readBuffer.data, con.nextPacketQueue
    ensures Reached(con, After(old(con.View()), e))
    ensures con.readBuffer.data == old(con.readBuffer.data) || fresh(con.readBuffer.data)
    ensures !con.overrun ==> con.readBuffer.write <= LoadAfter(old(con.View()), load, e)
  {
    hide Inv, Abs, Sound, Process;
    ghost var c := con.View();
    QueueHasRoom(c);
    match e {
      case Chunk(bytes) => Arrive(con, bytes, load);
      case Command(command) => var _ := con.CommandSend(command, false);
      case SendBroken(command) => var _ := con.CommandSend(command, true);
      case NextRow => var _ := con.GetNextRow();
      case MoreResults => var _ := con.CommandNextResult();
      case WriteDone => con.OnWrite(false);
      case ReadBroken => con.ReadFails();
      case WriteBroken => con.OnWrite(true);
    }
  }

  lemma QueueHasRoom(c: Con)
    requires Inv(c) && !c.core.fault
    ensures |c.core.queue| <= 1
  {
  }

  /** Under this condition the object can be taken through any run, and what is proved of the run is true of the object:
      whenever bytes come there is room for them, however often the buffer grows, and its stack never has to grow. */
  method RunAll(con: Connection, events: seq<Event>, ghost load: nat)
    requires con.Valid() && !con.overrun && con.readBuffer.write <= load
    requires AllEnabled(con.View(), events) && WithinHalf(con.View(), load, events)
    modifies con, con.readBuffer, con.readBuffer.data, con.nextPacketQueue
    ensures Reached(con, Run(old(con.View()), events))
    decreases |events|
  {
    hide Inv, Abs, Sound, After, Enabled, LoadAfter;
    if events != [] {
      ghost var c := con.View();
      InvAfter(c, events[0]);
      Happen(con, events[0], load);
      if con.overrun {
        FaultEnds(After(c, events[0]), events[1..]);
        return;
      }
      RunAll(con, events[1..], LoadAfter(c, load, events[0]));
    }
  }

  // After a packet that was too short nothing is defined.
  lemma FaultEnds(c: Con, events: seq<Event>)
    requires Inv(c) && AllEnabled(c, events) && c.core.fault
    ensures events == []
  {
  }
}
