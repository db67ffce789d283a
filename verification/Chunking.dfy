/** The way the server's bytes are cut into chunks, and when they come, makes no difference. */
module Chunking {
  import opened Bytes
  import opened Protocol
  import opened Safety

  lemma WholeAppended(b: seq<byte>, t: seq<byte>)
    requires Whole(b)
    ensures Whole(b + t) && Payload(b + t) == Payload(b) && (b + t)[3] == b[3]
    ensures (b + t)[4..] == b[4..] + t && (b + t)[4 + |Payload(b)|..] == b[4 + |Payload(b)|..] + t
  {
    assert (b + t)[0..3] == b[0..3];
  }

  // One turn of the loop does not look beyond its packet.
  lemma StepAppended(c: Con, t: seq<byte>)
    requires Ready(c)
    ensures Ready(Appended(c, t)) && ProcessOne(Appended(c, t)) == Appended(ProcessOne(c), t)
  {
    hide Taken;
    WholeAppended(c.unread, t);
  }

  lemma {:induction false} ProcessAppended(c: Con, t: seq<byte>)
    ensures Process(Appended(Process(c), t)) == Process(Appended(c, t))
    decreases |c.unread|, |c.core.queue|
  {
    hide ProcessOne;
    if Ready(c) {
      Shrinks(c);
      StepAppended(c, t);
      ProcessAppended(ProcessOne(c), t);
    }
  }

  /** Two deliveries have the effect of one. */
  lemma DeliverJoins(c: Con, a: seq<byte>, b: seq<byte>)
    ensures Deliver(Deliver(c, a), b) == Deliver(c, a + b)
  {
    hide Process;
    ProcessAppended(Appended(c, a), b);
    assert c.unread + a + b == c.unread + (a + b);
    assert Appended(Appended(c, a), b) == Appended(c, a + b);
  }

  // ---------------------------------------------------------------- runs

  // What the application's call does before it goes into the loop.
  function Call(c: Con, e: Event): Con {
    match e
    case Command(command) => CommandSend(c, command)
    case NextRow => if c.toEnd <= |c.unread| then ExpectRow(c) else c
    case MoreResults => NextResult(c)
    case WriteDone => Written(c)
    case SendBroken(command) => CommandFailure(c, command)
    case _ => c
  }

  // No read or write fails.
  predicate Steady(events: seq<Event>) {
    forall i :: 0 <= i < |events| ==> !events[i].ReadBroken? && !events[i].WriteBroken?
  }

  // The write callback of a command that is being answered changes nothing.
  predicate IsCall(c: Con, e: Event) {
    !e.Chunk? && !(e.WriteDone? && c.core.queue != [])
  }

  // The events of a run that are neither arrivals nor without effect.
  function Calls(c: Con, events: seq<Event>): seq<Event>
    requires Inv(c) && AllEnabled(c, events)
    decreases |events|
  {
    if events == [] then []
    else
      InvAfter(c, events[0]);
      (if IsCall(c, events[0]) then [events[0]] else []) + Calls(After(c, events[0]), events[1..])
  }

  // The same calls, all bytes being there from the start.
  function Replay(c: Con, calls: seq<Event>): Con
    decreases |calls|
  {
    if calls == [] then c else Replay(Process(Call(c, calls[0])), calls[1..])
  }

  lemma CallAppended(c: Con, e: Event, t: seq<byte>)
    requires Inv(c) && Enabled(c, e) && IsCall(c, e) && !e.ReadBroken? && !e.WriteBroken?
    ensures c.core.queue == []
    ensures Call(Appended(c, t), e) == Appended(Call(c, e), t)
  {
    if e.NextRow? {
      assert (c.unread + t)[c.toEnd..] == c.unread[c.toEnd..] + t;
    }
  }

  lemma CallStep(c: Con, e: Event, t: seq<byte>)
    requires Inv(c) && Enabled(c, e) && IsCall(c, e) && !e.ReadBroken? && !e.WriteBroken?
    ensures Process(Call(Process(Appended(c, t)), e)) == Process(Appended(After(c, e), t))
  {
    hide Process, Call, Inv;
    CallAppended(c, e, t);
    NothingReady(Appended(c, t));
    ProcessAppended(Call(c, e), t);
    AfterIsCall(c, e);
  }

  lemma AfterIsCall(c: Con, e: Event)
    requires Inv(c) && Enabled(c, e) && !e.Chunk? && !e.ReadBroken? && !e.WriteBroken?
    ensures After(c, e) == if e.NextRow? then Process(Call(c, e)) else Call(c, e)
    ensures !IsCall(c, e) ==> After(c, e) == c
  {
    hide Process;
  }

  lemma ChunkStep(c: Con, b: seq<byte>, t: seq<byte>)
    ensures Process(Appended(Deliver(c, b), t)) == Process(Appended(c, b + t))
  {
    hide Process;
    DeliverJoins(c, b, t);
  }

  /** Whatever the chunks and however calls, write callbacks and arrivals interleave, the outcome is that of the calls
      alone, made when all bytes were already there. */
  lemma {:induction false} RunReplays(c: Con, events: seq<Event>)
    requires Inv(c) && AllEnabled(c, events) && Steady(events)
    ensures Process(Run(c, events)) == Replay(Process(Appended(c, Delivered(events))), Calls(c, events))
    decreases |events|
  {
    hide Process, After, Enabled, Inv, Call, Appended, Deliver, IsCall;
    if events == [] {
      NothingAppended(c);
    } else {
      var e, rest := events[0], events[1..];
      InvAfter(c, e);
      RunReplays(After(c, e), rest);
      var calls := Calls(After(c, e), rest);
      if e.Chunk? {
        AfterChunk(c, e);
        ChunkStep(c, e.bytes, Delivered(rest));
        assert [] + calls == calls;
      } else {
        assert [] + Delivered(rest) == Delivered(rest);
        if IsCall(c, e) {
          CallStep(c, e, Delivered(rest));
          assert ([e] + calls)[1..] == calls;
        } else {
          AfterIsCall(c, e);
          assert [] + calls == calls;
        }
      }
    }
  }

  lemma NothingAppended(c: Con)
    ensures Appended(c, []) == c
  {
  }

  lemma AfterChunk(c: Con, e: Event)
    requires Inv(c) && Enabled(c, e) && e.Chunk?
    ensures After(c, e) == Deliver(c, e.bytes) && !IsCall(c, e)
  {
  }

  /** Two runs that get the same bytes and make the same calls dispatch the same packets and end in the same state. */
  lemma ChunkingIrrelevant(c: Con, events: seq<Event>, others: seq<Event>)
    requires Inv(c) && AllEnabled(c, events) && Steady(events) && AllEnabled(c, others) && Steady(others)
    requires Delivered(events) == Delivered(others) && Calls(c, events) == Calls(c, others)
    ensures Process(Run(c, events)) == Process(Run(c, others))
  {
    hide Process, Run, Replay, Inv;
    RunReplays(c, events);
    RunReplays(c, others);
  }
}
