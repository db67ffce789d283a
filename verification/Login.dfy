/** The handshake: the first packet of the server, the answer to it, and the packet that lets the client in. */
module Login {
  import opened Options
  import opened Bytes
  import opened Pack
  import Types
  import Fips180
  import Scramble
  import Buffers
  import opened Protocol
  import opened Safety
  import opened Results
  import opened Answers

  // The fields of the first packet, protocol version 10; the version string ends with a NUL.
  datatype Greeting = Greeting(
    version: seq<byte>, threadId: uint32, first: seq<byte>, filler: byte, capabilities: uint16, charset: byte,
    status: uint16, unused: seq<byte>, second: seq<byte>, tail: seq<byte>)

  predicate ValidGreeting(g: Greeting) {
    && 0 !in g.version && |g.first| == 8 && |g.unused| == 13 && |g.second| == 12
    && Short(GreetingPayload(g))
  }

  function GreetingPayload(g: Greeting): seq<byte> {
    [10] + g.version + [0] + Le(g.threadId, 4) + g.first + [g.filler] + Le(g.capabilities, 2) + [g.charset]
    + Le(g.status, 2) + g.unused + g.second + g.tail
  }

  // ---------------------------------------------------------------- where the code finds the fields

  // A buffer of 32 bytes holds a string of 31.
  const LONGEST_VERSION := 31

  // The fields are looked for behind the version string and its NUL, or behind 32 bytes of a longer string.
  function CutAt(g: Greeting): nat {
    2 + if |g.version| <= LONGEST_VERSION then |g.version| else LONGEST_VERSION
  }

  lemma {:induction false} LengthToNul(s: seq<byte>, p: nat, v: seq<byte>, most: nat)
    requires At(s, p, v + [0]) && 0 !in v
    ensures StringLength(s, p, most) == if |v| <= most then |v| else most
    decreases most
  {
    AtByIndex(s, p, v + [0]);
    assert s[p] == (v + [0])[0];
    if v != [] && most > 0 {
      AtSplit(s, p, [v[0]], v[1..] + [0]);
      assert v + [0] == [v[0]] + (v[1..] + [0]);
      LengthToNul(s, p + 1, v[1..], most - 1);
    }
  }

  lemma SliceAt(s: seq<byte>, p: nat, v: seq<byte>)
    requires At(s, p, v)
    ensures p + |v| <= |s| && s[p..p + |v|] == v
  {
    MatchIs(s, p, v);
  }

  // Where the fields stand.
  lemma Fields(g: Greeting)
    requires ValidGreeting(g)
    ensures var p := GreetingPayload(g); var at := 2 + |g.version|;
            && |p| == at + 43 + |g.tail| && At(p, 0, [10] + g.version + [0] + Le(g.threadId, 4) + g.first)
            && At(p, 1, g.version + [0])
            && At(p, at + 4, g.first) && At(p, at + 13, Le(g.capabilities, 2))
            && At(p, at + 16, Le(g.status, 2)) && At(p, at + 31, g.second)
  {
    hide At;
    var p := GreetingPayload(g);
    var a := [10] + g.version + [0] + Le(g.threadId, 4);
    var b := a + g.first + [g.filler] + Le(g.capabilities, 2);
    var c := b + [g.charset] + Le(g.status, 2);
    AtAll(p);
    AtSplit(p, 0, c + g.unused + g.second, g.tail);
    AtSplit(p, 0, c + g.unused, g.second);
    AtSplit(p, 0, c, g.unused);
    AtSplit(p, 0, b + [g.charset], Le(g.status, 2));
    AtSplit(p, 0, b, [g.charset]);
    AtSplit(p, 0, a + g.first + [g.filler], Le(g.capabilities, 2));
    AtSplit(p, 0, a + g.first, [g.filler]);
    AtSplit(p, 0, a, g.first);
    AtSplit(p, 0, [10] + g.version + [0], Le(g.threadId, 4));
    assert [10] + g.version + [0] == [10] + (g.version + [0]);
    AtSplit(p, 0, [10], g.version + [0]);
  }

  // Whatever the version, the handler goes on from where it cuts the string.
  lemma GreetingCut(c: Core, g: Greeting)
    requires ValidGreeting(g)
    ensures CutAt(g) + 43 <= |GreetingPayload(g)|
    ensures ReadHandshake(c, GreetingPayload(g))
            == Outcome(Respond(Protocol.GreetingRead(c, GreetingPayload(g), CutAt(g))), false)
  {
    hide GreetingPayload, At, Respond, Protocol.GreetingRead, Le, StringLength;
    GreetingStarts(g);
    Fields(g);
    LengthToNul(GreetingPayload(g), 1, g.version, LONGEST_VERSION);
  }

  lemma GreetingStarts(g: Greeting)
    ensures GreetingPayload(g) != [] && GreetingPayload(g)[0] == 10
  {
  }

  // What the client should make of a greeting.
  function Greeted(c: Core, g: Greeting): Core {
    c.(scramble := g.first + g.second, info := c.info.(serverStatus := g.status), serverCapabilities := g.capabilities,
       error := if g.capabilities / 0x200 % 2 == 1 then c.error else NoOldAuth)
  }

  lemma GreetingTaken(c: Core, g: Greeting)
    requires ValidGreeting(g) && |g.version| <= LONGEST_VERSION
    ensures ReadHandshake(c, GreetingPayload(g)) == Outcome(Respond(Greeted(c, g)), false)
  {
    hide GreetingPayload, At, Respond, Le, UnpackInt, ReadHandshake;
    var p, at := GreetingPayload(g), 2 + |g.version|;
    GreetingCut(c, g);
    Fields(g);
    SliceAt(p, at + 4, g.first);
    SliceAt(p, at + 31, g.second);
    Bytes.Powers();
    UnpackIntAt(p, at + 13, g.capabilities, 2);
    UnpackIntAt(p, at + 16, g.status, 2);
  }

  // With a version that is too long, this greeting is misread: where its scramble is looked for, another byte stands.
  function Misread(v: seq<byte>): Greeting {
    var start: byte := if |v| <= 36 then 1 else 0;
    Greeting(v, 0, [start] + seq(7, _ => 0), 0, 0, 0, 0, seq(13, _ => 0), seq(12, _ => 0), [])
  }

  lemma LongVersionMisread(c: Core, v: seq<byte>)
    requires 0 !in v && |v| > LONGEST_VERSION && ValidGreeting(Misread(v))
    ensures var g := Misread(v);
            ReadHandshake(c, GreetingPayload(g)).core.scramble != g.first + g.second
  {
    hide ReadHandshake, Respond, Types.BitSet, GreetingPayload;
    var g := Misread(v);
    var p := GreetingPayload(g);
    GreetingCut(c, g);
    Fields(g);
    var front := [10] + v + [0] + Le(0, 4) + g.first;
    AtByIndex(p, 0, front);
    Le4(0);
    assert p[37] == front[37];
    assert front[37] == if |v| <= 36 then 0 else v[36];
    RespondKeeps(Protocol.GreetingRead(c, p, CutAt(g)));
    assert (g.first + g.second)[0] == g.first[0];
    assert (p[37..45] + p[64..76])[0] == p[37];
  }

  lemma RespondKeeps(c: Core)
    ensures Respond(c).scramble == c.scramble
  {
  }

  /** Every greeting with a version string is read as its fields exactly if the string has at most 31 bytes. */
  lemma VersionExact(c: Core, v: seq<byte>)
    requires 0 !in v && Short(GreetingPayload(Misread(v)))
    ensures (forall g: Greeting :: ValidGreeting(g) && g.version == v ==>
               ReadHandshake(c, GreetingPayload(g)) == Outcome(Respond(Greeted(c, g)), false))
            <==> |v| <= LONGEST_VERSION
  {
    hide ReadHandshake, Respond, GreetingPayload;
    if |v| <= LONGEST_VERSION {
      forall g: Greeting | ValidGreeting(g) && g.version == v
        ensures ReadHandshake(c, GreetingPayload(g)) == Outcome(Respond(Greeted(c, g)), false)
      {
        GreetingTaken(c, g);
      }
    } else {
      var g := Misread(v);
      assert ValidGreeting(g);
      LongVersionMisread(c, v);
      RespondKeeps(Greeted(c, g));
    }
  }

  // ---------------------------------------------------------------- the whole handshake

  // The greeting has number 0, the client's answer number 1, the packet that lets it in number 2.
  function LoginBytes(g: Greeting, a: Answer): seq<byte>
    requires a.Success?
  {
    FrameBytes(Frame(Handshake, 0, GreetingPayload(g))) + FrameBytes(Frame(Response, 2, OkPayload(a)))
  }

  lemma FirstPacket(c: Con, p: seq<byte>, rest: seq<byte>)
    requires c.core.queue == [Handshake] && c.core.number == 0 && !c.core.fault && Short(p)
    requires c.unread == FrameBytes(Frame(Handshake, 0, p)) + rest
    ensures Ready(c)
    ensures var out := ReadHandshake(c.core.(queue := [], log := c.core.log + [Frame(Handshake, 0, p)]), p);
            !out.held ==> ProcessOne(c) == Con(out.core, rest, 0)
  {
    hide ReadHandshake;
    FrameRead(c.unread, 0, p, rest);
  }

  lemma LastPacket(c: Con, a: Answer)
    requires c.core.queue == [Response] && c.core.number == 1 && !c.core.fault && c.core.status.Connecting?
    requires a.Success? && ValidAnswer(a) && c.unread == FrameBytes(Frame(Response, 2, OkPayload(a)))
    requires c.core.info.errno == 0
    ensures Process(c) == Con(c.core.(
              queue := [], number := 2, log := c.core.log + [Frame(Response, 2, OkPayload(a))],
              info := Info(a.affectedRows, a.insertId, a.end.status, a.end.warnings, 0),
              command := Connected, status := Idle), [], 0)
  {
    hide OkPayload, FrameBytes, HasLength, UnpackLength, UnpackUint16;
    assert c.unread == FrameBytes(Frame(Response, 2, OkPayload(a))) + [];
    OkTakenConnecting(c, a);
    NothingReady(ProcessOne(c));
  }

  lemma OkTakenConnecting(c: Con, a: Answer)
    requires c.core.queue == [Response] && c.core.number == 1 && !c.core.fault && c.core.status.Connecting?
    requires a.Success? && ValidAnswer(a) && c.unread == FrameBytes(Frame(Response, 2, OkPayload(a))) + []
    ensures Ready(c)
    ensures ProcessOne(c) == Con(c.core.(
              queue := [], number := 2, log := c.core.log + [Frame(Response, 2, OkPayload(a))],
              info := Info(a.affectedRows, a.insertId, a.end.status, a.end.warnings, c.core.info.errno),
              command := Connected, status := Idle), [], 0)
  {
    hide OkPayload, HasLength, UnpackLength, UnpackUint16;
    OkFields(a);
    FrameRead(c.unread, 2, OkPayload(a), []);
  }

  // The state in which the greeting is answered.
  function Answering(login: Credentials, g: Greeting): Core
    requires ValidGreeting(g)
  {
    var c := Opened(login).core;
    GreetingCut(c, g);
    var d := c.(queue := [], log := [Frame(Handshake, 0, GreetingPayload(g))]);
    Protocol.GreetingRead(d, GreetingPayload(g), CutAt(g))
  }

  lemma GreetingDelivered(login: Credentials, g: Greeting, rest: seq<byte>)
    requires ValidGreeting(g)
    ensures Deliver(Opened(login), FrameBytes(Frame(Handshake, 0, GreetingPayload(g))) + rest)
            == Process(Con(Respond(Answering(login, g)), rest, 0))
  {
    hide GreetingPayload, FrameBytes, ReadHandshake, Respond, Protocol.GreetingRead;
    var hs := FrameBytes(Frame(Handshake, 0, GreetingPayload(g)));
    var c := Appended(Opened(login), hs + rest);
    assert c.unread == hs + rest;
    FirstPacket(c, GreetingPayload(g), rest);
    var popped := c.core.(queue := [], log := c.core.log + [Frame(Handshake, 0, GreetingPayload(g))]);
    assert popped.log == [Frame(Handshake, 0, GreetingPayload(g))];
    GreetingCut(popped, g);
  }

  lemma AnsweringShort(login: Credentials, g: Greeting)
    requires ValidGreeting(g) && |g.version| <= LONGEST_VERSION
    ensures Answering(login, g).scramble == g.first + g.second
    ensures Answering(login, g).serverCapabilities == g.capabilities
  {
    hide GreetingPayload, At, UnpackInt, Le;
    var p, at := GreetingPayload(g), 2 + |g.version|;
    Fields(g);
    SliceAt(p, at + 4, g.first);
    SliceAt(p, at + 31, g.second);
    Bytes.Powers();
    UnpackIntAt(p, at + 13, g.capabilities, 2);
  }

  /** The client gets in, whatever version the server states, exactly if it has no password or finds a scramble;
      behind a version of at most 31 bytes it finds all 20 bytes of the scramble that was sent. */
  lemma LoginExact(login: Credentials, g: Greeting, a: Answer)
    requires ValidGreeting(g) && a.Success? && ValidAnswer(a)
    ensures var d := Deliver(Opened(login), LoginBytes(g, a)).core;
            && (Poll(d).PollConnected? <==> CanRespond(login, d.scramble))
            && (|g.version| <= LONGEST_VERSION ==> d.scramble == g.first + g.second)
            && (CanRespond(login, d.scramble) ==> d.log == [
                 Frame(Handshake, 0, GreetingPayload(g)), Frame(Response, 2, OkPayload(a))])
  {
    hide GreetingPayload, OkPayload, FrameBytes, Process, Deliver, Types.BitSet, ResponsePacket;
    var ok := FrameBytes(Frame(Response, 2, OkPayload(a)));
    GreetingDelivered(login, g, ok);
    var d := Con(Respond(Answering(login, g)), ok, 0);
    if |g.version| <= LONGEST_VERSION {
      AnsweringShort(login, g);
    }
    if CanRespond(login, d.core.scramble) {
      LastPacket(d, a);
    } else {
      NothingReady(d);
    }
  }

  /** A client that finds no scramble for its password says so, and waits for nothing. */
  lemma NoScrambleFound(login: Credentials, g: Greeting, rest: seq<byte>)
    requires ValidGreeting(g) && !CanRespond(login, Answering(login, g).scramble)
    ensures var d := Deliver(Opened(login), FrameBytes(Frame(Handshake, 0, GreetingPayload(g))) + rest).core;
            && d.error == BadScramble && d.queue == [] && d.log == [Frame(Handshake, 0, GreetingPayload(g))]
            && d.answer == [] && Poll(d).PollConnecting?
  {
    hide GreetingPayload, FrameBytes, Process, Deliver, Types.BitSet, UnpackInt;
    GreetingDelivered(login, g, rest);
    NothingReady(Con(Respond(Answering(login, g)), rest, 0));
  }

  /** A greeting of another protocol version than 10 is refused: the packet is left where it is, nothing is sent or
      expected, and every poll reports that the connection is being made. */
  lemma OtherVersionRefused(login: Credentials, p: seq<byte>, rest: seq<byte>)
    requires p != [] && p[0] != 10 && p[0] != 0xff && Short(p)
    ensures var d := Deliver(Opened(login), FrameBytes(Frame(Handshake, 0, p)) + rest);
            && d.core.error == BadProtocol && d.core.queue == [] && d.core.answer == [] && d.unread == p + rest
            && Poll(d.core).PollConnecting?
  {
    var b := FrameBytes(Frame(Handshake, 0, p)) + rest;
    var c := Appended(Opened(login), b);
    assert c.unread == b;
    FrameRead(b, 0, p, rest);
    NothingReady(ProcessOne(c));
  }

  // ---------------------------------------------------------------- what the server makes of the answer

  // The handshake response as the protocol documentation lays it out.
  datatype Answered = Answered(
    capabilities: nat, maxPacket: nat, charset: byte, user: seq<byte>, reply: seq<byte>, schema: seq<byte>)

  // The bytes from p on up to a NUL.
  function UntilNul(b: seq<byte>, p: nat): Option<seq<byte>>
    decreases |b| - p
  {
    if p >= |b| then None
    else if b[p] == 0 then Some([])
    else
      match UntilNul(b, p + 1)
      case None => None
      case Some(v) => Some([b[p]] + v)
  }

  // Four bytes of capabilities, four of packet size, the character set, 23 zero bytes, the user name and a NUL, the
  // length
  // of the reply and the reply, the schema and a NUL, and nothing more.
  function ServerParses(b: seq<byte>): Option<Answered> {
    if |b| < 32 || b[9..32] != seq(23, _ => 0) then None
    else
      match UntilNul(b, 32)
      case None => None
      case Some(user) =>
        var at := 33 + |user|;
        if at >= |b| || at + 1 + b[at] > |b| then None
        else
          var behind := at + 1 + b[at];
          match UntilNul(b, behind)
          case None => None
          case Some(schema) =>
            if behind + |schema| + 1 != |b| then None
            else Some(Answered(UnpackInt(b, 0, 4), UnpackInt(b, 4, 4), b[8], user, b[at + 1..behind], schema))
  }

  lemma {:induction false} FindsNul(b: seq<byte>, p: nat, v: seq<byte>)
    requires At(b, p, v + [0]) && 0 !in v
    ensures UntilNul(b, p) == Some(v)
    decreases |v|
  {
    AtByIndex(b, p, v + [0]);
    assert b[p] == (v + [0])[0];
    if v != [] {
      AtSplit(b, p, [v[0]], v[1..] + [0]);
      assert v + [0] == [v[0]] + (v[1..] + [0]) && [v[0]] + v[1..] == v;
      FindsNul(b, p + 1, v[1..]);
    }
  }

  // The names are C strings.
  predicate Names(login: Credentials) {
    0 !in login.user && 0 !in login.schema
  }

  // What the client means to say.
  function Intended(c: Core): Answered {
    Answered(Capabilities(c.serverCapabilities, c.login.capabilities), 1_048_576, 0, c.login.user,
             if c.login.pass == [] then [] else ScrambledPassword(c.login.pass, c.scramble), c.login.schema)
  }

  // The stretches of the response.
  lemma ResponseParts(c: Core)
    ensures var p, user := ResponsePacket(c), c.login.user;
            var reply := Intended(c).reply;
            && At(p, 0, Le(Intended(c).capabilities, 4)) && At(p, 4, Le(1_048_576, 4)) && At(p, 8, [0])
            && At(p, 9, seq(23, _ => 0)) && At(p, 32, user + [0]) && At(p, 33 + |user|, [|reply|] + reply)
            && At(p, 34 + |user| + |reply|, c.login.schema + [0])
            && |p| == 35 + |user| + |reply| + |c.login.schema|
  {
    hide At, ScrambledPassword, Capabilities, Le;
    var p, user, reply := ResponsePacket(c), c.login.user, Intended(c).reply;
    var a := Le(Intended(c).capabilities, 4) + Le(Buffers.DEFAULT_SIZE, 4) + [0];
    var b := a + seq(23, _ => 0);
    var tail := c.login.schema + [0];
    assert p == b + (user + [0]) + ([|reply|] + reply) + tail;
    AtAll(p);
    AtSplit(p, 0, b + (user + [0]) + ([|reply|] + reply), tail);
    AtSplit(p, 0, b + (user + [0]), [|reply|] + reply);
    AtSplit(p, 0, b, user + [0]);
    AtSplit(p, 0, a, seq(23, _ => 0));
    AtSplit(p, 0, Le(Intended(c).capabilities, 4) + Le(Buffers.DEFAULT_SIZE, 4), [0]);
    AtSplit(p, 0, Le(Intended(c).capabilities, 4), Le(Buffers.DEFAULT_SIZE, 4));
  }

  /** An independent reader recovers every field of the response, with and without a password, and no byte is left
      over. */
  lemma ResponseParsed(c: Core)
    requires Names(c.login)
    ensures ServerParses(ResponsePacket(c)) == Some(Intended(c))
  {
    hide At, ResponsePacket, ScrambledPassword, Capabilities, Le, UnpackInt, UntilNul;
    var p, user, reply := ResponsePacket(c), c.login.user, Intended(c).reply;
    ResponseParts(c);
    Bytes.Powers();
    UnpackIntAt(p, 0, Intended(c).capabilities, 4);
    UnpackIntAt(p, 4, 1_048_576, 4);
    ByteAt(p, 8, 0);
    SliceAt(p, 9, seq(23, _ => 0));
    FindsNul(p, 32, user);
    var at := 33 + |user|;
    AtSplit(p, at, [|reply|], reply);
    ByteAt(p, at, |reply|);
    SliceAt(p, at + 1, reply);
    FindsNul(p, at + 1 + |reply|, c.login.schema);
  }

  lemma ByteAt(b: seq<byte>, p: nat, x: byte)
    requires At(b, p, [x])
    ensures p < |b| && b[p] == x
  {
    AtByIndex(b, p, [x]);
    assert b[p] == [x][0];
  }

  predicate Bit(x: bv32, k: bv6)
    requires k < 32
  {
    (x >> k) & 1 == 1
  }

  /** Capability k is sent exactly if the server offers it and it is in the client's list, or it is the one for several
      results, or the caller has asked for it. */
  lemma CapabilitySent(server: uint16, client: bv32, k: bv6)
    requires k < 32
    ensures Bit(Capabilities(server, client) as bv32, k) <==>
            (Bit(server as bv32, k) && k in {0, 1, 2, 3, 9, 13, 15, 19}) || k == 17 || Bit(client, k)
  {
    var offered := server as bv32;
    var all := (offered & CAPABILITY_CLIENT) | CAPABILITY_MULTI_RESULTS | client;
    assert Capabilities(server, client) as bv32 == all;
    CapabilityBit(offered, client, k);
  }

  lemma CapabilityBit(server: bv32, client: bv32, k: bv6)
    requires k < 32
    ensures Bit((server & CAPABILITY_CLIENT) | CAPABILITY_MULTI_RESULTS | client, k) <==>
            (Bit(server, k) && k in {0, 1, 2, 3, 9, 13, 15, 19}) || k == 17 || Bit(client, k)
  {
  }

  lemma OctetsBack(o: seq<Fips180.octet>)
    ensures ToOctets(FromOctets(o)) == o
  {
  }

  /** From end to end: the answer that the client sends on a greeting with a scramble says who it is and what schema it
      wants, and its reply convinces the server that sent the greeting and keeps the double hash of the password. */
  lemma ServerConvinced(login: Credentials, g: Greeting, rest: seq<byte>)
    requires ValidGreeting(g) && |g.version| <= LONGEST_VERSION && g.first[0] != 0 && login.pass != [] && Names(login)
    ensures var sent := Con(Respond(Answering(login, g)), rest, 0);
            && Deliver(Opened(login), FrameBytes(Frame(Handshake, 0, GreetingPayload(g))) + rest) == Process(sent)
            && ServerParses(sent.core.answer).Some?
            && var read := ServerParses(sent.core.answer).value;
               && read.user == login.user && read.schema == login.schema && |read.reply| == 20
               && read.capabilities == Capabilities(g.capabilities, login.capabilities)
               && Scramble.ServerAccepts(Fips180.Sha1(Fips180.Sha1(ToOctets(login.pass))), ToOctets(g.first + g.second),
                                         ToOctets(read.reply))
  {
    hide GreetingPayload, FrameBytes, Process, Deliver, Answering, At, Fips180.Sha1, Scramble.Reply, Capabilities,
      ResponsePacket, ServerParses, Scramble.ServerAccepts;
    GreetingDelivered(login, g, rest);
    AnsweringShort(login, g);
    AnsweringLogin(login, g);
    assert (g.first + g.second)[0] == g.first[0];
    ResponseParsed(Answering(login, g));
    OctetsBack(Scramble.Reply(ToOctets(login.pass), ToOctets(g.first + g.second)));
    Scramble.OwnReplyIsAccepted(ToOctets(login.pass), ToOctets(g.first + g.second));
  }

  lemma AnsweringLogin(login: Credentials, g: Greeting)
    requires ValidGreeting(g)
    ensures Answering(login, g).login == login
  {
  }
}
