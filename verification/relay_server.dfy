/** The relay's table of connected clients, and every interleaving of connecting,
    forwarding and disconnecting. */
module RelayServer {
  import opened Text
  import opened Bytes
  import opened Relay
  import Utf8

  type Addr = nat

  // ------------------------------------------------------------------
  // The table
  // ------------------------------------------------------------------

  datatype RelayClient = RelayClient(nick: seq<byte>, queue: seq<byte>)

  type Clients = map<Addr, RelayClient>

  /** Every client but the sender gets the frame. */
  function FanOut(clients: Clients, from: Addr, frame: seq<byte>): (r: Clients)
    ensures r.Keys == clients.Keys
    ensures from in clients ==> r[from] == clients[from]
  {
    map a | a in clients ::
      if a == from then clients[a] else clients[a].(queue := clients[a].queue + frame)
  }

  class RelayState {
    var clients: Clients

    constructor ()
      ensures clients == map[]
    {
      clients := map[];
    }

    method Connect(a: Addr, nick: seq<byte>)
      modifies this
      ensures clients == old(clients)[a := RelayClient(nick, [])]
    {
      clients := clients[a := RelayClient(nick, [])];
    }

    /** One turn of a connection's loop, after a payload was read. */
    method Forward(from: Addr, nick: seq<byte>, payload: Payload)
      modifies this
      ensures clients == FanOut(old(clients), from, RelayFrame(Packet(nick, payload)))
    {
      var frame := BuildFrame(nick, payload);
      var todo := clients.Keys;
      while todo != {}
        invariant todo <= clients.Keys == old(clients).Keys
        invariant forall a :: a in clients ==>
          clients[a] == if a in todo then old(clients)[a] else FanOut(old(clients), from, frame)[a]
      {
        var a :| a in todo;
        if a != from {
          clients := clients[a := clients[a].(queue := clients[a].queue + frame)];
        }
        todo := todo - {a};
      }
      assert clients == FanOut(old(clients), from, frame);
    }

    method Disconnect(a: Addr)
      modifies this
      ensures clients == old(clients) - {a}
    {
      clients := clients - {a};
    }
  }

  // ------------------------------------------------------------------
  // Steps of all connections together
  // ------------------------------------------------------------------

  /** A connection holds the read lock while it forwards one packet. Several can hold it
      at once, so their sends interleave. */
  datatype Pc = Idle | Sending(packet: Packet, todo: set<Addr>)

  datatype Entry = Entry(from: Addr, packet: Packet)

  /** A connection in the table: the bytes queued for it, the bytes from it still to be
      read, and what it is doing. The rest is a record: what was queued for it and by
      whom, its whole stream, the payloads read from it, and what had been forwarded for
      each address when it connected. */
  datatype Conn = Conn(
    nick: seq<byte>, queue: seq<byte>, unread: seq<byte>, pc: Pc,
    heard: seq<Entry>, stream: seq<byte>, own: seq<Payload>, before: map<Addr, seq<Packet>>)

  /** `sent` records the packets forwarded for each address so far. */
  datatype World = World(conns: map<Addr, Conn>, sent: map<Addr, seq<Packet>>)

  datatype Step =
    | Connect(a: Addr, bytes: seq<byte>)
    | Read(a: Addr)
    | Send(a: Addr, b: Addr)
    | Release(a: Addr)
    | Disconnect(a: Addr)

  const Empty := World(map[], map[])

  function Sent(sent: map<Addr, seq<Packet>>, a: Addr): seq<Packet> {
    if a in sent then sent[a] else []
  }

  /** Nobody holds the read lock, so the write lock can be taken. */
  ghost predicate Unlocked(w: World) { forall a :: a in w.conns ==> w.conns[a].pc == Idle }

  ghost predicate Enabled(w: World, step: Step) {
    match step
    case Connect(a, bytes) => a !in w.conns && ReadHello(bytes).Some? && Unlocked(w)
    case Read(a) => a in w.conns && w.conns[a].pc == Idle && ReadFrame(w.conns[a].unread).Some?
    case Send(a, b) => a in w.conns && w.conns[a].pc.Sending? && b in w.conns[a].pc.todo && b in w.conns && a != b
    case Release(a) => a in w.conns && w.conns[a].pc.Sending? && w.conns[a].pc.todo == {}
    case Disconnect(a) => a in w.conns && Unlocked(w)
  }

  function Connected(nick: seq<byte>, rest: seq<byte>, sent: map<Addr, seq<Packet>>): Conn {
    Conn(nick, [], rest, Idle, [], rest, [], sent)
  }

  function AfterRead(c: Conn, packet: Packet, rest: seq<byte>, others: set<Addr>): Conn {
    c.(unread := rest, pc := Sending(packet, others), own := c.own + [packet.payload])
  }

  function AfterSend(c: Conn, b: Addr): Conn
    requires c.pc.Sending?
  {
    c.(pc := Sending(c.pc.packet, c.pc.todo - {b}))
  }

  function Receive(c: Conn, e: Entry): Conn {
    c.(queue := c.queue + RelayFrame(e.packet), heard := c.heard + [e])
  }

  ghost function Apply(w: World, step: Step): World
    requires Enabled(w, step)
  {
    match step
    case Connect(a, bytes) =>
      var (raw, rest) := ReadHello(bytes).value;
      w.(conns := w.conns[a := Connected(DecodedNick(raw), rest, w.sent)])
    case Read(a) =>
      var (payload, rest) := ReadFrame(w.conns[a].unread).value;
      var packet := Packet(w.conns[a].nick, payload);
      World(w.conns[a := AfterRead(w.conns[a], packet, rest, w.conns.Keys - {a})],
            w.sent[a := Sent(w.sent, a) + [packet]])
    case Send(a, b) =>
      w.(conns := w.conns[a := AfterSend(w.conns[a], b)]
                         [b := Receive(w.conns[b], Entry(a, w.conns[a].pc.packet))])
    case Release(a) => w.(conns := w.conns[a := w.conns[a].(pc := Idle)])
    case Disconnect(a) => w.(conns := w.conns - {a})
  }

  ghost predicate StepAt(ws: seq<World>, steps: seq<Step>, i: nat)
    requires i < |steps| && |ws| == |steps| + 1
  {
    Enabled(ws[i], steps[i]) && ws[i + 1] == Apply(ws[i], steps[i])
  }

  ghost predicate IsRun(ws: seq<World>, steps: seq<Step>) {
    && |ws| == |steps| + 1
    && ws[0] == Empty
    && forall i :: 0 <= i < |steps| ==> StepAt(ws, steps, i)
  }

  // ------------------------------------------------------------------
  // What a client was queued
  // ------------------------------------------------------------------

  function Packets(heard: seq<Entry>): (r: seq<Packet>) {
    if heard == [] then [] else Packets(heard[..|heard| - 1]) + [heard[|heard| - 1].packet]
  }

  /** The packets of one sender, in order. */
  function From(heard: seq<Entry>, a: Addr): seq<Packet> {
    if heard == [] then []
    else From(heard[..|heard| - 1], a) + if heard[|heard| - 1].from == a then [heard[|heard| - 1].packet] else []
  }

  function Tagged(nick: seq<byte>, ps: seq<Payload>): seq<Packet> {
    seq(|ps|, i requires 0 <= i < |ps| => Packet(nick, ps[i]))
  }

  lemma Push(heard: seq<Entry>, e: Entry, a: Addr)
    ensures Packets(heard + [e]) == Packets(heard) + [e.packet]
    ensures From(heard + [e], a) == From(heard, a) + if e.from == a then [e.packet] else []
  {
    assert (heard + [e])[..|heard|] == heard;
  }

  lemma RelayFramesPush(ps: seq<Packet>, p: Packet)
    ensures RelayFrames(ps + [p]) == RelayFrames(ps) + RelayFrame(p)
  {
    assert (ps + [p])[..|ps|] == ps;
  }

  ghost predicate AllValid(ps: seq<Packet>) { forall p :: p in ps ==> ValidPacket(p) }

  /** The queue holds the frames of what was heard, none of it the client's own. */
  ghost predicate QueueOk(c: Conn, r: Addr) {
    c.queue == RelayFrames(Packets(c.heard)) && AllValid(Packets(c.heard)) && From(c.heard, r) == []
  }

  predicate ValidPacketNick(nick: seq<byte>) { Utf8.Valid(nick) && 1 <= |nick| < 256 }

  /** What was read of the stream is what was forwarded for this connection. */
  ghost predicate StreamOk(c: Conn, sent: seq<Packet>, r: Addr) {
    && ValidPacketNick(c.nick)
    && ReadFrames(c.stream) == c.own + ReadFrames(c.unread)
    && sent == Sent(c.before, r) + Tagged(c.nick, c.own)
  }

  /** A packet being forwarded is valid and never due to its own sender. */
  ghost predicate PcOk(c: Conn, r: Addr) {
    c.pc.Sending? ==> ValidPacket(c.pc.packet) && r !in c.pc.todo
  }

  /** The packet of `a` that `r` is still to be sent. */
  function Pending(conns: map<Addr, Conn>, a: Addr, r: Addr): seq<Packet> {
    if a in conns && conns[a].pc.Sending? && r in conns[a].pc.todo then [conns[a].pc.packet] else []
  }

  /** What was forwarded for `a` is what there was before `r` connected, then what `r`
      was queued of it, then what `r` is about to be queued. */
  ghost predicate PairOk(w: World, r: Addr, a: Addr)
    requires r in w.conns
  {
    Sent(w.sent, a) == Sent(w.conns[r].before, a) + From(w.conns[r].heard, a) + Pending(w.conns, a, r)
  }

  ghost predicate ConnOk(w: World, r: Addr)
    requires r in w.conns
  {
    QueueOk(w.conns[r], r) && StreamOk(w.conns[r], Sent(w.sent, r), r) && PcOk(w.conns[r], r)
  }

  ghost predicate Inv(w: World) {
    && (forall r :: r in w.conns ==> ConnOk(w, r))
    && (forall r, a :: r in w.conns && a != r ==> PairOk(w, r, a))
  }

  // ------------------------------------------------------------------
  // Every step keeps it
  // ------------------------------------------------------------------

  lemma ReceiveOk(c: Conn, e: Entry, r: Addr)
    requires QueueOk(c, r) && ValidPacket(e.packet) && e.from != r
    ensures QueueOk(Receive(c, e), r)
  {
    Push(c.heard, e, r);
    RelayFramesPush(Packets(c.heard), e.packet);
  }

  lemma ReadOk(c: Conn, sent: seq<Packet>, payload: Payload, rest: seq<byte>, others: set<Addr>, r: Addr)
    requires StreamOk(c, sent, r) && ReadFrame(c.unread) == Some((payload, rest))
    ensures StreamOk(AfterRead(c, Packet(c.nick, payload), rest, others), sent + [Packet(c.nick, payload)], r)
  {
    Associative(c.own, [payload], ReadFrames(rest));
    Associative(Sent(c.before, r), Tagged(c.nick, c.own), [Packet(c.nick, payload)]);
    assert Tagged(c.nick, c.own + [payload]) == Tagged(c.nick, c.own) + [Packet(c.nick, payload)];
  }

  lemma ConnConnect(w: World, a: Addr, bytes: seq<byte>)
    requires Enabled(w, Connect(a, bytes))
    ensures ConnOk(Apply(w, Connect(a, bytes)), a)
  {
    var (raw, rest) := ReadHello(bytes).value;
    ConnectedOk(DecodedNick(raw), rest, w.sent, a);
  }

  lemma ConnectedOk(nick: seq<byte>, rest: seq<byte>, sent: map<Addr, seq<Packet>>, a: Addr)
    requires ValidPacketNick(nick)
    ensures var c := Connected(nick, rest, sent);
      QueueOk(c, a) && StreamOk(c, Sent(sent, a), a) && PcOk(c, a)
  {
    assert [] + ReadFrames(rest) == ReadFrames(rest);
    assert Sent(sent, a) + [] == Sent(sent, a);
  }

  lemma ConnRead(w: World, a: Addr)
    requires Enabled(w, Read(a)) && ConnOk(w, a)
    ensures ConnOk(Apply(w, Read(a)), a)
  {
    var (payload, rest) := ReadFrame(w.conns[a].unread).value;
    ReadOk(w.conns[a], Sent(w.sent, a), payload, rest, w.conns.Keys - {a}, a);
  }

  lemma ConnSend(w: World, a: Addr, b: Addr)
    requires Enabled(w, Send(a, b)) && ConnOk(w, a) && ConnOk(w, b)
    ensures ConnOk(Apply(w, Send(a, b)), a) && ConnOk(Apply(w, Send(a, b)), b)
  {
    ReceiveOk(w.conns[b], Entry(a, w.conns[a].pc.packet), b);
  }

  /** The address whose connection a step acts for, and the one it sends to. */
  predicate Acts(step: Step, r: Addr) {
    r == step.a || (step.Send? && r == step.b)
  }

  lemma ConnOther(w: World, step: Step, r: Addr)
    requires Enabled(w, step) && r in w.conns && ConnOk(w, r) && !Acts(step, r)
    ensures r in Apply(w, step).conns ==> ConnOk(Apply(w, step), r)
  {
    assert r in Apply(w, step).conns ==> Apply(w, step).conns[r] == w.conns[r];
    assert Sent(Apply(w, step).sent, r) == Sent(w.sent, r);
  }

  lemma ConnStep(w: World, step: Step, r: Addr)
    requires Enabled(w, step) && r in Apply(w, step).conns
    requires forall c :: c in w.conns ==> ConnOk(w, c)
    ensures ConnOk(Apply(w, step), r)
  {
    if !Acts(step, r) {
      ConnOther(w, step, r);
    } else {
      match step {
        case Connect(a, bytes) => ConnConnect(w, a, bytes);
        case Read(a) => ConnRead(w, a);
        case Send(a, b) => ConnSend(w, a, b);
        case Release(a) =>
          var c := w.conns[a].(pc := Idle);
          assert ConnOk(w, a) && Apply(w, step).conns[a] == c;
        case Disconnect(a) =>
      }
    }
  }

  lemma UnlockedPending(w: World, a: Addr, r: Addr)
    requires Unlocked(w)
    ensures Pending(w.conns, a, r) == []
  {
  }

  lemma PairConnect(w: World, x: Addr, bytes: seq<byte>, r: Addr, a: Addr)
    requires Enabled(w, Connect(x, bytes)) && (r == x || (r in w.conns && PairOk(w, r, a)))
    ensures PairOk(Apply(w, Connect(x, bytes)), r, a)
  {
    UnlockedPending(w, a, r);
    var w' := Apply(w, Connect(x, bytes));
    UnlockedPending(w', a, r);
    if r == x {
      assert Sent(w.sent, a) + [] + [] == Sent(w.sent, a);
    } else {
      assert w'.conns[r] == w.conns[r];
    }
  }

  lemma PairRead(w: World, x: Addr, r: Addr, a: Addr)
    requires Enabled(w, Read(x)) && r in w.conns && a != r && PairOk(w, r, a)
    ensures PairOk(Apply(w, Read(x)), r, a)
  {
    var w' := Apply(w, Read(x));
    assert w'.conns[r].before == w.conns[r].before && w'.conns[r].heard == w.conns[r].heard;
    if a == x {
      var sent := Sent(w.conns[r].before, a) + From(w.conns[r].heard, a);
      assert sent + [] == sent;
      assert Pending(w.conns, a, r) == [] && Pending(w'.conns, a, r) == [w'.conns[a].pc.packet];
    } else {
      SamePending(w.conns, w'.conns, a, r);
    }
  }

  lemma SamePending(conns: map<Addr, Conn>, conns': map<Addr, Conn>, a: Addr, r: Addr)
    requires a in conns <==> a in conns'
    requires a in conns ==> conns[a].pc == conns'[a].pc
    ensures Pending(conns, a, r) == Pending(conns', a, r)
  {
  }

  lemma PairSend(w: World, x: Addr, b: Addr, r: Addr, a: Addr)
    requires Enabled(w, Send(x, b)) && r in w.conns && a != r && PairOk(w, r, a)
    ensures PairOk(Apply(w, Send(x, b)), r, a)
  {
    var w' := Apply(w, Send(x, b));
    var packet := w.conns[x].pc.packet;
    assert w'.conns[r].before == w.conns[r].before;
    SendPair(Sent(w.conns[r].before, a), w.conns[r].heard, Entry(x, packet), a);
    SendPending(w, x, b, r, a);
  }

  lemma SendPending(w: World, x: Addr, b: Addr, r: Addr, a: Addr)
    requires Enabled(w, Send(x, b))
    ensures Pending(Apply(w, Send(x, b)).conns, a, r) == if a == x && r == b then [] else Pending(w.conns, a, r)
    ensures a == x && r == b ==> Pending(w.conns, a, r) == [w.conns[x].pc.packet]
  {
  }

  lemma PairRelease(w: World, x: Addr, r: Addr, a: Addr)
    requires Enabled(w, Release(x)) && r in w.conns && PairOk(w, r, a)
    ensures PairOk(Apply(w, Release(x)), r, a)
  {
    var w' := Apply(w, Release(x));
    assert w'.conns[r].before == w.conns[r].before && w'.conns[r].heard == w.conns[r].heard;
    assert Pending(w'.conns, a, r) == Pending(w.conns, a, r);
  }

  lemma PairDisconnect(w: World, x: Addr, r: Addr, a: Addr)
    requires Enabled(w, Disconnect(x)) && r in w.conns && r != x && PairOk(w, r, a)
    ensures PairOk(Apply(w, Disconnect(x)), r, a)
  {
    UnlockedPending(w, a, r);
    UnlockedPending(Apply(w, Disconnect(x)), a, r);
    assert Apply(w, Disconnect(x)).conns[r] == w.conns[r];
  }

  lemma SendPair(before: seq<Packet>, heard: seq<Entry>, e: Entry, a: Addr)
    ensures e.from == a ==> before + From(heard + [e], a) + [] == before + From(heard, a) + [e.packet]
    ensures e.from != a ==> From(heard + [e], a) == From(heard, a)
  {
    Push(heard, e, a);
    if e.from == a {
      Associative(before, From(heard, a), [e.packet]);
      assert before + From(heard + [e], a) + [] == before + From(heard + [e], a);
    } else {
      assert From(heard, a) + [] == From(heard, a);
    }
  }

  lemma PairStep(w: World, step: Step, r: Addr, a: Addr)
    requires Enabled(w, step) && r in Apply(w, step).conns && a != r
    requires r in w.conns ==> PairOk(w, r, a)
    ensures PairOk(Apply(w, step), r, a)
  {
    match step
    case Connect(x, bytes) => PairConnect(w, x, bytes, r, a);
    case Read(x) => PairRead(w, x, r, a);
    case Send(x, b) => PairSend(w, x, b, r, a);
    case Release(x) => PairRelease(w, x, r, a);
    case Disconnect(x) => PairDisconnect(w, x, r, a);
  }

  lemma InvStep(w: World, step: Step)
    requires Inv(w) && Enabled(w, step)
    ensures Inv(Apply(w, step))
  {
    forall r | r in Apply(w, step).conns ensures ConnOk(Apply(w, step), r) {
      ConnStep(w, step, r);
    }
    forall r, a | r in Apply(w, step).conns && a != r ensures PairOk(Apply(w, step), r, a) {
      PairStep(w, step, r, a);
    }
  }

  lemma {:induction false} InvAlong(ws: seq<World>, steps: seq<Step>, i: nat)
    requires IsRun(ws, steps) && i <= |steps|
    ensures Inv(ws[i])
  {
    if i > 0 {
      InvAlong(ws, steps, i - 1);
      assert StepAt(ws, steps, i - 1);
      InvStep(ws[i - 1], steps[i - 1]);
    }
  }

  // ------------------------------------------------------------------
  // What the readers hear
  // ------------------------------------------------------------------

  /** In every run a connected client's reader recovers, of the packets queued for it,
      exactly those before the first whose sender's decoded nick has more than 64 bytes,
      so all of them exactly when no sender it was queued from has such a nick; from
      whatever part of its stream has arrived, a prefix; and never its own. Of every other
      address it was queued, in order and without a gap, all that was forwarded since it
      connected, but for the one packet being forwarded. */
  lemma ReaderHearsOthers(ws: seq<World>, steps: seq<Step>, i: nat, r: Addr, a: Addr, k: nat)
    requires IsRun(ws, steps) && i <= |steps| && r in ws[i].conns && k <= |ws[i].conns[r].queue|
    ensures var c := ws[i].conns[r];
      && ReadPackets(c.queue) == ReadableRun(Packets(c.heard))
      && (ReadPackets(c.queue) == Packets(c.heard) <==> forall p :: p in Packets(c.heard) ==> Readable(p))
      && ReadPackets(c.queue[..k]) <= ReadableRun(Packets(c.heard))
      && From(c.heard, r) == []
    ensures a != r ==>
      var c := ws[i].conns[r];
      Sent(ws[i].sent, a) == Sent(c.before, a) + From(c.heard, a) + Pending(ws[i].conns, a, r)
  {
    InvAlong(ws, steps, i);
    assert ConnOk(ws[i], r);
    if a != r {
      assert PairOk(ws[i], r, a);
    }
    QueueReads(ws[i].conns[r], r, k);
  }

  lemma QueueReads(c: Conn, r: Addr, k: nat)
    requires QueueOk(c, r) && k <= |c.queue|
    ensures ReadPackets(c.queue) == ReadableRun(Packets(c.heard))
    ensures ReadPackets(c.queue) == Packets(c.heard) <==> forall p :: p in Packets(c.heard) ==> Readable(p)
    ensures ReadPackets(c.queue[..k]) <= ReadableRun(Packets(c.heard))
  {
    CutPacketsReadPrefix(Packets(c.heard), k);
    CutPacketsReadPrefix(Packets(c.heard), |c.queue|);
    assert c.queue[..|c.queue|] == c.queue;
    ReadableRunIs(Packets(c.heard));
  }

  /** In every run, what was read from a client that sends the given payloads is a prefix
      of them, all of them once its stream is used up. */
  lemma SenderIsReadInOrder(ws: seq<World>, steps: seq<Step>, i: nat, a: Addr, ps: seq<Payload>)
    requires IsRun(ws, steps) && i <= |steps| && a in ws[i].conns
    requires (forall p :: p in ps ==> ValidPayload(p)) && ws[i].conns[a].stream == AudioFrames(ps)
    ensures ws[i].conns[a].own <= ps
    ensures ws[i].conns[a].unread == [] ==> ws[i].conns[a].own == ps
    ensures Sent(ws[i].sent, a) == Sent(ws[i].conns[a].before, a) + Tagged(ws[i].conns[a].nick, ws[i].conns[a].own)
  {
    InvAlong(ws, steps, i);
    assert ConnOk(ws[i], a);
    StreamExactIff(ps);
  }

  /** End to end: between two clients of which neither's address was used before, the
      receiver there first, the receiver is queued of the sender a prefix of its payloads
      under its decoded nick, and all of them once they were read and sent on; its reader
      recovers what it was queued up to the first nick it does not take. */
  lemma EndToEnd(ws: seq<World>, steps: seq<Step>, i: nat, r: Addr, a: Addr, ps: seq<Payload>)
    requires IsRun(ws, steps) && i <= |steps| && r in ws[i].conns && a in ws[i].conns && a != r
    requires (forall p :: p in ps ==> ValidPayload(p)) && ws[i].conns[a].stream == AudioFrames(ps)
    requires Sent(ws[i].conns[r].before, a) == Sent(ws[i].conns[a].before, a) == []
    ensures ReadPackets(ws[i].conns[r].queue) == ReadableRun(Packets(ws[i].conns[r].heard))
    ensures From(ws[i].conns[r].heard, a) <= Tagged(ws[i].conns[a].nick, ps)
    ensures ws[i].conns[a].unread == [] && ws[i].conns[a].pc == Idle ==>
      From(ws[i].conns[r].heard, a) == Tagged(ws[i].conns[a].nick, ps)
  {
    ReaderHearsOthers(ws, steps, i, r, a, 0);
    SenderIsReadInOrder(ws, steps, i, a, ps);
    var c := ws[i].conns[a];
    TaggedPrefix(c.nick, c.own, ps);
    FirstPart(From(ws[i].conns[r].heard, a), Pending(ws[i].conns, a, r), Tagged(c.nick, c.own));
  }

  lemma TaggedPrefix(nick: seq<byte>, own: seq<Payload>, ps: seq<Payload>)
    requires own <= ps
    ensures Tagged(nick, own) <= Tagged(nick, ps)
  {
  }

  lemma FirstPart(x: seq<Packet>, y: seq<Packet>, z: seq<Packet>)
    requires [] + x + y == [] + z
    ensures x <= z && (y == [] ==> x == z)
  {
    assert [] + z == z && [] + x == x;
    if y == [] {
      assert x + y == x;
    }
  }

  // ------------------------------------------------------------------
  // One connection forwarding on its own
  // ------------------------------------------------------------------

  /** What the relay's table holds of the connections. */
  function Table(conns: map<Addr, Conn>): Clients {
    map a | a in conns :: RelayClient(conns[a].nick, conns[a].queue)
  }

  /** Some of the sends are done: those to the addresses not in `todo`. */
  ghost predicate PartlyForwarded(start: Clients, a: Addr, packet: Packet, todo: set<Addr>, now: Clients) {
    && now.Keys == start.Keys
    && forall b :: b in now ==>
      now[b] == if b == a || b in todo then start[b] else FanOut(start, a, RelayFrame(packet))[b]
  }

  lemma SendTable(w: World, a: Addr, b: Addr)
    requires Enabled(w, Send(a, b))
    ensures var t := Table(w.conns);
      Table(Apply(w, Send(a, b)).conns)
      == t[b := t[b].(queue := t[b].queue + RelayFrame(w.conns[a].pc.packet))]
  {
  }

  lemma PartlySend(start: Clients, a: Addr, b: Addr, packet: Packet, todo: set<Addr>, now: Clients)
    requires PartlyForwarded(start, a, packet, todo, now) && b in todo && b in now && a != b
    ensures PartlyForwarded(start, a, packet, todo - {b}, now[b := now[b].(queue := now[b].queue + RelayFrame(packet))])
  {
  }

  lemma SendForwards(w: World, a: Addr, b: Addr, start: Clients)
    requires Enabled(w, Send(a, b))
    requires PartlyForwarded(start, a, w.conns[a].pc.packet, w.conns[a].pc.todo, Table(w.conns))
    ensures var w' := Apply(w, Send(a, b));
      PartlyForwarded(start, a, w.conns[a].pc.packet, w.conns[a].pc.todo - {b}, Table(w'.conns))
  {
    SendTable(w, a, b);
    PartlySend(start, a, b, w.conns[a].pc.packet, w.conns[a].pc.todo, Table(w.conns));
  }

  lemma ReadForwards(w: World, a: Addr)
    requires Enabled(w, Read(a))
    ensures var w' := Apply(w, Read(a));
      PartlyForwarded(Table(w.conns), a, w'.conns[a].pc.packet, w'.conns[a].pc.todo, Table(w'.conns))
  {
    assert Table(Apply(w, Read(a)).conns) == Table(w.conns);
  }

  lemma AllForwarded(start: Clients, a: Addr, packet: Packet, now: Clients)
    requires PartlyForwarded(start, a, packet, {}, now)
    ensures now == FanOut(start, a, RelayFrame(packet))
  {
  }

  /** From its read up to its last send, with no other connection's step between, a
      connection's steps come to what `Forward` does, whatever order the sends take. */
  lemma {:induction false} LoneForward(ws: seq<World>, steps: seq<Step>, i: nat, n: nat, a: Addr)
    requires IsRun(ws, steps) && i < n <= |steps| && steps[i] == Read(a)
    requires forall j :: i < j < n ==> steps[j].Send? && steps[j].a == a
    ensures a in ws[n].conns && ws[n].conns[a].pc.Sending?
    ensures var pc := ws[n].conns[a].pc;
      && PartlyForwarded(Table(ws[i].conns), a, pc.packet, pc.todo, Table(ws[n].conns))
      && (pc.todo == {} ==> Table(ws[n].conns) == FanOut(Table(ws[i].conns), a, RelayFrame(pc.packet)))
    decreases n
  {
    assert StepAt(ws, steps, n - 1);
    if n == i + 1 {
      ReadForwards(ws[i], a);
    } else {
      LoneForward(ws, steps, i, n - 1, a);
      SendForwards(ws[n - 1], a, steps[n - 1].b, Table(ws[i].conns));
    }
    if ws[n].conns[a].pc.todo == {} {
      AllForwarded(Table(ws[i].conns), a, ws[n].conns[a].pc.packet, Table(ws[n].conns));
    }
  }
}
