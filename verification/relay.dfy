/** The audio relay: what a client writes, what the server reads and fans out, and what
    the other clients read back. */
module Relay {
  import opened Text
  import opened Bytes
  import Utf8

  const MAX_NICK := 64
  const MAX_PAYLOAD := 4096

  type Payload = seq<byte>

  predicate ValidNick(nick: seq<byte>) { 1 <= |nick| <= MAX_NICK }

  predicate ValidPayload(p: Payload) { 1 <= |p| <= MAX_PAYLOAD }

  // ------------------------------------------------------------------
  // Client to server
  // ------------------------------------------------------------------

  function Hello(nick: seq<byte>): seq<byte> { [(|nick| % 256) as byte] + nick }

  /** `send_audio` */
  function AudioFrame(p: Payload): seq<byte> { U16(|p|) + p }

  function AudioFrames(ps: seq<Payload>): seq<byte> {
    if ps == [] then [] else AudioFrame(ps[0]) + AudioFrames(ps[1..])
  }

  /** The handshake's nick and the bytes behind it. */
  function ReadHello(stream: seq<byte>): (r: Option<(seq<byte>, seq<byte>)>)
    ensures r.Some? ==> ValidNick(r.value.0)
  {
    if |stream| < 1 then None
    else
      var n := stream[0] as nat;
      if !(1 <= n <= MAX_NICK) || |stream| < 1 + n then None
      else Some((stream[1..1 + n], stream[1 + n..]))
  }

  lemma HelloReadsBack(nick: seq<byte>, rest: seq<byte>)
    requires ValidNick(nick)
    ensures ReadHello(Hello(nick) + rest) == Some((nick, rest))
  {
    var s := Hello(nick) + rest;
    assert s[1..1 + |nick|] == nick && s[1 + |nick|..] == rest;
  }

  /** A handshake is taken as it was sent exactly when the nick has 1 to 64 bytes; a longer
      one is refused or, its length cut to a byte, taken for a shorter one. */
  lemma HelloTakenIff(nick: seq<byte>, rest: seq<byte>)
    ensures ReadHello(Hello(nick) + rest) == Some((nick, rest)) <==> 1 <= |nick| <= 64
  {
    if ValidNick(nick) {
      HelloReadsBack(nick, rest);
    }
  }

  /** One frame off the stream, or None where the server's loop breaks. */
  function ReadFrame(stream: seq<byte>): (r: Option<(Payload, seq<byte>)>)
    ensures r.Some? ==> ValidPayload(r.value.0) && |r.value.1| < |stream|
  {
    if |stream| < 2 then None
    else
      var n := FromU16(stream[0], stream[1]);
      if n == 0 || n > MAX_PAYLOAD || |stream| < 2 + n then None
      else Some((stream[2..2 + n], stream[2 + n..]))
  }

  /** Everything the server reads from a stream. */
  function ReadFrames(stream: seq<byte>): seq<Payload>
    decreases |stream|
  {
    match ReadFrame(stream)
    case None => []
    case Some((p, rest)) => [p] + ReadFrames(rest)
  }

  lemma FrameReadsBack(p: Payload, rest: seq<byte>)
    requires |p| < U16_LIMIT
    ensures ValidPayload(p) ==> ReadFrame(AudioFrame(p) + rest) == Some((p, rest))
    ensures !ValidPayload(p) ==> ReadFrame(AudioFrame(p) + rest).None?
  {
    U16RoundTrip(|p|);
    var s := AudioFrame(p) + rest;
    assert s == U16(|p|) + (p + rest);
    assert s[2..2 + |p|] == p && s[2 + |p|..] == rest;
  }

  /** The payloads before the first one the server does not take. */
  function ValidRun(ps: seq<Payload>): (r: seq<Payload>)
    ensures r <= ps
  {
    if ps != [] && ValidPayload(ps[0]) then [ps[0]] + ValidRun(ps[1..]) else []
  }

  lemma {:induction false} FramesAreValid(stream: seq<byte>)
    ensures forall p :: p in ReadFrames(stream) ==> ValidPayload(p)
    decreases |stream|
  {
    match ReadFrame(stream)
    case None =>
    case Some((_, rest)) => FramesAreValid(rest);
  }

  /** Where the server stops taking payloads that `send_audio` was given; the length it
      sends is cut to 16 bits. */
  predicate StopsAt(p: Payload) { !(1 <= |p| % U16_LIMIT <= MAX_PAYLOAD) }

  /** The server parses a client's stream back to exactly the payloads sent, up to the
      first that is empty or over 4096 bytes, unless that one is so long that the 16 bits
      of its length look like a valid length. */
  lemma {:induction false} StreamReadsBackIff(ps: seq<Payload>)
    ensures ReadFrames(AudioFrames(ps)) == ValidRun(ps) <==>
      var n := |ValidRun(ps)|; n == |ps| || StopsAt(ps[n])
  {
    if ps != [] {
      var rest := AudioFrames(ps[1..]);
      if ValidPayload(ps[0]) {
        FrameReadsBack(ps[0], rest);
        StreamReadsBackIff(ps[1..]);
        var n := |ValidRun(ps[1..])|;
        assert n < |ps| - 1 ==> ps[1..][n] == ps[n + 1];
        DropFirst([ps[0]], ReadFrames(rest));
        DropFirst([ps[0]], ValidRun(ps[1..]));
      } else {
        LongFrame(ps[0], rest);
      }
    }
  }

  /** A payload the server does not take as it is: the loop stops, or takes a part of it. */
  lemma LongFrame(p: Payload, rest: seq<byte>)
    requires !ValidPayload(p)
    ensures ReadFrame(AudioFrame(p) + rest).None? <==> StopsAt(p)
  {
    var s := AudioFrame(p) + rest;
    U16Wraps(|p|);
    assert s[0] == U16(|p|)[0] && s[1] == U16(|p|)[1];
  }

  /** All payloads come through exactly when each has 1 to 4096 bytes. */
  lemma StreamExactIff(ps: seq<Payload>)
    ensures ReadFrames(AudioFrames(ps)) == ps <==> forall p :: p in ps ==> 1 <= |p| <= 4096
  {
    FramesAreValid(AudioFrames(ps));
    if forall p :: p in ps ==> ValidPayload(p) {
      AllValidRun(ps);
      StreamReadsBackIff(ps);
    }
  }

  lemma {:induction false} AllValidRun(ps: seq<Payload>)
    requires forall p :: p in ps ==> ValidPayload(p)
    ensures ValidRun(ps) == ps
  {
    if ps != [] {
      AllValidRun(ps[1..]);
      assert ps == [ps[0]] + ps[1..];
    }
  }

  lemma CutFrame(p: Payload, k: nat)
    requires ValidPayload(p) && k < |AudioFrame(p)|
    ensures ReadFrame(AudioFrame(p)[..k]).None?
  {
    U16RoundTrip(|p|);
  }

  /** A stream cut anywhere gives a prefix of the payloads. */
  lemma {:induction false} CutStreamReadsPrefix(ps: seq<Payload>, k: nat)
    requires (forall p :: p in ps ==> ValidPayload(p)) && k <= |AudioFrames(ps)|
    ensures ReadFrames(AudioFrames(ps)[..k]) <= ps
  {
    if ps != [] {
      var first, rest := AudioFrame(ps[0]), AudioFrames(ps[1..]);
      if k < |first| {
        assert (first + rest)[..k] == first[..k];
        CutFrame(ps[0], k);
      } else {
        assert (first + rest)[..k] == first + rest[..k - |first|];
        FrameReadsBack(ps[0], rest[..k - |first|]);
        CutStreamReadsPrefix(ps[1..], k - |first|);
      }
    }
  }

  /** The server's read loop. */
  method ReadLoop(stream: seq<byte>) returns (payloads: seq<Payload>)
    ensures payloads == ReadFrames(stream)
  {
    payloads := [];
    var rest := stream;
    while true
      invariant ReadFrames(stream) == payloads + ReadFrames(rest)
      decreases |rest|
    {
      if |rest| < 2 {
        break;
      }
      var n := FromU16(rest[0], rest[1]);
      if n == 0 || n > MAX_PAYLOAD {
        break;
      }
      if |rest| < 2 + n {
        break;
      }
      var payload := rest[2..2 + n];
      Associative(payloads, [payload], ReadFrames(rest[2 + n..]));
      payloads := payloads + [payload];
      rest := rest[2 + n..];
    }
  }

  // ------------------------------------------------------------------
  // Server to client
  // ------------------------------------------------------------------

  /** A payload with the decoded nick of the client it came from. */
  datatype Packet = Packet(nick: seq<byte>, payload: Payload)

  /** What the server forwards: the nick is a decoded one, not empty, and at most 255
      bytes, so that its length fits the frame's length byte. */
  predicate ValidPacket(p: Packet) { Utf8.Valid(p.nick) && 1 <= |p.nick| < 256 && ValidPayload(p.payload) }

  /** The nick a client goes by after its handshake. */
  function DecodedNick(raw: seq<byte>): (nick: seq<byte>)
    requires ValidNick(raw)
    ensures Utf8.Valid(nick) && 1 <= |nick| < 256
  {
    Utf8.LossyIsValid(raw);
    Utf8.Lossy(raw)
  }

  /** A nick that a reader takes. */
  predicate Readable(p: Packet) { |p.nick| <= MAX_NICK }

  function RelayFrame(p: Packet): seq<byte> {
    [(|p.nick| % 256) as byte] + p.nick + U16(|p.payload|) + p.payload
  }

  method BuildFrame(nick: seq<byte>, payload: Payload) returns (frame: seq<byte>)
    ensures frame == RelayFrame(Packet(nick, payload))
  {
    frame := [];
    frame := frame + [(|nick| % 256) as byte];
    frame := frame + nick;
    frame := frame + U16(|payload|);
    frame := frame + payload;
  }

  function RelayFrames(ps: seq<Packet>): seq<byte> {
    if ps == [] then [] else RelayFrames(ps[..|ps| - 1]) + RelayFrame(ps[|ps| - 1])
  }

  /** One packet off a client's stream, or None where its reader breaks. */
  function ReadPacket(stream: seq<byte>): (r: Option<(Packet, seq<byte>)>)
    ensures r.Some? ==> |r.value.1| < |stream|
  {
    match ReadHello(stream)
    case None => None
    case Some((nick, behind)) =>
      match ReadFrame(behind)
      case None => None
      case Some((payload, rest)) => Some((Packet(Utf8.Lossy(nick), payload), rest))
  }

  function ReadPackets(stream: seq<byte>): seq<Packet>
    decreases |stream|
  {
    match ReadPacket(stream)
    case None => []
    case Some((p, rest)) => [p] + ReadPackets(rest)
  }

  lemma RelayFrameShape(p: Packet)
    ensures RelayFrame(p) == Hello(p.nick) + AudioFrame(p.payload)
  {
    Associative(Hello(p.nick), U16(|p.payload|), p.payload);
  }

  /** A packet on the wire, byte by byte: how long the nick is, the nick, how long the payload
      is with the high byte first, the payload; and what its client sent of it is part of
      that. */
  lemma OnTheWire(p: Packet)
    requires ValidPacket(p)
    ensures var f, n := RelayFrame(p), |p.nick|;
      && |f| == n + 3 + |p.payload| && f[0] as nat == n && f[1..n + 1] == p.nick
      && 256 * (f[n + 1] as nat) + f[n + 2] as nat == |p.payload| && f[n + 3..] == p.payload
      && Hello(p.nick) == f[..n + 1] && AudioFrame(p.payload) == f[n + 1..]
  {
    RelayFrameShape(p);
    var size := |p.payload|;
    assert size == 256 * (size / 256) + size % 256 && size / 256 < 256;
    var f, n := RelayFrame(p), |p.nick|;
    assert f[n + 1..] == U16(size) + p.payload;
    assert f[n + 1] == f[n + 1..][0] && f[n + 2] == f[n + 1..][1];
    assert f[n + 3..] == f[n + 1..][2..];
  }

  lemma PacketReadsBack(p: Packet, rest: seq<byte>)
    requires ValidPacket(p) && Readable(p)
    ensures ReadPacket(RelayFrame(p) + rest) == Some((p, rest))
  {
    RelayFrameShape(p);
    Associative(Hello(p.nick), AudioFrame(p.payload), rest);
    HelloReadsBack(p.nick, AudioFrame(p.payload) + rest);
    FrameReadsBack(p.payload, rest);
    Utf8.LossyKeepsIff(p.nick);
  }

  /** A frame with a longer nick stops the reader before it has read anything of it. */
  lemma LongNickStops(p: Packet, stream: seq<byte>)
    requires MAX_NICK < |p.nick| < 256 && (stream <= RelayFrame(p) || RelayFrame(p) <= stream)
    ensures ReadPackets(stream) == []
  {
    assert stream != [] ==> stream[0] as nat == |p.nick|;
  }

  /** The packets before the first with a nick longer than a reader takes. */
  function ReadableRun(ps: seq<Packet>): (r: seq<Packet>)
    ensures r <= ps
  {
    if ps != [] && Readable(ps[0]) then [ps[0]] + ReadableRun(ps[1..]) else []
  }

  lemma {:induction false} ReadableRunIs(ps: seq<Packet>)
    ensures ReadableRun(ps) == ps <==> forall p :: p in ps ==> Readable(p)
  {
    if ps != [] {
      ReadableRunIs(ps[1..]);
      assert ps == [ps[0]] + ps[1..];
    }
  }

  lemma {:induction false} ReadableRunPush(ps: seq<Packet>, last: Packet)
    ensures ReadableRun(ps + [last]) ==
      if ReadableRun(ps) == ps then ps + (if Readable(last) then [last] else []) else ReadableRun(ps)
  {
    if ps == [] {
      assert ps + [last] == [last];
    } else {
      assert ps + [last] == [ps[0]] + (ps[1..] + [last]);
      assert ps == [ps[0]] + ps[1..];
      ReadableRunPush(ps[1..], last);
    }
  }

  /** What a reader makes of some frames with anything behind them. */
  function ReadBehind(ps: seq<Packet>, rest: seq<byte>): seq<Packet> {
    if ReadableRun(ps) == ps then ps + ReadPackets(rest) else ReadableRun(ps)
  }

  lemma {:induction false} PacketsBehind(ps: seq<Packet>, rest: seq<byte>)
    requires forall p :: p in ps ==> ValidPacket(p)
    ensures ReadPackets(RelayFrames(ps) + rest) == ReadBehind(ps, rest)
    decreases |ps|
  {
    if ps == [] {
      assert RelayFrames(ps) + rest == rest;
      assert ps + ReadPackets(rest) == ReadPackets(rest);
    } else {
      var before, last := ps[..|ps| - 1], ps[|ps| - 1];
      Associative(RelayFrames(before), RelayFrame(last), rest);
      PacketsBehind(before, RelayFrame(last) + rest);
      assert ps == before + [last];
      LastBehind(before, last, rest);
    }
  }

  lemma LastBehind(before: seq<Packet>, last: Packet, rest: seq<byte>)
    requires ValidPacket(last)
    ensures ReadBehind(before, RelayFrame(last) + rest) == ReadBehind(before + [last], rest)
  {
    ReadableRunPush(before, last);
    if Readable(last) {
      PacketReadsBack(last, rest);
      Associative(before, [last], ReadPackets(rest));
    } else {
      LongNickStops(last, RelayFrame(last) + rest);
    }
  }

  lemma CutPacket(p: Packet, k: nat)
    requires ValidPacket(p) && k < |RelayFrame(p)|
    ensures ReadPackets(RelayFrame(p)[..k]) == []
  {
    if Readable(p) {
      CutReadable(p, k);
    } else {
      LongNickStops(p, RelayFrame(p)[..k]);
    }
  }

  lemma CutReadable(p: Packet, k: nat)
    requires ValidPacket(p) && Readable(p) && k < |RelayFrame(p)|
    ensures ReadPackets(RelayFrame(p)[..k]) == []
  {
    RelayFrameShape(p);
    var hello := Hello(p.nick);
    var cut := RelayFrame(p)[..k];
    if k >= |hello| {
      assert cut == hello + AudioFrame(p.payload)[..k - |hello|];
      HelloReadsBack(p.nick, AudioFrame(p.payload)[..k - |hello|]);
      CutFrame(p.payload, k - |hello|);
    } else if k > 0 {
      assert cut[0] == hello[0];
    }
  }

  /** A reader gets back every frame before the first with too long a nick, and from any
      part of the stream a prefix of them. */
  lemma {:induction false} CutPacketsReadPrefix(ps: seq<Packet>, k: nat)
    requires (forall p :: p in ps ==> ValidPacket(p)) && k <= |RelayFrames(ps)|
    ensures ReadPackets(RelayFrames(ps)[..k]) <= ReadableRun(ps)
    ensures k == |RelayFrames(ps)| ==> ReadPackets(RelayFrames(ps)[..k]) == ReadableRun(ps)
    decreases |ps|
  {
    if ps != [] {
      var before, last := ps[..|ps| - 1], ps[|ps| - 1];
      var sent := RelayFrames(before);
      assert ps == before + [last];
      ReadableRunPush(before, last);
      if k < |sent| {
        assert (sent + RelayFrame(last))[..k] == sent[..k];
        CutPacketsReadPrefix(before, k);
      } else {
        var cut := RelayFrame(last)[..k - |sent|];
        assert (sent + RelayFrame(last))[..k] == sent + cut;
        CutInLast(before, last, cut);
      }
    }
  }

  lemma CutInLast(before: seq<Packet>, last: Packet, cut: seq<byte>)
    requires (forall p :: p in before ==> ValidPacket(p)) && ValidPacket(last)
    requires cut <= RelayFrame(last)
    ensures ReadPackets(RelayFrames(before) + cut) <= ReadableRun(before + [last])
    ensures cut == RelayFrame(last) ==> ReadPackets(RelayFrames(before) + cut) == ReadableRun(before + [last])
  {
    PacketsBehind(before, cut);
    OneFrame(last, cut);
    ReadableRunPush(before, last);
  }

  lemma OneFrame(p: Packet, cut: seq<byte>)
    requires ValidPacket(p) && cut <= RelayFrame(p)
    ensures ReadPackets(cut) == if cut == RelayFrame(p) && Readable(p) then [p] else []
  {
    if cut == RelayFrame(p) {
      assert cut + [] == cut;
      if Readable(p) {
        PacketReadsBack(p, []);
        assert ReadPackets([]) == [];
      } else {
        LongNickStops(p, cut);
      }
    } else {
      CutPacket(p, |cut|);
      assert RelayFrame(p)[..|cut|] == cut;
    }
  }

  /** A handshake that makes every frame of its client unreadable: 64 bytes that are no
      UTF-8 decode to a nick of 192 bytes. */
  lemma UnreadableHandshake(payload: Payload, rest: seq<byte>)
    requires ValidPayload(payload)
    ensures var raw := seq(MAX_NICK, _ => 0xFF);
      && ReadHello(Hello(raw) + rest) == Some((raw, rest))
      && ValidPacket(Packet(DecodedNick(raw), payload)) && |DecodedNick(raw)| == 192
      && ReadPackets(RelayFrame(Packet(DecodedNick(raw), payload))) == []
  {
    var raw: seq<byte> := seq(MAX_NICK, _ => 0xFF);
    HelloReadsBack(raw, rest);
    Utf8.AllReplaced(raw);
    LongNickStops(Packet(DecodedNick(raw), payload), RelayFrame(Packet(DecodedNick(raw), payload)));
  }
}
