/** Every interleaving of the server's connections. A connection runs its
    commands in sequence; one step of the machine is one section under the lock
    (or one event outside it), so HELLO, JOIN, POW_SET and admission take several
    steps and other connections may run in between. */
module ServerRuns {
  import opened Text
  import opened IrcServer
  import Pow

  /** The cryptography: whether a hexadecimal signature of the nick verifies under
      a hexadecimal key (nick, key, signature), and the nick hash. */
  datatype Env = Env(verify: (string, string, string) -> bool, sha: Pow.NickHash)

  /** Where a live connection stands between its sections. */
  datatype Pc =
    | Handshaking
    | Ready
    | HelloNick(nick: string, pubkey: string)
    | HelloPow(nick: string, pubkey: string)
    | HelloBind(nick: string, pubkey: string)
    | JoinWrite(channel: string, nick: string)
    | PowWrite(bits: nat)

  /** `aborted` remembers the addresses whose read loop failed, which skips cleanup. */
  datatype World = World(server: State, conns: map<Addr, Pc>, aborted: set<Addr>)

  datatype Step =
    | Accept(a: Addr)
    | HandshakeFailed(a: Addr)
    | Connected(a: Addr)
    | NickCommand(a: Addr, nick: string)
    | PrivmsgCommand(a: Addr, target: string, text: string, found: Option<Addr>)
    | KickCommand(a: Addr, channel: string, target: string, reason: string, found: Option<Addr>)
    | PartCommand(a: Addr, channel: string)
    | JoinCommand(a: Addr, channel: string)
    | HelloCommand(a: Addr, nick: string, pubkey: string, signature: string)
    | PowSetCommand(a: Addr, bits: Option<nat>)
    | Continue(a: Addr)
    | Close(a: Addr)
    | ReadError(a: Addr)

  const MAX_POW_BITS := 28

  function Init(powBits: nat): World { World(InitState(powBits), map[], {}) }

  predicate At(w: World, a: Addr, pc: Pc) { a in w.conns && w.conns[a] == pc }

  ghost predicate Enabled(w: World, step: Step) {
    match step
    case Accept(a) => a !in w.conns && Admits(w.server, a)
    case HandshakeFailed(a) => At(w, a, Handshaking)
    case Connected(a) => At(w, a, Handshaking)
    case Continue(a) => a in w.conns && w.conns[a] != Handshaking && w.conns[a] != Ready
    case PrivmsgCommand(a, target, _, found) => At(w, a, Ready) && FoundByNick(w.server.clients, target, found)
    case KickCommand(a, _, target, _, found) => At(w, a, Ready) && FoundByNick(w.server.clients, target, found)
    case _ => At(w, step.a, Ready)
  }

  /** The shared state after the section that `step` runs. */
  function ServerAfter(env: Env, w: World, step: Step): State
    requires step.Continue? ==> step.a in w.conns
  {
    var s := w.server;
    match step
    case Accept(_) | HandshakeFailed(_) | JoinCommand(_, _) | ReadError(_) => s
    case Connected(a) => Register(s, a)
    case NickCommand(a, nick) => SetNick(s, a, nick)
    case PrivmsgCommand(a, target, text, found) => IrcServer.Relay(s, a, target, text, found)
    case KickCommand(a, channel, target, reason, found) => Kick(s, a, channel, target, reason, found)
    case PartCommand(a, channel) => Part(s, a, channel)
    case HelloCommand(a, nick, pubkey, signature) =>
      if env.verify(nick, pubkey, signature) then s else RefuseHello(s, a, nick, Invalid)
    case PowSetCommand(a, bits) =>
      if PowBitsValid(bits) then s else s.(clients := Send(s.clients, a, PowSetFailed))
    case Continue(a) => (
      match w.conns[a]
      case HelloNick(nick, _) => NickSection(s, a, nick)
      case HelloPow(nick, pubkey) => PowSection(s, env.sha, a, nick, pubkey)
      case HelloBind(nick, pubkey) => BindHello(s, a, nick, pubkey, Pow.ZeroBitsU8(env.sha(nick, pubkey)))
      case JoinWrite(channel, nick) => JoinChannel(s, a, channel, nick)
      case PowWrite(bits) => SetPow(s, bits)
      case _ => s)
    case Close(a) => Cleanup(s, a)
  }

  predicate PowBitsValid(bits: Option<nat>) { bits.Some? && bits.value <= MAX_POW_BITS }

  /** Where the acting connection stands afterwards. */
  function PcAfter(env: Env, w: World, step: Step): Pc
    requires step.Continue? ==> step.a in w.conns
  {
    var s := w.server;
    match step
    case Accept(_) => Handshaking
    case JoinCommand(a, channel) =>
      if a in s.clients && s.clients[a].nick.Some? then JoinWrite(channel, s.clients[a].nick.value) else Ready
    case HelloCommand(_, nick, pubkey, signature) =>
      if env.verify(nick, pubkey, signature) then HelloNick(nick, pubkey) else Ready
    case PowSetCommand(a, bits) =>
      if PowBitsValid(bits) && a in s.clients && s.clients[a].authenticated then PowWrite(bits.value) else Ready
    case Continue(a) => (
      match w.conns[a]
      case HelloNick(nick, pubkey) => if HasNick(s.clients, a, nick) then HelloPow(nick, pubkey) else Ready
      case HelloPow(nick, pubkey) =>
        if Pow.CheckDifficulty(env.sha, nick, pubkey, s.powBits) then HelloBind(nick, pubkey) else Ready
      case _ => Ready)
    case _ => Ready
  }

  predicate Ends(step: Step) { step.HandshakeFailed? || step.Close? || step.ReadError? }

  function Apply(env: Env, w: World, step: Step): World
    requires step.Continue? ==> step.a in w.conns
  {
    World(
      ServerAfter(env, w, step),
      if Ends(step) then w.conns - {step.a} else w.conns[step.a := PcAfter(env, w, step)],
      if step.ReadError? then w.aborted + {step.a} else w.aborted)
  }

  ghost predicate StepAt(env: Env, steps: seq<Step>, worlds: seq<World>, i: nat)
    requires i < |steps| && |worlds| == |steps| + 1
  {
    Enabled(worlds[i], steps[i]) && worlds[i + 1] == Apply(env, worlds[i], steps[i])
  }

  /** A run: the initial world and one world after each step. */
  ghost predicate IsRun(env: Env, powBits: nat, steps: seq<Step>, worlds: seq<World>) {
    && |worlds| == |steps| + 1
    && worlds[0] == Init(powBits)
    && forall i | 0 <= i < |steps| :: StepAt(env, steps, worlds, i)
  }

  lemma ExtendRun(env: Env, powBits: nat, steps: seq<Step>, worlds: seq<World>, step: Step)
    returns (steps': seq<Step>, worlds': seq<World>)
    requires IsRun(env, powBits, steps, worlds) && Enabled(worlds[|steps|], step)
    ensures IsRun(env, powBits, steps', worlds') && steps' == steps + [step]
    ensures worlds' == worlds + [Apply(env, worlds[|steps|], step)]
    ensures worlds'[|steps'|] == Apply(env, worlds[|steps|], step)
  {
    steps', worlds' := steps + [step], worlds + [Apply(env, worlds[|steps|], step)];
    forall i | 0 <= i < |steps'|
      ensures StepAt(env, steps', worlds', i)
    {
      assert i < |steps| ==> StepAt(env, steps, worlds, i);
    }
  }

  // ------------------------------------------------------------------
  // The inductive invariant
  // ------------------------------------------------------------------

  predicate PcFits(nick: Option<string>, pc: Pc) {
    match pc
    case HelloPow(n, _) => nick == Some(n)
    case HelloBind(n, _) => nick == Some(n)
    case JoinWrite(_, n) => nick == Some(n)
    case _ => true
  }

  predicate ConnectionsRegistered(w: World) {
    forall a :: a in w.conns && w.conns[a] != Handshaking ==>
      a in w.server.clients && PcFits(w.server.clients[a].nick, w.conns[a])
  }

  predicate ClientsLive(w: World) {
    forall a :: a in w.server.clients ==>
      && w.server.clients[a].ip == a.ip
      && (a in w.aborted || (a in w.conns && w.conns[a] != Handshaking))
  }

  predicate MembersAreClients(s: State) {
    forall ch, m :: ch in s.channels && m in s.channels[ch] ==> HasSomeNick(s.clients, m)
  }

  predicate Inv(w: World) {
    ConnectionsRegistered(w) && ClientsLive(w)
  }

  /** A step of one connection leaves every other client's identity alone. */
  lemma OthersKeepIdentity(env: Env, w: World, step: Step, b: Addr)
    requires Enabled(w, step) && b != step.a
    ensures Undisturbed(w.server, Apply(env, w, step).server, b)
  {}

  /** Only NICK and the life cycle change the acting client's nick. */
  lemma ActorKeepsNick(env: Env, w: World, step: Step)
    requires Enabled(w, step) && step.a in w.server.clients
    requires !step.NickCommand? && !step.Close? && !step.Connected?
    ensures var clients := Apply(env, w, step).server.clients;
      && step.a in clients
      && clients[step.a].nick == w.server.clients[step.a].nick
      && clients[step.a].ip == w.server.clients[step.a].ip
  {
    var s' := ServerAfter(env, w, step);
    if !(step.Continue? && w.conns[step.a].HelloBind?) {
      assert Undisturbed(w.server, s', step.a);
    }
  }

  /** Channels gain only the acting connection, and only by JOIN's second section. */
  lemma ChannelsGainOnlyJoiner(env: Env, w: World, step: Step, ch: string, m: Addr)
    requires Enabled(w, step)
    requires m in Members(Apply(env, w, step).server.channels, ch)
    ensures m in Members(w.server.channels, ch)
      || (step.Continue? && m == step.a && w.conns[m].JoinWrite?)
    ensures step.Close? && m == step.a ==> !HasSomeNick(w.server.clients, m)
  {
    if step.Continue? && !w.conns[step.a].JoinWrite? {
      assert ServerAfter(env, w, step).channels == w.server.channels;
    }
  }

  predicate HasSomeNick(clients: Clients, a: Addr) { a in clients && clients[a].nick.Some? }

  lemma ActorKeepsSomeNick(env: Env, w: World, step: Step)
    requires Enabled(w, step) && HasSomeNick(w.server.clients, step.a)
    requires !step.Close? && !step.Connected?
    ensures HasSomeNick(Apply(env, w, step).server.clients, step.a)
  {
    if !step.NickCommand? {
      ActorKeepsNick(env, w, step);
    }
  }

  /** A connection registers whose address is already on a channel. */
  predicate RegistersMember(w: World, step: Step) {
    step.Connected? && exists ch :: ch in w.server.channels && step.a in w.server.channels[ch]
  }

  lemma MemberStep(env: Env, w: World, step: Step, ch: string, m: Addr)
    requires Inv(w) && Enabled(w, step) && MembersAreClients(w.server) && !RegistersMember(w, step)
    requires m in Members(Apply(env, w, step).server.channels, ch)
    ensures HasSomeNick(Apply(env, w, step).server.clients, m)
  {
    ChannelsGainOnlyJoiner(env, w, step, ch, m);
    assert m in Members(w.server.channels, ch) ==> HasSomeNick(w.server.clients, m);
    if m != step.a {
      OthersKeepIdentity(env, w, step, m);
    } else if !step.Close? && !step.Connected? {
      ActorKeepsSomeNick(env, w, step);
    }
  }

  /** Of all steps only one keeps channel members from being clients with a nick: the
      registration of an address that is already on a channel. */
  lemma MembershipStep(env: Env, w: World, step: Step)
    requires Inv(w) && Enabled(w, step) && MembersAreClients(w.server)
    ensures MembersAreClients(Apply(env, w, step).server) <==> !RegistersMember(w, step)
  {
    var s' := Apply(env, w, step).server;
    if RegistersMember(w, step) {
      var ch :| ch in w.server.channels && step.a in w.server.channels[ch];
      assert ch in s'.channels && step.a in s'.channels[ch] && !HasSomeNick(s'.clients, step.a);
    } else {
      forall ch, m | ch in s'.channels && m in s'.channels[ch] ensures HasSomeNick(s'.clients, m) {
        assert Members(s'.channels, ch) == s'.channels[ch];
        MemberStep(env, w, step, ch, m);
      }
    }
  }

  lemma ConnectionStep(env: Env, w: World, step: Step, a: Addr)
    requires Inv(w) && Enabled(w, step)
    requires var w' := Apply(env, w, step); a in w'.conns && w'.conns[a] != Handshaking
    ensures var w' := Apply(env, w, step);
      a in w'.server.clients && PcFits(w'.server.clients[a].nick, w'.conns[a])
  {
    if a != step.a {
      OthersKeepIdentity(env, w, step, a);
    } else if !step.NickCommand? && !step.Connected? {
      ActorKeepsNick(env, w, step);
    }
  }

  lemma ClientStep(env: Env, w: World, step: Step, a: Addr)
    requires Inv(w) && Enabled(w, step) && a in Apply(env, w, step).server.clients
    ensures var w' := Apply(env, w, step);
      && w'.server.clients[a].ip == a.ip
      && (a in w'.aborted || (a in w'.conns && w'.conns[a] != Handshaking))
  {
    if a != step.a {
      OthersKeepIdentity(env, w, step, a);
    } else if a in w.server.clients && !step.NickCommand? && !step.Close? && !step.Connected? {
      ActorKeepsNick(env, w, step);
    }
  }

  lemma InvStep(env: Env, w: World, step: Step)
    requires Inv(w) && Enabled(w, step)
    ensures Inv(Apply(env, w, step))
  {
    var w' := Apply(env, w, step);
    forall a | a in w'.conns && w'.conns[a] != Handshaking
      ensures a in w'.server.clients && PcFits(w'.server.clients[a].nick, w'.conns[a])
    {
      ConnectionStep(env, w, step, a);
    }
    forall a | a in w'.server.clients
      ensures w'.server.clients[a].ip == a.ip
      ensures a in w'.aborted || (a in w'.conns && w'.conns[a] != Handshaking)
    {
      ClientStep(env, w, step, a);
    }
  }

  lemma {:induction false} InvAlong(env: Env, powBits: nat, steps: seq<Step>, worlds: seq<World>, i: nat)
    requires IsRun(env, powBits, steps, worlds) && i <= |steps|
    ensures Inv(worlds[i])
  {
    if i > 0 {
      InvAlong(env, powBits, steps, worlds, i - 1);
      assert StepAt(env, steps, worlds, i - 1);
      InvStep(env, worlds[i - 1], steps[i - 1]);
    }
  }

  // ------------------------------------------------------------------
  // The class runs the machine's sections
  // ------------------------------------------------------------------

  /** The same command; which holder of a nick it finds is seen when it runs. */
  predicate SameCommand(step: Step, done: Step) {
    match step
    case PrivmsgCommand(a, target, text, _) => done.PrivmsgCommand? && done == PrivmsgCommand(a, target, text, done.found)
    case KickCommand(a, channel, target, reason, _) =>
      done.KickCommand? && done == KickCommand(a, channel, target, reason, done.found)
    case _ => done == step
  }

  /** What a connection that stands at `pc` does next. */
  method RunContinued(env: Env, server: ServerState, conns: map<Addr, Pc>, a: Addr)
    requires a in conns
    modifies server
    ensures server.View() == ServerAfter(env, World(old(server.View()), conns, {}), Continue(a))
  {
    match conns[a] {
      case HelloNick(nick, _) =>
        var _ := server.CheckHelloNick(a, nick);
      case HelloPow(nick, pubkey) =>
        var _ := server.CheckHelloPow(env.sha, a, nick, pubkey);
      case HelloBind(nick, pubkey) =>
        server.Hello(a, nick, pubkey, Pow.ZeroBitsU8(env.sha(nick, pubkey)));
      case JoinWrite(channel, nick) =>
        server.Join(a, channel, nick);
      case PowWrite(bits) =>
        server.SetPowBits(bits);
      case _ =>
    }
  }

  /** Every step of the machine is what one method of the server does to its fields. */
  method RunSection(env: Env, server: ServerState, conns: map<Addr, Pc>, step: Step) returns (done: Step)
    requires step.Continue? ==> step.a in conns
    modifies server
    ensures SameCommand(step, done)
    ensures done.PrivmsgCommand? ==> FoundByNick(old(server.clients), done.target, done.found)
    ensures done.KickCommand? ==> FoundByNick(old(server.clients), done.target, done.found)
    ensures server.View() == ServerAfter(env, World(old(server.View()), conns, {}), done)
  {
    done := step;
    match step {
      case Connected(a) => server.RegisterClient(a);
      case NickCommand(a, nick) => server.ChangeNick(a, nick);
      case PrivmsgCommand(a, target, text, _) =>
        var found := server.RelayPrivmsg(a, target, text);
        done := PrivmsgCommand(a, target, text, found);
      case KickCommand(a, channel, target, reason, _) =>
        var found := server.KickMember(a, channel, target, reason);
        done := KickCommand(a, channel, target, reason, found);
      case PartCommand(a, channel) => server.PartChannel(a, channel);
      case HelloCommand(a, nick, pubkey, signature) =>
        if !env.verify(nick, pubkey, signature) {
          server.SendTo(a, HelloFailed(nick, Invalid));
        }
      case PowSetCommand(a, bits) =>
        if !PowBitsValid(bits) {
          server.SendTo(a, PowSetFailed);
        }
      case Continue(a) => RunContinued(env, server, conns, a);
      case Close(a) => server.CleanupClient(a);
      case _ =>
    }
  }
}
