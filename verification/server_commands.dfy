/** Who hears of a step of the server, what it does to the channels, and who may do it. */
module ServerCommands {
  import opened Text
  import opened IrcServer
  import opened ServerRuns
  import opened ServerTheorems
  import Pow

  // ------------------------------------------------------------------
  // Who hears of a step
  // ------------------------------------------------------------------

  /** Whom a PRIVMSG is for: the other members of a channel of that name, or else the one
      client found under the nick. */
  predicate Addressed(s: State, a: Addr, target: string, found: Option<Addr>, b: Addr) {
    if target in s.channels then b in s.channels[target] && b != a else found == Some(b)
  }

  /** What the holder of a nick bound to a key may not do before proving it. */
  predicate Muted(s: State, a: Addr) {
    a in s.clients && s.clients[a].NickOrEmpty() in s.nickPubkeys - {""} && !s.clients[a].authenticated
  }

  /** A reply to the acting client alone. */
  function Reply(a: Addr, b: Addr, lines: seq<Line>): seq<Line> { if a == b then lines else [] }

  /** A line for those of an audience. */
  function Tell(audience: bool, line: Line): seq<Line> { if audience then [line] else [] }

  /** What `b` hears of a connection's last section of HELLO. */
  function ToldOfBinding(s: State, a: Addr, nick: string, pubkey: string, bits: nat, b: Addr): seq<Line> {
    if nick in s.nickPubkeys && s.nickPubkeys[nick] != pubkey then Reply(a, b, [NickKeyMismatch(nick)])
    else Reply(a, b, [HelloOk(nick, bits)]) + Tell(b != a && Share(s.channels, a, b), Pubkey(nick, pubkey))
  }

  function ToldOfSection(env: Env, s: State, a: Addr, pc: Pc, b: Addr): seq<Line> {
    match pc
    case HelloNick(nick, _) =>
      if HasNick(s.clients, a, nick) then [] else Reply(a, b, [HelloFailed(nick, NickMismatch)])
    case HelloPow(nick, pubkey) =>
      if Pow.CheckDifficulty(env.sha, nick, pubkey, s.powBits) then []
      else Reply(a, b, [HelloFailed(nick, PowTooWeak(s.powBits))])
    case HelloBind(nick, pubkey) => ToldOfBinding(s, a, nick, pubkey, Pow.ZeroBitsU8(env.sha(nick, pubkey)), b)
    case JoinWrite(ch, nick) =>
      var members := Members(s.channels, ch) + {a};
      Tell(b in members, Joined(nick, ch))
      + Reply(a, b, [Names(nick, ch, NamesOf(s.clients, members)), EndOfNames(nick, ch)])
    case PowWrite(bits) => [PowRequired(bits)]
    case _ => []
  }

  /** Everything a step queues for the client at `b`. */
  function Told(env: Env, w: World, step: Step, b: Addr): seq<Line>
    requires step.Continue? ==> step.a in w.conns
  {
    var s, a := w.server, step.a;
    match step
    case NickCommand(_, nick) =>
      if NickAllowed(s, a, nick) then [] else Reply(a, b, [NickInUse(nick)])
    case PrivmsgCommand(_, target, text, found) =>
      Tell(!Muted(s, a) && Addressed(s, a, target, found, b), Privmsg(Sender(s, a), target, text))
    case KickCommand(_, ch, target, reason, found) =>
      var allowed := a in s.clients && s.clients[a].authenticated && found.Some?;
      Tell(allowed && b in Members(s.channels, ch), Kicked(Sender(s, a), ch, target, reason))
    case PartCommand(_, ch) =>
      Tell(a in s.clients && s.clients[a].nick.Some? && b != a && b in Members(s.channels, ch), Parted(Sender(s, a), ch))
    case HelloCommand(_, nick, pubkey, signature) =>
      if env.verify(nick, pubkey, signature) then [] else Reply(a, b, [HelloFailed(nick, Invalid)])
    case PowSetCommand(_, bits) => if PowBitsValid(bits) then [] else Reply(a, b, [PowSetFailed])
    case Continue(_) => ToldOfSection(env, s, a, w.conns[a], b)
    case Close(_) => Tell(HasSomeNick(s.clients, a) && b != a && Share(s.channels, a, b), Quit(Sender(s, a)))
    case _ => []
  }

  /** Every step adds exactly that to the queue of every client it leaves registered. */
  lemma StepTellsExactly(env: Env, w: World, step: Step, b: Addr)
    requires Enabled(w, step)
    requires b in w.server.clients && b in Apply(env, w, step).server.clients && step != Connected(b)
    ensures Received(w.server, Apply(env, w, step).server, b, Told(env, w, step, b))
  {
    var queue := w.server.clients[b].queue;
    assert queue + [] == queue;
    if step.Continue? {
      SectionTellsExactly(env, w, step.a, b);
    } else if step.Close? {
      CleanupTells(w.server, step.a, b);
    } else if step.KickCommand? {
      KickTells(w.server, step.a, step.channel, step.target, step.reason, step.found, b);
    } else if step.PrivmsgCommand? {
      MessageTells(w.server, step.a, step.target, step.text, step.found, b);
    } else if step.PartCommand? {
      PartTells(w.server, step.a, step.channel, b);
    }
  }

  lemma MessageTells(s: State, a: Addr, target: string, text: string, found: Option<Addr>, b: Addr)
    requires b in s.clients
    ensures b in IrcServer.Relay(s, a, target, text, found).clients
    ensures Received(s, IrcServer.Relay(s, a, target, text, found), b,
      Tell(!Muted(s, a) && Addressed(s, a, target, found, b), Privmsg(Sender(s, a), target, text)))
  {
    assert s.clients[b].queue + [] == s.clients[b].queue;
  }

  lemma PartTells(s: State, a: Addr, ch: string, b: Addr)
    requires b in s.clients
    ensures b in Part(s, a, ch).clients
    ensures Received(s, Part(s, a, ch), b,
      Tell(a in s.clients && s.clients[a].nick.Some? && b != a && b in Members(s.channels, ch), Parted(Sender(s, a), ch)))
  {
    assert s.clients[b].queue + [] == s.clients[b].queue;
  }

  lemma CleanupTells(s: State, a: Addr, b: Addr)
    requires b in s.clients && b in Cleanup(s, a).clients
    ensures Received(s, Cleanup(s, a), b,
      Tell(HasSomeNick(s.clients, a) && b != a && Share(s.channels, a, b), Quit(Sender(s, a))))
  {
    assert s.clients[b].queue + [] == s.clients[b].queue;
  }

  lemma KickTells(s: State, a: Addr, ch: string, target: string, reason: string, found: Option<Addr>, b: Addr)
    requires b in s.clients
    ensures b in Kick(s, a, ch, target, reason, found).clients
    ensures var allowed := a in s.clients && s.clients[a].authenticated && found.Some?;
      Received(s, Kick(s, a, ch, target, reason, found), b,
        Tell(allowed && b in Members(s.channels, ch), Kicked(Sender(s, a), ch, target, reason)))
  {
    assert s.clients[b].queue + [] == s.clients[b].queue;
  }

  lemma SectionTellsExactly(env: Env, w: World, a: Addr, b: Addr)
    requires a in w.conns && b in w.server.clients
    ensures b in ServerAfter(env, w, Continue(a)).clients
    ensures Received(w.server, ServerAfter(env, w, Continue(a)), b, ToldOfSection(env, w.server, a, w.conns[a], b))
  {
    var s := w.server;
    var queue := s.clients[b].queue;
    assert queue + [] == queue;
    match w.conns[a] {
      case HelloBind(nick, pubkey) => BindingTells(s, a, nick, pubkey, Pow.ZeroBitsU8(env.sha(nick, pubkey)), b);
      case JoinWrite(ch, nick) => JoinTells(s, a, ch, nick, b);
      case _ =>
    }
  }

  lemma BindingTells(s: State, a: Addr, nick: string, pubkey: string, bits: nat, b: Addr)
    requires b in s.clients
    ensures Received(s, BindHello(s, a, nick, pubkey, bits), b, ToldOfBinding(s, a, nick, pubkey, bits, b))
  {
    var queue := s.clients[b].queue;
    assert queue + [] == queue;
    assert queue + [HelloOk(nick, bits)] == queue + ([HelloOk(nick, bits)] + []);
    assert queue + [Pubkey(nick, pubkey)] == queue + ([] + [Pubkey(nick, pubkey)]);
  }

  lemma JoinTells(s: State, a: Addr, ch: string, nick: string, b: Addr)
    requires b in s.clients
    ensures var members := Members(s.channels, ch) + {a};
      Received(s, JoinChannel(s, a, ch, nick), b,
        Tell(b in members, Joined(nick, ch))
        + Reply(a, b, [Names(nick, ch, NamesOf(s.clients, members)), EndOfNames(nick, ch)]))
  {
    var queue := s.clients[b].queue;
    assert queue + [] == queue;
  }

  /** The name a line comes from: the client's nick, or nothing when it has none. */
  predicate SpeaksAs(s: State, a: Addr, name: string) {
    HasNick(s.clients, a, name) || (name == "" && !HasSomeNick(s.clients, a))
  }

  /** What a line that a step queues for `b` says of the acting client and of `b`. */
  ghost predicate Rightly(s: State, s': State, a: Addr, b: Addr, line: Line) {
    match line
    case Privmsg(from, target, _) =>
      && SpeaksAs(s, a, from) && !Muted(s, a)
      && if target in s.channels then b != a && b in s.channels[target] else HasNick(s.clients, b, target)
    case Joined(nick, ch) =>
      HasNick(s.clients, a, nick) && a in Members(s'.channels, ch) && b in Members(s'.channels, ch)
    case Kicked(kicker, ch, target, _) =>
      && a in s.clients && s.clients[a].authenticated && SpeaksAs(s, a, kicker)
      && b in Members(s.channels, ch)
      && exists t :: HasNick(s.clients, t, target) && t !in Members(s'.channels, ch)
    case Parted(nick, ch) =>
      HasNick(s.clients, a, nick) && b != a && b in Members(s.channels, ch) && a !in Members(s'.channels, ch)
    case Quit(nick) => HasNick(s.clients, a, nick) && a !in s'.clients && b != a && Share(s.channels, a, b)
    case Pubkey(nick, pubkey) =>
      && HasNick(s.clients, a, nick) && b != a && Share(s.channels, a, b)
      && nick in s'.nickPubkeys && s'.nickPubkeys[nick] == pubkey
    case PowRequired(bits) => s'.powBits == bits && bits <= MAX_POW_BITS && a in s.clients && s.clients[a].authenticated
    case Names(nick, ch, names) =>
      && b == a && HasNick(s.clients, a, nick) && a in Members(s'.channels, ch)
      && forall m :: (m in names <==> m in Members(s'.channels, ch) && HasSomeNick(s.clients, m))
                     && (m in names ==> HasNick(s.clients, m, names[m]))
    case _ => b == a
  }

  lemma ToldRightly(env: Env, w: World, step: Step, b: Addr, line: Line)
    requires Inv(w) && Enabled(w, step) && line in Told(env, w, step, b)
    requires AboutToSetPow(w, step.a) ==> PowSetterOk(w, step.a)
    ensures Rightly(w.server, Apply(env, w, step).server, step.a, b, line)
  {
    if step.Continue? {
      SectionRightly(env, w, step.a, b, line);
    } else if step.KickCommand? {
      assert HasNick(w.server.clients, step.found.value, step.target);
    }
  }

  lemma SectionRightly(env: Env, w: World, a: Addr, b: Addr, line: Line)
    requires Inv(w) && Enabled(w, Continue(a)) && line in ToldOfSection(env, w.server, a, w.conns[a], b)
    requires AboutToSetPow(w, a) ==> PowSetterOk(w, a)
    ensures Rightly(w.server, ServerAfter(env, w, Continue(a)), a, b, line)
  {
    var s := w.server;
    assert a in s.clients && PcFits(s.clients[a].nick, w.conns[a]);
    match w.conns[a] {
      case HelloBind(nick, pubkey) =>
        var bits := Pow.ZeroBitsU8(env.sha(nick, pubkey));
        BindingRightly(s, BindHello(s, a, nick, pubkey, bits), a, nick, pubkey, bits, b, line);
      case JoinWrite(ch, nick) => JoinRightly(s, JoinChannel(s, a, ch, nick), a, ch, nick, b, line);
      case _ =>
    }
  }

  lemma BindingRightly(s: State, s': State, a: Addr, nick: string, pubkey: string, bits: nat, b: Addr, line: Line)
    requires HasNick(s.clients, a, nick) && line in ToldOfBinding(s, a, nick, pubkey, bits, b)
    requires !(nick in s.nickPubkeys && s.nickPubkeys[nick] != pubkey) ==>
      nick in s'.nickPubkeys && s'.nickPubkeys[nick] == pubkey
    ensures Rightly(s, s', a, b, line)
  {
  }

  lemma JoinRightly(s: State, s': State, a: Addr, ch: string, nick: string, b: Addr, line: Line)
    requires HasNick(s.clients, a, nick) && Members(s'.channels, ch) == Members(s.channels, ch) + {a}
    requires var members := Members(s'.channels, ch);
      line in Tell(b in members, Joined(nick, ch))
              + Reply(a, b, [Names(nick, ch, NamesOf(s.clients, members)), EndOfNames(nick, ch)])
    ensures Rightly(s, s', a, b, line)
  {
    var names := NamesOf(s.clients, Members(s'.channels, ch));
    assert line in [Joined(nick, ch), Names(nick, ch, names), EndOfNames(nick, ch)];
  }

  /** In every run and for every step, what a client is queued is exactly what the step
      tells it, and every line of it is rightly told: channel events only to those on the
      channel, messages under the sender's own nick to those they are for, keys and
      departures to those sharing a channel, replies to the acting client alone. */
  lemma DeliveredRightly(
      env: Env, powBits: nat, steps: seq<Step>, worlds: seq<World>, i: nat, b: Addr)
    requires IsRun(env, powBits, steps, worlds) && i < |steps|
    requires b in worlds[i].server.clients && b in worlds[i + 1].server.clients && steps[i] != Connected(b)
    ensures steps[i].Continue? ==> steps[i].a in worlds[i].conns
    ensures Received(worlds[i].server, worlds[i + 1].server, b, Told(env, worlds[i], steps[i], b))
    ensures forall line | line in Told(env, worlds[i], steps[i], b) ::
      Rightly(worlds[i].server, worlds[i + 1].server, steps[i].a, b, line)
  {
    assert StepAt(env, steps, worlds, i);
    StepTellsExactly(env, worlds[i], steps[i], b);
    InvAlong(env, powBits, steps, worlds, i);
    if AboutToSetPow(worlds[i], steps[i].a) {
      PowSetterIsAuthenticated(env, powBits, steps, worlds, i, steps[i].a);
    }
    forall line | line in Told(env, worlds[i], steps[i], b)
      ensures Rightly(worlds[i].server, worlds[i + 1].server, steps[i].a, b, line)
    {
      ToldRightly(env, worlds[i], steps[i], b, line);
    }
  }

  /** Nobody a line is for is missing: as long as no address registered while on a channel,
      whoever a step tells something is a registered client before it. */
  lemma AudienceIsRegistered(
      env: Env, powBits: nat, steps: seq<Step>, worlds: seq<World>, i: nat, b: Addr)
    requires IsRun(env, powBits, steps, worlds) && i < |steps| && NoMemberRegistered(steps, worlds, i)
    requires steps[i].Continue? ==> steps[i].a in worlds[i].conns
    requires Told(env, worlds[i], steps[i], b) != [] && !AboutToSetPow(worlds[i], steps[i].a)
    ensures b in worlds[i].server.clients
  {
    InvAlong(env, powBits, steps, worlds, i);
    MembersAreClientsIff(env, powBits, steps, worlds, i);
    assert StepAt(env, steps, worlds, i);
    var s, a := worlds[i].server, steps[i].a;
    assert MembersAreClients(s);
    SharersAreClients(s, a, b);
    MemberHasNick(s, b);
    assert a in worlds[i].conns && worlds[i].conns[a] != Handshaking ==> a in s.clients;
    if steps[i].PrivmsgCommand? {
      assert Members(s.channels, steps[i].target) == if steps[i].target in s.channels then s.channels[steps[i].target] else {};
    }
  }

  lemma MemberHasNick(s: State, b: Addr)
    requires MembersAreClients(s)
    ensures forall ch :: b in Members(s.channels, ch) ==> HasSomeNick(s.clients, b)
  {
  }

  /** Whom a step takes off a channel. */
  predicate Removes(w: World, step: Step, ch: string, m: Addr) {
    var s, a := w.server, step.a;
    match step
    case PartCommand(_, c) => HasSomeNick(s.clients, a) && c == ch && m == a
    case KickCommand(_, c, _, _, found) => a in s.clients && s.clients[a].authenticated && c == ch && found == Some(m)
    case Close(_) => HasSomeNick(s.clients, a) && m == a
    case _ => false
  }

  /** Whom a step puts on a channel. */
  predicate Adds(w: World, step: Step, ch: string, m: Addr) {
    step.Continue? && m == step.a && m in w.conns && w.conns[m].JoinWrite? && w.conns[m].channel == ch
  }

  /** What a step does to the channels: JOIN's write section adds its client, PART and a
      permitted KICK take one out of one channel, cleanup takes a client with a nick out of
      all, and nothing else changes who is where. */
  lemma StepMembers(env: Env, w: World, step: Step, ch: string, m: Addr)
    requires Enabled(w, step)
    ensures m in Members(Apply(env, w, step).server.channels, ch) <==>
      (m in Members(w.server.channels, ch) && !Removes(w, step, ch, m)) || Adds(w, step, ch, m)
  {
    if step.Continue? {
      SectionMembers(env, w, step.a, ch, m);
    } else if step.KickCommand? {
      KickMembers(w.server, step.a, step.channel, step.target, step.reason, step.found, ch, m);
    } else if !step.PartCommand? && !step.Close? {
      assert Apply(env, w, step).server.channels == w.server.channels;
    }
  }

  lemma KickMembers(s: State, a: Addr, c: string, target: string, reason: string, found: Option<Addr>, ch: string, m: Addr)
    ensures m in Members(Kick(s, a, c, target, reason, found).channels, ch) <==>
      m in Members(s.channels, ch) && !(a in s.clients && s.clients[a].authenticated && c == ch && found == Some(m))
  {
  }

  lemma SectionMembers(env: Env, w: World, a: Addr, ch: string, m: Addr)
    requires a in w.conns
    ensures m in Members(ServerAfter(env, w, Continue(a)).channels, ch) <==>
      m in Members(w.server.channels, ch) || Adds(w, Continue(a), ch, m)
  {
    if !w.conns[a].JoinWrite? {
      assert ServerAfter(env, w, Continue(a)).channels == w.server.channels;
    }
  }

  // ------------------------------------------------------------------
  // Who may do it
  // ------------------------------------------------------------------

  /** A client's key changes only by HELLO's last section, to the key it proved. */
  lemma KeyStep(env: Env, w: World, step: Step, a: Addr)
    requires Enabled(w, step) && a in Apply(env, w, step).server.clients
    ensures var c' := Apply(env, w, step).server.clients[a];
      || (a in w.server.clients && step != Connected(a)
          && c'.pubkey == w.server.clients[a].pubkey && c'.authenticated == w.server.clients[a].authenticated)
      || (c'.pubkey == None && !c'.authenticated)
      || (step.Continue? && a == step.a && w.conns[a].HelloBind?
          && c'.pubkey == Some(w.conns[a].pubkey) && c'.authenticated)
  {
    if a != step.a {
      OthersKeepIdentity(env, w, step, a);
    } else if !ChangesActor(w, step) {
      assert Undisturbed(w.server, ServerAfter(env, w, step), a);
    }
  }

  /** The steps that change who the acting client is. */
  predicate ChangesActor(w: World, step: Step) {
    || step.NickCommand? || step.Connected? || step.Close?
    || (step.Continue? && step.a in w.conns && w.conns[step.a].HelloBind?)
  }

  /** The client at `a` passed all of a HELLO under its present registration, ending at
      step `b`: its key signed the nick, and the nick met the difficulty then in force. */
  ghost predicate ProvedKey(
    env: Env, steps: seq<Step>, worlds: seq<World>, i: nat, a: Addr, nick: string, pubkey: string,
    c: nat, s: nat, d: nat, b: nat)
    requires |worlds| == |steps| + 1 && i <= |steps|
  {
    Binds(env, steps, worlds, a, nick, pubkey, c, s, d, b) && b < i && forall k | b < k < i :: steps[k] != Connected(a)
  }

  lemma {:induction false} AuthenticatedHasKey(
      env: Env, powBits: nat, steps: seq<Step>, worlds: seq<World>, i: nat, a: Addr)
    requires IsRun(env, powBits, steps, worlds) && i <= |steps| && a in worlds[i].server.clients
    ensures worlds[i].server.clients[a].authenticated <==> worlds[i].server.clients[a].pubkey.Some?
  {
    if i > 0 {
      assert StepAt(env, steps, worlds, i - 1);
      KeyStep(env, worlds[i - 1], steps[i - 1], a);
      if a in worlds[i - 1].server.clients {
        AuthenticatedHasKey(env, powBits, steps, worlds, i - 1, a);
      }
    }
  }

  /** In every run an authenticated client holds a key that it proved itself, by a HELLO
      of its own since it registered. */
  lemma {:induction false} AuthenticatedHasProved(
      env: Env, powBits: nat, steps: seq<Step>, worlds: seq<World>, i: nat, a: Addr)
    returns (nick: string, c: nat, s: nat, d: nat, b: nat)
    requires IsRun(env, powBits, steps, worlds) && i <= |steps|
    requires a in worlds[i].server.clients && worlds[i].server.clients[a].authenticated
    ensures worlds[i].server.clients[a].pubkey.Some?
    ensures ProvedKey(env, steps, worlds, i, a, nick, worlds[i].server.clients[a].pubkey.value, c, s, d, b)
  {
    AuthenticatedHasKey(env, powBits, steps, worlds, i, a);
    assert StepAt(env, steps, worlds, i - 1);
    var w, step := worlds[i - 1], steps[i - 1];
    KeyStep(env, w, step, a);
    if step.Continue? && step.a == a && w.conns[a].HelloBind? && worlds[i].server.clients[a].pubkey == Some(w.conns[a].pubkey) {
      nick, b := w.conns[a].nick, i - 1;
      c, s, d := HelloBindHistory(env, powBits, steps, worlds, i - 1, a);
    } else {
      nick, c, s, d, b := AuthenticatedHasProved(env, powBits, steps, worlds, i - 1, a);
    }
  }

  predicate AboutToSetPow(w: World, a: Addr) { a in w.conns && w.conns[a].PowWrite? }

  predicate PowSetterOk(w: World, a: Addr)
    requires AboutToSetPow(w, a)
  {
    a in w.server.clients && w.server.clients[a].authenticated && w.conns[a].bits <= MAX_POW_BITS
  }

  lemma {:induction false} PowSetterIsAuthenticated(
      env: Env, powBits: nat, steps: seq<Step>, worlds: seq<World>, i: nat, a: Addr)
    requires IsRun(env, powBits, steps, worlds) && i <= |steps| && AboutToSetPow(worlds[i], a)
    ensures PowSetterOk(worlds[i], a)
  {
    if i > 0 {
      var w, step := worlds[i - 1], steps[i - 1];
      assert StepAt(env, steps, worlds, i - 1);
      if a != step.a {
        PowSetterIsAuthenticated(env, powBits, steps, worlds, i - 1, a);
        OthersKeepIdentity(env, w, step, a);
      }
    }
  }

  /** In every run the difficulty changes only by POW_SET's last section, to at most 28,
      for a client that proved its key; and every client is told. */
  lemma DifficultyChangedByProvedClient(
      env: Env, powBits: nat, steps: seq<Step>, worlds: seq<World>, i: nat, other: Addr)
    returns (nick: string, c: nat, s: nat, d: nat, b: nat)
    requires IsRun(env, powBits, steps, worlds) && i < |steps|
    requires worlds[i + 1].server.powBits != worlds[i].server.powBits
    ensures var st, st', a := worlds[i].server, worlds[i + 1].server, steps[i].a;
      && steps[i] == Continue(a) && a in st.clients && st.clients[a].pubkey.Some?
      && ProvedKey(env, steps, worlds, i, a, nick, st.clients[a].pubkey.value, c, s, d, b)
      && st'.powBits <= MAX_POW_BITS
      && (other in st.clients ==> other in st'.clients && Received(st, st', other, [PowRequired(st'.powBits)]))
  {
    assert StepAt(env, steps, worlds, i);
    var a := steps[i].a;
    PowStep(env, worlds[i], steps[i]);
    PowSetterIsAuthenticated(env, powBits, steps, worlds, i, a);
    nick, c, s, d, b := AuthenticatedHasProved(env, powBits, steps, worlds, i, a);
    if other in worlds[i].server.clients {
      StepTellsExactly(env, worlds[i], steps[i], other);
    }
  }

  /** In every run a member leaves a channel only by its own PART or disconnection, or by
      a KICK from an authenticated client. */
  lemma MemberRemovedOnlyBy(
      env: Env, powBits: nat, steps: seq<Step>, worlds: seq<World>, i: nat, ch: string, m: Addr)
    requires IsRun(env, powBits, steps, worlds) && i < |steps|
    requires m in Members(worlds[i].server.channels, ch) && m !in Members(worlds[i + 1].server.channels, ch)
    ensures var s, step := worlds[i].server, steps[i];
      || step == PartCommand(m, ch)
      || step == Close(m)
      || KickedBy(s, step, ch, m)
  {
    assert StepAt(env, steps, worlds, i);
    StepMembers(env, worlds[i], steps[i], ch, m);
  }

  predicate KickedBy(s: State, step: Step, ch: string, m: Addr) {
    && step.KickCommand? && step.channel == ch && step.found == Some(m)
    && step.a in s.clients && s.clients[step.a].authenticated
  }

  /** Such a KICK's sender proved its key. */
  lemma KickerHasProved(
      env: Env, powBits: nat, steps: seq<Step>, worlds: seq<World>, i: nat, ch: string, m: Addr)
    returns (nick: string, c: nat, s: nat, d: nat, b: nat)
    requires IsRun(env, powBits, steps, worlds) && i < |steps| && KickedBy(worlds[i].server, steps[i], ch, m)
    ensures var client := worlds[i].server.clients[steps[i].a];
      && client.pubkey.Some?
      && ProvedKey(env, steps, worlds, i, steps[i].a, nick, client.pubkey.value, c, s, d, b)
  {
    nick, c, s, d, b := AuthenticatedHasProved(env, powBits, steps, worlds, i, steps[i].a);
  }
}
