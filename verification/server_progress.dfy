/** What commands come to: a JOIN, a POW_SET, a HELLO or a NICK that the server does not
    refuse has its effect, whatever other connections do in between, and no connection ever
    gets stuck. */
module ServerProgress {
  import opened Text
  import opened IrcServer
  import opened ServerRuns
  import opened ServerTheorems
  import Pow

  // ------------------------------------------------------------------
  // Between two steps of a connection
  // ------------------------------------------------------------------

  /** Nothing a connection is in the middle of changes while others run. */
  lemma {:induction false} PcStays(
      env: Env, powBits: nat, steps: seq<Step>, worlds: seq<World>, i: nat, j: nat, a: Addr)
    requires IsRun(env, powBits, steps, worlds) && i < j <= |steps| && steps[i].a == a && Rests(steps, a, i, j)
    ensures (a in worlds[j].conns <==> a in worlds[i + 1].conns)
    ensures a in worlds[j].conns ==> worlds[j].conns[a] == worlds[i + 1].conns[a]
    ensures Undisturbed(worlds[i + 1].server, worlds[j].server, a)
    decreases j
  {
    if i + 1 < j {
      PcStays(env, powBits, steps, worlds, i, j - 1, a);
      assert StepAt(env, steps, worlds, j - 1);
      OthersKeepIdentity(env, worlds[j - 1], steps[j - 1], a);
    }
  }

  /** A connection in the middle of a command does nothing but go on with it, and only such a
      one goes on. */
  lemma GoesOn(env: Env, powBits: nat, steps: seq<Step>, worlds: seq<World>, j: nat, a: Addr)
    requires IsRun(env, powBits, steps, worlds) && j < |steps| && steps[j].a == a
    ensures steps[j] == Continue(a) <==>
      a in worlds[j].conns && worlds[j].conns[a] != Handshaking && worlds[j].conns[a] != Ready
  {
    assert StepAt(env, steps, worlds, j);
  }

  // ------------------------------------------------------------------
  // JOIN
  // ------------------------------------------------------------------

  /** Whoever sends JOIN with a nick is on the channel after its next step, whatever the
      channel and whoever is on it. */
  lemma JoinMakesMember(
      env: Env, powBits: nat, steps: seq<Step>, worlds: seq<World>, i: nat, j: nat, a: Addr, ch: string)
    requires IsRun(env, powBits, steps, worlds) && i < j < |steps|
    requires steps[i] == JoinCommand(a, ch) && HasSomeNick(worlds[i].server.clients, a)
    requires steps[j].a == a && Rests(steps, a, i, j)
    ensures steps[j] == Continue(a) && a in Members(worlds[j + 1].server.channels, ch)
  {
    assert StepAt(env, steps, worlds, i) && StepAt(env, steps, worlds, j);
    PcStays(env, powBits, steps, worlds, i, j, a);
    GoesOn(env, powBits, steps, worlds, j, a);
  }

  /** Whoever sends it without a nick is where it was, and at once able to send the next
      command. */
  lemma JoinWithoutNick(env: Env, powBits: nat, steps: seq<Step>, worlds: seq<World>, i: nat, a: Addr, ch: string)
    requires IsRun(env, powBits, steps, worlds) && i < |steps|
    requires steps[i] == JoinCommand(a, ch) && !HasSomeNick(worlds[i].server.clients, a)
    ensures At(worlds[i + 1], a, Ready) && worlds[i + 1].server == worlds[i].server
  {
    assert StepAt(env, steps, worlds, i);
  }

  /** And whoever is about to be put on a channel last sent JOIN for it, under the nick that
      will be announced. */
  lemma {:induction false} JoinerAsked(
      env: Env, powBits: nat, steps: seq<Step>, worlds: seq<World>, i: nat, a: Addr, ch: string, nick: string)
      returns (k: nat)
    requires IsRun(env, powBits, steps, worlds) && i <= |steps| && At(worlds[i], a, JoinWrite(ch, nick))
    ensures k < i && steps[k] == JoinCommand(a, ch) && HasNick(worlds[k].server.clients, a, nick)
    ensures Rests(steps, a, k, i)
    decreases i
  {
    assert StepAt(env, steps, worlds, i - 1);
    if steps[i - 1].a == a {
      k := i - 1;
    } else {
      k := JoinerAsked(env, powBits, steps, worlds, i - 1, a, ch, nick);
    }
  }

  // ------------------------------------------------------------------
  // POW_SET
  // ------------------------------------------------------------------

  /** A POW_SET of up to 28 bits from an authenticated client is in force after its next step. */
  lemma PowSetTakesEffect(
      env: Env, powBits: nat, steps: seq<Step>, worlds: seq<World>, i: nat, j: nat, a: Addr, bits: nat)
    requires IsRun(env, powBits, steps, worlds) && i < j < |steps| && bits <= 28
    requires steps[i] == PowSetCommand(a, Some(bits))
    requires a in worlds[i].server.clients && worlds[i].server.clients[a].authenticated
    requires steps[j].a == a && Rests(steps, a, i, j)
    ensures steps[j] == Continue(a) && worlds[j + 1].server.powBits == bits
  {
    assert StepAt(env, steps, worlds, i) && StepAt(env, steps, worlds, j);
    PcStays(env, powBits, steps, worlds, i, j, a);
    GoesOn(env, powBits, steps, worlds, j, a);
  }

  /** And whoever is about to set the difficulty last sent POW_SET with it, authenticated. */
  lemma {:induction false} PowSetterAsked(
      env: Env, powBits: nat, steps: seq<Step>, worlds: seq<World>, i: nat, a: Addr, bits: nat) returns (k: nat)
    requires IsRun(env, powBits, steps, worlds) && i <= |steps| && At(worlds[i], a, PowWrite(bits))
    ensures k < i && steps[k] == PowSetCommand(a, Some(bits)) && bits <= 28
    ensures a in worlds[k].server.clients && worlds[k].server.clients[a].authenticated && Rests(steps, a, k, i)
    decreases i
  {
    assert StepAt(env, steps, worlds, i - 1);
    if steps[i - 1].a == a {
      k := i - 1;
    } else {
      k := PowSetterAsked(env, powBits, steps, worlds, i - 1, a, bits);
    }
  }

  // ------------------------------------------------------------------
  // HELLO
  // ------------------------------------------------------------------

  /** A HELLO's command and its three sections, one after another with other connections in
      between. */
  predicate HelloSteps(steps: seq<Step>, a: Addr, nick: string, pubkey: string, c: nat, s: nat, d: nat, b: nat) {
    && c < s < d < b < |steps|
    && steps[c].HelloCommand? && steps[c].nick == nick && steps[c].pubkey == pubkey
    && steps[c].a == a && steps[s].a == a && steps[d].a == a && steps[b].a == a
    && Rests(steps, a, c, s) && Rests(steps, a, s, d) && Rests(steps, a, d, b)
  }

  /** If its signature verifies, the client has the nick, the nick meets the difficulty in
      force at the check, and no other key holds it at the binding, then the client is
      authenticated and the nick bound to its key. */
  lemma HelloSucceeds(
      env: Env, powBits: nat, steps: seq<Step>, worlds: seq<World>, a: Addr, nick: string, pubkey: string,
      c: nat, s: nat, d: nat, b: nat)
    requires IsRun(env, powBits, steps, worlds) && HelloSteps(steps, a, nick, pubkey, c, s, d, b)
    requires env.verify(nick, pubkey, steps[c].signature) && HasNick(worlds[c].server.clients, a, nick)
    requires Pow.CheckDifficulty(env.sha, nick, pubkey, worlds[d].server.powBits)
    requires nick in worlds[b].server.nickPubkeys ==> worlds[b].server.nickPubkeys[nick] == pubkey
    ensures steps[s] == Continue(a) && steps[d] == Continue(a) && steps[b] == Continue(a)
    ensures var after := worlds[b + 1].server;
      && nick in after.nickPubkeys && after.nickPubkeys[nick] == pubkey
      && HasNick(after.clients, a, nick) && after.clients[a].authenticated && after.clients[a].pubkey == Some(pubkey)
  {
    assert StepAt(env, steps, worlds, c);
    PcStays(env, powBits, steps, worlds, c, s, a);
    HelloAtNick(env, powBits, steps, worlds, a, nick, pubkey, s, d);
    HelloAtPow(env, powBits, steps, worlds, a, nick, pubkey, d, b);
    GoesOn(env, powBits, steps, worlds, b, a);
    assert StepAt(env, steps, worlds, b);
  }

  lemma HelloAtNick(
      env: Env, powBits: nat, steps: seq<Step>, worlds: seq<World>, a: Addr, nick: string, pubkey: string, s: nat, d: nat)
    requires IsRun(env, powBits, steps, worlds) && s < d < |steps| && steps[s].a == a && Rests(steps, a, s, d)
    requires At(worlds[s], a, HelloNick(nick, pubkey)) && HasNick(worlds[s].server.clients, a, nick)
    ensures steps[s] == Continue(a)
    ensures At(worlds[d], a, HelloPow(nick, pubkey)) && HasNick(worlds[d].server.clients, a, nick)
  {
    GoesOn(env, powBits, steps, worlds, s, a);
    assert StepAt(env, steps, worlds, s);
    PcStays(env, powBits, steps, worlds, s, d, a);
  }

  lemma HelloAtPow(
      env: Env, powBits: nat, steps: seq<Step>, worlds: seq<World>, a: Addr, nick: string, pubkey: string, d: nat, b: nat)
    requires IsRun(env, powBits, steps, worlds) && d < b < |steps| && steps[d].a == a && Rests(steps, a, d, b)
    requires At(worlds[d], a, HelloPow(nick, pubkey)) && HasNick(worlds[d].server.clients, a, nick)
    requires Pow.CheckDifficulty(env.sha, nick, pubkey, worlds[d].server.powBits)
    ensures steps[d] == Continue(a)
    ensures At(worlds[b], a, HelloBind(nick, pubkey)) && HasNick(worlds[b].server.clients, a, nick)
  {
    GoesOn(env, powBits, steps, worlds, d, a);
    assert StepAt(env, steps, worlds, d);
    PcStays(env, powBits, steps, worlds, d, b, a);
  }

  // ------------------------------------------------------------------
  // NICK
  // ------------------------------------------------------------------

  /** The nick a client last asked for that was free, or bound to the key it had proved. */
  function LastNick(steps: seq<Step>, worlds: seq<World>, i: nat, a: Addr): Option<string>
    requires i <= |steps| && |worlds| == |steps| + 1
  {
    if i == 0 then None
    else
      var s, before := worlds[i - 1].server, LastNick(steps, worlds, i - 1, a);
      match steps[i - 1]
      case NickCommand(b, nick) =>
        if b != a then before
        else if nick !in s.nickPubkeys then Some(nick)
        else if a in s.clients && s.clients[a].pubkey == Some(s.nickPubkeys[nick]) then Some(nick)
        else before
      case Connected(b) => if b == a then None else before
      case _ => before
  }

  /** In every run that is the nick it has. */
  lemma {:induction false} NickIsLastAllowed(
      env: Env, powBits: nat, steps: seq<Step>, worlds: seq<World>, i: nat, a: Addr)
    requires IsRun(env, powBits, steps, worlds) && i <= |steps| && a in worlds[i].server.clients
    ensures worlds[i].server.clients[a].nick == LastNick(steps, worlds, i, a)
  {
    if i > 0 {
      assert StepAt(env, steps, worlds, i - 1);
      InvAlong(env, powBits, steps, worlds, i - 1);
      var w, step := worlds[i - 1], steps[i - 1];
      if a in w.server.clients {
        NickIsLastAllowed(env, powBits, steps, worlds, i - 1, a);
      }
      if a != step.a {
        OthersKeepIdentity(env, w, step, a);
      } else if !step.NickCommand? && !step.Close? && !step.Connected? {
        ActorKeepsNick(env, w, step);
      }
    }
  }

  // ------------------------------------------------------------------
  // Nobody gets stuck
  // ------------------------------------------------------------------

  /** The commands and endings of a connection. */
  predicate IsCommand(step: Step) { !step.Accept? && !step.HandshakeFailed? && !step.Connected? && !step.Continue? }

  lemma SomeHolder(clients: Clients, nick: string) returns (found: Option<Addr>)
    ensures FoundByNick(clients, nick, found)
  {
    if b :| b in clients && HasNick(clients, b, nick) {
      found := Some(b);
    } else {
      found := None;
    }
  }

  /** How many sections are left of what a connection is doing. */
  function Left(pc: Pc): nat {
    match pc
    case HelloNick(_, _) => 3
    case HelloPow(_, _) => 2
    case HelloBind(_, _) => 1
    case JoinWrite(_, _) => 1
    case PowWrite(_) => 1
    case _ => 0
  }

  /** From any moment of any run, a connection can finish what it is doing by itself. */
  lemma {:induction false} Finishes(env: Env, powBits: nat, steps: seq<Step>, worlds: seq<World>, a: Addr)
      returns (steps': seq<Step>, worlds': seq<World>)
    requires IsRun(env, powBits, steps, worlds)
    requires a in worlds[|steps|].conns && worlds[|steps|].conns[a] != Handshaking
    ensures IsRun(env, powBits, steps', worlds') && steps <= steps' && |steps'| <= |steps| + 3
    ensures forall k :: |steps| <= k < |steps'| ==> steps'[k] == Continue(a)
    ensures At(worlds'[|steps'|], a, Ready)
    decreases Left(worlds[|steps|].conns[a])
  {
    FinishesWithin(env, powBits, steps, worlds, a);
    steps', worlds' := steps, worlds;
    while worlds'[|steps'|].conns[a] != Ready
      invariant IsRun(env, powBits, steps', worlds') && steps <= steps'
      invariant a in worlds'[|steps'|].conns && worlds'[|steps'|].conns[a] != Handshaking
      invariant |steps'| + Left(worlds'[|steps'|].conns[a]) <= |steps| + 3
      invariant forall k :: |steps| <= k < |steps'| ==> steps'[k] == Continue(a)
      decreases Left(worlds'[|steps'|].conns[a])
    {
      steps', worlds' := ExtendRun(env, powBits, steps', worlds', Continue(a));
    }
  }

  lemma FinishesWithin(env: Env, powBits: nat, steps: seq<Step>, worlds: seq<World>, a: Addr)
    requires IsRun(env, powBits, steps, worlds) && a in worlds[|steps|].conns
    ensures Left(worlds[|steps|].conns[a]) <= 3
  {
  }

  /** And then any command it sends, or its end, is taken up, whatever the rest of the server
      is doing. */
  lemma CommandRuns(env: Env, powBits: nat, steps: seq<Step>, worlds: seq<World>, command: Step)
      returns (steps': seq<Step>, worlds': seq<World>, done: Step)
    requires IsRun(env, powBits, steps, worlds) && IsCommand(command)
    requires command.a in worlds[|steps|].conns && worlds[|steps|].conns[command.a] != Handshaking
    ensures IsRun(env, powBits, steps', worlds') && steps < steps' && |steps'| <= |steps| + 4
    ensures forall k :: |steps| <= k < |steps'| - 1 ==> steps'[k] == Continue(command.a)
    ensures steps'[|steps'| - 1] == done && SameCommand(command, done)
  {
    steps', worlds' := Finishes(env, powBits, steps, worlds, command.a);
    done := command;
    if command.PrivmsgCommand? {
      var found := SomeHolder(worlds'[|steps'|].server.clients, command.target);
      done := PrivmsgCommand(command.a, command.target, command.text, found);
    } else if command.KickCommand? {
      var found := SomeHolder(worlds'[|steps'|].server.clients, command.target);
      done := KickCommand(command.a, command.channel, command.target, command.reason, found);
    }
    steps', worlds' := ExtendRun(env, powBits, steps', worlds', done);
  }

  /** Whoever is not connected is let in exactly while fewer than 100 clients, and fewer than
      5 from its IP address, are registered. */
  lemma LetInIff(env: Env, powBits: nat, steps: seq<Step>, worlds: seq<World>, i: nat, a: Addr)
    requires IsRun(env, powBits, steps, worlds) && i <= |steps| && a !in worlds[i].conns
    ensures var clients := worlds[i].server.clients;
      Enabled(worlds[i], Accept(a)) <==> |clients| < 100 && |set b | b in clients && b.ip == a.ip| < 5
  {
    InvAlong(env, powBits, steps, worlds, i);
    var clients := worlds[i].server.clients;
    assert ClientsAt(clients, a.ip) == set b | b in clients && b.ip == a.ip;
  }

  /** And once let in it can register, with nothing proved and no nick. */
  lemma Registers(env: Env, powBits: nat, steps: seq<Step>, worlds: seq<World>, a: Addr)
      returns (steps': seq<Step>, worlds': seq<World>)
    requires IsRun(env, powBits, steps, worlds) && Enabled(worlds[|steps|], Accept(a))
    ensures IsRun(env, powBits, steps', worlds') && steps' == steps + [Accept(a), Connected(a)]
    ensures At(worlds'[|steps'|], a, Ready)
    ensures var clients := worlds'[|steps'|].server.clients;
      a in clients && clients[a] == Client(None, None, false, a.ip, [])
  {
    steps', worlds' := ExtendRun(env, powBits, steps, worlds, Accept(a));
    steps', worlds' := ExtendRun(env, powBits, steps', worlds', Connected(a));
    assert steps' == steps + [Accept(a), Connected(a)];
  }
}
