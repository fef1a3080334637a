/** What holds over whole runs of the server. */
module ServerTheorems {
  import opened Text
  import opened IrcServer
  import opened ServerRuns
  import Bytes
  import Pow

  // ------------------------------------------------------------------
  // HELLO: three sections, other connections in between
  // ------------------------------------------------------------------

  /** When the binding section runs, the client is still registered under the
      nick whose signature and difficulty earlier sections checked. */
  lemma HelloBindsUnderItsNick(env: Env, powBits: nat, steps: seq<Step>, worlds: seq<World>, i: nat, a: Addr)
    requires IsRun(env, powBits, steps, worlds) && i <= |steps|
    requires a in worlds[i].conns && worlds[i].conns[a].HelloBind?
    ensures HasNick(worlds[i].server.clients, a, worlds[i].conns[a].nick)
  {
    InvAlong(env, powBits, steps, worlds, i);
  }

  /** No section of `a` runs strictly between steps `from` and `end`. */
  predicate Rests(steps: seq<Step>, a: Addr, from: nat, end: nat)
    requires end <= |steps|
  {
    forall k | from < k < end :: steps[k].a != a
  }

  /** HELLO's command at step `c`: the signature verifies. */
  ghost predicate SignatureChecked(env: Env, steps: seq<Step>, a: Addr, nick: string, pubkey: string, c: nat) {
    && c < |steps| && steps[c].HelloCommand? && steps[c].a == a
    && steps[c].nick == nick && steps[c].pubkey == pubkey && env.verify(nick, pubkey, steps[c].signature)
  }

  /** HELLO's first section at step `s`, next after its command: the nick is the client's. */
  ghost predicate NickChecked(
    env: Env, steps: seq<Step>, worlds: seq<World>, a: Addr, nick: string, pubkey: string, c: nat, s: nat)
    requires |worlds| == |steps| + 1
  {
    && SignatureChecked(env, steps, a, nick, pubkey, c)
    && c < s < |steps| && steps[s] == Continue(a) && HasNick(worlds[s].server.clients, a, nick)
    && Rests(steps, a, c, s)
  }

  /** HELLO's second section at step `d`, next after its first: the nick's hash meets the
      difficulty in force right then. */
  ghost predicate WorkChecked(
    env: Env, steps: seq<Step>, worlds: seq<World>, a: Addr, nick: string, pubkey: string, c: nat, s: nat, d: nat)
    requires |worlds| == |steps| + 1
  {
    && NickChecked(env, steps, worlds, a, nick, pubkey, c, s)
    && s < d < |steps| && steps[d] == Continue(a)
    && Pow.CheckDifficulty(env.sha, nick, pubkey, worlds[d].server.powBits)
    && Rests(steps, a, s, d)
  }

  /** HELLO's last section at step `b`, next after its second. */
  ghost predicate Binds(
    env: Env, steps: seq<Step>, worlds: seq<World>, a: Addr, nick: string, pubkey: string, c: nat, s: nat, d: nat, b: nat)
    requires |worlds| == |steps| + 1
  {
    && WorkChecked(env, steps, worlds, a, nick, pubkey, c, s, d)
    && d < b < |steps| && steps[b] == Continue(a)
    && Rests(steps, a, d, b)
  }

  /** A connection past HELLO's command, or past one of its sections, has that behind it. */
  lemma {:induction false} HelloNickHistory(
      env: Env, powBits: nat, steps: seq<Step>, worlds: seq<World>, i: nat, a: Addr)
    returns (c: nat)
    requires IsRun(env, powBits, steps, worlds) && i <= |steps|
    requires a in worlds[i].conns && worlds[i].conns[a].HelloNick?
    ensures SignatureChecked(env, steps, a, worlds[i].conns[a].nick, worlds[i].conns[a].pubkey, c)
    ensures c < i && Rests(steps, a, c, i)
  {
    assert StepAt(env, steps, worlds, i - 1);
    if steps[i - 1].a == a {
      c := i - 1;
    } else {
      c := HelloNickHistory(env, powBits, steps, worlds, i - 1, a);
    }
  }

  lemma {:induction false} HelloPowHistory(
      env: Env, powBits: nat, steps: seq<Step>, worlds: seq<World>, i: nat, a: Addr)
    returns (c: nat, s: nat)
    requires IsRun(env, powBits, steps, worlds) && i <= |steps|
    requires a in worlds[i].conns && worlds[i].conns[a].HelloPow?
    ensures NickChecked(env, steps, worlds, a, worlds[i].conns[a].nick, worlds[i].conns[a].pubkey, c, s)
    ensures s < i && Rests(steps, a, s, i)
  {
    assert StepAt(env, steps, worlds, i - 1);
    if steps[i - 1].a == a {
      s := i - 1;
      c := HelloNickHistory(env, powBits, steps, worlds, s, a);
    } else {
      c, s := HelloPowHistory(env, powBits, steps, worlds, i - 1, a);
    }
  }

  /** In every run a client about to bind has passed all of its own HELLO: its signature,
      its nick, and then the difficulty in force at the moment of the check, with no other
      section of its own since. */
  lemma {:induction false} HelloBindHistory(
      env: Env, powBits: nat, steps: seq<Step>, worlds: seq<World>, i: nat, a: Addr)
    returns (c: nat, s: nat, d: nat)
    requires IsRun(env, powBits, steps, worlds) && i <= |steps|
    requires a in worlds[i].conns && worlds[i].conns[a].HelloBind?
    ensures WorkChecked(env, steps, worlds, a, worlds[i].conns[a].nick, worlds[i].conns[a].pubkey, c, s, d)
    ensures d < i && Rests(steps, a, d, i)
  {
    assert StepAt(env, steps, worlds, i - 1);
    if steps[i - 1].a == a {
      d := i - 1;
      c, s := HelloPowHistory(env, powBits, steps, worlds, d, a);
    } else {
      c, s, d := HelloBindHistory(env, powBits, steps, worlds, i - 1, a);
    }
  }

  /** A binding is new only when HELLO's last section makes it, for its own nick. */
  lemma NewBinding(env: Env, w: World, step: Step, nick: string)
    requires Enabled(w, step)
    requires nick in Apply(env, w, step).server.nickPubkeys
    ensures var k := Apply(env, w, step).server.nickPubkeys[nick];
      || (nick in w.server.nickPubkeys && w.server.nickPubkeys[nick] == k)
      || (step.Continue? && w.conns[step.a] == HelloBind(nick, k))
  {}

  /** Every nick bound at any moment of a run was bound by a HELLO that passed all its
      checks: the signature under that key, the nick of that client, and the difficulty in
      force when it was checked. */
  lemma {:induction false} BoundKeysWereProved(
      env: Env, powBits: nat, steps: seq<Step>, worlds: seq<World>, i: nat, nick: string)
    returns (a: Addr, c: nat, s: nat, d: nat, b: nat)
    requires IsRun(env, powBits, steps, worlds) && i <= |steps|
    requires nick in worlds[i].server.nickPubkeys
    ensures b < i && Binds(env, steps, worlds, a, nick, worlds[i].server.nickPubkeys[nick], c, s, d, b)
  {
    assert StepAt(env, steps, worlds, i - 1);
    var w, step := worlds[i - 1], steps[i - 1];
    NewBinding(env, w, step, nick);
    if nick in w.server.nickPubkeys && w.server.nickPubkeys[nick] == worlds[i].server.nickPubkeys[nick] {
      a, c, s, d, b := BoundKeysWereProved(env, powBits, steps, worlds, i - 1, nick);
    } else {
      a, b := step.a, i - 1;
      c, s, d := HelloBindHistory(env, powBits, steps, worlds, i - 1, a);
    }
  }

  // ------------------------------------------------------------------
  // The difficulty in force when a nick is bound
  // ------------------------------------------------------------------

  /** POW_SET's last section runs at step `k`. */
  predicate SetsPow(steps: seq<Step>, worlds: seq<World>, k: nat)
    requires |worlds| == |steps| + 1 && k < |steps|
  {
    steps[k].Continue? && steps[k].a in worlds[k].conns && worlds[k].conns[steps[k].a].PowWrite?
  }

  lemma PowStep(env: Env, w: World, step: Step)
    requires Enabled(w, step)
    ensures Apply(env, w, step).server.powBits ==
      if step.Continue? && w.conns[step.a].PowWrite? then w.conns[step.a].bits else w.server.powBits
  {}

  /** The last POW_SET from one moment of a run up to another, if there is one. */
  function LastSet(steps: seq<Step>, worlds: seq<World>, d: nat, b: nat): (k: Option<nat>)
    requires |worlds| == |steps| + 1 && d <= b <= |steps|
    ensures k.None? ==> forall m | d <= m < b :: !SetsPow(steps, worlds, m)
    ensures k.Some? ==> d <= k.value < b && SetsPow(steps, worlds, k.value)
    ensures k.Some? ==> forall m | k.value < m < b :: !SetsPow(steps, worlds, m)
  {
    if d == b then None else if SetsPow(steps, worlds, b - 1) then Some(b - 1) else LastSet(steps, worlds, d, b - 1)
  }

  lemma {:induction false} PowInForce(env: Env, powBits: nat, steps: seq<Step>, worlds: seq<World>, d: nat, b: nat)
    requires IsRun(env, powBits, steps, worlds) && d <= b <= |steps|
    ensures worlds[b].server.powBits ==
      match LastSet(steps, worlds, d, b)
      case None => worlds[d].server.powBits
      case Some(k) => worlds[k].conns[steps[k].a].bits
  {
    if d < b {
      assert StepAt(env, steps, worlds, b - 1);
      PowStep(env, worlds[b - 1], steps[b - 1]);
      PowInForce(env, powBits, steps, worlds, d, b - 1);
    }
  }

  /** A nick that is bound meets the difficulty then in force exactly when no POW_SET
      section ran between HELLO's check and its binding, or the last one that did set no
      more bits than the nick's hash has. */
  lemma BindingMeetsDifficultyIff(
      env: Env, powBits: nat, steps: seq<Step>, worlds: seq<World>, a: Addr, nick: string, pubkey: string,
      c: nat, s: nat, d: nat, b: nat)
    requires IsRun(env, powBits, steps, worlds)
    requires Binds(env, steps, worlds, a, nick, pubkey, c, s, d, b)
    ensures Pow.CheckDifficulty(env.sha, nick, pubkey, worlds[b].server.powBits) <==>
      match LastSet(steps, worlds, d, b)
      case None => true
      case Some(k) => worlds[k].conns[steps[k].a].bits <= Pow.ZeroBitsU8(env.sha(nick, pubkey))
  {
    PowInForce(env, powBits, steps, worlds, d, b);
  }

  lemma LoneClientAdmits(s: State, a: Addr, b: Addr)
    requires s.clients.Keys == {a}
    ensures Admits(s, b)
  {
    assert |s.clients| == |s.clients.Keys|;
    var near := ClientsAt(s.clients, b.ip);
    assert near == {} || near == {a};
  }

  /** A newcomer connects and takes a free nick. */
  lemma EnterRun(env: Env, powBits: nat, steps: seq<Step>, worlds: seq<World>, a: Addr, nick: string)
    returns (steps': seq<Step>, worlds': seq<World>)
    requires IsRun(env, powBits, steps, worlds)
    requires var w := worlds[|steps|];
      a !in w.conns && Admits(w.server, a) && nick !in w.server.nickPubkeys
    ensures IsRun(env, powBits, steps', worlds')
    ensures var w := worlds[|steps|];
      worlds'[|steps'|] == w.(
        server := w.server.(clients := w.server.clients[a := NewClient(a).(nick := Some(nick))]),
        conns := w.conns[a := Ready])
  {
    steps', worlds' := ExtendRun(env, powBits, steps, worlds, Accept(a));
    steps', worlds' := ExtendRun(env, powBits, steps', worlds', Connected(a));
    steps', worlds' := ExtendRun(env, powBits, steps', worlds', NickCommand(a, nick));
    assert worlds'[|steps'|].conns == worlds[|steps|].conns[a := Ready];
    assert worlds'[|steps'|].server.clients == worlds[|steps|].server.clients[a := NewClient(a).(nick := Some(nick))];
  }

  /** HELLO passes its checks; nothing but the connection's own position changes. */
  lemma HelloRun(env: Env, powBits: nat, steps: seq<Step>, worlds: seq<World>, a: Addr, nick: string, key: string, sig: string)
    returns (steps': seq<Step>, worlds': seq<World>)
    requires IsRun(env, powBits, steps, worlds)
    requires var w := worlds[|steps|];
      && At(w, a, Ready) && HasNick(w.server.clients, a, nick) && env.verify(nick, key, sig)
      && Pow.CheckDifficulty(env.sha, nick, key, w.server.powBits)
    ensures IsRun(env, powBits, steps', worlds')
    ensures var w := worlds[|steps|];
      worlds'[|steps'|] == w.(conns := w.conns[a := HelloBind(nick, key)])
  {
    steps', worlds' := ExtendRun(env, powBits, steps, worlds, HelloCommand(a, nick, key, sig));
    steps', worlds' := ExtendRun(env, powBits, steps', worlds', Continue(a));
    steps', worlds' := ExtendRun(env, powBits, steps', worlds', Continue(a));
    assert worlds'[|steps'|].conns == worlds[|steps|].conns[a := HelloBind(nick, key)];
  }

  /** An authenticated client raises the difficulty while another is about to bind. */
  lemma RaiseRun(env: Env, powBits: nat, steps: seq<Step>, worlds: seq<World>, a: Addr, b: Addr, bits: nat)
    returns (steps': seq<Step>, worlds': seq<World>)
    requires IsRun(env, powBits, steps, worlds) && a != b && bits <= MAX_POW_BITS
    requires var w := worlds[|steps|];
      && At(w, a, Ready) && a in w.server.clients && w.server.clients[a].authenticated
      && b in w.conns && w.conns[b].HelloBind? && w.conns[b].nick !in w.server.nickPubkeys
    ensures IsRun(env, powBits, steps', worlds') && steps' != [] && steps'[|steps'| - 1] == Continue(b)
    ensures var before, after := worlds'[|steps'| - 1].server, worlds'[|steps'|].server;
      var nick, key := worlds[|steps|].conns[b].nick, worlds[|steps|].conns[b].pubkey;
      && before.powBits == bits && nick !in before.nickPubkeys
      && nick in after.nickPubkeys && after.nickPubkeys[nick] == key
  {
    var w := worlds[|steps|];
    steps', worlds' := ExtendRun(env, powBits, steps, worlds, PowSetCommand(a, Some(bits)));
    assert worlds'[|steps'|] == w.(conns := w.conns[a := PowWrite(bits)]);
    steps', worlds' := ExtendRun(env, powBits, steps', worlds', Continue(a));
    assert worlds'[|steps'|].server == SetPow(w.server, bits);
    ghost var before := worlds'[|steps'|];
    steps', worlds' := ExtendRun(env, powBits, steps', worlds', Continue(b));
    assert worlds'[|steps'| - 1] == before;
  }

  lemma AuthenticatedRun(env: Env, a: Addr, nick: string, key: string)
    returns (steps: seq<Step>, worlds: seq<World>)
    requires env.verify(nick, key, "")
    ensures IsRun(env, 0, steps, worlds)
    ensures var w := worlds[|steps|];
      && w.conns == map[a := Ready] && w.server.clients.Keys == {a} && w.server.clients[a].authenticated
      && w.server.nickPubkeys == map[nick := key] && w.server.powBits == 0
  {
    steps, worlds := EnterRun(env, 0, [], [Init(0)], a, nick);
    steps, worlds := HelloRun(env, 0, steps, worlds, a, nick, key, "");
    steps, worlds := ExtendRun(env, 0, steps, worlds, Continue(a));
  }

  const WEAK_HASH: seq<Bytes.byte> := seq(32, _ => 255)

  /** "At that or an earlier moment" cannot be replaced by "when the nick is bound":
      a difficulty raised between HELLO's check and its binding does not stop it. */
  lemma DifficultyMayRiseBeforeBinding(a: Addr, b: Addr, nickA: string, nickB: string, key: string)
    returns (env: Env, steps: seq<Step>, worlds: seq<World>)
    requires a != b && nickA != nickB
    ensures IsRun(env, 0, steps, worlds) && steps != [] && steps[|steps| - 1] == Continue(b)
    ensures var before, after := worlds[|steps| - 1].server, worlds[|steps|].server;
      && nickB !in before.nickPubkeys
      && nickB in after.nickPubkeys && after.nickPubkeys[nickB] == key
      && !Pow.CheckDifficulty(env.sha, nickB, key, before.powBits)
  {
    env := Env((_, _, _) => true, (_, _) => WEAK_HASH);
    steps, worlds := AuthenticatedRun(env, a, nickA, key);
    LoneClientAdmits(worlds[|steps|].server, a, b);
    steps, worlds := EnterRun(env, 0, steps, worlds, b, nickB);
    steps, worlds := HelloRun(env, 0, steps, worlds, b, nickB, key, "");
    steps, worlds := RaiseRun(env, 0, steps, worlds, a, b, 1);
  }

  // ------------------------------------------------------------------
  // Channel membership and cleanup
  // ------------------------------------------------------------------

  predicate Nowhere(s: State, a: Addr) {
    a !in s.clients && forall ch :: ch in s.channels ==> a !in s.channels[ch]
  }

  /** Up to world `i` no address registered while it was on a channel. */
  ghost predicate NoMemberRegistered(steps: seq<Step>, worlds: seq<World>, i: nat)
    requires |worlds| == |steps| + 1 && i <= |steps|
  {
    forall j | 0 <= j < i :: !RegistersMember(worlds[j], steps[j])
  }

  /** In every run each channel member is a registered client with a nick, exactly up to
      the first registration of an address that is already on a channel. */
  lemma {:induction false} MembersAreClientsIff(
      env: Env, powBits: nat, steps: seq<Step>, worlds: seq<World>, i: nat)
    requires IsRun(env, powBits, steps, worlds) && i <= |steps|
    ensures (forall j | 0 <= j <= i :: MembersAreClients(worlds[j].server)) <==> NoMemberRegistered(steps, worlds, i)
  {
    if i > 0 {
      MembersAreClientsIff(env, powBits, steps, worlds, i - 1);
      InvAlong(env, powBits, steps, worlds, i - 1);
      assert StepAt(env, steps, worlds, i - 1);
      if NoMemberRegistered(steps, worlds, i - 1) {
        assert MembersAreClients(worlds[i - 1].server);
        MembershipStep(env, worlds[i - 1], steps[i - 1]);
      }
    }
  }

  /** The first such registration needs an earlier read error on that address. */
  lemma MemberRegisteredNeedsReadError(
      env: Env, powBits: nat, steps: seq<Step>, worlds: seq<World>, i: nat)
    returns (k: nat)
    requires IsRun(env, powBits, steps, worlds) && i < |steps|
    requires NoMemberRegistered(steps, worlds, i) && RegistersMember(worlds[i], steps[i])
    ensures k < i && steps[k] == ReadError(steps[i].a)
  {
    InvAlong(env, powBits, steps, worlds, i);
    MembersAreClientsIff(env, powBits, steps, worlds, i);
    assert StepAt(env, steps, worlds, i);
    assert MembersAreClients(worlds[i].server);
    var ch :| ch in worlds[i].server.channels && steps[i].a in worlds[i].server.channels[ch];
    assert HasSomeNick(worlds[i].server.clients, steps[i].a);
    k := AbortedByReadError(env, powBits, steps, worlds, i, steps[i].a);
  }

  lemma {:induction false} AbortedByReadError(
      env: Env, powBits: nat, steps: seq<Step>, worlds: seq<World>, i: nat, a: Addr)
    returns (k: nat)
    requires IsRun(env, powBits, steps, worlds) && i <= |steps| && a in worlds[i].aborted
    ensures k < i && steps[k] == ReadError(a)
  {
    assert StepAt(env, steps, worlds, i - 1);
    if a in worlds[i - 1].aborted {
      k := AbortedByReadError(env, powBits, steps, worlds, i - 1, a);
    } else {
      k := i - 1;
    }
  }

  /** After cleanup the address is in no table, even when the channel sweep was skipped. */
  lemma CleanupLeavesNoTrace(
      env: Env, powBits: nat, steps: seq<Step>, worlds: seq<World>, i: nat, a: Addr)
    requires IsRun(env, powBits, steps, worlds) && i < |steps|
    requires steps[i] == Close(a) && NoMemberRegistered(steps, worlds, i)
    ensures Nowhere(worlds[i + 1].server, a)
  {
    MembersAreClientsIff(env, powBits, steps, worlds, i);
    InvAlong(env, powBits, steps, worlds, i);
    assert StepAt(env, steps, worlds, i);
    var s := worlds[i].server;
    assert MembersAreClients(s);
    forall ch | ch in s.channels && s.clients[a].nick.None?
      ensures a !in s.channels[ch]
    {
      assert !HasSomeNick(s.clients, a);
    }
    CleanupResidue(s, a);
  }

  /** Without the run: cleanup leaves an address behind on a channel exactly when it
      was on one and its client has no nick. */
  lemma CleanupResidue(s: State, a: Addr)
    requires a in s.clients
    ensures Nowhere(Cleanup(s, a), a) <==> s.clients[a].nick.Some? || Nowhere(s.(clients := map[]), a)
  {
    var s' := Cleanup(s, a);
    assert s.clients[a].nick.Some? ==> s'.channels == Leave(s.channels, a);
    assert s.clients[a].nick.None? ==> s'.channels == s.channels;
  }

  lemma JoinedClientRun(env: Env, powBits: nat, a: Addr, nick: string, ch: string)
    returns (steps: seq<Step>, worlds: seq<World>)
    ensures IsRun(env, powBits, steps, worlds)
    ensures JoinedAlone(worlds[|steps|], a, ch)
  {
    steps, worlds := EnterRun(env, powBits, [], [Init(powBits)], a, nick);
    JoinSteps(env, worlds[|steps|], a, nick, ch);
    steps, worlds := ExtendRun(env, powBits, steps, worlds, JoinCommand(a, ch));
    steps, worlds := ExtendRun(env, powBits, steps, worlds, Continue(a));
  }

  lemma JoinAlone(s: State, a: Addr, nick: string, ch: string)
    requires s.clients.Keys == {a} && s.channels == map[]
    ensures var s' := JoinChannel(s, a, ch, nick); s'.clients.Keys == {a} && s'.channels == map[ch := {a}]
  {
    assert Members(s.channels, ch) + {a} == {a};
  }

  lemma JoinSteps(env: Env, w: World, a: Addr, nick: string, ch: string)
    requires w.conns == map[a := Ready] && w.server.clients == map[a := NewClient(a).(nick := Some(nick))]
    requires w.server.channels == map[]
    ensures Enabled(w, JoinCommand(a, ch))
    ensures var w' := Apply(env, w, JoinCommand(a, ch));
      Enabled(w', Continue(a)) && JoinedAlone(Apply(env, w', Continue(a)), a, ch)
  {
    var w' := Apply(env, w, JoinCommand(a, ch));
    assert w'.conns == map[a := JoinWrite(ch, nick)] && w'.server == w.server;
    JoinAlone(w.server, a, nick, ch);
    JoinContinues(env, w', a, nick, ch);
  }

  lemma JoinContinues(env: Env, w: World, a: Addr, nick: string, ch: string)
    requires w.conns == map[a := JoinWrite(ch, nick)] && a in w.server.clients
    ensures Enabled(w, Continue(a))
    ensures var w' := Apply(env, w, Continue(a));
      w'.conns == map[a := Ready] && w'.server == JoinChannel(w.server, a, ch, nick)
  {
    assert ServerAfter(env, w, Continue(a)) == JoinChannel(w.server, a, ch, nick);
    assert PcAfter(env, w, Continue(a)) == Ready;
    assert w.conns[a := Ready] == map[a := Ready];
  }

  predicate JoinedAlone(w: World, a: Addr, ch: string) {
    w.conns == map[a := Ready] && w.server.clients.Keys == {a} && w.server.channels == map[ch := {a}]
  }

  /** The exception is real: a client on a channel whose read loop fails keeps its
      place there; if a connection from the same address later opens and closes, the
      address stays on the channel with no client behind it. */
  lemma ReadErrorLeavesMember(env: Env, powBits: nat, a: Addr, nick: string, ch: string)
    returns (steps: seq<Step>, worlds: seq<World>)
    ensures IsRun(env, powBits, steps, worlds) && steps != [] && steps[|steps| - 1] == Close(a)
    ensures var s := worlds[|steps|].server;
      a !in s.clients && ch in s.channels && a in s.channels[ch]
  {
    steps, worlds := JoinedClientRun(env, powBits, a, nick, ch);
    var s := worlds[|steps|].server;
    LoneClientAdmits(s, a, a);
    steps, worlds := ExtendRun(env, powBits, steps, worlds, ReadError(a));
    steps, worlds := ExtendRun(env, powBits, steps, worlds, Accept(a));
    steps, worlds := ExtendRun(env, powBits, steps, worlds, Connected(a));
    steps, worlds := ExtendRun(env, powBits, steps, worlds, Close(a));
  }

  // ------------------------------------------------------------------
  // Who hears of a departure and of a key
  // ------------------------------------------------------------------

  /** The step added exactly `lines` to a client's queue. */
  predicate Received(s: State, s': State, b: Addr, lines: seq<Line>)
    requires b in s.clients && b in s'.clients
  {
    s'.clients[b].queue == s.clients[b].queue + lines
  }

  lemma SharersAreClients(s: State, a: Addr, b: Addr)
    requires MembersAreClients(s)
    ensures Share(s.channels, a, b) ==> HasSomeNick(s.clients, a) && HasSomeNick(s.clients, b)
  {
  }

  /** On cleanup every other registered client gets one QUIT if it shares a channel
      with the leaver, however many they share, and nothing otherwise; and everyone
      sharing a channel is registered to get it. */
  lemma QuitReachesExactlySharers(
      env: Env, powBits: nat, steps: seq<Step>, worlds: seq<World>, i: nat, a: Addr, b: Addr)
    requires IsRun(env, powBits, steps, worlds) && i < |steps|
    requires steps[i] == Close(a) && b != a
    requires NoMemberRegistered(steps, worlds, i)
    ensures var s, s' := worlds[i].server, worlds[i + 1].server;
      && a in s.clients
      && (b in s.clients <==> b in s'.clients)
      && (Share(s.channels, a, b) ==> b in s.clients && s.clients[a].nick.Some?)
      && (b in s.clients ==>
            Received(s, s', b, if Share(s.channels, a, b) then [Quit(s.clients[a].NickOrEmpty())] else []))
  {
    InvAlong(env, powBits, steps, worlds, i);
    MembersAreClientsIff(env, powBits, steps, worlds, i);
    assert StepAt(env, steps, worlds, i);
    SharersAreClients(worlds[i].server, a, b);
  }

  /** When HELLO binds, every other client sharing a channel gets one VOIRC_PUBKEY,
      the client itself gets the acknowledgement, and nobody else gets anything. */
  lemma PubkeyReachesExactlySharers(
      env: Env, powBits: nat, steps: seq<Step>, worlds: seq<World>, i: nat, a: Addr, b: Addr)
    requires IsRun(env, powBits, steps, worlds) && i < |steps|
    requires steps[i] == Continue(a) && a in worlds[i].conns && worlds[i].conns[a].HelloBind?
    requires NoMemberRegistered(steps, worlds, i)
    ensures var s, s' := worlds[i].server, worlds[i + 1].server;
      var nick, key := worlds[i].conns[a].nick, worlds[i].conns[a].pubkey;
      var bound := nick in s'.nickPubkeys && s'.nickPubkeys[nick] == key;
      && (b != a && Share(s.channels, a, b) ==> b in s.clients)
      && s'.clients.Keys == s.clients.Keys
      && (b != a && b in s.clients ==>
            Received(s, s', b, if bound && Share(s.channels, a, b) then [Pubkey(nick, key)] else []))
      && (b == a && bound ==>
            && b in s'.clients && s'.clients[b].pubkey == Some(key) && s'.clients[b].authenticated
            && Received(s, s', b, [HelloOk(nick, Pow.ZeroBitsU8(env.sha(nick, key)))]))
      && (!bound ==> nick in s.nickPubkeys && s.nickPubkeys[nick] != key)
  {
    InvAlong(env, powBits, steps, worlds, i);
    MembersAreClientsIff(env, powBits, steps, worlds, i);
    assert StepAt(env, steps, worlds, i);
    SharersAreClients(worlds[i].server, a, b);
  }

  // ------------------------------------------------------------------
  // A bound nick stays bound
  // ------------------------------------------------------------------

  /** A connection currently using the nick runs cleanup. */
  predicate HolderCloses(w: World, step: Step, nick: string) {
    step.Close? && HasNick(w.server.clients, step.a, nick)
  }

  lemma BindingStep(env: Env, w: World, step: Step, nick: string)
    requires Enabled(w, step) && nick in w.server.nickPubkeys
    ensures var s' := Apply(env, w, step).server;
      HolderCloses(w, step, nick) <==> !(nick in s'.nickPubkeys && s'.nickPubkeys[nick] == w.server.nickPubkeys[nick])
  {
    if !step.Close? && !(step.Continue? && w.conns[step.a].HelloBind?) {
      KeepsBindings(env, w, step);
    } else if step.Close? {
      CleanupBindings(w.server, step.a, nick);
    } else {
      var pc := w.conns[step.a];
      BindBindings(w.server, step.a, pc.nick, pc.pubkey, Pow.ZeroBitsU8(env.sha(pc.nick, pc.pubkey)), nick);
    }
  }

  lemma KeepsBindings(env: Env, w: World, step: Step)
    requires Enabled(w, step) && !step.Close? && !(step.Continue? && w.conns[step.a].HelloBind?)
    ensures Apply(env, w, step).server.nickPubkeys == w.server.nickPubkeys
  {
    if step.Continue? {
      SectionKeepsBindings(env, w, step.a);
    }
  }

  lemma SectionKeepsBindings(env: Env, w: World, a: Addr)
    requires a in w.conns && !w.conns[a].HelloBind?
    ensures ServerAfter(env, w, Continue(a)).nickPubkeys == w.server.nickPubkeys
  {
  }

  lemma CleanupBindings(s: State, a: Addr, nick: string)
    requires nick in s.nickPubkeys
    ensures var s' := Cleanup(s, a);
      if HasNick(s.clients, a, nick) then nick !in s'.nickPubkeys
      else nick in s'.nickPubkeys && s'.nickPubkeys[nick] == s.nickPubkeys[nick]
  {
  }

  lemma BindBindings(s: State, a: Addr, n: string, key: string, bits: nat, nick: string)
    requires nick in s.nickPubkeys
    ensures var s' := BindHello(s, a, n, key, bits);
      nick in s'.nickPubkeys && s'.nickPubkeys[nick] == s.nickPubkeys[nick]
  {
  }

  /** From the moment a nick is bound until a connection using it disconnects, it
      stays bound to that key. */
  lemma {:induction false} BoundNickStays(
      env: Env, powBits: nat, steps: seq<Step>, worlds: seq<World>, i: nat, j: nat, nick: string)
    requires IsRun(env, powBits, steps, worlds) && i <= j <= |steps|
    requires nick in worlds[i].server.nickPubkeys
    requires forall k | i <= k < j :: !HolderCloses(worlds[k], steps[k], nick)
    ensures nick in worlds[j].server.nickPubkeys
    ensures worlds[j].server.nickPubkeys[nick] == worlds[i].server.nickPubkeys[nick]
  {
    if i < j {
      BoundNickStays(env, powBits, steps, worlds, i, j - 1, nick);
      assert StepAt(env, steps, worlds, j - 1);
      BindingStep(env, worlds[j - 1], steps[j - 1], nick);
    }
  }

  /** Meanwhile a client that does not use the nick yet comes to use it by one step
      only: its own NICK, holding the bound key. */
  lemma BoundNickTakenOnlyByKeyHolder(
      env: Env, powBits: nat, steps: seq<Step>, worlds: seq<World>, i: nat, j: nat, nick: string, a: Addr)
    requires IsRun(env, powBits, steps, worlds) && i <= j < |steps|
    requires nick in worlds[i].server.nickPubkeys
    requires forall k | i <= k < j :: !HolderCloses(worlds[k], steps[k], nick)
    ensures var c, c' := worlds[j].server.clients, worlds[j + 1].server.clients;
      !HasNick(c, a, nick) ==>
        (HasNick(c', a, nick) <==>
           steps[j] == NickCommand(a, nick) && a in c
           && c[a].pubkey == Some(worlds[i].server.nickPubkeys[nick]))
  {
    BoundNickStays(env, powBits, steps, worlds, i, j, nick);
    InvAlong(env, powBits, steps, worlds, j);
    var w, step := worlds[j], steps[j];
    assert StepAt(env, steps, worlds, j);
    if a != step.a {
      OthersKeepIdentity(env, w, step, a);
    } else if a in w.server.clients && !step.NickCommand? && !step.Close? && !step.Connected? {
      ActorKeepsNick(env, w, step);
    }
  }
}
