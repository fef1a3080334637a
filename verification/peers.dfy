/** What a client keeps about its peers: their roles and the keys it trusts. */
module Peers {
  import opened Text

  datatype Role = Host | Mod | Peer {
    predicate IsSuperpeer() { Host? || Mod? }
  }

  datatype ConnState = Connecting | Connected | NatIssue | Relayed | Failed

  datatype PeerState = PeerState(nickname: string, connected: bool, speaking: bool, role: Role, connState: ConnState)

  datatype Data = Data(states: map<string, PeerState>, keys: map<string, string>) {
    /** `get_peer_role`: an unknown peer counts as a regular one. */
    function RoleOf(nick: string): Role {
      if nick in states then states[nick].role else Peer
    }

    /** `pubkey_for_nick` */
    function KeyOf(nick: string): Option<string> {
      if nick in keys then Some(keys[nick]) else None
    }

    ghost predicate NamesMatch() {
      forall nick :: nick in states ==> states[nick].nickname == nick
    }
  }

  datatype Op =
    | Register(nick: string, key: string)
    | Remove(nick: string)
    | Clear
    | SetRole(nick: string, role: Role)
    | Update(nick: string, connected: bool, speaking: bool)
    | SetConnecting(nick: string)
    | SetConnState(nick: string, connState: ConnState)

  function Fresh(nick: string, role: Role): PeerState { PeerState(nick, false, false, role, Connecting) }

  /** A key is taken unless the nick is known under another one. */
  predicate Accepts(d: Data, nick: string, key: string) { nick in d.keys ==> d.keys[nick] == key }

  function After(d: Data, op: Op): Data {
    match op
    case Register(nick, key) => if Accepts(d, nick, key) then d.(keys := d.keys[nick := key]) else d
    case Remove(nick) => Data(d.states - {nick}, d.keys - {nick})
    case Clear => Data(map[], map[])
    case SetRole(nick, role) =>
      d.(states := d.states[nick := if nick in d.states then d.states[nick].(role := role) else Fresh(nick, role)])
    case Update(nick, connected, speaking) =>
      var before := if nick in d.states then d.states[nick] else Fresh(nick, Peer);
      d.(states := d.states[nick := PeerState(nick, connected, speaking, before.role,
                                              if connected then Connected else before.connState)])
    case SetConnecting(nick) =>
      d.(states := d.states[nick := if nick in d.states then d.states[nick].(connState := Connecting) else Fresh(nick, Peer)])
    case SetConnState(nick, connState) =>
      if nick in d.states then
        d.(states := d.states[nick := d.states[nick].(connState := connState,
                                                      connected := d.states[nick].connected || connState == Connected)])
      else d
  }

  class AppState {
    var states: map<string, PeerState>
    var keys: map<string, string>

    function Now(): Data
      reads this
    {
      Data(states, keys)
    }

    constructor ()
      ensures Now() == Data(map[], map[])
    {
      states, keys := map[], map[];
    }

    method RegisterPeerPubkey(nick: string, key: string) returns (accepted: bool)
      modifies this`keys
      ensures Now() == After(old(Now()), Register(nick, key))
      ensures accepted <==> Accepts(old(Now()), nick, key)
    {
      if nick in keys {
        if keys[nick] != key {
          return false;
        }
      }
      keys := keys[nick := key];
      accepted := true;
    }

    method RemovePeer(nick: string)
      modifies this
      ensures Now() == After(old(Now()), Remove(nick))
    {
      states := states - {nick};
      keys := keys - {nick};
    }

    method ClearPeers()
      modifies this
      ensures Now() == After(old(Now()), Clear)
    {
      states := map[];
      keys := map[];
    }

    method SetPeerRole(nick: string, role: Role)
      modifies this`states
      ensures Now() == After(old(Now()), SetRole(nick, role))
    {
      if nick in states {
        states := states[nick := states[nick].(role := role)];
      } else {
        states := states[nick := PeerState(nick, false, false, role, Connecting)];
      }
    }

    method UpdatePeerState(nick: string, connected: bool, speaking: bool)
      modifies this`states
      ensures Now() == After(old(Now()), Update(nick, connected, speaking))
    {
      var role, connState := Peer, Connecting;
      if nick in states {
        role, connState := states[nick].role, states[nick].connState;
      }
      if connected {
        connState := Connected;
      }
      states := states[nick := PeerState(nick, connected, speaking, role, connState)];
    }

    method SetPeerConnecting(nick: string)
      modifies this`states
      ensures Now() == After(old(Now()), SetConnecting(nick))
    {
      if nick in states {
        states := states[nick := states[nick].(connState := Connecting)];
      } else {
        states := states[nick := PeerState(nick, false, false, Peer, Connecting)];
      }
    }

    method SetPeerConnState(nick: string, connState: ConnState)
      modifies this`states
      ensures Now() == After(old(Now()), SetConnState(nick, connState))
    {
      if nick in states {
        states := states[nick := states[nick].(connState := connState)];
        if connState == Connected {
          states := states[nick := states[nick].(connected := true)];
        }
      }
    }

    /** Whose names to connect to: every known peer that is host or moderator, once. */
    method AllSuperpeers() returns (names: seq<string>)
      requires Now().NamesMatch()
      ensures forall n :: n in names <==> n in states && (states[n].role == Host || states[n].role == Mod)
      ensures forall i, j :: 0 <= i < j < |names| ==> names[i] != names[j]
    {
      names := [];
      var todo := states.Keys;
      while todo != {}
        invariant todo <= states.Keys
        invariant forall n :: n in names <==> n in states && n !in todo && states[n].role.IsSuperpeer()
        invariant forall i, j :: 0 <= i < j < |names| ==> names[i] != names[j]
      {
        var nick :| nick in todo;
        if states[nick].role.IsSuperpeer() {
          names := names + [states[nick].nickname];
        }
        todo := todo - {nick};
      }
    }
  }

  // ------------------------------------------------------------------
  // Whole histories
  // ------------------------------------------------------------------

  function Replay(ops: seq<Op>): Data {
    if ops == [] then Data(map[], map[]) else After(Replay(ops[..|ops| - 1]), ops[|ops| - 1])
  }

  /** Every update is what one of the methods does. */
  method Perform(state: AppState, op: Op)
    modifies state
    ensures state.Now() == After(old(state.Now()), op)
  {
    match op {
      case Register(nick, key) => var _ := state.RegisterPeerPubkey(nick, key);
      case Remove(nick) => state.RemovePeer(nick);
      case Clear => state.ClearPeers();
      case SetRole(nick, role) => state.SetPeerRole(nick, role);
      case Update(nick, connected, speaking) => state.UpdatePeerState(nick, connected, speaking);
      case SetConnecting(nick) => state.SetPeerConnecting(nick);
      case SetConnState(nick, connState) => state.SetPeerConnState(nick, connState);
    }
  }

  /** And a history of them leaves what replaying it says. */
  method PerformAll(ops: seq<Op>) returns (state: AppState)
    ensures fresh(state) && state.Now() == Replay(ops)
  {
    state := new AppState();
    for i := 0 to |ops|
      invariant fresh(state) && state.Now() == Replay(ops[..i])
    {
      assert ops[..i + 1][..i] == ops[..i];
      Perform(state, ops[i]);
    }
    assert ops[..|ops|] == ops;
  }

  lemma {:induction false} NamesAlwaysMatch(ops: seq<Op>)
    ensures Replay(ops).NamesMatch()
  {
    if ops != [] {
      NamesAlwaysMatch(ops[..|ops| - 1]);
    }
  }

  predicate Forgets(op: Op, nick: string) { op.Clear? || op == Remove(nick) }

  predicate RegistersFor(op: Op, nick: string) { op.Register? && op.nick == nick }

  /** The key of the first registration for a nick since it was last removed. */
  function FirstKey(ops: seq<Op>, nick: string): Option<string> {
    if ops == [] then None
    else
      var op := ops[|ops| - 1];
      if Forgets(op, nick) then None
      else
        match FirstKey(ops[..|ops| - 1], nick)
        case Some(key) => Some(key)
        case None => if RegistersFor(op, nick) then Some(op.key) else None
  }

  /** After any history a nick's key is the first one registered since its last removal. */
  lemma {:induction false} KeyIsFirst(ops: seq<Op>, nick: string)
    ensures Replay(ops).KeyOf(nick) == FirstKey(ops, nick)
  {
    if ops != [] {
      KeyIsFirst(ops[..|ops| - 1], nick);
    }
  }

  /** Between removals a nick's key never changes, and exactly the registrations that
      repeat it are accepted. */
  lemma {:induction false} KeyStays(ops: seq<Op>, more: seq<Op>, nick: string, key: string)
    requires Replay(ops).KeyOf(nick) == Some(key)
    requires forall op :: op in more ==> !Forgets(op, nick)
    ensures Replay(ops + more).KeyOf(nick) == Some(key)
    ensures forall other :: Accepts(Replay(ops + more), nick, other) <==> other == key
    decreases |more|
  {
    if more == [] {
      assert ops + more == ops;
    } else {
      var before, last := more[..|more| - 1], more[|more| - 1];
      KeyStays(ops, before, nick, key);
      assert (ops + more)[..|ops + more| - 1] == ops + before;
      assert last in more;
    }
  }

  /** A removed nick is free again: any key is accepted. */
  lemma RemovedIsFree(ops: seq<Op>, nick: string, key: string, op: Op)
    requires Forgets(op, nick)
    ensures Replay(ops + [op]).KeyOf(nick) == None && Accepts(Replay(ops + [op]), nick, key)
    ensures Replay(ops + [op]).RoleOf(nick) == Peer
  {
    assert (ops + [op])[..|ops|] == ops;
  }

  /** The role last set for a nick since its last removal. */
  function LastRole(ops: seq<Op>, nick: string): Role {
    if ops == [] then Peer
    else
      var op := ops[|ops| - 1];
      if Forgets(op, nick) then Peer
      else if op.SetRole? && op.nick == nick then op.role
      else LastRole(ops[..|ops| - 1], nick)
  }

  /** After any history a peer's role is the one last set; no other update touches it. */
  lemma {:induction false} RoleIsLastSet(ops: seq<Op>, nick: string)
    ensures Replay(ops).RoleOf(nick) == LastRole(ops, nick)
  {
    if ops != [] {
      RoleIsLastSet(ops[..|ops| - 1], nick);
    }
  }

  /** The updates that make a peer known. */
  predicate Introduces(op: Op, nick: string) {
    match op
    case SetRole(n, _) => n == nick
    case Update(n, _, _) => n == nick
    case SetConnecting(n) => n == nick
    case _ => false
  }

  ghost predicate IntroducedAt(ops: seq<Op>, nick: string, k: nat) {
    k < |ops| && Introduces(ops[k], nick) && forall j :: k < j < |ops| ==> !Forgets(ops[j], nick)
  }

  /** After any history a peer is known exactly when it was introduced and not forgotten
      since. */
  lemma {:induction false} KnownIff(ops: seq<Op>, nick: string)
    ensures nick in Replay(ops).states <==> exists k :: IntroducedAt(ops, nick, k)
  {
    if ops != [] {
      var n := |ops| - 1;
      KnownIff(ops[..n], nick);
      if k :| IntroducedAt(ops[..n], nick, k) {
        assert !Forgets(ops[n], nick) ==> IntroducedAt(ops, nick, k);
      }
      if k :| IntroducedAt(ops, nick, k) {
        assert k == n || (IntroducedAt(ops[..n], nick, k) && !Forgets(ops[n], nick));
      }
      assert Introduces(ops[n], nick) ==> IntroducedAt(ops, nick, n);
    }
  }

  /** The connection state an update shows of a known peer, if any. */
  function Shows(op: Op, nick: string): Option<ConnState> {
    match op
    case Update(n, connected, _) => if n == nick && connected then Some(Connected) else None
    case SetConnecting(n) => if n == nick then Some(Connecting) else None
    case SetConnState(n, connState) => if n == nick then Some(connState) else None
    case _ => None
  }

  /** Whether an update says that a known peer is connected, if it says so or not. */
  function Says(op: Op, nick: string): Option<bool> {
    match op
    case Update(n, connected, _) => if n == nick then Some(connected) else None
    case SetConnState(n, connState) => if n == nick && connState == Connected then Some(true) else None
    case _ => None
  }

  function Speaks(op: Op, nick: string): Option<bool> {
    if op.Update? && op.nick == nick then Some(op.speaking) else None
  }

  /** The last answer to a question among some updates since the peer became known. */
  function LastSince<A>(ops: seq<Op>, nick: string, answer: Op -> Option<A>, start: A): A {
    if ops == [] then start
    else
      var n := |ops| - 1;
      if nick !in Replay(ops).states then start
      else if answer(ops[n]).Some? then answer(ops[n]).value
      else LastSince(ops[..n], nick, answer, start)
  }

  /** After any history a known peer shows the connection state last shown since it became
      known, and counts as connected or speaking if it was last said to be so: a peer that
      is no longer connected goes on showing `Connected` until something else is shown. */
  lemma {:induction false} StatusIsLast(ops: seq<Op>, nick: string)
    requires nick in Replay(ops).states
    ensures var peer := Replay(ops).states[nick];
      && peer.connState == LastSince(ops, nick, (op: Op) => Shows(op, nick), Connecting)
      && peer.connected == LastSince(ops, nick, (op: Op) => Says(op, nick), false)
      && peer.speaking == LastSince(ops, nick, (op: Op) => Speaks(op, nick), false)
  {
    var before := Replay(ops[..|ops| - 1]);
    if nick in before.states {
      StatusIsLast(ops[..|ops| - 1], nick);
    }
    StatusStep(before, ops[|ops| - 1], nick);
  }

  lemma StatusStep(d: Data, op: Op, nick: string)
    requires nick in After(d, op).states
    ensures var (peer, before) := (After(d, op).states[nick], if nick in d.states then d.states[nick] else Fresh(nick, Peer));
      && peer.connState == (if Shows(op, nick).Some? then Shows(op, nick).value else before.connState)
      && peer.connected == (if Says(op, nick).Some? then Says(op, nick).value else before.connected)
      && peer.speaking == (if Speaks(op, nick).Some? then Speaks(op, nick).value else before.speaking)
  {
  }
}
