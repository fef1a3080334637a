/** The embedded IRC server's shared state and the sections that run under its
    lock. Each section is a function on states and a method of `ServerState`
    that updates the maps in place, as the source does, and computes it. */
module IrcServer {
  import opened Text
  import Pow

  const MAX_TOTAL_CLIENTS := 100
  const MAX_CLIENTS_PER_IP := 5

  datatype Addr = Addr(ip: nat, port: nat)

  /** Lines the server queues for a client; only what they carry is modelled. */
  datatype Line =
    | NickInUse(nick: string)
    | NickKeyMismatch(nick: string)
    | HelloFailed(nick: string, error: HelloError)
    | HelloOk(nick: string, bits: nat)
    | Pubkey(nick: string, pubkey: string)
    | PowSetFailed
    | PowRequired(bits: nat)
    | Privmsg(from: string, target: string, text: string)
    | Joined(nick: string, channel: string)
    | Names(nick: string, channel: string, names: map<Addr, string>)
    | EndOfNames(nick: string, channel: string)
    | Kicked(kicker: string, channel: string, target: string, reason: string)
    | Parted(nick: string, channel: string)
    | Quit(nick: string)

  datatype HelloError = Invalid | NickMismatch | PowTooWeak(required: nat)

  datatype Client = Client(
    nick: Option<string>,
    pubkey: Option<string>,
    authenticated: bool,
    ip: nat,
    queue: seq<Line>)
  {
    function NickOrEmpty(): string { if nick.Some? then nick.value else "" }

    function Enqueue(line: Line): Client { this.(queue := queue + [line]) }
  }

  /** Equal in everything but the queue. */
  predicate SameIdentity(c: Client, d: Client) {
    c.nick == d.nick && c.pubkey == d.pubkey && c.authenticated == d.authenticated && c.ip == d.ip
  }

  type Clients = map<Addr, Client>
  type Channels = map<string, set<Addr>>

  datatype State = State(
    clients: Clients,
    channels: Channels,
    nickPubkeys: map<string, string>,
    powBits: nat)

  function InitState(powBits: nat): State { State(map[], map[], map[], powBits) }

  function NewClient(addr: Addr): Client { Client(None, None, false, addr.ip, []) }

  // ------------------------------------------------------------------
  // Delivery
  // ------------------------------------------------------------------

  /** One `line` on the queue of every registered client in `targets`. */
  function Broadcast(clients: Clients, targets: set<Addr>, line: Line): (r: Clients)
    ensures r.Keys == clients.Keys
    ensures forall a :: a in clients ==> SameIdentity(r[a], clients[a])
  {
    map a | a in clients :: if a in targets then clients[a].Enqueue(line) else clients[a]
  }

  function Send(clients: Clients, to: Addr, line: Line): Clients { Broadcast(clients, {to}, line) }

  lemma BroadcastStep(clients: Clients, done: set<Addr>, a: Addr, line: Line)
    requires a !in done
    ensures Send(Broadcast(clients, done, line), a, line) == Broadcast(clients, done + {a}, line)
  {}

  predicate Share(channels: Channels, a: Addr, b: Addr) {
    exists ch :: ch in channels && a in channels[ch] && b in channels[ch]
  }

  /** Everybody else on a channel that `a` is on. */
  function Neighbours(channels: Channels, a: Addr): (r: set<Addr>)
    ensures forall b :: b in r <==> b != a && Share(channels, a, b)
  {
    set ch, b | ch in channels && a in channels[ch] && b in channels[ch] && b != a :: b
  }

  /** Registered in both states or in neither, and the same client in both: only its queue
      may differ. */
  predicate Undisturbed(s: State, s': State, b: Addr) {
    && (b in s.clients <==> b in s'.clients)
    && (b in s.clients && b in s'.clients ==> SameIdentity(s.clients[b], s'.clients[b]))
  }

  // ------------------------------------------------------------------
  // The sections as functions
  // ------------------------------------------------------------------

  function ClientsAt(clients: Clients, ip: nat): set<Addr> {
    set a | a in clients && clients[a].ip == ip
  }

  /** The check the accept loop makes before it spawns the connection. */
  predicate Admits(s: State, a: Addr) {
    |s.clients| < MAX_TOTAL_CLIENTS && |ClientsAt(s.clients, a.ip)| < MAX_CLIENTS_PER_IP
  }

  function Register(s: State, a: Addr): (r: State)
    ensures forall b :: b != a ==> Undisturbed(s, r, b)
  {
    s.(clients := s.clients[a := NewClient(a)])
  }

  function Leave(channels: Channels, a: Addr): Channels {
    map ch | ch in channels :: channels[ch] - {a}
  }

  /** The block after the read loop. Without a nick the channel sweep is skipped. */
  function Cleanup(s: State, a: Addr): (r: State)
    ensures forall b :: b != a ==> Undisturbed(s, r, b)
  {
    if a !in s.clients then s
    else if s.clients[a].nick.None? then s.(clients := s.clients - {a})
    else
      var nick := s.clients[a].nick.value;
      State(
        Broadcast(s.clients - {a}, Neighbours(s.channels, a), Quit(nick)),
        Leave(s.channels, a),
        s.nickPubkeys - {nick},
        s.powBits)
  }

  /** NICK is refused when the nick is bound to a key this client has not proved. */
  predicate NickAllowed(s: State, a: Addr, nick: string) {
    nick in s.nickPubkeys ==>
      a in s.clients && s.clients[a].pubkey == Some(s.nickPubkeys[nick])
  }

  function SetNick(s: State, a: Addr, nick: string): (r: State)
    ensures forall b :: b != a ==> Undisturbed(s, r, b)
  {
    if !NickAllowed(s, a, nick) then s.(clients := Send(s.clients, a, NickInUse(nick)))
    else if a in s.clients then s.(clients := s.clients[a := s.clients[a].(nick := Some(nick))])
    else s
  }

  predicate MutedSender(s: State, a: Addr) {
    && a in s.clients
    && s.clients[a].NickOrEmpty() != ""
    && s.clients[a].NickOrEmpty() in s.nickPubkeys
    && !s.clients[a].authenticated
  }

  predicate HasNick(clients: Clients, b: Addr, nick: string) {
    b in clients && clients[b].nick == Some(nick)
  }

  /** What a search of the client table for a nick may return: any holder, or
      nothing when there is none. Table order decides between several holders. */
  predicate FoundByNick(clients: Clients, nick: string, found: Option<Addr>) {
    match found
    case Some(b) => HasNick(clients, b, nick)
    case None => forall b :: b in clients ==> !HasNick(clients, b, nick)
  }

  function Sender(s: State, a: Addr): string {
    if a in s.clients then s.clients[a].NickOrEmpty() else ""
  }

  /** PRIVMSG: to the other members of a channel, else to one holder of the nick. */
  function Relay(s: State, a: Addr, target: string, text: string, found: Option<Addr>): (r: State)
    ensures forall b :: Undisturbed(s, r, b)
  {
    var line := Privmsg(Sender(s, a), target, text);
    if MutedSender(s, a) then s
    else if target in s.channels then
      s.(clients := Broadcast(s.clients, s.channels[target] - {a}, line))
    else if found.Some? then s.(clients := Send(s.clients, found.value, line))
    else s
  }

  function Members(channels: Channels, channel: string): set<Addr> {
    if channel in channels then channels[channel] else {}
  }

  function NamesOf(clients: Clients, members: set<Addr>): map<Addr, string> {
    map m | m in members && m in clients && clients[m].nick.Some? :: clients[m].nick.value
  }

  /** JOIN's second section, for a client that had a nick in the first. */
  function JoinChannel(s: State, a: Addr, channel: string, nick: string): (r: State)
    ensures forall b :: Undisturbed(s, r, b)
  {
    var members := Members(s.channels, channel) + {a};
    var announced := Broadcast(s.clients, members, Joined(nick, channel));
    var named := Send(announced, a, Names(nick, channel, NamesOf(s.clients, members)));
    s.(clients := Send(named, a, EndOfNames(nick, channel)), channels := s.channels[channel := members])
  }

  function Kick(s: State, a: Addr, channel: string, target: string, reason: string, found: Option<Addr>): (r: State)
    ensures forall b :: Undisturbed(s, r, b)
  {
    if a !in s.clients || !s.clients[a].authenticated || found.None? then s
    else
      var line := Kicked(s.clients[a].NickOrEmpty(), channel, target, reason);
      var told := Broadcast(s.clients, Members(s.channels, channel), line);
      if channel in s.channels then
        s.(clients := told, channels := s.channels[channel := s.channels[channel] - {found.value}])
      else s
  }

  function Part(s: State, a: Addr, channel: string): (r: State)
    ensures forall b :: Undisturbed(s, r, b)
  {
    if a !in s.clients || s.clients[a].nick.None? || channel !in s.channels then s
    else
      var line := Parted(s.clients[a].nick.value, channel);
      s.(clients := Broadcast(s.clients, s.channels[channel] - {a}, line),
         channels := s.channels[channel := s.channels[channel] - {a}])
  }

  /** HELLO is refused unless the client last sent NICK with the same nick. */
  function NickSection(s: State, a: Addr, nick: string): (r: State)
    ensures forall b :: Undisturbed(s, r, b)
  {
    if HasNick(s.clients, a, nick) then s else RefuseHello(s, a, nick, NickMismatch)
  }

  /** HELLO is refused when the nick is too weak for the difficulty now in force. */
  function PowSection(s: State, sha: Pow.NickHash, a: Addr, nick: string, pubkey: string): (r: State)
    ensures forall b :: Undisturbed(s, r, b)
  {
    if Pow.CheckDifficulty(sha, nick, pubkey, s.powBits) then s
    else RefuseHello(s, a, nick, PowTooWeak(s.powBits))
  }

  function RefuseHello(s: State, a: Addr, nick: string, error: HelloError): (r: State)
    ensures forall b :: Undisturbed(s, r, b)
  {
    s.(clients := Send(s.clients, a, HelloFailed(nick, error)))
  }

  /** HELLO's last section: bind the nick to the key, or refuse. */
  function BindHello(s: State, a: Addr, nick: string, pubkey: string, bits: nat): (r: State)
    ensures forall b :: b != a ==> Undisturbed(s, r, b)
    ensures a in s.clients ==> a in r.clients && r.clients[a].nick == s.clients[a].nick && r.clients[a].ip == s.clients[a].ip
  {
    if nick in s.nickPubkeys && s.nickPubkeys[nick] != pubkey then
      s.(clients := Send(s.clients, a, NickKeyMismatch(nick)))
    else
      var proved := if a in s.clients
                    then s.clients[a := s.clients[a].(pubkey := Some(pubkey), authenticated := true)]
                    else s.clients;
      var told := Send(proved, a, HelloOk(nick, bits));
      s.(nickPubkeys := s.nickPubkeys[nick := pubkey],
         clients := Broadcast(told, Neighbours(s.channels, a), Pubkey(nick, pubkey)))
  }

  function SetPow(s: State, bits: nat): (r: State)
    ensures forall b :: Undisturbed(s, r, b)
  {
    s.(powBits := bits, clients := Broadcast(s.clients, s.clients.Keys, PowRequired(bits)))
  }

  // ------------------------------------------------------------------
  // The state updated in place
  // ------------------------------------------------------------------

  class ServerState {
    var clients: Clients
    var channels: Channels
    var nickPubkeys: map<string, string>
    var powRequiredBits: nat

    function View(): State
      reads this
    {
      State(clients, channels, nickPubkeys, powRequiredBits)
    }

    constructor (powBits: nat)
      ensures View() == InitState(powBits)
    {
      clients, channels, nickPubkeys, powRequiredBits := map[], map[], map[], powBits;
    }

    method FindAddrByNick(nick: string) returns (found: Option<Addr>)
      ensures FoundByNick(clients, nick, found)
    {
      var todo := clients.Keys;
      while todo != {}
        invariant todo <= clients.Keys
        invariant forall b :: b in clients && b !in todo ==> !HasNick(clients, b, nick)
      {
        var b :| b in todo;
        if clients[b].nick == Some(nick) {
          return Some(b);
        }
        todo := todo - {b};
      }
      return None;
    }

    method CountIp(ip: nat) returns (n: nat)
      ensures n == |ClientsAt(clients, ip)|
    {
      n := 0;
      var todo := clients.Keys;
      ghost var counted: set<Addr> := {};
      while todo != {}
        invariant todo <= clients.Keys
        invariant counted == set a | a in clients && a !in todo && clients[a].ip == ip
        invariant n == |counted|
      {
        var a :| a in todo;
        if clients[a].ip == ip {
          n := n + 1;
          counted := counted + {a};
        }
        todo := todo - {a};
      }
      assert counted == ClientsAt(clients, ip);
    }

    method Admit(a: Addr) returns (ok: bool)
      ensures ok <==> Admits(View(), a)
    {
      assert |clients| == |clients.Keys|;
      if |clients| >= MAX_TOTAL_CLIENTS {
        return false;
      }
      var n := CountIp(a.ip);
      return n < MAX_CLIENTS_PER_IP;
    }

    method SendTo(to: Addr, line: Line)
      modifies this`clients
      ensures clients == Send(old(clients), to, line)
    {
      if to in clients {
        clients := clients[to := clients[to].Enqueue(line)];
      }
    }

    method SendAll(targets: set<Addr>, line: Line)
      modifies this`clients
      ensures clients == Broadcast(old(clients), targets, line)
    {
      var todo := targets;
      while todo != {}
        invariant todo <= targets
        invariant clients == Broadcast(old(clients), targets - todo, line)
      {
        var to :| to in todo;
        BroadcastStep(old(clients), targets - todo, to, line);
        assert targets - (todo - {to}) == targets - todo + {to};
        SendTo(to, line);
        todo := todo - {to};
      }
      assert targets - {} == targets;
    }

    method RegisterClient(a: Addr)
      modifies this
      ensures View() == Register(old(View()), a)
    {
      clients := clients[a := NewClient(a)];
    }

    method CleanupClient(a: Addr)
      modifies this
      ensures View() == Cleanup(old(View()), a)
    {
      if a !in clients {
        return;
      }
      var client := clients[a];
      clients := clients - {a};
      if client.nick.None? {
        return;
      }
      var nick := client.nick.value;
      nickPubkeys := nickPubkeys - {nick};

      var peersToNotify := LeaveAll(a);
      SendAll(peersToNotify, Quit(nick));
    }

    /** Cleanup's sweep over the channels, collecting whom to tell. */
    method LeaveAll(a: Addr) returns (peersToNotify: set<Addr>)
      modifies this`channels
      ensures channels == Leave(old(channels), a)
      ensures peersToNotify == Neighbours(old(channels), a)
    {
      peersToNotify := {};
      var todo := channels.Keys;
      ghost var before := channels;
      while todo != {}
        invariant todo <= before.Keys == channels.Keys
        invariant forall ch :: ch in before ==>
          channels[ch] == if ch in todo then before[ch] else before[ch] - {a}
        invariant peersToNotify == set ch, b |
          ch in before && ch !in todo && a in before[ch] && b in before[ch] && b != a :: b
      {
        var ch :| ch in todo;
        if a in channels[ch] {
          channels := channels[ch := channels[ch] - {a}];
          peersToNotify := peersToNotify + channels[ch];
        }
        todo := todo - {ch};
      }
      assert channels == Leave(before, a);
    }

    method ChangeNick(a: Addr, nick: string)
      modifies this`clients
      ensures View() == SetNick(old(View()), a, nick)
    {
      var pubkey := if a in clients then clients[a].pubkey else None;
      if nick in nickPubkeys && pubkey != Some(nickPubkeys[nick]) {
        SendTo(a, NickInUse(nick));
        return;
      }
      if a in clients {
        clients := clients[a := clients[a].(nick := Some(nick))];
      }
    }

    method RelayPrivmsg(a: Addr, target: string, text: string) returns (found: Option<Addr>)
      modifies this`clients
      ensures FoundByNick(old(clients), target, found)
      ensures View() == Relay(old(View()), a, target, text, found)
    {
      found := FindAddrByNick(target);
      var nick := if a in clients then clients[a].NickOrEmpty() else "";
      var authed := a in clients && clients[a].authenticated;
      if nick != "" && nick in nickPubkeys && !authed {
        return;
      }
      var line := Privmsg(nick, target, text);
      if target in channels {
        SendAll(channels[target] - {a}, line);
      } else if found.Some? {
        SendTo(found.value, line);
      }
    }

    method Join(a: Addr, channel: string, nick: string)
      modifies this`clients, this`channels
      ensures View() == JoinChannel(old(View()), a, channel, nick)
    {
      var members := (if channel in channels then channels[channel] else {}) + {a};
      channels := channels[channel := members];
      var names := AnnounceJoin(members, channel, nick);
      assert a !in clients ==> Send(clients, a, Names(nick, channel, names)) == clients;
      if a in clients {
        SendTo(a, Names(nick, channel, names));
        SendTo(a, EndOfNames(nick, channel));
      }
    }

    /** JOIN's loop over the members, which also collects their nicks. */
    method AnnounceJoin(members: set<Addr>, channel: string, nick: string) returns (names: map<Addr, string>)
      modifies this`clients
      ensures clients == Broadcast(old(clients), members, Joined(nick, channel))
      ensures names == NamesOf(old(clients), members)
    {
      names := map[];
      var todo := members;
      while todo != {}
        invariant todo <= members
        invariant clients == Broadcast(old(clients), members - todo, Joined(nick, channel))
        invariant names == NamesOf(old(clients), members - todo)
      {
        var m :| m in todo;
        BroadcastStep(old(clients), members - todo, m, Joined(nick, channel));
        assert members - (todo - {m}) == members - todo + {m};
        if m in clients {
          SendTo(m, Joined(nick, channel));
          if clients[m].nick.Some? {
            names := names[m := clients[m].nick.value];
          }
        }
        todo := todo - {m};
      }
      assert members - {} == members;
    }

    method KickMember(a: Addr, channel: string, target: string, reason: string) returns (found: Option<Addr>)
      modifies this`clients, this`channels
      ensures FoundByNick(old(clients), target, found)
      ensures View() == Kick(old(View()), a, channel, target, reason, found)
    {
      found := FindAddrByNick(target);
      if a !in clients || !clients[a].authenticated {
        return;
      }
      if found.Some? {
        var line := Kicked(clients[a].NickOrEmpty(), channel, target, reason);
        if channel in channels {
          SendAll(channels[channel], line);
          channels := channels[channel := channels[channel] - {found.value}];
        }
      }
    }

    method PartChannel(a: Addr, channel: string)
      modifies this`clients, this`channels
      ensures View() == Part(old(View()), a, channel)
    {
      if a in clients && clients[a].nick.Some? {
        var line := Parted(clients[a].nick.value, channel);
        if channel in channels {
          SendAll(channels[channel] - {a}, line);
          channels := channels[channel := channels[channel] - {a}];
        }
      }
    }

    method TryBindNickPubkey(nick: string, pubkey: string) returns (ok: bool)
      modifies this`nickPubkeys
      ensures ok <==> (nick in old(nickPubkeys) ==> old(nickPubkeys)[nick] == pubkey)
      ensures nickPubkeys == if ok then old(nickPubkeys)[nick := pubkey] else old(nickPubkeys)
    {
      if nick in nickPubkeys && nickPubkeys[nick] != pubkey {
        return false;
      }
      nickPubkeys := nickPubkeys[nick := pubkey];
      return true;
    }

    method CheckHelloNick(a: Addr, nick: string) returns (ok: bool)
      modifies this`clients
      ensures ok <==> HasNick(old(clients), a, nick)
      ensures View() == NickSection(old(View()), a, nick)
    {
      ok := a in clients && clients[a].nick == Some(nick);
      if !ok {
        SendTo(a, HelloFailed(nick, NickMismatch));
      }
    }

    method CheckHelloPow(sha: Pow.NickHash, a: Addr, nick: string, pubkey: string) returns (ok: bool)
      modifies this`clients
      ensures ok <==> Pow.CheckDifficulty(sha, nick, pubkey, powRequiredBits)
      ensures View() == PowSection(old(View()), sha, a, nick, pubkey)
    {
      ok := Pow.CheckDifficulty(sha, nick, pubkey, powRequiredBits);
      if !ok {
        SendTo(a, HelloFailed(nick, PowTooWeak(powRequiredBits)));
      }
    }

    method Hello(a: Addr, nick: string, pubkey: string, bits: nat)
      modifies this`clients, this`nickPubkeys
      ensures View() == BindHello(old(View()), a, nick, pubkey, bits)
    {
      var ok := TryBindNickPubkey(nick, pubkey);
      if !ok {
        SendTo(a, NickKeyMismatch(nick));
        return;
      }
      if a in clients {
        clients := clients[a := clients[a].(pubkey := Some(pubkey), authenticated := true)];
      }
      SendTo(a, HelloOk(nick, bits));
      AnnounceKey(a, Pubkey(nick, pubkey));
    }

    /** The doubly nested broadcast loop with its growing `notified` set. */
    method AnnounceKey(a: Addr, line: Line)
      modifies this`clients
      ensures clients == Broadcast(old(clients), Neighbours(channels, a), line)
    {
      var notified: set<Addr> := {};
      var todo := channels.Keys;
      assert clients == Broadcast(clients, {}, line);
      while todo != {}
        invariant todo <= channels.Keys
        invariant notified == set ch, b |
          ch in channels && ch !in todo && a in channels[ch] && b in channels[ch] && b != a :: b
        invariant clients == Broadcast(old(clients), notified, line)
      {
        var ch :| ch in todo;
        if a in channels[ch] {
          ghost var earlier := notified;
          var members := channels[ch];
          while members != {}
            invariant members <= channels[ch]
            invariant notified == earlier + (channels[ch] - members - {a})
            invariant clients == Broadcast(old(clients), notified, line)
          {
            var b :| b in members;
            if b != a && b !in notified {
              BroadcastStep(old(clients), notified, b, line);
              notified := notified + {b};
              SendTo(b, line);
            }
            members := members - {b};
          }
        }
        todo := todo - {ch};
      }
      assert notified == Neighbours(channels, a);
    }

    method SetPowBits(bits: nat)
      modifies this`clients, this`powRequiredBits
      ensures View() == SetPow(old(View()), bits)
    {
      powRequiredBits := bits;
      SendAll(clients.Keys, PowRequired(bits));
    }
  }
}
