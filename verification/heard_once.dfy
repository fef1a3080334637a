/** When everybody hears each packet exactly once, and when packets stop: exact conditions
    on the roles, the links those roles lead to, and the relay. */
module HeardOnce {
  import opened Text
  import opened Peers
  import opened Topology
  import opened Flooding

  // ------------------------------------------------------------------
  // Hearing once
  // ------------------------------------------------------------------

  /** A copy reaches a listener. */
  predicate Reaches(net: Net, speaker: Nick, c: Copy, listener: Nick) {
    IsWalk(net, speaker, c) && c.path[|c.path| - 1] == listener
  }

  /** A listener gets one copy, and the speaker none. */
  ghost predicate OnceFor(net: Net, speaker: Nick, listener: Nick) {
    if speaker == listener then forall c :: !Reaches(net, speaker, c, listener)
    else exists c :: OnlyCopy(net, speaker, listener, c)
  }

  ghost predicate OnlyCopy(net: Net, speaker: Nick, listener: Nick, c: Copy) {
    Reaches(net, speaker, c, listener) && forall q :: Reaches(net, speaker, q, listener) ==> q == c
  }

  /** Everybody hears everybody else exactly once, and nobody himself. */
  ghost predicate HearAllOnce(net: Net) {
    forall v, w :: v in net.people && w in net.people ==> OnceFor(net, v, w)
  }

  /** How many copies a participant has heard. */
  function Times(heard: multiset<Copy>, listener: Nick): nat {
    |set c | c in heard && c.path != [] && c.path[|c.path| - 1] == listener|
  }

  /** Counted in runs: once nothing is under way, a listener has heard one copy, and the
      speaker none, exactly when that holds of the walks. */
  lemma OnceInRunsIff(net: Net, speaker: Nick, listener: Nick, run: seq<Air>, copies: seq<Copy>)
    requires IsFlood(net, speaker, run, copies) && Quiet(run)
    ensures OnceFor(net, speaker, listener) <==>
      Times(run[|copies|].heard, listener) == if speaker == listener then 0 else 1
  {
    var heard := run[|copies|].heard;
    var s := set c | c in heard && c.path != [] && c.path[|c.path| - 1] == listener;
    forall c ensures c in s <==> Reaches(net, speaker, c, listener) {
      QuietHeardExactlyWalks(net, speaker, run, copies, c);
    }
    if speaker == listener {
      assert |s| == 0 <==> s == {};
    } else {
      if c :| OnlyCopy(net, speaker, listener, c) {
        assert s == {c};
      }
      if |s| == 1 {
        var c :| c in s;
        OnlyElement(s, c);
        assert OnlyCopy(net, speaker, listener, c);
      }
    }
  }

  lemma OnlyElement<T>(s: set<T>, x: T)
    requires |s| == 1 && x in s
    ensures s == {x}
  {
    assert |s - {x}| == 0;
  }

  // ------------------------------------------------------------------
  // What goes wrong
  // ------------------------------------------------------------------

  lemma TwoCopies(net: Net, v: Nick, w: Nick, c: Copy, q: Copy)
    requires v != w && c != q && Reaches(net, v, c, w) && Reaches(net, v, q, w)
    ensures !OnceFor(net, v, w)
  {
  }

  /** One hop, by link or by the relay. */
  predicate Hop(net: Net, relayed: bool, a: Nick, b: Nick) {
    if relayed then OnRelay(net, a, b) else Linked(net, a, b)
  }

  lemma OneHop(net: Net, relayed: bool, a: Nick, b: Nick)
    ensures IsWalk(net, a, Copy(relayed, [a, b])) <==> Hop(net, relayed, a, b)
  {
  }

  lemma TwoHops(net: Net, relayed: bool, a: Nick, f: Nick, b: Nick)
    ensures IsWalk(net, a, Copy(relayed, [a, f, b])) <==>
      Hop(net, relayed, a, f) && f in net.forwarders && Linked(net, f, b) && b != a
  {
    assert [a, f, b][..2] == [a, f];
    OneHop(net, relayed, a, f);
  }

  /** A pair both linked and connected to the relay hears twice. */
  lemma LinkedAndRelayed(net: Net, a: Nick, b: Nick)
    requires Linked(net, a, b) && OnRelay(net, a, b)
    ensures !OnceFor(net, a, b)
  {
    OneHop(net, false, a, b);
    OneHop(net, true, a, b);
    TwoCopies(net, a, b, Copy(false, [a, b]), Copy(true, [a, b]));
  }

  /** A pair with one hop between them and a forwarder next to both hears twice. */
  lemma Detour(net: Net, a: Nick, f: Nick, b: Nick, relayed: bool)
    requires a != b && Linked(net, a, f) && f in net.forwarders && Linked(net, f, b) && Hop(net, relayed, a, b)
    ensures !OnceFor(net, a, b)
  {
    OneHop(net, relayed, a, b);
    TwoHops(net, false, a, f, b);
    TwoCopies(net, a, b, Copy(relayed, [a, b]), Copy(false, [a, f, b]));
  }

  /** No link leads out of a set, and the speaker inside it hands the relay nothing. */
  ghost predicate ShutIn(net: Net, s: set<Nick>, v: Nick) {
    && v in s && (forall b :: !OnRelay(net, v, b))
    && forall a, b :: a in s && Linked(net, a, b) ==> b in s
  }

  lemma {:induction false} StaysInside(net: Net, s: set<Nick>, v: Nick, c: Copy)
    requires ShutIn(net, s, v) && IsWalk(net, v, c)
    ensures c.path[|c.path| - 1] in s
    decreases |c.path|
  {
    if |c.path| > 2 {
      var before := c.path[..|c.path| - 1];
      StaysInside(net, s, v, Copy(c.relayed, before));
      assert Linked(net, before[|before| - 1], c.path[|c.path| - 1]);
    }
  }

  lemma NotReached(net: Net, s: set<Nick>, v: Nick, w: Nick)
    requires ShutIn(net, s, v) && w !in s
    ensures !OnceFor(net, v, w)
  {
    forall c ensures !Reaches(net, v, c, w) {
      if IsWalk(net, v, c) {
        StaysInside(net, s, v, c);
      }
    }
  }

  // ------------------------------------------------------------------
  // What goes right
  // ------------------------------------------------------------------

  /** Nobody hears anything by the relay. */
  ghost predicate RelayIdle(net: Net) { forall a, b :: !OnRelay(net, a, b) }

  /** Links exactly between one participant and all others. */
  ghost predicate Star(net: Net, hub: Nick) {
    hub in net.people &&
    forall a, b :: Linked(net, a, b) <==> a in net.people && b in net.people && a != b && (a == hub || b == hub)
  }

  function Way(hub: Nick, speaker: Nick, listener: Nick): Path {
    if speaker == hub || listener == hub then [speaker, listener] else [speaker, hub, listener]
  }

  lemma {:induction false} WalksThroughHub(net: Net, hub: Nick, speaker: Nick, c: Copy)
    requires Star(net, hub) && RelayIdle(net) && hub in net.forwarders && speaker in net.people
    ensures IsWalk(net, speaker, c) <==>
      && !c.relayed && |c.path| >= 2 && c.path[|c.path| - 1] in net.people && c.path[|c.path| - 1] != speaker
      && c.path == Way(hub, speaker, c.path[|c.path| - 1])
    decreases |c.path|
  {
    if |c.path| == 2 {
      OneHop(net, c.relayed, c.path[0], c.path[1]);
      assert c.path == [c.path[0], c.path[1]];
    } else if |c.path| > 2 {
      var before, last := c.path[..|c.path| - 1], c.path[|c.path| - 1];
      WalksThroughHub(net, hub, speaker, Copy(c.relayed, before));
      assert c.path == before + [last];
      assert last in Onward(net, before) <==>
        before[|before| - 1] in net.forwarders && Linked(net, before[|before| - 1], last) && last != before[|before| - 2];
    }
  }

  /** One hub that forwards, and no relay: once each, whoever else forwards. */
  lemma StarOnce(net: Net, hub: Nick)
    requires Star(net, hub) && RelayIdle(net) && hub in net.forwarders
    ensures HearAllOnce(net)
  {
    forall v, w | v in net.people && w in net.people ensures OnceFor(net, v, w) {
      forall c ensures Reaches(net, v, c, w) <==> v != w && c == Copy(false, Way(hub, v, w)) {
        WalksThroughHub(net, hub, v, c);
      }
      assert v != w ==> OnlyCopy(net, v, w, Copy(false, Way(hub, v, w)));
    }
  }

  /** Without a forwarder the walks are the single hops. */
  lemma {:induction false} OnlyHops(net: Net, v: Nick, c: Copy)
    requires net.forwarders * net.people == {}
    ensures IsWalk(net, v, c) <==> |c.path| == 2 && c.path[0] == v && Hop(net, c.relayed, v, c.path[1])
    decreases |c.path|
  {
    if |c.path| > 2 && IsWalk(net, v, c) {
      InnerForwards(net, v, c);
    }
  }

  lemma HopsOnce(net: Net, relayed: bool)
    requires forall v, c :: v in net.people ==> (IsWalk(net, v, c) <==> SingleHop(net, relayed, v, c))
    ensures HearAllOnce(net)
  {
    forall v, w | v in net.people && w in net.people ensures OnceFor(net, v, w) {
      forall c ensures Reaches(net, v, c, w) <==> v != w && c == Copy(relayed, [v, w]) {
        assert |c.path| == 2 ==> c.path == [c.path[0], c.path[1]];
      }
      assert v != w ==> OnlyCopy(net, v, w, Copy(relayed, [v, w]));
    }
  }

  predicate SingleHop(net: Net, relayed: bool, v: Nick, c: Copy) {
    c.relayed == relayed && |c.path| == 2 && c.path[0] == v && c.path[1] in net.people && c.path[1] != v
  }

  /** All linked, nobody forwarding, and no relay: once each. */
  lemma MeshOnce(net: Net)
    requires net.forwarders * net.people == {} && RelayIdle(net)
    requires forall a, b :: a in net.people && b in net.people && a != b ==> Linked(net, a, b)
    ensures HearAllOnce(net)
  {
    forall v, c | v in net.people ensures IsWalk(net, v, c) <==> SingleHop(net, false, v, c) {
      OnlyHops(net, v, c);
    }
    HopsOnce(net, false);
  }

  /** All on the relay and nobody linked: once each. */
  lemma RelayOnce(net: Net)
    requires net.people <= net.relay && forall a, b :: !Linked(net, a, b)
    ensures HearAllOnce(net)
  {
    forall v, c | v in net.people ensures IsWalk(net, v, c) <==> SingleHop(net, true, v, c) {
      if |c.path| > 2 && IsWalk(net, v, c) {
        LastLinked(net, v, c);
      }
    }
    HopsOnce(net, true);
  }

  lemma LastLinked(net: Net, v: Nick, c: Copy)
    requires |c.path| > 2 && IsWalk(net, v, c)
    ensures Linked(net, c.path[|c.path| - 2], c.path[|c.path| - 1])
  {
    var before := c.path[..|c.path| - 1];
    assert before[|before| - 1] == c.path[|c.path| - 2];
  }

  lemma AloneOnce(net: Net)
    requires |net.people| <= 1
    ensures HearAllOnce(net)
  {
    forall v, w | v in net.people && w in net.people ensures OnceFor(net, v, w) {
      OneOnly(net.people, v, w);
      forall c ensures !Reaches(net, v, c, w) {
        if IsWalk(net, v, c) {
          FirstHop(net, v, c);
          OneOnly(net.people, v, c.path[1]);
        }
      }
    }
  }

  lemma {:induction false} FirstHop(net: Net, v: Nick, c: Copy)
    requires IsWalk(net, v, c)
    ensures Hop(net, c.relayed, v, c.path[1])
    decreases |c.path|
  {
    if |c.path| > 2 {
      FirstHop(net, v, Copy(c.relayed, c.path[..|c.path| - 1]));
    }
  }

  lemma OneOnly<T>(s: set<T>, x: T, y: T)
    requires |s| <= 1 && x in s && y in s
    ensures x == y
  {
    assert |s - {x}| == |s| - 1;
    assert x == y || y in s - {x};
  }

  lemma TwoOf<T>(s: set<T>) returns (x: T, y: T)
    requires |s| >= 2
    ensures x in s && y in s && x != y
  {
    x :| x in s;
    assert |s - {x}| >= 1;
    y :| y in s - {x};
  }

  // ------------------------------------------------------------------
  // The network a room makes
  // ------------------------------------------------------------------

  /** The links all offers and answers lead to, the forwarding roles, and the relay. */
  function NetOf(room: Room, relay: set<Nick>): Net { Net(room.Keys, Links(room), Superpeers(room), relay) }

  lemma LinkedIffAgreed(room: Room, relay: set<Nick>, a: Nick, b: Nick)
    ensures Linked(NetOf(room, relay), a, b) <==> Agreed(room, a, b)
  {
    LinkOf(room, a, b);
    LinkOf(room, b, a);
    LessIsTotal(a, b);
  }

  lemma InformedLinked(room: Room, relay: set<Nick>, a: Nick, b: Nick)
    requires Informed(room)
    ensures Linked(NetOf(room, relay), a, b) <==>
      a in room && b in room && a != b && (Superpeers(room) == {} || Match(room, a, b))
  {
    LinkedIffAgreed(room, relay, a, b);
    if a in room && b in room && a != b {
      InformedLinks(room, a, b);
    }
  }

  /** The condition, when everybody knows the roles: nobody else is there; or the relay has
      at most one client and either nobody is a superpeer, or there is one host and at most
      one promoted and one demoted participant, or just two superpeers are there; or
      everybody is on the relay and there is one promoted participant, no host, and at most
      one demoted. */
  predicate OnceCondition(room: Room, relay: set<Nick>) {
    var h, m, d, s := |Hosts(room)|, |Promoted(room)|, |Demoted(room)|, |Superpeers(room)|;
    || |room| <= 1
    || (|relay * room.Keys| <= 1 && (s == 0 || (h == 1 && m <= 1 && d <= 1) || (|room| == 2 && s == 2)))
    || (h == 0 && m == 1 && d <= 1 && room.Keys <= relay)
  }

  lemma IdleIff(room: Room, relay: set<Nick>)
    ensures RelayIdle(NetOf(room, relay)) <==> |relay * room.Keys| <= 1
  {
    var r := relay * room.Keys;
    if |r| <= 1 {
      forall a, b ensures !OnRelay(NetOf(room, relay), a, b) {
        if a in r && b in r {
          OneOnly(r, a, b);
        }
      }
    } else {
      var a, b := TwoOf(r);
      assert OnRelay(NetOf(room, relay), a, b);
    }
  }

  // ------------------------------------------------------------------
  // Everybody knows the roles: the condition is enough
  // ------------------------------------------------------------------

  /** Two who are not hosts are not linked if no other is of their kind. */
  lemma OneOfAKind(room: Room, relay: set<Nick>, a: Nick, b: Nick)
    requires Informed(room) && Superpeers(room) != {} && |Promoted(room)| <= 1 && |Demoted(room)| <= 1
    requires a !in Hosts(room) && b !in Hosts(room)
    ensures !Linked(NetOf(room, relay), a, b)
  {
    InformedLinked(room, relay, a, b);
    if a in Promoted(room) && b in Promoted(room) {
      OneOnly(Promoted(room), a, b);
    } else if a in Demoted(room) && b in Demoted(room) {
      OneOnly(Demoted(room), a, b);
    }
  }

  lemma StarOfHost(room: Room, relay: set<Nick>, hub: Nick)
    requires Informed(room) && Hosts(room) == {hub} && |Promoted(room)| <= 1 && |Demoted(room)| <= 1
    ensures Star(NetOf(room, relay), hub)
  {
    assert hub in Hosts(room);
    assert hub in Superpeers(room);
    forall a, b
      ensures Linked(NetOf(room, relay), a, b) <==> a in room && b in room && a != b && (a == hub || b == hub)
    {
      if a == hub || b == hub {
        InformedLinked(room, relay, a, b);
      } else {
        OneOfAKind(room, relay, a, b);
      }
    }
  }

  lemma StarOfTwo(room: Room, relay: set<Nick>, hub: Nick)
    requires Informed(room) && |room| == 2 && |Superpeers(room)| == 2 && hub in room
    ensures Star(NetOf(room, relay), hub) && hub in Superpeers(room)
  {
    assert |room.Keys| == 2;
    AllOf(Superpeers(room), room.Keys);
    forall a, b
      ensures Linked(NetOf(room, relay), a, b) <==> a in room && b in room && a != b && (a == hub || b == hub)
    {
      InformedLinked(room, relay, a, b);
      if a in room && b in room && a != b && a != hub {
        ThreeOf(room.Keys, hub, a, b);
      }
    }
  }

  lemma AllOf<T>(a: set<T>, b: set<T>)
    requires a <= b && |a| == |b|
    ensures a == b
  {
    assert |b - a| == |b| - |a|;
  }

  lemma ThreeOf<T>(s: set<T>, x: T, y: T, z: T)
    requires |s| == 2 && x in s && y in s && z in s && y != x && z != y
    ensures z == x
  {
    if z != x {
      Three(s, x, y, z);
    }
  }

  lemma NobodyLinked(room: Room, relay: set<Nick>)
    requires Informed(room) && Hosts(room) == {} && |Promoted(room)| == 1 && |Demoted(room)| <= 1
    ensures forall a, b :: !Linked(NetOf(room, relay), a, b)
  {
    var m :| m in Promoted(room);
    assert m in Superpeers(room);
    forall a, b ensures !Linked(NetOf(room, relay), a, b) {
      OneOfAKind(room, relay, a, b);
    }
  }

  lemma ConditionIsEnough(room: Room, relay: set<Nick>)
    requires Informed(room) && OnceCondition(room, relay)
    ensures HearAllOnce(NetOf(room, relay))
  {
    var net := NetOf(room, relay);
    if |room| <= 1 {
      assert |room.Keys| == |room|;
      AloneOnce(net);
    } else if |relay * room.Keys| <= 1 {
      IdleIff(room, relay);
      if |Superpeers(room)| == 0 {
        forall a, b | a in room && b in room && a != b ensures Linked(net, a, b) {
          InformedLinked(room, relay, a, b);
        }
        MeshOnce(net);
      } else if |Hosts(room)| == 1 && |Promoted(room)| <= 1 && |Demoted(room)| <= 1 {
        var hub :| hub in Hosts(room);
        OnlyElement(Hosts(room), hub);
        StarOfHost(room, relay, hub);
        StarOnce(net, hub);
      } else if |room| == 2 && |Superpeers(room)| == 2 {
        var hub :| hub in Superpeers(room);
        StarOfTwo(room, relay, hub);
        StarOnce(net, hub);
      } else {
        NobodyLinked(room, relay);
        RelayOnce(net);
      }
    } else {
      NobodyLinked(room, relay);
      RelayOnce(net);
    }
  }

  // ------------------------------------------------------------------
  // Everybody knows the roles: the condition is needed
  // ------------------------------------------------------------------

  /** Two with one hop between them and a host next to both hear twice. */
  lemma HostNextToBoth(room: Room, relay: set<Nick>, x: Nick, a: Nick, b: Nick, relayed: bool)
    requires Informed(room) && x in Hosts(room) && a in room && b in room && a != x && b != x && a != b
    requires Hop(NetOf(room, relay), relayed, a, b)
    ensures !HearAllOnce(NetOf(room, relay))
  {
    InformedLinked(room, relay, a, x);
    InformedLinked(room, relay, x, b);
    Detour(NetOf(room, relay), a, x, b, relayed);
  }

  /** Three promoted participants hear each other twice. */
  lemma ThreePromoted(room: Room, relay: set<Nick>)
    requires Informed(room) && |Promoted(room)| > 2
    ensures !HearAllOnce(NetOf(room, relay))
  {
    var a, b := TwoOf(Promoted(room));
    var f := Another(Promoted(room), a, b);
    InformedLinked(room, relay, a, f);
    InformedLinked(room, relay, f, b);
    InformedLinked(room, relay, a, b);
    Detour(NetOf(room, relay), a, f, b, false);
  }

  /** With a host, two of one other kind are linked to each other and to it. */
  lemma HostAndTwo(room: Room, relay: set<Nick>, x: Nick, kind: set<Nick>)
    requires Informed(room) && x in Hosts(room) && (kind == Promoted(room) || kind == Demoted(room)) && |kind| > 1
    ensures !HearAllOnce(NetOf(room, relay))
  {
    var a, b := TwoOf(kind);
    InformedLinked(room, relay, a, b);
    HostNextToBoth(room, relay, x, a, b, false);
  }

  /** Two hosts leave no room for a third participant. */
  lemma TwoHosts(room: Room, relay: set<Nick>, x: Nick, y: Nick)
    requires Informed(room) && HearAllOnce(NetOf(room, relay)) && x in Hosts(room) && y in Hosts(room) && x != y
    ensures |room| == 2 && |Superpeers(room)| == 2
  {
    forall z | z in room ensures z in {x, y} {
      if z != x && z != y {
        InformedLinked(room, relay, y, z);
        HostNextToBoth(room, relay, x, y, z, false);
      }
    }
    JustTwo(room.Keys, x, y);
    JustTwo(Superpeers(room), x, y);
    assert |room.Keys| == |room|;
  }

  lemma JustTwo<T>(s: set<T>, x: T, y: T)
    requires x in s && y in s && x != y && forall z :: z in s ==> z in {x, y}
    ensures |s| == 2
  {
    assert s == {x, y};
  }

  /** With a host there is no second relay client. */
  lemma HostAndRelay(room: Room, relay: set<Nick>, x: Nick, a: Nick, b: Nick)
    requires Informed(room) && x in Hosts(room) && OnRelay(NetOf(room, relay), a, b)
    ensures !HearAllOnce(NetOf(room, relay))
  {
    if a == x || b == x {
      InformedLinked(room, relay, a, b);
      LinkedAndRelayed(NetOf(room, relay), a, b);
    } else {
      HostNextToBoth(room, relay, x, a, b, true);
    }
  }

  /** Without a host but with a promoted participant, links stay within a kind. */
  lemma KindShutIn(room: Room, relay: set<Nick>, kind: set<Nick>, v: Nick)
    requires Informed(room) && Hosts(room) == {} && Superpeers(room) != {}
    requires kind == Promoted(room) || kind == Demoted(room) || (kind == {v} && v in Regulars(room))
    requires v in kind && forall b :: !OnRelay(NetOf(room, relay), v, b)
    ensures ShutIn(NetOf(room, relay), kind, v)
  {
    forall a, b | a in kind && Linked(NetOf(room, relay), a, b) ensures b in kind {
      InformedLinked(room, relay, a, b);
    }
  }

  /** Whoever hands the relay nothing is not heard outside its own kind. */
  lemma KindNotHeard(room: Room, relay: set<Nick>, kind: set<Nick>, v: Nick, w: Nick)
    requires Informed(room) && Hosts(room) == {} && Superpeers(room) != {}
    requires kind == Promoted(room) || kind == Demoted(room) || (kind == {v} && v in Regulars(room))
    requires v in kind && v in room && w in room && w !in kind
    requires forall b :: !OnRelay(NetOf(room, relay), v, b)
    ensures !HearAllOnce(NetOf(room, relay))
  {
    KindShutIn(room, relay, kind, v);
    NotReached(NetOf(room, relay), kind, v, w);
  }

  lemma OfSomeKind(room: Room, v: Nick)
    requires v in room && Hosts(room) == {}
    ensures v in Promoted(room) || v in Demoted(room) || v in Regulars(room)
    ensures !(v in Promoted(room) && v in Demoted(room)) && !(v in Promoted(room) && v in Regulars(room))
    ensures v in Promoted(room) ==> v in Superpeers(room)
  {
    assert v !in Hosts(room);
  }

  lemma NoHosts(room: Room)
    ensures Hosts(room) == {} ==> Superpeers(room) == Promoted(room)
  {
    assert Superpeers(room) == Hosts(room) + Promoted(room);
  }

  /** So with a promoted participant it is heard by all only in a room of such. */
  lemma OnlyPromoted(room: Room, relay: set<Nick>, v: Nick, m: Nick, w: Nick)
    requires Informed(room) && HearAllOnce(NetOf(room, relay)) && Hosts(room) == {}
    requires m in Promoted(room) && v in room && w in room
    requires forall b :: !OnRelay(NetOf(room, relay), v, b)
    ensures w in Promoted(room)
  {
    OfSomeKind(room, v);
    OfSomeKind(room, m);
    if v in Promoted(room) {
      if w !in Promoted(room) {
        KindNotHeard(room, relay, Promoted(room), v, w);
      }
    } else if v in Demoted(room) {
      KindNotHeard(room, relay, Demoted(room), v, m);
    } else {
      KindNotHeard(room, relay, {v}, v, m);
    }
  }

  /** Two of a kind are linked, so that they cannot both be on the relay. */
  lemma KindOnRelay(room: Room, relay: set<Nick>, kind: set<Nick>)
    requires Informed(room) && HearAllOnce(NetOf(room, relay)) && room.Keys <= relay
    requires kind == Promoted(room) || kind == Demoted(room)
    ensures |kind| <= 1
  {
    if |kind| > 1 {
      var a, b := TwoOf(kind);
      InformedLinked(room, relay, a, b);
      LinkedAndRelayed(NetOf(room, relay), a, b);
    }
  }

  lemma LinkedPairOnRelay(room: Room, relay: set<Nick>, a: Nick, b: Nick)
    requires Informed(room) && OnRelay(NetOf(room, relay), a, b)
    requires Superpeers(room) == {} || (a in Promoted(room) && b in Promoted(room))
    ensures !HearAllOnce(NetOf(room, relay))
  {
    InformedLinked(room, relay, a, b);
    LinkedAndRelayed(NetOf(room, relay), a, b);
  }

  lemma AllOnRelay(room: Room, relay: set<Nick>, a: Nick, b: Nick, m: Nick, v: Nick)
    requires Informed(room) && HearAllOnce(NetOf(room, relay)) && OnRelay(NetOf(room, relay), a, b)
    requires Hosts(room) == {} && m in Promoted(room) && v in room
    ensures v in relay
  {
    if v !in relay {
      OnlyPromoted(room, relay, v, m, a);
      OnlyPromoted(room, relay, v, m, b);
      LinkedPairOnRelay(room, relay, a, b);
    }
  }

  lemma NoHostOnRelay(room: Room, relay: set<Nick>, a: Nick, b: Nick)
    requires Informed(room) && HearAllOnce(NetOf(room, relay)) && OnRelay(NetOf(room, relay), a, b)
    ensures Hosts(room) == {}
  {
    if x :| x in Hosts(room) {
      HostAndRelay(room, relay, x, a, b);
    }
  }

  lemma SomebodyPromoted(room: Room, relay: set<Nick>, a: Nick, b: Nick)
    requires Informed(room) && HearAllOnce(NetOf(room, relay)) && OnRelay(NetOf(room, relay), a, b)
    requires Hosts(room) == {}
    ensures Promoted(room) != {}
  {
    NoHosts(room);
    if Promoted(room) == {} {
      LinkedPairOnRelay(room, relay, a, b);
    }
  }

  lemma RelayNeeds(room: Room, relay: set<Nick>, a: Nick, b: Nick)
    requires Informed(room) && HearAllOnce(NetOf(room, relay)) && OnRelay(NetOf(room, relay), a, b)
    ensures Hosts(room) == {} && |Promoted(room)| == 1 && |Demoted(room)| <= 1 && room.Keys <= relay
  {
    NoHostOnRelay(room, relay, a, b);
    SomebodyPromoted(room, relay, a, b);
    var m :| m in Promoted(room);
    forall v | v in room ensures v in relay {
      AllOnRelay(room, relay, a, b, m, v);
    }
    KindOnRelay(room, relay, Promoted(room));
    KindOnRelay(room, relay, Demoted(room));
    assert |Promoted(room)| != 0;
  }

  lemma HostNeeds(room: Room, relay: set<Nick>, x: Nick)
    requires Informed(room) && HearAllOnce(NetOf(room, relay)) && x in Hosts(room)
    ensures |Promoted(room)| <= 1 && |Demoted(room)| <= 1
  {
    if |Promoted(room)| > 1 {
      HostAndTwo(room, relay, x, Promoted(room));
    } else if |Demoted(room)| > 1 {
      HostAndTwo(room, relay, x, Demoted(room));
    }
  }

  lemma PromotedNeed(room: Room, relay: set<Nick>, v: Nick)
    requires Informed(room) && HearAllOnce(NetOf(room, relay)) && RelayIdle(NetOf(room, relay))
    requires Hosts(room) == {} && v in Promoted(room)
    ensures |room| == |Promoted(room)| <= 2
  {
    forall w | w in room ensures w in Promoted(room) {
      OnlyPromoted(room, relay, v, v, w);
    }
    assert room.Keys == Promoted(room);
    assert |room.Keys| == |room|;
    if |Promoted(room)| > 2 {
      ThreePromoted(room, relay);
    }
  }

  lemma LinksNeed(room: Room, relay: set<Nick>)
    requires Informed(room) && HearAllOnce(NetOf(room, relay)) && RelayIdle(NetOf(room, relay)) && |room| >= 2
    ensures var h, m, d, s := |Hosts(room)|, |Promoted(room)|, |Demoted(room)|, |Superpeers(room)|;
      s == 0 || (h == 1 && m <= 1 && d <= 1) || (|room| == 2 && s == 2)
  {
    if |Hosts(room)| >= 2 {
      var x, y := TwoOf(Hosts(room));
      TwoHosts(room, relay, x, y);
    } else if x :| x in Hosts(room) {
      assert |Hosts(room)| != 0;
      HostNeeds(room, relay, x);
    } else {
      assert Hosts(room) == {};
      NoHosts(room);
      if v :| v in Promoted(room) {
        PromotedNeed(room, relay, v);
      }
    }
  }

  /** When everybody knows the roles: everybody hears everybody else's packets exactly once,
      and nobody his own, if and only if the condition holds. */
  lemma InformedOnceIff(room: Room, relay: set<Nick>)
    requires Informed(room)
    ensures HearAllOnce(NetOf(room, relay)) <==> OnceCondition(room, relay)
  {
    if OnceCondition(room, relay) {
      ConditionIsEnough(room, relay);
    } else if HearAllOnce(NetOf(room, relay)) {
      IdleIff(room, relay);
      if |relay * room.Keys| <= 1 {
        LinksNeed(room, relay);
      } else {
        var a, b := TwoOf(relay * room.Keys);
        RelayNeeds(room, relay, a, b);
      }
    }
  }

  // ------------------------------------------------------------------
  // Nobody knows of a superpeer
  // ------------------------------------------------------------------

  lemma UninformedLinked(room: Room, relay: set<Nick>, a: Nick, b: Nick)
    requires Uninformed(room)
    ensures Linked(NetOf(room, relay), a, b) <==> a in room && b in room && a != b
  {
    LinkedIffAgreed(room, relay, a, b);
    if a in room && b in room && a != b {
      UninformedLinks(room, a, b);
    }
  }

  /** When nobody knows of a superpeer, any two link, and then everybody hears everybody
      else's packets exactly once if and only if nobody else is there, or the relay has at
      most one client and nobody forwards or just two are there. */
  lemma UninformedOnceIff(room: Room, relay: set<Nick>)
    requires Uninformed(room)
    ensures HearAllOnce(NetOf(room, relay)) <==>
      |room| <= 1 || (|relay * room.Keys| <= 1 && (Superpeers(room) == {} || |room| == 2))
  {
    var net := NetOf(room, relay);
    assert |room.Keys| == |room|;
    IdleIff(room, relay);
    forall a, b ensures Linked(net, a, b) <==> a in room && b in room && a != b {
      UninformedLinked(room, relay, a, b);
    }
    if |room| <= 1 {
      AloneOnce(net);
    } else if |relay * room.Keys| > 1 {
      var a, b := TwoOf(relay * room.Keys);
      LinkedAndRelayed(net, a, b);
    } else if Superpeers(room) == {} {
      MeshOnce(net);
    } else {
      var f :| f in Superpeers(room);
      UninformedForwarder(room, relay, f);
    }
  }

  lemma UninformedForwarder(room: Room, relay: set<Nick>, f: Nick)
    requires Uninformed(room) && f in Superpeers(room) && |room| >= 2 && RelayIdle(NetOf(room, relay))
    ensures HearAllOnce(NetOf(room, relay)) <==> |room| == 2
  {
    var net := NetOf(room, relay);
    assert |room.Keys| == |room|;
    forall a, b ensures Linked(net, a, b) <==> a in room && b in room && a != b {
      UninformedLinked(room, relay, a, b);
    }
    if |room| == 2 {
      forall a, b ensures Linked(net, a, b) <==> a in room && b in room && a != b && (a == f || b == f) {
        if a in room && b in room && a != b && a != f {
          ThreeOf(room.Keys, f, a, b);
        }
      }
      StarOnce(net, f);
    } else {
      assert |room.Keys - {f}| >= 2;
      var a, b := TwoOf(room.Keys - {f});
      Detour(net, a, f, b, false);
    }
  }

  // ------------------------------------------------------------------
  // When packets stop
  // ------------------------------------------------------------------

  /** The speaker's packet reaches a forwarder, and there are three. */
  ghost predicate Forever(room: Room, relay: set<Nick>, speaker: Nick) {
    && |Superpeers(room)| >= 3
    && (|| speaker in Superpeers(room)
        || Hosts(room) != {}
        || exists f :: f in Superpeers(room) && OnRelay(NetOf(room, relay), speaker, f))
  }

  lemma InformedForwardersLinked(room: Room, relay: set<Nick>)
    requires Informed(room)
    ensures ForwardersLinked(NetOf(room, relay))
  {
    var net := NetOf(room, relay);
    forall a, b | a in Superpeers(room) && b in Superpeers(room) && a != b ensures Linked(net, a, b) {
      InformedLinked(room, relay, a, b);
    }
    assert net.forwarders * net.people == Superpeers(room);
  }

  /** The first hop of a packet that never dies. */
  lemma HopToForwarder(room: Room, relay: set<Nick>, speaker: Nick) returns (c: Copy)
    requires Informed(room) && speaker in room && Forever(room, relay, speaker)
    ensures IsWalk(NetOf(room, relay), speaker, c) && c.path[|c.path| - 1] in Superpeers(room)
  {
    var net := NetOf(room, relay);
    if speaker in Superpeers(room) {
      var f := Another(Superpeers(room), speaker, speaker);
      InformedForwardersLinked(room, relay);
      assert Linked(net, speaker, f);
      OneHop(net, false, speaker, f);
      c := Copy(false, [speaker, f]);
    } else if f :| f in Hosts(room) {
      InformedLinked(room, relay, speaker, f);
      OneHop(net, false, speaker, f);
      c := Copy(false, [speaker, f]);
    } else {
      var f :| f in Superpeers(room) && OnRelay(net, speaker, f);
      OneHop(net, true, speaker, f);
      c := Copy(true, [speaker, f]);
    }
  }

  /** A packet that reaches no forwarder goes no further than one hop. */
  lemma {:induction false} StopsAtOnce(net: Net, speaker: Nick, c: Copy)
    requires forall f :: f in net.forwarders ==> !Linked(net, speaker, f) && !OnRelay(net, speaker, f)
    requires IsWalk(net, speaker, c)
    ensures |c.path| == 2
    decreases |c.path|
  {
    if |c.path| > 2 {
      FirstHop(net, speaker, c);
      StopsAtOnce(net, speaker, Copy(c.relayed, c.path[..|c.path| - 1]));
      InnerForwards(net, speaker, c);
    }
  }

  /** When everybody knows the roles: a packet never dies if and only if there are three
      superpeers and it reaches one of them; otherwise every run ends after as many
      arrivals as there are walks. */
  lemma InformedFloodEndsIff(room: Room, relay: set<Nick>, speaker: Nick, run: seq<Air>, copies: seq<Copy>)
    requires Informed(room) && speaker in room && IsFlood(NetOf(room, relay), speaker, run, copies)
    ensures Forever(room, relay, speaker) ==> !Quiet(run)
    ensures !Forever(room, relay, speaker) ==> |copies| <= |ShortWalks(NetOf(room, relay), speaker)|
  {
    var net := NetOf(room, relay);
    assert net.forwarders * net.people == Superpeers(room);
    if Forever(room, relay, speaker) {
      InformedForwardersLinked(room, relay);
      var first := HopToForwarder(room, relay, speaker);
      FloodNeverEnds(net, speaker, first, run, copies);
    } else {
      forall c | IsWalk(net, speaker, c) ensures |c.path| <= 4 {
        if |Superpeers(room)| <= 2 {
          ThreeHops(net, speaker, c);
        } else {
          forall f | f in net.forwarders ensures !Linked(net, speaker, f) {
            InformedLinked(room, relay, speaker, f);
          }
          StopsAtOnce(net, speaker, c);
        }
      }
      FloodEnds(net, speaker, run, copies);
    }
  }

  /** When nobody knows of a superpeer: it never dies if and only if there are three. */
  lemma UninformedFloodEndsIff(room: Room, relay: set<Nick>, speaker: Nick, run: seq<Air>, copies: seq<Copy>)
    requires Uninformed(room) && speaker in room && IsFlood(NetOf(room, relay), speaker, run, copies)
    ensures |Superpeers(room)| >= 3 ==> !Quiet(run)
    ensures |Superpeers(room)| <= 2 ==> |copies| <= |ShortWalks(NetOf(room, relay), speaker)|
  {
    var net := NetOf(room, relay);
    assert net.forwarders * net.people == Superpeers(room);
    if |Superpeers(room)| >= 3 {
      forall a, b | a in Superpeers(room) && b in Superpeers(room) && a != b ensures Linked(net, a, b) {
        UninformedLinked(room, relay, a, b);
      }
      var f := Another(Superpeers(room), speaker, speaker);
      UninformedLinked(room, relay, speaker, f);
      OneHop(net, false, speaker, f);
      FloodNeverEnds(net, speaker, Copy(false, [speaker, f]), run, copies);
    } else {
      forall c | IsWalk(net, speaker, c) ensures |c.path| <= 4 {
        ThreeHops(net, speaker, c);
      }
      FloodEnds(net, speaker, run, copies);
    }
  }

  // ------------------------------------------------------------------
  // How often with one forwarder
  // ------------------------------------------------------------------

  /** Every copy that reaches a listener when only one other participant forwards. */
  function CopiesBy(net: Net, hub: Nick, v: Nick, w: Nick): set<Copy> {
    (if Linked(net, v, w) then {Copy(false, [v, w])} else {})
    + (if OnRelay(net, v, w) then {Copy(true, [v, w])} else {})
    + (if Linked(net, v, hub) && Linked(net, hub, w) then {Copy(false, [v, hub, w])} else {})
    + (if OnRelay(net, v, hub) && Linked(net, hub, w) then {Copy(true, [v, hub, w])} else {})
  }

  /** With one forwarder, whatever the links and the relay, these are exactly the copies
      that reach another participant, be one of the two the forwarder or not. */
  lemma OneForwarderCopies(net: Net, hub: Nick, v: Nick, w: Nick, c: Copy)
    requires net.forwarders * net.people == {hub} && v != w
    ensures Reaches(net, v, c, w) <==> c in CopiesBy(net, hub, v, w)
  {
    if |c.path| == 2 && c.path[0] == v {
      assert c.path == [v, c.path[1]];
      OneHop(net, c.relayed, v, c.path[1]);
    } else if |c.path| == 3 && c.path[0] == v {
      assert c.path == [v, c.path[1], c.path[2]];
      var f := c.path[1];
      assert f in net.forwarders * net.people <==> f == hub;
      TwoHops(net, c.relayed, v, f, c.path[2]);
    } else if |c.path| > 3 && IsWalk(net, v, c) {
      TwoForwardersIn(net, v, c);
    }
  }

  /** And nobody hears himself. */
  lemma OneForwarderNotBack(net: Net, hub: Nick, v: Nick, c: Copy)
    requires net.forwarders * net.people == {hub}
    ensures !Reaches(net, v, c, v)
  {
    if |c.path| == 2 && c.path[0] == v {
      assert c.path == [v, c.path[1]];
      OneHop(net, c.relayed, v, c.path[1]);
    } else if |c.path| == 3 && IsWalk(net, v, c) {
      InnerForwards(net, v, c);
    } else if |c.path| > 3 && IsWalk(net, v, c) {
      TwoForwardersIn(net, v, c);
    }
  }

  lemma TwoForwardersIn(net: Net, v: Nick, c: Copy)
    requires |c.path| > 3 && IsWalk(net, v, c)
    ensures c.path[|c.path| - 2] in net.forwarders * net.people && c.path[|c.path| - 3] in net.forwarders * net.people
    ensures c.path[|c.path| - 2] != c.path[|c.path| - 3]
  {
    InnerForwards(net, v, c);
    InnerForwards(net, v, Copy(c.relayed, c.path[..|c.path| - 1]));
  }

  function One(b: bool): nat { if b then 1 else 0 }

  /** One copy by a link and one by the relay, and as many again by way of the forwarder. */
  function TimesBy(net: Net, hub: Nick, v: Nick, w: Nick): nat {
    if v == w then 0
    else
      (One(Linked(net, v, w)) + One(OnRelay(net, v, w))
       + One(Linked(net, v, hub) && Linked(net, hub, w)) + One(OnRelay(net, v, hub) && Linked(net, hub, w)))
  }

  lemma CopiesCount(net: Net, hub: Nick, v: Nick, w: Nick)
    requires v != w
    ensures |CopiesBy(net, hub, v, w)| == TimesBy(net, hub, v, w)
  {
    var x, y, z, u := Copy(false, [v, w]), Copy(true, [v, w]), Copy(false, [v, hub, w]), Copy(true, [v, hub, w]);
    assert |x.path| == |y.path| == 2 && |z.path| == |u.path| == 3;
  }

  /** So often anybody hears anybody's packet when one participant forwards. */
  lemma OneForwarderTimes(net: Net, hub: Nick, v: Nick, w: Nick, run: seq<Air>, copies: seq<Copy>)
    requires net.forwarders * net.people == {hub}
    requires IsFlood(net, v, run, copies) && Quiet(run)
    ensures Times(run[|copies|].heard, w) == TimesBy(net, hub, v, w)
  {
    var heard := set c | c in run[|copies|].heard && c.path != [] && c.path[|c.path| - 1] == w;
    forall c ensures c in heard <==> Reaches(net, v, c, w) {
      QuietHeardExactlyWalks(net, v, run, copies, c);
    }
    if v == w {
      forall c ensures c !in heard {
        OneForwarderNotBack(net, hub, v, c);
      }
      assert heard == {};
    } else {
      forall c ensures c in heard <==> c in CopiesBy(net, hub, v, w) {
        OneForwarderCopies(net, hub, v, w, c);
      }
      assert heard == CopiesBy(net, hub, v, w);
      CopiesCount(net, hub, v, w);
    }
  }

  /** The host's own packets: over its link and over the relay. */
  lemma HostHeardTwice(
      room: Room, relay: set<Nick>, hub: Nick, w: Nick, run: seq<Air>, copies: seq<Copy>)
    requires Informed(room) && Superpeers(room) == {hub} && hub in Hosts(room) && room.Keys <= relay
    requires w in room && w != hub
    requires IsFlood(NetOf(room, relay), hub, run, copies) && Quiet(run)
    ensures Times(run[|copies|].heard, w) == 2
  {
    OnlyForwarder(room, relay, hub);
    OneForwarderTimes(NetOf(room, relay), hub, hub, w, run, copies);
    InformedLinked(room, relay, hub, w);
  }

  lemma OnlyForwarder(room: Room, relay: set<Nick>, hub: Nick)
    requires Superpeers(room) == {hub}
    ensures NetOf(room, relay).forwarders * NetOf(room, relay).people == {hub}
  {
    assert hub in Superpeers(room);
  }

  /** A hosted room, everybody on its relay, only the host forwarding, and the roles known:
      between two others each packet is heard three times. */
  lemma InformedHostedTimes(
      room: Room, relay: set<Nick>, hub: Nick, v: Nick, w: Nick, run: seq<Air>, copies: seq<Copy>)
    requires Informed(room) && Superpeers(room) == {hub} && hub in Hosts(room) && room.Keys <= relay
    requires v in Regulars(room) && w in Regulars(room) && v != w
    requires IsFlood(NetOf(room, relay), v, run, copies) && Quiet(run)
    ensures Times(run[|copies|].heard, w) == 3
  {
    OnlyForwarder(room, relay, hub);
    OneForwarderTimes(NetOf(room, relay), hub, v, w, run, copies);
    InformedLinked(room, relay, v, w);
    InformedLinked(room, relay, v, hub);
    InformedLinked(room, relay, hub, w);
  }

  /** And when nobody knows of a superpeer, four times: then those two are linked as well. */
  lemma UninformedHostedTimes(
      room: Room, relay: set<Nick>, hub: Nick, v: Nick, w: Nick, run: seq<Air>, copies: seq<Copy>)
    requires Uninformed(room) && Superpeers(room) == {hub} && room.Keys <= relay
    requires v in Regulars(room) && w in Regulars(room) && v != w
    requires IsFlood(NetOf(room, relay), v, run, copies) && Quiet(run)
    ensures Times(run[|copies|].heard, w) == 4
  {
    assert hub in Superpeers(room);
    OnlyForwarder(room, relay, hub);
    OneForwarderTimes(NetOf(room, relay), hub, v, w, run, copies);
    UninformedLinked(room, relay, v, w);
    UninformedLinked(room, relay, v, hub);
    UninformedLinked(room, relay, hub, w);
  }

  // ------------------------------------------------------------------
  // How often with two forwarders
  // ------------------------------------------------------------------

  /** The ways past two forwarders, when any two participants are linked. */
  function WaysPast(x: Nick, y: Nick, v: Nick, w: Nick): set<Path> {
    {[v, x, y, w], [v, y, x, w]} + if v == w then {} else {[v, w], [v, x, w], [v, y, w]}
  }

  lemma ThreeHopWalk(net: Net, x: Nick, y: Nick, v: Nick, c: Copy)
    requires |c.path| == 4 && c.path[0] == v
    ensures IsWalk(net, v, c) <==>
      && Hop(net, c.relayed, v, c.path[1])
      && c.path[1] in net.forwarders && Linked(net, c.path[1], c.path[2]) && c.path[2] != v
      && c.path[2] in net.forwarders && Linked(net, c.path[2], c.path[3]) && c.path[3] != c.path[1]
  {
    var before := c.path[..3];
    assert before == [v, c.path[1], c.path[2]];
    TwoHops(net, c.relayed, v, c.path[1], c.path[2]);
  }

  /** With any two linked and two forwarders, every other participant hears another's packet
      five times over links and its own twice, and as often again by the relay if its
      first hop can take it. */
  lemma TwoForwardersRepeat(net: Net, x: Nick, y: Nick, v: Nick, w: Nick, c: Copy)
    requires net.forwarders * net.people == {x, y} && x != y
    requires forall a, b :: a in net.people && b in net.people && a != b ==> Linked(net, a, b)
    requires v in net.people - {x, y} && w in net.people - {x, y}
    ensures Reaches(net, v, c, w) <==> c.path in WaysPast(x, y, v, w) && Hop(net, c.relayed, v, c.path[1])
  {
    assert forall f :: f in net.forwarders * net.people <==> f == x || f == y;
    if |c.path| == 2 && c.path[0] == v {
      assert c.path == [v, c.path[1]];
      OneHop(net, c.relayed, v, c.path[1]);
    } else if |c.path| == 3 && c.path[0] == v {
      assert c.path == [v, c.path[1], c.path[2]];
      TwoHops(net, c.relayed, v, c.path[1], c.path[2]);
      ForwarderIs(net, x, y, c.path[1], c.path[2]);
    } else if |c.path| == 4 && c.path[0] == v {
      assert c.path == [v, c.path[1], c.path[2], c.path[3]];
      ThreeHopWalk(net, x, y, v, c);
      ForwarderIs(net, x, y, c.path[1], c.path[2]);
      ForwarderIs(net, x, y, c.path[2], c.path[3]);
    } else if IsWalk(net, v, c) {
      assert |net.forwarders * net.people| == 2;
      ThreeHops(net, v, c);
    }
  }

  lemma ForwarderIs(net: Net, x: Nick, y: Nick, f: Nick, b: Nick)
    requires net.forwarders * net.people == {x, y}
    ensures f in net.forwarders && Linked(net, f, b) ==> f == x || f == y
  {
    assert f in net.forwarders * net.people <==> f in net.forwarders && f in net.people;
  }
}
