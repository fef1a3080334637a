/** Who links to whom in a room, who makes the offer, and how many links there are. */
module Topology {
  import opened Text
  import opened Peers

  type Nick = string

  // ------------------------------------------------------------------
  // The order on nicks
  // ------------------------------------------------------------------

  /** Rust's `<` on strings. */
  predicate Less(a: Nick, b: Nick) {
    if b == [] then false
    else if a == [] then true
    else a[0] < b[0] || (a[0] == b[0] && Less(a[1..], b[1..]))
  }

  /** Of two different nicks exactly one is less, and no nick is less than itself. */
  lemma {:induction false} LessIsTotal(a: Nick, b: Nick)
    ensures a == b ==> !Less(a, b) && !Less(b, a)
    ensures a != b ==> (Less(a, b) <==> !Less(b, a))
  {
    if a != [] && b != [] {
      LessIsTotal(a[1..], b[1..]);
      assert a == [a[0]] + a[1..] && b == [b[0]] + b[1..];
    }
  }

  /** The order is the dictionary's: a proper beginning comes first, and otherwise the first
      place where the two differ decides. */
  lemma {:induction false} LessIff(a: Nick, b: Nick)
    ensures Less(a, b) <==> (a < b || exists i :: FirstDifference(a, b, i) && a[i] < b[i])
  {
    if a != [] && b != [] {
      assert a == [a[0]] + a[1..] && b == [b[0]] + b[1..];
      if a[0] == b[0] {
        LessIff(a[1..], b[1..]);
        assert a < b <==> a[1..] < b[1..];
        forall i: int ensures FirstDifference(a, b, i) <==> i > 0 && FirstDifference(a[1..], b[1..], i - 1) {
          SharedFirst(a, b, i);
        }
        if i :| FirstDifference(a[1..], b[1..], i) && a[1..][i] < b[1..][i] {
          assert FirstDifference(a, b, i + 1) && a[i + 1] < b[i + 1];
        }
      } else {
        assert FirstDifference(a, b, 0);
        assert forall i :: FirstDifference(a, b, i) ==> i == 0;
      }
    }
  }

  predicate FirstDifference(a: Nick, b: Nick, i: int) {
    0 <= i < |a| && i < |b| && a[..i] == b[..i] && a[i] != b[i]
  }

  lemma SharedFirst(a: Nick, b: Nick, i: int)
    requires a != [] && b != [] && a[0] == b[0]
    ensures FirstDifference(a, b, i) <==> i > 0 && FirstDifference(a[1..], b[1..], i - 1)
  {
    if 0 < i < |a| && i < |b| {
      assert a[..i] == [a[0]] + a[1..][..i - 1] && b[..i] == [b[0]] + b[1..][..i - 1];
      assert a[..i][1..] == a[1..][..i - 1] && b[..i][1..] == b[1..][..i - 1];
    }
  }

  // ------------------------------------------------------------------
  // The decision of one participant
  // ------------------------------------------------------------------

  /** The roles one participant knows of the others. */
  type View = map<Nick, Role>

  predicate NoSuperpeers(view: View) { forall n :: n in view ==> !view[n].IsSuperpeer() }

  function RoleIn(view: View, nick: Nick): Role { if nick in view then view[nick] else Peer }

  /** `should_connect_to` */
  predicate ShouldConnect(view: View, ourRole: Role, targetRole: Role) {
    ourRole.IsSuperpeer() || targetRole.IsSuperpeer() || NoSuperpeers(view)
  }

  function Roles(states: map<string, PeerState>): View { map n | n in states :: states[n].role }

  method ShouldConnectTo(state: AppState, ourRole: Role, targetRole: Role) returns (connect: bool)
    requires state.Now().NamesMatch()
    ensures connect == ShouldConnect(Roles(state.states), ourRole, targetRole)
  {
    if ourRole.IsSuperpeer() && targetRole.IsSuperpeer() {
      return true;
    }
    if !ourRole.IsSuperpeer() && targetRole.IsSuperpeer() {
      return true;
    }
    if ourRole.IsSuperpeer() && !targetRole.IsSuperpeer() {
      return true;
    }
    var superpeers := state.AllSuperpeers();
    if superpeers == [] {
      assert forall n :: n in state.states ==> n !in superpeers;
      return true;
    }
    assert superpeers[0] in Roles(state.states);
    return false;
  }

  // ------------------------------------------------------------------
  // A room
  // ------------------------------------------------------------------

  /** A participant: the role it decides its links by, which it has from the moment it
      connects, the role it forwards by, which promotion and demotion change, and the
      roles it knows. */
  datatype Person = Person(decides: Role, forwards: Role, view: View) {
    predicate Decides(target: Nick) { ShouldConnect(view, decides, RoleIn(view, target)) }
  }

  type Room = map<Nick, Person>

  /** Nobody decides as a moderator: a participant connects as the host or as a peer. */
  predicate NoneDecidesAsMod(room: Room) { forall a :: a in room ==> room[a].decides != Mod }

  /** Both sides decide for a link. */
  predicate Agreed(room: Room, a: Nick, b: Nick) {
    a in room && b in room && a != b && room[a].Decides(b) && room[b].Decides(a)
  }

  /** `a` makes an offer and `b` accepts it. */
  predicate Calls(room: Room, a: Nick, b: Nick) {
    a in room && b in room && (room[a].Decides(b) && Less(a, b)) && room[b].Decides(a)
  }

  /** A link that both sides decide for is made by exactly one offer, and no other link. */
  lemma OneSideCalls(room: Room, a: Nick, b: Nick)
    ensures Calls(room, a, b) || Calls(room, b, a) <==> Agreed(room, a, b)
    ensures Calls(room, a, b) ==> !Calls(room, b, a)
  {
    LessIsTotal(a, b);
  }

  // ------------------------------------------------------------------
  // A room in which everybody knows the roles
  // ------------------------------------------------------------------

  function Hosts(room: Room): set<Nick> {
    set n | n in room && room[n].decides.IsSuperpeer() && room[n].forwards.IsSuperpeer()
  }

  function Promoted(room: Room): set<Nick> {
    set n | n in room && !room[n].decides.IsSuperpeer() && room[n].forwards.IsSuperpeer()
  }

  function Demoted(room: Room): set<Nick> {
    set n | n in room && room[n].decides.IsSuperpeer() && !room[n].forwards.IsSuperpeer()
  }

  function Regulars(room: Room): set<Nick> {
    set n | n in room && !room[n].decides.IsSuperpeer() && !room[n].forwards.IsSuperpeer()
  }

  /** Those who forward. */
  function Superpeers(room: Room): set<Nick> { set n | n in room && room[n].forwards.IsSuperpeer() }

  /** Whether one takes exactly those for superpeers who are: everybody else by the role it
      forwards by, nobody who is not there, and itself, where it decides by a regular
      peer's role, if it forwards. What one who decides as the host believes of itself does
      not matter: it hears of its own demotion like everybody else. */
  predicate Knows(room: Room, a: Nick)
    requires a in room
  {
    var view := room[a].view;
    && (forall n :: n in room && n != a ==> (RoleIn(view, n).IsSuperpeer() <==> room[n].forwards.IsSuperpeer()))
    && (forall n :: n in view && n !in room ==> !view[n].IsSuperpeer())
    && (!room[a].decides.IsSuperpeer() ==> (RoleIn(view, a).IsSuperpeer() <==> room[a].forwards.IsSuperpeer()))
  }

  predicate Informed(room: Room) {
    NoneDecidesAsMod(room) && forall a :: a in room ==> Knows(room, a)
  }

  /** Whether two are of one kind, or one is a host that was not demoted. */
  predicate Match(room: Room, a: Nick, b: Nick) {
    || a in Hosts(room) || b in Hosts(room)
    || (a in Promoted(room) && b in Promoted(room))
    || (a in Demoted(room) && b in Demoted(room))
  }

  lemma KnowsSuperpeer(room: Room, a: Nick)
    requires Informed(room) && a in room && a !in Hosts(room) && a !in Demoted(room)
    ensures NoSuperpeers(room[a].view) <==> Superpeers(room) == {}
  {
    var view := room[a].view;
    assert Knows(room, a);
    if n :| n in Superpeers(room) {
      assert RoleIn(view, n).IsSuperpeer();
    } else {
      assert forall n :: n in room ==> n !in Superpeers(room);
    }
  }

  lemma InformedDecides(room: Room, a: Nick, b: Nick)
    requires Informed(room) && a in room && b in room && a != b
    ensures room[a].Decides(b) <==>
      a in Hosts(room) || a in Demoted(room) || b in Superpeers(room) || Superpeers(room) == {}
  {
    assert Knows(room, a);
    if a !in Hosts(room) && a !in Demoted(room) {
      KnowsSuperpeer(room, a);
    }
  }

  /** When everybody knows the roles, two participants link exactly when nobody is a
      superpeer, or one of them is a host, or both were promoted, or both demoted. */
  lemma InformedLinks(room: Room, a: Nick, b: Nick)
    requires Informed(room) && a in room && b in room && a != b
    ensures Agreed(room, a, b) <==> Superpeers(room) == {} || Match(room, a, b)
  {
    InformedDecides(room, a, b);
    InformedDecides(room, b, a);
  }

  /** And their decisions differ, so that an offer may be made and rejected, exactly when
      somebody is a superpeer, neither of them is a host, and they are of different kinds:
      a promoted moderator rejects the regular peers. */
  lemma SidesDisagreeIff(room: Room, a: Nick, b: Nick)
    requires Informed(room) && a in room && b in room && a != b
    ensures (room[a].Decides(b) <==> !room[b].Decides(a)) <==>
      && Superpeers(room) != {} && !Match(room, a, b)
      && !(a in Regulars(room) && b in Regulars(room))
  {
    InformedDecides(room, a, b);
    InformedDecides(room, b, a);
  }

  // ------------------------------------------------------------------
  // A room in which nobody knows of a superpeer
  // ------------------------------------------------------------------

  /** Everybody takes everybody for a regular peer, as one does who joins after the roles
      were announced. */
  predicate Uninformed(room: Room) { forall a :: a in room ==> NoSuperpeers(room[a].view) }

  /** Then any two link. */
  lemma UninformedLinks(room: Room, a: Nick, b: Nick)
    requires Uninformed(room) && a in room && b in room && a != b
    ensures Agreed(room, a, b)
  {
  }

  // ------------------------------------------------------------------
  // Counting links
  // ------------------------------------------------------------------

  function Edge(a: Nick, b: Nick): (Nick, Nick) { if Less(a, b) then (a, b) else (b, a) }

  /** The links, each as the pair of the side that calls and the side that is called. */
  function Links(room: Room): set<(Nick, Nick)> {
    set a, b | a in room && b in room && Calls(room, a, b) :: (a, b)
  }

  function Star(x: Nick, others: set<Nick>): set<(Nick, Nick)> { set a | a in others :: Edge(x, a) }

  /** All pairs within a set. */
  function Mesh(s: set<Nick>): set<(Nick, Nick)> { set a, b | a in s && b in s && Less(a, b) :: (a, b) }

  /** All pairs between two sets. */
  function Cross(s: set<Nick>, p: set<Nick>): set<(Nick, Nick)> { set a, b | a in s && b in p :: Edge(a, b) }

  lemma EdgeEnds(x: Nick, a: Nick, y: Nick, b: Nick)
    requires Edge(x, a) == Edge(y, b)
    ensures (x == y && a == b) || (x == b && a == y)
  {
  }

  lemma {:induction false} StarSize(x: Nick, others: set<Nick>)
    requires x !in others
    ensures |Star(x, others)| == |others|
  {
    if others != {} {
      var a :| a in others;
      var fewer := others - {a};
      StarSize(x, fewer);
      forall b | b in fewer ensures Edge(x, b) != Edge(x, a) {
        if Edge(x, b) == Edge(x, a) {
          EdgeEnds(x, b, x, a);
        }
      }
      assert Star(x, others) == Star(x, fewer) + {Edge(x, a)};
    } else {
      assert Star(x, others) == {};
    }
  }

  lemma MeshWithout(s: set<Nick>, x: Nick)
    requires x in s
    ensures Mesh(s) == Mesh(s - {x}) + Star(x, s - {x})
    ensures Mesh(s - {x}) !! Star(x, s - {x})
  {
    forall a, b | a in s && b in s && Less(a, b)
      ensures (a, b) in Mesh(s - {x}) + Star(x, s - {x})
    {
      LessIsTotal(a, b);
      if a == x {
        assert Edge(x, b) == (a, b);
      } else if b == x {
        assert Edge(x, a) == (a, b);
      }
    }
    forall a | a in s - {x} ensures Edge(x, a) in Mesh(s) {
      LessIsTotal(x, a);
    }
  }

  lemma MeshStep(s: set<Nick>, x: Nick)
    requires x in s
    ensures |Mesh(s)| == |Mesh(s - {x})| + |s| - 1
  {
    MeshWithout(s, x);
    StarSize(x, s - {x});
  }

  lemma {:induction false} MeshSize(s: set<Nick>)
    ensures 2 * |Mesh(s)| == |s| * (|s| - 1)
  {
    if s == {} {
      assert Mesh(s) == {};
    } else {
      var x :| x in s;
      MeshSize(s - {x});
      MeshStep(s, x);
      MeshArithmetic(|s|, |Mesh(s - {x})|, |Mesh(s)|);
    }
  }

  lemma MeshArithmetic(n: int, before: int, now: int)
    requires 2 * before == (n - 1) * (n - 1 - 1) && now == before + n - 1
    ensures 2 * now == n * (n - 1)
  {
  }

  lemma CrossWithout(s: set<Nick>, p: set<Nick>, x: Nick)
    requires s !! p && x in p
    ensures Cross(s, p) == Cross(s, p - {x}) + Star(x, s)
    ensures Cross(s, p - {x}) !! Star(x, s)
  {
    forall a | a in s ensures Edge(a, x) == Edge(x, a) {
      LessIsTotal(a, x);
    }
    forall a, b, c | a in s && b in p - {x} && c in s ensures Edge(a, b) != Edge(x, c) {
      if Edge(a, b) == Edge(x, c) {
        EdgeEnds(a, b, x, c);
      }
    }
  }

  lemma CrossStep(s: set<Nick>, p: set<Nick>, x: Nick)
    requires s !! p && x in p
    ensures |Cross(s, p)| == |Cross(s, p - {x})| + |s|
  {
    CrossWithout(s, p, x);
    StarSize(x, s);
  }

  lemma {:induction false} CrossSize(s: set<Nick>, p: set<Nick>)
    requires s !! p
    ensures |Cross(s, p)| == |s| * |p|
    decreases |p|
  {
    if p == {} {
      assert Cross(s, p) == {};
    } else {
      var x :| x in p;
      CrossSize(s, p - {x});
      CrossStep(s, p, x);
      CrossArithmetic(|s|, |p|, |Cross(s, p - {x})|);
    }
  }

  lemma CrossArithmetic(n: int, m: int, before: int)
    requires before == n * (m - 1)
    ensures before + n == n * m
  {
  }

  lemma CrossOf(s: set<Nick>, p: set<Nick>, a: Nick, b: Nick)
    requires s !! p
    ensures (a, b) in Cross(s, p) <==> Less(a, b) && ((a in s && b in p) || (a in p && b in s))
  {
    LessIsTotal(a, b);
    if a in s && b in p && Less(a, b) {
      assert Edge(a, b) == (a, b);
    } else if a in p && b in s && Less(a, b) {
      assert Edge(b, a) == (a, b);
    }
    if (a, b) in Cross(s, p) {
      var x, y :| x in s && y in p && Edge(x, y) == (a, b);
      LessIsTotal(x, y);
    }
  }

  lemma LinkOf(room: Room, a: Nick, b: Nick)
    ensures (a, b) in Links(room) <==> Agreed(room, a, b) && Less(a, b)
  {
    LessIsTotal(a, b);
  }

  lemma KindsPartition(room: Room)
    ensures var h, m, d, p := Hosts(room), Promoted(room), Demoted(room), Regulars(room);
      && h + m + d + p == room.Keys && h !! m !! d !! p && Superpeers(room) == h + m
      && |room| == |h| + |m| + |d| + |p| && |m + d + p| == |m| + |d| + |p|
  {
    var h, m, d, p := Hosts(room), Promoted(room), Demoted(room), Regulars(room);
    assert h + m + d + p == room.Keys;
    assert |room| == |room.Keys|;
    assert |h + m + d + p| == |h + m + d| + |p|;
    assert |h + m + d| == |h + m| + |d|;
    assert |m + d + p| == |m + d| + |p|;
  }

  lemma InformedLinkIs(room: Room, a: Nick, b: Nick)
    requires Informed(room) && Superpeers(room) != {}
    ensures var h, m, d, p := Hosts(room), Promoted(room), Demoted(room), Regulars(room);
      (a, b) in Links(room) <==>
        (a, b) in Mesh(h) || (a, b) in Cross(h, m + d + p) || (a, b) in Mesh(m) || (a, b) in Mesh(d)
  {
    LinkOf(room, a, b);
    LessIsTotal(a, b);
    if a in room && b in room && a != b {
      InformedLinks(room, a, b);
    }
    MatchesAre(room, a, b);
  }

  /** Pairs that match, as pairs within and between kinds. */
  lemma MatchesAre(room: Room, a: Nick, b: Nick)
    ensures var h, m, d, p := Hosts(room), Promoted(room), Demoted(room), Regulars(room);
      a in room && b in room && Less(a, b) && Match(room, a, b) <==>
        (a, b) in Mesh(h) || (a, b) in Cross(h, m + d + p) || (a, b) in Mesh(m) || (a, b) in Mesh(d)
  {
    KindsPartition(room);
    CrossOf(Hosts(room), Promoted(room) + Demoted(room) + Regulars(room), a, b);
  }

  lemma FourSizes<T>(x: set<T>, y: set<T>, z: set<T>, u: set<T>)
    requires x !! y !! z !! u
    ensures |x + y + z + u| == |x| + |y| + |z| + |u|
  {
    assert |x + y + z| == |x + y| + |z|;
  }

  lemma MeshesApart(s: set<Nick>, p: set<Nick>)
    requires s !! p
    ensures Mesh(s) !! Mesh(p)
  {
  }

  lemma CrossApart(s: set<Nick>, p: set<Nick>, x: set<Nick>)
    requires s !! p && (x <= s || x <= p)
    ensures Cross(s, p) !! Mesh(x)
  {
    forall e | e in Cross(s, p) ensures e !in Mesh(x) {
      CrossOf(s, p, e.0, e.1);
    }
  }

  lemma InformedLinksAre(room: Room)
    requires Informed(room) && Superpeers(room) != {}
    ensures var h, m, d, p := Hosts(room), Promoted(room), Demoted(room), Regulars(room);
      Links(room) == Mesh(h) + Cross(h, m + d + p) + Mesh(m) + Mesh(d)
  {
    var h, m, d, p := Hosts(room), Promoted(room), Demoted(room), Regulars(room);
    forall e: (Nick, Nick)
      ensures e in Links(room) <==> e in Mesh(h) + Cross(h, m + d + p) + Mesh(m) + Mesh(d)
    {
      InformedLinkIs(room, e.0, e.1);
    }
  }

  /** Twice the number of links with so many hosts, promoted, demoted and regular. */
  function TwiceLinks(h: nat, m: nat, d: nat, p: nat): int {
    h * (h - 1) + 2 * (h * (m + d + p)) + m * (m - 1) + d * (d - 1)
  }

  lemma TwiceLinksIs(h: nat, m: nat, d: nat, p: nat, rest: nat, x: nat, y: nat, z: nat, u: nat)
    requires 2 * x == h * (h - 1) && y == h * rest && 2 * z == m * (m - 1) && 2 * u == d * (d - 1)
    requires rest == m + d + p
    ensures 2 * (x + y + z + u) == TwiceLinks(h, m, d, p)
  {
  }

  lemma PartsSize(h: set<Nick>, m: set<Nick>, d: set<Nick>, p: set<Nick>)
    requires h !! m !! d !! p
    ensures 2 * |Mesh(h) + Cross(h, m + d + p) + Mesh(m) + Mesh(d)| == TwiceLinks(|h|, |m|, |d|, |p|)
  {
    MeshSize(h);
    MeshSize(m);
    MeshSize(d);
    CrossSize(h, m + d + p);
    ThreeSizes(m, d, p);
    TwiceLinksIs(|h|, |m|, |d|, |p|, |m + d + p|, |Mesh(h)|, |Cross(h, m + d + p)|, |Mesh(m)|, |Mesh(d)|);
    PartsApart(h, m, d, p);
    FourSizes(Mesh(h), Cross(h, m + d + p), Mesh(m), Mesh(d));
  }

  lemma PartsApart(h: set<Nick>, m: set<Nick>, d: set<Nick>, p: set<Nick>)
    requires h !! m !! d !! p
    ensures Mesh(h) !! Cross(h, m + d + p) !! Mesh(m) !! Mesh(d)
  {
    MeshesApart(h, m);
    MeshesApart(h, d);
    MeshesApart(m, d);
    CrossApart(h, m + d + p, h);
    CrossApart(h, m + d + p, m);
    CrossApart(h, m + d + p, d);
  }

  lemma ThreeSizes<T>(x: set<T>, y: set<T>, z: set<T>)
    requires x !! y !! z
    ensures |x + y + z| == |x| + |y| + |z|
  {
  }

  /** The number of links when everybody knows the roles and somebody is a superpeer. */
  lemma InformedLinkCount(room: Room)
    requires Informed(room) && Superpeers(room) != {}
    ensures 2 * |Links(room)| ==
      TwiceLinks(|Hosts(room)|, |Promoted(room)|, |Demoted(room)|, |Regulars(room)|)
  {
    InformedLinksAre(room);
    KindsApart(room);
    PartsSize(Hosts(room), Promoted(room), Demoted(room), Regulars(room));
  }

  lemma KindsApart(room: Room)
    ensures Hosts(room) !! Promoted(room) !! Demoted(room) !! Regulars(room)
  {
  }

  /** With any two linked there are n(n-1)/2: without a superpeer, and in a room in which
      nobody knows of one. */
  lemma MeshLinkCount(room: Room)
    requires Uninformed(room) || (Informed(room) && Superpeers(room) == {})
    ensures 2 * |Links(room)| == |room| * (|room| - 1)
  {
    forall e: (Nick, Nick) ensures e in Links(room) <==> e in Mesh(room.Keys) {
      LinkOf(room, e.0, e.1);
      LessIsTotal(e.0, e.1);
      if e.0 in room && e.1 in room && e.0 != e.1 && Informed(room) && Superpeers(room) == {} {
        InformedLinks(room, e.0, e.1);
      }
    }
    assert Links(room) == Mesh(room.Keys);
    MeshSize(room.Keys);
    assert |room.Keys| == |room|;
  }
}
