/** One packet in a room: who speaks sends it on every link and to the relay, the relay
    hands it to its other clients, and who forwards sends on what it hears, by link or by
    the relay, to every link but that of the named sender. */
module Flooding {
  import opened Text
  import opened Peers
  import opened Topology

  // ------------------------------------------------------------------
  // The network of a moment
  // ------------------------------------------------------------------

  /** Who is there, who is linked, who forwards, and who is connected to the relay. */
  datatype Net = Net(people: set<Nick>, links: set<(Nick, Nick)>, forwarders: set<Nick>, relay: set<Nick>)

  predicate Linked(net: Net, a: Nick, b: Nick) {
    a in net.people && b in net.people && a != b && ((a, b) in net.links || (b, a) in net.links)
  }

  /** Two different relay clients. */
  predicate OnRelay(net: Net, a: Nick, b: Nick) {
    a in net.people && b in net.people && a in net.relay && b in net.relay && a != b
  }

  function Linkmates(net: Net, a: Nick): (r: set<Nick>)
    ensures forall b :: b in r <==> Linked(net, a, b)
  {
    set b | b in net.people && Linked(net, a, b)
  }

  // ------------------------------------------------------------------
  // Copies
  // ------------------------------------------------------------------

  /** The way a copy has come: the speaker first, then each participant it was sent to. */
  type Path = seq<Nick>

  /** A copy of the packet; `relayed` says whether the relay carried its first hop. */
  datatype Copy = Copy(relayed: bool, path: Path)

  /** The copies the speaker sends. */
  function Spoken(net: Net, speaker: Nick): set<Copy> {
    (set n | n in net.people && Linked(net, speaker, n) :: Copy(false, [speaker, n]))
    + (set n | n in net.people && OnRelay(net, speaker, n) :: Copy(true, [speaker, n]))
  }

  /** Whom the last participant of a path sends the copy on to. The relay and a link name
      the sender alike: it is the participant before the last. */
  function Onward(net: Net, path: Path): set<Nick>
    requires |path| >= 2
  {
    var here, sender := path[|path| - 1], path[|path| - 2];
    if here in net.forwarders then Linkmates(net, here) - {sender} else {}
  }

  function Forwards(net: Net, c: Copy): set<Copy>
    requires |c.path| >= 2
  {
    set n | n in Onward(net, c.path) :: Copy(c.relayed, c.path + [n])
  }

  // ------------------------------------------------------------------
  // One participant
  // ------------------------------------------------------------------

  /** The links of a participant, with what was sent on each. */
  type Outboxes<A> = map<Nick, seq<A>>

  /** The packet added for all of some recipients. */
  function SendTo<A>(links: Outboxes<A>, recipients: set<Nick>, packet: A): Outboxes<A> {
    map n | n in links :: if n in recipients then links[n] + [packet] else links[n]
  }

  class Participant<A> {
    var forwards: Role
    var links: Outboxes<A>
    var connected: bool
    var toRelay: seq<A>

    constructor (role: Role, peers: set<Nick>, connected: bool)
      ensures forwards == role && links.Keys == peers && (forall n :: n in links ==> links[n] == [])
      ensures this.connected == connected && toRelay == []
    {
      forwards, this.connected, toRelay := role, connected, [];
      links := map n | n in peers :: [];
    }

    /** The task that sends the microphone's packets, on every link and to the relay. */
    method Speak(packet: A)
      modifies this`links, this`toRelay
      ensures links == SendTo(old(links), old(links).Keys, packet)
      ensures toRelay == old(toRelay) + if connected then [packet] else []
    {
      var todo := links.Keys;
      while todo != {}
        invariant todo <= links.Keys == old(links).Keys && toRelay == old(toRelay)
        invariant forall n :: n in links ==> links[n] == if n in todo then old(links)[n] else old(links)[n] + [packet]
      {
        var n :| n in todo;
        links := links[n := links[n] + [packet]];
        todo := todo - {n};
      }
      if connected {
        toRelay := toRelay + [packet];
      }
      assert links == SendTo(old(links), old(links).Keys, packet);
    }

    /** The tasks that play a packet and, on a superpeer, forward it. */
    method Hear(sender: Nick, packet: A)
      modifies this`links
      ensures links == SendTo(old(links), if forwards == Host || forwards == Mod then old(links).Keys - {sender} else {}, packet)
    {
      if forwards.IsSuperpeer() {
        var todo := links.Keys;
        while todo != {}
          invariant todo <= links.Keys == old(links).Keys
          invariant forall n :: n in links ==>
            links[n] == if n in todo || n == sender then old(links)[n] else old(links)[n] + [packet]
        {
          var n :| n in todo;
          if n != sender {
            links := links[n := links[n] + [packet]];
          }
          todo := todo - {n};
        }
      }
      assert links == SendTo(old(links), if forwards.IsSuperpeer() then old(links).Keys - {sender} else {}, packet);
    }
  }

  /** What `Speak` adds to each outbox is what the spoken copies say. */
  lemma SpeakIsSpoken<A>(net: Net, speaker: Nick, links: Outboxes<A>, packet: A, n: Nick)
    requires links.Keys == Linkmates(net, speaker) && n in links
    ensures SendTo(links, links.Keys, packet)[n] ==
      links[n] + if Copy(false, [speaker, n]) in Spoken(net, speaker) then [packet] else []
  {
    assert Linked(net, speaker, n);
  }

  /** What `Hear` adds to each outbox is what the forwarded copies say. */
  lemma HearIsForwards<A>(net: Net, c: Copy, links: Outboxes<A>, packet: A, n: Nick)
    requires |c.path| >= 2 && links.Keys == Linkmates(net, c.path[|c.path| - 1]) && n in links
    ensures var here, sender := c.path[|c.path| - 1], c.path[|c.path| - 2];
      SendTo(links, if here in net.forwarders then links.Keys - {sender} else {}, packet)[n] ==
      links[n] + if Copy(c.relayed, c.path + [n]) in Forwards(net, c) then [packet] else []
  {
    assert links[n] + [] == links[n];
    if Copy(c.relayed, c.path + [n]) in Forwards(net, c) {
      var m :| m in Onward(net, c.path) && c.path + [n] == c.path + [m];
      assert (c.path + [n])[|c.path|] == n && (c.path + [m])[|c.path|] == m;
    }
  }

  // ------------------------------------------------------------------
  // Every order of arrival
  // ------------------------------------------------------------------

  /** Copies under way and copies heard. */
  datatype Air = Air(flying: multiset<Copy>, heard: multiset<Copy>)

  /** Any copy under way arrives next. */
  ghost predicate Arrives(net: Net, air: Air, c: Copy, next: Air) {
    && c in air.flying && |c.path| >= 2
    && next == Air(air.flying - multiset{c} + multiset(Forwards(net, c)), air.heard + multiset{c})
  }

  ghost predicate ArrivesAt(net: Net, run: seq<Air>, copies: seq<Copy>, i: nat)
    requires i < |copies| && |run| == |copies| + 1
  {
    Arrives(net, run[i], copies[i], run[i + 1])
  }

  ghost predicate IsFlood(net: Net, speaker: Nick, run: seq<Air>, copies: seq<Copy>) {
    && |run| == |copies| + 1
    && run[0] == Air(multiset(Spoken(net, speaker)), multiset{})
    && forall i :: 0 <= i < |copies| ==> ArrivesAt(net, run, copies, i)
  }

  ghost predicate Quiet(run: seq<Air>) { run != [] && run[|run| - 1].flying == multiset{} }

  // ------------------------------------------------------------------
  // Walks
  // ------------------------------------------------------------------

  /** A copy's way along links, the first hop perhaps by the relay, through forwarders only,
      that never goes back to where it just came from. */
  predicate IsWalk(net: Net, speaker: Nick, c: Copy)
    decreases |c.path|
  {
    && |c.path| >= 2 && c.path[0] == speaker
    && if |c.path| == 2 then
         if c.relayed then OnRelay(net, speaker, c.path[1]) else Linked(net, speaker, c.path[1])
       else
         var before := c.path[..|c.path| - 1];
         IsWalk(net, speaker, Copy(c.relayed, before)) && c.path[|c.path| - 1] in Onward(net, before)
  }

  /** A copy that must have been sent: its last hop is the first, or the copy before it
      was heard. */
  ghost predicate Due(net: Net, speaker: Nick, heard: multiset<Copy>, c: Copy) {
    IsWalk(net, speaker, c) && (|c.path| == 2 || Copy(c.relayed, c.path[..|c.path| - 1]) in heard)
  }

  ghost predicate CountOk(net: Net, speaker: Nick, air: Air, c: Copy) {
    air.flying[c] + air.heard[c] == if Due(net, speaker, air.heard, c) then 1 else 0
  }

  /** Every copy that must have been sent exists once, and no other. */
  ghost predicate Accounted(net: Net, speaker: Nick, air: Air) { forall c :: CountOk(net, speaker, air, c) }

  lemma SpokenAre(net: Net, speaker: Nick, c: Copy)
    ensures c in Spoken(net, speaker) <==> |c.path| == 2 && IsWalk(net, speaker, c)
  {
    if |c.path| == 2 {
      assert c.path == [c.path[0], c.path[1]];
    }
  }

  lemma StartAccounted(net: Net, speaker: Nick)
    ensures Accounted(net, speaker, Air(multiset(Spoken(net, speaker)), multiset{}))
  {
    forall c ensures CountOk(net, speaker, Air(multiset(Spoken(net, speaker)), multiset{}), c) {
      SpokenAre(net, speaker, c);
    }
  }

  lemma ForwardsAre(net: Net, c: Copy, q: Copy)
    requires |c.path| >= 2
    ensures q in Forwards(net, c) <==>
      && |q.path| >= 3 && Copy(q.relayed, q.path[..|q.path| - 1]) == c
      && q.path[|q.path| - 1] in Onward(net, c.path)
  {
    if |q.path| >= 3 && Copy(q.relayed, q.path[..|q.path| - 1]) == c && q.path[|q.path| - 1] in Onward(net, c.path) {
      assert q.path == c.path + [q.path[|q.path| - 1]];
    }
  }

  lemma CountStep(net: Net, speaker: Nick, air: Air, c: Copy, next: Air, q: Copy)
    requires Arrives(net, air, c, next)
    requires CountOk(net, speaker, air, c) && CountOk(net, speaker, air, q)
    ensures CountOk(net, speaker, next, q)
  {
    ForwardsAre(net, c, q);
    assert Due(net, speaker, air.heard, c) && air.heard[c] == 0;
    assert next.flying[q] + next.heard[q]
        == air.flying[q] + air.heard[q] + if q in Forwards(net, c) then 1 else 0;
    if |q.path| >= 3 && Copy(q.relayed, q.path[..|q.path| - 1]) == c {
      assert Due(net, speaker, next.heard, q) <==> q in Forwards(net, c);
    } else {
      assert Due(net, speaker, next.heard, q) <==> Due(net, speaker, air.heard, q);
    }
  }

  lemma {:induction false} AccountedAlong(net: Net, speaker: Nick, run: seq<Air>, copies: seq<Copy>, i: nat)
    requires IsFlood(net, speaker, run, copies) && i <= |copies|
    ensures Accounted(net, speaker, run[i])
  {
    if i == 0 {
      StartAccounted(net, speaker);
    } else {
      AccountedAlong(net, speaker, run, copies, i - 1);
      assert ArrivesAt(net, run, copies, i - 1);
      forall q ensures CountOk(net, speaker, run[i], q) {
        CountStep(net, speaker, run[i - 1], copies[i - 1], run[i], q);
      }
    }
  }

  /** In every run, no copy is heard twice, and every copy heard came along a walk. */
  lemma HeardAreWalks(net: Net, speaker: Nick, run: seq<Air>, copies: seq<Copy>, i: nat, c: Copy)
    requires IsFlood(net, speaker, run, copies) && i <= |copies|
    ensures run[i].heard[c] <= 1
    ensures c in run[i].heard ==> IsWalk(net, speaker, c)
  {
    AccountedAlong(net, speaker, run, copies, i);
    assert CountOk(net, speaker, run[i], c);
  }

  lemma {:induction false} WalksAreHeard(net: Net, speaker: Nick, air: Air, c: Copy)
    requires Accounted(net, speaker, air) && air.flying == multiset{} && IsWalk(net, speaker, c)
    ensures air.heard[c] == 1
    decreases |c.path|
  {
    assert CountOk(net, speaker, air, c);
    if |c.path| > 2 {
      WalksAreHeard(net, speaker, air, Copy(c.relayed, c.path[..|c.path| - 1]));
    }
  }

  /** Once nothing is under way, exactly the walks were heard, each once, whatever the
      order of arrival was. */
  lemma QuietHeardExactlyWalks(net: Net, speaker: Nick, run: seq<Air>, copies: seq<Copy>, c: Copy)
    requires IsFlood(net, speaker, run, copies) && Quiet(run)
    ensures run[|copies|].heard[c] == if IsWalk(net, speaker, c) then 1 else 0
  {
    AccountedAlong(net, speaker, run, copies, |copies|);
    if IsWalk(net, speaker, c) {
      WalksAreHeard(net, speaker, run[|copies|], c);
    } else {
      HeardAreWalks(net, speaker, run, copies, |copies|, c);
    }
  }

  // ------------------------------------------------------------------
  // How far a copy gets
  // ------------------------------------------------------------------

  lemma InnerForwards(net: Net, speaker: Nick, c: Copy)
    requires IsWalk(net, speaker, c) && |c.path| > 2
    ensures var n := |c.path|;
      c.path[n - 2] in net.forwarders * net.people && c.path[n - 1] != c.path[n - 3] && c.path[n - 1] != c.path[n - 2]
  {
    var before := c.path[..|c.path| - 1];
    assert Linked(net, before[|before| - 1], c.path[|c.path| - 1]);
  }

  lemma Three<T>(s: set<T>, x: T, y: T, z: T)
    requires x in s && y in s && z in s && x != y && y != z && x != z
    ensures |s| >= 3
  {
    assert |s - {x}| == |s| - 1;
    assert |s - {x} - {y}| == |s| - 2;
    assert z in s - {x} - {y};
  }

  /** Whatever the links and the relay, with at most two forwarders every packet dies
      within three hops. */
  lemma ThreeHops(net: Net, speaker: Nick, c: Copy)
    requires |net.forwarders * net.people| <= 2 && IsWalk(net, speaker, c)
    ensures |c.path| <= 4
  {
    if |c.path| > 4 {
      var before := Copy(c.relayed, c.path[..|c.path| - 1]);
      var earlier := Copy(c.relayed, before.path[..|before.path| - 1]);
      InnerForwards(net, speaker, c);
      InnerForwards(net, speaker, before);
      InnerForwards(net, speaker, earlier);
      Three(net.forwarders * net.people, c.path[|c.path| - 2], c.path[|c.path| - 3], c.path[|c.path| - 4]);
    }
  }

  function PathsOver(nodes: set<Nick>, n: nat): set<Path> {
    if n == 0 then {[]} else set p, x | p in PathsOver(nodes, n - 1) && x in nodes :: p + [x]
  }

  lemma {:induction false} PathOver(nodes: set<Nick>, path: Path)
    requires forall i :: 0 <= i < |path| ==> path[i] in nodes
    ensures path in PathsOver(nodes, |path|)
    decreases |path|
  {
    if path != [] {
      var before := path[..|path| - 1];
      PathOver(nodes, before);
      assert path == before + [path[|path| - 1]];
    }
  }

  lemma {:induction false} WalkStays(net: Net, speaker: Nick, c: Copy)
    requires IsWalk(net, speaker, c)
    ensures forall i :: 0 <= i < |c.path| ==> c.path[i] in net.people
    decreases |c.path|
  {
    if |c.path| > 2 {
      WalkStays(net, speaker, Copy(c.relayed, c.path[..|c.path| - 1]));
    }
  }

  /** The walks of up to three hops. */
  function ShortWalks(net: Net, speaker: Nick): set<Copy> {
    set p, r | p in PathsOver(net.people, 2) + PathsOver(net.people, 3) + PathsOver(net.people, 4)
               && r in {false, true} && IsWalk(net, speaker, Copy(r, p)) :: Copy(r, p)
  }

  /** No walk of the speaker's has more than three hops. */
  ghost predicate AllShort(net: Net, speaker: Nick) {
    forall c :: IsWalk(net, speaker, c) ==> |c.path| <= 4
  }

  lemma WalksAreShort(net: Net, speaker: Nick, c: Copy)
    requires AllShort(net, speaker)
    ensures IsWalk(net, speaker, c) <==> c in ShortWalks(net, speaker)
  {
    if IsWalk(net, speaker, c) {
      WalkStays(net, speaker, c);
      PathOver(net.people, c.path);
      assert c == Copy(c.relayed, c.path);
    }
  }

  lemma {:induction false} HeardCount(net: Net, speaker: Nick, run: seq<Air>, copies: seq<Copy>, i: nat)
    requires IsFlood(net, speaker, run, copies) && i <= |copies|
    ensures |run[i].heard| == i
  {
    if i > 0 {
      HeardCount(net, speaker, run, copies, i - 1);
      assert ArrivesAt(net, run, copies, i - 1);
    }
  }

  lemma {:induction false} SizeOfSet<T>(b: set<T>)
    ensures |multiset(b)| == |b|
  {
    if b != {} {
      var x :| x in b;
      SizeOfSet(b - {x});
      assert multiset(b) == multiset(b - {x}) + multiset{x};
    }
  }

  lemma PartSize<T>(a: multiset<T>, b: set<T>)
    requires a <= multiset(b)
    ensures |a| <= |b|
  {
    SizeOfSet(b);
    assert multiset(b) == a + (multiset(b) - a);
  }

  /** When no walk has more than three hops every run ends: it has at most as many arrivals
      as there are walks, and exactly as many once nothing is under way. */
  lemma FloodEnds(net: Net, speaker: Nick, run: seq<Air>, copies: seq<Copy>)
    requires AllShort(net, speaker) && IsFlood(net, speaker, run, copies)
    ensures |copies| <= |ShortWalks(net, speaker)|
    ensures Quiet(run) ==> |copies| == |ShortWalks(net, speaker)|
  {
    var heard, walks := run[|copies|].heard, ShortWalks(net, speaker);
    HeardCount(net, speaker, run, copies, |copies|);
    forall c ensures heard[c] <= multiset(walks)[c] {
      HeardAreWalks(net, speaker, run, copies, |copies|, c);
      WalksAreShort(net, speaker, c);
    }
    PartSize(heard, walks);
    if Quiet(run) {
      forall c ensures heard[c] == multiset(walks)[c] {
        QuietHeardExactlyWalks(net, speaker, run, copies, c);
        WalksAreShort(net, speaker, c);
      }
      assert heard == multiset(walks);
      SizeOfSet(walks);
    }
  }

  lemma {:induction false} HeardIsBounded(net: Net, speaker: Nick, run: seq<Air>, copies: seq<Copy>, i: nat, c: Copy)
    requires IsFlood(net, speaker, run, copies) && i <= |copies|
    ensures c in run[i].heard ==> |c.path| <= i + 1
    ensures c in run[i].flying ==> |c.path| <= i + 2
  {
    if i == 0 {
      SpokenAre(net, speaker, c);
    } else {
      assert ArrivesAt(net, run, copies, i - 1);
      HeardIsBounded(net, speaker, run, copies, i - 1, c);
      HeardIsBounded(net, speaker, run, copies, i - 1, copies[i - 1]);
      ForwardsAre(net, copies[i - 1], c);
    }
  }

  /** With a walk longer than a run so far, copies are still under way. */
  lemma LongWalkFlies(net: Net, speaker: Nick, run: seq<Air>, copies: seq<Copy>, c: Copy)
    requires IsFlood(net, speaker, run, copies) && IsWalk(net, speaker, c) && |c.path| >= |copies| + 2
    ensures !Quiet(run)
  {
    HeardIsBounded(net, speaker, run, copies, |copies|, c);
    AccountedAlong(net, speaker, run, copies, |copies|);
    if Quiet(run) {
      WalksAreHeard(net, speaker, run[|copies|], c);
    }
  }

  // ------------------------------------------------------------------
  // Forwarders that are all linked
  // ------------------------------------------------------------------

  /** Any two forwarders are linked. */
  predicate ForwardersLinked(net: Net) {
    forall a, b :: a in net.forwarders * net.people && b in net.forwarders * net.people && a != b ==> Linked(net, a, b)
  }

  lemma Another<T>(s: set<T>, x: T, y: T) returns (z: T)
    requires |s| >= 3
    ensures z in s && z != x && z != y
  {
    var rest := s - {x} - {y};
    assert |s - {x}| >= 2;
    assert |rest| >= 1;
    z :| z in rest;
  }

  /** A walk that ends at one of three or more linked forwarders goes on as long as one
      likes. */
  lemma {:induction false} LongWalk(net: Net, speaker: Nick, first: Copy, n: nat) returns (c: Copy)
    requires |net.forwarders * net.people| >= 3 && ForwardersLinked(net)
    requires IsWalk(net, speaker, first) && first.path[|first.path| - 1] in net.forwarders * net.people
    ensures IsWalk(net, speaker, c) && |c.path| >= n && c.path[|c.path| - 1] in net.forwarders * net.people
    decreases n
  {
    if n == 0 {
      c := first;
    } else {
      var before := LongWalk(net, speaker, first, n - 1);
      var here, sender := before.path[|before.path| - 1], before.path[|before.path| - 2];
      var x := Another(net.forwarders * net.people, here, sender);
      c := Copy(before.relayed, before.path + [x]);
      OneFurther(net, speaker, before, x);
    }
  }

  lemma OneFurther(net: Net, speaker: Nick, before: Copy, x: Nick)
    requires IsWalk(net, speaker, before) && before.path[|before.path| - 1] in net.forwarders
    requires Linked(net, before.path[|before.path| - 1], x) && x != before.path[|before.path| - 2]
    ensures IsWalk(net, speaker, Copy(before.relayed, before.path + [x]))
  {
    assert (before.path + [x])[..|before.path|] == before.path;
  }

  /** No packet that reaches three or more linked forwarders ever dies: whatever happened so
      far, copies are still under way. */
  lemma FloodNeverEnds(net: Net, speaker: Nick, first: Copy, run: seq<Air>, copies: seq<Copy>)
    requires |net.forwarders * net.people| >= 3 && ForwardersLinked(net)
    requires IsWalk(net, speaker, first) && first.path[|first.path| - 1] in net.forwarders * net.people
    requires IsFlood(net, speaker, run, copies)
    ensures !Quiet(run)
  {
    var c := LongWalk(net, speaker, first, |copies| + 2);
    LongWalkFlies(net, speaker, run, copies, c);
  }
}
