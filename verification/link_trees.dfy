/** When everybody hears everybody else exactly once, for any links, any forwarders and any
    relay at all: either every pair has one hop and forwarding never comes into it, or the
    relay is not in use and the links are a tree whose inner participants forward. */
module LinkTrees {
  import opened Text
  import opened Topology
  import opened Flooding
  import opened HeardOnce

  // ------------------------------------------------------------------
  // Trails
  // ------------------------------------------------------------------

  /** A way along links, through forwarders, that never goes straight back: what a copy that
      the relay did not carry has behind it. */
  ghost predicate Trail(net: Net, p: Path) {
    && |p| >= 2
    && (forall i :: 0 <= i < |p| - 1 ==> LinkedAt(net, p, i))
    && forall i :: 0 < i < |p| - 1 ==> ThroughAt(net, p, i)
  }

  predicate LinkedAt(net: Net, p: Path, i: nat)
    requires i < |p| - 1
  {
    Linked(net, p[i], p[i + 1])
  }

  predicate ThroughAt(net: Net, p: Path, i: nat)
    requires 0 < i < |p| - 1
  {
    p[i] in net.forwarders && p[i + 1] != p[i - 1]
  }

  ghost predicate Joins(net: Net, v: Nick, w: Nick, p: Path) { Trail(net, p) && p[0] == v && p[|p| - 1] == w }

  lemma TrailPrefix(net: Net, p: Path, n: nat)
    requires Trail(net, p) && 2 <= n <= |p|
    ensures Trail(net, p[..n])
  {
    forall i | 0 <= i < n - 1 ensures LinkedAt(net, p[..n], i) {
      assert LinkedAt(net, p, i);
    }
    forall i | 0 < i < n - 1 ensures ThroughAt(net, p[..n], i) {
      assert ThroughAt(net, p, i);
    }
  }

  lemma TrailSuffix(net: Net, p: Path, n: nat)
    requires Trail(net, p) && n + 2 <= |p|
    ensures Trail(net, p[n..])
  {
    forall i | 0 <= i < |p| - n - 1 ensures LinkedAt(net, p[n..], i) {
      assert LinkedAt(net, p, n + i);
    }
    forall i | 0 < i < |p| - n - 1 ensures ThroughAt(net, p[n..], i) {
      assert ThroughAt(net, p, n + i);
    }
  }

  /** One more hop at the front. */
  lemma TrailFront(net: Net, x: Nick, p: Path)
    requires Trail(net, p) && Linked(net, x, p[0]) && p[0] in net.forwarders && p[1] != x
    ensures Trail(net, [x] + p)
  {
    var q := [x] + p;
    forall i | 0 <= i < |q| - 1 ensures LinkedAt(net, q, i) {
      assert i > 0 ==> LinkedAt(net, p, i - 1);
    }
    forall i | 0 < i < |q| - 1 ensures ThroughAt(net, q, i) {
      assert i > 1 ==> ThroughAt(net, p, i - 1);
    }
  }

  /** One more hop at the end. */
  lemma TrailEnd(net: Net, p: Path, x: Nick)
    requires Trail(net, p) && Linked(net, p[|p| - 1], x) && p[|p| - 1] in net.forwarders && p[|p| - 2] != x
    ensures Trail(net, p + [x])
  {
    var q := p + [x];
    forall i | 0 <= i < |q| - 1 ensures LinkedAt(net, q, i) {
      assert i < |p| - 1 ==> LinkedAt(net, p, i);
    }
    forall i | 0 < i < |q| - 1 ensures ThroughAt(net, q, i) {
      assert i < |p| - 1 ==> ThroughAt(net, p, i);
    }
  }

  function Back(p: Path): (r: Path)
    ensures |r| == |p| && forall i :: 0 <= i < |r| ==> r[i] == p[|p| - 1 - i]
  {
    seq(|p|, i requires 0 <= i < |p| => p[|p| - 1 - i])
  }

  /** The same way back. */
  lemma TrailBack(net: Net, p: Path)
    requires Trail(net, p)
    ensures Trail(net, Back(p))
  {
    forall i | 0 <= i < |p| - 1 ensures LinkedAt(net, Back(p), i) {
      assert LinkedAt(net, p, |p| - 2 - i);
    }
    forall i | 0 < i < |p| - 1 ensures ThroughAt(net, Back(p), i) {
      assert ThroughAt(net, p, |p| - 1 - i);
    }
  }

  lemma TwoTrail(net: Net, a: Nick, b: Nick)
    ensures Trail(net, [a, b]) <==> Linked(net, a, b)
  {
    assert LinkedAt(net, [a, b], 0) <==> Linked(net, a, b);
  }

  lemma ThreeTrail(net: Net, a: Nick, x: Nick, b: Nick)
    requires Linked(net, a, x) && Linked(net, x, b) && x in net.forwarders && a != b
    ensures Trail(net, [a, x, b])
  {
    TwoTrail(net, x, b);
    TrailFront(net, a, [x, b]);
    assert [a] + [x, b] == [a, x, b];
  }

  /** Copies over links alone are trails. */
  lemma {:induction false} WalkIffTrail(net: Net, v: Nick, p: Path)
    ensures IsWalk(net, v, Copy(false, p)) <==> Trail(net, p) && p[0] == v
    decreases |p|
  {
    if |p| == 2 {
      assert p == [p[0], p[1]];
      TwoTrail(net, p[0], p[1]);
    } else if |p| > 2 {
      var before := p[..|p| - 1];
      WalkIffTrail(net, v, before);
      if IsWalk(net, v, Copy(false, p)) {
        TrailEnd(net, before, p[|p| - 1]);
        assert p == before + [p[|p| - 1]];
      }
      if Trail(net, p) {
        TrailPrefix(net, p, |p| - 1);
        assert LinkedAt(net, p, |p| - 2) && ThroughAt(net, p, |p| - 2);
      }
    }
  }

  lemma JoinsReach(net: Net, v: Nick, w: Nick, p: Path)
    requires Joins(net, v, w, p)
    ensures Reaches(net, v, Copy(false, p), w) && v in net.people && w in net.people
  {
    WalkIffTrail(net, v, p);
    assert LinkedAt(net, p, 0) && LinkedAt(net, p, |p| - 2);
  }

  // ------------------------------------------------------------------
  // Once each
  // ------------------------------------------------------------------

  lemma OnlyOne(net: Net, v: Nick, w: Nick, c: Copy, q: Copy)
    requires HearAllOnce(net) && v in net.people && w in net.people
    requires Reaches(net, v, c, w) && Reaches(net, v, q, w)
    ensures v != w && c == q
  {
    assert OnceFor(net, v, w);
    if v != w {
      var o :| OnlyCopy(net, v, w, o);
      assert c == o && q == o;
    }
  }

  lemma SomeCopy(net: Net, v: Nick, w: Nick) returns (c: Copy)
    requires HearAllOnce(net) && v in net.people && w in net.people && v != w
    ensures Reaches(net, v, c, w)
  {
    assert OnceFor(net, v, w);
    c :| OnlyCopy(net, v, w, c);
  }

  lemma OnlyTrail(net: Net, v: Nick, w: Nick, p: Path, q: Path)
    requires HearAllOnce(net) && Joins(net, v, w, p) && Joins(net, v, w, q)
    ensures v != w && p == q
  {
    JoinsReach(net, v, w, p);
    JoinsReach(net, v, w, q);
    OnlyOne(net, v, w, Copy(false, p), Copy(false, q));
  }

  /** Whoever hands the relay nothing is heard along a trail. */
  lemma SomeTrail(net: Net, v: Nick, w: Nick) returns (p: Path)
    requires HearAllOnce(net) && v in net.people && w in net.people && v != w
    requires forall b :: !OnRelay(net, v, b)
    ensures Joins(net, v, w, p)
  {
    var c := SomeCopy(net, v, w);
    FirstHop(net, v, c);
    p := c.path;
    assert c == Copy(false, p);
    WalkIffTrail(net, v, p);
  }

  // ------------------------------------------------------------------
  // One hop each
  // ------------------------------------------------------------------

  /** Every two have a link or the relay between them, and not both, and nobody who
      forwards has a link. */
  ghost predicate Direct(net: Net) {
    && (forall a, b :: a in net.people && b in net.people && a != b ==> (Linked(net, a, b) <==> !OnRelay(net, a, b)))
    && LinkedDoNotForward(net)
  }

  ghost predicate LinkedDoNotForward(net: Net) { forall f, b :: Linked(net, f, b) ==> f !in net.forwarders }

  lemma SingleHops(net: Net, v: Nick, c: Copy)
    requires LinkedDoNotForward(net) && IsWalk(net, v, c)
    ensures c.path == [v, c.path[1]] && Hop(net, c.relayed, v, c.path[1])
  {
    if |c.path| > 2 {
      LastLinked(net, v, c);
      InnerForwards(net, v, c);
    } else {
      assert c.path == [v, c.path[1]];
    }
  }

  lemma DirectIsOnce(net: Net)
    requires Direct(net)
    ensures HearAllOnce(net)
  {
    forall v, w | v in net.people && w in net.people ensures OnceFor(net, v, w) {
      var only := Copy(OnRelay(net, v, w), [v, w]);
      forall c ensures Reaches(net, v, c, w) <==> v != w && c == only {
        if IsWalk(net, v, c) {
          SingleHops(net, v, c);
        }
        if c == only {
          OneHop(net, c.relayed, v, w);
        }
      }
      assert v != w ==> OnlyCopy(net, v, w, only);
    }
  }

  lemma OnceIsDirect(net: Net)
    requires HearAllOnce(net) && LinkedDoNotForward(net)
    ensures Direct(net)
  {
    forall a, b | a in net.people && b in net.people && a != b ensures Linked(net, a, b) <==> !OnRelay(net, a, b) {
      var c := SomeCopy(net, a, b);
      SingleHops(net, a, c);
      if Linked(net, a, b) && OnRelay(net, a, b) {
        LinkedAndRelayed(net, a, b);
      }
    }
  }

  // ------------------------------------------------------------------
  // The relay in use
  // ------------------------------------------------------------------

  /** Two relay clients have no trail between them. */
  lemma NoTrailOnRelay(net: Net, r: Nick, s: Nick, p: Path)
    requires HearAllOnce(net) && OnRelay(net, r, s)
    ensures !Joins(net, r, s, p)
  {
    if Joins(net, r, s, p) {
      JoinsReach(net, r, s, p);
      OneHop(net, true, r, s);
      OnlyOne(net, r, s, Copy(false, p), Copy(true, [r, s]));
    }
  }

  /** A relay client that forwards has no link. */
  lemma RelayForwarderAlone(net: Net, f: Nick, r: Nick, c: Nick)
    requires HearAllOnce(net) && OnRelay(net, f, r) && f in net.forwarders
    ensures !Linked(net, f, c)
  {
    if Linked(net, f, c) {
      TwoTrail(net, f, c);
      if OnRelay(net, f, c) {
        NoTrailOnRelay(net, f, c, [f, c]);
      } else {
        TwoHops(net, true, r, f, c);
        var p := SomeTrail(net, c, r);
        TrailBack(net, p);
        JoinsReach(net, r, c, Back(p));
        OnlyOne(net, r, c, Copy(false, Back(p)), Copy(true, [r, f, c]));
      }
    }
  }

  /** Two trails from a forwarder to different ends leave a trail between these. */
  lemma {:induction false} Fork(net: Net, p: Path, q: Path) returns (t: Path)
    requires Trail(net, p) && Trail(net, q) && p[0] == q[0] && p[0] in net.forwarders && p[|p| - 1] != q[|q| - 1]
    ensures Joins(net, p[|p| - 1], q[|q| - 1], t)
    decreases |p|
  {
    if p[1] != q[1] {
      t := Bend(net, p, q);
    } else if |p| == 2 {
      t := q[1..];
      TrailSuffix(net, q, 1);
    } else if |q| == 2 {
      TrailSuffix(net, p, 1);
      TrailBack(net, p[1..]);
      t := Back(p[1..]);
    } else {
      TrailSuffix(net, p, 1);
      TrailSuffix(net, q, 1);
      assert ThroughAt(net, p, 1);
      t := Fork(net, p[1..], q[1..]);
    }
  }

  /** Along one trail back to the start and out along the other. */
  lemma {:induction false} Bend(net: Net, p: Path, q: Path) returns (t: Path)
    requires Trail(net, p) && Trail(net, q) && p[0] == q[0] && p[0] in net.forwarders && p[1] != q[1]
    ensures Joins(net, p[|p| - 1], q[|q| - 1], t)
    decreases |p|
  {
    assert LinkedAt(net, p, 0);
    TrailFront(net, p[1], q);
    var q' := [p[1]] + q;
    if |p| == 2 {
      t := q';
    } else {
      TrailSuffix(net, p, 1);
      assert ThroughAt(net, p, 1);
      t := Bend(net, p[1..], q');
    }
  }

  /** With two clients on the relay nobody who forwards is off it. */
  lemma NoForwarderOffRelay(net: Net, r: Nick, s: Nick, f: Nick)
    requires HearAllOnce(net) && OnRelay(net, r, s) && f in net.forwarders && f in net.people
    ensures f in net.relay
  {
    if f !in net.relay {
      var p := SomeTrail(net, f, r);
      var q := SomeTrail(net, f, s);
      var t := Fork(net, p, q);
      NoTrailOnRelay(net, r, s, t);
    }
  }

  lemma RelayNeedsDirect(net: Net, r: Nick, s: Nick)
    requires HearAllOnce(net) && OnRelay(net, r, s)
    ensures Direct(net)
  {
    forall f, b | Linked(net, f, b) ensures f !in net.forwarders {
      if f in net.forwarders {
        NoForwarderOffRelay(net, r, s, f);
        var other := if f == r then s else r;
        RelayForwarderAlone(net, f, other, b);
      }
    }
    OnceIsDirect(net);
  }

  // ------------------------------------------------------------------
  // Inner participants
  // ------------------------------------------------------------------

  /** Whoever has two links forwards. */
  ghost predicate InnerForward(net: Net) {
    forall x, a, b :: Linked(net, x, a) && Linked(net, x, b) && a != b ==> x in net.forwarders
  }

  /** Two links, and no forwarding. */
  ghost predicate Blocks(net: Net, x: Nick) {
    x in net.people && x !in net.forwarders && exists a, b :: Linked(net, x, a) && Linked(net, x, b) && a != b
  }

  /** If one with two links does not forward, neither do its neighbours, and they are linked
      to each other. */
  lemma BlockedNeighbours(net: Net, x: Nick, a: Nick, b: Nick)
    requires HearAllOnce(net) && RelayIdle(net) && x !in net.forwarders
    requires Linked(net, x, a) && Linked(net, x, b) && a != b
    ensures a !in net.forwarders
  {
    var p := SomeTrail(net, a, b);
    assert LinkedAt(net, p, 0);
    if a in net.forwarders {
      assert |p| > 2 ==> ThroughAt(net, p, 1);
      TrailFront(net, x, p);
      TwoTrail(net, x, b);
      OnlyTrail(net, x, b, [x] + p, [x, b]);
    }
  }

  lemma BlockedLinked(net: Net, x: Nick, a: Nick, b: Nick)
    requires HearAllOnce(net) && RelayIdle(net) && x !in net.forwarders
    requires Linked(net, x, a) && Linked(net, x, b) && a != b
    ensures Linked(net, a, b) && Blocks(net, a)
  {
    BlockedNeighbours(net, x, a, b);
    var p := SomeTrail(net, a, b);
    assert LinkedAt(net, p, 0);
    if |p| > 2 {
      assert ThroughAt(net, p, 1);
      BlockedNeighbours(net, a, p[1], x);
    }
    assert Linked(net, a, b) && Linked(net, a, x) && b != x;
  }

  lemma BlockingSpreads(net: Net, x: Nick, a: Nick)
    requires HearAllOnce(net) && RelayIdle(net) && Blocks(net, x) && Linked(net, x, a)
    ensures Blocks(net, a)
  {
    var b, c :| Linked(net, x, b) && Linked(net, x, c) && b != c;
    BlockedLinked(net, x, a, if a == b then c else b);
  }

  /** Then nobody forwards at all, and all are linked. */
  lemma BlockedIsDirect(net: Net, x: Nick)
    requires HearAllOnce(net) && RelayIdle(net) && Blocks(net, x)
    ensures Direct(net)
  {
    forall f, b | Linked(net, f, b) ensures f !in net.forwarders {
      AllBlocked(net, x, f);
    }
    OnceIsDirect(net);
  }

  ghost function AllBlocking(net: Net): set<Nick> { set y | y in net.people && Blocks(net, y) }

  lemma BlockingStep(net: Net, a: Nick, b: Nick)
    requires HearAllOnce(net) && RelayIdle(net) && a in AllBlocking(net) && Linked(net, a, b)
    ensures b in AllBlocking(net)
  {
    BlockingSpreads(net, a, b);
  }

  lemma AllBlocked(net: Net, x: Nick, w: Nick)
    requires HearAllOnce(net) && RelayIdle(net) && x in AllBlocking(net) && w in net.people
    ensures w in AllBlocking(net)
  {
    forall a, b | a in AllBlocking(net) && Linked(net, a, b) ensures b in AllBlocking(net) {
      BlockingStep(net, a, b);
    }
    Everybody(net, AllBlocking(net), x, w);
  }

  /** A set that no link leads out of holds everybody. */
  lemma Everybody(net: Net, s: set<Nick>, x: Nick, w: Nick)
    requires HearAllOnce(net) && RelayIdle(net) && x in s && x in net.people && w in net.people
    requires forall a, b :: a in s && Linked(net, a, b) ==> b in s
    ensures w in s
  {
    assert ShutIn(net, s, x) && OnceFor(net, x, w);
    if w !in s {
      NotReached(net, s, x, w);
    }
  }

  // ------------------------------------------------------------------
  // Trees
  // ------------------------------------------------------------------

  /** Of those before it in the order, `order[i]` is linked to `order[j]` alone. */
  ghost predicate AttachedTo(net: Net, order: seq<Nick>, i: nat, j: int)
    requires i < |order|
  {
    0 <= j < i && Linked(net, order[i], order[j]) &&
    forall k :: 0 <= k < i && Linked(net, order[i], order[k]) ==> k == j
  }

  ghost predicate Attached(net: Net, order: seq<Nick>, i: nat)
    requires i < |order|
  {
    exists j :: AttachedTo(net, order, i, j)
  }

  /** Grown by adding one at a time, each linked to exactly one of those already there. */
  ghost predicate Grown(net: Net, order: seq<Nick>) {
    && (forall i, j :: 0 <= i < j < |order| ==> order[i] != order[j])
    && forall i :: 0 < i < |order| ==> Attached(net, order, i)
  }

  function Members(order: seq<Nick>): (s: set<Nick>) { set x | x in order }

  ghost predicate IsTree(net: Net) { exists order :: Grown(net, order) && Members(order) == net.people }

  /** The same links among some of the participants. */
  function Among(net: Net, s: set<Nick>): Net { net.(people := s) }

  lemma TrailAmong(net: Net, s: set<Nick>, p: Path)
    requires s <= net.people
    ensures Trail(Among(net, s), p) <==> Trail(net, p) && forall i :: 0 <= i < |p| ==> p[i] in s
  {
    var small := Among(net, s);
    if Trail(small, p) {
      forall i | 0 <= i < |p| - 1 ensures LinkedAt(net, p, i) {
        assert LinkedAt(small, p, i);
      }
      forall i | 0 <= i < |p| ensures p[i] in s {
        assert i < |p| - 1 ==> LinkedAt(small, p, i);
        assert i == |p| - 1 ==> LinkedAt(small, p, i - 1);
      }
      forall i | 0 < i < |p| - 1 ensures ThroughAt(net, p, i) {
        assert ThroughAt(small, p, i);
      }
    }
    if Trail(net, p) && forall i :: 0 <= i < |p| ==> p[i] in s {
      forall i | 0 <= i < |p| - 1 ensures LinkedAt(small, p, i) {
        assert LinkedAt(net, p, i);
      }
      forall i | 0 < i < |p| - 1 ensures ThroughAt(small, p, i) {
        assert ThroughAt(net, p, i);
      }
    }
  }

  lemma GrownBefore(net: Net, order: seq<Nick>, n: nat)
    requires Grown(net, order) && n <= |order| && Members(order) <= net.people
    ensures Grown(Among(net, Members(order[..n])), order[..n])
  {
    var small := Among(net, Members(order[..n]));
    forall i | 0 < i < n ensures Attached(small, order[..n], i) {
      assert Attached(net, order, i);
      var j :| AttachedTo(net, order, i, j);
      assert order[..n][i] == order[i] && order[..n][j] == order[j];
      assert AttachedTo(small, order[..n], i, j);
    }
  }

  lemma InnerAmong(net: Net, s: set<Nick>)
    requires InnerForward(net) && RelayIdle(net) && s <= net.people
    ensures InnerForward(Among(net, s)) && RelayIdle(Among(net, s))
  {
    forall x, a, b | Linked(Among(net, s), x, a) && Linked(Among(net, s), x, b) && a != b
      ensures x in net.forwarders
    {
      assert Linked(net, x, a) && Linked(net, x, b);
    }
    forall a, b ensures !OnRelay(Among(net, s), a, b) {
      assert !OnRelay(net, a, b);
    }
  }

  /** `x` is linked to `y` alone. */
  ghost predicate Leaf(net: Net, x: Nick, y: Nick) { forall b :: Linked(net, x, b) <==> b == y }

  /** A trail passes a leaf at its ends only. */
  lemma LeafAtEnds(net: Net, x: Nick, y: Nick, p: Path, i: nat)
    requires Leaf(net, x, y) && Trail(net, p) && 0 < i < |p| - 1
    ensures p[i] != x
  {
    assert LinkedAt(net, p, i - 1) && LinkedAt(net, p, i) && ThroughAt(net, p, i);
    assert Linked(net, p[i], p[i - 1]) && Linked(net, p[i], p[i + 1]);
  }

  lemma LeafLast(net: Net, x: Nick, y: Nick, v: Nick, p: Path)
    requires Leaf(net, x, y) && Joins(net, v, x, p)
    ensures p[|p| - 2] == y && (|p| > 2 ==> Trail(net, p[..|p| - 1]))
  {
    assert LinkedAt(net, p, |p| - 2);
    assert Linked(net, x, p[|p| - 2]);
    if |p| > 2 {
      TrailPrefix(net, p, |p| - 1);
    }
  }

  /** Trails between two others are those there are without the leaf. */
  lemma WithoutLeaf(net: Net, x: Nick, y: Nick, v: Nick, w: Nick, p: Path)
    requires Leaf(net, x, y) && v != x && w != x
    ensures Joins(net, v, w, p) <==> Joins(Among(net, net.people - {x}), v, w, p)
  {
    TrailAmong(net, net.people - {x}, p);
    if Joins(net, v, w, p) {
      forall i | 0 <= i < |p| ensures p[i] in net.people - {x} {
        if 0 < i < |p| - 1 {
          LeafAtEnds(net, x, y, p, i);
        }
        assert if i < |p| - 1 then LinkedAt(net, p, i) else LinkedAt(net, p, i - 1);
      }
    }
  }

  /** Exactly one trail between any two, and none from anybody back to himself. */
  ghost predicate UniqueTrails(net: Net) {
    forall v, w :: v in net.people && w in net.people ==> UniqueFor(net, v, w)
  }

  ghost predicate UniqueFor(net: Net, v: Nick, w: Nick) {
    if v == w then forall p :: !Joins(net, v, w, p) else exists p :: TheTrail(net, v, w, p)
  }

  ghost predicate TheTrail(net: Net, v: Nick, w: Nick, p: Path) {
    Joins(net, v, w, p) && forall q :: Joins(net, v, w, q) ==> q == p
  }

  lemma UniqueIsOnce(net: Net)
    requires UniqueTrails(net) && RelayIdle(net)
    ensures HearAllOnce(net)
  {
    forall v, w | v in net.people && w in net.people ensures OnceFor(net, v, w) {
      assert UniqueFor(net, v, w);
      forall c ensures Reaches(net, v, c, w) <==> !c.relayed && Joins(net, v, w, c.path) {
        WalkIffTrail(net, v, c.path);
        if IsWalk(net, v, c) {
          FirstHop(net, v, c);
        }
        if !c.relayed {
          assert c == Copy(false, c.path);
        }
      }
      if v != w {
        var p :| TheTrail(net, v, w, p);
        assert OnlyCopy(net, v, w, Copy(false, p));
      }
    }
  }

  /** To the leaf there is one trail from everybody else, through its one neighbour. */
  lemma ToLeaf(net: Net, x: Nick, y: Nick, v: Nick)
    requires Leaf(net, x, y) && InnerForward(net) && x in net.people && v in net.people && v != x
    requires UniqueTrails(Among(net, net.people - {x}))
    ensures UniqueFor(net, v, x)
  {
    var small := Among(net, net.people - {x});
    assert Linked(net, x, y);
    TwoTrail(net, y, x);
    assert UniqueFor(small, v, y);
    if v == y {
      forall p | Joins(net, v, x, p) ensures p == [y, x] {
        LeafLast(net, x, y, v, p);
        var before := p[..|p| - 1];
        assert !Joins(small, y, y, before);
        WithoutLeaf(net, x, y, y, y, before);
      }
      assert TheTrail(net, v, x, [y, x]);
    } else {
      var q :| TheTrail(small, v, y, q);
      WithoutLeaf(net, x, y, v, y, q);
      assert LinkedAt(net, q, |q| - 2);
      TrailAmong(net, net.people - {x}, q);
      assert Linked(net, y, q[|q| - 2]) && Linked(net, y, x) && q[|q| - 2] != x;
      TrailEnd(net, q, x);
      forall p | Joins(net, v, x, p) ensures p == q + [x] {
        LeafLast(net, x, y, v, p);
        if |p| > 2 {
          WithoutLeaf(net, x, y, v, y, p[..|p| - 1]);
          assert p == p[..|p| - 1] + [x];
        }
      }
      assert TheTrail(net, v, x, q + [x]);
    }
  }

  /** And from the leaf the same trails back. */
  lemma FromLeaf(net: Net, x: Nick, w: Nick)
    requires w != x && UniqueFor(net, w, x)
    ensures UniqueFor(net, x, w)
  {
    var q :| TheTrail(net, w, x, q);
    TrailBack(net, q);
    forall p | Joins(net, x, w, p) ensures p == Back(q) {
      TrailBack(net, p);
      assert Joins(net, w, x, Back(p));
      assert p == Back(Back(p));
    }
    assert TheTrail(net, x, w, Back(q));
  }

  lemma LeafNotBack(net: Net, x: Nick, y: Nick, p: Path)
    requires Leaf(net, x, y) && UniqueTrails(Among(net, net.people - {x})) && x in net.people
    ensures !Joins(net, x, x, p)
  {
    assert Linked(net, x, y);
    assert UniqueFor(Among(net, net.people - {x}), y, y);
    if |p| > 3 && Joins(net, x, x, p) {
      var inner := p[1..|p| - 1];
      assert LinkedAt(net, p, 0);
      LeafLast(net, x, y, x, p);
      TrailSuffix(net, p[..|p| - 1], 1);
      assert p[..|p| - 1][1..] == inner;
      WithoutLeaf(net, x, y, y, y, inner);
    } else if |p| == 3 && Trail(net, p) {
      assert ThroughAt(net, p, 1);
    } else if |p| == 2 && Trail(net, p) {
      assert LinkedAt(net, p, 0);
    }
  }

  lemma AddLeaf(net: Net, x: Nick, y: Nick)
    requires Leaf(net, x, y) && InnerForward(net) && x in net.people
    requires UniqueTrails(Among(net, net.people - {x}))
    ensures UniqueTrails(net)
  {
    var small := Among(net, net.people - {x});
    forall v, w | v in net.people && w in net.people ensures UniqueFor(net, v, w) {
      if v == x && w == x {
        forall p ensures !Joins(net, x, x, p) {
          LeafNotBack(net, x, y, p);
        }
      } else if w == x {
        ToLeaf(net, x, y, v);
      } else if v == x {
        ToLeaf(net, x, y, w);
        FromLeaf(net, x, w);
      } else {
        OthersKeep(net, x, y, v, w);
      }
    }
  }

  lemma OthersKeep(net: Net, x: Nick, y: Nick, v: Nick, w: Nick)
    requires Leaf(net, x, y) && v in net.people && w in net.people && v != x && w != x
    requires UniqueTrails(Among(net, net.people - {x}))
    ensures UniqueFor(net, v, w)
  {
    var small := Among(net, net.people - {x});
    assert UniqueFor(small, v, w);
    forall p ensures Joins(net, v, w, p) <==> Joins(small, v, w, p) {
      WithoutLeaf(net, x, y, v, w, p);
    }
    if v != w {
      var p :| TheTrail(small, v, w, p);
      assert TheTrail(net, v, w, p);
    }
  }

  lemma LastIsLeaf(net: Net, order: seq<Nick>) returns (y: Nick)
    requires Grown(net, order) && Members(order) == net.people && |order| >= 2
    ensures Leaf(net, order[|order| - 1], y)
  {
    var n := |order| - 1;
    assert Attached(net, order, n);
    var j :| AttachedTo(net, order, n, j);
    y := order[j];
    forall b ensures Linked(net, order[n], b) <==> b == y {
      if Linked(net, order[n], b) {
        var k :| 0 <= k < |order| && order[k] == b;
      }
    }
  }

  lemma NobodyElse(net: Net, order: seq<Nick>)
    requires |order| <= 1 && Members(order) == net.people
    ensures UniqueTrails(net)
  {
    assert forall a, b :: a in net.people && b in net.people ==> a == b;
    assert forall a, b :: !Linked(net, a, b);
    forall v, w | v in net.people && w in net.people ensures UniqueFor(net, v, w) {
      forall p ensures !Joins(net, v, w, p) {
        assert |p| >= 2 ==> !LinkedAt(net, p, 0);
      }
    }
  }

  /** In a tree whose inner participants forward, any two have exactly one trail. */
  lemma {:induction false} TreeTrails(net: Net, order: seq<Nick>)
    requires Grown(net, order) && Members(order) == net.people && InnerForward(net) && RelayIdle(net)
    ensures UniqueTrails(net)
    decreases |order|
  {
    if |order| <= 1 {
      NobodyElse(net, order);
    } else {
      var n := |order| - 1;
      var y := LastIsLeaf(net, order);
      assert Members(order[..n]) == net.people - {order[n]};
      GrownBefore(net, order, n);
      InnerAmong(net, net.people - {order[n]});
      TreeTrails(Among(net, net.people - {order[n]}), order[..n]);
      AddLeaf(net, order[n], y);
    }
  }

  // ------------------------------------------------------------------
  // Growing the tree
  // ------------------------------------------------------------------

  /** Where a trail leaves a set. */
  lemma {:induction false} Leaves(net: Net, s: set<Nick>, p: Path) returns (i: nat)
    requires Trail(net, p) && p[0] in s && p[|p| - 1] !in s
    ensures i < |p| - 1 && p[i] in s && p[i + 1] !in s
  {
    i := 0;
    while p[i + 1] in s
      invariant i < |p| - 1 && p[i] in s
      decreases |p| - i
    {
      i := i + 1;
    }
  }

  /** A newcomer linked to the tree is linked to one of it only. */
  lemma OneAttachment(net: Net, order: seq<Nick>, x: Nick, y: Nick, z: Nick)
    requires HearAllOnce(net) && RelayIdle(net) && InnerForward(net)
    requires Grown(net, order) && Members(order) <= net.people
    requires x !in order && y in order && z in order && Linked(net, x, y) && Linked(net, x, z)
    ensures y == z
  {
    if y != z {
      var s := Members(order);
      var small := Among(net, s);
      GrownBefore(net, order, |order|);
      assert order[..|order|] == order;
      InnerAmong(net, s);
      TreeTrails(small, order);
      assert UniqueFor(small, y, z);
      var q :| TheTrail(small, y, z, q);
      TrailAmong(net, s, q);
      ThreeTrail(net, y, x, z);
      assert q[1] in s && [y, x, z][1] !in s;
      OnlyTrail(net, y, z, q, [y, x, z]);
    }
  }

  lemma Attach(net: Net, order: seq<Nick>, x: Nick, j: nat)
    requires HearAllOnce(net) && RelayIdle(net) && InnerForward(net)
    requires Grown(net, order) && Members(order) <= net.people
    requires x !in order && j < |order| && Linked(net, x, order[j])
    ensures Grown(net, order + [x])
  {
    var more := order + [x];
    forall i | 0 < i < |more| ensures Attached(net, more, i) {
      if i < |order| {
        assert Attached(net, order, i);
        var k :| AttachedTo(net, order, i, k);
        assert AttachedTo(net, more, i, k);
      } else {
        forall k | 0 <= k < i && Linked(net, more[i], more[k]) ensures k == j {
          OneAttachment(net, order, x, order[j], order[k]);
        }
        assert AttachedTo(net, more, i, j);
      }
    }
  }

  lemma {:induction false} Grow(net: Net, order: seq<Nick>) returns (all: seq<Nick>)
    requires HearAllOnce(net) && RelayIdle(net) && InnerForward(net)
    requires Grown(net, order) && order != [] && Members(order) <= net.people
    ensures Grown(net, all) && Members(all) == net.people
    decreases |net.people - Members(order)|
  {
    var s := Members(order);
    if s == net.people {
      all := order;
    } else {
      assert exists w :: w in net.people && w !in s;
      var w :| w in net.people && w !in s;
      var p := SomeTrail(net, order[0], w);
      var i := Leaves(net, s, p);
      var x := p[i + 1];
      assert LinkedAt(net, p, i);
      var j :| 0 <= j < |order| && order[j] == p[i];
      assert Linked(net, x, order[j]);
      Attach(net, order, x, j);
      assert Members(order + [x]) == s + {x};
      assert net.people - (s + {x}) == net.people - s - {x};
      all := Grow(net, order + [x]);
    }
  }

  lemma OnceIsTree(net: Net)
    requires HearAllOnce(net) && RelayIdle(net) && InnerForward(net)
    ensures IsTree(net)
  {
    if net.people == {} {
      assert Grown(net, []) && Members([]) == net.people;
    } else {
      var v :| v in net.people;
      assert Grown(net, [v]);
      var order := Grow(net, [v]);
    }
  }

  /** For any participants, links, forwarders and relay clients: everybody hears everybody
      else's packets exactly once, and nobody his own, if and only if every two have a link
      or the relay between them but not both and nobody with a link forwards, or nobody
      shares the relay, the links are a tree, and whoever has two of them forwards. */
  lemma OnceIff(net: Net)
    ensures HearAllOnce(net) <==> Direct(net) || (RelayIdle(net) && IsTree(net) && InnerForward(net))
  {
    if Direct(net) {
      DirectIsOnce(net);
    } else if HearAllOnce(net) {
      if r, s :| OnRelay(net, r, s) {
        RelayNeedsDirect(net, r, s);
      } else if InnerForward(net) {
        OnceIsTree(net);
      } else {
        var x, a, b :| Linked(net, x, a) && Linked(net, x, b) && a != b && x !in net.forwarders;
        BlockedIsDirect(net, x);
      }
    } else if RelayIdle(net) && IsTree(net) && InnerForward(net) {
      var order :| Grown(net, order) && Members(order) == net.people;
      TreeTrails(net, order);
      UniqueIsOnce(net);
    }
  }
}
