/** A room over time: participants enter and leave, hear who is there and what roles they
    have, promote and demote, and make and answer offers, in every order in which the
    messages can arrive. */
module RoomRuns {
  import opened Text
  import opened Peers
  import opened Topology
  import opened Flooding
  import opened HeardOnce

  /** What has been said so far and can still be heard: a participant's announcement of its
      role, or a host's order about somebody. */
  datatype Note = Announced(from: Nick, role: Role) | Ordered(from: Nick, target: Nick, role: Role)

  /** `offers` holds the offers not yet answered, and `links` the answered ones. */
  datatype World = World(room: Room, notes: set<Note>, offers: set<(Nick, Nick)>, links: set<(Nick, Nick)>)

  datatype Step =
    | Enter(a: Nick, host: bool, forwards: Role)
    | HearJoin(a: Nick, b: Nick)
    | HearRole(a: Nick, b: Nick, role: Role)
    | Order(a: Nick, target: Nick, role: Role)
    | HearOrder(a: Nick, b: Nick, target: Nick, role: Role)
    | Offer(a: Nick, b: Nick)
    | Answer(a: Nick, b: Nick)
    | Drop(a: Nick, b: Nick)
    | HearLeave(a: Nick, b: Nick)
    | Leave(a: Nick)

  const EmptyRoom := World(map[], {}, {}, {})

  predicate Moderates(role: Role) { role.IsSuperpeer() }

  predicate Enabled(w: World, step: Step) {
    match step
    case Enter(a, _, _) => a !in w.room
    case HearJoin(a, b) => a in w.room && b in w.room && a != b
    case HearRole(a, b, role) => a in w.room && a != b && Announced(b, role) in w.notes
    case Order(a, _, role) => a in w.room && w.room[a].decides == Host && role != Host
    case HearOrder(a, b, target, role) =>
      && a in w.room && a != b && Ordered(b, target, role) in w.notes
      && Moderates(RoleIn(w.room[a].view, b))
    case Offer(a, b) => a in w.room && b in w.room[a].view && w.room[a].Decides(b) && Less(a, b)
    case Answer(a, b) => a in w.room && b in w.room && (b, a) in w.offers
    case Drop(a, b) => (a, b) in w.links
    case HearLeave(a, b) => a in w.room && b !in w.room
    case Leave(a) => a in w.room
  }

  /** The pairs that do not involve somebody. */
  function Without(pairs: set<(Nick, Nick)>, a: Nick): set<(Nick, Nick)> {
    set p | p in pairs && p.0 != a && p.1 != a
  }

  function Learn(room: Room, a: Nick, b: Nick, role: Role): Room
    requires a in room
  {
    room[a := room[a].(view := room[a].view[b := role])]
  }

  /** A participant decides by the role it entered with, and announces that role. Of whoever
      joins it first assumes that he is a regular peer. An order about oneself changes the
      role one forwards by. */
  function Apply(w: World, step: Step): World
    requires Enabled(w, step)
  {
    match step
    case Enter(a, host, forwards) =>
      var decides := if host then Host else Peer;
      w.(room := w.room[a := Person(decides, forwards, map[])], notes := w.notes + {Announced(a, decides)})
    case HearJoin(a, b) => w.(room := Learn(w.room, a, b, Peer))
    case HearRole(a, b, role) => w.(room := Learn(w.room, a, b, role))
    case Order(a, target, role) =>
      w.(room := Learn(w.room, a, target, role), notes := w.notes + {Ordered(a, target, role)})
    case HearOrder(a, b, target, role) =>
      var heard := Learn(w.room, a, target, role);
      w.(room := if target == a then heard[a := heard[a].(forwards := role)] else heard)
    case Offer(a, b) => w.(offers := w.offers + {(a, b)})
    case Answer(a, b) =>
      w.(offers := w.offers - {(b, a)}, links := if w.room[a].Decides(b) then w.links + {(b, a)} else w.links)
    case Drop(a, b) => w.(links := w.links - {(a, b)})
    case HearLeave(a, b) => w.(room := w.room[a := w.room[a].(view := w.room[a].view - {b})])
    case Leave(a) => World(w.room - {a}, w.notes, Without(w.offers, a), Without(w.links, a))
  }

  ghost predicate StepAt(ws: seq<World>, steps: seq<Step>, i: nat)
    requires i < |steps| && |ws| == |steps| + 1
  {
    Enabled(ws[i], steps[i]) && ws[i + 1] == Apply(ws[i], steps[i])
  }

  ghost predicate IsRun(ws: seq<World>, steps: seq<Step>) {
    && |ws| == |steps| + 1
    && ws[0] == EmptyRoom
    && forall i :: 0 <= i < |steps| ==> StepAt(ws, steps, i)
  }

  lemma Extend(ws: seq<World>, steps: seq<Step>, step: Step) returns (ws': seq<World>, steps': seq<Step>)
    requires IsRun(ws, steps) && Enabled(ws[|steps|], step)
    ensures IsRun(ws', steps') && steps' == steps + [step] && ws' == ws + [Apply(ws[|steps|], step)]
  {
    ws', steps' := ws + [Apply(ws[|steps|], step)], steps + [step];
    forall i | 0 <= i < |steps'| ensures StepAt(ws', steps', i) {
      assert i < |steps| ==> StepAt(ws, steps, i);
    }
  }

  // ------------------------------------------------------------------
  // What every run keeps
  // ------------------------------------------------------------------

  /** In every run nobody decides as a moderator, whatever promotions there are. */
  lemma {:induction false} NobodyDecidesAsModerator(ws: seq<World>, steps: seq<Step>, i: nat)
    requires IsRun(ws, steps) && i <= |steps|
    ensures NoneDecidesAsMod(ws[i].room)
  {
    if i > 0 {
      NobodyDecidesAsModerator(ws, steps, i - 1);
      assert StepAt(ws, steps, i - 1);
    }
  }

  /** At step `k` an offer was made by the lesser side, which decided for the link. */
  ghost predicate OfferedAt(ws: seq<World>, steps: seq<Step>, k: nat, a: Nick, b: Nick)
    requires |ws| == |steps| + 1
  {
    && k < |steps| && steps[k] == Offer(a, b) && Less(a, b)
    && a in ws[k].room && ws[k].room[a].Decides(b)
  }

  /** At step `k` the other side answered, and decided for the link as well. */
  ghost predicate AnsweredAt(ws: seq<World>, steps: seq<Step>, k: nat, a: Nick, b: Nick)
    requires |ws| == |steps| + 1
  {
    k < |steps| && steps[k] == Answer(b, a) && b in ws[k].room && ws[k].room[b].Decides(a)
  }

  lemma {:induction false} OfferWasMade(ws: seq<World>, steps: seq<Step>, i: nat, a: Nick, b: Nick) returns (k: nat)
    requires IsRun(ws, steps) && i <= |steps| && (a, b) in ws[i].offers
    ensures k < i && OfferedAt(ws, steps, k, a, b)
  {
    assert StepAt(ws, steps, i - 1);
    if (a, b) in ws[i - 1].offers {
      k := OfferWasMade(ws, steps, i - 1, a, b);
    } else {
      k := i - 1;
    }
  }

  /** In every run every link came of one offer and one answer, each by a side that decided
      for it at that moment; whatever the two have learned of each other since then. */
  lemma {:induction false} LinkWasAgreed(ws: seq<World>, steps: seq<Step>, i: nat, a: Nick, b: Nick)
    returns (k: nat, n: nat)
    requires IsRun(ws, steps) && i <= |steps| && (a, b) in ws[i].links
    ensures k < n < i && OfferedAt(ws, steps, k, a, b) && AnsweredAt(ws, steps, n, a, b)
  {
    assert StepAt(ws, steps, i - 1);
    if (a, b) in ws[i - 1].links {
      k, n := LinkWasAgreed(ws, steps, i - 1, a, b);
    } else {
      n := i - 1;
      k := OfferWasMade(ws, steps, n, a, b);
    }
  }

  // ------------------------------------------------------------------
  // What one knows is what one was told last
  // ------------------------------------------------------------------

  /** The role `a` was last told of `b`: nothing before it entered, and nothing any more
      once it heard that `b` left. */
  function Told(steps: seq<Step>, a: Nick, b: Nick): Option<Role> {
    if steps == [] then None
    else
      var before := Told(steps[..|steps| - 1], a, b);
      match steps[|steps| - 1]
      case HearJoin(x, y) => if (x, y) == (a, b) then Some(Peer) else before
      case HearRole(x, y, role) => if (x, y) == (a, b) then Some(role) else before
      case Order(x, y, role) => if (x, y) == (a, b) then Some(role) else before
      case HearOrder(x, _, y, role) => if (x, y) == (a, b) then Some(role) else before
      case HearLeave(x, y) => if (x, y) == (a, b) then None else before
      case Enter(x, _, _) => if x == a then None else before
      case _ => before
  }

  /** The role `a` was last told to forward by: the one it entered with, or one that an
      order it heard about itself gave it since. */
  function ToldToForward(steps: seq<Step>, a: Nick): Role {
    if steps == [] then Peer
    else
      var before := ToldToForward(steps[..|steps| - 1], a);
      match steps[|steps| - 1]
      case Enter(x, _, forwards) => if x == a then forwards else before
      case HearOrder(x, _, y, role) => if x == a && y == a then role else before
      case _ => before
  }

  function CameAs(steps: seq<Step>, a: Nick): Role {
    if steps == [] then Peer
    else
      match steps[|steps| - 1]
      case Enter(x, host, _) => if x != a then CameAs(steps[..|steps| - 1], a) else if host then Host else Peer
      case _ => CameAs(steps[..|steps| - 1], a)
  }

  function Known(view: View, b: Nick): Option<Role> { if b in view then Some(view[b]) else None }

  lemma ToldStep(w: World, step: Step, before: seq<Step>, a: Nick, b: Nick)
    requires Enabled(w, step) && a in Apply(w, step).room
    requires a in w.room ==> Known(w.room[a].view, b) == Told(before, a, b)
    ensures Known(Apply(w, step).room[a].view, b) == Told(before + [step], a, b)
  {
    assert (before + [step])[..|before|] == before;
  }

  lemma ForwardStep(w: World, step: Step, before: seq<Step>, a: Nick)
    requires Enabled(w, step) && a in Apply(w, step).room
    requires a in w.room ==>
      w.room[a].forwards == ToldToForward(before, a) && w.room[a].decides == CameAs(before, a)
    ensures Apply(w, step).room[a].forwards == ToldToForward(before + [step], a)
    ensures Apply(w, step).room[a].decides == CameAs(before + [step], a)
  {
    assert (before + [step])[..|before|] == before;
  }

  /** In every run, at every moment: the role one knows of another is the one it was told
      last, the role one forwards by is the one it was last told to forward by, and the role
      one decides by is the one it came as. */
  lemma {:induction false} KnowsWhatWasTold(ws: seq<World>, steps: seq<Step>, i: nat, a: Nick, b: Nick)
    requires IsRun(ws, steps) && i <= |steps| && a in ws[i].room
    ensures Known(ws[i].room[a].view, b) == Told(steps[..i], a, b)
    ensures ws[i].room[a].forwards == ToldToForward(steps[..i], a) && ws[i].room[a].decides == CameAs(steps[..i], a)
  {
    assert i > 0;
    assert StepAt(ws, steps, i - 1);
    if a in ws[i - 1].room {
      KnowsWhatWasTold(ws, steps, i - 1, a, b);
    }
    assert steps[..i] == steps[..i - 1] + [steps[i - 1]];
    ToldStep(ws[i - 1], steps[i - 1], steps[..i - 1], a, b);
    ForwardStep(ws[i - 1], steps[i - 1], steps[..i - 1], a);
  }

  // ------------------------------------------------------------------
  // What can happen, from what has happened
  // ------------------------------------------------------------------

  /** Who entered and has not left. */
  predicate Present(steps: seq<Step>, a: Nick) {
    steps != [] &&
    match steps[|steps| - 1]
    case Enter(x, _, _) => x == a || Present(steps[..|steps| - 1], a)
    case Leave(x) => x != a && Present(steps[..|steps| - 1], a)
    case _ => Present(steps[..|steps| - 1], a)
  }

  /** `b` announced its role when it entered. */
  predicate HasAnnounced(steps: seq<Step>, b: Nick, role: Role) {
    exists k :: 0 <= k < |steps| && Announces(steps[k], b, role)
  }

  predicate Announces(step: Step, b: Nick, role: Role) {
    step.Enter? && step.a == b && role == if step.host then Host else Peer
  }

  predicate HasOrdered(steps: seq<Step>, b: Nick, target: Nick, role: Role) {
    exists k :: 0 <= k < |steps| && steps[k] == Order(b, target, role)
  }

  predicate IsSuperpeerRole(role: Option<Role>) { role == Some(Host) || role == Some(Mod) }

  /** Whether `a` decides for a link to `b`, from what it came as and was told. */
  ghost predicate WouldLink(steps: seq<Step>, a: Nick, b: Nick) {
    CameAs(steps, a) != Peer || IsSuperpeerRole(Told(steps, a, b)) || forall n :: !IsSuperpeerRole(Told(steps, a, n))
  }

  /** An offer was made, and neither answered since nor made void by somebody's leaving. */
  predicate OfferOpen(steps: seq<Step>, a: Nick, b: Nick) {
    steps != [] &&
    var before := OfferOpen(steps[..|steps| - 1], a, b);
    match steps[|steps| - 1]
    case Offer(x, y) => (x, y) == (a, b) || before
    case Answer(x, y) => (y, x) != (a, b) && before
    case Leave(x) => x != a && x != b && before
    case _ => before
  }

  /** An offer was accepted, and the link neither lost since nor ended by somebody's leaving. */
  ghost predicate LinkUp(steps: seq<Step>, a: Nick, b: Nick) {
    steps != [] &&
    var before := steps[..|steps| - 1];
    match steps[|steps| - 1]
    case Answer(x, y) => ((y, x) == (a, b) && WouldLink(before, b, a)) || LinkUp(before, a, b)
    case Drop(x, y) => (x, y) != (a, b) && LinkUp(before, a, b)
    case Leave(x) => x != a && x != b && LinkUp(before, a, b)
    case _ => LinkUp(before, a, b)
  }

  lemma Snoc(steps: seq<Step>, i: nat)
    requires 0 < i <= |steps|
    ensures steps[..i] == steps[..i - 1] + [steps[i - 1]] && steps[..i][..i - 1] == steps[..i - 1]
  {
  }

  lemma {:induction false} PresentIff(ws: seq<World>, steps: seq<Step>, i: nat, a: Nick)
    requires IsRun(ws, steps) && i <= |steps|
    ensures a in ws[i].room <==> Present(steps[..i], a)
  {
    if i > 0 {
      PresentIff(ws, steps, i - 1, a);
      assert StepAt(ws, steps, i - 1);
      Snoc(steps, i);
    }
  }

  lemma {:induction false} AnnouncedIff(ws: seq<World>, steps: seq<Step>, i: nat, b: Nick, role: Role)
    requires IsRun(ws, steps) && i <= |steps|
    ensures Announced(b, role) in ws[i].notes <==> HasAnnounced(steps[..i], b, role)
  {
    if i > 0 {
      AnnouncedIff(ws, steps, i - 1, b, role);
      assert StepAt(ws, steps, i - 1);
      Snoc(steps, i);
      OneMoreStep(steps[..i - 1], steps[i - 1], (step: Step) => Announces(step, b, role));
    }
  }

  lemma OneMoreStep(before: seq<Step>, last: Step, p: Step -> bool)
    ensures var steps := before + [last];
      (exists k :: 0 <= k < |steps| && p(steps[k])) <==> (exists k :: 0 <= k < |before| && p(before[k])) || p(last)
  {
    var steps := before + [last];
    assert steps[|before|] == last;
    if k :| 0 <= k < |before| && p(before[k]) {
      assert p(steps[k]);
    }
  }

  lemma {:induction false} OrderedIff(ws: seq<World>, steps: seq<Step>, i: nat, b: Nick, target: Nick, role: Role)
    requires IsRun(ws, steps) && i <= |steps|
    ensures Ordered(b, target, role) in ws[i].notes <==> HasOrdered(steps[..i], b, target, role)
  {
    if i > 0 {
      OrderedIff(ws, steps, i - 1, b, target, role);
      assert StepAt(ws, steps, i - 1);
      Snoc(steps, i);
      OneMoreStep(steps[..i - 1], steps[i - 1], (step: Step) => step == Order(b, target, role));
    }
  }

  lemma WouldLinkIff(ws: seq<World>, steps: seq<Step>, i: nat, a: Nick, b: Nick)
    requires IsRun(ws, steps) && i <= |steps| && a in ws[i].room
    ensures ws[i].room[a].Decides(b) <==> WouldLink(steps[..i], a, b)
  {
    var view := ws[i].room[a].view;
    NobodyDecidesAsModerator(ws, steps, i);
    forall n ensures IsSuperpeerRole(Told(steps[..i], a, n)) <==> n in view && view[n].IsSuperpeer() {
      KnowsWhatWasTold(ws, steps, i, a, n);
    }
    if NoSuperpeers(view) {
      forall n ensures !IsSuperpeerRole(Told(steps[..i], a, n)) {}
    }
    CameAsIs(ws, steps, i, a);
  }

  lemma CameAsIs(ws: seq<World>, steps: seq<Step>, i: nat, a: Nick)
    requires IsRun(ws, steps) && i <= |steps| && a in ws[i].room
    ensures ws[i].room[a].decides == CameAs(steps[..i], a)
  {
    KnowsWhatWasTold(ws, steps, i, a, a);
  }

  lemma {:induction false} OfferOpenIff(ws: seq<World>, steps: seq<Step>, i: nat, a: Nick, b: Nick)
    requires IsRun(ws, steps) && i <= |steps|
    ensures (a, b) in ws[i].offers <==> OfferOpen(steps[..i], a, b)
  {
    if i > 0 {
      OfferOpenIff(ws, steps, i - 1, a, b);
      assert StepAt(ws, steps, i - 1);
      Snoc(steps, i);
    }
  }

  lemma {:induction false} LinkUpIff(ws: seq<World>, steps: seq<Step>, i: nat, a: Nick, b: Nick)
    requires IsRun(ws, steps) && i <= |steps|
    ensures (a, b) in ws[i].links <==> LinkUp(steps[..i], a, b)
  {
    if i > 0 {
      LinkUpIff(ws, steps, i - 1, a, b);
      assert StepAt(ws, steps, i - 1);
      Snoc(steps, i);
      if b in ws[i - 1].room {
        WouldLinkIff(ws, steps, i - 1, b, a);
      }
    }
  }

  /** Whether a step can come next, from the steps so far alone. An order is obeyed by whoever
      was last told that its sender is a superpeer, and by nobody else. */
  ghost predicate CanFollow(steps: seq<Step>, step: Step) {
    match step
    case Enter(a, _, _) => !Present(steps, a)
    case HearJoin(a, b) => Present(steps, a) && Present(steps, b) && a != b
    case HearRole(a, b, role) => Present(steps, a) && a != b && HasAnnounced(steps, b, role)
    case Order(a, _, role) => Present(steps, a) && CameAs(steps, a) == Host && role != Host
    case HearOrder(a, b, target, role) =>
      Present(steps, a) && a != b && HasOrdered(steps, b, target, role) && IsSuperpeerRole(Told(steps, a, b))
    case Offer(a, b) => Present(steps, a) && Told(steps, a, b).Some? && WouldLink(steps, a, b) && Less(a, b)
    case Answer(a, b) => Present(steps, a) && Present(steps, b) && OfferOpen(steps, b, a)
    case Drop(a, b) => LinkUp(steps, a, b)
    case HearLeave(a, b) => Present(steps, a) && !Present(steps, b)
    case Leave(a) => Present(steps, a)
  }

  /** In every run exactly these steps are possible at each moment. */
  lemma PossibleIff(ws: seq<World>, steps: seq<Step>, i: nat, step: Step)
    requires IsRun(ws, steps) && i <= |steps|
    ensures Enabled(ws[i], step) <==> CanFollow(steps[..i], step)
  {
    PresentIff(ws, steps, i, step.a);
    if step.a in ws[i].room {
      CameAsIs(ws, steps, i, step.a);
    }
    match step {
      case HearJoin(a, b) => PresentIff(ws, steps, i, b);
      case HearLeave(a, b) => PresentIff(ws, steps, i, b);
      case HearRole(a, b, role) => AnnouncedIff(ws, steps, i, b, role);
      case HearOrder(a, b, target, role) =>
        OrderedIff(ws, steps, i, b, target, role);
        if a in ws[i].room {
          KnowsWhatWasTold(ws, steps, i, a, b);
        }
      case Offer(a, b) =>
        if a in ws[i].room {
          KnowsWhatWasTold(ws, steps, i, a, b);
          WouldLinkIff(ws, steps, i, a, b);
        }
      case Answer(a, b) =>
        PresentIff(ws, steps, i, b);
        OfferOpenIff(ws, steps, i, b, a);
      case Drop(a, b) => LinkUpIff(ws, steps, i, a, b);
      case _ =>
    }
  }

  /** Everybody was last told of exactly those that they forward who do, and those who came
      as regular peers were told the same of themselves. */
  ghost predicate AllTold(steps: seq<Step>, people: set<Nick>) { forall a :: a in people ==> ToldEnough(steps, people, a) }

  ghost predicate ToldEnough(steps: seq<Step>, people: set<Nick>, a: Nick) {
    forall n :: (n != a || CameAs(steps, a) == Peer) ==> (IsSuperpeerRole(Told(steps, a, n)) <==> Forwards(steps, people, n))
  }

  predicate Forwards(steps: seq<Step>, people: set<Nick>, n: Nick) {
    n in people && ToldToForward(steps, n).IsSuperpeer()
  }

  /** In particular somebody else's order, once given, is obeyed exactly by those who were
      last told that its sender is a superpeer. */
  lemma ObeysIff(ws: seq<World>, steps: seq<Step>, i: nat, a: Nick, b: Nick, target: Nick, role: Role)
    requires IsRun(ws, steps) && i <= |steps| && a in ws[i].room && a != b
    requires exists k :: 0 <= k < i && steps[k] == Order(b, target, role)
    ensures Enabled(ws[i], HearOrder(a, b, target, role)) <==> IsSuperpeerRole(Told(steps[..i], a, b))
  {
    var k :| 0 <= k < i && steps[k] == Order(b, target, role);
    assert steps[..i][k] == Order(b, target, role);
    PossibleIff(ws, steps, i, HearOrder(a, b, target, role));
    PresentIff(ws, steps, i, a);
  }

  function Forwarding(steps: seq<Step>, people: set<Nick>): set<Nick> { set n | n in people && Forwards(steps, people, n) }

  lemma KnowsIffTold(ws: seq<World>, steps: seq<Step>, i: nat, a: Nick)
    requires IsRun(ws, steps) && i <= |steps| && a in ws[i].room
    ensures Knows(ws[i].room, a) <==> ToldEnough(steps[..i], ws[i].room.Keys, a)
  {
    var room := ws[i].room;
    NobodyDecidesAsModerator(ws, steps, i);
    KnowsWhatWasTold(ws, steps, i, a, a);
    forall n
      ensures IsSuperpeerRole(Told(steps[..i], a, n)) <==> RoleIn(room[a].view, n).IsSuperpeer()
      ensures Forwards(steps[..i], room.Keys, n) <==> n in room && room[n].forwards.IsSuperpeer()
    {
      KnowsWhatWasTold(ws, steps, i, a, n);
      if n in room {
        KnowsWhatWasTold(ws, steps, i, n, a);
      }
    }
    if Knows(room, a) {
      forall n | n != a || CameAs(steps[..i], a) == Peer
        ensures IsSuperpeerRole(Told(steps[..i], a, n)) <==> Forwards(steps[..i], room.Keys, n)
      {
        assert n !in room && n in room[a].view ==> !room[a].view[n].IsSuperpeer();
      }
    }
  }

  /** So everybody knows the roles exactly when everybody was told. */
  lemma InformedIffTold(ws: seq<World>, steps: seq<Step>, i: nat)
    requires IsRun(ws, steps) && i <= |steps|
    ensures Informed(ws[i].room) <==> AllTold(steps[..i], ws[i].room.Keys)
  {
    NobodyDecidesAsModerator(ws, steps, i);
    forall a | a in ws[i].room
      ensures Knows(ws[i].room, a) <==> ToldEnough(steps[..i], ws[i].room.Keys, a)
    {
      KnowsIffTold(ws, steps, i, a);
    }
  }

  ghost predicate ToldOfNone(steps: seq<Step>, a: Nick) { forall n :: !IsSuperpeerRole(Told(steps, a, n)) }

  lemma KnowsNoneIffTold(ws: seq<World>, steps: seq<Step>, i: nat, a: Nick)
    requires IsRun(ws, steps) && i <= |steps| && a in ws[i].room
    ensures NoSuperpeers(ws[i].room[a].view) <==> ToldOfNone(steps[..i], a)
  {
    var view := ws[i].room[a].view;
    forall n ensures IsSuperpeerRole(Told(steps[..i], a, n)) <==> n in view && view[n].IsSuperpeer() {
      KnowsWhatWasTold(ws, steps, i, a, n);
    }
    if NoSuperpeers(view) {
      forall n ensures !IsSuperpeerRole(Told(steps[..i], a, n)) {}
    }
  }

  /** And nobody knows of a superpeer exactly when nobody was last told of one. */
  lemma UninformedIffTold(ws: seq<World>, steps: seq<Step>, i: nat)
    requires IsRun(ws, steps) && i <= |steps|
    ensures Uninformed(ws[i].room) <==> forall a :: a in ws[i].room ==> ToldOfNone(steps[..i], a)
  {
    forall a | a in ws[i].room ensures NoSuperpeers(ws[i].room[a].view) <==> ToldOfNone(steps[..i], a) {
      KnowsNoneIffTold(ws, steps, i, a);
    }
  }

  /** A step that tells somebody of a superpeer. */
  predicate TellsOfSuperpeer(step: Step) { (step.HearRole? || step.Order? || step.HearOrder?) && step.role.IsSuperpeer() }

  lemma {:induction false} NeverTold(steps: seq<Step>, a: Nick, b: Nick)
    requires forall step :: step in steps ==> !TellsOfSuperpeer(step)
    ensures !IsSuperpeerRole(Told(steps, a, b))
  {
    if steps != [] {
      assert steps[|steps| - 1] in steps;
      NeverTold(steps[..|steps| - 1], a, b);
    }
  }

  // ------------------------------------------------------------------
  // Settled rooms
  // ------------------------------------------------------------------

  /** Every pair that agrees now is linked, and no other: all offers due were made and
      answered, and links made under earlier views were dropped. */
  predicate Settled(w: World) { w.links == Links(w.room) }

  /** Who hears what at a moment of a run. */
  function NetAt(w: World, relay: set<Nick>): Net { Net(w.room.Keys, w.links, Superpeers(w.room), relay) }

  /** In a settled moment of any run in which everybody was told the roles, everybody hears
      everybody else exactly once, and nobody himself, if and only if the condition holds. */
  lemma SettledOnceIff(ws: seq<World>, steps: seq<Step>, i: nat, relay: set<Nick>)
    requires IsRun(ws, steps) && i <= |steps| && Settled(ws[i]) && AllTold(steps[..i], ws[i].room.Keys)
    ensures HearAllOnce(NetAt(ws[i], relay)) <==> OnceCondition(ws[i].room, relay)
  {
    InformedIffTold(ws, steps, i);
    InformedOnceIff(ws[i].room, relay);
  }

  /** In a settled moment of any run in which no step so far told anybody of a superpeer, as
      when all others joined after the host, and nobody announced or ordered anything since. */
  lemma UntoldOnceIff(ws: seq<World>, steps: seq<Step>, i: nat, relay: set<Nick>)
    requires IsRun(ws, steps) && i <= |steps| && Settled(ws[i])
    requires forall step :: step in steps[..i] ==> !TellsOfSuperpeer(step)
    ensures Uninformed(ws[i].room)
    ensures var room := ws[i].room;
      HearAllOnce(NetAt(ws[i], relay)) <==>
        |room| <= 1 || (|relay * room.Keys| <= 1 && (Superpeers(room) == {} || |room| == 2))
  {
    forall a | a in ws[i].room ensures ToldOfNone(steps[..i], a) {
      forall n ensures !IsSuperpeerRole(Told(steps[..i], a, n)) {
        NeverTold(steps[..i], a, n);
      }
    }
    UninformedIffTold(ws, steps, i);
    UninformedOnceIff(ws[i].room, relay);
  }

  /** At any moment of any run, if at most two of those there were last told to forward,
      every packet dies within three hops. */
  lemma ThreeHopsAlways(ws: seq<World>, steps: seq<Step>, i: nat, relay: set<Nick>, speaker: Nick, c: Copy)
    requires IsRun(ws, steps) && i <= |steps| && IsWalk(NetAt(ws[i], relay), speaker, c)
    requires |Forwarding(steps[..i], ws[i].room.Keys)| <= 2
    ensures |c.path| <= 4
  {
    forall a | a in ws[i].room
      ensures ws[i].room[a].forwards == ToldToForward(steps[..i], a)
    {
      KnowsWhatWasTold(ws, steps, i, a, a);
    }
    var net := NetAt(ws[i], relay);
    assert net.forwarders * net.people == Forwarding(steps[..i], ws[i].room.Keys);
    ThreeHops(net, speaker, c);
  }

  // ------------------------------------------------------------------
  // When a room can settle
  // ------------------------------------------------------------------

  predicate IsLinkStep(step: Step) { step.Offer? || step.Answer? || step.Drop? }

  /** A run that goes on with offers, answers and lost links only, up to a settled moment. */
  ghost predicate Settling(ws: seq<World>, steps: seq<Step>, ws': seq<World>, steps': seq<Step>) {
    && IsRun(ws', steps') && |ws| == |steps| + 1 && ws <= ws' && steps <= steps'
    && (forall i :: |steps| <= i < |steps'| ==> IsLinkStep(steps'[i]))
    && Settled(ws'[|steps'|])
  }

  /** Every pair that agrees is linked, or has an offer to be answered, or the side that
      calls has heard of the other. */
  predicate Acquainted(w: World) { forall p :: p in Links(w.room) ==> CanLink(w, p) }

  predicate CanLink(w: World, p: (Nick, Nick)) {
    p in w.links || p in w.offers || (p.0 in w.room && p.1 in w.room[p.0].view)
  }

  lemma LinkStepKeeps(w: World, step: Step, p: (Nick, Nick))
    requires Enabled(w, step) && IsLinkStep(step) && CanLink(Apply(w, step), p)
    ensures CanLink(w, p) && Apply(w, step).room == w.room
  {
  }

  lemma {:induction false} CouldLink(ws: seq<World>, steps: seq<Step>, start: nat, end: nat, p: (Nick, Nick))
    requires IsRun(ws, steps) && start <= end <= |steps| && CanLink(ws[end], p)
    requires forall i :: start <= i < end ==> IsLinkStep(steps[i])
    ensures CanLink(ws[start], p)
    decreases end
  {
    if start < end {
      assert StepAt(ws, steps, end - 1);
      LinkStepKeeps(ws[end - 1], steps[end - 1], p);
      CouldLink(ws, steps, start, end - 1, p);
    }
  }

  lemma {:induction false} SameRoom(ws: seq<World>, steps: seq<Step>, start: nat, end: nat)
    requires IsRun(ws, steps) && start <= end <= |steps|
    requires forall i :: start <= i < end ==> IsLinkStep(steps[i])
    ensures ws[end].room == ws[start].room
    decreases end
  {
    if start < end {
      assert StepAt(ws, steps, end - 1);
      SameRoom(ws, steps, start, end - 1);
    }
  }

  lemma OnlyAcquaintedSettle(ws: seq<World>, steps: seq<Step>, ws': seq<World>, steps': seq<Step>)
    requires Settling(ws, steps, ws', steps')
    ensures Acquainted(ws[|steps|])
  {
    var n := |steps|;
    assert ws'[n] == ws[n];
    SameRoom(ws', steps', n, |steps'|);
    forall p | p in Links(ws[n].room) ensures CanLink(ws[n], p) {
      CouldLink(ws', steps', n, |steps'|, p);
    }
  }

  /** One missing link made. */
  lemma MakeLink(ws: seq<World>, steps: seq<Step>, p: (Nick, Nick)) returns (ws': seq<World>, steps': seq<Step>)
    requires IsRun(ws, steps) && p in Links(ws[|steps|].room) && p !in ws[|steps|].links && CanLink(ws[|steps|], p)
    ensures IsRun(ws', steps') && ws <= ws' && steps <= steps'
    ensures forall i :: |steps| <= i < |steps'| ==> IsLinkStep(steps'[i])
    ensures ws'[|steps'|].room == ws[|steps|].room && ws'[|steps'|].links == ws[|steps|].links + {p}
    ensures ws'[|steps'|].offers == ws[|steps|].offers - {p}
  {
    ws', steps' := ws, steps;
    LinkOf(ws[|steps|].room, p.0, p.1);
    if p !in ws[|steps|].offers {
      ws', steps' := Extend(ws, steps, Offer(p.0, p.1));
    }
    ws', steps' := Extend(ws', steps', Answer(p.1, p.0));
    assert (p.0, p.1) == p;
  }

  lemma {:induction false} MakeMissing(ws: seq<World>, steps: seq<Step>) returns (ws': seq<World>, steps': seq<Step>)
    requires IsRun(ws, steps) && Acquainted(ws[|steps|])
    ensures IsRun(ws', steps') && ws <= ws' && steps <= steps'
    ensures forall i :: |steps| <= i < |steps'| ==> IsLinkStep(steps'[i])
    ensures ws'[|steps'|].room == ws[|steps|].room && Links(ws[|steps|].room) <= ws'[|steps'|].links
    decreases |Links(ws[|steps|].room) - ws[|steps|].links|
  {
    var w := ws[|steps|];
    var missing := Links(w.room) - w.links;
    if missing == {} {
      ws', steps' := ws, steps;
      assert forall p :: p in Links(w.room) ==> p !in missing;
    } else {
      var p :| p in missing;
      var ws1, steps1 := MakeLink(ws, steps, p);
      var w1 := ws1[|steps1|];
      assert Links(w1.room) - w1.links == missing - {p};
      forall q | q in Links(w1.room) ensures CanLink(w1, q) {
        assert CanLink(w, q);
      }
      ws', steps' := MakeMissing(ws1, steps1);
    }
  }

  lemma {:induction false} DropWrong(ws: seq<World>, steps: seq<Step>) returns (ws': seq<World>, steps': seq<Step>)
    requires IsRun(ws, steps) && Links(ws[|steps|].room) <= ws[|steps|].links
    ensures Settling(ws, steps, ws', steps')
    decreases |ws[|steps|].links - Links(ws[|steps|].room)|
  {
    var w := ws[|steps|];
    var wrong := w.links - Links(w.room);
    if wrong == {} {
      ws', steps' := ws, steps;
      assert forall p :: p in w.links ==> p !in wrong;
    } else {
      var p :| p in wrong;
      var ws1, steps1 := DropOne(ws, steps, p);
      ws', steps' := DropWrong(ws1, steps1);
    }
  }

  lemma DropOne(ws: seq<World>, steps: seq<Step>, p: (Nick, Nick)) returns (ws': seq<World>, steps': seq<Step>)
    requires IsRun(ws, steps) && p in ws[|steps|].links - Links(ws[|steps|].room)
    ensures IsRun(ws', steps') && steps' == steps + [Drop(p.0, p.1)] && ws <= ws'
    ensures ws'[|steps'|] == ws[|steps|].(links := ws[|steps|].links - {p})
    ensures |ws'[|steps'|].links - Links(ws[|steps|].room)| < |ws[|steps|].links - Links(ws[|steps|].room)|
  {
    var w := ws[|steps|];
    assert (p.0, p.1) == p;
    ws', steps' := Extend(ws, steps, Drop(p.0, p.1));
    assert w.links - {p} - Links(w.room) == w.links - Links(w.room) - {p};
  }

  /** From any moment of any run, offers, answers and lost links alone can settle the room if
      and only if everybody is acquainted with whom it would have to call. */
  lemma SettlesIff(ws: seq<World>, steps: seq<Step>)
    requires IsRun(ws, steps)
    ensures (exists ws', steps' :: Settling(ws, steps, ws', steps')) <==> Acquainted(ws[|steps|])
  {
    if Acquainted(ws[|steps|]) {
      var ws1, steps1 := MakeMissing(ws, steps);
      var ws2, steps2 := DropWrong(ws1, steps1);
      assert Settling(ws, steps, ws2, steps2);
    } else if ws', steps' :| Settling(ws, steps, ws', steps') {
      OnlyAcquaintedSettle(ws, steps, ws', steps');
    }
  }

  // ------------------------------------------------------------------
  // Runs
  // ------------------------------------------------------------------

  /** One participant makes an offer to another who is there, and gets an answer. */
  lemma Call(ws: seq<World>, steps: seq<Step>, a: Nick, b: Nick) returns (ws': seq<World>, steps': seq<Step>)
    requires IsRun(ws, steps)
    requires var w := ws[|steps|];
      && a in w.room && b in w.room && b in w.room[a].view && w.room[a].Decides(b) && Less(a, b) && w.offers == {}
    ensures IsRun(ws', steps')
    ensures var w := ws[|steps|];
      ws'[|steps'|] == w.(links := if w.room[b].Decides(a) then w.links + {(a, b)} else w.links)
  {
    ws', steps' := Extend(ws, steps, Offer(a, b));
    ws', steps' := Extend(ws', steps', Answer(b, a));
    assert ws'[|steps'|].offers == ws[|steps|].offers;
  }

  lemma Meet(ws: seq<World>, steps: seq<Step>, a: Nick, b: Nick) returns (ws': seq<World>, steps': seq<Step>)
    requires IsRun(ws, steps) && a != b
    requires var w := ws[|steps|]; a in w.room && b in w.room
    ensures IsRun(ws', steps')
    ensures ws'[|steps'|] == var w := ws[|steps|]; w.(room := Learn(Learn(w.room, a, b, Peer), b, a, Peer))
  {
    ws', steps' := Extend(ws, steps, HearJoin(a, b));
    ws', steps' := Extend(ws', steps', HearJoin(b, a));
  }

  /** A host and two others who take everybody for a regular peer. */
  predicate Joiners(room: Room, h: Nick, p: Nick, q: Nick) {
    room == map[
      h := Person(Host, Host, map[p := Peer, q := Peer]),
      p := Person(Peer, Peer, map[h := Peer, q := Peer]),
      q := Person(Peer, Peer, map[h := Peer, p := Peer])]
  }

  /** The host is there first, then two others join, and everybody hears of everybody: of
      the host's role, announced before they came, the two do not hear. */
  lemma JoinersRoom(h: Nick, p: Nick, q: Nick) returns (ws: seq<World>, steps: seq<Step>)
    requires h != p && p != q && h != q
    ensures IsRun(ws, steps) && Joiners(ws[|steps|].room, h, p, q)
    ensures ws[|steps|].links == {} && ws[|steps|].offers == {} && Announced(h, Host) in ws[|steps|].notes
  {
    ws, steps := [EmptyRoom], [];
    ws, steps := Extend(ws, steps, Enter(h, true, Host));
    ws, steps := Extend(ws, steps, Enter(p, false, Peer));
    ws, steps := Meet(ws, steps, h, p);
    ws, steps := Extend(ws, steps, Enter(q, false, Peer));
    ws, steps := Meet(ws, steps, h, q);
    ws, steps := Meet(ws, steps, p, q);
    var room := ws[|steps|].room;
    assert room.Keys == {h, p, q};
    assert room[h].view == map[p := Peer, q := Peer];
    assert room[p].view == map[h := Peer, q := Peer];
    assert room[q].view == map[h := Peer, p := Peer];
  }

  lemma JoinersKinds(room: Room, h: Nick, p: Nick, q: Nick)
    requires Joiners(room, h, p, q) && h != p && p != q && h != q
    ensures Uninformed(room) && Superpeers(room) == {h} && room.Keys == {h, p, q} && |room| == 3
  {
    ThreePeople(room, h, p, q);
    assert forall n :: n in Superpeers(room) <==> n == h;
  }

  lemma ThreePeople(room: Room, h: Nick, p: Nick, q: Nick)
    requires h != p && p != q && h != q && forall n :: n in room <==> n == h || n == p || n == q
    ensures room.Keys == {h, p, q} && |room| == 3
  {
    assert room.Keys == {h, p, q};
    assert |room.Keys| == 3;
    assert |room| == |room.Keys|;
  }

  lemma JoinersLinks(room: Room, h: Nick, p: Nick, q: Nick)
    requires Uninformed(room) && room.Keys == {h, p, q} && Less(h, p) && Less(p, q) && Less(h, q)
    ensures Links(room) == {(h, p), (h, q), (p, q)}
  {
    LessIsTotal(h, p);
    LessIsTotal(p, q);
    LessIsTotal(h, q);
    forall e: (Nick, Nick) ensures e in Links(room) <==> e in {(h, p), (h, q), (p, q)} {
      LinkOf(room, e.0, e.1);
      LessIsTotal(e.0, e.1);
      if e.0 in room && e.1 in room && e.0 != e.1 {
        UninformedLinks(room, e.0, e.1);
      }
    }
  }

  /** So these three all link, and with only the host forwarding the joiners hear some
      packet twice, over links alone. */
  lemma JoinersHearTwice(h: Nick, p: Nick, q: Nick) returns (ws: seq<World>, steps: seq<Step>)
    requires Less(h, p) && Less(p, q) && Less(h, q)
    ensures IsRun(ws, steps) && Settled(ws[|steps|]) && Uninformed(ws[|steps|].room)
    ensures Superpeers(ws[|steps|].room) == {h} && !HearAllOnce(NetAt(ws[|steps|], {}))
  {
    LessIsTotal(h, p);
    LessIsTotal(p, q);
    LessIsTotal(h, q);
    ws, steps := JoinersRoom(h, p, q);
    var room := ws[|steps|].room;
    JoinersKinds(room, h, p, q);
    JoinersLinks(room, h, p, q);
    ws, steps := AllCall(ws, steps, h, p, q);
    assert ws[|steps|].room == room;
    UninformedOnceIff(room, {});
    assert |{} * room.Keys| == 0;
  }

  lemma AllCall(ws: seq<World>, steps: seq<Step>, h: Nick, p: Nick, q: Nick) returns (ws': seq<World>, steps': seq<Step>)
    requires IsRun(ws, steps) && Joiners(ws[|steps|].room, h, p, q) && h != p && p != q && h != q
    requires Less(h, p) && Less(p, q) && Less(h, q) && ws[|steps|].links == {} && ws[|steps|].offers == {}
    ensures IsRun(ws', steps')
    ensures ws'[|steps'|] == ws[|steps|].(links := {(h, p), (h, q), (p, q)})
  {
    var room := ws[|steps|].room;
    JoinersKinds(room, h, p, q);
    ws', steps' := Call(ws, steps, h, p);
    ws', steps' := Call(ws', steps', h, q);
    ws', steps' := Call(ws', steps', p, q);
    assert {} + {(h, p)} + {(h, q)} + {(p, q)} == {(h, p), (h, q), (p, q)};
  }

  /** Of three who all know all roles, one was promoted, and its link to a regular peer was
      lost: the peer calls again, and the promoted one, who decides as a peer and knows of
      superpeers, rejects the call that the peer was right to make. */
  lemma PromotedRejectsPeer(h: Nick, p: Nick, m: Nick) returns (ws: seq<World>, steps: seq<Step>, k: nat)
    requires Less(p, m) && h != p && h != m && p != m
    ensures IsRun(ws, steps) && k < |steps| && Informed(ws[|steps|].room)
    ensures Promoted(ws[|steps|].room) == {m} && Hosts(ws[|steps|].room) == {h} && p in Regulars(ws[|steps|].room)
    ensures OfferedAt(ws, steps, k, p, m) && ws[k].room == ws[|steps|].room
    ensures steps[|steps| - 1] == Answer(m, p) && ws[|steps|].links == {} && ws[|steps|].offers == {}
  {
    ws, steps := InformedRoom(h, p, m);
    var room := ws[|steps|].room;
    k := |steps|;
    ws, steps := OfferAgain(ws, steps, h, p, m);
  }

  /** A room in which everybody has heard everything, after one promotion. */
  predicate AfterPromotion(room: Room, h: Nick, p: Nick, m: Nick) {
    room == map[
      h := Person(Host, Host, map[p := Peer, m := Mod]),
      p := Person(Peer, Peer, map[h := Host, m := Mod]),
      m := Person(Peer, Mod, map[h := Host, p := Peer, m := Mod])]
  }

  lemma InformedRoom(h: Nick, p: Nick, m: Nick) returns (ws: seq<World>, steps: seq<Step>)
    requires h != p && h != m && p != m
    ensures IsRun(ws, steps) && AfterPromotion(ws[|steps|].room, h, p, m)
    ensures ws[|steps|].links == {} && ws[|steps|].offers == {}
  {
    ws, steps := JoinersRoom(h, p, m);
    ws, steps := AnnouncedRoom(ws, steps, h, p, m);
    ws, steps := Extend(ws, steps, Order(h, m, Mod));
    ws, steps := Extend(ws, steps, HearOrder(p, h, m, Mod));
    ws, steps := Extend(ws, steps, HearOrder(m, h, m, Mod));
    var room := ws[|steps|].room;
    assert room.Keys == {h, p, m};
    assert room[h].view == map[p := Peer, m := Mod];
    assert room[p].view == map[h := Host, m := Mod];
    assert room[m].view == map[h := Host, p := Peer, m := Mod];
  }

  lemma AnnouncedRoom(ws: seq<World>, steps: seq<Step>, h: Nick, p: Nick, m: Nick)
    returns (ws': seq<World>, steps': seq<Step>)
    requires IsRun(ws, steps) && h != p && h != m && p != m
    requires ws[|steps|].links == {} && ws[|steps|].offers == {} && Announced(h, Host) in ws[|steps|].notes
    requires Joiners(ws[|steps|].room, h, p, m)
    ensures IsRun(ws', steps') && ws'[|steps'|].links == {} && ws'[|steps'|].offers == {}
    ensures ws'[|steps'|].room == map[
      h := Person(Host, Host, map[p := Peer, m := Peer]),
      p := Person(Peer, Peer, map[h := Host, m := Peer]),
      m := Person(Peer, Peer, map[h := Host, p := Peer])]
  {
    ws', steps' := Extend(ws, steps, HearRole(p, h, Host));
    ws', steps' := Extend(ws', steps', HearRole(m, h, Host));
    var room := ws'[|steps'|].room;
    assert room.Keys == {h, p, m};
    assert room[p].view == map[h := Host, m := Peer];
    assert room[m].view == map[h := Host, p := Peer];
  }

  lemma OfferAgain(ws: seq<World>, steps: seq<Step>, h: Nick, p: Nick, m: Nick)
    returns (ws': seq<World>, steps': seq<Step>)
    requires IsRun(ws, steps) && AfterPromotion(ws[|steps|].room, h, p, m)
    requires Less(p, m) && h != p && h != m && p != m && ws[|steps|].links == {} && ws[|steps|].offers == {}
    ensures IsRun(ws', steps') && |steps'| == |steps| + 2 && ws'[|steps'|].room == ws[|steps|].room
    ensures OfferedAt(ws', steps', |steps|, p, m) && ws'[|steps|] == ws[|steps|]
    ensures steps'[|steps'| - 1] == Answer(m, p) && ws'[|steps'|].links == {} && ws'[|steps'|].offers == {}
    ensures var room := ws[|steps|].room;
      Informed(room) && Promoted(room) == {m} && Hosts(room) == {h} && p in Regulars(room)
  {
    var w := ws[|steps|];
    steps' := steps + [Offer(p, m), Answer(m, p)];
    var w' := Apply(w, Offer(p, m));
    assert !w'.room[m].Decides(p) by { assert h in w'.room[m].view; }
    ws' := ws + [w', Apply(w', Answer(m, p))];
    forall i | 0 <= i < |steps'| ensures StepAt(ws', steps', i) {
      assert i < |steps| ==> StepAt(ws, steps, i);
    }
    RolesKnown(w.room, h, p, m);
  }

  lemma RolesKnown(room: Room, h: Nick, p: Nick, m: Nick)
    requires AfterPromotion(room, h, p, m) && h != p && h != m && p != m
    ensures Informed(room) && Promoted(room) == {m} && Hosts(room) == {h} && p in Regulars(room)
  {
    KindsKnown(room, h, p, m);
    forall a | a in room ensures Knows(room, a) {
      assert a == h || a == p || a == m;
    }
  }

  lemma KindsKnown(room: Room, h: Nick, p: Nick, m: Nick)
    requires AfterPromotion(room, h, p, m) && h != p && h != m && p != m
    ensures Promoted(room) == {m} && Hosts(room) == {h} && p in Regulars(room)
  {
    assert forall n :: n in Promoted(room) <==> n == m;
    assert forall n :: n in Hosts(room) <==> n == h;
  }

  /** Two joined after the host's announcement and did not hear it; now the host promotes one
      of them. Neither of the two can be moved by the order: what they know and forward by
      stays as it was. */
  lemma LateJoinersIgnoreOrders(h: Nick, p: Nick, m: Nick) returns (ws: seq<World>, steps: seq<Step>)
    requires h != p && h != m && p != m
    ensures IsRun(ws, steps) && Ordered(h, m, Mod) in ws[|steps|].notes
    ensures !Enabled(ws[|steps|], HearOrder(p, h, m, Mod)) && !Enabled(ws[|steps|], HearOrder(m, h, m, Mod))
    ensures var room := ws[|steps|].room;
      && room.Keys == {h, p, m} && Superpeers(room) == {h} && room[m].forwards == Peer
      && Known(room[h].view, m) == Some(Mod) && Known(room[p].view, m) == Some(Peer)
  {
    ws, steps := JoinersRoom(h, p, m);
    ws, steps := Extend(ws, steps, Order(h, m, Mod));
    var room := ws[|steps|].room;
    assert room.Keys == {h, p, m};
    assert forall n :: n in Superpeers(room) <==> n == h;
  }

  /** A room in which the promoted one was demoted again and everybody heard it, itself
      included. */
  predicate AfterDemotion(room: Room, h: Nick, p: Nick, m: Nick) {
    room == map[
      h := Person(Host, Host, map[p := Peer, m := Peer]),
      p := Person(Peer, Peer, map[h := Host, m := Peer]),
      m := Person(Peer, Peer, map[h := Host, p := Peer, m := Peer])]
  }

  lemma DemotedKnow(room: Room, h: Nick, p: Nick, m: Nick)
    requires AfterDemotion(room, h, p, m) && h != p && h != m && p != m
    ensures Informed(room) && m in room[m].view && m in Regulars(room)
  {
    forall a | a in room ensures Knows(room, a) {
      assert a == h || a == p || a == m;
    }
  }

  lemma HeardDemotion(ws: seq<World>, steps: seq<Step>, h: Nick, p: Nick, m: Nick)
    returns (ws': seq<World>, steps': seq<Step>)
    requires IsRun(ws, steps) && h != p && h != m && p != m && AfterPromotion(ws[|steps|].room, h, p, m)
    ensures IsRun(ws', steps') && AfterDemotion(ws'[|steps'|].room, h, p, m)
  {
    ws', steps' := Extend(ws, steps, Order(h, m, Peer));
    ws', steps' := Extend(ws', steps', HearOrder(p, h, m, Peer));
    ws', steps' := Extend(ws', steps', HearOrder(m, h, m, Peer));
    var room := ws'[|steps'|].room;
    assert room.Keys == {h, p, m};
    assert room[h].view == map[p := Peer, m := Peer];
    assert room[p].view == map[h := Host, m := Peer];
    assert room[m].view == map[h := Host, p := Peer, m := Peer];
  }

  /** Then everybody knows the roles, and the demoted one is a regular peer again. */
  lemma DemotionIsKnown(h: Nick, p: Nick, m: Nick) returns (ws: seq<World>, steps: seq<Step>)
    requires h != p && h != m && p != m
    ensures IsRun(ws, steps) && AfterDemotion(ws[|steps|].room, h, p, m)
    ensures Informed(ws[|steps|].room) && m in ws[|steps|].room[m].view && m in Regulars(ws[|steps|].room)
  {
    ws, steps := InformedRoom(h, p, m);
    ws, steps := HeardDemotion(ws, steps, h, p, m);
    DemotedKnow(ws[|steps|].room, h, p, m);
  }
}
