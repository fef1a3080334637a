/** The lock around the server's state: fair, so that requests enter in the order they were
    made, and a refused HELLO asks for it a second time while it still reads. */
module LockProgress {
  import opened Text

  type Task = nat

  datatype Kind = Read | Write

  datatype Request = Request(task: Task, kind: Kind)

  /** Who reads, who writes, and the requests waiting. */
  datatype Lock = Lock(readers: set<Task>, writer: Option<Task>, queue: seq<Request>)

  /** A connection asks for the lock; a refused HELLO, which reads, asks to read again to
      send its notice; the first request in the queue enters; a connection lets go of all
      it holds when its section ends. */
  datatype Step = Ask(task: Task, kind: Kind) | AskAgain(task: Task) | Grant | Release(task: Task)

  predicate Waits(l: Lock, t: Task) { exists i :: 0 <= i < |l.queue| && l.queue[i].task == t }

  predicate Holds(l: Lock, t: Task) { t in l.readers || l.writer == Some(t) }

  predicate CanEnter(l: Lock, kind: Kind) { l.writer == None && (kind == Write ==> l.readers == {}) }

  predicate Enabled(l: Lock, step: Step) {
    match step
    case Ask(t, _) => !Holds(l, t) && !Waits(l, t)
    case AskAgain(t) => t in l.readers && !Waits(l, t)
    case Grant => l.queue != [] && CanEnter(l, l.queue[0].kind)
    case Release(t) => Holds(l, t) && !Waits(l, t)
  }

  function Apply(l: Lock, step: Step): Lock
    requires Enabled(l, step)
  {
    match step
    case Ask(t, kind) => l.(queue := l.queue + [Request(t, kind)])
    case AskAgain(t) => l.(queue := l.queue + [Request(t, Read)])
    case Grant =>
      var first := l.queue[0];
      if first.kind == Read then l.(readers := l.readers + {first.task}, queue := l.queue[1..])
      else l.(writer := Some(first.task), queue := l.queue[1..])
    case Release(t) => l.(readers := l.readers - {t}, writer := if l.writer == Some(t) then None else l.writer)
  }

  const Free := Lock({}, None, [])

  ghost predicate IsRun(ls: seq<Lock>, steps: seq<Step>) {
    |ls| == |steps| + 1 && forall i :: 0 <= i < |steps| ==> StepAt(ls, steps, i)
  }

  ghost predicate StepAt(ls: seq<Lock>, steps: seq<Step>, i: nat)
    requires i < |steps| && |ls| == |steps| + 1
  {
    Enabled(ls[i], steps[i]) && ls[i + 1] == Apply(ls[i], steps[i])
  }

  /** Nobody waits twice, a writer excludes everybody, and whoever waits to write holds
      nothing. */
  predicate Inv(l: Lock) {
    && (forall i, j :: 0 <= i < j < |l.queue| ==> l.queue[i].task != l.queue[j].task)
    && (l.writer.Some? ==> l.readers == {} && !Waits(l, l.writer.value))
    && (forall i :: 0 <= i < |l.queue| && l.queue[i].kind == Write ==> l.queue[i].task !in l.readers)
  }

  lemma InvStep(l: Lock, step: Step)
    requires Inv(l) && Enabled(l, step)
    ensures Inv(Apply(l, step))
  {
    if step.Grant? {
      assert forall i :: 0 <= i < |l.queue| - 1 ==> l.queue[1..][i] == l.queue[i + 1];
    }
  }

  /** Somebody who reads waits behind somebody who waits to write. */
  ghost predicate Doomed(l: Lock) { exists i, j :: DoomedAt(l, i, j) }

  predicate DoomedAt(l: Lock, i: int, j: int) {
    0 <= i < j < |l.queue| && l.queue[i].kind == Write && l.queue[j].task in l.readers
  }

  predicate WriterWaits(l: Lock) { exists i :: 0 <= i < |l.queue| && l.queue[i].kind == Write }

  /** This comes about exactly when a refused HELLO asks again while somebody waits to
      write, and never passes. */
  lemma DoomStep(l: Lock, step: Step)
    requires Inv(l) && Enabled(l, step)
    ensures Doomed(Apply(l, step)) <==> Doomed(l) || (step.AskAgain? && WriterWaits(l))
  {
    if Doomed(l) {
      DoomStays(l, step);
    } else if step.AskAgain? && WriterWaits(l) {
      var i :| 0 <= i < |l.queue| && l.queue[i].kind == Write;
      assert DoomedAt(Apply(l, step), i, |l.queue|);
    } else {
      DoomIsNotMade(l, step);
    }
  }

  lemma DoomStays(l: Lock, step: Step)
    requires Inv(l) && Enabled(l, step) && Doomed(l)
    ensures Doomed(Apply(l, step))
  {
    var i, j :| DoomedAt(l, i, j);
    if step.Grant? {
      assert i > 0;
      assert DoomedAt(Apply(l, step), i - 1, j - 1);
    } else {
      assert DoomedAt(Apply(l, step), i, j);
    }
  }

  lemma DoomIsNotMade(l: Lock, step: Step)
    requires Inv(l) && Enabled(l, step) && !Doomed(l) && !(step.AskAgain? && WriterWaits(l))
    ensures !Doomed(Apply(l, step))
  {
    var l' := Apply(l, step);
    forall i: int, j: int ensures !DoomedAt(l', i, j) {
      if step.Grant? {
        assert !DoomedAt(l, i + 1, j + 1);
      } else {
        assert !DoomedAt(l, i, j);
      }
    }
  }

  /** A section can end or a request can enter. */
  ghost predicate Moves(l: Lock) { Enabled(l, Grant) || exists t :: Enabled(l, Release(t)) }

  /** Unless that is so, whoever waits is let in sooner or later: something can move. */
  lemma Progress(l: Lock)
    requires Inv(l) && !Doomed(l) && l.queue != []
    ensures Moves(l)
  {
    if l.writer.Some? {
      assert Enabled(l, Release(l.writer.value));
    } else if t :| t in l.readers {
      if Waits(l, t) {
        var j :| 0 <= j < |l.queue| && l.queue[j].task == t;
        assert !DoomedAt(l, 0, j);
        assert Enabled(l, Grant);
      } else {
        assert Enabled(l, Release(t));
      }
    } else {
      assert Enabled(l, Grant);
    }
  }

  /** Entering and letting go, with nobody asking any more. */
  predicate Settles(step: Step) { step.Grant? || step.Release? }

  function Work(l: Lock): nat { 2 * |l.queue| + |l.readers| + if l.writer.Some? then 1 else 0 }

  lemma WorkStep(l: Lock, step: Step)
    requires Enabled(l, step) && Settles(step)
    ensures Work(Apply(l, step)) < Work(l)
  {
    if step.Release? && step.task in l.readers {
      assert |l.readers - {step.task}| == |l.readers| - 1;
    }
    if step.Grant? {
      AddOne(l.readers, l.queue[0].task);
    }
  }

  lemma AddOne<T>(s: set<T>, x: T)
    ensures |s + {x}| <= |s| + 1
  {
    if x in s {
      assert s + {x} == s;
    }
  }

  /** From any moment on, if nobody asks any more, there are only so many steps left; and
      when no more can be made, everybody has been served if and only if nobody who reads
      waited behind somebody who waits to write. */
  lemma {:induction false} ServedIff(ls: seq<Lock>, steps: seq<Step>)
    requires IsRun(ls, steps) && Inv(ls[0]) && forall step :: step in steps ==> Settles(step)
    ensures |steps| <= Work(ls[0])
    ensures !Moves(ls[|steps|]) ==> (ls[|steps|].queue == [] <==> !Doomed(ls[0]))
    decreases |steps|
  {
    if steps == [] {
      if !Doomed(ls[0]) && ls[0].queue != [] {
        Progress(ls[0]);
      }
    } else {
      assert StepAt(ls, steps, 0) && steps[0] in steps;
      InvStep(ls[0], steps[0]);
      DoomStep(ls[0], steps[0]);
      WorkStep(ls[0], steps[0]);
      RunTail(ls, steps);
      ServedIff(ls[1..], steps[1..]);
    }
  }

  lemma RunTail(ls: seq<Lock>, steps: seq<Step>)
    requires IsRun(ls, steps) && steps != []
    ensures IsRun(ls[1..], steps[1..])
  {
    forall i | 0 <= i < |steps| - 1 ensures StepAt(ls[1..], steps[1..], i) {
      assert StepAt(ls, steps, i + 1);
    }
  }

  // ------------------------------------------------------------------
  // While others keep asking
  // ------------------------------------------------------------------

  /** The request a step lets in. */
  function Enters(l: Lock, step: Step): seq<Request>
    requires Enabled(l, step)
  {
    if step.Grant? then [l.queue[0]] else []
  }

  /** The request a step makes. */
  function Asks(step: Step): seq<Request> {
    match step
    case Ask(t, kind) => [Request(t, kind)]
    case AskAgain(t) => [Request(t, Read)]
    case _ => []
  }

  lemma StepConserves(l: Lock, step: Step)
    requires Enabled(l, step)
    ensures Enters(l, step) + Apply(l, step).queue == l.queue + Asks(step)
  {
  }

  /** The requests that entered, in the order they did. */
  ghost function Entered(ls: seq<Lock>, steps: seq<Step>): seq<Request>
    requires IsRun(ls, steps)
  {
    if steps == [] then []
    else
      var n := |steps| - 1;
      RunInit(ls, steps);
      assert StepAt(ls, steps, n);
      Entered(ls[..n + 1], steps[..n]) + Enters(ls[n], steps[n])
  }

  /** The requests made, in the order they were. */
  function Asked(steps: seq<Step>): seq<Request> {
    if steps == [] then [] else Asked(steps[..|steps| - 1]) + Asks(steps[|steps| - 1])
  }

  lemma RunInit(ls: seq<Lock>, steps: seq<Step>)
    requires IsRun(ls, steps) && steps != []
    ensures IsRun(ls[..|steps|], steps[..|steps| - 1])
  {
    var locks, before := ls[..|steps|], steps[..|steps| - 1];
    forall i | 0 <= i < |before| ensures StepAt(locks, before, i) {
      assert StepAt(ls, steps, i);
    }
  }

  lemma Chain<T>(entered: seq<T>, waiting: seq<T>, start: seq<T>, asked: seq<T>, e: seq<T>, w: seq<T>, a: seq<T>)
    requires entered + waiting == start + asked && e + w == waiting + a
    ensures (entered + e) + w == start + (asked + a)
  {
    Associative(entered, e, w);
    Associative(entered, waiting, a);
    Associative(start, asked, a);
  }

  /** First come, first served: in every run, whatever else is asked for in between, those
      that entered and then those still waiting are, in order, those that were waiting and
      then those that asked. */
  lemma {:induction false} FirstComeFirstServed(ls: seq<Lock>, steps: seq<Step>)
    requires IsRun(ls, steps)
    ensures Entered(ls, steps) + ls[|steps|].queue == ls[0].queue + Asked(steps)
    decreases |steps|
  {
    if steps == [] {
      assert [] + ls[0].queue == ls[0].queue + [];
    } else {
      var n := |steps| - 1;
      RunInit(ls, steps);
      FirstComeFirstServed(ls[..n + 1], steps[..n]);
      assert StepAt(ls, steps, n);
      StepConserves(ls[n], steps[n]);
      Chain(Entered(ls[..n + 1], steps[..n]), ls[n].queue, ls[0].queue, Asked(steps[..n]),
            Enters(ls[n], steps[n]), ls[n + 1].queue, Asks(steps[n]));
    }
  }

  /** So nobody who waits is overtaken: it enters after exactly those before it, and until
      then stands behind those of them that have not entered yet. */
  lemma NeverOvertaken(ls: seq<Lock>, steps: seq<Step>, i: nat)
    requires IsRun(ls, steps) && i < |ls[0].queue|
    ensures var entered, waiting := Entered(ls, steps), ls[|steps|].queue;
      if i < |entered| then entered[..i + 1] == ls[0].queue[..i + 1]
      else i - |entered| < |waiting| && waiting[..i - |entered| + 1] == ls[0].queue[|entered|..i + 1]
  {
    FirstComeFirstServed(ls, steps);
    var entered, waiting := Entered(ls, steps), ls[|steps|].queue;
    var all := ls[0].queue + Asked(steps);
    assert all[..i + 1] == ls[0].queue[..i + 1];
    if i < |entered| {
      assert (entered + waiting)[..i + 1] == entered[..i + 1];
    } else {
      assert all[|entered|..i + 1] == ls[0].queue[|entered|..i + 1];
      assert (entered + waiting)[|entered|..i + 1] == waiting[..i - |entered| + 1];
    }
  }

  function Holders(l: Lock): nat { |l.readers| + if l.writer.Some? then 1 else 0 }

  /** How many of the steps let somebody enter or let go. */
  function Moved(steps: seq<Step>): nat {
    if steps == [] then 0 else Moved(steps[..|steps| - 1]) + if Settles(steps[|steps| - 1]) then 1 else 0
  }

  lemma HoldersStep(l: Lock, step: Step)
    requires Enabled(l, step)
    ensures step.Grant? ==> Holders(Apply(l, step)) <= Holders(l) + 1
    ensures step.Release? ==> Holders(Apply(l, step)) + 1 <= Holders(l)
    ensures !Settles(step) ==> Holders(Apply(l, step)) == Holders(l)
  {
    if step.Grant? {
      AddOne(l.readers, l.queue[0].task);
    }
    if step.Release? && step.task in l.readers {
      assert |l.readers - {step.task}| == |l.readers| - 1;
    } else if step.Release? {
      assert l.readers - {step.task} == l.readers;
    }
  }

  /** Only so many steps are steps of entering or letting go, by how many entered. */
  lemma {:induction false} MovedBound(ls: seq<Lock>, steps: seq<Step>)
    requires IsRun(ls, steps)
    ensures Moved(steps) + Holders(ls[|steps|]) <= Holders(ls[0]) + 2 * |Entered(ls, steps)|
    decreases |steps|
  {
    if steps != [] {
      var n := |steps| - 1;
      RunInit(ls, steps);
      MovedBound(ls[..n + 1], steps[..n]);
      assert StepAt(ls, steps, n);
      HoldersStep(ls[n], steps[n]);
    }
  }

  /** While others ask as much as they like: a request with `i` before it has entered once
      more than twice `i` and the number of those holding the lock steps of entering or
      letting go were made; and until then, unless the standstill came, one more can be. */
  lemma ServedWithin(ls: seq<Lock>, steps: seq<Step>, i: nat)
    requires IsRun(ls, steps) && Inv(ls[0]) && i < |ls[0].queue|
    ensures Moved(steps) > 2 * i + Holders(ls[0]) ==> i < |Entered(ls, steps)|
    ensures i >= |Entered(ls, steps)| ==> Doomed(ls[|steps|]) || Moves(ls[|steps|])
  {
    MovedBound(ls, steps);
    NeverOvertaken(ls, steps, i);
    InvFrom(ls, steps, |steps|);
    if i >= |Entered(ls, steps)| && !Doomed(ls[|steps|]) {
      Progress(ls[|steps|]);
    }
  }

  lemma {:induction false} InvFrom(ls: seq<Lock>, steps: seq<Step>, i: nat)
    requires IsRun(ls, steps) && Inv(ls[0]) && i <= |steps|
    ensures Inv(ls[i])
  {
    if i > 0 {
      InvFrom(ls, steps, i - 1);
      assert StepAt(ls, steps, i - 1);
      InvStep(ls[i - 1], steps[i - 1]);
    }
  }

  /** A refused HELLO asked again while somebody waited to write. */
  ghost predicate Overlaps(ls: seq<Lock>, steps: seq<Step>, k: nat)
    requires |ls| == |steps| + 1 && k < |steps|
  {
    steps[k].AskAgain? && WriterWaits(ls[k])
  }

  /** In every run the server comes to a standstill exactly when at some moment a refused
      HELLO asked for its second read while somebody waited to write. */
  lemma {:induction false} DoomedIffOverlap(ls: seq<Lock>, steps: seq<Step>, i: nat)
    requires IsRun(ls, steps) && ls[0] == Free && i <= |steps|
    ensures Doomed(ls[i]) <==> exists k :: 0 <= k < i && Overlaps(ls, steps, k)
  {
    if i > 0 {
      DoomedIffOverlap(ls, steps, i - 1);
      InvFrom(ls, steps, i - 1);
      assert StepAt(ls, steps, i - 1);
      DoomStep(ls[i - 1], steps[i - 1]);
      assert Overlaps(ls, steps, i - 1) <==> steps[i - 1].AskAgain? && WriterWaits(ls[i - 1]);
    } else {
      assert forall a, b :: !DoomedAt(ls[0], a, b);
    }
  }

  /** From then on nobody writes: a writer is waiting after every further step, and none
      ever enters. */
  lemma NobodyWrites(l: Lock, step: Step)
    requires Inv(l) && Doomed(l) && Enabled(l, step)
    ensures WriterWaits(Apply(l, step)) && Apply(l, step).writer == None
  {
    var i, j :| DoomedAt(l, i, j);
    DoomStays(l, step);
    var i', j' :| DoomedAt(Apply(l, step), i', j');
    InvStep(l, step);
  }

  /** A HELLO is refused while a client waits to write, say to register. */
  lemma StandstillRun() returns (ls: seq<Lock>, steps: seq<Step>)
    ensures IsRun(ls, steps) && ls[0] == Free && Doomed(ls[|steps|]) && !Moves(ls[|steps|])
  {
    var l1 := Lock({}, None, [Request(1, Read)]);
    var l2 := Lock({1}, None, []);
    var l3 := Lock({1}, None, [Request(2, Write)]);
    var l4 := Lock({1}, None, [Request(2, Write), Request(1, Read)]);
    ls, steps := [Free, l1, l2, l3, l4], [Ask(1, Read), Grant, Ask(2, Write), AskAgain(1)];
    assert Apply(Free, Ask(1, Read)) == l1 && Apply(l1, Grant) == l2;
    assert Apply(l2, Ask(2, Write)) == l3 && Apply(l3, AskAgain(1)) == l4;
    assert DoomedAt(l4, 0, 1);
    assert l4.queue[1].task == 1;
  }

  /** Any tasks can ask for the lock in any order, all of them before the first enters. */
  lemma {:induction false} AllAsk(requests: seq<Request>) returns (ls: seq<Lock>, steps: seq<Step>)
    requires forall i, j :: 0 <= i < j < |requests| ==> requests[i].task != requests[j].task
    ensures IsRun(ls, steps) && ls[0] == Free && Asked(steps) == requests && ls[|steps|] == Lock({}, None, requests)
    decreases |requests|
  {
    if requests == [] {
      ls, steps := [Free], [];
    } else {
      var n := |requests| - 1;
      var before, last := requests[..n], requests[n];
      var ls0, steps0 := AllAsk(before);
      var l, step := ls0[|steps0|], Ask(last.task, last.kind);
      assert Enabled(l, step);
      ls, steps := ls0 + [Apply(l, step)], steps0 + [step];
      forall i | 0 <= i < |steps| ensures StepAt(ls, steps, i) {
        assert i < |steps0| ==> StepAt(ls0, steps0, i);
      }
      assert requests == before + [last];
      AskedLast(steps0, step);
    }
  }

  lemma AskedLast(steps: seq<Step>, step: Step)
    ensures Asked(steps + [step]) == Asked(steps) + Asks(step)
  {
    assert (steps + [step])[..|steps|] == steps;
  }

  /** And then some run lets every one of them in and out again. */
  lemma {:induction false} AllServed(requests: seq<Request>) returns (ls: seq<Lock>, steps: seq<Step>)
    requires forall i, j :: 0 <= i < j < |requests| ==> requests[i].task != requests[j].task
    ensures IsRun(ls, steps) && ls[0] == Lock({}, None, requests) && ls[|steps|] == Free
    ensures forall step :: step in steps ==> Settles(step)
    decreases |requests|
  {
    if requests == [] {
      ls, steps := [Free], [];
    } else {
      var first, l := requests[0], Lock({}, None, requests);
      var entered := Apply(l, Grant);
      assert Enabled(entered, Release(first.task)) by {
        assert forall i :: 0 <= i < |requests| - 1 ==> requests[1..][i] == requests[i + 1];
      }
      assert Apply(entered, Release(first.task)) == Lock({}, None, requests[1..]);
      var later, rest := AllServed(requests[1..]);
      ls, steps := [l, entered] + later, [Grant, Release(first.task)] + rest;
      forall i | 0 <= i < |steps| ensures StepAt(ls, steps, i) {
        assert i >= 2 ==> StepAt(later, rest, i - 2);
      }
    }
  }
}
