/** The relay gets on: from any moment of any run what is being forwarded can be finished,
    what clients sent can be delivered to all others, and newcomers can be let in. */
module RelayProgress {
  import opened Text
  import opened Bytes
  import opened Relay
  import opened RelayServer

  lemma Extend(ws: seq<World>, steps: seq<Step>, step: Step) returns (ws': seq<World>, steps': seq<Step>)
    requires IsRun(ws, steps) && Enabled(ws[|steps|], step)
    ensures IsRun(ws', steps') && steps' == steps + [step] && ws' == ws + [Apply(ws[|steps|], step)]
  {
    ws', steps' := ws + [Apply(ws[|steps|], step)], steps + [step];
    forall i | 0 <= i < |steps'| ensures StepAt(ws', steps', i) {
      assert i < |steps| ==> StepAt(ws, steps, i);
    }
  }

  /** Nobody is being sent to who is not there. */
  ghost predicate TodoHere(w: World) {
    forall a :: a in w.conns && w.conns[a].pc.Sending? ==> w.conns[a].pc.todo <= w.conns.Keys
  }

  lemma TodoStep(w: World, step: Step)
    requires TodoHere(w) && Enabled(w, step)
    ensures TodoHere(Apply(w, step))
  {
    forall a | a in Apply(w, step).conns && Apply(w, step).conns[a].pc.Sending?
      ensures Apply(w, step).conns[a].pc.todo <= Apply(w, step).conns.Keys
    {
      if a in w.conns && w.conns[a].pc.Sending? {
        assert w.conns[a].pc.todo <= w.conns.Keys;
      }
    }
  }

  lemma {:induction false} TodoAlong(ws: seq<World>, steps: seq<Step>, i: nat)
    requires IsRun(ws, steps) && i <= |steps|
    ensures TodoHere(ws[i])
  {
    if i > 0 {
      TodoAlong(ws, steps, i - 1);
      assert StepAt(ws, steps, i - 1);
      TodoStep(ws[i - 1], steps[i - 1]);
    }
  }

  /** What stays as it is while connections read and send. */
  predicate SameConns(w: World, w': World) {
    && w'.conns.Keys == w.conns.Keys
    && forall a :: a in w.conns && a in w'.conns ==> OneKept(w.conns[a], w'.conns[a])
  }

  predicate OneKept(c: Conn, c': Conn) { c'.stream == c.stream && c'.nick == c.nick && c'.before == c.before }

  /** A run that goes on with steps of one connection alone, none of them its leaving. */
  ghost predicate GoesOn(ws: seq<World>, steps: seq<Step>, a: Addr, ws': seq<World>, steps': seq<Step>) {
    && IsRun(ws', steps') && |ws| == |steps| + 1 && steps <= steps'
    && (forall k :: |steps| <= k < |steps'| ==> steps'[k].a == a && !steps'[k].Connect? && !steps'[k].Disconnect?)
    && SameConns(ws[|steps|], ws'[|steps'|])
    && forall b :: b in ws[|steps|].conns && b != a ==> ws'[|steps'|].conns[b].pc == ws[|steps|].conns[b].pc
  }

  lemma StepKeeps(w: World, step: Step)
    requires Enabled(w, step) && !step.Connect? && !step.Disconnect?
    ensures SameConns(w, Apply(w, step))
    ensures forall b :: b in w.conns && b != step.a ==> Apply(w, step).conns[b].pc == w.conns[b].pc
  {
    var w' := Apply(w, step);
    assert w'.conns.Keys == w.conns.Keys;
    forall b | b in w.conns ensures OneKept(w.conns[b], w'.conns[b]) && (b != step.a ==> w'.conns[b].pc == w.conns[b].pc) {
    }
  }

  lemma OneStep(ws: seq<World>, steps: seq<Step>, step: Step) returns (ws': seq<World>, steps': seq<Step>)
    requires IsRun(ws, steps) && Enabled(ws[|steps|], step) && !step.Connect? && !step.Disconnect?
    ensures GoesOn(ws, steps, step.a, ws', steps') && ws'[|steps'|] == Apply(ws[|steps|], step)
  {
    ws', steps' := Extend(ws, steps, step);
    StepKeeps(ws[|steps|], step);
  }

  /** Whoever has sends left to do can do the next one. */
  lemma NextSend(ws: seq<World>, steps: seq<Step>, a: Addr) returns (b: Addr)
    requires IsRun(ws, steps) && a in ws[|steps|].conns
    requires ws[|steps|].conns[a].pc.Sending? && ws[|steps|].conns[a].pc.todo != {}
    ensures Enabled(ws[|steps|], Send(a, b))
    ensures var (c, c') := (ws[|steps|].conns[a], Apply(ws[|steps|], Send(a, b)).conns[a]);
      c'.unread == c.unread && c'.pc.Sending? && |c'.pc.todo| < |c.pc.todo|
  {
    var w := ws[|steps|];
    TodoAlong(ws, steps, |steps|);
    InvAlong(ws, steps, |steps|);
    assert ConnOk(w, a);
    b :| b in w.conns[a].pc.todo;
    assert w.conns[a].pc.todo - {b} < w.conns[a].pc.todo;
    Smaller(w.conns[a].pc.todo, b);
  }

  lemma Smaller(s: set<Addr>, b: Addr)
    requires b in s
    ensures |s - {b}| < |s|
  {
  }

  /** From any moment of any run, a connection can finish forwarding by itself. */
  lemma {:induction false} CanFinish(ws: seq<World>, steps: seq<Step>, a: Addr) returns (ws': seq<World>, steps': seq<Step>)
    requires IsRun(ws, steps) && a in ws[|steps|].conns
    ensures GoesOn(ws, steps, a, ws', steps') && ws'[|steps'|].conns[a].pc == Idle
    ensures ws'[|steps'|].conns[a].unread == ws[|steps|].conns[a].unread
    decreases if ws[|steps|].conns[a].pc.Sending? then 1 + |ws[|steps|].conns[a].pc.todo| else 0
  {
    var pc := ws[|steps|].conns[a].pc;
    if pc == Idle {
      ws', steps' := ws, steps;
    } else if pc.todo == {} {
      ws', steps' := OneStep(ws, steps, Release(a));
    } else {
      var b := NextSend(ws, steps, a);
      var ws1, steps1 := OneStep(ws, steps, Send(a, b));
      ws', steps' := CanFinish(ws1, steps1, a);
      GoesOnTwice(ws, steps, a, ws1, steps1, ws', steps');
    }
  }

  lemma GoesOnTwice(
      ws: seq<World>, steps: seq<Step>, a: Addr, ws1: seq<World>, steps1: seq<Step>, ws2: seq<World>, steps2: seq<Step>)
    requires IsRun(ws, steps) && GoesOn(ws, steps, a, ws1, steps1) && GoesOn(ws1, steps1, a, ws2, steps2)
    ensures GoesOn(ws, steps, a, ws2, steps2)
  {
  }

  /** And it can go on until nothing more of what its client sent can be read. */
  lemma {:induction false} CanReadAll(ws: seq<World>, steps: seq<Step>, a: Addr) returns (ws': seq<World>, steps': seq<Step>)
    requires IsRun(ws, steps) && a in ws[|steps|].conns
    ensures GoesOn(ws, steps, a, ws', steps')
    ensures ws'[|steps'|].conns[a].pc == Idle && ReadFrame(ws'[|steps'|].conns[a].unread).None?
    decreases |ws[|steps|].conns[a].unread|
  {
    ws', steps' := CanFinish(ws, steps, a);
    if ReadFrame(ws'[|steps'|].conns[a].unread).Some? {
      var ws1, steps1 := OneStep(ws', steps', Read(a));
      GoesOnTwice(ws, steps, a, ws', steps', ws1, steps1);
      ws', steps' := CanReadAll(ws1, steps1, a);
      GoesOnTwice(ws, steps, a, ws1, steps1, ws', steps');
    }
  }

  lemma AllReadIsHeard(w: World, r: Addr, a: Addr, ps: seq<Payload>)
    requires r in w.conns && a in w.conns && a != r && ConnOk(w, a) && PairOk(w, r, a)
    requires (forall p :: p in ps ==> ValidPayload(p)) && w.conns[a].stream == AudioFrames(ps)
    requires Sent(w.conns[r].before, a) == Sent(w.conns[a].before, a) == []
    requires w.conns[a].pc == Idle && ReadFrame(w.conns[a].unread).None?
    ensures From(w.conns[r].heard, a) == Tagged(w.conns[a].nick, ps)
  {
    StreamExactIff(ps);
    var own := w.conns[a].own;
    assert own + [] == own;
    FirstPart(From(w.conns[r].heard, a), [], Tagged(w.conns[a].nick, own));
  }

  /** So whatever a client sent can be delivered: another one that was there before it can
      be queued all of its payloads, in order. */
  lemma CanDeliver(ws: seq<World>, steps: seq<Step>, r: Addr, a: Addr, ps: seq<Payload>)
      returns (ws': seq<World>, steps': seq<Step>)
    requires IsRun(ws, steps) && r in ws[|steps|].conns && a in ws[|steps|].conns && a != r
    requires (forall p :: p in ps ==> 1 <= |p| <= 4096) && ws[|steps|].conns[a].stream == AudioFrames(ps)
    requires Sent(ws[|steps|].conns[r].before, a) == Sent(ws[|steps|].conns[a].before, a) == []
    ensures GoesOn(ws, steps, a, ws', steps')
    ensures From(ws'[|steps'|].conns[r].heard, a) == Tagged(ws[|steps|].conns[a].nick, ps)
  {
    ws', steps' := CanReadAll(ws, steps, a);
    InvAlong(ws', steps', |steps'|);
    assert ConnOk(ws'[|steps'|], a) && PairOk(ws'[|steps'|], r, a);
    AllReadIsHeard(ws'[|steps'|], r, a, ps);
  }

  /** Who is sending. */
  function Senders(w: World): set<Addr> { set a | a in w.conns && w.conns[a].pc.Sending? }

  /** Everybody can finish forwarding, so that the table is free. */
  lemma {:induction false} CanUnlock(ws: seq<World>, steps: seq<Step>) returns (ws': seq<World>, steps': seq<Step>)
    requires IsRun(ws, steps)
    ensures IsRun(ws', steps') && steps <= steps' && Unlocked(ws'[|steps'|]) && SameConns(ws[|steps|], ws'[|steps'|])
    decreases |Senders(ws[|steps|])|
  {
    var senders := Senders(ws[|steps|]);
    if senders == {} {
      ws', steps' := ws, steps;
      assert forall a :: a in ws[|steps|].conns ==> a !in senders;
    } else {
      var a :| a in senders;
      var ws1, steps1 := CanFinish(ws, steps, a);
      assert Senders(ws1[|steps1|]) == senders - {a};
      ws', steps' := CanUnlock(ws1, steps1);
    }
  }

  /** So whoever sends a handshake with a nick of 1 to 64 bytes can be let in, and goes by
      the decoded nick. */
  lemma CanConnect(ws: seq<World>, steps: seq<Step>, a: Addr, nick: seq<byte>, rest: seq<byte>)
      returns (ws': seq<World>, steps': seq<Step>)
    requires IsRun(ws, steps) && a !in ws[|steps|].conns && 1 <= |nick| <= 64
    ensures IsRun(ws', steps') && steps <= steps' && a in ws'[|steps'|].conns
    ensures var c := ws'[|steps'|].conns[a]; c.nick == DecodedNick(nick) && c.unread == rest && c.queue == []
  {
    ws', steps' := CanUnlock(ws, steps);
    HelloReadsBack(nick, rest);
    ws', steps' := Extend(ws', steps', Connect(a, Hello(nick) + rest));
  }

  /** And whoever is there can leave: nothing of it stays in the table. */
  lemma CanLeave(ws: seq<World>, steps: seq<Step>, a: Addr) returns (ws': seq<World>, steps': seq<Step>)
    requires IsRun(ws, steps) && a in ws[|steps|].conns
    ensures IsRun(ws', steps') && steps <= steps' && ws'[|steps'|].conns.Keys == ws[|steps|].conns.Keys - {a}
  {
    ws', steps' := CanUnlock(ws, steps);
    ws', steps' := Extend(ws', steps', Disconnect(a));
  }
}
