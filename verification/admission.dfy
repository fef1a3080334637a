/** How many connections the accept loop lets in. Its check counts registered
    clients only, and a connection registers after its handshake, so connections
    still shaking hands are not seen by the check. */
module Admission {
  import opened Text
  import opened IrcServer
  import opened ServerRuns

  /** All addresses, or those of one IP address. */
  datatype Scope = Everyone | FromIp(ip: nat)

  predicate InScope(scope: Scope, a: Addr) { scope == FromIp(a.ip) || scope == Everyone }

  /** One less than the limit the check compares with. */
  function Cap(scope: Scope): nat {
    if scope.Everyone? then MAX_TOTAL_CLIENTS - 1 else MAX_CLIENTS_PER_IP - 1
  }

  function Registered(w: World, scope: Scope): set<Addr> {
    set a | a in w.server.clients && InScope(scope, a)
  }

  /** Accepted connections that have not registered yet. */
  function Pending(w: World, scope: Scope): set<Addr> {
    set a | a in w.conns && w.conns[a] == Handshaking && InScope(scope, a)
  }

  function Load(w: World, scope: Scope): nat { |Registered(w, scope)| + |Pending(w, scope)| }

  lemma SubsetSize<T>(a: set<T>, b: set<T>)
    requires a <= b
    ensures |a| <= |b|
  {
    assert |b| == |a| + |b - a| by { assert b == a + (b - a); }
  }

  lemma AdmittedBelowCap(w: World, a: Addr, scope: Scope)
    requires Inv(w) && Enabled(w, Accept(a)) && InScope(scope, a)
    ensures |Registered(w, scope)| <= Cap(scope)
  {
    if scope.Everyone? {
      assert Registered(w, scope) == w.server.clients.Keys;
    } else {
      assert Registered(w, scope) == ClientsAt(w.server.clients, a.ip);
    }
  }

  function Joining(step: Step, scope: Scope): set<Addr> {
    if step.Connected? && InScope(scope, step.a) then {step.a} else {}
  }

  lemma RegisteredStep(env: Env, w: World, step: Step, scope: Scope)
    requires Enabled(w, step)
    ensures Registered(Apply(env, w, step), scope) <= Registered(w, scope) + Joining(step, scope)
  {
    forall b | b in Registered(Apply(env, w, step), scope) && b != step.a
      ensures b in Registered(w, scope)
    {
      OthersKeepIdentity(env, w, step, b);
    }
  }

  lemma PendingStep(env: Env, w: World, step: Step, scope: Scope)
    requires Enabled(w, step) && !(step.Accept? && InScope(scope, step.a))
    ensures Joining(step, scope) <= Pending(w, scope)
    ensures Pending(Apply(env, w, step), scope) <= Pending(w, scope) - Joining(step, scope)
  {}

  /** Only an accepted connection in scope adds to the load. */
  lemma LoadStep(env: Env, w: World, step: Step, scope: Scope)
    requires Enabled(w, step) && !(step.Accept? && InScope(scope, step.a))
    ensures Load(Apply(env, w, step), scope) <= Load(w, scope)
  {
    RegisteredStep(env, w, step, scope);
    PendingStep(env, w, step, scope);
    LoadMoves(Registered(w, scope), Pending(w, scope), Joining(step, scope),
              Registered(Apply(env, w, step), scope), Pending(Apply(env, w, step), scope));
  }

  lemma LoadMoves(registered: set<Addr>, pending: set<Addr>, joining: set<Addr>, registered': set<Addr>, pending': set<Addr>)
    requires joining <= pending
    requires registered' <= registered + joining && pending' <= pending - joining
    ensures |registered'| + |pending'| <= |registered| + |pending|
  {
    SubsetSize(registered', registered + joining);
    SubsetSize(pending', pending - joining);
    assert pending == joining + (pending - joining);
  }

  /** Registered plus accepted-but-unregistered connections never exceed the cap
      by more than the number that were ever shaking hands at once: 99 more than it
      in all, 4 more for one IP address. */
  lemma {:induction false} AdmissionBound(
      env: Env, powBits: nat, steps: seq<Step>, worlds: seq<World>, i: nat, scope: Scope, most: nat)
    requires IsRun(env, powBits, steps, worlds) && i <= |steps|
    requires forall j | 0 <= j <= i :: |Pending(worlds[j], scope)| <= most
    ensures Load(worlds[i], scope) <= Cap(scope) + most
  {
    if i > 0 {
      AdmissionBound(env, powBits, steps, worlds, i - 1, scope, most);
      var w, w', step := worlds[i - 1], worlds[i], steps[i - 1];
      assert StepAt(env, steps, worlds, i - 1);
      if step.Accept? && InScope(scope, step.a) {
        InvAlong(env, powBits, steps, worlds, i - 1);
        AdmittedBelowCap(w, step.a, scope);
        assert Registered(w', scope) == Registered(w, scope);
      } else {
        LoadStep(env, w, step, scope);
      }
    }
  }

  /** The limits of 100 clients and 5 per IP address are exact when handshakes never overlap. */
  lemma CapsExactWithoutOverlap(env: Env, powBits: nat, steps: seq<Step>, worlds: seq<World>, i: nat, ip: nat)
    requires IsRun(env, powBits, steps, worlds) && i <= |steps|
    requires forall j | 0 <= j <= i :: |Pending(worlds[j], Everyone)| <= 1
    ensures |worlds[i].server.clients| <= MAX_TOTAL_CLIENTS
    ensures |ClientsAt(worlds[i].server.clients, ip)| <= MAX_CLIENTS_PER_IP
  {
    AdmissionBound(env, powBits, steps, worlds, i, Everyone, 1);
    assert Registered(worlds[i], Everyone) == worlds[i].server.clients.Keys;
    forall j | 0 <= j <= i
      ensures |Pending(worlds[j], FromIp(ip))| <= 1
    {
      SubsetSize(Pending(worlds[j], FromIp(ip)), Pending(worlds[j], Everyone));
    }
    AdmissionBound(env, powBits, steps, worlds, i, FromIp(ip), 1);
    InvAlong(env, powBits, steps, worlds, i);
    assert Registered(worlds[i], FromIp(ip)) == ClientsAt(worlds[i].server.clients, ip);
  }

  // ------------------------------------------------------------------
  // The bound is reached
  // ------------------------------------------------------------------

  /** The k-th address of a crowd: all from one IP address, or all from different ones. */
  function CrowdAddr(scope: Scope, k: nat): Addr {
    if scope.FromIp? then Addr(scope.ip, k) else Addr(k, 0)
  }

  predicate InCrowd(scope: Scope, from: nat, end: nat, a: Addr) {
    if scope.FromIp? then a.ip == scope.ip && from <= a.port < end
    else a.port == 0 && from <= a.ip < end
  }

  function Crowd(scope: Scope, from: nat, end: nat): (r: set<Addr>)
    ensures forall a :: a in r <==> InCrowd(scope, from, end, a)
  {
    assert forall a :: InCrowd(scope, from, end, a) ==> a == CrowdAddr(scope, if scope.FromIp? then a.port else a.ip);
    set k | from <= k < end :: CrowdAddr(scope, k)
  }

  lemma {:induction false} CrowdSize(scope: Scope, from: nat, end: nat)
    requires from <= end
    ensures |Crowd(scope, from, end)| == end - from
    decreases end
  {
    if from == end {
      assert Crowd(scope, from, end) == {};
    } else {
      CrowdSize(scope, from, end - 1);
      assert Crowd(scope, from, end) == Crowd(scope, from, end - 1) + {CrowdAddr(scope, end - 1)};
    }
  }

  /** The first `n` of the crowd are registered, the next `m` are shaking hands. */
  ghost predicate CrowdWorld(w: World, scope: Scope, n: nat, m: nat) {
    && w.server.clients.Keys == Crowd(scope, 0, n)
    && (forall a :: a in w.server.clients ==> w.server.clients[a].ip == a.ip)
    && w.conns.Keys == Crowd(scope, 0, n + m)
    && (forall a :: a in w.conns ==> (w.conns[a] == Handshaking <==> InCrowd(scope, n, n + m, a)))
  }

  lemma CrowdAdmitted(w: World, scope: Scope, n: nat, m: nat)
    requires CrowdWorld(w, scope, n, m) && n <= Cap(scope)
    ensures Enabled(w, Accept(CrowdAddr(scope, n + m)))
  {
    var a := CrowdAddr(scope, n + m);
    var near := ClientsAt(w.server.clients, a.ip);
    assert |w.server.clients| == |w.server.clients.Keys|;
    CrowdSize(scope, 0, n);
    assert near == if scope.FromIp? then Crowd(scope, 0, n) else {};
  }

  lemma CrowdAccepts(env: Env, w: World, scope: Scope, n: nat, m: nat)
    requires CrowdWorld(w, scope, n, m)
    ensures CrowdWorld(Apply(env, w, Accept(CrowdAddr(scope, n + m))), scope, n, m + 1)
  {
    var a := CrowdAddr(scope, n + m);
    var w' := Apply(env, w, Accept(a));
    assert Crowd(scope, 0, n + m + 1) == Crowd(scope, 0, n + m) + {a};
    assert w'.server == w.server && w'.conns == w.conns[a := Handshaking];
    CrowdEnd(scope, n, n + m);
  }

  lemma CrowdEnd(scope: Scope, from: nat, end: nat)
    requires from <= end
    ensures forall b :: InCrowd(scope, from, end + 1, b) <==> InCrowd(scope, from, end, b) || b == CrowdAddr(scope, end)
    ensures !InCrowd(scope, 0, end, CrowdAddr(scope, end))
  {
  }

  lemma CrowdConnects(env: Env, w: World, scope: Scope, n: nat)
    requires CrowdWorld(w, scope, n, 1)
    ensures Enabled(w, Connected(CrowdAddr(scope, n)))
    ensures CrowdWorld(Apply(env, w, Connected(CrowdAddr(scope, n))), scope, n + 1, 0)
  {
    assert CrowdAddr(scope, n) in Crowd(scope, 0, n + 1);
    assert Crowd(scope, 0, n + 1) == Crowd(scope, 0, n) + {CrowdAddr(scope, n)};
  }

  lemma CrowdGrows(env: Env, scope: Scope, powBits: nat, n: nat, m: nat, steps: seq<Step>, worlds: seq<World>)
    returns (steps': seq<Step>, worlds': seq<World>)
    requires n <= Cap(scope) && IsRun(env, powBits, steps, worlds) && CrowdWorld(worlds[|steps|], scope, n, m)
    ensures IsRun(env, powBits, steps', worlds') && CrowdWorld(worlds'[|steps'|], scope, n, m + 1)
  {
    var w := worlds[|steps|];
    CrowdAdmitted(w, scope, n, m);
    CrowdAccepts(env, w, scope, n, m);
    steps', worlds' := ExtendRun(env, powBits, steps, worlds, Accept(CrowdAddr(scope, n + m)));
  }

  lemma CrowdEnters(env: Env, scope: Scope, powBits: nat, n: nat, steps: seq<Step>, worlds: seq<World>)
    returns (steps': seq<Step>, worlds': seq<World>)
    requires IsRun(env, powBits, steps, worlds) && CrowdWorld(worlds[|steps|], scope, n, 1)
    ensures IsRun(env, powBits, steps', worlds') && CrowdWorld(worlds'[|steps'|], scope, n + 1, 0)
  {
    CrowdConnects(env, worlds[|steps|], scope, n);
    steps', worlds' := ExtendRun(env, powBits, steps, worlds, Connected(CrowdAddr(scope, n)));
  }

  lemma {:induction false} CrowdReachable(env: Env, scope: Scope, powBits: nat, n: nat, m: nat)
    returns (steps: seq<Step>, worlds: seq<World>)
    requires n <= Cap(scope)
    ensures IsRun(env, powBits, steps, worlds)
    ensures CrowdWorld(worlds[|steps|], scope, n, m)
    decreases n, m
  {
    if m > 0 {
      steps, worlds := CrowdReachable(env, scope, powBits, n, m - 1);
      steps, worlds := CrowdGrows(env, scope, powBits, n, m - 1, steps, worlds);
    } else if n > 0 {
      steps, worlds := CrowdReachable(env, scope, powBits, n - 1, 1);
      steps, worlds := CrowdEnters(env, scope, powBits, n - 1, steps, worlds);
    } else {
      steps, worlds := [], [Init(powBits)];
      EmptyCrowd(scope, powBits);
    }
  }

  lemma EmptyCrowd(scope: Scope, powBits: nat)
    ensures CrowdWorld(Init(powBits), scope, 0, 0)
  {}

  /** The bound is tight: for every number of overlapping handshakes some run meets
      it with equality, so with two or more of them both limits are exceeded. */
  lemma AdmissionBoundReached(env: Env, scope: Scope, powBits: nat, most: nat)
    returns (steps: seq<Step>, worlds: seq<World>)
    ensures IsRun(env, powBits, steps, worlds)
    ensures |Pending(worlds[|steps|], scope)| == most
    ensures Load(worlds[|steps|], scope) == Cap(scope) + most
  {
    steps, worlds := CrowdReachable(env, scope, powBits, Cap(scope), most);
    var w := worlds[|steps|];
    CrowdSize(scope, 0, Cap(scope));
    CrowdSize(scope, Cap(scope), Cap(scope) + most);
    assert Registered(w, scope) == Crowd(scope, 0, Cap(scope));
    assert Pending(w, scope) == Crowd(scope, Cap(scope), Cap(scope) + most);
  }
}
