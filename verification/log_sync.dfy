/** Merging logs between peers: what a sync response adds, and why logs that were fed
    the same messages agree. */
module LogSync {
  import opened Text
  import opened Canonical
  import opened StableSort
  import opened SignedLog

  // ------------------------------------------------------------------
  // Processing a response
  // ------------------------------------------------------------------

  /** The author's key is the trusted one if there is one, and the signature is valid. */
  predicate Acceptable(crypto: Crypto, trusted: map<string, string>, m: SignedMessage) {
    && (m.author in trusted ==> trusted[m.author] == m.pubkey)
    && crypto.valid(m.pubkey, CanonicalText(m.Signed()), m.signature)
  }

  /** The acceptable messages whose append succeeds, in order. */
  function Accepted(crypto: Crypto, trusted: map<string, string>, response: seq<SignedMessage>, writable: seq<bool>): (r: seq<SignedMessage>)
    requires |writable| == |response|
  {
    if response == [] then []
    else
      var n := |response| - 1;
      var before := Accepted(crypto, trusted, response[..n], writable[..n]);
      if Acceptable(crypto, trusted, response[n]) && writable[n] then before + [response[n]] else before
  }

  function AllWritable(n: nat): (r: seq<bool>)
    ensures |r| == n && forall i :: 0 <= i < n ==> r[i]
  {
    seq(n, _ => true)
  }

  function Unacceptable(crypto: Crypto, trusted: map<string, string>, response: seq<SignedMessage>): nat {
    if response == [] then 0
    else
      var n := |response| - 1;
      Unacceptable(crypto, trusted, response[..n]) + if Acceptable(crypto, trusted, response[n]) then 0 else 1
  }

  lemma AcceptedStep(crypto: Crypto, trusted: map<string, string>, response: seq<SignedMessage>, writable: seq<bool>, i: nat)
    requires |writable| == |response| && i < |response|
    ensures Accepted(crypto, trusted, response[..i + 1], writable[..i + 1])
         == Accepted(crypto, trusted, response[..i], writable[..i])
            + (if Acceptable(crypto, trusted, response[i]) && writable[i] then [response[i]] else [])
    ensures Unacceptable(crypto, trusted, response[..i + 1])
         == Unacceptable(crypto, trusted, response[..i]) + (if Acceptable(crypto, trusted, response[i]) then 0 else 1)
  {
    assert response[..i + 1][..i] == response[..i] && writable[..i + 1][..i] == writable[..i];
  }

  /** What is checked of a message: nobody else's key is trusted for its author, and it is
      not found forged. */
  predicate Passes(crypto: Crypto, trusted: map<string, string>, m: SignedMessage, now: int) {
    (m.author !in trusted || trusted[m.author] == m.pubkey) && Verify(crypto, m, None, now) != InvalidSignature
  }

  /** What is odd about its time does not matter. */
  lemma AcceptableIff(crypto: Crypto, trusted: map<string, string>, m: SignedMessage, now: int)
    ensures Acceptable(crypto, trusted, m) <==> Passes(crypto, trusted, m, now)
  {
  }

  /** Messages taken over keep their order: they are those that pass this check and whose
      append succeeds. */
  lemma {:induction false} TakenOverPicks(
      crypto: Crypto, trusted: map<string, string>, response: seq<SignedMessage>, writable: seq<bool>, now: int,
      chosen: nat -> bool)
      returns (at: seq<nat>)
    requires |writable| == |response|
    requires forall i: nat :: i < |response| ==> chosen(i) == (writable[i] && Passes(crypto, trusted, response[i], now))
    ensures Picks(response, Accepted(crypto, trusted, response, writable), at, chosen)
  {
    if response == [] {
      at := [];
    } else {
      var n := |response| - 1;
      var before := TakenOverPicks(crypto, trusted, response[..n], writable[..n], now, chosen);
      AcceptableIff(crypto, trusted, response[n], now);
      at := PicksLast(response, Accepted(crypto, trusted, response[..n], writable[..n]), before, chosen,
                      Accepted(crypto, trusted, response, writable));
    }
  }

  /** And the number rejected is the number of places in the response that fail it. */
  lemma {:induction false} RejectedCount(
      crypto: Crypto, trusted: map<string, string>, response: seq<SignedMessage>, now: int, failing: set<nat>)
    requires forall i: nat :: i in failing ==> i < |response|
    requires forall i: nat :: i < |response| ==> (i in failing <==> !Passes(crypto, trusted, response[i], now))
    ensures Unacceptable(crypto, trusted, response) == |failing|
  {
    if response == [] {
      assert failing == {};
    } else {
      var n := |response| - 1;
      RejectedCount(crypto, trusted, response[..n], now, failing - {n});
      AcceptableIff(crypto, trusted, response[n], now);
      if n !in failing {
        assert failing - {n} == failing;
      }
    }
  }

  datatype Verdict = Stored | Refused | AppendFailed

  function Judge(crypto: Crypto, trusted: map<string, string>, m: SignedMessage, writable: bool): Verdict {
    if !Acceptable(crypto, trusted, m) then Refused else if writable then Stored else AppendFailed
  }

  /** What the loop has stored and counted after `i` messages. */
  predicate Progress(
      crypto: Crypto, trusted: map<string, string>, response: seq<SignedMessage>, writable: seq<bool>, i: nat,
      stored: History, accepted: nat, rejected: nat)
    requires |writable| == |response| && i <= |response|
  {
    && stored == Accepted(crypto, trusted, response[..i], writable[..i])
    && accepted == |stored|
    && rejected == Unacceptable(crypto, trusted, response[..i])
  }

  lemma ProgressStep(
      crypto: Crypto, trusted: map<string, string>, response: seq<SignedMessage>, writable: seq<bool>, i: nat,
      stored: History, accepted: nat, rejected: nat)
    requires |writable| == |response| && i < |response|
    requires Progress(crypto, trusted, response, writable, i, stored, accepted, rejected)
    ensures var verdict := Judge(crypto, trusted, response[i], writable[i]);
      Progress(crypto, trusted, response, writable, i + 1,
        stored + (if verdict == Stored then [response[i]] else []),
        accepted + (if verdict == Stored then 1 else 0),
        rejected + (if verdict == Refused then 1 else 0))
  {
    AcceptedStep(crypto, trusted, response, writable, i);
  }

  /** One message of a response: a suspicious timestamp is accepted, a wrong key or an
      invalid signature is not. */
  method ProcessMessage(
      log: MessageLog, crypto: Crypto, trusted: map<string, string>, m: SignedMessage,
      now: int, writable: bool)
    returns (verdict: Verdict)
    requires log.FilesOk()
    modifies log
    ensures log.FilesOk() && forall channel :: old(log.Serves(channel)) ==> log.Serves(channel)
    ensures verdict == Judge(crypto, trusted, m, writable)
    ensures log.history == old(log.history) + if verdict == Stored then [m] else []
  {
    if m.author in trusted && trusted[m.author] != m.pubkey {
      return Refused;
    }
    var result := Verify(crypto, m, None, now);
    if result == InvalidSignature {
      return Refused;
    }
    var ok := log.Append(m, writable);
    return if ok then Stored else AppendFailed;
  }

  /** `process_sync_response`. A failed append counts on neither side. */
  method ProcessSyncResponse(
      log: MessageLog, crypto: Crypto, trusted: map<string, string>, response: seq<SignedMessage>,
      now: int, writable: seq<bool>)
    returns (accepted: nat, rejected: nat)
    requires log.FilesOk() && |writable| == |response|
    modifies log
    ensures log.FilesOk() && forall channel :: old(log.Serves(channel)) ==> log.Serves(channel)
    ensures log.history == old(log.history) + Accepted(crypto, trusted, response, writable)
    ensures accepted == |Accepted(crypto, trusted, response, writable)|
    ensures rejected == Unacceptable(crypto, trusted, response)
    ensures (forall i :: 0 <= i < |writable| ==> writable[i]) ==>
      forall m :: m in log.history[|old(log.history)|..] <==>
        && m in response
        && (m.author !in trusted || trusted[m.author] == m.pubkey)
        && Verify(crypto, m, None, now) != InvalidSignature
  {
    accepted, rejected := 0, 0;
    var i := 0;
    ghost var stored: History := [];
    while i < |response|
      invariant 0 <= i <= |response| && log.FilesOk()
      invariant forall channel :: old(log.Serves(channel)) ==> log.Serves(channel)
      invariant Progress(crypto, trusted, response, writable, i, stored, accepted, rejected)
      invariant log.history == old(log.history) + stored
    {
      ProgressStep(crypto, trusted, response, writable, i, stored, accepted, rejected);
      var verdict := ProcessMessage(log, crypto, trusted, response[i], now, writable[i]);
      ghost var more := if verdict == Stored then [response[i]] else [];
      Associative(old(log.history), stored, more);
      stored := stored + more;
      if verdict == Stored {
        accepted := accepted + 1;
      } else if verdict == Refused {
        rejected := rejected + 1;
      }
      i := i + 1;
    }
    assert response[..i] == response && writable[..i] == writable;
    assert log.history[|old(log.history)|..] == Accepted(crypto, trusted, response, writable);
    if forall j :: 0 <= j < |writable| ==> writable[j] {
      assert writable == AllWritable(|response|);
      AcceptedMembers(crypto, trusted, response);
    }
  }

  lemma {:induction false} AcceptedMembers(crypto: Crypto, trusted: map<string, string>, response: seq<SignedMessage>)
    ensures forall m :: m in Accepted(crypto, trusted, response, AllWritable(|response|))
                   <==> m in response && Acceptable(crypto, trusted, m)
  {
    if response != [] {
      var n := |response| - 1;
      AcceptedMembers(crypto, trusted, response[..n]);
      assert AllWritable(|response|)[..n] == AllWritable(n);
      assert response == response[..n] + [response[n]];
    }
  }

  /** When no append fails, every delivered message is accepted or rejected. */
  lemma {:induction false} CountsAddUp(crypto: Crypto, trusted: map<string, string>, response: seq<SignedMessage>)
    ensures |Accepted(crypto, trusted, response, AllWritable(|response|))| + Unacceptable(crypto, trusted, response) == |response|
  {
    if response != [] {
      var n := |response| - 1;
      CountsAddUp(crypto, trusted, response[..n]);
      assert AllWritable(|response|)[..n] == AllWritable(n);
    }
  }

  // ------------------------------------------------------------------
  // Order and multiplicity do not matter
  // ------------------------------------------------------------------

  ghost predicate IdsDetermine(messages: seq<SignedMessage>) {
    forall m, n :: m in messages && n in messages && m.id == n.id ==> m == n
  }

  lemma NothingLost(h: History, channel: string)
    requires IdsDetermine(h)
    ensures forall m :: m in Expected(h, channel) <==> m in h && m.channel == channel
  {
    var mine := ForChannel(h, channel);
    FirstByIdKeepsIds(mine);
    forall m | m in mine
      ensures m in FirstById(mine)
    {
      var n :| n in FirstById(mine) && n.id == m.id;
    }
  }

  function MembersAt(s: seq<SignedMessage>, t: int): set<SignedMessage> {
    set m | m in s && m.timestamp == t
  }

  lemma {:induction false} AtTimeSize(s: seq<SignedMessage>, t: int)
    requires NoRepeatedId(s)
    ensures |AtTime(s, t)| == |MembersAt(s, t)|
  {
    if s != [] {
      var before, m := s[..|s| - 1], s[|s| - 1];
      AtTimeSize(before, t);
      assert s == before + [m];
      assert m !in before;
      assert MembersAt(s, t) == MembersAt(before, t) + if m.timestamp == t then {m} else {};
    }
  }

  lemma SameSizesAt(a: History, b: History, channel: string, t: int)
    requires forall m :: m in Expected(a, channel) <==> m in Expected(b, channel)
    ensures |AtTime(Expected(a, channel), t)| == |AtTime(Expected(b, channel), t)|
  {
    var x, y := FirstById(ForChannel(a, channel)), FirstById(ForChannel(b, channel));
    FirstByIdKeepsIds(ForChannel(a, channel));
    FirstByIdKeepsIds(ForChannel(b, channel));
    SortIsStable(x);
    SortIsStable(y);
    AtTimeSize(x, t);
    AtTimeSize(y, t);
    assert MembersAt(x, t) == MembersAt(y, t) by {
      assert forall m :: m in x <==> m in Expected(a, channel);
      assert forall m :: m in y <==> m in Expected(b, channel);
    }
  }

  /** Two logs that were fed the same messages, in any order and any number of times,
      hold the same messages with the same sequence of timestamps. */
  lemma Convergence(a: History, b: History, channel: string)
    requires IdsDetermine(a) && forall m :: m in a <==> m in b
    ensures forall m :: m in Expected(a, channel) <==> m in Expected(b, channel)
    ensures Timestamps(Expected(a, channel)) == Timestamps(Expected(b, channel))
  {
    NothingLost(a, channel);
    NothingLost(b, channel);
    forall t
      ensures |AtTime(Expected(a, channel), t)| == |AtTime(Expected(b, channel), t)|
    {
      SameSizesAt(a, b, channel, t);
    }
    SortIsStable(FirstById(ForChannel(a, channel)));
    SortIsStable(FirstById(ForChannel(b, channel)));
    SameTimes(Expected(a, channel), Expected(b, channel));
  }

  /** The lists are identical exactly when messages of equal timestamp first arrived in
      the same order at both. */
  lemma IdenticalIff(a: History, b: History, channel: string)
    ensures Expected(a, channel) == Expected(b, channel) <==>
      SameOrderPerTime(FirstById(ForChannel(a, channel)), FirstById(ForChannel(b, channel)))
  {
    SortsEqualIff(FirstById(ForChannel(a, channel)), FirstById(ForChannel(b, channel)));
  }

  predicate DistinctTimes(messages: seq<SignedMessage>) {
    forall m, n :: m in messages && n in messages && m.timestamp == n.timestamp ==> m == n
  }

  /** With distinct timestamps there is only one order: the lists are identical. */
  lemma ConvergenceExact(a: History, b: History, channel: string)
    requires IdsDetermine(a) && forall m :: m in a <==> m in b
    requires DistinctTimes(ForChannel(a, channel))
    ensures Expected(a, channel) == Expected(b, channel)
  {
    Convergence(a, b, channel);
    var x, y := Expected(a, channel), Expected(b, channel);
    forall i | 0 <= i < |x|
      ensures x[i] == y[i]
    {
      assert Timestamps(x)[i] == Timestamps(y)[i];
      assert x[i] in x && y[i] in y;
      NothingLost(a, channel);
    }
    assert |x| == |Timestamps(x)| && |y| == |Timestamps(y)|;
  }

  ghost predicate SameLists(g: History, h: History) {
    forall channel :: Expected(g, channel) == Expected(h, channel)
  }

  lemma KnownMessage(g: History, g': History, h: History, m: SignedMessage)
    requires SameLists(g, h) && HasId(Expected(h, m.channel), m.id) && g' == g + [m]
    ensures SameLists(g', h)
  {
    forall channel
      ensures Expected(g', channel) == Expected(h, channel)
    {
      PushIsExpected(g, m, channel);
    }
  }

  lemma {:induction false} KnownChangesNothing(h: History, again: History)
    requires forall m :: m in again ==> HasId(Expected(h, m.channel), m.id)
    ensures SameLists(h + again, h)
  {
    if again == [] {
      assert h + again == h;
    } else {
      var before, m := again[..|again| - 1], again[|again| - 1];
      KnownChangesNothing(h, before);
      assert h + again == h + before + [m];
      KnownMessage(h + before, h + again, h, m);
    }
  }

  /** Feeding the same messages a second time changes no list at all. */
  lemma MergeIdempotent(h: History, fed: History, channel: string)
    ensures Expected(h + fed + fed, channel) == Expected(h + fed, channel)
  {
    forall m | m in fed
      ensures HasId(Expected(h + fed, m.channel), m.id)
    {
      FirstByIdKeepsIds(ForChannel(h + fed, m.channel));
      assert m in ForChannel(h + fed, m.channel);
      var n :| n in FirstById(ForChannel(h + fed, m.channel)) && n.id == m.id;
      assert n in Expected(h + fed, m.channel);
    }
    KnownChangesNothing(h + fed, fed);
  }

  // ------------------------------------------------------------------
  // One sync
  // ------------------------------------------------------------------

  /** The `since` of a sync request: the last of the messages after time 0, else 0. */
  function SyncSince(list: seq<SignedMessage>): int {
    var recent := Since(list, 0);
    if recent == [] then 0 else recent[|recent| - 1].timestamp
  }

  lemma {:induction false} NothingSince(list: seq<SignedMessage>, since: int)
    requires forall m :: m in list ==> m.timestamp <= since
    ensures Since(list, since) == []
  {
    if list != [] {
      assert list[|list| - 1] in list;
      NothingSince(list[..|list| - 1], since);
    }
  }

  /** That is the log's own last timestamp, or 0 when it has none above 0. */
  lemma SyncSinceIsLast(list: seq<SignedMessage>)
    requires Sorted(list)
    ensures SyncSince(list) == if list == [] || list[|list| - 1].timestamp <= 0 then 0 else list[|list| - 1].timestamp
  {
    if list != [] && list[|list| - 1].timestamp <= 0 {
      NothingSince(list, 0);
    }
  }

  /** The log's history after a peer with history `p` answered its request. */
  function AfterSync(crypto: Crypto, trusted: map<string, string>, a: History, p: History, channel: string): History {
    var response := Since(Expected(p, channel), SyncSince(Expected(a, channel)));
    a + Accepted(crypto, trusted, response, AllWritable(|response|))
  }

  /** A sync adds exactly the peer's acceptable messages after the log's own last timestamp. */
  lemma SyncAddsExactly(crypto: Crypto, trusted: map<string, string>, a: History, p: History, channel: string, m: SignedMessage)
    requires IdsDetermine(a + p)
    ensures m in Expected(AfterSync(crypto, trusted, a, p, channel), channel) <==>
      || m in Expected(a, channel)
      || (&& m in Expected(p, channel) && Acceptable(crypto, trusted, m)
          && m.timestamp > SyncSince(Expected(a, channel)))
  {
    var response := Since(Expected(p, channel), SyncSince(Expected(a, channel)));
    AcceptedMembers(crypto, trusted, response);
    var after := AfterSync(crypto, trusted, a, p, channel);
    assert forall x :: x in after ==> x in a + p;
    NothingLost(after, channel);
    NothingLost(a, channel);
    NothingLost(p, channel);
  }

  /** `list` holds every acceptable message of the peer's channel. */
  predicate HoldsAcceptable(crypto: Crypto, trusted: map<string, string>, p: History, channel: string, list: seq<SignedMessage>) {
    forall m :: m in Expected(p, channel) && Acceptable(crypto, trusted, m) ==> m in list
  }

  predicate HoldsAcceptableUpTo(
      crypto: Crypto, trusted: map<string, string>, p: History, channel: string, time: int, list: seq<SignedMessage>)
  {
    forall m :: m in Expected(p, channel) && Acceptable(crypto, trusted, m) && m.timestamp <= time ==> m in list
  }

  /** After one sync the log holds all of the peer's acceptable messages exactly when
      it already held those up to its own last timestamp. */
  lemma SyncCompleteIff(crypto: Crypto, trusted: map<string, string>, a: History, p: History, channel: string)
    requires IdsDetermine(a + p)
    ensures HoldsAcceptable(crypto, trusted, p, channel, Expected(AfterSync(crypto, trusted, a, p, channel), channel))
       <==> HoldsAcceptableUpTo(crypto, trusted, p, channel, SyncSince(Expected(a, channel)), Expected(a, channel))
  {
    forall m | m in Expected(p, channel) && Acceptable(crypto, trusted, m)
      ensures m in Expected(AfterSync(crypto, trusted, a, p, channel), channel) <==>
        m in Expected(a, channel) || m.timestamp > SyncSince(Expected(a, channel))
    {
      SyncAddsExactly(crypto, trusted, a, p, channel, m);
    }
  }
}
