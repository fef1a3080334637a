/** What a signed message commits to: the canonical bytes its signature covers, and
    the chain hash over recent timestamps. */
module Canonical {
  import opened Text

  datatype SignedMessage = SignedMessage(
    id: string,
    author: string,
    pubkey: string,
    channel: string,
    content: string,
    timestamp: int,
    chainHash: string,
    signature: string)
  {
    function Signed(): Fields { Fields(id, author, channel, content, timestamp, chainHash) }
  }

  /** The fields under the signature. */
  datatype Fields = Fields(
    id: string,
    author: string,
    channel: string,
    content: string,
    timestamp: int,
    chainHash: string)

  const NUL: char := '\0'

  function Parts(f: Fields): (p: seq<string>)
    ensures |p| == 6
  {
    [f.id, f.author, f.channel, f.content, SignedDecimal(f.timestamp), f.chainHash]
  }

  /** `canonical_bytes`; the step from text to UTF-8 bytes loses nothing. */
  function CanonicalText(f: Fields): string { Join(Parts(f), NUL) }

  // ------------------------------------------------------------------
  // When the canonical form determines the fields
  // ------------------------------------------------------------------

  predicate TextsNulFree(f: Fields) { NUL !in f.id && NUL !in f.author && NUL !in f.channel && NUL !in f.content }

  lemma JoinStep(p: seq<string>)
    requires |p| > 1
    ensures Join(p, NUL) == p[0] + [NUL] + Join(p[1..], NUL)
  {}

  lemma CanonicalUnrolled(f: Fields)
    ensures CanonicalText(f) ==
      f.id + [NUL] + (f.author + [NUL] + (f.channel + [NUL] + (f.content + [NUL]
        + (SignedDecimal(f.timestamp) + [NUL] + f.chainHash))))
  {
    var p := Parts(f);
    JoinStep(p);
    JoinStep(p[1..]);
    JoinStep(p[2..]);
    JoinStep(p[3..]);
    JoinStep(p[4..]);
    assert p[1..][1..] == p[2..] && p[2..][1..] == p[3..] && p[3..][1..] == p[4..] && p[4..][1..] == p[5..];
    assert p[5..] == [f.chainHash];
  }

  /** Between the separators stand the fields, in this order. */
  lemma CanonicalReadsBack(f: Fields)
    requires TextsNulFree(f) && NUL !in f.chainHash
    ensures Split(CanonicalText(f), NUL) ==
      [f.id, f.author, f.channel, f.content, SignedDecimal(f.timestamp), f.chainHash]
  {
    SplitJoin(Parts(f), NUL);
  }

  /** A separator inside a text moves the border between two fields. */
  lemma BorderMoves(x: string, y: string, next: string, rest: string)
    ensures (x + [NUL] + y) + [NUL] + (next + [NUL] + rest) == x + [NUL] + ((y + [NUL] + next) + [NUL] + rest)
  {}

  lemma SplitAt(s: string, c: char) returns (x: string, y: string)
    requires c in s
    ensures s == x + [c] + y && x != s && y != s
  {
    var i := Find(s, c).value;
    x, y := s[..i], s[i + 1..];
  }

  /** With a NUL in a text field, other fields have the same canonical form: one of
      the borders can be drawn elsewhere. */
  lemma CanonicalCollides(f: Fields) returns (g: Fields)
    requires NUL in f.id || NUL in f.author || NUL in f.channel || NUL in f.content
    ensures g != f && g.timestamp == f.timestamp && CanonicalText(g) == CanonicalText(f)
  {
    CanonicalUnrolled(f);
    var time := SignedDecimal(f.timestamp) + [NUL] + f.chainHash;
    if NUL in f.id {
      var x, y := SplitAt(f.id, NUL);
      g := f.(id := x, author := y + [NUL] + f.author);
      BorderMoves(x, y, f.author, f.channel + [NUL] + (f.content + [NUL] + time));
    } else if NUL in f.author {
      var x, y := SplitAt(f.author, NUL);
      g := f.(author := x, channel := y + [NUL] + f.channel);
      BorderMoves(x, y, f.channel, f.content + [NUL] + time);
    } else if NUL in f.channel {
      var x, y := SplitAt(f.channel, NUL);
      g := f.(channel := x, content := y + [NUL] + f.content);
      BorderMoves(x, y, f.content, time);
    } else {
      var x, y := SplitAt(f.content, NUL);
      g := f.(channel := f.channel + [NUL] + x, content := y);
      BorderMoves(f.channel, x, y, time);
    }
    CanonicalUnrolled(g);
  }

  /** The pieces between the separators. */
  function Pieces(f: Fields): seq<string> { Split(CanonicalText(f), NUL) }

  function Texts(f: Fields): (t: seq<string>)
    ensures |t| == 4
  {
    [f.id, f.author, f.channel, f.content]
  }

  /** Those of the four texts. */
  function TextPieces(f: Fields): (p: seq<string>)
    ensures |p| >= 4
  {
    SplitAll(Texts(f), NUL)
  }

  lemma PiecesAre(f: Fields)
    ensures Pieces(f) == TextPieces(f) + ([SignedDecimal(f.timestamp)] + Split(f.chainHash, NUL))
  {
    var time := SignedDecimal(f.timestamp);
    assert Parts(f) == Texts(f) + [time, f.chainHash];
    SplitOfJoin(Parts(f), NUL);
    SplitAllConcat(Texts(f), [time, f.chainHash], NUL);
    SplitTwo(time, f.chainHash);
    SplitOne(time, NUL);
  }

  lemma SplitTwo(x: string, y: string)
    ensures SplitAll([x, y], NUL) == Split(x, NUL) + Split(y, NUL)
  {
    assert [x, y][1..] == [y] && [y][1..] == [];
    assert SplitAll([y], NUL) == Split(y, NUL) + SplitAll([], NUL);
    assert SplitAll([y], NUL) == Split(y, NUL);
  }

  lemma TextsOfPieces(f: Fields)
    ensures TextsNulFree(f) <==> |TextPieces(f)| == 4
    ensures TextsNulFree(f) ==> TextPieces(f) == Texts(f)
  {
    SplitAllIsParts(Texts(f), NUL);
    assert forall p :: p in Texts(f) <==> p == f.id || p == f.author || p == f.channel || p == f.content;
  }

  /** A 64-bit timestamp. */
  predicate InRange(t: int) { -0x8000_0000_0000_0000 <= t < 0x8000_0000_0000_0000 }

  /** A text that some timestamp prints as. */
  ghost predicate IsTimestamp(s: string) { exists t :: PrintsAs(t, s) }

  predicate PrintsAs(t: int, s: string) { InRange(t) && SignedDecimal(t) == s }

  /** No piece of the chain hash that another one follows reads as a timestamp. */
  ghost predicate NoTimestampInside(chainHash: string) {
    forall i | 0 <= i < |Split(chainHash, NUL)| - 1 :: !IsTimestamp(Split(chainHash, NUL)[i])
  }

  lemma SameTexts(f: Fields, g: Fields)
    requires TextsNulFree(f) && TextsNulFree(g) && Pieces(f) == Pieces(g)
    ensures f == g
  {
    PiecesAre(f);
    PiecesAre(g);
    TextsOfPieces(f);
    TextsOfPieces(g);
    SameParts(Texts(f), SignedDecimal(f.timestamp), Split(f.chainHash, NUL),
              Texts(g), SignedDecimal(g.timestamp), Split(g.chainHash, NUL));
    assert f.id == Texts(f)[0] && f.author == Texts(f)[1] && f.channel == Texts(f)[2] && f.content == Texts(f)[3];
    assert g.id == Texts(g)[0] && g.author == Texts(g)[1] && g.channel == Texts(g)[2] && g.content == Texts(g)[3];
    SignedDecimalInjective(f.timestamp, g.timestamp);
    JoinSplit(f.chainHash, NUL);
    JoinSplit(g.chainHash, NUL);
  }

  lemma SameParts(x: seq<string>, t: string, p: seq<string>, y: seq<string>, u: string, q: seq<string>)
    requires |x| == |y| && x + ([t] + p) == y + ([u] + q)
    ensures x == y && t == u && p == q
  {
    assert x == (x + ([t] + p))[..|x|] && y == (y + ([u] + q))[..|y|];
    DropFirst(x, [t] + p);
    DropFirst(y, [u] + q);
    assert t == ([t] + p)[0] && u == ([u] + q)[0];
    DropFirst([t], p);
    DropFirst([u], q);
  }

  lemma OtherTexts(f: Fields, g: Fields) returns (i: nat)
    requires TextsNulFree(f) && !TextsNulFree(g) && Pieces(f) == Pieces(g)
    ensures i < |Split(f.chainHash, NUL)| - 1 && Split(f.chainHash, NUL)[i] == SignedDecimal(g.timestamp)
  {
    PiecesAre(f);
    PiecesAre(g);
    TextsOfPieces(f);
    TextsOfPieces(g);
    i := ShiftedParts(Texts(f), SignedDecimal(f.timestamp), Split(f.chainHash, NUL),
                      TextPieces(g), SignedDecimal(g.timestamp), Split(g.chainHash, NUL));
  }

  lemma ShiftedParts(x: seq<string>, t: string, p: seq<string>, y: seq<string>, u: string, q: seq<string>) returns (i: nat)
    requires |x| < |y| && |q| >= 1 && x + ([t] + p) == y + ([u] + q)
    ensures i < |p| - 1 && p[i] == u
  {
    i := |y| - |x| - 1;
    assert (y + ([u] + q))[|y|] == u;
    assert (x + ([t] + p))[|y|] == ([t] + p)[i + 1] == p[i];
  }

  /** With such a piece in the chain hash, other fields have the same canonical form: the
      piece is read as the timestamp, and what is before it as content. */
  lemma ChainHashCollides(f: Fields, i: nat, t: int) returns (g: Fields)
    requires i < |Split(f.chainHash, NUL)| - 1 && PrintsAs(t, Split(f.chainHash, NUL)[i])
    ensures g != f && g.timestamp == t && CanonicalText(g) == CanonicalText(f)
  {
    var p, time := Split(f.chainHash, NUL), SignedDecimal(f.timestamp);
    g := f.(content := Join([f.content, time] + p[..i], NUL), timestamp := t, chainHash := Join(p[i + 1..], NUL));
    JoinSplit(f.chainHash, NUL);
    PieceMoves([f.content, time], p, i);
    CanonicalEnd(f);
    CanonicalEnd(g);
    SameEnds([f.id, f.author, f.channel], [f.content, time] + [f.chainHash], [g.content] + [p[i]] + [g.chainHash]);
    assert [g.content, p[i]] == [g.content] + [p[i]];
    LongerContent(f.content, time, p[..i]);
  }

  lemma CanonicalEnd(f: Fields)
    ensures CanonicalText(f) ==
      Join([f.id, f.author, f.channel] + ([f.content, SignedDecimal(f.timestamp)] + [f.chainHash]), NUL)
  {
    assert Parts(f) == [f.id, f.author, f.channel] + ([f.content, SignedDecimal(f.timestamp)] + [f.chainHash]);
  }

  lemma PieceMoves(x: seq<string>, p: seq<string>, i: nat)
    requires |x| >= 1 && i < |p| - 1
    ensures Join(x + [Join(p, NUL)], NUL) == Join([Join(x + p[..i], NUL)] + [p[i]] + [Join(p[i + 1..], NUL)], NUL)
  {
    LastJoined(x, p);
    Folds(x + p[..i], p[i], p[i + 1..]);
    Around(p, i);
    Associative(x, p[..i], [p[i]] + p[i + 1..]);
  }

  lemma Around(p: seq<string>, i: nat)
    requires i < |p|
    ensures p[..i] + ([p[i]] + p[i + 1..]) == p
  {
  }

  lemma Folds(u: seq<string>, v: string, w: seq<string>)
    requires |u| >= 1 && |w| >= 1
    ensures Join([Join(u, NUL)] + [v] + [Join(w, NUL)], NUL) == Join(u + ([v] + w), NUL)
  {
    LastJoined([Join(u, NUL)] + [v], w);
    Associative([Join(u, NUL)], [v], w);
    FirstJoined(u, [v] + w);
  }

  lemma LastJoined(x: seq<string>, p: seq<string>)
    requires |x| >= 1 && |p| >= 1
    ensures Join(x + [Join(p, NUL)], NUL) == Join(x + p, NUL)
  {
    JoinConcat(x, [Join(p, NUL)], NUL);
    JoinConcat(x, p, NUL);
  }

  lemma FirstJoined(p: seq<string>, y: seq<string>)
    requires |p| >= 1 && |y| >= 1
    ensures Join([Join(p, NUL)] + y, NUL) == Join(p + y, NUL)
  {
    JoinConcat([Join(p, NUL)], y, NUL);
    JoinConcat(p, y, NUL);
  }

  lemma SameEnds(x: seq<string>, y: seq<string>, z: seq<string>)
    requires |x| >= 1 && |y| >= 1 && |z| >= 1 && Join(y, NUL) == Join(z, NUL)
    ensures Join(x + y, NUL) == Join(x + z, NUL)
  {
    JoinConcat(x, y, NUL);
    JoinConcat(x, z, NUL);
  }

  lemma LongerContent(content: string, time: string, p: seq<string>)
    ensures Join([content, time] + p, NUL) != content
  {
    assert [content, time] + p == [content] + ([time] + p);
    JoinConcat([content], [time] + p, NUL);
  }

  /** "No field can bleed into another" holds exactly for fields whose four texts have no
      NUL and whose chain hash has no piece that reads as a timestamp before its last. */
  lemma UnambiguousIff(f: Fields)
    requires InRange(f.timestamp)
    ensures (forall g: Fields :: InRange(g.timestamp) && CanonicalText(g) == CanonicalText(f) ==> g == f)
       <==> TextsNulFree(f) && NoTimestampInside(f.chainHash)
  {
    if !TextsNulFree(f) {
      var g := CanonicalCollides(f);
    } else if i :| 0 <= i < |Split(f.chainHash, NUL)| - 1 && IsTimestamp(Split(f.chainHash, NUL)[i]) {
      var t :| PrintsAs(t, Split(f.chainHash, NUL)[i]);
      var g := ChainHashCollides(f, i, t);
    } else {
      forall g: Fields | InRange(g.timestamp) && CanonicalText(g) == CanonicalText(f)
        ensures g == f
      {
        if TextsNulFree(g) {
          SameTexts(f, g);
        } else {
          var i := OtherTexts(f, g);
          assert PrintsAs(g.timestamp, Split(f.chainHash, NUL)[i]);
          assert IsTimestamp(Split(f.chainHash, NUL)[i]);
        }
      }
    }
  }

  /** In particular fields without any NUL are determined, against any others. */
  lemma CanonicalInjective(f: Fields, g: Fields)
    requires TextsNulFree(f) && NUL !in f.chainHash && CanonicalText(f) == CanonicalText(g)
    ensures f == g
  {
    SplitOne(f.chainHash, NUL);
    if TextsNulFree(g) {
      SameTexts(f, g);
    } else {
      var _ := OtherTexts(f, g);
    }
  }

  // ------------------------------------------------------------------
  // The chain hash
  // ------------------------------------------------------------------

  const CHAIN_WINDOW := 5

  function Reverse<T>(s: seq<T>): (r: seq<T>)
    ensures |r| == |s|
    ensures forall i :: 0 <= i < |s| ==> r[i] == s[|s| - 1 - i]
  {
    if s == [] then [] else Reverse(s[1..]) + [s[0]]
  }

  function Take<T>(s: seq<T>, n: nat): seq<T> { if n <= |s| then s[..n] else s }

  /** `iter().rev().take(CHAIN_WINDOW)` collected and reversed again. */
  function Tail<T>(s: seq<T>): seq<T> { Reverse(Take(Reverse(s), CHAIN_WINDOW)) }

  /** The last five entries, or all when there are fewer. */
  lemma TailIsSuffix<T>(s: seq<T>)
    ensures Tail(s) == if |s| > CHAIN_WINDOW then s[|s| - CHAIN_WINDOW..] else s
  {}

  lemma TailIdempotent<T>(s: seq<T>)
    ensures Tail(Tail(s)) == Tail(s)
  {
    TailIsSuffix(s);
    TailIsSuffix(Tail(s));
  }

  function Decimals(timestamps: seq<int>): (r: seq<string>)
    ensures |r| == |timestamps|
    ensures forall i :: 0 <= i < |r| ==> r[i] == SignedDecimal(timestamps[i])
  {
    seq(|timestamps|, i requires 0 <= i < |timestamps| => SignedDecimal(timestamps[i]))
  }

  /** The text `compute_chain_hash` hashes. */
  function ChainInput(timestamps: seq<int>): string { Join(Decimals(Tail(timestamps)), ',') }

  function ChainHash(sha: string -> string, timestamps: seq<int>): string { sha(ChainInput(timestamps)) }

  lemma DecimalsInjective(a: seq<int>, b: seq<int>)
    requires Decimals(a) == Decimals(b)
    ensures a == b
  {
    forall i | 0 <= i < |a|
      ensures a[i] == b[i]
    {
      assert Decimals(a)[i] == Decimals(b)[i];
      SignedDecimalInjective(a[i], b[i]);
    }
  }

  lemma JoinedDecimals(a: seq<int>)
    ensures Join(Decimals(a), ',') == "" <==> a == []
    ensures a != [] ==> Split(Join(Decimals(a), ','), ',') == Decimals(a)
  {
    if a != [] {
      SplitJoin(Decimals(a), ',');
      assert Decimals(a)[0] != "";
    }
  }

  /** Two histories hash the same text exactly when their last five entries agree. */
  lemma ChainInputDeterminesTail(a: seq<int>, b: seq<int>)
    ensures ChainInput(a) == ChainInput(b) <==> Tail(a) == Tail(b)
  {
    JoinedDecimals(Tail(a));
    JoinedDecimals(Tail(b));
    if ChainInput(a) == ChainInput(b) && Tail(a) != [] {
      DecimalsInjective(Tail(a), Tail(b));
    }
  }

  /** What is hashed are the last five timestamps, or all of fewer, in order, in decimal,
      between commas. */
  lemma ChainInputReadsBack(a: seq<int>)
    requires a != []
    ensures var last, parts := if |a| > 5 then a[|a| - 5..] else a, Split(ChainInput(a), ',');
      |parts| == |last| && forall i :: 0 <= i < |last| ==> parts[i] == SignedDecimal(last[i])
  {
    TailIsSuffix(a);
    JoinedDecimals(Tail(a));
  }

  function Timestamps(messages: seq<SignedMessage>): (r: seq<int>)
    ensures |r| == |messages|
    ensures forall i :: 0 <= i < |r| ==> r[i] == messages[i].timestamp
  {
    seq(|messages|, i requires 0 <= i < |messages| => messages[i].timestamp)
  }

  /** `recent_timestamps` on a channel's list. */
  function RecentTimestamps(messages: seq<SignedMessage>): seq<int> {
    Timestamps(Tail(messages))
  }

  /** Hashing the recent timestamps is hashing the whole log's timestamps. */
  lemma RecentIsEnough(messages: seq<SignedMessage>)
    ensures RecentTimestamps(messages) == Tail(Timestamps(messages))
    ensures ChainInput(RecentTimestamps(messages)) == ChainInput(Timestamps(messages))
  {
    TailIsSuffix(messages);
    TailIsSuffix(Timestamps(messages));
    TailIdempotent(Timestamps(messages));
  }

  // ------------------------------------------------------------------
  // Verification
  // ------------------------------------------------------------------

  /** The signature check (key, canonical text, signature, all hexadecimal decoding
      included) and the hash, as unknown functions. */
  datatype Crypto = Crypto(valid: (string, string, string) -> bool, sha: string -> string)

  datatype VerifyResult = Ok | InvalidSignature | ChainMismatch(expected: string, got: string) | FutureTimestamp

  const TIMESTAMP_TOLERANCE_SECS := 120

  /** `SignedMessage::verify` at clock time `now`. */
  function Verify(crypto: Crypto, m: SignedMessage, known: Option<seq<int>>, now: int): VerifyResult {
    if !crypto.valid(m.pubkey, CanonicalText(m.Signed()), m.signature) then InvalidSignature
    else if known.Some? && ChainHash(crypto.sha, known.value) != m.chainHash then
      ChainMismatch(ChainHash(crypto.sha, known.value), m.chainHash)
    else if m.timestamp > now + TIMESTAMP_TOLERANCE_SECS then FutureTimestamp
    else Ok
  }

  /** A message is called forged exactly when its signature does not verify, whatever else
      is wrong with it; otherwise out of chain exactly when the hash of a known history is
      not its own; otherwise from the future exactly when it is dated more than two minutes
      ahead. */
  lemma VerdictIff(crypto: Crypto, m: SignedMessage, known: Option<seq<int>>, now: int)
    ensures var r, genuine := Verify(crypto, m, known, now), crypto.valid(m.pubkey, CanonicalText(m.Signed()), m.signature);
      var chained := known.Some? ==> crypto.sha(ChainInput(known.value)) == m.chainHash;
      && (r == InvalidSignature <==> !genuine)
      && (r.ChainMismatch? <==> genuine && !chained)
      && (r.ChainMismatch? ==> r.got == m.chainHash != r.expected)
      && (r == FutureTimestamp <==> genuine && chained && m.timestamp - now > 120)
  {
  }

  /** A signature valid for one text under a key is valid for no other text. */
  ghost predicate SignatureBinds(crypto: Crypto) {
    forall key, text, text', sig ::
      crypto.valid(key, text, sig) && crypto.valid(key, text', sig) ==> text == text'
  }

  /** The same key and signature on other signed fields. */
  predicate Tampers(tampered: SignedMessage, m: SignedMessage) {
    && tampered.pubkey == m.pubkey && tampered.signature == m.signature
    && InRange(tampered.timestamp) && tampered.Signed() != m.Signed()
  }

  /** Every change to the signed fields of a verified message is detected exactly when
      the message's canonical form is unambiguous. */
  lemma TamperingFailsIff(crypto: Crypto, m: SignedMessage, known: Option<seq<int>>, now: int, later: int)
    requires SignatureBinds(crypto) && InRange(m.timestamp)
    requires Verify(crypto, m, known, now) != InvalidSignature
    ensures (forall t :: Tampers(t, m) ==> Verify(crypto, t, known, later) == InvalidSignature)
       <==> TextsNulFree(m.Signed()) && NoTimestampInside(m.chainHash)
  {
    var f := m.Signed();
    UnambiguousIff(f);
    if g: Fields :| InRange(g.timestamp) && CanonicalText(g) == CanonicalText(f) && g != f {
      var t := m.(id := g.id, author := g.author, channel := g.channel, content := g.content,
                  timestamp := g.timestamp, chainHash := g.chainHash);
      assert t.Signed() == g;
      assert Tampers(t, m) && Verify(crypto, t, known, later) != InvalidSignature;
    } else {
      forall t | Tampers(t, m)
        ensures Verify(crypto, t, known, later) == InvalidSignature
      {
        assert CanonicalText(t.Signed()) != CanonicalText(f);
      }
    }
  }

  /** With a collision-free hash, an honestly chained message is flagged against a
      history exactly when that history's last five timestamps differ from the author's. */
  lemma ChainMismatchIff(crypto: Crypto, m: SignedMessage, seen: seq<int>, known: seq<int>, now: int)
    requires forall x, y :: crypto.sha(x) == crypto.sha(y) ==> x == y
    requires m.chainHash == ChainHash(crypto.sha, seen)
    requires crypto.valid(m.pubkey, CanonicalText(m.Signed()), m.signature)
    ensures Verify(crypto, m, Some(known), now).ChainMismatch? <==> Tail(seen) != Tail(known)
  {
    ChainInputDeterminesTail(seen, known);
  }
}
