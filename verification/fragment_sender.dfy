/** The sending side of fragmentation. The payload is cut every 400 bytes, whatever
    character a cut falls into, and each piece is decoded on its own with
    replacement characters for what is not whole. */
module FragmentSender {
  import opened Text
  import opened Fragments

  const CHUNK_SIZE := 400

  const REPLACEMENT: char := '\U{FFFD}'

  // ------------------------------------------------------------------
  // UTF-8 bytes and lossy decoding
  // ------------------------------------------------------------------

  /** The byte at position `index` of the encoding of `c`. Its value is not needed:
      a byte shows whether it starts a character, and how long that character is. */
  datatype Unit = Unit(c: char, index: nat)

  function CharUnits(c: char, from: nat): (u: seq<Unit>)
    requires from <= Utf8Len(c)
    ensures |u| == Utf8Len(c) - from
    ensures forall i :: 0 <= i < |u| ==> u[i] == Unit(c, from + i)
  {
    seq(Utf8Len(c) - from, i requires 0 <= i => Unit(c, from + i))
  }

  function Encode(s: string): (u: seq<Unit>)
    ensures |u| == ByteLen(s)
  {
    if s == [] then [] else CharUnits(s[0], 0) + Encode(s[1..])
  }

  /** `String::from_utf8_lossy` on a slice of encoded text: a stray continuation byte
      and a character cut short at the end each become one replacement character. */
  function LossyDecode(u: seq<Unit>): string {
    if u == [] then ""
    else if u[0].index != 0 then [REPLACEMENT] + LossyDecode(u[1..])
    else if |u| < Utf8Len(u[0].c) then [REPLACEMENT]
    else [u[0].c] + LossyDecode(u[Utf8Len(u[0].c)..])
  }

  function Replacements(n: nat): (s: string)
    ensures |s| == n
  {
    seq(n, _ => REPLACEMENT)
  }

  lemma {:induction false} DecodeEncoded(s: string, rest: seq<Unit>)
    ensures LossyDecode(Encode(s) + rest) == s + LossyDecode(rest)
  {
    if s == [] {
      assert Encode(s) + rest == rest;
    } else {
      var first, later := CharUnits(s[0], 0), Encode(s[1..]);
      Associative(first, later, rest);
      DropFirst(first, later + rest);
      assert (first + (later + rest))[0] == Unit(s[0], 0);
      DecodeEncoded(s[1..], rest);
      Associative([s[0]], s[1..], LossyDecode(rest));
      assert s == [s[0]] + s[1..];
    }
  }

  lemma {:induction false} DecodeTail(c: char, from: nat, rest: seq<Unit>)
    requires 0 < from <= Utf8Len(c)
    ensures LossyDecode(CharUnits(c, from) + rest)
         == Replacements(Utf8Len(c) - from) + LossyDecode(rest)
    decreases Utf8Len(c) - from
  {
    var u := CharUnits(c, from) + rest;
    if from == Utf8Len(c) {
      assert u == rest;
    } else {
      assert u[0] == Unit(c, from);
      assert u[1..] == CharUnits(c, from + 1) + rest;
      DecodeTail(c, from + 1, rest);
      assert Replacements(Utf8Len(c) - from) == [REPLACEMENT] + Replacements(Utf8Len(c) - from - 1);
    }
  }

  lemma DecodeHead(c: char, n: nat)
    requires 0 < n < Utf8Len(c)
    ensures LossyDecode(CharUnits(c, 0)[..n]) == [REPLACEMENT]
  {
    assert CharUnits(c, 0)[..n][0] == Unit(c, 0);
  }

  // ------------------------------------------------------------------
  // Cutting
  // ------------------------------------------------------------------

  /** `chunks(400)` */
  function Cut(u: seq<Unit>): seq<seq<Unit>>
    decreases |u|
  {
    if u == [] then []
    else if |u| <= CHUNK_SIZE then [u]
    else [u[..CHUNK_SIZE]] + Cut(u[CHUNK_SIZE..])
  }

  function DecodeAll(pieces: seq<seq<Unit>>): (r: seq<string>)
    ensures |r| == |pieces|
    ensures forall k :: 0 <= k < |r| ==> r[k] == LossyDecode(pieces[k])
  {
    seq(|pieces|, k requires 0 <= k < |pieces| => LossyDecode(pieces[k]))
  }

  /** The chunks that travel. */
  function Chunks(payload: string): seq<string> { DecodeAll(Cut(Encode(payload))) }

  function ChunkCount(bytes: nat): nat { (bytes + CHUNK_SIZE - 1) / CHUNK_SIZE }

  lemma {:induction false} CutCount(u: seq<Unit>)
    ensures |Cut(u)| == ChunkCount(|u|)
    decreases |u|
  {
    if |u| > CHUNK_SIZE {
      CutCount(u[CHUNK_SIZE..]);
    }
  }

  lemma {:induction false} CutPiece(u: seq<Unit>, k: nat)
    requires CHUNK_SIZE * k < |u|
    ensures k < |Cut(u)|
    ensures Cut(u)[k] == u[CHUNK_SIZE * k..if CHUNK_SIZE * (k + 1) < |u| then CHUNK_SIZE * (k + 1) else |u|]
    decreases k
  {
    if k > 0 {
      var rest := u[CHUNK_SIZE..];
      CutPiece(rest, k - 1);
      assert Cut(u) == [u[..CHUNK_SIZE]] + Cut(rest);
      var end := if CHUNK_SIZE * k < |rest| then CHUNK_SIZE * k else |rest|;
      SliceOfTail(u, CHUNK_SIZE, CHUNK_SIZE * (k - 1), end);
    }
  }

  lemma SliceOfTail<T>(u: seq<T>, n: nat, a: nat, b: nat)
    requires n <= |u| && a <= b <= |u| - n
    ensures u[n..][a..b] == u[n + a..n + b]
  {
  }

  /** No cut falls inside a character. */
  predicate Aligned(u: seq<Unit>) {
    forall i :: 0 < i < |u| && i % CHUNK_SIZE == 0 ==> u[i].index == 0
  }

  lemma AlignedStep(u: seq<Unit>)
    requires |u| > CHUNK_SIZE
    ensures Aligned(u) <==> u[CHUNK_SIZE].index == 0 && Aligned(u[CHUNK_SIZE..])
  {
    var rest := u[CHUNK_SIZE..];
    assert forall i | CHUNK_SIZE <= i < |u| :: u[i] == rest[i - CHUNK_SIZE];
    assert forall i | 0 <= i < |rest| :: rest[i] == u[i + CHUNK_SIZE];
  }

  lemma {:induction false} EncodeConcat(a: string, b: string)
    ensures Encode(a + b) == Encode(a) + Encode(b)
  {
    if a == [] {
      assert a + b == b;
    } else {
      EncodeConcat(a[1..], b);
      assert (a + b)[1..] == a[1..] + b;
      Associative(CharUnits(a[0], 0), Encode(a[1..]), Encode(b));
    }
  }

  lemma EncodeAround(before: string, c: char, after: string)
    ensures Encode(before + [c] + after) == Encode(before) + CharUnits(c, 0) + Encode(after)
  {
    EncodeConcat(before, [c]);
    EncodeConcat(before + [c], after);
    assert Encode([c]) == CharUnits(c, 0) + Encode([]);
  }

  lemma CutMiddle<T>(a: seq<T>, b: seq<T>, c: seq<T>, j: nat)
    requires j <= |b|
    ensures (a + b + c)[..|a| + j] == a + b[..j]
    ensures (a + b + c)[|a| + j..] == b[j..] + c
  {}

  /** Where a cut after `k` bytes falls: `into` bytes into character `i`. */
  lemma {:induction false} Locate(s: string, k: nat) returns (i: nat, into: nat)
    requires k < ByteLen(s)
    ensures i < |s| && into < Utf8Len(s[i]) && k == ByteLen(s[..i]) + into
  {
    if k < Utf8Len(s[0]) {
      i, into := 0, k;
    } else {
      i, into := Locate(s[1..], k - Utf8Len(s[0]));
      assert s[..i + 1][1..] == s[1..][..i];
      i := i + 1;
    }
  }

  lemma CutAround(s: string, i: nat, into: nat)
    requires i < |s| && into < Utf8Len(s[i])
    ensures var k := ByteLen(s[..i]) + into;
      && k < |Encode(s)|
      && Encode(s)[..k] == Encode(s[..i]) + CharUnits(s[i], 0)[..into]
      && Encode(s)[k..] == CharUnits(s[i], into) + Encode(s[i + 1..])
  {
    assert s == s[..i] + [s[i]] + s[i + 1..];
    EncodeAround(s[..i], s[i], s[i + 1..]);
    CutMiddle(Encode(s[..i]), CharUnits(s[i], 0), Encode(s[i + 1..]), into);
    assert CharUnits(s[i], 0)[into..] == CharUnits(s[i], into);
  }

  lemma ConcatSplit(first: seq<Unit>, rest: seq<seq<Unit>>)
    ensures Concat(DecodeAll([first] + rest)) == LossyDecode(first) + Concat(DecodeAll(rest))
  {
    assert DecodeAll([first] + rest)[1..] == DecodeAll(rest);
  }

  /** What the receiver makes of `u`: exactly `text` when no cut falls inside a
      character, and something longer otherwise. */
  predicate ReassemblesTo(u: seq<Unit>, text: string) {
    var r := Concat(DecodeAll(Cut(u)));
    if Aligned(u) then r == text else |r| > |text|
  }

  /** One piece cut off: `into` bytes of the character at the cut went with it. */
  lemma CutStep(u: seq<Unit>, first: string, rest: string, into: nat)
    requires |u| > CHUNK_SIZE && u[CHUNK_SIZE].index == into
    requires LossyDecode(u[..CHUNK_SIZE]) == first + (if into > 0 then [REPLACEMENT] else [])
    requires ReassemblesTo(u[CHUNK_SIZE..], rest)
    requires into > 0 ==> |rest| > 0
    ensures into == 0 ==> ReassemblesTo(u, first + rest)
    ensures into > 0 ==> !Aligned(u) && |Concat(DecodeAll(Cut(u)))| >= |first| + 1 + |rest|
  {
    AlignedStep(u);
    ConcatSplit(u[..CHUNK_SIZE], Cut(u[CHUNK_SIZE..]));
  }

  /** Encoded text whose first character lost its first `from` bytes. */
  function Tail(c: char, from: nat, s: string): seq<Unit>
    requires from <= Utf8Len(c)
  {
    CharUnits(c, from) + Encode(s)
  }

  /** The first cut of such a text: what the piece decodes to and what remains. */
  lemma FirstCut(c: char, from: nat, s: string) returns (i: nat, into: nat)
    requires 0 < from <= Utf8Len(c) && |Tail(c, from, s)| > CHUNK_SIZE
    ensures i < |s| && into < Utf8Len(s[i]) && (into == 0 ==> i > 0)
    ensures LossyDecode(Tail(c, from, s)[..CHUNK_SIZE])
         == Replacements(Utf8Len(c) - from) + s[..i] + (if into > 0 then [REPLACEMENT] else [])
    ensures Tail(c, from, s)[CHUNK_SIZE..] == Tail(s[i], into, s[i + 1..])
    ensures Tail(c, from, s)[CHUNK_SIZE].index == into
  {
    var u, gone := Tail(c, from, s), Utf8Len(c) - from;
    var k := CHUNK_SIZE - gone;
    i, into := Locate(s, k);
    CutAround(s, i, into);
    FirstPiece(c, from, s[..i], s[i], into);
    assert u[..CHUNK_SIZE] == CharUnits(c, from) + Encode(s)[..k];
    assert u[CHUNK_SIZE..] == Encode(s)[k..];
    assert u[CHUNK_SIZE] == u[CHUNK_SIZE..][0];
  }

  lemma CutInside(u: seq<Unit>, lost: string, s: string, i: nat, into: nat)
    requires |u| > CHUNK_SIZE && u[CHUNK_SIZE].index == into
    requires i < |s| && 0 < into < Utf8Len(s[i])
    requires LossyDecode(u[..CHUNK_SIZE]) == lost + s[..i] + [REPLACEMENT]
    requires ReassemblesTo(u[CHUNK_SIZE..], Replacements(Utf8Len(s[i]) - into) + s[i + 1..])
    ensures ReassemblesTo(u, lost + s)
  {
    CutStep(u, lost + s[..i], Replacements(Utf8Len(s[i]) - into) + s[i + 1..], into);
  }

  lemma CutBetween(u: seq<Unit>, lost: string, s: string, i: nat)
    requires |u| > CHUNK_SIZE && u[CHUNK_SIZE].index == 0 && i < |s|
    requires LossyDecode(u[..CHUNK_SIZE]) == lost + s[..i]
    requires ReassemblesTo(u[CHUNK_SIZE..], s[i..])
    ensures ReassemblesTo(u, lost + s)
  {
    CutStep(u, lost + s[..i], s[i..], 0);
    assert s == s[..i] + s[i..];
    assert lost + s == lost + s[..i] + s[i..];
  }

  /** Reassembly of what remains after a cut: the first `from` bytes of `c` are gone. */
  lemma {:induction false} Reassembled(c: char, from: nat, s: string)
    requires 0 < from <= Utf8Len(c)
    ensures ReassemblesTo(Tail(c, from, s), Replacements(Utf8Len(c) - from) + s)
    decreases |s|
  {
    var u := Tail(c, from, s);
    if |u| <= CHUNK_SIZE {
      WholePiece(c, from, s);
    } else {
      var i, into := FirstCut(c, from, s);
      if into > 0 {
        Reassembled(s[i], into, s[i + 1..]);
        CutInside(u, Replacements(Utf8Len(c) - from), s, i, into);
      } else {
        RestartsWhole(c, s, i);
        Reassembled(c, Utf8Len(c), s[i..]);
        CutBetween(u, Replacements(Utf8Len(c) - from), s, i);
      }
    }
  }

  lemma RestartsWhole(c: char, s: string, i: nat)
    requires i < |s|
    ensures Tail(s[i], 0, s[i + 1..]) == Tail(c, Utf8Len(c), s[i..])
    ensures Replacements(Utf8Len(c) - Utf8Len(c)) + s[i..] == s[i..]
  {
    assert s[i..][1..] == s[i + 1..];
  }

  lemma WholePiece(c: char, from: nat, s: string)
    requires 0 < from <= Utf8Len(c) && |Tail(c, from, s)| <= CHUNK_SIZE
    ensures ReassemblesTo(Tail(c, from, s), Replacements(Utf8Len(c) - from) + s)
  {
    DecodeTail(c, from, Encode(s));
    DecodeEncoded(s, []);
    assert Encode(s) + [] == Encode(s);
    assert s + [] == s;
    SinglePiece(Tail(c, from, s));
  }

  lemma SinglePiece(u: seq<Unit>)
    requires |u| <= CHUNK_SIZE
    ensures ReassemblesTo(u, LossyDecode(u))
  {
    assert Aligned(u) by {
      assert forall i | 0 < i < |u| :: i % CHUNK_SIZE == i;
    }
    if u != [] {
      assert Cut(u) == [u];
      ConcatOne(u);
    }
  }

  lemma ConcatOne(u: seq<Unit>)
    ensures Concat(DecodeAll([u])) == LossyDecode(u)
  {
    assert DecodeAll([u])[1..] == [];
  }

  lemma FirstPiece(c: char, from: nat, whole: string, cut: char, into: nat)
    requires 0 < from <= Utf8Len(c) && into < Utf8Len(cut)
    ensures LossyDecode(CharUnits(c, from) + (Encode(whole) + CharUnits(cut, 0)[..into]))
         == Replacements(Utf8Len(c) - from) + whole + (if into > 0 then [REPLACEMENT] else [])
  {
    var head := CharUnits(cut, 0)[..into];
    DecodeTail(c, from, Encode(whole) + head);
    DecodeEncoded(whole, head);
    if into > 0 {
      DecodeHead(cut, into);
    }
  }

  /** The receiver's reassembly gives the payload back exactly when no cut falls inside
      a character. */
  lemma ReassembledIffAligned(payload: string)
    ensures Concat(Chunks(payload)) == payload <==> Aligned(Encode(payload))
  {
    var c: char := 'x';
    assert CharUnits(c, 1) + Encode(payload) == Encode(payload);
    Reassembled(c, 1, payload);
    assert Replacements(0) + payload == payload;
  }

  lemma {:induction false} AsciiUnits(s: string)
    requires IsAscii(s)
    ensures forall i :: 0 <= i < |Encode(s)| ==> Encode(s)[i].index == 0
  {
    if s != [] {
      AsciiUnits(s[1..]);
    }
  }

  /** In particular every ASCII payload survives. */
  lemma AsciiSurvives(payload: string)
    requires IsAscii(payload)
    ensures Concat(Chunks(payload)) == payload
  {
    AsciiUnits(payload);
    ReassembledIffAligned(payload);
  }

  // ------------------------------------------------------------------
  // Sending
  // ------------------------------------------------------------------

  /** The message the sender's fragments make up. */
  function SentSignal(sender: string, id: string, payload: string): Signal {
    Signal(sender, id, Chunks(payload))
  }

  function CommandLine(target: string, text: string): string { "PRIVMSG " + target + " :" + text }

  lemma SentPiece(sender: string, id: string, payload: string, k: nat)
    requires ValidId(id) && ByteLen(payload) < U64_LIMIT && CHUNK_SIZE * k < |Encode(payload)|
    ensures var u, s := Encode(payload), SentSignal(sender, id, payload);
      var end := if CHUNK_SIZE * k + CHUNK_SIZE < |u| then CHUNK_SIZE * k + CHUNK_SIZE else |u|;
      && s.Valid() && k < |s.chunks|
      && s.Piece(k) == Fragment(k + 1, ChunkCount(|u|), id, LossyDecode(u[CHUNK_SIZE * k..end]))
  {
    CutCount(Encode(payload));
    CutPiece(Encode(payload), k);
  }

  lemma CountReached(n: nat, k: nat)
    ensures CHUNK_SIZE * k >= n && k <= ChunkCount(n) ==> k == ChunkCount(n)
  {
  }

  /** The first lines of a message. */
  predicate FirstLines(lines: seq<string>, target: string, s: Signal) {
    && s.Valid() && |lines| <= |s.chunks|
    && forall k :: 0 <= k < |lines| ==> lines[k] == CommandLine(target, Print(s.Piece(k)))
  }

  lemma NextLine(lines: seq<string>, target: string, s: Signal)
    requires FirstLines(lines, target, s) && |lines| < |s.chunks|
    ensures FirstLines(lines + [CommandLine(target, Print(s.Piece(|lines|)))], target, s)
  {
  }

  /** `send_webrtc_signal`: one line per chunk, numbered from one, all announcing the
      count computed from the payload's length. */
  method SendWebrtcSignal(sender: string, target: string, id: string, payload: string) returns (lines: seq<string>)
    requires ValidId(id) && ByteLen(payload) < U64_LIMIT
    ensures var s := SentSignal(sender, id, payload);
      && FirstLines(lines, target, s) && |lines| == |s.chunks| == ChunkCount(ByteLen(payload))
  {
    ghost var s := SentSignal(sender, id, payload);
    var bytes := Encode(payload);
    var total := (|bytes| + CHUNK_SIZE - 1) / CHUNK_SIZE;
    CutCount(bytes);
    lines := [];
    var start := 0;
    while start < |bytes|
      invariant start == CHUNK_SIZE * |lines|
      invariant FirstLines(lines, target, s)
    {
      var end := if start + CHUNK_SIZE < |bytes| then start + CHUNK_SIZE else |bytes|;
      SentPiece(sender, id, payload, |lines|);
      var fragment := Fragment(|lines| + 1, total, id, LossyDecode(bytes[start..end]));
      assert fragment == s.Piece(|lines|);
      NextLine(lines, target, s);
      lines := lines + [CommandLine(target, Print(fragment))];
      start := start + CHUNK_SIZE;
    }
    CountReached(|bytes|, |lines|);
  }

  /** End to end: for payloads without a cut character, every emission is some sent
      payload, from the sender who sent it. */
  lemma EmittedPayloadWasSent(sent: set<Signal>, payloads: map<Signal, string>, events: seq<Event>, n: nat)
    requires Network(sent, events) && n < |events| && EmittedAt(events, n).Some?
    requires forall s :: s in sent ==> s in payloads && s.chunks == Chunks(payloads[s])
    requires forall s :: s in sent ==> Aligned(Encode(payloads[s]))
    ensures events[n].Arrive? && events[n].signal in sent
    ensures EmittedAt(events, n) == Some(Emission(events[n].signal.sender, payloads[events[n].signal]))
  {
    EmitsOnlySentMessages(sent, events, n);
    ReassembledIffAligned(payloads[events[n].signal]);
  }

  /** An empty payload has no fragments, so it is never emitted: the one message the
      receiver cannot get. */
  lemma OnlyEmptyPayloadsHaveNoFragment(payload: string)
    ensures Chunks(payload) == [] <==> payload == ""
  {
    CutCount(Encode(payload));
  }
}
