/** A signalling message on its whole way: the sender's lines, the server's line handling
    and relaying, and the receiver, in any order of arrival. */
module Delivery {
  import opened Text
  import opened Fragments
  import opened FragmentSender
  import opened LineHandling

  // ------------------------------------------------------------------
  // What the server makes of one fragment
  // ------------------------------------------------------------------

  lemma TrimBehindSolid(lead: string, tail: string, space: string)
    requires lead != "" && !IsWhitespace(lead[0]) && !IsWhitespace(lead[|lead| - 1])
    requires forall i :: 0 <= i < |space| ==> IsWhitespace(space[i])
    ensures Trim(lead + tail + space) == lead + TrimEnd(tail)
  {
    var s, t := lead + tail + space, TrimEnd(tail);
    assert s[0] == lead[0];
    assert tail[..|t|] == t;
    assert lead + t <= s by { assert s[..|lead| + |t|] == lead + t; }
    assert (lead + t)[|lead + t| - 1] == if t == "" then lead[|lead| - 1] else t[|t| - 1];
    forall i | |lead + t| <= i < |s| ensures IsWhitespace(s[i]) {
      if i < |lead + tail| {
        assert s[i] == tail[i - |lead|];
      } else {
        assert s[i] == space[i - |lead + tail|];
      }
    }
    TrimEndIs(s, lead + t);
  }

  /** A fragment as it comes out of the server: its chunk has lost the white space at its end. */
  function Trimmed(f: Fragment): Fragment { f.(chunk := TrimEnd(f.chunk)) }

  predicate Fits(target: string, f: Fragment) {
    ByteLen(target) + |Decimal(f.number)| + |Decimal(f.total)| + ByteLen(f.chunk) <= 483
  }

  /** The text relayed for a fragment that fits. */
  function Relays(target: string, f: Fragment): string { TextOf(Trim(Wire(target, f))) }

  lemma TrimmedWire(target: string, f: Fragment)
    requires Printable(f) && IsWord(target)
    ensures Trim(Wire(target, f)) == Lead("PRIVMSG", target, Print(Trimmed(f)))
  {
    WireShape(target, f);
    PrintParts(f);
    PrintParts(Trimmed(f));
    var lead := Lead("PRIVMSG", target, Header(f));
    assert lead[|lead| - 1] == Header(f)[|Header(f)| - 1];
    TrimBehindSolid(lead, f.chunk, CRLF);
    SameHeader(f);
    Associative("PRIVMSG" + " " + target + " :", Header(f), TrimEnd(f.chunk));
  }

  lemma SameHeader(f: Fragment)
    requires Printable(f)
    ensures Print(Trimmed(f)) == Header(f) + TrimEnd(f.chunk)
  {
    var header := PREFIX + "[" + (PrintCounts(f.number, f.total) + "|" + f.id) + "]";
    assert Print(f) == header + f.chunk;
    assert Header(f) == header;
  }

  /** With no line feed in the chunk, the first line the server reads is the fragment's,
      and it relays its text exactly when it fits. */
  lemma PieceRelayed(target: string, f: Fragment, rest: string)
    requires Printable(f) && IsWord(target) && '\n' !in f.chunk
    ensures ReadLine(Wire(target, f) + rest) == (Wire(target, f), rest)
    ensures FirstRelayed(Wire(target, f) + rest) ==
      if Fits(target, f) then Some((target, Relays(target, f))) else None
  {
    WireIsOneLine(target, f, rest);
    FragmentAcceptedIffFits(target, f);
    TrimmedIsCommand(target, f);
  }

  lemma TrimmedIsCommand(target: string, f: Fragment)
    requires Printable(f) && IsWord(target)
    ensures PrivmsgOf(Trim(Wire(target, f))) == Some((target, Relays(target, f)))
  {
    TrimmedWire(target, f);
    CommandTaken(target, Print(Trimmed(f)), Trim(Wire(target, f)));
  }

  lemma CommandTaken(target: string, text: string, cmd: string)
    requires IsWord(target) && cmd == Lead("PRIVMSG", target, text)
    ensures PrivmsgOf(cmd) == Some((target, TextOf(cmd)))
  {
    assert cmd + "" == cmd;
    LeadWords("PRIVMSG", target, text, cmd, "");
  }

  /** The text relayed is the trimmed fragment's, unless the target has a colon. */
  lemma PlainTargetText(target: string, f: Fragment)
    requires Printable(f) && IsWord(target) && ':' !in target
    ensures Relays(target, f) == Print(Trimmed(f))
  {
    TrimmedWire(target, f);
    TextOfLine("PRIVMSG", target, Print(Trimmed(f)));
  }

  // ------------------------------------------------------------------
  // What the server makes of everything a client sends
  // ------------------------------------------------------------------

  /** What the client's writer puts on the wire for its lines. */
  function OnWire(lines: seq<string>): string {
    if lines == [] then "" else lines[0] + CRLF + OnWire(lines[1..])
  }

  lemma LineRead(stream: string)
    requires stream != ""
    ensures var (line, rest) := ReadLine(stream);
      line != "" && '\n' !in line[..|line| - 1] && |rest| < |stream|
  {
  }

  /** The targets and texts of all private messages the server relays for a client: one
      line after another, until there is nothing more to read. */
  function Relayed(stream: string): seq<(string, string)>
    decreases |stream|
  {
    if stream == "" then []
    else
      LineRead(stream);
      Opt(FirstRelayed(stream)) + Relayed(ReadLine(stream).1)
  }

  function Opt<T>(x: Option<T>): seq<T> { if x.Some? then [x.value] else [] }

  /** The texts relayed to one target. */
  function TextsFor(relayed: seq<(string, string)>, target: string): (r: seq<string>)
    ensures forall x :: x in r <==> (target, x) in relayed
  {
    if relayed == [] then []
    else (if relayed[0].0 == target then [relayed[0].1] else []) + TextsFor(relayed[1..], target)
  }

  predicate NoFeeds(texts: seq<string>) { forall x :: x in texts ==> '\n' !in x }

  /** Whatever a client sends, no text relayed has a line feed. */
  lemma {:induction false} RelayedHaveNoFeed(stream: string, target: string)
    ensures NoFeeds(TextsFor(Relayed(stream), target))
    decreases |stream|
  {
    if stream != "" {
      LineRead(stream);
      RelayedHaveNoFeed(ReadLine(stream).1, target);
      FirstHasNoFeed(stream);
      FirstText(stream, target);
    }
  }

  lemma FirstHasNoFeed(stream: string)
    requires stream != ""
    ensures FirstRelayed(stream).Some? ==> '\n' !in FirstRelayed(stream).value.1
  {
    LineRead(stream);
    TrimmedLineHasNoFeed(ReadLine(stream).0);
  }

  /** The texts relayed for the fragments from the k-th on. */
  function TextsOf(target: string, s: Signal, k: nat): seq<string>
    requires s.Valid() && k <= |s.chunks|
    decreases |s.chunks| - k
  {
    if k == |s.chunks| then []
    else
      var rest := TextsOf(target, s, k + 1);
      if Fits(target, s.Piece(k)) then [Relays(target, s.Piece(k))] + rest else rest
  }

  predicate NoFeedIn(s: Signal) { forall k :: 0 <= k < |s.chunks| ==> '\n' !in s.chunks[k] }

  /** Without a line feed in a chunk, those are all texts relayed for a message's lines. */
  lemma {:induction false} MessageRelayed(target: string, s: Signal, lines: seq<string>, k: nat)
    requires FirstLines(lines, target, s) && |lines| == |s.chunks| && k <= |lines|
    requires IsWord(target) && NoFeedIn(s)
    ensures TextsFor(Relayed(OnWire(lines[k..])), target) == TextsOf(target, s, k)
    decreases |lines| - k
  {
    if k == |lines| {
      assert lines[k..] == [];
    } else {
      var f, rest := s.Piece(k), OnWire(lines[k + 1..]);
      assert lines[k..][1..] == lines[k + 1..];
      assert OnWire(lines[k..]) == Wire(target, f) + rest;
      PieceRelayed(target, f, rest);
      MessageRelayed(target, s, lines, k + 1);
      FirstText(OnWire(lines[k..]), target);
    }
  }

  lemma FirstText(stream: string, target: string)
    requires stream != ""
    ensures TextsFor(Relayed(stream), target) ==
      TextsFor(Opt(FirstRelayed(stream)), target) + TextsFor(Relayed(ReadLine(stream).1), target)
  {
    var first, rest := Opt(FirstRelayed(stream)), Relayed(ReadLine(stream).1);
    LineRead(stream);
    if first != [] {
      assert (first + rest)[1..] == rest;
      assert first[1..] == [];
    } else {
      assert first + rest == rest;
    }
  }

  // ------------------------------------------------------------------
  // What the receiver makes of the texts
  // ------------------------------------------------------------------

  /** `handle_fragment` for any text. */
  function TakeText(buffers: Buffers, sender: string, text: string): (Buffers, Option<Emission>) {
    match Parse(text)
    case None => (buffers, None)
    case Some(f) => Receive(buffers, sender, f)
  }

  /** The receiver's buffers and everything emitted after texts from one sender. */
  function Heard(sender: string, texts: seq<string>): (Buffers, seq<Emission>) {
    if texts == [] then (map[], [])
    else
      var (buffers, emitted) := Heard(sender, texts[..|texts| - 1]);
      var (buffers', emission) := TakeText(buffers, sender, texts[|texts| - 1]);
      (buffers', emitted + Emitted(emission))
  }

  method TakeLine(receiver: Receiver, sender: string, text: string)
    modifies receiver
    ensures receiver.fragments == TakeText(old(receiver.fragments), sender, text).0
    ensures receiver.emitted == old(receiver.emitted) + Emitted(TakeText(old(receiver.fragments), sender, text).1)
  {
    receiver.HandleFragment(sender, text);
    assert old(receiver.emitted) + [] == old(receiver.emitted);
  }

  lemma HeardPush(sender: string, texts: seq<string>, n: nat)
    requires n < |texts|
    ensures var (buffers, emitted) := Heard(sender, texts[..n]);
      var (buffers', emission) := TakeText(buffers, sender, texts[n]);
      Heard(sender, texts[..n + 1]) == (buffers', emitted + Emitted(emission))
  {
    assert texts[..n + 1][..n] == texts[..n];
  }

  method Listen(sender: string, texts: seq<string>) returns (receiver: Receiver)
    ensures fresh(receiver) && (receiver.fragments, receiver.emitted) == Heard(sender, texts)
  {
    receiver := new Receiver();
    for i := 0 to |texts|
      invariant fresh(receiver) && (receiver.fragments, receiver.emitted) == Heard(sender, texts[..i])
    {
      HeardPush(sender, texts, i);
      TakeLine(receiver, sender, texts[i]);
    }
    assert texts[..|texts|] == texts;
  }

  // ------------------------------------------------------------------
  // Line feeds
  // ------------------------------------------------------------------

  predicate NoFeedBuffers(buffers: Buffers) {
    forall key, i :: key in buffers && i in buffers[key].parts ==> '\n' !in buffers[key].parts[i]
  }

  lemma {:induction false} AssembledHasNoFeed(parts: map<nat, string>, from: nat, total: nat)
    requires forall i :: i in parts ==> '\n' !in parts[i]
    ensures '\n' !in Assemble(parts, from, total)
    decreases total + 1 - from
  {
    if from <= total {
      AssembledHasNoFeed(parts, from + 1, total);
    }
  }

  lemma ChunkOfText(text: string)
    ensures Parse(text).Some? && '\n' in Parse(text).value.chunk ==> '\n' in text
  {
    if Parse(text).Some? {
      var content := StripPrefix(text, PREFIX);
      assert Parse(text).value.chunk == Unbracket(text).value.1;
      assert content.Some?;
    }
  }

  /** What is put together from texts without a line feed has none. */
  lemma {:induction false} HeardHasNoFeed(sender: string, texts: seq<string>)
    requires NoFeeds(texts)
    ensures NoFeedBuffers(Heard(sender, texts).0)
    ensures forall e :: e in Heard(sender, texts).1 ==> '\n' !in e.payload
  {
    if texts != [] {
      var before, text := texts[..|texts| - 1], texts[|texts| - 1];
      HeardHasNoFeed(sender, before);
      assert text in texts;
      TakenHasNoFeed(Heard(sender, before).0, sender, text);
    }
  }

  lemma TakenHasNoFeed(buffers: Buffers, sender: string, text: string)
    requires NoFeedBuffers(buffers) && '\n' !in text
    ensures NoFeedBuffers(TakeText(buffers, sender, text).0)
    ensures var e := TakeText(buffers, sender, text).1; e.Some? ==> '\n' !in e.value.payload
  {
    ChunkOfText(text);
    if Parse(text).Some? {
      ReceivedHasNoFeed(buffers, sender, Parse(text).value);
    }
  }

  lemma ReceivedHasNoFeed(buffers: Buffers, sender: string, f: Fragment)
    requires NoFeedBuffers(buffers) && '\n' !in f.chunk
    ensures NoFeedBuffers(Receive(buffers, sender, f).0)
    ensures var e := Receive(buffers, sender, f).1; e.Some? ==> '\n' !in e.value.payload
  {
    var b := Grow(buffers, BufferKey(sender, f.id), f);
    AssembledHasNoFeed(b.parts, 1, b.total);
  }

  /** Every character of a decoded piece is one of those the piece came from, or a
      replacement. */
  lemma {:induction false} DecodedFrom(u: seq<Unit>, c: char)
    requires c in LossyDecode(u) && c != FragmentSender.REPLACEMENT
    ensures exists i :: 0 <= i < |u| && u[i].c == c
    decreases |u|
  {
    if u[0].index != 0 {
      DecodedFrom(u[1..], c);
      var i :| 0 <= i < |u[1..]| && u[1..][i].c == c;
      assert u[i + 1].c == c;
    } else if |u| >= Utf8Len(u[0].c) && u[0].c != c {
      var n := Utf8Len(u[0].c);
      DecodedFrom(u[n..], c);
      var i :| 0 <= i < |u[n..]| && u[n..][i].c == c;
      assert u[n + i].c == c;
    }
  }

  lemma {:induction false} EncodedFrom(s: string, i: nat)
    requires i < |Encode(s)|
    ensures Encode(s)[i].c in s
  {
    if i >= Utf8Len(s[0]) {
      EncodedFrom(s[1..], i - Utf8Len(s[0]));
    }
  }

  lemma {:induction false} CutFrom(u: seq<Unit>, k: nat, i: nat)
    requires k < |Cut(u)| && i < |Cut(u)[k]|
    ensures Cut(u)[k][i] in u
    decreases |u|
  {
    if |u| > CHUNK_SIZE && k > 0 {
      CutFrom(u[CHUNK_SIZE..], k - 1, i);
    }
  }

  /** A chunk has no character its payload does not have, replacements apart. */
  lemma ChunkFrom(payload: string, k: nat, c: char)
    requires k < |Chunks(payload)| && c in Chunks(payload)[k] && c != FragmentSender.REPLACEMENT
    ensures c in payload
  {
    var u := Encode(payload);
    DecodedFrom(Cut(u)[k], c);
    var i :| 0 <= i < |Cut(u)[k]| && Cut(u)[k][i].c == c;
    CutFrom(u, k, i);
    var j :| 0 <= j < |u| && u[j] == Cut(u)[k][i];
    EncodedFrom(payload, j);
  }

  // ------------------------------------------------------------------
  // White space lost on the way
  // ------------------------------------------------------------------

  function Spaces(s: string): nat {
    if s == "" then 0 else (if IsWhitespace(s[0]) then 1 else 0) + Spaces(s[1..])
  }

  lemma {:induction false} SpacesConcat(a: string, b: string)
    ensures Spaces(a + b) == Spaces(a) + Spaces(b)
  {
    if a == "" {
      assert a + b == b;
    } else {
      assert (a + b)[1..] == a[1..] + b;
      SpacesConcat(a[1..], b);
    }
  }

  /** White-space characters that start among the bytes. */
  function Starts(u: seq<Unit>): nat {
    if u == [] then 0 else (if u[0].index == 0 && IsWhitespace(u[0].c) then 1 else 0) + Starts(u[1..])
  }

  lemma {:induction false} StartsConcat(a: seq<Unit>, b: seq<Unit>)
    ensures Starts(a + b) == Starts(a) + Starts(b)
  {
    if a == [] {
      assert a + b == b;
    } else {
      assert (a + b)[1..] == a[1..] + b;
      StartsConcat(a[1..], b);
    }
  }

  lemma {:induction false} NoStarts(u: seq<Unit>)
    requires forall i :: 0 <= i < |u| ==> u[i].index != 0
    ensures Starts(u) == 0
  {
    if u != [] {
      NoStarts(u[1..]);
    }
  }

  lemma {:induction false} EncodedSpaces(s: string)
    ensures Starts(Encode(s)) == Spaces(s)
  {
    if s != "" {
      var first := CharUnits(s[0], 0);
      EncodedSpaces(s[1..]);
      StartsConcat(first, Encode(s[1..]));
      NoStarts(first[1..]);
      assert first[0] == Unit(s[0], 0);
    }
  }

  /** Decoding brings in no white space. */
  lemma {:induction false} DecodedSpaces(u: seq<Unit>)
    ensures Spaces(LossyDecode(u)) <= Starts(u)
    decreases |u|
  {
    if u == [] {
    } else if u[0].index != 0 {
      DecodedSpaces(u[1..]);
      SpacesConcat([FragmentSender.REPLACEMENT], LossyDecode(u[1..]));
    } else if |u| >= Utf8Len(u[0].c) {
      var n := Utf8Len(u[0].c);
      DecodedSpaces(u[n..]);
      SpacesConcat([u[0].c], LossyDecode(u[n..]));
      StartsConcat(u[..n], u[n..]);
      assert u == u[..n] + u[n..];
      assert u[..n][0] == u[0];
    }
  }

  lemma {:induction false} CutSpaces(u: seq<Unit>)
    ensures Spaces(Concat(DecodeAll(Cut(u)))) <= Starts(u)
    decreases |u|
  {
    if u == [] {
      assert DecodeAll(Cut(u)) == [];
    } else if |u| <= CHUNK_SIZE {
      ConcatOne(u);
      DecodedSpaces(u);
    } else {
      var first, rest := u[..CHUNK_SIZE], u[CHUNK_SIZE..];
      ConcatSplit(first, Cut(rest));
      CutSpaces(rest);
      DecodedSpaces(first);
      SpacesConcat(LossyDecode(first), Concat(DecodeAll(Cut(rest))));
      StartsConcat(first, rest);
      assert u == first + rest;
    }
  }

  function TrimAll(chunks: seq<string>): (r: seq<string>)
    ensures |r| == |chunks| && forall k :: 0 <= k < |r| ==> r[k] == TrimEnd(chunks[k])
  {
    seq(|chunks|, k requires 0 <= k < |chunks| => TrimEnd(chunks[k]))
  }

  predicate NoneEndsInWhitespace(chunks: seq<string>) {
    forall k :: 0 <= k < |chunks| ==> !EndsInWhitespace(chunks[k])
  }

  lemma TrimSpaces(s: string)
    ensures Spaces(TrimEnd(s)) <= Spaces(s)
    ensures EndsInWhitespace(s) ==> Spaces(TrimEnd(s)) < Spaces(s)
    ensures !EndsInWhitespace(s) ==> TrimEnd(s) == s
  {
    var t := TrimEnd(s);
    assert s == t + s[|t|..];
    SpacesConcat(t, s[|t|..]);
    if EndsInWhitespace(s) {
      assert s[|t|..][0] == s[|t|];
    }
  }

  lemma {:induction false} TrimmedSpaces(chunks: seq<string>)
    ensures Spaces(Concat(TrimAll(chunks))) <= Spaces(Concat(chunks))
    ensures Spaces(Concat(TrimAll(chunks))) == Spaces(Concat(chunks)) ==> NoneEndsInWhitespace(chunks)
  {
    if chunks != [] {
      var rest := chunks[1..];
      TrimmedSpaces(rest);
      TrimSpaces(chunks[0]);
      assert TrimAll(chunks)[1..] == TrimAll(rest);
      SpacesConcat(chunks[0], Concat(rest));
      SpacesConcat(TrimEnd(chunks[0]), Concat(TrimAll(rest)));
      forall k | 0 <= k < |chunks| && NoneEndsInWhitespace(rest) && !EndsInWhitespace(chunks[0])
        ensures !EndsInWhitespace(chunks[k])
      {
        assert k > 0 ==> chunks[k] == rest[k - 1];
      }
    }
  }

  lemma NothingTrimmed(chunks: seq<string>)
    requires NoneEndsInWhitespace(chunks)
    ensures TrimAll(chunks) == chunks
  {
    forall k | 0 <= k < |chunks| ensures TrimAll(chunks)[k] == chunks[k] {
      TrimSpaces(chunks[k]);
    }
  }

  /** Trimmed chunks make up the payload exactly when no cut falls inside a character and
      none of them ends in white space. */
  lemma TrimmedWholeIff(payload: string)
    ensures Concat(TrimAll(Chunks(payload))) == payload <==>
      Aligned(Encode(payload)) && NoneEndsInWhitespace(Chunks(payload))
  {
    var chunks := Chunks(payload);
    ReassembledIffAligned(payload);
    if NoneEndsInWhitespace(chunks) {
      NothingTrimmed(chunks);
    } else if Concat(TrimAll(chunks)) == payload {
      TrimmedSpaces(chunks);
      CutSpaces(Encode(payload));
      EncodedSpaces(payload);
    }
  }

  // ------------------------------------------------------------------
  // Targets with a colon
  // ------------------------------------------------------------------

  /** What follows the first colon of the target begins like a fragment. */
  predicate Disguised(target: string) { ':' in target && PREFIX + "[" <= TextOf(target) }

  lemma ColonTargetText(target: string, f: Fragment)
    requires Printable(f) && IsWord(target) && ':' in target
    ensures Relays(target, f) == TextOf(target) + " :" + Print(Trimmed(f))
  {
    TrimmedWire(target, f);
    TextBehindColon("PRIVMSG", target, Print(Trimmed(f)));
  }

  lemma TextBehindColon(verb: string, target: string, text: string)
    requires ':' !in verb && ':' in target
    ensures TextOf(Lead(verb, target, text)) == TextOf(target) + " :" + text
  {
    var i := Find(target, ':').value;
    var before, rest := verb + " " + target[..i], TextOf(target) + " :" + text;
    assert target == target[..i] + [':'] + TextOf(target);
    LeadRearranged(verb, target[..i], TextOf(target), text);
    AfterColon(before, rest);
  }

  lemma LeadRearranged(verb: string, before: string, after: string, text: string)
    ensures Lead(verb, before + [':'] + after, text) == verb + " " + before + [':'] + (after + " :" + text)
  {
  }

  lemma AfterColon(before: string, rest: string)
    requires ':' !in before
    ensures TextOf(before + [':'] + rest) == rest
  {
    FindAfter(before, ':', rest);
  }

  /** Then, unless the target is disguised, the receiver ignores the text. */
  lemma ColonTargetIgnored(target: string, f: Fragment)
    requires Printable(f) && IsWord(target) && ':' in target && !Disguised(target)
    ensures Parse(Relays(target, f)) == None
  {
    ColonTargetText(target, f);
    StillNoFragment(TextOf(target), Print(Trimmed(f)));
    NotAFragment(Relays(target, f));
  }

  lemma StillNoFragment(after: string, text: string)
    requires !(PREFIX + "[" <= after)
    ensures !(PREFIX + "[" <= after + " :" + text)
  {
    var start, whole := PREFIX + "[", after + " :" + text;
    assert start == "WRTC:[";
    if |after| < 6 {
      assert whole[|after|] == ' ' && start[|after|] != ' ';
    } else {
      assert after[..6] == whole[..6];
    }
  }

  lemma NotAFragment(text: string)
    requires !(PREFIX + "[" <= text)
    ensures Parse(text) == None
  {
    if |text| > |PREFIX| {
      assert text[..|PREFIX| + 1] == text[..|PREFIX|] + [text[|PREFIX|]];
    }
  }

  lemma {:induction false} IgnoredTexts(sender: string, texts: seq<string>)
    requires forall x :: x in texts ==> Parse(x) == None
    ensures Heard(sender, texts) == (map[], [])
  {
    if texts != [] {
      IgnoredTexts(sender, texts[..|texts| - 1]);
      assert texts[|texts| - 1] in texts;
      assert Heard(sender, texts).1 == [] + [];
    }
  }

  // ------------------------------------------------------------------
  // The texts as arrivals
  // ------------------------------------------------------------------

  /** The message as it comes out of the server. */
  function Arriving(s: Signal): Signal { s.(chunks := TrimAll(s.chunks)) }

  lemma ArrivingPiece(s: Signal, k: nat)
    requires s.Valid() && k < |s.chunks|
    ensures Arriving(s).Valid() && |Arriving(s).chunks| == |s.chunks|
    ensures Arriving(s).Piece(k) == Trimmed(s.Piece(k))
  {
  }

  /** Whether a text is that of the k-th fragment, which fits. */
  predicate IsText(target: string, s: Signal, k: int, text: string) {
    s.Valid() && 0 <= k < |s.chunks| && Fits(target, s.Piece(k)) && text == Relays(target, s.Piece(k))
  }

  lemma FirstTextIs(target: string, s: Signal, k: nat, text: string)
    requires s.Valid() && k < |s.chunks|
    ensures text in TextsOf(target, s, k) <==> IsText(target, s, k, text) || text in TextsOf(target, s, k + 1)
  {
  }

  lemma {:induction false} SomeText(target: string, s: Signal, k: nat, text: string) returns (j: nat)
    requires s.Valid() && k <= |s.chunks| && text in TextsOf(target, s, k)
    ensures k <= j && IsText(target, s, j, text)
    decreases |s.chunks| - k
  {
    FirstTextIs(target, s, k, text);
    if IsText(target, s, k, text) {
      j := k;
    } else {
      j := SomeText(target, s, k + 1, text);
    }
  }

  lemma {:induction false} TextIsThere(target: string, s: Signal, k: nat, j: nat, text: string)
    requires k <= j && IsText(target, s, j, text)
    ensures text in TextsOf(target, s, k)
    decreases j - k
  {
    if k == j {
      FirstTextIs(target, s, j, text);
    } else {
      TextIsThere(target, s, k + 1, j, text);
      FirstTextIs(target, s, k, text);
    }
  }

  lemma TextNumber(target: string, s: Signal, k: nat, text: string)
    requires IsText(target, s, k, text) && IsWord(target) && ':' !in target
    ensures text == Print(Arriving(s).Piece(k)) && Parse(text) == Some(Arriving(s).Piece(k))
  {
    ArrivingPiece(s, k);
    PlainTargetText(target, s.Piece(k));
    ParsePrint(Arriving(s).Piece(k));
  }

  lemma {:induction false} TextsDiffer(target: string, s: Signal, k: nat, text: string)
    requires s.Valid() && k <= |s.chunks| && IsWord(target) && ':' !in target
    ensures multiset(TextsOf(target, s, k))[text] <= 1
    decreases |s.chunks| - k
  {
    if k < |s.chunks| {
      TextsDiffer(target, s, k + 1, text);
      CountFirst(target, s, k, text);
      if IsText(target, s, k, text) {
        NotAgain(target, s, k, text);
      }
    }
  }

  lemma CountFirst(target: string, s: Signal, k: nat, text: string)
    requires s.Valid() && k < |s.chunks|
    ensures multiset(TextsOf(target, s, k))[text] ==
      (if IsText(target, s, k, text) then 1 else 0) + multiset(TextsOf(target, s, k + 1))[text]
  {
  }

  lemma NotAgain(target: string, s: Signal, k: nat, text: string)
    requires IsText(target, s, k, text) && IsWord(target) && ':' !in target
    ensures text !in TextsOf(target, s, k + 1)
  {
    TextNumber(target, s, k, text);
    if text in TextsOf(target, s, k + 1) {
      var j := SomeText(target, s, k + 1, text);
      TextNumber(target, s, j, text);
    }
  }

  /** The arrivals behind the texts. */
  function Arrivals(t: Signal, texts: seq<string>): (r: seq<Event>)
    ensures |r| == |texts|
    ensures forall i :: 0 <= i < |r| ==> r[i] == Arrive(t, NumberOf(texts[i]))
  {
    seq(|texts|, i requires 0 <= i < |texts| => Arrive(t, NumberOf(texts[i])))
  }

  function NumberOf(text: string): nat {
    match Parse(text)
    case Some(f) => if f.number > 0 then f.number - 1 else 0
    case None => 0
  }

  predicate AreTexts(target: string, s: Signal, texts: seq<string>) {
    forall i :: 0 <= i < |texts| ==> IsText(target, s, NumberOf(texts[i]), texts[i])
  }

  /** Feeding the texts is having the arrivals. */
  lemma {:induction false} HeardIsArrivals(sender: string, target: string, s: Signal, texts: seq<string>)
    requires s.sender == sender && s.Valid() && IsWord(target) && ':' !in target && AreTexts(target, s, texts)
    ensures var events := Arrivals(Arriving(s), texts);
      && (forall e :: e in events ==> Sendable(e))
      && Heard(sender, texts) == (After(events), Emissions(events))
  {
    var events := Arrivals(Arriving(s), texts);
    forall e | e in events ensures Sendable(e) {
      var i :| 0 <= i < |events| && events[i] == e;
      assert IsText(target, s, NumberOf(texts[i]), texts[i]);
    }
    if texts != [] {
      var n := |texts| - 1;
      HeardIsArrivals(sender, target, s, texts[..n]);
      assert Arrivals(Arriving(s), texts[..n]) == events[..n];
      OneMoreText(sender, target, s, texts, n, events, NumberOf(texts[n]));
    }
  }

  lemma OneMoreText(sender: string, target: string, s: Signal, texts: seq<string>, n: nat, events: seq<Event>, k: nat)
    requires s.sender == sender && IsWord(target) && ':' !in target && |texts| == n + 1 && |events| == n + 1
    requires IsText(target, s, k, texts[n]) && events[n] == Arrive(Arriving(s), k)
    requires (forall e :: e in events ==> Sendable(e)) && (forall e :: e in events[..n] ==> Sendable(e))
    requires Heard(sender, texts[..n]) == (After(events[..n]), Emissions(events[..n]))
    ensures Heard(sender, texts) == (After(events), Emissions(events))
  {
    EventsPush(events, n);
    assert events[..n + 1] == events && texts[..n + 1] == texts;
    HeardPush(sender, texts, n);
    TakenIsArrival(After(events[..n]), target, s, k, texts[n]);
  }

  lemma TakenIsArrival(buffers: Buffers, target: string, s: Signal, k: nat, text: string)
    requires IsText(target, s, k, text) && IsWord(target) && ':' !in target
    ensures Sendable(Arrive(Arriving(s), k)) && TakeText(buffers, s.sender, text) == Step(buffers, Arrive(Arriving(s), k))
  {
    TextNumber(target, s, k, text);
  }

  lemma NumbersOfTexts(target: string, s: Signal, texts: seq<string>)
    requires s.Valid() && IsWord(target) && ':' !in target
    requires multiset(texts) == multiset(TextsOf(target, s, 0))
    ensures AreTexts(target, s, texts)
    ensures forall k :: 0 <= k < |s.chunks| && Fits(target, s.Piece(k)) ==> Relays(target, s.Piece(k)) in texts
  {
    SameMembers(texts, TextsOf(target, s, 0));
    forall i | 0 <= i < |texts| ensures IsText(target, s, NumberOf(texts[i]), texts[i]) {
      NumberedText(target, s, texts[i]);
    }
    forall k | 0 <= k < |s.chunks| && Fits(target, s.Piece(k)) ensures Relays(target, s.Piece(k)) in texts {
      TextIsThere(target, s, 0, k, Relays(target, s.Piece(k)));
    }
  }

  lemma SameMembers<T>(a: seq<T>, b: seq<T>)
    requires multiset(a) == multiset(b)
    ensures forall x :: x in a <==> x in b
  {
    assert forall x :: x in a <==> x in multiset(a);
    assert forall x :: x in b <==> x in multiset(b);
  }

  lemma NumberedText(target: string, s: Signal, text: string)
    requires s.Valid() && IsWord(target) && ':' !in target && text in TextsOf(target, s, 0)
    ensures IsText(target, s, NumberOf(text), text)
  {
    var j := SomeText(target, s, 0, text);
    TextNumber(target, s, j, text);
    NumberRead(text, Arriving(s).Piece(j));
  }

  lemma NumberRead(text: string, f: Fragment)
    requires Parse(text) == Some(f) && f.number > 0
    ensures NumberOf(text) == f.number - 1
  {
  }

  lemma {:induction false} TwiceIn<T>(s: seq<T>, i: nat, j: nat)
    requires i < j < |s| && s[i] == s[j]
    ensures multiset(s)[s[i]] >= 2
  {
    assert s == s[..j] + [s[j]] + s[j + 1..];
    assert s[..j][i] == s[j];
    assert s[j] in multiset(s[..j]);
  }

  lemma ArrivalsNetwork(target: string, s: Signal, texts: seq<string>)
    requires s.Valid() && AreTexts(target, s, texts)
    ensures Network({Arriving(s)}, Arrivals(Arriving(s), texts))
  {
    var events := Arrivals(Arriving(s), texts);
    forall e | e in events ensures Sendable(e) && e.Arrive? && e.signal == Arriving(s) {
      var i :| 0 <= i < |events| && events[i] == e;
      assert IsText(target, s, NumberOf(texts[i]), texts[i]);
    }
  }

  lemma SameNumber(target: string, s: Signal, j: nat, k: nat, x: string, y: string)
    requires IsText(target, s, j, x) && IsText(target, s, k, y) && j == k
    ensures x == y
  {
  }

  lemma ArrivalsOrderly(target: string, s: Signal, texts: seq<string>)
    requires s.Valid() && IsWord(target) && ':' !in target && AreTexts(target, s, texts)
    requires multiset(texts) == multiset(TextsOf(target, s, 0))
    ensures Orderly(Arrivals(Arriving(s), texts))
  {
    var events := Arrivals(Arriving(s), texts);
    forall i, j | 0 <= i < j < |events| ensures events[i] != events[j] {
      TextsDiffer(target, s, 0, texts[i]);
      if events[i] == events[j] {
        SameNumber(target, s, NumberOf(texts[i]), NumberOf(texts[j]), texts[i], texts[j]);
        TwiceIn(texts, i, j);
      }
    }
  }

  lemma FittingArrives(target: string, s: Signal, texts: seq<string>, k: nat, text: string)
    requires IsText(target, s, k, text) && IsWord(target) && ':' !in target && text in texts
    ensures Arrive(Arriving(s), k) in Arrivals(Arriving(s), texts)
  {
    NumberOfText(target, s, k, text);
    ArrivalOf(Arriving(s), texts, text);
  }

  lemma NumberOfText(target: string, s: Signal, k: nat, text: string)
    requires IsText(target, s, k, text) && IsWord(target) && ':' !in target
    ensures NumberOf(text) == k
  {
    TextNumber(target, s, k, text);
  }

  lemma ArrivalOf(t: Signal, texts: seq<string>, text: string)
    requires text in texts
    ensures Arrive(t, NumberOf(text)) in Arrivals(t, texts)
  {
    var i :| 0 <= i < |texts| && texts[i] == text;
    assert Arrivals(t, texts)[i] == Arrive(t, NumberOf(text));
  }

  lemma ArrivedFits(target: string, s: Signal, texts: seq<string>, k: nat)
    requires s.Valid() && k < |s.chunks| && AreTexts(target, s, texts)
    requires Arrive(Arriving(s), k) in Arrivals(Arriving(s), texts)
    ensures Fits(target, s.Piece(k))
  {
    var events := Arrivals(Arriving(s), texts);
    var i :| 0 <= i < |events| && events[i] == Arrive(Arriving(s), k);
    assert IsText(target, s, NumberOf(texts[i]), texts[i]);
  }

  lemma AllArrivedMeans(events: seq<Event>, t: Signal)
    ensures AllArrived(events, t) <==> forall k: nat :: k < |t.chunks| ==> Arrive(t, k) in events
  {
    if forall k: nat :: k < |t.chunks| ==> Arrive(t, k) in events {
      forall n | n in UpTo(|t.chunks|) ensures n in Arrived(events, t) {
        assert PartNumber(n, |t.chunks|);
        assert Arrive(t, n - 1) in events;
      }
    } else {
      var k: nat :| k < |t.chunks| && Arrive(t, k) !in events;
      assert PartNumber(k + 1, |t.chunks|) && k + 1 in UpTo(|t.chunks|);
    }
  }

  predicate AllFit(target: string, s: Signal)
    requires s.Valid()
  {
    forall k :: 0 <= k < |s.chunks| ==> Fits(target, s.Piece(k))
  }

  /** All fragments have arrived exactly when all fit. */
  lemma AllArrivedIff(target: string, s: Signal, texts: seq<string>)
    requires s.Valid() && IsWord(target) && ':' !in target
    requires multiset(texts) == multiset(TextsOf(target, s, 0))
    ensures AllArrived(Arrivals(Arriving(s), texts), Arriving(s)) <==> AllFit(target, s)
  {
    var t := Arriving(s);
    NumbersOfTexts(target, s, texts);
    AllArrivedMeans(Arrivals(t, texts), t);
    forall k: nat | k < |s.chunks|
      ensures Arrive(t, k) in Arrivals(t, texts) <==> Fits(target, s.Piece(k))
    {
      if Fits(target, s.Piece(k)) {
        FittingArrives(target, s, texts, k, Relays(target, s.Piece(k)));
      } else if Arrive(t, k) in Arrivals(t, texts) {
        ArrivedFits(target, s, texts, k);
      }
    }
  }

  /** What is emitted when fragments of one message arrive, each at most once. */
  lemma {:induction false} EmittedOnce(t: Signal, events: seq<Event>)
    requires Network({t}, events) && Orderly(events)
    ensures Emissions(events) == if t.chunks != [] && AllArrived(events, t) then [t.Whole()] else []
  {
    if events == [] {
      assert Arrived(events, t) == {};
      assert t.chunks != [] ==> PartNumber(1, |t.chunks|) && 1 in UpTo(|t.chunks|);
    } else {
      var n := |events| - 1;
      PrefixIs({t}, events, n);
      EmittedOnce(t, events[..n]);
      EventsPush(events, n);
      assert events[..n + 1] == events;
      EmitsOnLastMissing({t}, events, n);
      NotAllYet(t, events, n);
    }
  }

  lemma NotAllYet(t: Signal, events: seq<Event>, n: nat)
    requires Network({t}, events) && Orderly(events) && n == |events| - 1
    ensures t.chunks != [] && events[n].signal == t && !AllArrived(events[..n], t)
  {
    var e := events[n];
    assert e in events && e !in events[..n];
    assert PartNumber(e.k + 1, |t.chunks|) && e.k + 1 in UpTo(|t.chunks|);
    assert e.k + 1 !in Arrived(events[..n], t);
  }

  // ------------------------------------------------------------------
  // From the sender to the receiver
  // ------------------------------------------------------------------

  /** One chunk gets through as it is: its line fits, it has no line feed, and no white
      space at its end. */
  predicate GetsThrough(target: string, s: Signal, k: nat)
    requires s.Valid() && k < |s.chunks|
  {
    Fits(target, s.Piece(k)) && '\n' !in s.chunks[k] && !EndsInWhitespace(s.chunks[k])
  }

  /** What a sender could check before it sends. */
  predicate Deliverable(target: string, payload: string, s: Signal)
    requires s.Valid()
  {
    && payload != "" && ':' !in target && Aligned(Encode(payload))
    && forall k :: 0 <= k < |s.chunks| ==> GetsThrough(target, s, k)
  }

  /** The texts a target gets of a message: those the server relays of its lines, in any order. */
  ghost predicate Gets(target: string, s: Signal, lines: seq<string>, texts: seq<string>)
    ensures Gets(target, s, lines, texts) ==> s.Valid()
  {
    && FirstLines(lines, target, s) && |lines| == |s.chunks|
    && multiset(texts) == multiset(TextsFor(Relayed(OnWire(lines)), target))
  }

  lemma PlainDelivery(target: string, s: Signal, texts: seq<string>)
    requires s.Valid() && IsWord(target) && ':' !in target
    requires multiset(texts) == multiset(TextsOf(target, s, 0))
    ensures Heard(s.sender, texts).1 ==
      if s.chunks != [] && AllFit(target, s) then [Arriving(s).Whole()] else []
  {
    NumbersOfTexts(target, s, texts);
    HeardIsArrivals(s.sender, target, s, texts);
    ArrivalsNetwork(target, s, texts);
    ArrivalsOrderly(target, s, texts);
    AllArrivedIff(target, s, texts);
    EmittedOnce(Arriving(s), Arrivals(Arriving(s), texts));
  }

  lemma ColonDelivery(target: string, s: Signal, texts: seq<string>)
    requires s.Valid() && IsWord(target) && ':' in target && !Disguised(target)
    requires multiset(texts) == multiset(TextsOf(target, s, 0))
    ensures Heard(s.sender, texts).1 == []
  {
    forall x | x in texts ensures Parse(x) == None {
      assert x in multiset(texts);
      var k := SomeText(target, s, 0, x);
      ColonTargetIgnored(target, s.Piece(k));
    }
    IgnoredTexts(s.sender, texts);
  }

  /** The conditions on the chunks one by one. */
  lemma ThroughIff(target: string, payload: string, s: Signal)
    requires s.Valid()
    ensures Deliverable(target, payload, s) <==>
      payload != "" && ':' !in target && Aligned(Encode(payload))
      && AllFit(target, s) && NoFeedIn(s) && NoneEndsInWhitespace(s.chunks)
  {
    forall k | 0 <= k < |s.chunks|
      ensures GetsThrough(target, s, k) <==>
        Fits(target, s.Piece(k)) && '\n' !in s.chunks[k] && !EndsInWhitespace(s.chunks[k])
    {
    }
    if Deliverable(target, payload, s) {
      forall k | 0 <= k < |s.chunks|
        ensures Fits(target, s.Piece(k)) && '\n' !in s.chunks[k] && !EndsInWhitespace(s.chunks[k])
      {
        assert GetsThrough(target, s, k);
      }
    }
  }

  lemma FeedDelivery(target: string, s: Signal, payload: string, lines: seq<string>, texts: seq<string>, k: nat)
    requires s.chunks == Chunks(payload) && k < |s.chunks| && '\n' in s.chunks[k] && Gets(target, s, lines, texts)
    ensures Emission(s.sender, payload) !in Heard(s.sender, texts).1
  {
    ChunkFrom(payload, k, '\n');
    RelayedHaveNoFeed(OnWire(lines), target);
    forall x | x in texts ensures '\n' !in x {
      assert x in multiset(texts);
    }
    HeardHasNoFeed(s.sender, texts);
  }

  lemma RelayedTexts(target: string, s: Signal, lines: seq<string>, texts: seq<string>)
    requires Gets(target, s, lines, texts) && IsWord(target) && NoFeedIn(s)
    ensures multiset(texts) == multiset(TextsOf(target, s, 0))
  {
    MessageRelayed(target, s, lines, 0);
    assert lines[0..] == lines;
  }

  /** From the sender's lines through the server to the receiver, in any order of arrival:
      the payload comes out, and then exactly once and nothing else does, if and only if
      it is not empty, the target has no colon, no cut falls inside a character, and every
      chunk's line fits and the chunk has no line feed and no white space at its end. */
  lemma DeliveredIff(
      sender: string, target: string, id: string, payload: string, lines: seq<string>, texts: seq<string>)
    requires IsWord(target) && !Disguised(target)
    requires Gets(target, SentSignal(sender, id, payload), lines, texts)
    ensures var s := SentSignal(sender, id, payload);
      && (Emission(sender, payload) in Heard(sender, texts).1 <==> Deliverable(target, payload, s))
      && (Deliverable(target, payload, s) ==> Heard(sender, texts).1 == [Emission(sender, payload)])
  {
    var s := SentSignal(sender, id, payload);
    ThroughIff(target, payload, s);
    if NoFeedIn(s) {
      RelayedTexts(target, s, lines, texts);
      if ':' in target {
        ColonDelivery(target, s, texts);
      } else {
        PlainDelivery(target, s, texts);
        TrimmedWholeIff(payload);
        OnlyEmptyPayloadsHaveNoFragment(payload);
        assert Arriving(s).Whole() == Emission(sender, Concat(TrimAll(Chunks(payload))));
      }
    } else {
      var k :| 0 <= k < |s.chunks| && '\n' in s.chunks[k];
      FeedDelivery(target, s, payload, lines, texts, k);
    }
  }

  // ------------------------------------------------------------------
  // Loss, duplication, expiry, and many messages at once
  // ------------------------------------------------------------------

  datatype Post = Post(sender: string, target: string, id: string, payload: string) {
    function Signal(): Signal { SentSignal(sender, id, payload) }

    /** Of targets with a colon nothing arrives, and a line feed lets a payload send lines
        of its own. */
    predicate Plain() {
      Signal().Valid() && IsWord(target) && ':' !in target && NoFeedIn(Signal())
    }
  }

  ghost predicate DistinctPosts(posts: set<Post>) {
    forall p, q :: p in posts && q in posts && p.sender == q.sender && p.id == q.id ==> p == q
  }

  /** One arrival at a receiver: a fragment of some post, as the server relays it. */
  ghost predicate IsRelayed(posts: set<Post>, e: Event) {
    e.Arrive? ==> exists p :: p in posts && RelayedOf(p, e)
  }

  predicate RelayedOf(p: Post, e: Event) {
    && e.Arrive? && p.Plain() && e.signal == Arriving(p.Signal()) && e.k < |p.Signal().chunks|
    && Fits(p.target, p.Signal().Piece(e.k))
  }

  ghost predicate IsMail(posts: set<Post>, events: seq<Event>) {
    && DistinctPosts(posts) && (forall p :: p in posts ==> p.Plain())
    && forall e :: e in events ==> IsRelayed(posts, e)
  }

  /** Some relayed fragments arrive, in any order and any number of times, and some buffers
      expire. */
  ghost predicate Mail(posts: set<Post>, events: seq<Event>)
    ensures Mail(posts, events) ==> Network(SignalsOf(posts), events)
  {
    IsMail(posts, events) && (MailIsNetwork(posts, events); true)
  }

  /** The text that arrives is the one relayed for that fragment's line. */
  lemma ArrivalIsRelayed(p: Post, e: Event, rest: string)
    requires RelayedOf(p, e)
    ensures Sendable(e)
    ensures FirstRelayed(Wire(p.target, p.Signal().Piece(e.k)) + rest) == Some((p.target, Print(e.signal.Piece(e.k))))
  {
    ArrivingPiece(p.Signal(), e.k);
    PieceRelayed(p.target, p.Signal().Piece(e.k), rest);
    PlainTargetText(p.target, p.Signal().Piece(e.k));
  }

  function SignalsOf(posts: set<Post>): set<Signal> { set p | p in posts :: Arriving(p.Signal()) }

  lemma MailIsNetwork(posts: set<Post>, events: seq<Event>)
    requires IsMail(posts, events)
    ensures Network(SignalsOf(posts), events)
  {
    forall s, t | s in SignalsOf(posts) && t in SignalsOf(posts) && s.sender == t.sender && s.id == t.id
      ensures s == t
    {
      var p :| p in posts && Arriving(p.Signal()) == s;
      var q :| q in posts && Arriving(q.Signal()) == t;
      assert p.sender == q.sender && p.id == q.id;
    }
    forall s | s in SignalsOf(posts) ensures s.Valid() {
      var p :| p in posts && Arriving(p.Signal()) == s;
      assert p.Plain() && p.Signal().Valid();
    }
    forall e | e in events ensures Sendable(e) && (e.Arrive? ==> e.signal in SignalsOf(posts)) {
      assert IsRelayed(posts, e);
    }
  }

  lemma {:induction false} ArrivedFit(posts: set<Post>, events: seq<Event>, p: Post, k: nat)
    requires Mail(posts, events) && p in posts && Arrive(Arriving(p.Signal()), k) in events
    ensures k < |p.Signal().chunks| && Fits(p.target, p.Signal().Piece(k))
  {
    var e := Arrive(Arriving(p.Signal()), k);
    assert IsRelayed(posts, e);
    var q :| q in posts && RelayedOf(q, e);
    assert p.sender == q.sender && p.id == q.id;
  }

  /** Whatever is emitted comes of one post, all of whose lines fit, and consists of its
      chunks without the white space they end in; it is that post's payload exactly when
      the payload is deliverable. */
  lemma EmittedPayloadIff(posts: set<Post>, events: seq<Event>, n: nat) returns (p: Post)
    requires Mail(posts, events) && n < |events| && EmittedAt(events, n).Some?
    ensures p in posts && AllFit(p.target, p.Signal())
    ensures EmittedAt(events, n) == Some(Emission(p.sender, Concat(TrimAll(Chunks(p.payload)))))
    ensures EmittedAt(events, n).value.payload == p.payload <==> Deliverable(p.target, p.payload, p.Signal())
  {
    var sent := SignalsOf(posts);
    EmitsOnlySentMessages(sent, events, n);
    EmitsOnlyWhenAllArrived(sent, events, n);
    p :| p in posts && Arriving(p.Signal()) == events[n].signal;
    assert forall e :: e in events[..n + 1] ==> e in events;
    AllArrivedFit(posts, events[..n + 1], p);
    WholeIff(p);
    assert Arriving(p.Signal()).Whole() == Emission(p.sender, Concat(TrimAll(Chunks(p.payload))));
    assert p.Signal().chunks != [];
  }

  lemma AllArrivedFit(posts: set<Post>, events: seq<Event>, p: Post)
    requires Mail(posts, events) && p in posts && AllArrived(events, Arriving(p.Signal()))
    ensures p.Signal().Valid() && AllFit(p.target, p.Signal())
  {
    AllArrivedMeans(events, Arriving(p.Signal()));
    forall k | 0 <= k < |p.Signal().chunks| ensures Fits(p.target, p.Signal().Piece(k)) {
      assert Arrive(Arriving(p.Signal()), k) in events;
      ArrivedFit(posts, events, p, k);
    }
  }

  lemma WholeIff(p: Post)
    requires p.Plain() && AllFit(p.target, p.Signal())
    ensures p.Signal().chunks != [] ==>
      (Concat(TrimAll(Chunks(p.payload))) == p.payload <==> Deliverable(p.target, p.payload, p.Signal()))
  {
    ThroughIff(p.target, p.payload, p.Signal());
    TrimmedWholeIff(p.payload);
    OnlyEmptyPayloadsHaveNoFragment(p.payload);
  }

  // ------------------------------------------------------------------
  // Two payloads
  // ------------------------------------------------------------------

  lemma {:induction false} AsciiDecoded(s: string)
    requires IsAscii(s)
    ensures LossyDecode(Encode(s)) == s && |Encode(s)| == |s|
  {
    DecodeEncoded(s, []);
    assert Encode(s) + [] == Encode(s);
    assert s + [] == s;
    ByteLenAscii(s);
  }

  lemma AsciiPrefix(s: string, n: nat)
    requires IsAscii(s) && n <= |s|
    ensures n <= |Encode(s)| && Encode(s)[..n] == Encode(s[..n]) && Encode(s)[n..] == Encode(s[n..])
  {
    assert s == s[..n] + s[n..];
    EncodeConcat(s[..n], s[n..]);
    ByteLenAscii(s[..n]);
    ByteLenAscii(s);
  }

  lemma TwoChunks(a: string, b: string)
    requires IsAscii(a) && IsAscii(b) && |a| == CHUNK_SIZE && 0 < |b| <= CHUNK_SIZE
    ensures Chunks(a + b) == [a, b]
  {
    var s := a + b;
    assert s[..CHUNK_SIZE] == a && s[CHUNK_SIZE..] == b;
    AsciiPrefix(s, CHUNK_SIZE);
    AsciiDecoded(a);
    AsciiDecoded(b);
    AsciiDecoded(s);
    assert Cut(Encode(s)) == [Encode(a)] + Cut(Encode(b));
    assert Cut(Encode(b)) == [Encode(b)];
    assert Cut(Encode(s)) == [Encode(a), Encode(b)];
  }

  lemma SpacedChunks(d: string)
    requires |d| == 399 && IsAscii(d) && IsWord(d)
    ensures Chunks(d + " " + "b") == [d + " ", "b"] && '\n' !in d + " "
    ensures Concat(TrimAll([d + " ", "b"])) == d + "b"
  {
    TwoChunks(d + " ", "b");
    TrimEndIs(d + " ", d);
    TrimEndIs("b", "b");
    assert TrimAll([d + " ", "b"]) == [d, "b"];
    assert [d, "b"][1..] == ["b"];
    assert Concat(["b"]) == "b";
    assert '\n' !in d;
  }

  lemma SpacedFits(target: string, id: string, d: string, k: nat)
    requires |d| == 399 && IsAscii(d) && ByteLen(target) <= 81 && k < 2
    ensures Fits(target, Fragment(k + 1, 2, id, [d + " ", "b"][k]))
  {
    ByteLenAscii([d + " ", "b"][k]);
    assert |Decimal(k + 1)| == 1 && |Decimal(2)| == 1;
  }

  /** A space before the cut: 399 characters, a space and one more are sent to a target that
      every line fits, and the receiver is handed the characters without the space. */
  lemma SpaceIsLost(sender: string, target: string, id: string, d: string, lines: seq<string>, texts: seq<string>)
    requires IsWord(target) && ':' !in target && ByteLen(target) <= 81
    requires |d| == 399 && IsAscii(d) && IsWord(d)
    requires Gets(target, SentSignal(sender, id, d + " " + "b"), lines, texts)
    ensures Heard(sender, texts).1 == [Emission(sender, d + "b")]
  {
    var s := SentSignal(sender, id, d + " " + "b");
    SpacedChunks(d);
    SpacedAllFit(target, s, d);
    RelayedTexts(target, s, lines, texts);
    PlainDelivery(target, s, texts);
  }

  lemma SpacedAllFit(target: string, s: Signal, d: string)
    requires s.Valid() && s.chunks == [d + " ", "b"] && |d| == 399 && IsAscii(d) && ByteLen(target) <= 81
    ensures AllFit(target, s)
  {
    SpacedFits(target, s.id, d, 0);
    SpacedFits(target, s.id, d, 1);
  }

  lemma ExtraCounts(a: string, b: string, rest: string)
    requires '/' !in a && '/' !in b
    ensures ParseCounts(a + ['/'] + (b + ['/'] + rest)) == (ParseOrZero(a), ParseOrZero(b))
  {
    SplitFirst(b, '/', rest);
    SplitFirst(a, '/', b + ['/'] + rest);
  }

  /** A disguise that reads as the start of a fragment 1 of 1. */
  function Disguise(): string { PREFIX + "[" + (Decimal(1) + ['/'] + (Decimal(1) + ['/'])) }

  lemma DisguisedText(id: string, payload: string)
    ensures var rest := " :" + PREFIX + "[" + PrintCounts(1, 1);
      Disguise() + " :" + Print(Fragment(1, 1, id, payload)) ==
      PREFIX + "[" + (Decimal(1) + ['/'] + (Decimal(1) + ['/'] + rest) + ['|'] + id) + "]" + payload
  {
    var one, counts := Decimal(1), PrintCounts(1, 1);
    Rearranged(PREFIX + "[", one + ['/'], one + ['/'], " :", PREFIX + "[", counts, id, payload);
    assert Print(Fragment(1, 1, id, payload)) == PREFIX + "[" + (counts + "|" + id) + "]" + payload;
    Associative(one, ['/'], one + ['/'] + (" :" + PREFIX + "[" + counts));
    Associative(one, ['/'], one + ['/']);
    Associative(" :", PREFIX, "[");
    Associative(" :" + PREFIX, "[", counts);
  }

  lemma Rearranged(
      p: string, a: string, b: string, c: string, q: string, counts: string, id: string, payload: string)
    ensures p + (a + b) + c + (q + (counts + "|" + id) + "]" + payload)
         == p + (a + (b + (c + q + counts)) + ['|'] + id) + "]" + payload
  {
  }

  lemma DisguisedParse(id: string, payload: string)
    requires ValidId(id)
    ensures Parse(Disguise() + " :" + Print(Fragment(1, 1, id, payload))) == Some(Fragment(1, 1, id, payload))
  {
    var rest := " :" + PREFIX + "[" + PrintCounts(1, 1);
    var counts := Decimal(1) + ['/'] + (Decimal(1) + ['/'] + rest);
    DisguisedText(id, payload);
    assert '|' !in counts && ']' !in counts by { assert '|' !in PREFIX && ']' !in PREFIX; }
    UnbracketPrint(counts + ['|'] + id, payload);
    SplitPair(counts, '|', id);
    ExtraCounts(Decimal(1), Decimal(1), rest);
    ParseDecimal(1);
  }

  lemma HeardOne(sender: string, text: string)
    ensures Heard(sender, [text]).1 == Emitted(TakeText(map[], sender, text).1)
  {
    assert [text][..0] == [];
    assert Heard(sender, []) == (map[], []);
  }

  lemma DisguisedTarget()
    ensures var target := "a" + [':'] + Disguise();
      Disguised(target) && TextOf(target) == Disguise() && IsWord(target)
  {
    AfterColon("a", Disguise());
    assert IsWord(PREFIX + "[");
  }

  /** The one kind of target for which a colon does not matter: this one takes a message of
      a single fragment for what it is. */
  lemma DisguisedReceives(sender: string, id: string, payload: string)
    requires ValidId(id) && payload != "" && !EndsInWhitespace(payload)
    ensures var target, f := "a" + [':'] + Disguise(), Fragment(1, 1, id, payload);
      && Disguised(target) && IsWord(target) && Printable(f)
      && Heard(sender, [Relays(target, f)]).1 == [Emission(sender, payload)]
  {
    var target, f := "a" + [':'] + Disguise(), Fragment(1, 1, id, payload);
    DisguisedTarget();
    ColonTargetText(target, f);
    TrimSpaces(payload);
    DisguisedParse(id, payload);
    HeardOne(sender, Relays(target, f));
    SingleReceived(sender, f);
  }

  lemma SingleReceived(sender: string, f: Fragment)
    requires f.number == f.total == 1
    ensures Receive(map[], sender, f).1 == Some(Emission(sender, f.chunk))
  {
    var b := Grow(map[], BufferKey(sender, f.id), f);
    assert b == Buffer(map[1 := f.chunk], 1);
    assert |b.parts| == 1;
    assert Assemble(b.parts, 2, 1) == "";
    assert Assemble(b.parts, 1, 1) == f.chunk;
  }
}
