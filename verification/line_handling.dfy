/** A fragment's way through the server's line handling: reading a line, the length
    limit, trimming, and the extraction of a PRIVMSG's text. */
module LineHandling {
  import opened Text
  import opened Fragments
  import opened FragmentSender

  /** The limit of a line including its CR-LF, section 2.3 of RFC 2812. */
  const MAX_MSG_LEN := 512

  const CRLF := "\r\n"

  /** `read_line`: up to and including the first line feed, and what follows. */
  function ReadLine(stream: string): (string, string) {
    match Find(stream, '\n')
    case None => (stream, "")
    case Some(i) => (stream[..i + 1], stream[i + 1..])
  }

  /** The loop of `handle_connection_io` for one line: too long a line is dropped, and
      so is one without text; a trimmed line is processed. */
  function Accept(line: string): Option<string> {
    if ByteLen(line) > MAX_MSG_LEN then None
    else if Trim(line) == "" then None
    else Some(Trim(line))
  }

  /** The text after the first colon of the line. */
  function TextOf(cmd: string): string {
    match Find(cmd, ':') case Some(i) => cmd[i + 1..] case None => ""
  }

  /** The target and text `process_command` takes from a PRIVMSG: the text starts after
      the first colon of the whole command. */
  function PrivmsgOf(cmd: string): Option<(string, string)> {
    var parts := SplitWhitespace(cmd);
    if |parts| > 2 && parts[0] == "PRIVMSG" then
      Some((parts[1], TextOf(cmd)))
    else None
  }

  /** What the client's writer puts on the wire for a fragment. */
  function Wire(target: string, f: Fragment): string { CommandLine(target, Print(f)) + CRLF }

  /** On the wire, the second of three fragments for bob is a private message to him with the
      counts, the message's id and the chunk. */
  lemma WireExample(chunk: string)
    ensures Wire("bob", Fragment(2, 3, "0a1b2c3d", chunk)) == "PRIVMSG bob :WRTC:[2/3|0a1b2c3d]" + chunk + "\r\n"
  {
    var lead, header := "PRIVMSG " + "bob" + " :", "WRTC:[2/3|0a1b2c3d]";
    PrintExample(chunk);
    Associative(lead, header, chunk);
    assert lead + header == "PRIVMSG bob :WRTC:[2/3|0a1b2c3d]";
  }

  lemma PrintExample(chunk: string)
    ensures Print(Fragment(2, 3, "0a1b2c3d", chunk)) == "WRTC:[2/3|0a1b2c3d]" + chunk
  {
    assert Decimal(2) == "2" && Decimal(3) == "3";
    assert PrintCounts(2, 3) == "2/3";
  }

  // ------------------------------------------------------------------
  // One line
  // ------------------------------------------------------------------

  lemma WireIsOneLine(target: string, f: Fragment, rest: string)
    requires Printable(f) && '\n' !in target && '\n' !in f.chunk
    ensures ReadLine(Wire(target, f) + rest) == (Wire(target, f), rest)
  {
    var before := CommandLine(target, Print(f)) + "\r";
    assert '\n' !in Print(f) by { PrintParts(f); }
    assert Wire(target, f) == before + ['\n'];
    assert Wire(target, f) + rest == before + ['\n'] + rest;
    FindAfter(before, '\n', rest);
    assert (before + ['\n'] + rest)[..|before| + 1] == Wire(target, f);
    assert (before + ['\n'] + rest)[|before| + 1..] == rest;
  }

  /** Everything before the chunk: printable ASCII without white space. */
  function Header(f: Fragment): string { Print(f)[..|Print(f)| - |f.chunk|] }

  lemma PrintParts(f: Fragment)
    requires Printable(f)
    ensures Print(f) == Header(f) + f.chunk
    ensures |Header(f)| == 17 + |Decimal(f.number)| + |Decimal(f.total)|
    ensures IsAscii(Header(f)) && IsWord(Header(f)) && '\n' !in Header(f)
  {
    var header := PREFIX + "[" + (PrintCounts(f.number, f.total) + "|" + f.id) + "]";
    assert Print(f) == header + f.chunk;
    assert Header(f) == header;
    PlainHeader(f, header);
  }

  lemma PlainHeader(f: Fragment, header: string)
    requires Printable(f)
    requires header == PREFIX + "[" + (PrintCounts(f.number, f.total) + "|" + f.id) + "]"
    ensures forall i :: 0 <= i < |header| ==> '!' <= header[i] <= '~'
  {
    var counts := PrintCounts(f.number, f.total);
    assert forall i :: 0 <= i < |counts| ==> '!' <= counts[i] <= '~';
    var inner := counts + "|" + f.id;
    assert forall i :: 0 <= i < |inner| ==> '!' <= inner[i] <= '~';
    assert PREFIX + "[" == "WRTC:[";
  }

  // ------------------------------------------------------------------
  // The length limit
  // ------------------------------------------------------------------

  lemma WireLength(target: string, f: Fragment)
    requires Printable(f)
    ensures ByteLen(Wire(target, f))
         == 29 + ByteLen(target) + |Decimal(f.number)| + |Decimal(f.total)| + ByteLen(f.chunk)
  {
    PrintParts(f);
    ByteLenAscii("PRIVMSG ");
    ByteLenAscii(" :");
    ByteLenAscii(Header(f));
    ByteLenAscii(CRLF);
    ByteLenConcat("PRIVMSG ", target);
    ByteLenConcat("PRIVMSG " + target, " :");
    ByteLenConcat("PRIVMSG " + target + " :", Print(f));
    ByteLenConcat(Header(f), f.chunk);
    ByteLenConcat(CommandLine(target, Print(f)), CRLF);
  }

  /** The server takes a fragment exactly when it fits the limit. */
  lemma FragmentAcceptedIffFits(target: string, f: Fragment)
    requires Printable(f) && IsWord(target)
    ensures Accept(Wire(target, f)).Some? <==>
      ByteLen(target) + |Decimal(f.number)| + |Decimal(f.total)| + ByteLen(f.chunk) <= 483
  {
    WireLength(target, f);
    var _, _ := RelayedUnchangedIff(target, f);
  }

  /** For a full chunk of single-byte characters: at most 83 for the target and the
      digits of the two counts. */
  lemma FullFragmentAcceptedIff(target: string, f: Fragment)
    requires Printable(f) && IsWord(target)
    requires IsAscii(f.chunk) && |f.chunk| == CHUNK_SIZE
    ensures Accept(Wire(target, f)).Some? <==>
      ByteLen(target) + |Decimal(f.number)| + |Decimal(f.total)| <= 83
  {
    ByteLenAscii(f.chunk);
    FragmentAcceptedIffFits(target, f);
  }

  // ------------------------------------------------------------------
  // Trimming and the text
  // ------------------------------------------------------------------

  lemma {:induction false} TrimEndAppend(s: string, space: string)
    requires forall i :: 0 <= i < |space| ==> IsWhitespace(space[i])
    ensures TrimEnd(s + space) == TrimEnd(s)
    decreases |space|
  {
    if space == "" {
      assert s + space == s;
    } else {
      var shorter := space[..|space| - 1];
      assert (s + space)[..|s + space| - 1] == s + shorter;
      TrimEndAppend(s, shorter);
    }
  }

  predicate EndsInWhitespace(s: string) { s != "" && IsWhitespace(s[|s| - 1]) }

  /** A command line in general: a verb, a target, and a text of a solid head and a tail. */
  function Lead(verb: string, target: string, head: string): string { verb + " " + target + " :" + head }

  /** Trimming takes the white space the tail ends in, and nothing of the lead. */
  lemma TrimmedLine(lead: string, tail: string, space: string, line: string) returns (after: string)
    requires lead != "" && !IsWhitespace(lead[0]) && !IsWhitespace(lead[|lead| - 1])
    requires forall i :: 0 <= i < |space| ==> IsWhitespace(space[i])
    requires line == lead + tail + space
    ensures Trim(line) == lead + after && !EndsInWhitespace(lead + after)
    ensures after == tail <==> !EndsInWhitespace(tail)
  {
    var whole := lead + tail;
    assert line[0] == lead[0];
    TrimEndAppend(whole, space);
    var cmd := TrimEnd(whole);
    assert whole[|lead| - 1] == lead[|lead| - 1];
    assert tail != "" ==> whole[|whole| - 1] == tail[|tail| - 1];
    after := cmd[|lead|..];
    assert cmd == lead + after;
  }

  lemma WordsOfLine(verb: string, target: string, rest: string)
    requires IsWord(verb) && IsWord(target) && rest != "" && !IsWhitespace(rest[0])
    ensures var parts := SplitWhitespace(verb + " " + target + " " + rest);
      |parts| > 2 && parts[0] == verb && parts[1] == target
  {
    Associative(verb + " " + target, " ", rest);
    Associative(verb + " ", target, " " + rest);
    Associative(target, " ", rest);
    SplitWord(verb, target + " " + rest);
    SplitWord(target, rest);
    SplitNonEmpty(rest);
  }

  lemma TextOfLine(verb: string, target: string, text: string)
    requires ':' !in verb
    ensures TextOf(verb + " " + target + " :" + text) == text <==> ':' !in target
  {
    var before := verb + " " + target + " ";
    var cmd := before + [':'] + text;
    assert verb + " " + target + " :" + text == cmd;
    if ':' !in target {
      FindAfter(before, ':', text);
    } else {
      var k :| 0 <= k < |target| && target[k] == ':';
      FirstAtMost(cmd, ':', |verb| + 1 + k);
    }
  }

  /** A command of at least two words. */
  function Line(verb: string, target: string, rest: string): string { verb + " " + (target + " " + rest) }

  /** Of a message its text is what follows the first colon, whatever stands between the
      target and that. */
  lemma ColonBeginsText(target: string, before: string, text: string)
    requires IsWord(target) && ':' !in target && ':' !in before
    ensures PrivmsgOf(Line("PRIVMSG", target, before + ":" + text)) == Some((target, text))
  {
    LineTaken("PRIVMSG", target, before + ":" + text);
    SolidAfter(before, ":", text);
    FirstColon(target, before, text);
  }

  /** One that has no colon is relayed without a text. */
  lemma NoColonNoText(target: string, word: string)
    requires IsWord(target) && ':' !in target && IsWord(word) && ':' !in word
    ensures PrivmsgOf(Line("PRIVMSG", target, word)) == Some((target, ""))
  {
    LineTaken("PRIVMSG", target, word);
    SplitNonEmpty(word);
    NoColon(target, word);
  }

  /** One that is only a target is not relayed, and no other command is. */
  lemma NotRelayed(verb: string, target: string, rest: string)
    requires IsWord(verb) && IsWord(target)
    ensures verb != "PRIVMSG" || rest == "" ==> PrivmsgOf(Line(verb, target, rest)).None?
  {
    LineTaken(verb, target, rest);
  }

  lemma LineTaken(verb: string, target: string, rest: string)
    requires IsWord(verb) && IsWord(target)
    ensures PrivmsgOf(Line(verb, target, rest)) ==
      if verb == "PRIVMSG" && SplitWhitespace(rest) != [] then Some((target, TextOf(Line(verb, target, rest)))) else None
  {
    TwoWords(verb, target, rest);
  }

  lemma NoColon(target: string, word: string)
    requires ':' !in target && ':' !in word
    ensures TextOf(Line("PRIVMSG", target, word)) == ""
  {
    assert ':' !in "PRIVMSG" + " " && ':' !in target + " " + word;
    assert ':' !in Line("PRIVMSG", target, word);
  }

  lemma TwoWords(verb: string, target: string, rest: string)
    requires IsWord(verb) && IsWord(target)
    ensures var parts := SplitWhitespace(Line(verb, target, rest));
      |parts| == 2 + |SplitWhitespace(rest)| && parts[0] == verb && parts[1] == target
  {
    SplitWord(verb, target + " " + rest);
    SplitWord(target, rest);
  }

  /** What has something but white space in it has a word. */
  lemma SolidAfter(before: string, solid: string, after: string)
    requires IsWord(solid)
    ensures SplitWhitespace(before + solid + after) != []
  {
    var s := before + solid + after;
    assert s[|before|] == solid[0];
    assert !IsSpace(s);
    TrimStartDrops(s);
  }

  lemma FirstColon(target: string, before: string, text: string)
    requires ':' !in target && ':' !in before
    ensures TextOf(Line("PRIVMSG", target, before + ":" + text)) == text
  {
    var lead := "PRIVMSG" + " " + (target + " " + before);
    Nested("PRIVMSG" + " ", target + " ", before, text);
    FindAfter(lead, ':', text);
    DropFirst(lead + ":", text);
  }

  lemma Nested(a: string, b: string, before: string, text: string)
    ensures a + (b + (before + ":" + text)) == a + (b + before) + ":" + text
  {
  }

  lemma FirstAtMost(s: string, c: char, k: nat)
    requires k < |s| && s[k] == c
    ensures Find(s, c).Some? && Find(s, c).value <= k
  {
    var i := Find(s, c).value;
    assert forall j | 0 <= j < i :: s[j] in s[..i];
  }

  lemma TrimmedTextDiffers(cmd: string, text: string)
    requires !EndsInWhitespace(cmd) && EndsInWhitespace(text)
    ensures TextOf(cmd) != text
  {
    var r := TextOf(cmd);
    assert r != "" ==> r[|r| - 1] == cmd[|cmd| - 1];
  }

  predicate Command(cmd: string, verb: string, target: string) {
    var parts := SplitWhitespace(cmd);
    |parts| > 2 && parts[0] == verb && parts[1] == target
  }

  lemma LeadWords(verb: string, target: string, head: string, cmd: string, after: string)
    requires IsWord(verb) && IsWord(target) && cmd == Lead(verb, target, head) + after
    ensures Command(cmd, verb, target)
  {
    var rest := ":" + head + after;
    assert cmd == verb + " " + target + " " + rest;
    WordsOfLine(verb, target, rest);
  }

  lemma LeadText(verb: string, target: string, head: string, tail: string)
    requires ':' !in verb
    ensures TextOf(Lead(verb, target, head) + tail) == head + tail <==> ':' !in target
  {
    Associative(verb + " " + target + " :", head, tail);
    TextOfLine(verb, target, head + tail);
  }

  /** The trimmed line's words and text, for any verb and any solid head. */
  lemma LineRelayed(verb: string, target: string, head: string, tail: string, space: string, line: string)
    returns (cmd: string)
    requires IsWord(verb) && ':' !in verb && IsWord(target) && IsWord(head)
    requires forall i :: 0 <= i < |space| ==> IsWhitespace(space[i])
    requires line == Lead(verb, target, head) + tail + space
    ensures cmd == Trim(line) && Command(cmd, verb, target)
    ensures TextOf(cmd) == head + tail <==> ':' !in target && !EndsInWhitespace(tail)
  {
    var lead := Lead(verb, target, head);
    assert lead[0] == verb[0] && lead[|lead| - 1] == head[|head| - 1];
    var after := TrimmedLine(lead, tail, space, line);
    cmd := lead + after;
    LeadWords(verb, target, head, cmd, after);
    if EndsInWhitespace(tail) {
      TailText(head, tail);
      TrimmedTextDiffers(cmd, head + tail);
    } else {
      LeadText(verb, target, head, tail);
    }
  }

  lemma TailText(head: string, tail: string)
    requires EndsInWhitespace(tail)
    ensures EndsInWhitespace(head + tail)
  {
    assert (head + tail)[|head + tail| - 1] == tail[|tail| - 1];
  }

  lemma WireShape(target: string, f: Fragment)
    requires Printable(f)
    ensures Wire(target, f) == Lead("PRIVMSG", target, Header(f)) + f.chunk + CRLF
  {
    PrintParts(f);
    var lead := Lead("PRIVMSG", target, Header(f));
    assert "PRIVMSG" + " " == "PRIVMSG ";
    assert "PRIVMSG " + target + " :" + (Header(f) + f.chunk) == lead + f.chunk;
  }

  /** A fragment is relayed to its target with its text unchanged exactly when the
      target has no colon and the chunk does not end in white space. */
  lemma RelayedUnchangedIff(target: string, f: Fragment) returns (cmd: string, text: string)
    requires Printable(f) && IsWord(target)
    ensures cmd == Trim(Wire(target, f)) && cmd != ""
    ensures PrivmsgOf(cmd) == Some((target, text))
    ensures text == Print(f) <==> ':' !in target && !EndsInWhitespace(f.chunk)
  {
    WireShape(target, f);
    PrintParts(f);
    cmd := LineRelayed("PRIVMSG", target, Header(f), f.chunk, CRLF, Wire(target, f));
    text := TextOf(cmd);
  }

  // ------------------------------------------------------------------
  // From the wire to the relay
  // ------------------------------------------------------------------

  /** The target and text relayed for the first line of what a client sent. */
  function FirstRelayed(stream: string): Option<(string, string)> {
    match Accept(ReadLine(stream).0)
    case None => None
    case Some(cmd) => PrivmsgOf(cmd)
  }

  lemma TrimmedLineHasNoFeed(line: string)
    requires line != "" && '\n' !in line[..|line| - 1]
    ensures '\n' !in Trim(line)
  {
    assert forall i :: 0 <= i < |line| - 1 ==> line[i] == line[..|line| - 1][i];
    StartHasNoFeed(line);
    EndHasNoFeed(TrimStart(line));
  }

  predicate FeedOnlyLast(s: string) { forall i :: 0 <= i < |s| - 1 ==> s[i] != '\n' }

  lemma {:induction false} StartHasNoFeed(line: string)
    requires FeedOnlyLast(line)
    ensures FeedOnlyLast(TrimStart(line))
  {
    if line != [] && IsWhitespace(line[0]) {
      assert forall i :: 0 <= i < |line| - 1 ==> line[1..][i] == line[i + 1];
      StartHasNoFeed(line[1..]);
    }
  }

  lemma EndHasNoFeed(start: string)
    requires FeedOnlyLast(start)
    ensures '\n' !in TrimEnd(start)
  {
    var cmd := TrimEnd(start);
    forall i | 0 <= i < |cmd| ensures cmd[i] != '\n' {
      assert cmd[i] == start[i];
    }
  }

  lemma CutLineIsOther(target: string, f: Fragment, rest: string)
    requires Printable(f) && '\n' in f.chunk
    ensures FirstRelayed(Wire(target, f) + rest) != Some((target, Print(f)))
  {
    PrintParts(f);
    var stream := Wire(target, f) + rest;
    assert stream[|Wire(target, f)| - 1] == '\n';
    var line := ReadLine(stream).0;
    var end := Find(stream, '\n').value;
    assert line[..|line| - 1] == stream[..end];
    TrimmedLineHasNoFeed(line);
    assert '\n' !in TextOf(Trim(line));
    assert '\n' in Print(f);
  }

  /** All together: the server relays a fragment to its target as it was sent exactly when
      it fits, its target has no colon, and its chunk has no line feed and does not end in
      white space. */
  lemma FragmentRelayedIff(target: string, f: Fragment, rest: string)
    requires Printable(f) && IsWord(target)
    ensures FirstRelayed(Wire(target, f) + rest) == Some((target, Print(f))) <==>
      && ByteLen(target) + |Decimal(f.number)| + |Decimal(f.total)| + ByteLen(f.chunk) <= 483
      && ':' !in target && '\n' !in f.chunk && !EndsInWhitespace(f.chunk)
  {
    if '\n' in f.chunk {
      CutLineIsOther(target, f, rest);
    } else {
      WireIsOneLine(target, f, rest);
      FragmentAcceptedIffFits(target, f);
      var _, _ := RelayedUnchangedIff(target, f);
    }
  }
}
