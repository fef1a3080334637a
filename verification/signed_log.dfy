/** The signed message log: per-channel lists kept sorted and free of repeated ids in
    memory, and an append-only file per channel name. */
module SignedLog {
  import opened Text
  import opened Canonical
  import opened StableSort

  type History = seq<SignedMessage>

  // ------------------------------------------------------------------
  // One channel's list
  // ------------------------------------------------------------------

  predicate HasId(list: seq<SignedMessage>, id: string) {
    exists m :: m in list && m.id == id
  }

  /** One append's effect on the list: known ids are ignored, the rest is pushed and sorted. */
  function Push(list: seq<SignedMessage>, m: SignedMessage): seq<SignedMessage> {
    if HasId(list, m.id) then list else Sort(list + [m])
  }

  /** The first message of each id, in order of arrival. */
  function FirstById(h: History): (r: seq<SignedMessage>)
    ensures |r| <= |h|
    ensures forall m :: m in r ==> m in h
  {
    if h == [] then []
    else
      var first, m := FirstById(h[..|h| - 1]), h[|h| - 1];
      if HasId(first, m.id) then first else first + [m]
  }

  /** What was appended to a channel, in order. */
  function ForChannel(h: History, channel: string): (r: History)
    ensures |r| <= |h|
    ensures forall m :: m in r <==> m in h && m.channel == channel
  {
    if h == [] then []
    else
      var before, m := ForChannel(h[..|h| - 1], channel), h[|h| - 1];
      if m.channel == channel then before + [m] else before
  }

  /** Those are exactly the channel's messages in the order they were appended. */
  lemma {:induction false} ChannelPicks(h: History, channel: string, chosen: nat -> bool) returns (at: seq<nat>)
    requires forall i: nat :: i < |h| ==> chosen(i) == (h[i].channel == channel)
    ensures Picks(h, ForChannel(h, channel), at, chosen)
  {
    if h == [] {
      at := [];
    } else {
      var n := |h| - 1;
      var before := ChannelPicks(h[..n], channel, chosen);
      at := PicksLast(h, ForChannel(h[..n], channel), before, chosen, ForChannel(h, channel));
    }
  }

  lemma {:induction false} FirstIds(h: History)
    ensures forall id :: HasId(FirstById(h), id) <==> HasId(h, id)
  {
    if h != [] {
      var before, m := h[..|h| - 1], h[|h| - 1];
      FirstIds(before);
      assert forall x :: x in h <==> x in before || x == m;
      assert forall x :: x in FirstById(h) <==> x in FirstById(before) || (x == m && !HasId(FirstById(before), m.id));
      forall id ensures HasId(FirstById(h), id) <==> HasId(h, id) {
        assert HasId(FirstById(before), id) <==> HasId(before, id);
      }
    }
  }

  /** And of these, exactly those whose id none before them has. */
  lemma {:induction false} FirstByIdPicks(h: History, chosen: nat -> bool) returns (at: seq<nat>)
    requires forall i: nat :: i < |h| ==> chosen(i) == forall j :: 0 <= j < i ==> h[j].id != h[i].id
    ensures Picks(h, FirstById(h), at, chosen)
  {
    if h == [] {
      at := [];
    } else {
      var n := |h| - 1;
      var before := FirstByIdPicks(h[..n], chosen);
      FirstIds(h[..n]);
      assert HasId(h[..n], h[n].id) <==> exists j :: 0 <= j < n && h[..n][j].id == h[n].id;
      at := PicksLast(h, FirstById(h[..n]), before, chosen, FirstById(h));
    }
  }

  /** What a channel's list should be after a history of appends. */
  function Expected(h: History, channel: string): seq<SignedMessage> {
    Sort(FirstById(ForChannel(h, channel)))
  }

  lemma ForChannelPush(h: History, m: SignedMessage, channel: string)
    ensures ForChannel(h + [m], channel) == if m.channel == channel then ForChannel(h, channel) + [m] else ForChannel(h, channel)
  {
    assert (h + [m])[..|h|] == h;
  }

  lemma FirstByIdPush(h: History, m: SignedMessage)
    ensures FirstById(h + [m]) == if HasId(FirstById(h), m.id) then FirstById(h) else FirstById(h) + [m]
  {
    assert (h + [m])[..|h|] == h;
  }

  /** Pushing and sorting one by one, with the id check against the sorted list, is
      sorting the de-duplicated history once. */
  lemma PushIsExpected(h: History, m: SignedMessage, channel: string)
    ensures Expected(h + [m], channel) == if m.channel == channel then Push(Expected(h, channel), m) else Expected(h, channel)
  {
    ForChannelPush(h, m, channel);
    if m.channel == channel {
      var mine := ForChannel(h, channel);
      FirstByIdPush(mine, m);
      assert HasId(Sort(FirstById(mine)), m.id) <==> HasId(FirstById(mine), m.id);
      SortAfterPush(FirstById(mine), m);
    }
  }

  // ------------------------------------------------------------------
  // Files
  // ------------------------------------------------------------------

  /** The JSON library's writer and reader for one message. */
  datatype Codec = Codec(write: SignedMessage -> string, read: string -> Option<SignedMessage>)

  /** What is used of the library: reading back what was written, on one line that ends
      in no carriage return. */
  ghost predicate CodecOk(codec: Codec) {
    forall m ::
      && codec.read(codec.write(m)) == Some(m)
      && codec.write(m) != "" && '\n' !in codec.write(m)
      && codec.write(m)[|codec.write(m)| - 1] != '\r'
  }

  predicate Unsafe(c: char) { c in "/\\:*?\"<>|" }

  /** The file name of a channel: several channels can share one. */
  function FileName(channel: string): (r: string)
    ensures |r| == |channel|
  {
    seq(|channel|, i requires 0 <= i < |channel| => if Unsafe(channel[i]) then '_' else channel[i])
  }

  /** Two channels share a file exactly when they differ only where both have one of the
      nine characters that file names avoid, or an underscore. */
  lemma SameFileIff(a: string, b: string)
    ensures FileName(a) == FileName(b) <==>
      |a| == |b| && forall i :: 0 <= i < |a| ==>
        a[i] == b[i] || (a[i] in "_/\\:*?\"<>|" && b[i] in "_/\\:*?\"<>|")
    ensures forall i :: 0 <= i < |a| ==> FileName(a)[i] !in "/\\:*?\"<>|" && (a[i] !in "/\\:*?\"<>|" ==> FileName(a)[i] == a[i])
  {
    forall i | 0 <= i < |a| && i < |b|
      ensures FileName(a)[i] == FileName(b)[i] <==>
        a[i] == b[i] || (a[i] in "_/\\:*?\"<>|" && b[i] in "_/\\:*?\"<>|")
    {
    }
  }

  /** What was appended through one file, in order. */
  function InFile(h: History, file: string): (r: History)
    ensures forall m :: m in r <==> m in h && FileName(m.channel) == file
  {
    if h == [] then []
    else
      var before, m := InFile(h[..|h| - 1], file), h[|h| - 1];
      if FileName(m.channel) == file then before + [m] else before
  }

  /** The text of a file written message by message. */
  function FileText(codec: Codec, h: History): string {
    if h == [] then "" else FileText(codec, h[..|h| - 1]) + codec.write(h[|h| - 1]) + "\n"
  }

  function StripCr(line: string): string {
    if line != "" && line[|line| - 1] == '\r' then line[..|line| - 1] else line
  }

  /** `str::lines` without the empty ones. */
  function Lines(text: string): seq<string>
    decreases |text|
  {
    match Find(text, '\n')
    case None => if text == "" then [] else [text]
    case Some(i) =>
      var line := StripCr(text[..i]);
      (if line == "" then [] else [line]) + Lines(text[i + 1..])
  }

  /** The lines that parse. */
  function Parsed(codec: Codec, lines: seq<string>): seq<SignedMessage> {
    if lines == [] then []
    else
      (match codec.read(lines[0]) case Some(m) => [m] case None => []) + Parsed(codec, lines[1..])
  }

  function Load(codec: Codec, text: string): seq<SignedMessage> { Sort(Parsed(codec, Lines(text))) }

  /** A carriage return before the line feed makes no difference, and an empty line none
      at all. */
  lemma LineEndings(line: string, rest: string)
    requires '\n' !in line && (line == "" || line[|line| - 1] != '\r')
    ensures Lines(line + "\r\n" + rest) == Lines(line + "\n" + rest)
    ensures line == "" ==> Lines(line + "\n" + rest) == Lines(rest)
  {
    FirstLineOf(line + "\r", rest);
    FirstLineOf(line, rest);
    assert (line + "\r")[..|line|] == line;
    assert line + "\r\n" + rest == line + "\r" + ['\n'] + rest;
    assert line + "\n" + rest == line + ['\n'] + rest;
  }

  lemma FirstLineOf(before: string, rest: string)
    requires '\n' !in before
    ensures Lines(before + ['\n'] + rest) == (if StripCr(before) == "" then [] else [StripCr(before)]) + Lines(rest)
  {
    var text := before + ['\n'] + rest;
    FindAfter(before, '\n', rest);
    assert text[..|before|] == before && text[|before| + 1..] == rest;
  }

  /** The messages are those of the lines that parse, in order. */
  lemma {:induction false} ParsedPicks(codec: Codec, lines: seq<string>, chosen: nat -> bool)
      returns (good: seq<string>, at: seq<nat>)
    requires forall i: nat :: i < |lines| ==> chosen(i) == codec.read(lines[i]).Some?
    ensures Picks(lines, good, at, chosen) && |good| == |Parsed(codec, lines)|
    ensures forall k :: 0 <= k < |good| ==> codec.read(good[k]) == Some(Parsed(codec, lines)[k])
    decreases |lines|
  {
    if lines == [] {
      good, at := [], [];
    } else {
      var n := |lines| - 1;
      var goodBefore, before := ParsedPicks(codec, lines[..n], chosen);
      at := PicksMore(lines[..n], goodBefore, before, chosen, lines[n]);
      good := goodBefore + if chosen(n) then [lines[n]] else [];
      assert lines == lines[..n] + [lines[n]];
      ParsedConcat(codec, lines[..n], [lines[n]]);
      assert [lines[n]][1..] == [];
    }
  }

  lemma {:induction false} ParsedConcat(codec: Codec, x: seq<string>, y: seq<string>)
    ensures Parsed(codec, x + y) == Parsed(codec, x) + Parsed(codec, y)
    decreases |x|
  {
    if x == [] {
      assert x + y == y;
    } else {
      assert (x + y)[1..] == x[1..] + y;
      ParsedConcat(codec, x[1..], y);
      Associative(match codec.read(x[0]) case Some(m) => [m] case None => [], Parsed(codec, x[1..]), Parsed(codec, y));
    }
  }

  lemma FirstLine(line: string, rest: string)
    requires line != "" && '\n' !in line && line[|line| - 1] != '\r'
    ensures Lines(line + "\n" + rest) == [line] + Lines(rest)
  {
    FirstLineOf(line, rest);
  }

  lemma FirstMessage(codec: Codec, m: SignedMessage, rest: string)
    requires CodecOk(codec)
    ensures Parsed(codec, Lines(codec.write(m) + "\n" + rest)) == [m] + Parsed(codec, Lines(rest))
  {
    FirstLine(codec.write(m), rest);
    assert ([codec.write(m)] + Lines(rest))[1..] == Lines(rest);
  }

  lemma {:induction false} LinesBehind(codec: Codec, h: History, rest: string)
    requires CodecOk(codec)
    ensures Parsed(codec, Lines(FileText(codec, h) + rest)) == h + Parsed(codec, Lines(rest))
    decreases |h|
  {
    if h == [] {
      assert FileText(codec, h) + rest == rest;
    } else {
      var before, m := h[..|h| - 1], h[|h| - 1];
      var line := codec.write(m);
      Associative(FileText(codec, before), line, "\n");
      Associative(FileText(codec, before), line + "\n", rest);
      LinesBehind(codec, before, line + "\n" + rest);
      FirstMessage(codec, m, rest);
      Associative(before, [m], Parsed(codec, Lines(rest)));
      assert h == before + [m];
    }
  }

  /** What was written to a file is read back, in order. */
  lemma FileReadsBack(codec: Codec, h: History)
    requires CodecOk(codec)
    ensures Parsed(codec, Lines(FileText(codec, h))) == h
  {
    LinesBehind(codec, h, "");
    assert FileText(codec, h) + "" == FileText(codec, h);
    assert h + Parsed(codec, Lines("")) == h;
  }

  // ------------------------------------------------------------------
  // When loading gives back the list in memory
  // ------------------------------------------------------------------

  predicate NoRepeatedId(h: History) {
    forall i, j :: 0 <= i < j < |h| ==> h[i].id != h[j].id
  }

  lemma {:induction false} FirstByIdKeepsIds(h: History)
    ensures forall m :: m in h ==> HasId(FirstById(h), m.id)
    ensures NoRepeatedId(FirstById(h))
  {
    if h != [] {
      var before, m := h[..|h| - 1], h[|h| - 1];
      FirstByIdKeepsIds(before);
      assert forall x :: x in h <==> x in before || x == m;
      if !HasId(FirstById(before), m.id) {
        assert FirstById(h) == FirstById(before) + [m];
        assert m in FirstById(h);
        assert forall x | x in FirstById(before) :: x in FirstById(h) && x.id != m.id;
      }
    }
  }

  lemma NoRepeatPush(h: History, m: SignedMessage)
    ensures NoRepeatedId(h + [m]) <==> NoRepeatedId(h) && !HasId(h, m.id)
  {
    var r := h + [m];
    assert forall i | 0 <= i < |h| :: r[i] == h[i] && h[i] in h;
    if NoRepeatedId(r) {
      assert forall i | 0 <= i < |h| :: r[i].id != r[|h|].id;
    }
  }

  /** Nothing is dropped exactly when no id repeats. */
  lemma {:induction false} NothingDropped(h: History)
    ensures |FirstById(h)| == |h| <==> NoRepeatedId(h)
    ensures NoRepeatedId(h) ==> FirstById(h) == h
  {
    if h != [] {
      var before, m := h[..|h| - 1], h[|h| - 1];
      NothingDropped(before);
      NoRepeatPush(before, m);
      assert h == before + [m];
    }
  }

  predicate FileNotShared(h: History, channel: string) {
    forall m :: m in h && FileName(m.channel) == FileName(channel) ==> m.channel == channel
  }

  lemma {:induction false} SharedFileIsLonger(h: History, channel: string)
    ensures |ForChannel(h, channel)| <= |InFile(h, FileName(channel))|
    ensures |ForChannel(h, channel)| == |InFile(h, FileName(channel))| <==> FileNotShared(h, channel)
    ensures FileNotShared(h, channel) ==> ForChannel(h, channel) == InFile(h, FileName(channel))
  {
    if h != [] {
      var before, m := h[..|h| - 1], h[|h| - 1];
      SharedFileIsLonger(before, channel);
      assert forall x :: x in h <==> x in before || x == m;
    }
  }

  /** `load_channel` rebuilds exactly the list that was in memory if and only if no id
      was appended to the channel twice and no other channel used its file. */
  lemma LoadRebuildsIff(codec: Codec, h: History, channel: string)
    requires CodecOk(codec)
    ensures Load(codec, FileText(codec, InFile(h, FileName(channel)))) == Expected(h, channel)
       <==> NoRepeatedId(ForChannel(h, channel)) && FileNotShared(h, channel)
  {
    var file := InFile(h, FileName(channel));
    FileReadsBack(codec, file);
    SharedFileIsLonger(h, channel);
    NothingDropped(ForChannel(h, channel));
    assert |Sort(file)| == |file|;
  }

  // ------------------------------------------------------------------
  // The log updated in place
  // ------------------------------------------------------------------

  function ListOf(messages: map<string, seq<SignedMessage>>, channel: string): seq<SignedMessage> {
    if channel in messages then messages[channel] else []
  }

  function TextOf(files: map<string, string>, file: string): string {
    if file in files then files[file] else ""
  }

  function Since(list: seq<SignedMessage>, since: int): (r: seq<SignedMessage>)
    ensures forall m :: m in r <==> m in list && m.timestamp > since
  {
    if list == [] then []
    else
      var before, m := Since(list[..|list| - 1], since), list[|list| - 1];
      if m.timestamp > since then before + [m] else before
  }

  /** Exactly the messages after the time, in order. */
  lemma {:induction false} SincePicks(list: seq<SignedMessage>, since: int, chosen: nat -> bool) returns (at: seq<nat>)
    requires forall i: nat :: i < |list| ==> chosen(i) == (list[i].timestamp > since)
    ensures Picks(list, Since(list, since), at, chosen)
  {
    if list == [] {
      at := [];
    } else {
      var n := |list| - 1;
      var before := SincePicks(list[..n], since, chosen);
      at := PicksLast(list, Since(list[..n], since), before, chosen, Since(list, since));
    }
  }

  ghost predicate MemoryMatches(messages: map<string, seq<SignedMessage>>, h: History) {
    forall channel :: ListOf(messages, channel) == Expected(h, channel)
  }

  ghost predicate FilesMatch(codec: Codec, files: map<string, string>, h: History) {
    forall file ::
      && TextOf(files, file) == FileText(codec, InFile(h, file))
      && (file in files <==> InFile(h, file) != [])
  }

  lemma MemoryAfterAppend(messages: map<string, seq<SignedMessage>>, h: History, m: SignedMessage)
    requires MemoryMatches(messages, h)
    ensures MemoryMatches(messages[m.channel := Push(ListOf(messages, m.channel), m)], h + [m])
  {
    var messages' := messages[m.channel := Push(ListOf(messages, m.channel), m)];
    forall channel
      ensures ListOf(messages', channel) == Expected(h + [m], channel)
    {
      PushIsExpected(h, m, channel);
    }
  }

  lemma FilesAfterAppend(codec: Codec, files: map<string, string>, h: History, m: SignedMessage)
    requires FilesMatch(codec, files, h)
    ensures var file := FileName(m.channel);
      FilesMatch(codec, files[file := TextOf(files, file) + codec.write(m) + "\n"], h + [m])
  {
    assert (h + [m])[..|h|] == h;
    forall f
      ensures InFile(h + [m], f) == if f == FileName(m.channel) then InFile(h, f) + [m] else InFile(h, f)
      ensures FileText(codec, InFile(h, f) + [m]) == FileText(codec, InFile(h, f)) + codec.write(m) + "\n"
    {
      var before := InFile(h, f);
      assert (before + [m])[..|before|] == before;
    }
  }

  class MessageLog {
    const codec: Codec
    var messages: map<string, seq<SignedMessage>>
    var files: map<string, string>
    ghost var history: History

    /** The files hold what was ever appended through them, by this log and those before it. */
    ghost predicate FilesOk()
      reads this
    {
      FilesMatch(codec, files, history)
    }

    /** The channel's list is what some appends make of it. */
    ghost predicate ServesSince(since: History, channel: string)
      reads this
    {
      ListOf(messages, channel) == Expected(since, channel)
    }

    /** The channel's list is what all appends make of it. */
    ghost predicate Serves(channel: string)
      reads this
    {
      ServesSince(history, channel)
    }

    /** The log is what its history of appends to an empty log leaves. */
    ghost predicate Valid()
      reads this
    {
      FilesOk() && forall channel :: Serves(channel)
    }

    constructor (codec: Codec)
      ensures Valid() && this.codec == codec && history == [] && messages == map[] && files == map[]
    {
      this.codec := codec;
      messages, files, history := map[], map[], [];
    }

    /** `append`: the file first, which may fail; then the list. A channel that was served
        before is served after. */
    method Append(m: SignedMessage, writable: bool) returns (ok: bool)
      requires FilesOk()
      modifies this
      ensures FilesOk() && ok == writable
      ensures history == if ok then old(history) + [m] else old(history)
      ensures messages ==
        if ok then old(messages)[m.channel := Push(ListOf(old(messages), m.channel), m)] else old(messages)
      ensures forall channel :: old(Serves(channel)) ==> Serves(channel)
    {
      if !writable {
        return false;
      }
      var file := FileName(m.channel);
      FilesAfterAppend(codec, files, history, m);
      files := files[file := TextOf(files, file) + codec.write(m) + "\n"];
      var list := ListOf(messages, m.channel);
      if !HasId(list, m.id) {
        list := list + [m];
        list := Sort(list);
      }
      forall channel
        ensures Expected(history + [m], channel) ==
          if m.channel == channel then Push(Expected(history, channel), m) else Expected(history, channel)
      {
        PushIsExpected(history, m, channel);
      }
      messages := messages[m.channel := list];
      history := history + [m];
      return true;
    }

    /** `load_channel` into this log from files that some log left behind. */
    method LoadChannel(channel: string)
      modifies this`messages
      ensures messages == if FileName(channel) in files
                          then old(messages)[channel := Load(codec, files[FileName(channel)])]
                          else old(messages)
    {
      var file := FileName(channel);
      if file !in files {
        return;
      }
      var loaded := Parsed(codec, Lines(files[file]));
      loaded := Sort(loaded);
      messages := messages[channel := loaded];
    }

    method MessagesSince(channel: string, since: int) returns (r: seq<SignedMessage>)
      ensures r == Since(ListOf(messages, channel), since)
    {
      r := [];
      var list := ListOf(messages, channel);
      var i := 0;
      while i < |list|
        invariant 0 <= i <= |list|
        invariant r == Since(list[..i], since)
      {
        assert list[..i + 1][..i] == list[..i];
        if list[i].timestamp > since {
          r := r + [list[i]];
        }
        i := i + 1;
      }
      assert list[..i] == list;
    }
  }

  // ------------------------------------------------------------------
  // A second start
  // ------------------------------------------------------------------

  /** A fresh log over the files of a first one. */
  method Reopen(first: MessageLog) returns (second: MessageLog)
    requires first.FilesOk()
    ensures fresh(second) && second.codec == first.codec && second.FilesOk()
    ensures second.history == first.history && second.messages == map[] && second.files == first.files
  {
    second := new MessageLog(first.codec);
    second.files, second.history := first.files, first.history;
  }

  /** What a channel's list is after loading it. */
  lemma LoadedIff(codec: Codec, files: map<string, string>, h: History, channel: string)
    requires FilesMatch(codec, files, h) && CodecOk(codec)
    ensures var list := if FileName(channel) in files then Load(codec, files[FileName(channel)]) else [];
      list == Expected(h, channel) <==> NoRepeatedId(ForChannel(h, channel)) && FileNotShared(h, channel)
  {
    LoadRebuildsIff(codec, h, channel);
    var file := FileName(channel);
    assert TextOf(files, file) == FileText(codec, InFile(h, file));
    if file !in files {
      NothingInFile(h, channel);
    }
  }

  /** If it loads a channel, it has the list the first one had exactly under the condition
      above. */
  method Restart(first: MessageLog, channel: string) returns (second: MessageLog)
    requires first.FilesOk() && CodecOk(first.codec)
    ensures fresh(second) && second.codec == first.codec && second.FilesOk() && second.history == first.history
    ensures second.Serves(channel) <==>
      NoRepeatedId(ForChannel(first.history, channel)) && FileNotShared(first.history, channel)
  {
    second := Reopen(first);
    LoadedIff(first.codec, first.files, first.history, channel);
    second.LoadChannel(channel);
  }

  lemma NothingInFile(h: History, channel: string)
    requires InFile(h, FileName(channel)) == []
    ensures Expected(h, channel) == [] && NoRepeatedId(ForChannel(h, channel)) && FileNotShared(h, channel)
  {
    SharedFileIsLonger(h, channel);
  }

  /** One append, to a log whose list of a channel is what the appends since some moment
      make of it. */
  method AppendOne(log: MessageLog, m: SignedMessage, ghost since: History, ghost channel: string)
    requires log.FilesOk() && log.ServesSince(since, channel)
    modifies log
    ensures log.FilesOk() && log.history == old(log.history) + [m] && log.ServesSince(since + [m], channel)
  {
    PushIsExpected(since, m, channel);
    var _ := log.Append(m, true);
  }

  /** Appends one after another. */
  method AppendAll(log: MessageLog, later: seq<SignedMessage>, ghost since: History, ghost channel: string)
    requires log.FilesOk() && log.ServesSince(since, channel)
    modifies log
    ensures log.FilesOk() && log.history == old(log.history) + later && log.ServesSince(since + later, channel)
    decreases |later|
  {
    if later == [] {
      assert log.history + later == log.history && since + later == since;
    } else {
      AppendOne(log, later[0], since, channel);
      RestAfter(old(log.history), later);
      RestAfter(since, later);
      AppendAll(log, later[1..], since + [later[0]], channel);
    }
  }

  lemma RestAfter<T>(h: seq<T>, later: seq<T>)
    requires later != []
    ensures h + [later[0]] + later[1..] == h + later
  {
  }

  /** A restarted log that loaded a channel goes on as the first one would have: after any
      later appends its list is that of everything before and after. */
  method GoOn(first: MessageLog, channel: string, later: seq<SignedMessage>) returns (second: MessageLog)
    requires first.FilesOk() && CodecOk(first.codec)
    requires NoRepeatedId(ForChannel(first.history, channel)) && FileNotShared(first.history, channel)
    ensures fresh(second) && second.FilesOk() && second.history == first.history + later && second.Serves(channel)
  {
    second := Restart(first, channel);
    AppendAll(second, later, second.history, channel);
  }

  /** One that loads nothing, as the program does it, has the later messages only, whatever
      the channel, while its files go on. */
  method GoOnUnloaded(first: MessageLog, later: seq<SignedMessage>, ghost channel: string) returns (second: MessageLog)
    requires first.FilesOk()
    ensures fresh(second) && second.FilesOk() && second.history == first.history + later
    ensures ListOf(second.messages, channel) == Expected(later, channel)
  {
    second := Reopen(first);
    AppendAll(second, later, [], channel);
    assert [] + later == later;
  }

  /** So a message that such a log gets again from a peer is in its file twice, and loading
      that file would not give the expected list. */
  lemma SyncedAgainLoadsTwice(codec: Codec, h: History, m: SignedMessage)
    requires CodecOk(codec) && m in h
    ensures Load(codec, FileText(codec, InFile(h + [m], FileName(m.channel)))) != Expected(h + [m], m.channel)
  {
    LoadRebuildsIff(codec, h + [m], m.channel);
    ForChannelPush(h, m, m.channel);
    NoRepeatPush(ForChannel(h, m.channel), m);
    assert m in ForChannel(h, m.channel);
  }
}
