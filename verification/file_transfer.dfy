/** Files over a peer's data channel, which is ordered and reliable: what `send_file`
    sends and what the receiving handler makes of it. */
module FileTransfer {
  import opened Text
  import opened Bytes

  const CHUNK := 16384
  const HEADER := "FILE:"
  const END := "FILE_END"

  datatype Msg = Text(text: string) | Binary(data: seq<byte>)

  datatype File = File(name: string, data: seq<byte>)

  // ------------------------------------------------------------------
  // Splitting at the last colon
  // ------------------------------------------------------------------

  /** `str::rsplit_once` with a character pattern. */
  function RSplitOnce(s: string, c: char): (r: Option<(string, string)>)
    ensures r.None? <==> c !in s
    ensures r.Some? ==> s == r.value.0 + [c] + r.value.1 && c !in r.value.1
  {
    if s == [] then None
    else
      var last := |s| - 1;
      if s[last] == c then Some((s[..last], []))
      else
        match RSplitOnce(s[..last], c)
        case None => None
        case Some((a, b)) =>
          Associative(a + [c], b, [s[last]]);
          Some((a, b + [s[last]]))
  }

  lemma {:induction false} SplitsAtLast(a: string, c: char, b: string)
    requires c !in b
    ensures RSplitOnce(a + [c] + b, c) == Some((a, b))
    decreases |b|
  {
    if b == [] {
      assert a + [c] + b == a + [c];
    } else {
      var before, last := b[..|b| - 1], b[|b| - 1];
      assert b == before + [last];
      Associative(a + [c], before, [last]);
      SplitsAtLast(a, c, before);
      LastOther(a + [c] + before, last, c);
    }
  }

  lemma LastOther(s: string, last: char, c: char)
    requires last != c && RSplitOnce(s, c).Some?
    ensures RSplitOnce(s + [last], c) == Some((RSplitOnce(s, c).value.0, RSplitOnce(s, c).value.1 + [last]))
  {
    assert (s + [last])[..|s|] == s;
  }

  // ------------------------------------------------------------------
  // Sending
  // ------------------------------------------------------------------

  function Chunks(data: seq<byte>): seq<Msg> {
    if data == [] then []
    else
      var n := if |data| < CHUNK then |data| else CHUNK;
      [Binary(data[..n])] + Chunks(data[n..])
  }

  function HeaderText(f: File): string { HEADER + f.name + ":" + Decimal(|f.data|) }

  function Transfer(f: File): seq<Msg> {
    [Text(HeaderText(f))] + Chunks(f.data) + [Text(END)]
  }

  function Transfers(files: seq<File>): seq<Msg> {
    if files == [] then [] else Transfer(files[0]) + Transfers(files[1..])
  }

  /** The k-th piece are the 16384 bytes from there on, or what is left of them; there are
      just as many pieces as that takes. */
  lemma {:induction false} ChunksAre(data: seq<byte>, k: nat)
    ensures k < |Chunks(data)| <==> 16384 * k < |data|
    ensures k < |Chunks(data)| ==>
      Chunks(data)[k] == Binary(data[16384 * k..if 16384 * (k + 1) < |data| then 16384 * (k + 1) else |data|])
    decreases |data|
  {
    if data != [] && k > 0 {
      var n := if |data| < CHUNK then |data| else CHUNK;
      ChunksAre(data[n..], k - 1);
    }
  }

  /** What goes over the channel for a file: the header, the pieces, the end. */
  lemma TransferIs(f: File, k: nat)
    requires k < |Transfer(f)|
    ensures |Transfer(f)| == 2 + (|f.data| + 16383) / 16384
    ensures Transfer(f)[k] ==
      if k == 0 then Text("FILE:" + f.name + ":" + Decimal(|f.data|))
      else if k == |Transfer(f)| - 1 then Text("FILE_END")
      else Binary(f.data[16384 * (k - 1)..if 16384 * k < |f.data| then 16384 * k else |f.data|])
  {
    var pieces := (|f.data| + 16383) / 16384;
    ChunksAre(f.data, pieces);
    if pieces > 0 {
      ChunksAre(f.data, pieces - 1);
    }
    if 0 < k < |Transfer(f)| - 1 {
      ChunksAre(f.data, k - 1);
    }
  }

  method SendFile(name: string, data: seq<byte>) returns (sent: seq<Msg>)
    ensures sent == Transfer(File(name, data))
  {
    var header := Text(HEADER + name + ":" + Decimal(|data|));
    sent := [header];
    var rest := data;
    while rest != []
      invariant [header] + Chunks(data) == sent + Chunks(rest)
      decreases |rest|
    {
      var n := if |rest| < CHUNK then |rest| else CHUNK;
      Associative(sent, [Binary(rest[..n])], Chunks(rest[n..]));
      sent := sent + [Binary(rest[..n])];
      rest := rest[n..];
    }
    assert sent + Chunks([]) == sent;
    sent := sent + [Text(END)];
  }

  // ------------------------------------------------------------------
  // Receiving
  // ------------------------------------------------------------------

  /** The name and announced size of a header; a size that does not parse counts as 0. */
  function ReadHeader(m: Msg): Option<(string, nat)> {
    if m.Binary? then None
    else
      match StripPrefix(m.text, HEADER)
      case None => None
      case Some(rest) =>
        match RSplitOnce(rest, ':')
        case None => None
        case Some((name, size)) =>
          Some((name, match ParseUsize(size) case Some(n) => n case None => 0))
  }

  predicate IsEnd(m: Msg) {
    m.Text? && StripPrefix(m.text, HEADER).None? && Trim(m.text) == END
  }

  /** A file under way; `reserved` is the capacity set aside for it. */
  datatype InFlight = InFlight(name: string, data: seq<byte>, reserved: nat)

  /** What the handler holds. A capacity that no allocation can have ends the task that
      reads the channel, and with it all handling. */
  datatype Holder = Idle | Filling(file: InFlight) | Stopped

  /** `isize::MAX + 1`: `Vec::with_capacity` panics from here on. */
  const CAPACITY_LIMIT: nat := 0x8000_0000_0000_0000

  predicate Fatal(m: Msg) { ReadHeader(m).Some? && ReadHeader(m).value.1 >= CAPACITY_LIMIT }

  function After(s: Holder, m: Msg): Holder {
    if s.Stopped? || Fatal(m) then Stopped
    else
      match ReadHeader(m)
      case Some((name, size)) => Filling(InFlight(name, [], size))
      case None =>
        if IsEnd(m) then Idle
        else if m.Binary? && s.Filling? then Filling(s.file.(data := s.file.data + m.data))
        else s
  }

  function Emits(s: Holder, m: Msg): seq<File> {
    if IsEnd(m) && s.Filling? then [File(s.file.name, s.file.data)] else []
  }

  function State(s: Holder, ms: seq<Msg>): Holder
    decreases |ms|
  {
    if ms == [] then s else State(After(s, ms[0]), ms[1..])
  }

  function Emitted(s: Holder, ms: seq<Msg>): seq<File>
    decreases |ms|
  {
    if ms == [] then [] else Emits(s, ms[0]) + Emitted(After(s, ms[0]), ms[1..])
  }

  class Receiver {
    var inFlight: Option<InFlight>
    var files: seq<File>
    var stopped: bool

    function Holds(): Holder
      reads this
    {
      if stopped then Stopped else if inFlight.Some? then Filling(inFlight.value) else Idle
    }

    constructor ()
      ensures Holds() == Idle && files == []
    {
      inFlight, files, stopped := None, [], false;
    }

    /** A new transfer begins, with as much capacity as it announces. */
    method Begin(name: string, sizeText: string)
      requires !stopped
      modifies this
      ensures var size := match ParseUsize(sizeText) case Some(n) => n case None => 0;
        Holds() == if size >= CAPACITY_LIMIT then Stopped else Filling(InFlight(name, [], size))
      ensures files == old(files)
    {
      var parsed := ParseUsize(sizeText);
      var size := if parsed.Some? then parsed.value else 0;
      if size >= CAPACITY_LIMIT {
        stopped := true;
      } else {
        inFlight := Some(InFlight(name, [], size));
      }
    }

    method Finish()
      requires !stopped
      modifies this
      ensures Holds() == if old(Holds()).Filling? then Idle else old(Holds())
      ensures files == old(files) + if old(Holds()).Filling? then [File(old(Holds()).file.name, old(Holds()).file.data)] else []
    {
      if inFlight.Some? {
        files := files + [File(inFlight.value.name, inFlight.value.data)];
        inFlight := None;
      } else {
        assert files + [] == files;
      }
    }

    /** The handler's body for one message. */
    method OnMessage(m: Msg)
      modifies this
      ensures Holds() == After(old(Holds()), m)
      ensures files == old(files) + Emits(old(Holds()), m)
    {
      assert files + [] == files;
      if stopped {
        return;
      }
      if m.Text? {
        var rest := StripPrefix(m.text, HEADER);
        if rest.Some? {
          var parts := RSplitOnce(rest.value, ':');
          if parts.Some? {
            Begin(parts.value.0, parts.value.1);
          }
        } else if Trim(m.text) == END {
          Finish();
        }
      } else if inFlight.Some? {
        inFlight := Some(inFlight.value.(data := inFlight.value.data + m.data));
      }
    }

    /** All messages of a channel, one after another. */
    method OnMessages(ms: seq<Msg>)
      modifies this
      ensures Holds() == State(old(Holds()), ms)
      ensures files == old(files) + Emitted(old(Holds()), ms)
    {
      for i := 0 to |ms|
        invariant State(old(Holds()), ms) == State(Holds(), ms[i..])
        invariant old(files) + Emitted(old(Holds()), ms) == files + Emitted(Holds(), ms[i..])
      {
        Associative(files, Emits(Holds(), ms[i]), Emitted(After(Holds(), ms[i]), ms[i + 1..]));
        OnMessage(ms[i]);
      }
      assert ms[|ms|..] == [];
    }
  }

  lemma {:induction false} RunsOn(s: Holder, x: seq<Msg>, y: seq<Msg>)
    ensures State(s, x + y) == State(State(s, x), y)
    ensures Emitted(s, x + y) == Emitted(s, x) + Emitted(State(s, x), y)
    decreases |x|
  {
    if x == [] {
      assert x + y == y;
    } else {
      assert x + y == [x[0]] + (x[1..] + y);
      RunsOn(After(s, x[0]), x[1..], y);
      Associative(Emits(s, x[0]), Emitted(After(s, x[0]), x[1..]), Emitted(State(s, x), y));
    }
  }

  lemma RunsOne(s: Holder, m: Msg)
    ensures State(s, [m]) == After(s, m) && Emitted(s, [m]) == Emits(s, m)
  {
    assert Emits(s, m) + [] == Emits(s, m);
  }

  // ------------------------------------------------------------------
  // Files arrive as they were sent
  // ------------------------------------------------------------------

  lemma DigitsHaveNoColon(s: string)
    requires AllDigits(s)
    ensures ':' !in s
  {
  }

  lemma HeaderOf(name: string, size: nat)
    requires size < U64_LIMIT
    ensures ReadHeader(Text(HEADER + name + ":" + Decimal(size))) == Some((name, size))
  {
    var rest := name + ":" + Decimal(size);
    var text := HEADER + name + ":" + Decimal(size);
    assert text == HEADER + rest;
    assert text[|HEADER|..] == rest;
    assert HEADER <= text;
    DigitsHaveNoColon(Decimal(size));
    SplitsAtLast(name, ':', Decimal(size));
    ParseDecimal(size);
  }

  /** A message is a header exactly when it is text that begins so and has another colon: the
      name goes up to the last one, and what follows that is the size, or no size at all. */
  lemma HeaderIff(m: Msg, name: string, size: nat)
    ensures ReadHeader(m) == Some((name, size)) <==> m.Text? && exists digits :: Heads(m.text, name, digits, size)
  {
    if ReadHeader(m) == Some((name, size)) {
      var digits := HeaderDigits(m);
    }
    if m.Text? {
      forall digits | Heads(m.text, name, digits, size) ensures ReadHeader(m) == Some((name, size)) {
        HeadsRead(m.text, name, digits, size);
      }
    }
  }

  lemma HeaderDigits(m: Msg) returns (digits: string)
    requires ReadHeader(m).Some?
    ensures m.Text? && Heads(m.text, ReadHeader(m).value.0, digits, ReadHeader(m).value.1)
  {
    var name := ReadHeader(m).value.0;
    digits := RSplitOnce(StripPrefix(m.text, HEADER).value, ':').value.1;
    Associative(HEADER, name + ":", digits);
    Associative(HEADER, name, ":");
  }

  lemma HeadsRead(text: string, name: string, digits: string, size: nat)
    requires Heads(text, name, digits, size)
    ensures ReadHeader(Text(text)) == Some((name, size))
  {
    var rest := name + ":" + digits;
    Associative(HEADER, name + ":", digits);
    Associative(HEADER, name, ":");
    DropFirst(HEADER, rest);
    SplitsAtLast(name, ':', digits);
  }

  predicate Heads(text: string, name: string, digits: string, size: nat) {
    && text == "FILE:" + name + ":" + digits && ':' !in digits
    && (ParseUsize(digits) == Some(size) || (ParseUsize(digits) == None && size == 0))
  }

  /** A header names the file and announces its size, whatever colons the name has. */
  lemma HeaderReadsBack(f: File)
    requires |f.data| < U64_LIMIT
    ensures ReadHeader(Text(HeaderText(f))) == Some((f.name, |f.data|))
  {
    HeaderOf(f.name, |f.data|);
  }

  lemma EndIsEnd()
    ensures IsEnd(Text(END)) && ReadHeader(Text(END)).None?
  {
    assert END[4] == '_' && HEADER[4] == ':';
    assert !(HEADER <= END);
    assert !IsWhitespace(END[0]) && !IsWhitespace(END[|END| - 1]);
  }

  /** A message ends a file exactly when it is text that says so, with nothing but white space
      around it. */
  lemma EndIff(m: Msg)
    ensures IsEnd(m) <==> m.Text? && exists before, after :: Surrounds(m.text, before, "FILE_END", after)
  {
    EndIsEnd();
    if m.Text? {
      TrimIff(m.text, END);
      if before, after :| Surrounds(m.text, before, END, after) {
        EndIsNoHeader(m.text, before, after);
      }
    }
  }

  lemma EndIsNoHeader(text: string, before: string, after: string)
    requires Surrounds(text, before, END, after)
    ensures !(HEADER <= text)
  {
    assert END[4] == '_' && HEADER[4] == ':' && HEADER[0] == 'F';
    assert before == "" ==> text[4] == END[4];
    assert before != "" ==> text[0] == before[0];
  }

  lemma {:induction false} ChunksAppend(f: InFlight, data: seq<byte>)
    ensures State(Filling(f), Chunks(data)) == Filling(f.(data := f.data + data))
    ensures Emitted(Filling(f), Chunks(data)) == []
    decreases |data|
  {
    if data == [] {
      assert f.data + data == f.data;
    } else {
      var n := if |data| < CHUNK then |data| else CHUNK;
      var first, rest := data[..n], data[n..];
      assert data == first + rest;
      Associative(f.data, first, rest);
      ChunksAppend(f.(data := f.data + first), rest);
      FirstChunk(f, first, rest);
    }
  }

  lemma FirstChunk(f: InFlight, first: seq<byte>, rest: seq<byte>)
    ensures State(Filling(f), [Binary(first)] + Chunks(rest)) == State(Filling(f.(data := f.data + first)), Chunks(rest))
    ensures Emitted(Filling(f), [Binary(first)] + Chunks(rest)) == Emitted(Filling(f.(data := f.data + first)), Chunks(rest))
  {
    RunsOn(Filling(f), [Binary(first)], Chunks(rest));
    RunsOne(Filling(f), Binary(first));
    var more := Emitted(Filling(f.(data := f.data + first)), Chunks(rest));
    assert [] + more == more;
  }

  lemma OpenTransfer(s: Holder, f: File)
    requires !s.Stopped? && |f.data| < CAPACITY_LIMIT
    ensures State(s, [Text(HeaderText(f))]) == Filling(InFlight(f.name, [], |f.data|))
    ensures Emitted(s, [Text(HeaderText(f))]) == []
  {
    HeaderReadsBack(f);
    RunsOne(s, Text(HeaderText(f)));
  }

  lemma FillTransfer(name: string, size: nat, data: seq<byte>)
    ensures var open := Filling(InFlight(name, [], size));
      State(open, Chunks(data)) == Filling(InFlight(name, data, size)) && Emitted(open, Chunks(data)) == []
  {
    ChunksAppend(InFlight(name, [], size), data);
    assert [] + data == data;
  }

  lemma CloseWith(f: InFlight, m: Msg)
    requires IsEnd(m) && ReadHeader(m).None?
    ensures State(Filling(f), [m]) == Idle && Emitted(Filling(f), [m]) == [File(f.name, f.data)]
  {
    RunsOne(Filling(f), m);
  }

  lemma CloseTransfer(f: InFlight)
    ensures State(Filling(f), [Text(END)]) == Idle
    ensures Emitted(Filling(f), [Text(END)]) == [File(f.name, f.data)]
  {
    EndIsEnd();
    CloseWith(f, Text(END));
  }

  lemma TransferArrives(s: Holder, f: File)
    requires !s.Stopped? && |f.data| < CAPACITY_LIMIT
    ensures State(s, Transfer(f)) == Idle && Emitted(s, Transfer(f)) == [f]
  {
    var header, body := [Text(HeaderText(f))], Chunks(f.data);
    OpenTransfer(s, f);
    RunsOn(s, header, body);
    FillTransfer(f.name, |f.data|, f.data);
    RunsOn(s, header + body, [Text(END)]);
    CloseTransfer(InFlight(f.name, f.data, |f.data|));
  }

  /** Files sent one after another arrive as the same list, in order, whatever their
      names and sizes and whatever an earlier transfer left unfinished. */
  lemma {:induction false} FilesArrive(s: Holder, files: seq<File>)
    requires !s.Stopped? && forall f :: f in files ==> |f.data| < 0x8000_0000_0000_0000
    ensures Emitted(s, Transfers(files)) == files
    ensures files != [] ==> State(s, Transfers(files)) == Idle
    decreases |files|
  {
    if files != [] {
      TransferArrives(s, files[0]);
      RunsOn(s, Transfer(files[0]), Transfers(files[1..]));
      assert forall f :: f in files[1..] ==> f in files;
      FilesArrive(Idle, files[1..]);
      assert files == [files[0]] + files[1..];
    }
  }

  lemma {:induction false} TransfersPush(files: seq<File>, f: File)
    ensures Transfers(files + [f]) == Transfers(files) + Transfer(f)
  {
    if files == [] {
      assert [f][1..] == [];
      assert Transfers([f]) == Transfer(f) + [];
    } else {
      assert (files + [f])[1..] == files[1..] + [f];
      TransfersPush(files[1..], f);
      Associative(Transfer(files[0]), Transfers(files[1..]), Transfer(f));
    }
  }

  /** Sender and receiver together: files sent one after another over one channel. */
  method Exchange(files: seq<File>) returns (receiver: Receiver)
    requires forall f :: f in files ==> |f.data| < CAPACITY_LIMIT
    ensures fresh(receiver) && receiver.files == files
  {
    receiver := new Receiver();
    var sent := [];
    for i := 0 to |files|
      invariant fresh(receiver) && receiver.Holds() == Idle && receiver.files == [] && sent == Transfers(files[..i])
    {
      var messages := SendFile(files[i].name, files[i].data);
      TransfersPush(files[..i], files[i]);
      assert files[..i + 1] == files[..i] + [files[i]];
      sent := sent + messages;
    }
    assert files[..|files|] == files;
    FilesArrive(Idle, files);
    receiver.OnMessages(sent);
  }

  lemma EmittedPrefix(s: Holder, ms: seq<Msg>, k: nat)
    requires k <= |ms|
    ensures Emitted(s, ms[..k]) <= Emitted(s, ms)
  {
    assert ms == ms[..k] + ms[k..];
    RunsOn(s, ms[..k], ms[k..]);
  }

  /** When the channel ends early, the receiver has a prefix of the files, each whole. */
  lemma CutFilesArePrefix(s: Holder, files: seq<File>, k: nat)
    requires !s.Stopped? && forall f :: f in files ==> |f.data| < CAPACITY_LIMIT
    requires k <= |Transfers(files)|
    ensures Emitted(s, Transfers(files)[..k]) <= files
  {
    FilesArrive(s, files);
    EmittedPrefix(s, Transfers(files), k);
  }

  // ------------------------------------------------------------------
  // Any messages at all
  // ------------------------------------------------------------------

  /** The bytes of the binary messages. */
  function Body(ms: seq<Msg>): seq<byte> {
    if ms == [] then [] else (if ms[0].Binary? then ms[0].data else []) + Body(ms[1..])
  }

  /** The last header or end among the messages is a header, and stands at `h`. */
  predicate OpensAt(ms: seq<Msg>, h: int) {
    && 0 <= h < |ms| && ReadHeader(ms[h]).Some?
    && Quiet(ms[h + 1..])
  }

  predicate Quiet(ms: seq<Msg>) {
    forall i :: 0 <= i < |ms| ==> ReadHeader(ms[i]).None? && !IsEnd(ms[i])
  }

  lemma {:induction false} QuietAppends(s: Holder, ms: seq<Msg>)
    requires Quiet(ms)
    ensures Emitted(s, ms) == []
    ensures State(s, ms) == if s.Filling? then Filling(s.file.(data := s.file.data + Body(ms))) else s
    decreases |ms|
  {
    if ms == [] {
      assert s.Filling? ==> s.file.data + [] == s.file.data;
    } else {
      assert ReadHeader(ms[0]).None?;
      QuietAppends(After(s, ms[0]), ms[1..]);
      if s.Filling? {
        Associative(s.file.data, if ms[0].Binary? then ms[0].data else [], Body(ms[1..]));
        assert s.file.data + [] == s.file.data;
      }
    }
  }

  predicate NoneFatal(ms: seq<Msg>) { forall i {:trigger Fatal(ms[i])} :: 0 <= i < |ms| ==> !Fatal(ms[i]) }

  /** Handling stops at the first header announcing more than can be allocated, and then
      nothing is handed over any more. */
  lemma {:induction false} StoppedIff(s: Holder, ms: seq<Msg>)
    ensures State(s, ms).Stopped? <==> s.Stopped? || !NoneFatal(ms)
    ensures s.Stopped? ==> Emitted(s, ms) == []
    decreases |ms|
  {
    if ms != [] {
      StoppedIff(After(s, ms[0]), ms[1..]);
      assert NoneFatal(ms) <==> !Fatal(ms[0]) && NoneFatal(ms[1..]) by {
        assert forall i :: 0 <= i < |ms| - 1 ==> ms[1..][i] == ms[i + 1];
        if !NoneFatal(ms) {
          var i :| 0 <= i < |ms| && Fatal(ms[i]);
          assert i > 0 ==> Fatal(ms[1..][i - 1]);
        }
        if !NoneFatal(ms[1..]) {
          var i :| 0 <= i < |ms[1..]| && Fatal(ms[1..][i]);
          assert Fatal(ms[i + 1]);
        }
      }
    }
  }

  /** Such a header, of any name: whatever follows it, no file is handed over. */
  lemma HugeHeaderStops(s: Holder, name: string, size: nat, ms: seq<Msg>)
    requires 0x8000_0000_0000_0000 <= size < 0x1_0000_0000_0000_0000
    ensures Emitted(s, [Text(HEADER + name + ":" + Decimal(size))] + ms) == []
  {
    HeaderOf(name, size);
    FatalStops(s, Text(HEADER + name + ":" + Decimal(size)), ms);
  }

  lemma FatalStops(s: Holder, m: Msg, ms: seq<Msg>)
    requires Fatal(m)
    ensures Emitted(s, [m] + ms) == []
  {
    StoppedIff(Stopped, ms);
    assert ([m] + ms)[1..] == ms;
  }

  lemma AnotherIs(ms: seq<Msg>, h: nat)
    requires h < |ms|
    ensures ms == ms[..h] + ([ms[h]] + ms[h + 1..])
  {
  }

  /** Behind its last header, and only until an end, the receiver holds the bytes of all
      binary messages since. */
  lemma HoldsSinceHeader(s: Holder, ms: seq<Msg>, h: int)
    requires OpensAt(ms, h) && !State(s, ms).Stopped?
    ensures var (name, size) := ReadHeader(ms[h]).value;
      State(s, ms) == Filling(InFlight(name, Body(ms[h + 1..]), size))
  {
    var before, behind := State(s, ms[..h]), ms[h + 1..];
    AnotherIs(ms, h);
    RunsOn(s, ms[..h], [ms[h]] + behind);
    RunsOn(before, [ms[h]], behind);
    RunsOne(before, ms[h]);
    QuietAppends(After(before, ms[h]), behind);
    assert [] + Body(behind) == Body(behind);
  }

  lemma QuietAppend(ms: seq<Msg>, last: Msg)
    requires Quiet(ms) && ReadHeader(last).None? && !IsEnd(last)
    ensures Quiet(ms + [last])
  {
    forall i | 0 <= i < |ms| + 1
      ensures ReadHeader((ms + [last])[i]).None? && !IsEnd((ms + [last])[i])
    {
      if i == |ms| {
        assert (ms + [last])[i] == last;
      } else {
        assert (ms + [last])[i] == ms[i];
      }
    }
  }

  lemma OpensBefore(before: seq<Msg>, last: Msg, h: int)
    requires ReadHeader(last).None? && !IsEnd(last)
    ensures OpensAt(before, h) ==> OpensAt(before + [last], h)
  {
    if OpensAt(before, h) {
      QuietAppend(before[h + 1..], last);
      assert (before + [last])[h + 1..] == before[h + 1..] + [last];
      assert (before + [last])[h] == before[h];
    }
  }

  lemma {:induction false} HoldsNothingElse(ms: seq<Msg>)
    requires forall h :: !OpensAt(ms, h)
    ensures !State(Idle, ms).Filling?
    decreases |ms|
  {
    if ms != [] {
      var before, last := ms[..|ms| - 1], ms[|ms| - 1];
      assert ms == before + [last];
      RunsOn(Idle, before, [last]);
      RunsOne(State(Idle, before), last);
      assert ms[|ms| - 1 + 1..] == [];
      assert !OpensAt(ms, |ms| - 1);
      if !IsEnd(last) {
        forall h: int ensures !OpensAt(before, h) {
          OpensBefore(before, last, h);
        }
        HoldsNothingElse(before);
      }
    }
  }

  /** In any sequence of messages, one of them hands over a file exactly when it is an
      end, no header before it announced more than can be allocated, and the last header
      or end before it is a header; the file then has that header's name and the bytes of
      all binary messages between the two. */
  lemma HandsOverIff(ms: seq<Msg>, m: Msg)
    ensures Emits(State(Idle, ms), m) != [] <==> IsEnd(m) && NoneFatal(ms) && exists h :: OpensAt(ms, h)
    ensures forall h :: IsEnd(m) && NoneFatal(ms) && OpensAt(ms, h) ==>
      Emits(State(Idle, ms), m) == [File(ReadHeader(ms[h]).value.0, Body(ms[h + 1..]))]
  {
    StoppedIff(Idle, ms);
    if NoneFatal(ms) {
      forall h | OpensAt(ms, h)
        ensures var (name, size) := ReadHeader(ms[h]).value;
          State(Idle, ms) == Filling(InFlight(name, Body(ms[h + 1..]), size))
      {
        HoldsSinceHeader(Idle, ms, h);
      }
      if forall h :: !OpensAt(ms, h) {
        HoldsNothingElse(ms);
      }
    }
  }

  // ------------------------------------------------------------------
  // Two transfers at once
  // ------------------------------------------------------------------

  /** The messages of one of two senders: `mine` says of each message whether it is. */
  function Pick(ms: seq<Msg>, mine: seq<bool>, who: bool): (r: seq<Msg>)
    requires |mine| == |ms|
  {
    if ms == [] then []
    else
      var n := |ms| - 1;
      Pick(ms[..n], mine[..n], who) + if mine[n] == who then [ms[n]] else []
  }

  /** `ms` interleaves the transfers of `f` and `g`, in any way that keeps each in order. */
  predicate Interleaves(ms: seq<Msg>, mine: seq<bool>, f: File, g: File) {
    |mine| == |ms| && Pick(ms, mine, true) == Transfer(f) && Pick(ms, mine, false) == Transfer(g)
  }

  /** Where in the interleaving the k-th message of one sender stands. */
  lemma {:induction false} PickedAt(ms: seq<Msg>, mine: seq<bool>, who: bool, k: nat) returns (n: nat)
    requires |mine| == |ms| && k < |Pick(ms, mine, who)|
    ensures n < |ms| && mine[n] == who && ms[n] == Pick(ms, mine, who)[k] && |Pick(ms[..n], mine[..n], who)| == k
  {
    var last := |ms| - 1;
    var before := Pick(ms[..last], mine[..last], who);
    if k < |before| {
      n := PickedAt(ms[..last], mine[..last], who, k);
      assert ms[..last][..n] == ms[..n] && mine[..last][..n] == mine[..n];
    } else {
      n := last;
    }
  }

  /** How many of a sender's messages come before a place says which of them stands there. */
  lemma {:induction false} PickedIs(ms: seq<Msg>, mine: seq<bool>, who: bool, n: nat)
    requires |mine| == |ms| && n < |ms| && mine[n] == who
    ensures var k := |Pick(ms[..n], mine[..n], who)|;
      k < |Pick(ms, mine, who)| && Pick(ms, mine, who)[k] == ms[n]
    decreases |ms|
  {
    var last := |ms| - 1;
    if n < last {
      PickedIs(ms[..last], mine[..last], who, n);
      assert ms[..last][..n] == ms[..n] && mine[..last][..n] == mine[..n];
    }
  }

  lemma {:induction false} PickGrows(ms: seq<Msg>, mine: seq<bool>, who: bool, n: nat)
    requires |mine| == |ms| && n <= |ms|
    ensures Pick(ms[..n], mine[..n], who) <= Pick(ms, mine, who)
    decreases |ms|
  {
    if n == |ms| {
      assert ms[..n] == ms && mine[..n] == mine;
    } else {
      var last := |ms| - 1;
      PickGrows(ms[..last], mine[..last], who, n);
      assert ms[..last][..n] == ms[..n] && mine[..last][..n] == mine[..n];
    }
  }

  lemma {:induction false} PickSplit(ms: seq<Msg>, mine: seq<bool>, who: bool, n: nat)
    requires |mine| == |ms| && n <= |ms|
    ensures Pick(ms, mine, who) == Pick(ms[..n], mine[..n], who) + Pick(ms[n..], mine[n..], who)
    decreases |ms|
  {
    if n == |ms| {
      assert ms[..n] == ms && mine[..n] == mine;
    } else {
      var last := |ms| - 1;
      PickSplit(ms[..last], mine[..last], who, n);
      assert ms[..last][..n] == ms[..n] && mine[..last][..n] == mine[..n];
      assert ms[..last][n..] == ms[n..][..last - n] && mine[..last][n..] == mine[n..][..last - n];
      var end := if mine[last] == who then [ms[last]] else [];
      Associative(Pick(ms[..n], mine[..n], who), Pick(ms[n..][..last - n], mine[n..][..last - n], who), end);
    }
  }

  lemma {:induction false} PickAll(ms: seq<Msg>, mine: seq<bool>, who: bool)
    requires |mine| == |ms| && forall n :: 0 <= n < |ms| ==> mine[n] == who
    ensures Pick(ms, mine, who) == ms && Pick(ms, mine, !who) == []
  {
    if ms != [] {
      PickAll(ms[..|ms| - 1], mine[..|ms| - 1], who);
    }
  }

  /** Where a sender's transfer begins and ends. Between the two, and only there, stand
      its chunks. */
  predicate Spans(ms: seq<Msg>, mine: seq<bool>, who: bool, head: Msg, header: nat, end: nat) {
    && |mine| == |ms| && header < end < |ms|
    && mine[header] == who && ms[header] == head
    && mine[end] == who && ms[end] == Text(END)
    && (forall n :: 0 <= n < |ms| && mine[n] == who ==> header <= n <= end)
    && (forall n :: header < n < end && mine[n] == who ==> ms[n].Binary?)
  }

  lemma {:induction false} ChunksAreBinary(data: seq<byte>, k: nat)
    requires k < |Chunks(data)|
    ensures Chunks(data)[k].Binary?
    decreases |data|
  {
    if k > 0 {
      ChunksAreBinary(data[if |data| < CHUNK then |data| else CHUNK..], k - 1);
    }
  }

  lemma TransferAt(f: File, k: nat)
    requires k < |Transfer(f)|
    ensures Transfer(f)[k] ==
      if k == 0 then Text(HeaderText(f)) else if k == |Transfer(f)| - 1 then Text(END) else Chunks(f.data)[k - 1]
  {
  }

  lemma FindSpan(ms: seq<Msg>, mine: seq<bool>, who: bool, f: File) returns (header: nat, end: nat)
    requires |mine| == |ms| && Pick(ms, mine, who) == Transfer(f)
    ensures Spans(ms, mine, who, Text(HeaderText(f)), header, end)
  {
    var t := Transfer(f);
    TransferAt(f, 0);
    TransferAt(f, |t| - 1);
    header := PickedAt(ms, mine, who, 0);
    end := PickedAt(ms, mine, who, |t| - 1);
    CountsMove(ms, mine, who, end, header);
    forall n | 0 <= n < |ms| && mine[n] == who
      ensures header <= n <= end && (header < n < end ==> ms[n].Binary?)
    {
      PickedIs(ms, mine, who, n);
      CountsMove(ms, mine, who, n, header);
      CountsMove(ms, mine, who, end, n);
      CountsMove(ms, mine, who, header, n);
      CountsMove(ms, mine, who, n, end);
      var k := |Pick(ms[..n], mine[..n], who)|;
      TransferAt(f, k);
      if 0 < k < |t| - 1 {
        ChunksAreBinary(f.data, k - 1);
      }
    }
  }

  /** A sender's count goes up with each of its messages. */
  lemma CountsMove(ms: seq<Msg>, mine: seq<bool>, who: bool, n: nat, m: nat)
    requires |mine| == |ms| && n < |ms| && m < |ms| && mine[n] == who
    ensures n < m ==> |Pick(ms[..n], mine[..n], who)| < |Pick(ms[..m], mine[..m], who)|
  {
    if n < m {
      PickGrows(ms[..m], mine[..m], who, n + 1);
      assert ms[..m][..n + 1] == ms[..n + 1] && mine[..m][..n + 1] == mine[..n + 1];
      assert ms[..n + 1][..n] == ms[..n] && mine[..n + 1][..n] == mine[..n];
    }
  }

  lemma ApartMine(ms: seq<Msg>, mine: seq<bool>, who: bool, head: Msg, head': Msg, hf: nat, ef: nat, hg: nat, eg: nat)
    requires Spans(ms, mine, who, head, hf, ef) && Spans(ms, mine, !who, head', hg, eg) && ef < hg
    ensures forall n :: 0 <= n < ef + 1 ==> mine[n] == who
    ensures forall n :: ef + 1 <= n < |ms| ==> mine[n] == !who
  {
  }

  /** One sender's messages all before the other's. */
  lemma ApartPick(ms: seq<Msg>, mine: seq<bool>, who: bool, c: nat)
    requires |mine| == |ms| && c <= |ms|
    requires forall n :: 0 <= n < c ==> mine[n] == who
    requires forall n :: c <= n < |ms| ==> mine[n] == !who
    ensures Pick(ms, mine, who) == ms[..c] && Pick(ms, mine, !who) == ms[c..]
  {
    PickSplit(ms, mine, who, c);
    PickSplit(ms, mine, !who, c);
    PickAll(ms[..c], mine[..c], who);
    PickAll(ms[c..], mine[c..], !who);
    assert ms[..c] + [] == ms[..c];
    assert [] + ms[c..] == ms[c..];
  }

  /** One transfer after the other is not interleaved at all. */
  lemma Apart(ms: seq<Msg>, mine: seq<bool>, who: bool, head: Msg, head': Msg, hf: nat, ef: nat, hg: nat, eg: nat)
    requires Spans(ms, mine, who, head, hf, ef) && Spans(ms, mine, !who, head', hg, eg) && ef < hg
    ensures ms == Pick(ms, mine, who) + Pick(ms, mine, !who)
  {
    ApartMine(ms, mine, who, head, head', hf, ef, hg, eg);
    ApartPick(ms, mine, who, ef + 1);
    assert ms == ms[..ef + 1] + ms[ef + 1..];
  }

  lemma {:induction false} NoEndNoFile(s: Holder, ms: seq<Msg>)
    requires forall n {:trigger IsEnd(ms[n])} :: 0 <= n < |ms| ==> !IsEnd(ms[n])
    ensures Emitted(s, ms) == []
    decreases |ms|
  {
    if ms != [] {
      assert !IsEnd(ms[0]);
      forall n | 0 <= n < |ms| - 1 ensures !IsEnd(ms[1..][n]) {
        assert !IsEnd(ms[n + 1]);
      }
      NoEndNoFile(After(s, ms[0]), ms[1..]);
    }
  }

  lemma {:induction false} NoHeaderNoFile(s: Holder, ms: seq<Msg>)
    requires !s.Filling? && forall n {:trigger IsHeader(ms[n])} :: 0 <= n < |ms| ==> !IsHeader(ms[n])
    ensures Emitted(s, ms) == []
    decreases |ms|
  {
    if ms != [] {
      assert !IsHeader(ms[0]);
      forall n | 0 <= n < |ms| - 1 ensures !IsHeader(ms[1..][n]) {
        assert !IsHeader(ms[n + 1]);
      }
      NoHeaderNoFile(After(s, ms[0]), ms[1..]);
    }
  }

  lemma ThreeParts(s: Holder, x: seq<Msg>, m: Msg, y: seq<Msg>)
    ensures Emitted(s, x + ([m] + y)) == Emitted(s, x) + (Emits(State(s, x), m) + Emitted(After(State(s, x), m), y))
  {
    RunsOn(s, x, [m] + y);
    RunsOn(State(s, x), [m], y);
    RunsOne(State(s, x), m);
  }

  /** Messages with all headers before the first end: one file, with the last header's
      name and all bytes from there to that end. */
  lemma OneFileOnly(s: Holder, ms: seq<Msg>, h: nat, e: nat)
    requires !s.Stopped? && NoneFatal(ms) && h < e < |ms| && IsHeader(ms[h]) && IsEnd(ms[e]) && Quiet(ms[h + 1..e])
    requires forall n {:trigger IsEnd(ms[n])} :: 0 <= n < e ==> !IsEnd(ms[n])
    requires forall n {:trigger IsHeader(ms[n])} :: e < n < |ms| ==> !IsHeader(ms[n])
    ensures Emitted(s, ms) == [File(ReadHeader(ms[h]).value.0, Body(ms[h + 1..e]))]
  {
    AnotherIs(ms, e);
    ThreeParts(s, ms[..e], ms[e], ms[e + 1..]);
    forall n | 0 <= n < e ensures !IsEnd(ms[..e][n]) {
      assert !IsEnd(ms[n]);
    }
    NoEndNoFile(s, ms[..e]);
    HeldAtEnd(s, ms, h, e);
    var after := ms[e + 1..];
    forall n | 0 <= n < |after| ensures !IsHeader(after[n]) {
      assert !IsHeader(ms[e + 1 + n]);
    }
    NoHeaderNoFile(Idle, after);
  }

  lemma HeldAtEnd(s: Holder, ms: seq<Msg>, h: nat, e: nat)
    requires !s.Stopped? && NoneFatal(ms) && h < e < |ms| && IsHeader(ms[h]) && IsEnd(ms[e]) && Quiet(ms[h + 1..e])
    ensures After(State(s, ms[..e]), ms[e]) == Idle
    ensures Emits(State(s, ms[..e]), ms[e]) == [File(ReadHeader(ms[h]).value.0, Body(ms[h + 1..e]))]
  {
    assert ms[..e][h + 1..] == ms[h + 1..e];
    assert NoneFatal(ms[..e]);
    StoppedIff(s, ms[..e]);
    HoldsSinceHeader(s, ms[..e], h);
  }

  predicate IsHeader(m: Msg) { ReadHeader(m).Some? }

  lemma HeaderKind(f: File)
    requires |f.data| < CAPACITY_LIMIT
    ensures IsHeader(Text(HeaderText(f))) && !IsEnd(Text(HeaderText(f))) && !Fatal(Text(HeaderText(f)))
    ensures ReadHeader(Text(HeaderText(f))).value.0 == f.name
  {
    HeaderReadsBack(f);
    Associative(HEADER, f.name, ":");
    Associative(HEADER, f.name + ":", Decimal(|f.data|));
    assert HEADER <= HeaderText(f);
  }

  lemma EndKind()
    ensures !IsHeader(Text(END)) && IsEnd(Text(END))
  {
    EndIsEnd();
  }

  lemma BinaryKind(m: Msg)
    ensures m.Binary? ==> !IsHeader(m) && !IsEnd(m)
  {
  }

  /** What a message of one sender is, by where it stands. */
  lemma SpanKinds(ms: seq<Msg>, mine: seq<bool>, who: bool, head: Msg, header: nat, end: nat, n: nat)
    requires Spans(ms, mine, who, head, header, end) && n < |ms| && mine[n] == who && IsHeader(head) && !IsEnd(head)
    ensures IsHeader(ms[n]) <==> n == header
    ensures IsEnd(ms[n]) <==> n == end
  {
    if n == end {
      EndKind();
    } else if n != header {
      BinaryKind(ms[n]);
    }
  }

  /** What every message of an interleaving is. */
  predicate Kinds(ms: seq<Msg>, hf: nat, ef: nat, hg: nat, eg: nat) {
    && (forall n {:trigger IsHeader(ms[n])} :: 0 <= n < |ms| ==> (IsHeader(ms[n]) <==> n == hf || n == hg))
    && (forall n {:trigger IsEnd(ms[n])} :: 0 <= n < |ms| ==> (IsEnd(ms[n]) <==> n == ef || n == eg))
  }

  lemma AllKinds(ms: seq<Msg>, mine: seq<bool>, who: bool, head: Msg, head': Msg, hf: nat, ef: nat, hg: nat, eg: nat)
    requires Spans(ms, mine, who, head, hf, ef) && Spans(ms, mine, !who, head', hg, eg)
    requires IsHeader(head) && !IsEnd(head) && IsHeader(head') && !IsEnd(head')
    ensures Kinds(ms, hf, ef, hg, eg)
  {
    forall n | 0 <= n < |ms|
      ensures IsHeader(ms[n]) <==> n == hf || n == hg
      ensures IsEnd(ms[n]) <==> n == ef || n == eg
    {
      if mine[n] == who {
        SpanKinds(ms, mine, who, head, hf, ef, n);
      } else {
        SpanKinds(ms, mine, !who, head', hg, eg, n);
      }
    }
  }

  lemma Overlap(s: Holder, ms: seq<Msg>, hf: nat, ef: nat, hg: nat, eg: nat)
    requires !s.Stopped? && NoneFatal(ms)
    requires Kinds(ms, hf, ef, hg, eg) && hf < hg < |ms| && hg < ef < |ms| && hg < eg < |ms|
    ensures var e := if ef < eg then ef else eg;
      IsHeader(ms[hg]) && Emitted(s, ms) == [File(ReadHeader(ms[hg]).value.0, Body(ms[hg + 1..e]))]
  {
    var e := if ef < eg then ef else eg;
    forall n | 0 <= n < e ensures !IsEnd(ms[n]) {}
    forall n | hg < n < |ms| ensures !IsHeader(ms[n]) {}
    QuietBetween(ms, hg + 1, e);
    OneFileOnly(s, ms, hg, e);
  }

  lemma ApartFiles(
      s: Holder, ms: seq<Msg>, mine: seq<bool>, who: bool, f: File, g: File, hf: nat, ef: nat, hg: nat, eg: nat)
    requires !s.Stopped? && |f.data| < CAPACITY_LIMIT && |g.data| < CAPACITY_LIMIT
    requires Spans(ms, mine, who, Text(HeaderText(f)), hf, ef) && Spans(ms, mine, !who, Text(HeaderText(g)), hg, eg)
    requires Pick(ms, mine, who) == Transfer(f) && Pick(ms, mine, !who) == Transfer(g) && ef < hg
    ensures Emitted(s, ms) == [f, g]
  {
    Apart(ms, mine, who, Text(HeaderText(f)), Text(HeaderText(g)), hf, ef, hg, eg);
    BothArrive(s, f, g);
  }

  lemma OverlapOfFiles(
      s: Holder, ms: seq<Msg>, mine: seq<bool>, who: bool, f: File, g: File, hf: nat, ef: nat, hg: nat, eg: nat)
    requires !s.Stopped? && |f.data| < CAPACITY_LIMIT && |g.data| < CAPACITY_LIMIT
    requires Spans(ms, mine, who, Text(HeaderText(f)), hf, ef) && Spans(ms, mine, !who, Text(HeaderText(g)), hg, eg)
    requires hf < hg <= ef
    ensures var e := if ef < eg then ef else eg;
      hg < e && Emitted(s, ms) == [File(g.name, Body(ms[hg + 1..e]))]
  {
    HeaderKind(f);
    HeaderKind(g);
    AllKinds(ms, mine, who, Text(HeaderText(f)), Text(HeaderText(g)), hf, ef, hg, eg);
    forall n | 0 <= n < |ms| ensures !Fatal(ms[n]) {
      assert IsHeader(ms[n]) ==> n == hf || n == hg;
    }
    Overlap(s, ms, hf, ef, hg, eg);
  }

  lemma QuietBetween(ms: seq<Msg>, from: nat, end: nat)
    requires from <= end <= |ms| && forall n :: from <= n < end ==> !IsHeader(ms[n]) && !IsEnd(ms[n])
    ensures Quiet(ms[from..end])
  {
    forall i | 0 <= i < end - from ensures ReadHeader(ms[from..end][i]).None? && !IsEnd(ms[from..end][i]) {
      assert ms[from..end][i] == ms[from + i] && !IsHeader(ms[from + i]);
    }
  }

  /** What two interleaved transfers hand over, by where their headers and ends stand: both
      files when one has ended before the other begins; else one file, with the name of
      the header that came second and all bytes of both from there to the first end. */
  function Outcome(ms: seq<Msg>, f: File, g: File, hf: nat, ef: nat, hg: nat, eg: nat): seq<File>
    requires hf < ef < |ms| && hg < eg < |ms|
  {
    if ef < hg then [f, g]
    else if eg < hf then [g, f]
    else
      var e := if ef < eg then ef else eg;
      if hf < hg && hg < e then [File(g.name, Body(ms[hg + 1..e]))]
      else if hf < e then [File(f.name, Body(ms[hf + 1..e]))]
      else []
  }

  lemma OutcomeIs(
      s: Holder, ms: seq<Msg>, mine: seq<bool>, f: File, g: File, hf: nat, ef: nat, hg: nat, eg: nat)
    requires !s.Stopped? && |f.data| < CAPACITY_LIMIT && |g.data| < CAPACITY_LIMIT
    requires Spans(ms, mine, true, Text(HeaderText(f)), hf, ef) && Spans(ms, mine, false, Text(HeaderText(g)), hg, eg)
    requires Pick(ms, mine, true) == Transfer(f) && Pick(ms, mine, false) == Transfer(g)
    ensures Emitted(s, ms) == Outcome(ms, f, g, hf, ef, hg, eg)
  {
    if ef < hg {
      ApartFiles(s, ms, mine, true, f, g, hf, ef, hg, eg);
    } else if eg < hf {
      ApartFiles(s, ms, mine, false, g, f, hg, eg, hf, ef);
    } else {
      OverlapOutcome(s, ms, mine, f, g, hf, ef, hg, eg);
    }
  }

  lemma OverlapOutcome(
      s: Holder, ms: seq<Msg>, mine: seq<bool>, f: File, g: File, hf: nat, ef: nat, hg: nat, eg: nat)
    requires !s.Stopped? && |f.data| < CAPACITY_LIMIT && |g.data| < CAPACITY_LIMIT
    requires Spans(ms, mine, true, Text(HeaderText(f)), hf, ef) && Spans(ms, mine, false, Text(HeaderText(g)), hg, eg)
    requires hg <= ef && hf <= eg
    ensures Emitted(s, ms) == Outcome(ms, f, g, hf, ef, hg, eg)
  {
    if hf < hg {
      OverlapOfFiles(s, ms, mine, true, f, g, hf, ef, hg, eg);
    } else {
      OverlapOfFiles(s, ms, mine, false, g, f, hg, eg, hf, ef);
    }
  }

  lemma OutcomeSize(ms: seq<Msg>, f: File, g: File, hf: nat, ef: nat, hg: nat, eg: nat)
    requires hf < ef < |ms| && hg < eg < |ms|
    ensures |Outcome(ms, f, g, hf, ef, hg, eg)| == 2 <==> ef < hg || eg < hf
  {
  }

  /** Of two transfers interleaved in any way, both files arrive exactly when one has
      ended before the other begins. */
  lemma InterleavedTransfersIff(s: Holder, ms: seq<Msg>, mine: seq<bool>, f: File, g: File)
    returns (hf: nat, ef: nat, hg: nat, eg: nat)
    requires !s.Stopped? && Interleaves(ms, mine, f, g) && |f.data| < CAPACITY_LIMIT && |g.data| < CAPACITY_LIMIT
    ensures Spans(ms, mine, true, Text(HeaderText(f)), hf, ef) && Spans(ms, mine, false, Text(HeaderText(g)), hg, eg)
    ensures Emitted(s, ms) == Outcome(ms, f, g, hf, ef, hg, eg)
    ensures |Emitted(s, ms)| == 2 <==> ef < hg || eg < hf
  {
    hf, ef := FindSpan(ms, mine, true, f);
    hg, eg := FindSpan(ms, mine, false, g);
    OutcomeIs(s, ms, mine, f, g, hf, ef, hg, eg);
    OutcomeSize(ms, f, g, hf, ef, hg, eg);
  }

  lemma BothArrive(s: Holder, f: File, g: File)
    requires !s.Stopped? && |f.data| < CAPACITY_LIMIT && |g.data| < CAPACITY_LIMIT
    ensures Emitted(s, Transfer(f) + Transfer(g)) == [f, g]
  {
    RunsOn(s, Transfer(f), Transfer(g));
    TransferArrives(s, f);
    TransferArrives(Idle, g);
  }
}
