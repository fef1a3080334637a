/** Signalling messages too long for one line: the sender cuts them into numbered
    fragments, the receiver collects fragments per sender and message id and emits a
    message when it holds as many parts as the header announced. */
module Fragments {
  import opened Text

  // ------------------------------------------------------------------
  // The fragment header
  // ------------------------------------------------------------------

  datatype Fragment = Fragment(number: nat, total: nat, id: string, chunk: string)

  const PREFIX := "WRTC:"

  function PrintCounts(number: nat, total: nat): string { Decimal(number) + "/" + Decimal(total) }

  function Print(f: Fragment): string {
    PREFIX + "[" + (PrintCounts(f.number, f.total) + "|" + f.id) + "]" + f.chunk
  }

  /** `parse().unwrap_or(0)` */
  function ParseOrZero(s: string): nat {
    match ParseUsize(s)
    case Some(n) => n
    case None => 0
  }

  /** The text between the brackets and what follows them; None where the source returns early. */
  function Unbracket(text: string): Option<(string, string)> {
    var content := match StripPrefix(text, PREFIX) case Some(c) => c case None => "";
    var end := match Find(content, ']') case Some(i) => i case None => 0;
    if end == 0 || content[0] != '[' then None
    else Some((content[1..end], content[end + 1..]))
  }

  /** The counts default to zero; further slashes are ignored. */
  function ParseCounts(s: string): (nat, nat) {
    var counts := Split(s, '/');
    (ParseOrZero(counts[0]), if |counts| > 1 then ParseOrZero(counts[1]) else 0)
  }

  /** The parsing half of `handle_fragment`; None where it returns early. */
  function Parse(text: string): Option<Fragment> {
    match Unbracket(text)
    case None => None
    case Some((header, chunk)) =>
      var parts := Split(header, '|');
      if |parts| != 2 then None
      else
        var (number, total) := ParseCounts(parts[0]);
        Some(Fragment(number, total, parts[1], chunk))
  }

  predicate ValidId(id: string) {
    |id| == 8 && forall i :: 0 <= i < |id| ==> IsDigit(id[i]) || 'a' <= id[i] <= 'f'
  }

  predicate Printable(f: Fragment) {
    f.number < U64_LIMIT && f.total < U64_LIMIT && ValidId(f.id)
  }

  lemma UnbracketPrint(header: string, chunk: string)
    requires ']' !in header
    ensures Unbracket(PREFIX + "[" + header + "]" + chunk) == Some((header, chunk))
  {
    var open := "[" + header;
    var content := open + [']'] + chunk;
    assert PREFIX + "[" + header + "]" + chunk == PREFIX + content;
    DropFirst(PREFIX, content);
    FindAfter(open, ']', chunk);
    BracketParts(header, chunk);
  }

  lemma BracketParts(header: string, chunk: string)
    ensures var content := "[" + header + [']'] + chunk;
      content[0] == '[' && content[1..|header| + 1] == header && content[|header| + 2..] == chunk
  {
    var content := "[" + header + [']'] + chunk;
    assert content == "[" + (header + [']'] + chunk);
    assert content == ("[" + header + [']']) + chunk;
    DropFirst("[" + header + [']'], chunk);
  }

  lemma SplitPair(a: string, c: char, b: string)
    requires c !in a && c !in b
    ensures Split(a + [c] + b, c) == [a, b]
  {
    assert [a, b][1..] == [b];
    SplitJoin([a, b], c);
  }

  lemma ParsePrintCounts(number: nat, total: nat)
    requires number < U64_LIMIT && total < U64_LIMIT
    ensures ParseCounts(PrintCounts(number, total)) == (number, total)
  {
    SplitPair(Decimal(number), '/', Decimal(total));
    ParseDecimal(number);
    ParseDecimal(total);
  }

  /** Whatever the chunk holds, brackets and bars included, the header parses back. */
  lemma ParsePrint(f: Fragment)
    requires Printable(f)
    ensures Parse(Print(f)) == Some(f)
  {
    var counts := PrintCounts(f.number, f.total);
    assert forall i :: 0 <= i < |counts| ==> IsDigit(counts[i]) || counts[i] == '/';
    SplitPair(counts, '|', f.id);
    UnbracketPrint(counts + "|" + f.id, f.chunk);
    ParsePrintCounts(f.number, f.total);
  }

  /** A number in a header; one that cannot be read counts as 0. */
  predicate Reads(s: string, n: nat) { ParseUsize(s) == Some(n) || (ParseUsize(s) == None && n == 0) }

  /** What is taken for a fragment: the prefix, in brackets the counts and the id with one bar
      between them, and then the chunk. The first two of the parts between slashes are the
      number and the total. */
  predicate Announces(text: string, f: Fragment, parts: seq<string>) {
    && parts != [] && (forall p :: p in parts ==> '/' !in p)
    && var counts := Join(parts, '/');
    && text == "WRTC:[" + (counts + "|" + f.id) + "]" + f.chunk
    && ']' !in counts + f.id && '|' !in counts + f.id
    && Reads(parts[0], f.number) && (if |parts| == 1 then f.total == 0 else Reads(parts[1], f.total))
  }

  /** Any other text is ignored. */
  lemma ParseIff(text: string, f: Fragment)
    ensures Parse(text) == Some(f) <==> exists parts :: Announces(text, f, parts)
  {
    if Parse(text) == Some(f) {
      var parts := ParsedAnnounces(text);
    }
    forall parts | Announces(text, f, parts) ensures Parse(text) == Some(f) {
      AnnouncedParses(text, f, parts);
    }
  }

  lemma ParsedAnnounces(text: string) returns (parts: seq<string>)
    requires Parse(text).Some?
    ensures Announces(text, Parse(text).value, parts)
  {
    var (header, chunk) := Unbracket(text).value;
    Bracketed(text);
    var halves := Split(header, '|');
    JoinSplit(header, '|');
    assert halves[1..] == [halves[1]];
    assert header == halves[0] + "|" + halves[1];
    parts := Split(halves[0], '/');
    JoinSplit(halves[0], '/');
  }

  lemma Bracketed(text: string)
    requires Unbracket(text).Some?
    ensures var (header, chunk) := Unbracket(text).value;
      text == "WRTC:[" + header + "]" + chunk && ']' !in header
  {
    var content := StripPrefix(text, PREFIX).value;
    var end := Find(content, ']').value;
    BracketsOf(content, end);
    Opened(content[1..end], "]", content[end + 1..]);
  }

  lemma Opened(header: string, bracket: string, chunk: string)
    ensures PREFIX + ("[" + (header + (bracket + chunk))) == "WRTC:[" + header + bracket + chunk
  {
    Associative(PREFIX, "[", header + (bracket + chunk));
    assert PREFIX + "[" == "WRTC:[";
    Associative("WRTC:[", header, bracket + chunk);
    Associative("WRTC:[" + header, bracket, chunk);
  }

  lemma BracketsOf(content: string, end: nat)
    requires 0 < end < |content| && content[0] == '[' && content[end] == ']' && ']' !in content[..end]
    ensures content == "[" + (content[1..end] + ("]" + content[end + 1..])) && ']' !in content[1..end]
  {
    assert forall i :: 0 <= i < end - 1 ==> content[1..end][i] == content[..end][i + 1];
  }

  lemma AnnouncedParses(text: string, f: Fragment, parts: seq<string>)
    requires Announces(text, f, parts)
    ensures Parse(text) == Some(f)
  {
    var counts := Join(parts, '/');
    var header := counts + "|" + f.id;
    UnbracketPrint(header, f.chunk);
    assert PREFIX + "[" == "WRTC:[";
    SplitPair(counts, '|', f.id);
    SplitJoin(parts, '/');
  }

  // ------------------------------------------------------------------
  // The receiver
  // ------------------------------------------------------------------

  datatype Buffer = Buffer(parts: map<nat, string>, total: nat)

  type Buffers = map<string, Buffer>

  datatype Emission = Emission(from: string, payload: string)

  function BufferKey(sender: string, id: string): string { sender + ":" + id }

  /** The parts numbered `from` to `total` that are present, in order. */
  function Assemble(parts: map<nat, string>, from: nat, total: nat): string
    decreases total + 1 - from
  {
    if from > total then ""
    else (if from in parts then parts[from] else "") + Assemble(parts, from + 1, total)
  }

  /** The fragment's buffer with its part added; the first fragment fixes the total. */
  function Grow(buffers: Buffers, key: string, f: Fragment): Buffer {
    var entry := if key in buffers then buffers[key] else Buffer(map[], f.total);
    Buffer(entry.parts[f.number := f.chunk], entry.total)
  }

  /** `handle_fragment` for a parsed fragment. */
  function Receive(buffers: Buffers, sender: string, f: Fragment): (Buffers, Option<Emission>) {
    var key := BufferKey(sender, f.id);
    var b := Grow(buffers, key, f);
    if |b.parts| == b.total then (buffers - {key}, Some(Emission(sender, Assemble(b.parts, 1, b.total))))
    else (buffers[key := b], None)
  }

  class Receiver {
    var fragments: Buffers
    var emitted: seq<Emission>

    constructor ()
      ensures fragments == map[] && emitted == []
    {
      fragments, emitted := map[], [];
    }

    /** `handle_fragment` */
    method HandleFragment(sender: string, text: string)
      modifies this
      ensures match Parse(text)
        case None => fragments == old(fragments) && emitted == old(emitted)
        case Some(f) => Received(sender, f, old(fragments), old(emitted))
    {
      var parsed := Parse(text);
      if parsed.Some? {
        Accept(sender, parsed.value);
      }
    }

    predicate Received(sender: string, f: Fragment, before: Buffers, emittedBefore: seq<Emission>)
      reads this
    {
      var (buffers, emission) := Receive(before, sender, f);
      && fragments == buffers
      && emitted == emittedBefore + (if emission.Some? then [emission.value] else [])
    }

    method Accept(sender: string, f: Fragment)
      modifies this
      ensures Received(sender, f, old(fragments), old(emitted))
    {
      var key := BufferKey(sender, f.id);
      var entry := AddPart(key, f);
      if |entry.parts| == entry.total {
        var full := JoinParts(entry);
        fragments := fragments - {key};
        assert fragments == old(fragments) - {key};
        emitted := emitted + [Emission(sender, full)];
      }
    }

    method AddPart(key: string, f: Fragment) returns (entry: Buffer)
      modifies this`fragments
      ensures entry == Grow(old(fragments), key, f)
      ensures fragments == old(fragments)[key := entry]
    {
      if key !in fragments {
        fragments := fragments[key := Buffer(map[], f.total)];
      }
      entry := fragments[key];
      entry := entry.(parts := entry.parts[f.number := f.chunk]);
      fragments := fragments[key := entry];
    }

    method JoinParts(entry: Buffer) returns (full: string)
      ensures full == Assemble(entry.parts, 1, entry.total)
    {
      full := "";
      var i := 1;
      while i <= entry.total
        invariant 1 <= i <= entry.total + 1
        invariant Assemble(entry.parts, 1, entry.total) == full + Assemble(entry.parts, i, entry.total)
      {
        if i in entry.parts {
          full := full + entry.parts[i];
        }
        i := i + 1;
      }
      assert full + "" == full;
    }

    /** The retain at the top of `handle_message`: some stale buffers are dropped. */
    method Expire(stale: set<string>)
      modifies this`fragments
      ensures fragments == old(fragments) - stale
    {
      fragments := fragments - stale;
    }
  }

  // ------------------------------------------------------------------
  // Messages on the network
  // ------------------------------------------------------------------

  /** A message as its sender cut it. */
  datatype Signal = Signal(sender: string, id: string, chunks: seq<string>)
  {
    predicate Valid() { ValidId(id) && |chunks| < U64_LIMIT }

    function Piece(k: nat): (f: Fragment)
      requires Valid() && k < |chunks|
      ensures Printable(f)
    {
      Fragment(k + 1, |chunks|, id, chunks[k])
    }

    function Key(): string { BufferKey(sender, id) }

    function Whole(): Emission { Emission(sender, Concat(chunks)) }
  }

  function Concat(chunks: seq<string>): string {
    if chunks == [] then "" else chunks[0] + Concat(chunks[1..])
  }

  /** Sender and id are recovered from the buffer key, whatever the sender's name. */
  lemma KeyInjective(sender1: string, id1: string, sender2: string, id2: string)
    requires |id1| == |id2| && BufferKey(sender1, id1) == BufferKey(sender2, id2)
    ensures sender1 == sender2 && id1 == id2
  {
    var key := BufferKey(sender1, id1);
    assert |sender1| == |sender2|;
    assert sender1 == key[..|sender1|] && sender2 == key[..|sender2|];
    assert id1 == key[|sender1| + 1..] && id2 == key[|sender2| + 1..];
  }

  /** What happens at the receiver: the k-th fragment of a message arrives, or some
      buffers expire. A lost fragment never arrives, a duplicated one arrives again. */
  datatype Event = Arrive(signal: Signal, k: nat) | Expire(keys: set<string>)

  /** The arrivals carry fragments of sent messages, and no sender reused an id. */
  ghost predicate Network(sent: set<Signal>, events: seq<Event>) {
    && (forall s :: s in sent ==> s.Valid())
    && DistinctIds(sent)
    && (forall e :: e in events ==> Sendable(e) && (e.Arrive? ==> e.signal in sent))
  }

  ghost predicate DistinctIds(sent: set<Signal>) {
    forall s, t :: s in sent && t in sent && s.sender == t.sender && s.id == t.id ==> s == t
  }

  predicate Sendable(e: Event) { e.Arrive? ==> e.signal.Valid() && e.k < |e.signal.chunks| }

  function Step(buffers: Buffers, e: Event): (Buffers, Option<Emission>)
    requires Sendable(e)
  {
    match e
    case Arrive(s, k) => Receive(buffers, s.sender, s.Piece(k))
    case Expire(keys) => (buffers - keys, None)
  }

  /** The receiver's buffers after a sequence of events. */
  function After(events: seq<Event>): Buffers
    requires forall e :: e in events ==> Sendable(e)
  {
    if events == [] then map[] else Step(After(events[..|events| - 1]), events[|events| - 1]).0
  }

  /** What the n-th event makes the receiver emit. */
  function EmittedAt(events: seq<Event>, n: nat): Option<Emission>
    requires n < |events| && forall e :: e in events ==> Sendable(e)
  {
    Step(After(events[..n]), events[n]).1
  }

  /** Everything the receiver has emitted after a sequence of events. */
  function Emissions(events: seq<Event>): seq<Emission>
    requires forall e :: e in events ==> Sendable(e)
  {
    if events == [] then []
    else
      var n := |events| - 1;
      var now := EmittedAt(events, n);
      Emissions(events[..n]) + if now.Some? then [now.value] else []
  }

  lemma EventsPush(events: seq<Event>, n: nat)
    requires n < |events| && forall e :: e in events ==> Sendable(e)
    ensures events[n] in events
    ensures After(events[..n + 1]) == Step(After(events[..n]), events[n]).0
    ensures Emissions(events[..n + 1]) ==
      Emissions(events[..n]) + Emitted(Step(After(events[..n]), events[n]).1)
  {
    var more := events[..n + 1];
    assert more[..n] == events[..n] && more[n] == events[n];
  }

  function Emitted(emission: Option<Emission>): seq<Emission> {
    if emission.Some? then [emission.value] else []
  }

  /** The receiver's part in one event. */
  method Take(receiver: Receiver, e: Event)
    requires Sendable(e)
    modifies receiver
    ensures receiver.fragments == Step(old(receiver.fragments), e).0
    ensures receiver.emitted == old(receiver.emitted) + Emitted(Step(old(receiver.fragments), e).1)
  {
    match e {
      case Arrive(s, k) =>
        ParsePrint(s.Piece(k));
        receiver.HandleFragment(s.sender, Print(s.Piece(k)));
      case Expire(keys) =>
        receiver.Expire(keys);
        assert receiver.emitted + [] == receiver.emitted;
    }
  }

  /** The receiver fed the printed lines of the arrivals does what the events say. */
  method Replay(events: seq<Event>) returns (receiver: Receiver)
    requires forall e :: e in events ==> Sendable(e)
    ensures fresh(receiver)
    ensures receiver.fragments == After(events) && receiver.emitted == Emissions(events)
  {
    receiver := new Receiver();
    var n := 0;
    while n < |events|
      invariant 0 <= n <= |events| && fresh(receiver)
      invariant receiver.fragments == After(events[..n]) && receiver.emitted == Emissions(events[..n])
    {
      EventsPush(events, n);
      Take(receiver, events[n]);
      n := n + 1;
    }
    assert events[..n] == events;
  }

  // ------------------------------------------------------------------
  // Safety: nothing is emitted that was not sent
  // ------------------------------------------------------------------

  /** The buffer holds nothing but parts of `s`. */
  predicate PartsOf(s: Signal, b: Buffer) {
    && b.total == |s.chunks|
    && forall i :: i in b.parts ==> 1 <= i <= |s.chunks| && b.parts[i] == s.chunks[i - 1]
  }

  ghost predicate BuffersOfSent(sent: set<Signal>, buffers: Buffers) {
    forall s :: s in sent && s.Key() in buffers ==> PartsOf(s, buffers[s.Key()])
  }

  predicate PartNumber(i: nat, n: nat) { 1 <= i <= n }

  function UpTo(n: nat): (r: set<nat>)
    ensures forall i :: i in r <==> PartNumber(i, n)
  {
    set i | 1 <= i <= n && PartNumber(i, n)
  }

  lemma {:induction false} UpToSize(n: nat)
    ensures |UpTo(n)| == n
  {
    if n == 0 {
      assert UpTo(0) == {};
    } else {
      UpToSize(n - 1);
      assert UpTo(n) == UpTo(n - 1) + {n};
    }
  }

  lemma SubsetSameSize(a: set<nat>, b: set<nat>)
    requires a <= b && |a| == |b|
    ensures a == b
  {
    assert b == a + (b - a);
  }

  /** As many parts as announced, all numbered within range: no part is missing. */
  lemma CountMeansComplete(s: Signal, b: Buffer)
    requires PartsOf(s, b)
    ensures |b.parts| == b.total <==> b.parts.Keys == UpTo(b.total)
    ensures |b.parts| == b.total ==> Assemble(b.parts, 1, b.total) == Concat(s.chunks)
  {
    assert |b.parts| == |b.parts.Keys|;
    UpToSize(b.total);
    if |b.parts| == b.total {
      SubsetSameSize(b.parts.Keys, UpTo(b.total));
      AssembleAll(s, b, 1);
      assert s.chunks[0..] == s.chunks;
    }
  }

  lemma {:induction false} AssembleAll(s: Signal, b: Buffer, from: nat)
    requires PartsOf(s, b) && b.parts.Keys == UpTo(b.total) && 1 <= from <= b.total + 1
    ensures Assemble(b.parts, from, b.total) == Concat(s.chunks[from - 1..])
    decreases b.total + 1 - from
  {
    if from <= b.total {
      AssembleAll(s, b, from + 1);
      assert s.chunks[from - 1..][1..] == s.chunks[from..];
    }
  }

  lemma KeysDistinct(sent: set<Signal>, s: Signal, t: Signal)
    requires DistinctIds(sent) && s in sent && t in sent && s.Valid() && t.Valid() && s.Key() == t.Key()
    ensures s == t
  {
    KeyInjective(s.sender, s.id, t.sender, t.id);
  }

  /** Part numbers the receiver holds of `s`. */
  function Held(buffers: Buffers, s: Signal): set<nat> {
    if s.Key() in buffers then buffers[s.Key()].parts.Keys else {}
  }

  function Grown(buffers: Buffers, s: Signal, k: nat): Buffer
    requires s.Valid() && k < |s.chunks|
  {
    Grow(buffers, s.Key(), s.Piece(k))
  }

  lemma GrownParts(sent: set<Signal>, buffers: Buffers, s: Signal, k: nat)
    requires BuffersOfSent(sent, buffers) && s in sent && s.Valid() && k < |s.chunks|
    ensures PartsOf(s, Grown(buffers, s, k))
    ensures Grown(buffers, s, k).parts.Keys == Held(buffers, s) + {k + 1}
  {}

  /** One arrival completes the buffer of its own message or adds a part to it. */
  lemma ArrivalStep(sent: set<Signal>, buffers: Buffers, s: Signal, k: nat)
    requires BuffersOfSent(sent, buffers) && s in sent && s.Valid() && k < |s.chunks|
    ensures Step(buffers, Arrive(s, k)) ==
      if Held(buffers, s) + {k + 1} == UpTo(|s.chunks|) then (buffers - {s.Key()}, Some(s.Whole()))
      else (buffers[s.Key() := Grown(buffers, s, k)], None)
  {
    GrownParts(sent, buffers, s, k);
    CountMeansComplete(s, Grown(buffers, s, k));
  }

  lemma ArrivalKeepsSound(sent: set<Signal>, events: seq<Event>, buffers: Buffers, s: Signal, k: nat)
    requires Network(sent, events) && s in sent && k < |s.chunks|
    requires BuffersOfSent(sent, buffers)
    ensures BuffersOfSent(sent, Step(buffers, Arrive(s, k)).0)
  {
    ArrivalStep(sent, buffers, s, k);
    GrownParts(sent, buffers, s, k);
    var buffers' := Step(buffers, Arrive(s, k)).0;
    forall t | t in sent && t.Key() in buffers'
      ensures PartsOf(t, buffers'[t.Key()])
    {
      if t.Key() == s.Key() {
        KeysDistinct(sent, s, t);
      }
    }
  }

  lemma {:induction false} BuffersStaySound(sent: set<Signal>, events: seq<Event>)
    requires Network(sent, events)
    ensures BuffersOfSent(sent, After(events))
  {
    if events != [] {
      var before, e := events[..|events| - 1], events[|events| - 1];
      BuffersStaySound(sent, before);
      if e.Arrive? {
        ArrivalKeepsSound(sent, events, After(before), e.signal, e.k);
      }
    }
  }

  /** Under any loss, reordering, duplication, expiry and interleaving, everything the
      receiver emits is a whole message its sender sent, unchanged. */
  lemma EmitsOnlySentMessages(sent: set<Signal>, events: seq<Event>, n: nat)
    requires Network(sent, events) && n < |events| && EmittedAt(events, n).Some?
    ensures events[n].Arrive? && events[n].signal in sent
    ensures EmittedAt(events, n) == Some(events[n].signal.Whole())
  {
    BuffersStaySound(sent, events[..n]);
    assert events[n] in events;
    if events[n].Arrive? {
      ArrivalStep(sent, After(events[..n]), events[n].signal, events[n].k);
    }
  }

  // ------------------------------------------------------------------
  // Delivery: each message once, with its last missing fragment
  // ------------------------------------------------------------------

  /** Each fragment arrives at most once and nothing expires. */
  predicate Orderly(events: seq<Event>) {
    && (forall i :: 0 <= i < |events| ==> events[i].Arrive?)
    && (forall i, j :: 0 <= i < j < |events| ==> events[i] != events[j])
  }

  /** Part numbers of `s` that have arrived. */
  function Arrived(events: seq<Event>, s: Signal): set<nat> {
    set k | 0 <= k < |s.chunks| && Arrive(s, k) in events :: k + 1
  }

  predicate AllArrived(events: seq<Event>, s: Signal) { Arrived(events, s) == UpTo(|s.chunks|) }

  lemma ArrivedMore(before: seq<Event>, e: Event, s: Signal)
    requires Sendable(e)
    ensures Arrived(before + [e], s) == Arrived(before, s) + if e.Arrive? && e.signal == s then {e.k + 1} else {}
  {}

  lemma HeldStep(sent: set<Signal>, buffers: Buffers, arrived: set<nat>, s: Signal, t: Signal, k: nat)
    requires BuffersOfSent(sent, buffers) && DistinctIds(sent) && s in sent && t in sent && s.Valid() && t.Valid()
    requires k < |t.chunks| && Held(buffers, s) <= arrived
    ensures Held(Step(buffers, Arrive(t, k)).0, s) <= arrived + if t == s then {k + 1} else {}
  {
    ArrivalStep(sent, buffers, t, k);
    GrownParts(sent, buffers, t, k);
    if t != s {
      OtherKey(sent, s, t);
    }
  }

  /** Whatever was lost, duplicated or has expired, the receiver holds nothing that did
      not arrive. */
  lemma {:induction false} HeldHaveArrived(sent: set<Signal>, events: seq<Event>, s: Signal)
    requires Network(sent, events) && s in sent
    ensures Held(After(events), s) <= Arrived(events, s)
  {
    if events != [] {
      var before, e := events[..|events| - 1], events[|events| - 1];
      NetworkPrefix(sent, events, |events| - 1);
      HeldHaveArrived(sent, before, s);
      BuffersStaySound(sent, before);
      assert events == before + [e];
      ArrivedMore(before, e, s);
      if e.Arrive? {
        HeldStep(sent, After(before), Arrived(before, s), s, e.signal, e.k);
      }
    }
  }

  /** Under the same conditions a message is emitted only when all its fragments have
      arrived. */
  lemma EmitsOnlyWhenAllArrived(sent: set<Signal>, events: seq<Event>, n: nat)
    requires Network(sent, events) && n < |events| && EmittedAt(events, n).Some?
    ensures events[n].Arrive? && AllArrived(events[..n + 1], events[n].signal)
  {
    EmitsOnlySentMessages(sent, events, n);
    var before, e := events[..n], events[n];
    assert events[..n + 1] == before + [e];
    NetworkPrefix(sent, events, n);
    BuffersStaySound(sent, before);
    HeldHaveArrived(sent, before, e.signal);
    EmittedHasArrived(sent, After(before), before, e.signal, e.k);
  }

  lemma NetworkPrefix(sent: set<Signal>, events: seq<Event>, n: nat)
    requires Network(sent, events) && n < |events|
    ensures Network(sent, events[..n]) && Sendable(events[n]) && (events[n].Arrive? ==> events[n].signal in sent)
  {
    assert events[n] in events && forall x :: x in events[..n] ==> x in events;
  }

  lemma EmittedHasArrived(sent: set<Signal>, buffers: Buffers, before: seq<Event>, s: Signal, k: nat)
    requires BuffersOfSent(sent, buffers) && s in sent && s.Valid() && k < |s.chunks|
    requires Held(buffers, s) <= Arrived(before, s) && Step(buffers, Arrive(s, k)).1.Some?
    ensures AllArrived(before + [Arrive(s, k)], s)
  {
    ArrivalStep(sent, buffers, s, k);
    ArrivedMore(before, Arrive(s, k), s);
    ArrivedIsPart(before + [Arrive(s, k)], s);
  }

  lemma ArrivedIsPart(events: seq<Event>, s: Signal)
    ensures Arrived(events, s) <= UpTo(|s.chunks|)
  {
    forall i | i in Arrived(events, s) ensures i in UpTo(|s.chunks|) {
      assert PartNumber(i, |s.chunks|);
    }
  }

  /** The buffer of `s` holds exactly what has arrived of it, and is gone once all has. */
  predicate BufferTracks(arrived: set<nat>, buffers: Buffers, s: Signal) {
    if arrived == {} || arrived == UpTo(|s.chunks|) then s.Key() !in buffers
    else s.Key() in buffers && buffers[s.Key()].parts.Keys == arrived
  }

  lemma TrackOther(sent: set<Signal>, buffers: Buffers, arrived: set<nat>, s: Signal, other: Signal, k: nat)
    requires BuffersOfSent(sent, buffers) && other in sent && other.Valid() && k < |other.chunks|
    requires s.Key() != other.Key() && BufferTracks(arrived, buffers, s)
    ensures BufferTracks(arrived, Step(buffers, Arrive(other, k)).0, s)
  {
    ArrivalStep(sent, buffers, other, k);
  }

  lemma TrackOwn(sent: set<Signal>, buffers: Buffers, arrived: set<nat>, s: Signal, k: nat)
    requires BuffersOfSent(sent, buffers) && s in sent && s.Valid() && k < |s.chunks|
    requires k + 1 !in arrived && BufferTracks(arrived, buffers, s)
    ensures BufferTracks(arrived + {k + 1}, Step(buffers, Arrive(s, k)).0, s)
  {
    HeldIsArrived(buffers, arrived, s, k);
    ArrivalStep(sent, buffers, s, k);
    GrownParts(sent, buffers, s, k);
  }

  /** The part number an event adds to what has arrived of `s`. */
  function Adds(e: Event, s: Signal): set<nat> {
    if e.Arrive? && e.signal == s then {e.k + 1} else {}
  }

  lemma OtherKey(sent: set<Signal>, s: Signal, t: Signal)
    requires DistinctIds(sent) && s in sent && t in sent && s.Valid() && t.Valid() && s != t
    ensures s.Key() != t.Key()
  {
    if s.Key() == t.Key() {
      KeysDistinct(sent, s, t);
    }
  }

  lemma ArrivedStep(before: seq<Event>, e: Event, s: Signal)
    requires Sendable(e) && e !in before
    ensures Arrived(before + [e], s) == Arrived(before, s) + Adds(e, s)
    ensures Arrived(before, s) !! Adds(e, s)
  {}

  /** Some events and one more arrival. */
  ghost predicate OneMore(sent: set<Signal>, before: seq<Event>, e: Event) {
    && DistinctIds(sent) && BuffersOfSent(sent, AfterIf(before))
    && e.Arrive? && e.signal in sent && e.signal.Valid() && Sendable(e) && e !in before
    && AllSendable(before)
  }

  ghost predicate AllSendable(events: seq<Event>) { forall e :: e in events ==> Sendable(e) }

  ghost function AfterIf(events: seq<Event>): Buffers { if AllSendable(events) then After(events) else map[] }

  lemma AfterPush(before: seq<Event>, e: Event)
    requires AllSendable(before) && Sendable(e)
    ensures AllSendable(before + [e]) && After(before + [e]) == Step(After(before), e).0
  {
    assert (before + [e])[..|before|] == before;
  }

  lemma OwnArrival(sent: set<Signal>, buffers: Buffers, before: seq<Event>, s: Signal, k: nat)
    requires BuffersOfSent(sent, buffers) && s in sent && s.Valid() && k < |s.chunks| && Arrive(s, k) !in before
    requires BufferTracks(Arrived(before, s), buffers, s)
    ensures BufferTracks(Arrived(before + [Arrive(s, k)], s), Step(buffers, Arrive(s, k)).0, s)
  {
    ArrivedStep(before, Arrive(s, k), s);
    NotYet(before, s, k);
    TrackOwn(sent, buffers, Arrived(before, s), s, k);
  }

  lemma TrackPushOwn(sent: set<Signal>, before: seq<Event>, e: Event)
    requires OneMore(sent, before, e)
    requires BufferTracks(Arrived(before, e.signal), AfterIf(before), e.signal)
    ensures BufferTracks(Arrived(before + [e], e.signal), AfterIf(before + [e]), e.signal)
  {
    assert e == Arrive(e.signal, e.k);
    OwnArrival(sent, AfterIf(before), before, e.signal, e.k);
    AfterPush(before, e);
  }

  lemma NotYet(before: seq<Event>, s: Signal, k: nat)
    requires Arrive(s, k) !in before
    ensures k + 1 !in Arrived(before, s)
  {
  }

  lemma HeldIsArrived(buffers: Buffers, arrived: set<nat>, s: Signal, k: nat)
    requires BufferTracks(arrived, buffers, s) && k < |s.chunks| && k + 1 !in arrived
    ensures Held(buffers, s) == arrived
  {
    assert k + 1 in UpTo(|s.chunks|);
  }

  lemma TrackPushOther(sent: set<Signal>, before: seq<Event>, e: Event, s: Signal)
    requires OneMore(sent, before, e) && s in sent && s.Valid() && e.signal != s
    requires BufferTracks(Arrived(before, s), AfterIf(before), s)
    ensures BufferTracks(Arrived(before + [e], s), AfterIf(before + [e]), s)
  {
    ArrivedStep(before, e, s);
    AfterPush(before, e);
    OtherKey(sent, e.signal, s);
    TrackOther(sent, After(before), Arrived(before, s), s, e.signal, e.k);
    assert Arrived(before, s) + {} == Arrived(before, s);
  }

  lemma TrackPush(sent: set<Signal>, before: seq<Event>, e: Event, events: seq<Event>, s: Signal)
    requires OneMore(sent, before, e) && s in sent && s.Valid() && events == before + [e]
    requires BufferTracks(Arrived(before, s), AfterIf(before), s)
    ensures BufferTracks(Arrived(events, s), AfterIf(events), s)
  {
    if e.signal == s {
      TrackPushOwn(sent, before, e);
    } else {
      TrackPushOther(sent, before, e, s);
    }
  }

  lemma NothingTracked(s: Signal)
    ensures BufferTracks(Arrived([], s), AfterIf([]), s)
  {
    assert Arrived([], s) == {};
  }

  lemma {:induction false} BuffersTrackArrivals(sent: set<Signal>, events: seq<Event>, s: Signal)
    requires Network(sent, events) && Orderly(events) && s in sent && s.Valid()
    ensures BufferTracks(Arrived(events, s), AfterIf(events), s)
  {
    if events == [] {
      NothingTracked(s);
    } else {
      var before, e := events[..|events| - 1], events[|events| - 1];
      LastArrives(sent, events);
      BuffersTrackArrivals(sent, before, s);
      assert events == before + [e];
      TrackPush(sent, before, e, events, s);
    }
  }

  lemma LastArrives(sent: set<Signal>, events: seq<Event>)
    requires Network(sent, events) && Orderly(events) && events != []
    ensures var before, e := events[..|events| - 1], events[|events| - 1];
      Network(sent, before) && Orderly(before) && OneMore(sent, before, e)
  {
    assert events[|events| - 1] in events;
    BuffersStaySound(sent, events[..|events| - 1]);
  }

  /** An arrival makes the receiver emit its message exactly when it is the last
      missing fragment. */
  lemma EmitsOnLastMissing(sent: set<Signal>, events: seq<Event>, n: nat)
    requires Network(sent, events) && Orderly(events) && n < |events|
    ensures EmittedAt(events, n)
         == if AllArrived(events[..n + 1], events[n].signal) then Some(events[n].signal.Whole()) else None
  {
    PrefixIs(sent, events, n + 1);
    var before, e := events[..n], events[n];
    assert events[..n + 1] == before + [e];
    EmitsAtEnd(sent, before, e);
  }

  lemma PrefixIs(sent: set<Signal>, events: seq<Event>, n: nat)
    requires Network(sent, events) && Orderly(events) && n <= |events|
    ensures Network(sent, events[..n]) && Orderly(events[..n])
  {
    assert forall e :: e in events[..n] ==> e in events;
  }

  lemma EmitsAtEnd(sent: set<Signal>, before: seq<Event>, e: Event)
    requires Network(sent, before + [e]) && Orderly(before + [e])
    ensures AllSendable(before) && Sendable(e)
    ensures e.Arrive? && Step(After(before), e).1
         == if AllArrived(before + [e], e.signal) then Some(e.signal.Whole()) else None
  {
    assert (before + [e])[..|before|] == before;
    LastArrives(sent, before + [e]);
    BuffersTrackArrivals(sent, before, e.signal);
    EmitsPush(sent, before, e);
  }

  lemma EmitsPush(sent: set<Signal>, before: seq<Event>, e: Event)
    requires OneMore(sent, before, e) && BufferTracks(Arrived(before, e.signal), AfterIf(before), e.signal)
    ensures Step(After(before), e).1 == if AllArrived(before + [e], e.signal) then Some(e.signal.Whole()) else None
  {
    ArrivedStep(before, e, e.signal);
    NotYet(before, e.signal, e.k);
    HeldIsArrived(AfterIf(before), Arrived(before, e.signal), e.signal, e.k);
    assert e == Arrive(e.signal, e.k);
    ArrivalStep(sent, After(before), e.signal, e.k);
  }

  /** If every fragment of a message arrives, exactly one event emits it. */
  lemma EmittedExactlyOnce(sent: set<Signal>, events: seq<Event>, s: Signal) returns (n: nat)
    requires Network(sent, events) && Orderly(events) && s in sent && s.chunks != []
    requires AllArrived(events, s)
    ensures n < |events| && events[n].signal == s && EmittedAt(events, n) == Some(s.Whole())
    ensures forall m | 0 <= m < |events| && events[m].signal == s && m != n :: EmittedAt(events, m) == None
  {
    n := LastFragment(events, s);
    EmitsOnLastMissing(sent, events, n);
    forall m | 0 <= m < |events| && events[m].signal == s && m != n
      ensures EmittedAt(events, m) == None
    {
      EmitsOnLastMissing(sent, events, m);
      NotAllBefore(sent, events, s, m, n);
    }
  }

  lemma LastFragment(events: seq<Event>, s: Signal) returns (n: nat)
    requires Orderly(events) && s.chunks != [] && AllArrived(events, s)
    ensures n < |events| && events[n].signal == s && AllArrived(events[..n + 1], s)
    ensures forall m | n < m < |events| :: events[m].signal != s
  {
    assert 1 in Arrived(events, s);
    var first :| 0 <= first < |events| && events[first] == Arrive(s, 0);
    n := |events| - 1;
    while events[n].signal != s
      invariant first <= n < |events|
      invariant forall m | n < m < |events| :: events[m].signal != s
      decreases n
    {
      n := n - 1;
    }
    SameArrivals(events, s, n);
  }

  lemma SameArrivals(events: seq<Event>, s: Signal, n: nat)
    requires Orderly(events) && n < |events|
    requires forall m | n < m < |events| :: events[m].signal != s
    ensures Arrived(events[..n + 1], s) == Arrived(events, s)
  {
    forall k: nat | Arrive(s, k) in events
      ensures Arrive(s, k) in events[..n + 1]
    {
      var i :| 0 <= i < |events| && events[i] == Arrive(s, k);
      assert i <= n && events[..n + 1][i] == events[i];
    }
  }

  lemma NotAllBefore(sent: set<Signal>, events: seq<Event>, s: Signal, m: nat, n: nat)
    requires Network(sent, events) && Orderly(events) && m < n < |events| && events[n].signal == s
    ensures !AllArrived(events[..m + 1], s)
  {
    var e := events[n];
    assert e in events && e !in events[..m + 1];
    assert e.k + 1 in UpTo(|s.chunks|) && e.k + 1 !in Arrived(events[..m + 1], s);
  }

  // ------------------------------------------------------------------
  // Any fragments at all
  // ------------------------------------------------------------------

  function Feed(buffers: Buffers, sender: string, fs: seq<Fragment>): Buffers {
    if fs == [] then buffers else Receive(Feed(buffers, sender, fs[..|fs| - 1]), sender, fs[|fs| - 1]).0
  }

  function Numbers(fs: seq<Fragment>): set<nat> { set f | f in fs :: f.number }

  /** The chunk that came last under a number. */
  function LastChunk(fs: seq<Fragment>, number: nat): string {
    if fs == [] then ""
    else if fs[|fs| - 1].number == number then fs[|fs| - 1].chunk
    else LastChunk(fs[..|fs| - 1], number)
  }

  function InOrder(fs: seq<Fragment>, from: nat, total: nat): string
    decreases total + 1 - from
  {
    if from > total then "" else LastChunk(fs, from) + InOrder(fs, from + 1, total)
  }

  /** Fragments under one id, with at no earlier moment as many numbers as the first of them
      announced. */
  ghost predicate Unfinished(fs: seq<Fragment>, id: string) {
    && (forall f :: f in fs ==> f.id == id)
    && forall k :: 0 < k < |fs| ==> |Numbers(fs[..k])| != fs[0].total
  }

  ghost predicate Collects(b: Buffer, fs: seq<Fragment>) {
    && fs != [] && b.total == fs[0].total && b.parts.Keys == Numbers(fs)
    && forall n :: n in b.parts ==> b.parts[n] == LastChunk(fs, n)
  }

  lemma LastChunkOfNone(fs: seq<Fragment>, number: nat)
    requires number !in Numbers(fs)
    ensures LastChunk(fs, number) == ""
  {
  }

  lemma GrowCollects(buffers: Buffers, key: string, before: seq<Fragment>, f: Fragment)
    requires before == [] ==> key !in buffers
    requires before != [] ==> key in buffers && Collects(buffers[key], before)
    ensures Collects(Grow(buffers, key, f), before + [f])
  {
    var fs := before + [f];
    assert fs[..|before|] == before;
    assert Numbers(fs) == Numbers(before) + {f.number};
  }

  lemma {:induction false} AssembleCollected(b: Buffer, fs: seq<Fragment>, from: nat)
    requires Collects(b, fs)
    ensures Assemble(b.parts, from, b.total) == InOrder(fs, from, b.total)
    decreases b.total + 1 - from
  {
    if from <= b.total {
      AssembleCollected(b, fs, from + 1);
      if from !in b.parts {
        LastChunkOfNone(fs, from);
      }
    }
  }

  lemma {:induction false} FeedHolds(buffers: Buffers, sender: string, fs: seq<Fragment>, id: string)
    requires BufferKey(sender, id) !in buffers && fs != [] && Unfinished(fs, id)
    requires |Numbers(fs)| != fs[0].total
    ensures var key, fed := BufferKey(sender, id), Feed(buffers, sender, fs);
      key in fed && Collects(fed[key], fs)
    decreases |fs|, 1
  {
    LastGrows(buffers, sender, fs, id);
    var b := Grow(Feed(buffers, sender, fs[..|fs| - 1]), BufferKey(sender, id), fs[|fs| - 1]);
    assert |b.parts| == |b.parts.Keys|;
  }

  lemma UnfinishedBefore(fs: seq<Fragment>, id: string)
    requires |fs| > 1 && Unfinished(fs, id)
    ensures Unfinished(fs[..|fs| - 1], id) && |Numbers(fs[..|fs| - 1])| != fs[0].total
  {
    var before := fs[..|fs| - 1];
    forall k | 0 < k < |before| ensures |Numbers(before[..k])| != before[0].total {
      assert before[..k] == fs[..k];
    }
  }

  /** Whatever fragments come under an id, with any numbers and totals, repeated or not: the
      first time there are as many different numbers as the first one announced, and not
      before, the chunks that came last under the numbers from 1 to that are put together.
      So a first fragment that announces none is never followed by a message. */
  lemma AnyFragmentsIff(buffers: Buffers, sender: string, fs: seq<Fragment>, id: string)
    requires BufferKey(sender, id) !in buffers && fs != [] && Unfinished(fs, id)
    ensures var last, total := fs[|fs| - 1], fs[0].total;
      Receive(Feed(buffers, sender, fs[..|fs| - 1]), sender, last).1 ==
      if |Numbers(fs)| == total then Some(Emission(sender, InOrder(fs, 1, total))) else None
    ensures fs[0].total == 0 ==> |Numbers(fs)| != 0
  {
    LastGrows(buffers, sender, fs, id);
    var b := Grow(Feed(buffers, sender, fs[..|fs| - 1]), BufferKey(sender, id), fs[|fs| - 1]);
    assert |b.parts| == |b.parts.Keys|;
    AssembleCollected(b, fs, 1);
    assert fs[0].number in Numbers(fs);
  }

  lemma {:induction false} LastGrows(buffers: Buffers, sender: string, fs: seq<Fragment>, id: string)
    requires BufferKey(sender, id) !in buffers && fs != [] && Unfinished(fs, id)
    ensures fs[|fs| - 1].id == id
    ensures Collects(Grow(Feed(buffers, sender, fs[..|fs| - 1]), BufferKey(sender, id), fs[|fs| - 1]), fs)
    decreases |fs|, 0
  {
    var n := |fs| - 1;
    if n > 0 {
      UnfinishedBefore(fs, id);
      FeedHolds(buffers, sender, fs[..n], id);
    }
    GrowCollects(Feed(buffers, sender, fs[..n]), BufferKey(sender, id), fs[..n], fs[n]);
    assert fs == fs[..n] + [fs[n]];
  }
}
