/** From microphone callbacks of any size to the fixed-size frames the voice encoder
    takes, through the optional echo canceller with its own frame size. */
module VoiceFraming {
  import opened Text

  const FRAME_SIZE := 960

  /** The echo canceller's frame size and its step: from its state and a chunk, its next
      state and the chunk it leaves in place. `loud` is the gate on a whole frame. */
  datatype Setup<!S(!new), !P(!new)> = Setup(
    aecFrame: nat, capture: bool, cancel: (P, seq<S>) -> (P, seq<S>), loud: seq<S> -> bool)
  {
    ghost predicate Valid() {
      && aecFrame > 0
      && forall p, chunk :: KeepsLength(p, chunk)
    }

    ghost predicate KeepsLength(p: P, chunk: seq<S>) { |cancel(p, chunk).1| == |chunk| }
  }

  // ------------------------------------------------------------------
  // The echo canceller's blocks
  // ------------------------------------------------------------------

  datatype Captured<S, P> = Captured(processor: P, residue: seq<S>, out: seq<S>)

  ghost function Capture<S(!new), P(!new)>(u: Setup<S, P>, p: P, buffer: seq<S>): Captured<S, P>
    requires u.Valid()
    decreases |buffer|
  {
    if |buffer| < u.aecFrame then Captured(p, buffer, [])
    else
      var (p', chunk) := u.cancel(p, buffer[..u.aecFrame]);
      var rest := Capture(u, p', buffer[u.aecFrame..]);
      rest.(out := chunk + rest.out)
  }

  lemma {:induction false} CaptureSplits<S(!new), P(!new)>(u: Setup<S, P>, p: P, x: seq<S>, y: seq<S>)
    requires u.Valid()
    ensures var first := Capture(u, p, x);
      var second := Capture(u, first.processor, first.residue + y);
      Capture(u, p, x + y) == second.(out := first.out + second.out)
    decreases |x|
  {
    if |x| >= u.aecFrame {
      var (p', chunk) := u.cancel(p, x[..u.aecFrame]);
      var more := x[u.aecFrame..];
      CaptureSplits(u, p', more, y);
      assert (x + y)[..u.aecFrame] == x[..u.aecFrame] && (x + y)[u.aecFrame..] == more + y;
      var first := Capture(u, p', more);
      var second := Capture(u, first.processor, first.residue + y);
      Associative(chunk, first.out, second.out);
    } else {
      var second := Capture(u, p, x + y);
      assert [] + second.out == second.out;
    }
  }

  /** A further whole chunk is cancelled in the state that all chunks before it left, and
      its result comes behind theirs. */
  lemma NextBlock<S(!new), P(!new)>(u: Setup<S, P>, p: P, before: seq<S>, chunk: seq<S>)
    requires u.Valid() && |chunk| == u.aecFrame
    requires Capture(u, p, before).residue == []
    ensures var done := Capture(u, p, before);
      var (next, cleaned) := u.cancel(done.processor, chunk);
      Capture(u, p, before + chunk) == Captured(next, [], done.out + cleaned)
  {
    CaptureSplits(u, p, before, chunk);
    var done := Capture(u, p, before);
    assert done.residue + chunk == chunk && chunk[..u.aecFrame] == chunk;
    var (next, cleaned) := u.cancel(done.processor, chunk);
    assert cleaned + [] == cleaned;
  }

  lemma {:induction false} CaptureKeepsCount<S(!new), P(!new)>(u: Setup<S, P>, p: P, buffer: seq<S>)
    requires u.Valid()
    ensures var c := Capture(u, p, buffer);
      && |c.residue| < u.aecFrame && |c.out| + |c.residue| == |buffer|
      && c.residue == buffer[|c.out|..]
    decreases |buffer|
  {
    if |buffer| >= u.aecFrame {
      var (p', chunk) := u.cancel(p, buffer[..u.aecFrame]);
      assert u.KeepsLength(p, buffer[..u.aecFrame]);
      CaptureKeepsCount(u, p', buffer[u.aecFrame..]);
    }
  }

  // ------------------------------------------------------------------
  // The encoder's frames
  // ------------------------------------------------------------------

  function Frames<S>(acc: seq<S>): seq<seq<S>> {
    if |acc| < FRAME_SIZE then [] else [acc[..FRAME_SIZE]] + Frames(acc[FRAME_SIZE..])
  }

  function Rest<S>(acc: seq<S>): seq<S> {
    if |acc| < FRAME_SIZE then acc else Rest(acc[FRAME_SIZE..])
  }

  lemma {:induction false} FramesSplit<S>(x: seq<S>, y: seq<S>)
    ensures Frames(x + y) == Frames(x) + Frames(Rest(x) + y)
    ensures Rest(x + y) == Rest(Rest(x) + y)
    decreases |x|
  {
    if |x| >= FRAME_SIZE {
      FramesSplit(x[FRAME_SIZE..], y);
      assert (x + y)[..FRAME_SIZE] == x[..FRAME_SIZE] && (x + y)[FRAME_SIZE..] == x[FRAME_SIZE..] + y;
      Associative([x[..FRAME_SIZE]], Frames(x[FRAME_SIZE..]), Frames(Rest(x[FRAME_SIZE..]) + y));
    }
  }

  /** Frame `k` is the k-th run of 960 samples, and the rest is what is left. */
  lemma {:induction false} FramesAreRuns<S>(acc: seq<S>)
    ensures |Frames(acc)| == |acc| / 960
    ensures forall k :: 0 <= k < |Frames(acc)| ==> Frames(acc)[k] == acc[k * 960..k * 960 + 960]
    ensures Rest(acc) == acc[|acc| - |acc| % 960..]
    decreases |acc|
  {
    if |acc| >= FRAME_SIZE {
      var more := acc[FRAME_SIZE..];
      FramesAreRuns(more);
      forall k | 0 < k < |Frames(acc)|
        ensures Frames(acc)[k] == acc[k * FRAME_SIZE..k * FRAME_SIZE + FRAME_SIZE]
      {
        assert Frames(acc)[k] == Frames(more)[k - 1];
      }
    }
  }

  function Gate<S>(loud: seq<S> -> bool, frames: seq<seq<S>>): seq<seq<S>> {
    if frames == [] then []
    else (if loud(frames[0]) then [frames[0]] else []) + Gate(loud, frames[1..])
  }

  lemma {:induction false} GateConcat<S>(loud: seq<S> -> bool, x: seq<seq<S>>, y: seq<seq<S>>)
    ensures Gate(loud, x + y) == Gate(loud, x) + Gate(loud, y)
    decreases |x|
  {
    if x == [] {
      assert x + y == y;
    } else {
      assert (x + y)[0] == x[0] && (x + y)[1..] == x[1..] + y;
      GateConcat(loud, x[1..], y);
      Associative(if loud(x[0]) then [x[0]] else [], Gate(loud, x[1..]), Gate(loud, y));
    }
  }

  // ------------------------------------------------------------------
  // The input callback
  // ------------------------------------------------------------------

  /** What the callback keeps between calls, and all frames it has formed and sent. */
  datatype Mic<S, P> = Mic(processor: P, buffer: seq<S>, acc: seq<S>, frames: seq<seq<S>>, sent: seq<seq<S>>)

  /** What the callback appends to the accumulator for some samples. */
  ghost function Cleaned<S(!new), P(!new)>(u: Setup<S, P>, p: P, buffer: seq<S>, data: seq<S>): Captured<S, P>
    requires u.Valid()
  {
    if u.capture then Capture(u, p, buffer + data) else Captured(p, buffer, data)
  }

  ghost function Callback<S(!new), P(!new)>(u: Setup<S, P>, m: Mic<S, P>, data: seq<S>): Mic<S, P>
    requires u.Valid()
  {
    var c := Cleaned(u, m.processor, m.buffer, data);
    var acc := m.acc + c.out;
    Mic(c.processor, c.residue, Rest(acc), m.frames + Frames(acc), m.sent + Gate(u.loud, Frames(acc)))
  }

  ghost function Callbacks<S(!new), P(!new)>(u: Setup<S, P>, m: Mic<S, P>, inputs: seq<seq<S>>): Mic<S, P>
    requires u.Valid()
  {
    if inputs == [] then m
    else Callback(u, Callbacks(u, m, inputs[..|inputs| - 1]), inputs[|inputs| - 1])
  }

  class InputStream<S(!new), P(!new)> {
    const setup: Setup<S, P>
    var processor: P
    var buffer: seq<S>
    var acc: seq<S>
    var sent: seq<seq<S>>
    ghost var frames: seq<seq<S>>

    ghost function Now(): Mic<S, P>
      reads this
    {
      Mic(processor, buffer, acc, frames, sent)
    }

    constructor (setup: Setup<S, P>, processor: P)
      ensures this.setup == setup && Now() == Mic(processor, [], [], [], [])
    {
      this.setup, this.processor := setup, processor;
      buffer, acc, sent, frames := [], [], [], [];
    }

    /** `CaptureHalf::process`, with the accumulator as its output. */
    method Process(input: seq<S>)
      requires setup.Valid()
      modifies this`processor, this`buffer, this`acc
      ensures var c := Capture(setup, old(processor), old(buffer) + input);
        processor == c.processor && buffer == c.residue && acc == old(acc) + c.out
    {
      buffer := buffer + input;
      ghost var all := buffer;
      assert acc + Capture(setup, processor, all).out == old(acc) + Capture(setup, processor, all).out;
      while |buffer| >= setup.aecFrame
        invariant Capture(setup, processor, buffer).processor == Capture(setup, old(processor), all).processor
        invariant Capture(setup, processor, buffer).residue == Capture(setup, old(processor), all).residue
        invariant acc + Capture(setup, processor, buffer).out == old(acc) + Capture(setup, old(processor), all).out
        decreases |buffer|
      {
        var chunk := buffer[..setup.aecFrame];
        ghost var (p', out) := setup.cancel(processor, chunk);
        Associative(acc, out, Capture(setup, p', buffer[setup.aecFrame..]).out);
        buffer := buffer[setup.aecFrame..];
        var (next, cleaned) := setup.cancel(processor, chunk);
        processor := next;
        acc := acc + cleaned;
      }
      assert acc + [] == acc;
    }

    /** The loop that forms frames from the accumulator. */
    method DrainFrames()
      modifies this`acc, this`sent, this`frames
      ensures acc == Rest(old(acc)) && frames == old(frames) + Frames(old(acc))
      ensures sent == old(sent) + Gate(setup.loud, Frames(old(acc)))
    {
      ghost var all := Frames(acc);
      while |acc| >= FRAME_SIZE
        invariant Rest(acc) == Rest(old(acc))
        invariant frames + Frames(acc) == old(frames) + all
        invariant sent + Gate(setup.loud, Frames(acc)) == old(sent) + Gate(setup.loud, all)
        decreases |acc|
      {
        var frame := acc[..FRAME_SIZE];
        Associative(frames, [frame], Frames(acc[FRAME_SIZE..]));
        Associative(sent, if setup.loud(frame) then [frame] else [], Gate(setup.loud, Frames(acc[FRAME_SIZE..])));
        assert sent + [] == sent;
        acc := acc[FRAME_SIZE..];
        frames := frames + [frame];
        if setup.loud(frame) {
          sent := sent + [frame];
        }
      }
      assert frames + [] == frames && sent + [] == sent;
    }

    /** The input callback. */
    method OnInput(data: seq<S>)
      requires setup.Valid()
      modifies this
      ensures Now() == Callback(setup, old(Now()), data)
    {
      if setup.capture {
        Process(data);
      } else {
        acc := acc + data;
      }
      DrainFrames();
    }
  }

  // ------------------------------------------------------------------
  // Framing does not depend on the callbacks
  // ------------------------------------------------------------------

  function Flatten<S>(inputs: seq<seq<S>>): seq<S> {
    if inputs == [] then [] else Flatten(inputs[..|inputs| - 1]) + inputs[|inputs| - 1]
  }

  ghost function Start<S, P>(p: P): Mic<S, P> { Mic(p, [], [], [], []) }

  lemma CleanedSplits<S(!new), P(!new)>(u: Setup<S, P>, p: P, x: seq<S>, y: seq<S>)
    requires u.Valid()
    ensures var first := Cleaned(u, p, [], x);
      var second := Cleaned(u, first.processor, first.residue, y);
      Cleaned(u, p, [], x + y) == second.(out := first.out + second.out)
  {
    assert [] + x == x && [] + (x + y) == x + y;
    if u.capture {
      CaptureSplits(u, p, x, y);
    }
  }

  /** Feeding some samples and then others comes to feeding them at once. */
  lemma CallbackSplits<S(!new), P(!new)>(u: Setup<S, P>, p: P, x: seq<S>, y: seq<S>)
    requires u.Valid()
    ensures Callback(u, Callback(u, Start(p), x), y) == Callback(u, Start(p), x + y)
  {
    CleanedSplits(u, p, x, y);
    var first := Cleaned(u, p, [], x);
    var second := Cleaned(u, first.processor, first.residue, y);
    FramesSplit(first.out, second.out);
    GateConcat(u.loud, Frames(first.out), Frames(Rest(first.out) + second.out));
    FromNothing(first.out);
    FromNothing(first.out + second.out);
    assert [] + Frames(first.out) == Frames(first.out);
    assert [] + Gate(u.loud, Frames(first.out)) == Gate(u.loud, Frames(first.out));
    var all := Frames(first.out + second.out);
    assert [] + all == all && [] + Gate(u.loud, all) == Gate(u.loud, all);
  }

  lemma FromNothing<S>(s: seq<S>)
    ensures [] + s == s
  {
  }

  lemma NoInput<S(!new), P(!new)>(u: Setup<S, P>, p: P)
    requires u.Valid()
    ensures Callback(u, Start(p), []) == Start(p)
  {
    FromNothing<S>([]);
  }

  /** Whatever sizes the callbacks come in, the state after them and every frame formed
      and sent is what one callback with all the samples would give. */
  lemma {:induction false} CallbacksAreOne<S(!new), P(!new)>(u: Setup<S, P>, p: P, inputs: seq<seq<S>>)
    requires u.Valid()
    ensures Callbacks(u, Start(p), inputs) == Callback(u, Start(p), Flatten(inputs))
    decreases |inputs|
  {
    if inputs == [] {
      NoInput(u, p);
    } else {
      var before, last := inputs[..|inputs| - 1], inputs[|inputs| - 1];
      CallbacksAreOne(u, p, before);
      CallbackSplits(u, p, Flatten(before), last);
    }
  }

  /** Two ways of cutting the same samples into callbacks give the same frames. */
  lemma FramingIndependent<S(!new), P(!new)>(u: Setup<S, P>, p: P, inputs: seq<seq<S>>, others: seq<seq<S>>)
    requires u.Valid() && Flatten(inputs) == Flatten(others)
    ensures Callbacks(u, Start(p), inputs) == Callbacks(u, Start(p), others)
  {
    CallbacksAreOne(u, p, inputs);
    CallbacksAreOne(u, p, others);
  }

  /** What is there after any callbacks, in terms of what the canceller makes of all the
      samples at once. */
  lemma FromStart<S(!new), P(!new)>(u: Setup<S, P>, p: P, inputs: seq<seq<S>>)
    requires u.Valid()
    ensures var c := Cleaned(u, p, [], Flatten(inputs));
      Callbacks(u, Start(p), inputs)
      == Mic(c.processor, c.residue, Rest(c.out), Frames(c.out), Gate(u.loud, Frames(c.out)))
  {
    CallbacksAreOne(u, p, inputs);
    var c := Cleaned(u, p, [], Flatten(inputs));
    FromNothing(c.out);
    FromNothing(Frames(c.out));
    FromNothing(Gate(u.loud, Frames(c.out)));
  }

  /** After any callbacks, every sample is in a frame or in one of the two residues, and
      these are shorter than the canceller's and the encoder's frame. */
  lemma SamplesConserved<S(!new), P(!new)>(u: Setup<S, P>, p: P, inputs: seq<seq<S>>)
    requires u.Valid()
    ensures var m := Callbacks(u, Start(p), inputs);
      && |Flatten(inputs)| == FRAME_SIZE * |m.frames| + |m.acc| + |m.buffer|
      && |m.buffer| < u.aecFrame && |m.acc| < FRAME_SIZE
      && (forall k :: 0 <= k < |m.frames| ==> |m.frames[k]| == FRAME_SIZE)
      && m.sent == Gate(u.loud, m.frames)
  {
    var all := Flatten(inputs);
    FromStart(u, p, inputs);
    FromNothing(all);
    if u.capture {
      CaptureKeepsCount(u, p, all);
    }
    FramesAreRuns(Cleaned(u, p, [], all).out);
  }

  lemma {:induction false} GatePicks<S(!new)>(loud: seq<S> -> bool, frames: seq<seq<S>>, chosen: nat -> bool)
      returns (at: seq<nat>)
    requires forall i: nat :: i < |frames| ==> chosen(i) == loud(frames[i])
    ensures Picks(frames, Gate(loud, frames), at, chosen)
    decreases |frames|
  {
    if frames == [] {
      at := [];
    } else {
      var n := |frames| - 1;
      var before := GatePicks(loud, frames[..n], chosen);
      GateConcat(loud, frames[..n], [frames[n]]);
      assert frames == frames[..n] + [frames[n]];
      at := PicksMore(frames[..n], Gate(loud, frames[..n]), before, chosen, frames[n]);
    }
  }

  /** After any callbacks exactly the loud frames were sent, each once and in order: all of
      them if all are loud, none if none is. */
  lemma SentAreTheLoud<S(!new), P(!new)>(u: Setup<S, P>, p: P, inputs: seq<seq<S>>) returns (at: seq<nat>)
    requires u.Valid()
    ensures var m := Callbacks(u, Start(p), inputs);
      && Picks(m.frames, m.sent, at, (i: nat) => i < |m.frames| && u.loud(m.frames[i]))
      && ((forall f :: f in m.frames ==> u.loud(f)) ==> m.sent == m.frames)
      && ((forall f :: f in m.frames ==> !u.loud(f)) ==> m.sent == [])
  {
    var m := Callbacks(u, Start(p), inputs);
    var chosen := (i: nat) => i < |m.frames| && u.loud(m.frames[i]);
    FromStart(u, p, inputs);
    at := GatePicks(u.loud, m.frames, chosen);
    PicksAllOrNone(m.frames, m.sent, at, chosen);
  }

  // ------------------------------------------------------------------
  // What the frames are made of
  // ------------------------------------------------------------------

  function Concat<S>(parts: seq<seq<S>>): seq<S> {
    if parts == [] then [] else parts[0] + Concat(parts[1..])
  }

  /** The k-th whole chunk of the input. */
  function ChunkAt<S>(all: seq<S>, size: nat, k: nat): seq<S>
    requires (k + 1) * size <= |all|
  {
    MulStep(k, size);
    all[k * size..(k + 1) * size]
  }

  lemma MulStep(k: nat, size: nat)
    ensures (k + 1) * size == k * size + size
  {
  }

  /** The canceller went through some chunks, from state to state. */
  ghost predicate Cancels<S(!new), P(!new)>(
      u: Setup<S, P>, p: P, all: seq<S>, states: seq<P>, outs: seq<seq<S>>)
  {
    && |states| == |outs| + 1 && states[0] == p && |outs| * u.aecFrame <= |all|
    && forall k :: 0 <= k < |outs| ==> CancelsAt(u, all, states, outs, k)
  }

  ghost predicate CancelsAt<S(!new), P(!new)>(u: Setup<S, P>, all: seq<S>, states: seq<P>, outs: seq<seq<S>>, k: nat)
    requires |states| == |outs| + 1 && k < |outs|
  {
    && (k + 1) * u.aecFrame <= |all|
    && (states[k + 1], outs[k]) == u.cancel(states[k], ChunkAt(all, u.aecFrame, k))
  }

  lemma ChunkBehind<S>(all: seq<S>, size: nat, k: nat)
    requires size <= |all| && (k + 1) * size <= |all| - size
    ensures (k + 2) * size <= |all| && ChunkAt(all[size..], size, k) == ChunkAt(all, size, k + 1)
  {
    assert (k + 2) * size == (k + 1) * size + size;
    assert (k + 1) * size == k * size + size;
  }

  /** One chunk in front of what was cancelled from its next state on. */
  lemma CancelsFirst<S(!new), P(!new)>(
      u: Setup<S, P>, p: P, all: seq<S>, p': P, chunk: seq<S>, states: seq<P>, outs: seq<seq<S>>)
    requires u.aecFrame <= |all| && (p', chunk) == u.cancel(p, all[..u.aecFrame])
    requires Cancels(u, p', all[u.aecFrame..], states, outs)
    ensures Cancels(u, p, all, [p] + states, [chunk] + outs)
  {
    var more, moreOuts := [p] + states, [chunk] + outs;
    assert (|outs| + 1) * u.aecFrame == |outs| * u.aecFrame + u.aecFrame;
    forall k | 0 <= k < |moreOuts| ensures CancelsAt(u, all, more, moreOuts, k) {
      if k > 0 {
        assert CancelsAt(u, all[u.aecFrame..], states, outs, k - 1);
        ChunkBehind(all, u.aecFrame, k - 1);
      } else {
        assert ChunkAt(all, u.aecFrame, 0) == all[..u.aecFrame];
      }
    }
  }

  lemma {:induction false} CaptureCancels<S(!new), P(!new)>(u: Setup<S, P>, p: P, all: seq<S>)
      returns (states: seq<P>, outs: seq<seq<S>>)
    requires u.Valid()
    ensures Cancels(u, p, all, states, outs)
    ensures Capture(u, p, all) == Captured(states[|outs|], all[|outs| * u.aecFrame..], Concat(outs))
    decreases |all|
  {
    if |all| < u.aecFrame {
      states, outs := [p], [];
    } else {
      var (p', chunk) := u.cancel(p, all[..u.aecFrame]);
      var rest := all[u.aecFrame..];
      var more, moreOuts := CaptureCancels(u, p', rest);
      states, outs := [p] + more, [chunk] + moreOuts;
      CancelsFirst(u, p, all, p', chunk, more, moreOuts);
      assert outs[1..] == moreOuts;
      MulStep(|moreOuts|, u.aecFrame);
      DropTwice(all, u.aecFrame, |moreOuts| * u.aecFrame);
    }
  }

  lemma DropTwice<S>(all: seq<S>, n: nat, m: nat)
    requires n + m <= |all|
    ensures all[n..][m..] == all[n + m..]
  {
  }

  lemma {:induction false} FramesThenRest<S>(acc: seq<S>)
    ensures Concat(Frames(acc)) + Rest(acc) == acc
    decreases |acc|
  {
    if |acc| >= FRAME_SIZE {
      var more := acc[FRAME_SIZE..];
      FramesThenRest(more);
      assert ([acc[..FRAME_SIZE]] + Frames(more))[1..] == Frames(more);
      Associative(acc[..FRAME_SIZE], Concat(Frames(more)), Rest(more));
      assert acc == acc[..FRAME_SIZE] + more;
    }
  }

  /** After any callbacks without a canceller, the frames and what is left of them hold
      the samples as they came. */
  lemma FramesHoldInput<S(!new), P(!new)>(u: Setup<S, P>, p: P, inputs: seq<seq<S>>)
    requires u.Valid() && !u.capture
    ensures var m := Callbacks(u, Start(p), inputs);
      Concat(m.frames) + m.acc == Flatten(inputs) && m.buffer == [] && m.processor == p
  {
    FromStart(u, p, inputs);
    FramesThenRest(Flatten(inputs));
  }

  /** And with one, they hold what it made, chunk by chunk and from state to state, of all
      whole chunks; what is left of the last chunk waits. */
  lemma FramesHoldCancelled<S(!new), P(!new)>(u: Setup<S, P>, p: P, inputs: seq<seq<S>>)
      returns (states: seq<P>, outs: seq<seq<S>>)
    requires u.Valid() && u.capture
    ensures var m, all := Callbacks(u, Start(p), inputs), Flatten(inputs);
      && Cancels(u, p, all, states, outs) && |all| - |outs| * u.aecFrame < u.aecFrame
      && Concat(m.frames) + m.acc == Concat(outs)
      && m.buffer == all[|outs| * u.aecFrame..] && m.processor == states[|outs|]
  {
    var all := Flatten(inputs);
    FromStart(u, p, inputs);
    FromNothing(all);
    states, outs := CaptureCancels(u, p, all);
    CaptureKeepsCount(u, p, all);
    FramesThenRest(Concat(outs));
  }

  /** With nothing to cancel, or a canceller that leaves its chunks alone, the frames are
      the runs of 960 input samples in order: none is lost, repeated or moved. */
  lemma FramesAreInputRuns<S(!new), P(!new)>(u: Setup<S, P>, p: P, inputs: seq<seq<S>>, k: nat)
    requires u.Valid()
    requires u.capture ==> forall q, chunk :: Unchanged(u, q, chunk)
    requires k < |Callbacks(u, Start(p), inputs).frames|
    ensures (k + 1) * FRAME_SIZE <= |Flatten(inputs)|
    ensures Callbacks(u, Start(p), inputs).frames[k] == Flatten(inputs)[k * FRAME_SIZE..(k + 1) * FRAME_SIZE]
  {
    var all := Flatten(inputs);
    FromStart(u, p, inputs);
    FromNothing(all);
    if u.capture {
      UnchangedCapture(u, p, all);
    }
    RunOfPrefix(Cleaned(u, p, [], all).out, all, k);
  }

  lemma RunOfPrefix<S>(out: seq<S>, all: seq<S>, k: nat)
    requires out <= all && k < |Frames(out)|
    ensures (k + 1) * FRAME_SIZE <= |all|
    ensures Frames(out)[k] == all[k * FRAME_SIZE..(k + 1) * FRAME_SIZE]
  {
    FramesAreRuns(out);
    assert out == all[..|out|];
  }

  ghost predicate Unchanged<S(!new), P(!new)>(u: Setup<S, P>, p: P, chunk: seq<S>) { u.cancel(p, chunk).1 == chunk }

  lemma {:induction false} UnchangedCapture<S(!new), P(!new)>(u: Setup<S, P>, p: P, buffer: seq<S>)
    requires u.Valid() && forall q, chunk :: Unchanged(u, q, chunk)
    ensures Capture(u, p, buffer).out <= buffer
    decreases |buffer|
  {
    if |buffer| >= u.aecFrame {
      var (p', chunk) := u.cancel(p, buffer[..u.aecFrame]);
      assert Unchanged(u, p, buffer[..u.aecFrame]);
      UnchangedCapture(u, p', buffer[u.aecFrame..]);
    }
  }
}
