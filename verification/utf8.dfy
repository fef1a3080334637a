/** Lossy decoding of UTF-8 from bytes, as `String::from_utf8_lossy` does it, given as the
    bytes of the text that results. */
module Utf8 {
  import opened Text
  import opened Bytes

  /** U+FFFD in UTF-8. */
  const REPLACEMENT: seq<byte> := [0xEF, 0xBF, 0xBD]

  /** The length of a character by its first byte; 0 for a byte that starts none. */
  function Width(b: byte): nat {
    if b < 0x80 then 1
    else if 0xC2 <= b <= 0xDF then 2
    else if 0xE0 <= b <= 0xEF then 3
    else if 0xF0 <= b <= 0xF4 then 4
    else 0
  }

  predicate Continues(b: byte) { 0x80 <= b <= 0xBF }

  /** Whether a second byte can follow a first one: this keeps out overlong forms,
      surrogates, and what is past the last code point. */
  predicate Follows(first: byte, second: byte) {
    && Continues(second)
    && (first == 0xE0 ==> 0xA0 <= second)
    && (first == 0xED ==> second <= 0x9F)
    && (first == 0xF0 ==> 0x90 <= second)
    && (first == 0xF4 ==> second <= 0x8F)
  }

  /** How many bytes the decoder takes, and whether they are a character. */
  function Next(s: seq<byte>): (r: (nat, bool))
    requires s != []
    ensures 1 <= r.0 <= |s| && (r.1 ==> r.0 == Width(s[0])) && r.0 <= 4
  {
    var w := Width(s[0]);
    if w == 0 then (1, false)
    else if w == 1 then (1, true)
    else if |s| < 2 || !Follows(s[0], s[1]) then (1, false)
    else if w == 2 then (2, true)
    else if |s| < 3 || !Continues(s[2]) then (2, false)
    else if w == 3 then (3, true)
    else if |s| < 4 || !Continues(s[3]) then (3, false)
    else (4, true)
  }

  function Lossy(s: seq<byte>): (r: seq<byte>)
    ensures |r| <= 3 * |s| && (s != [] ==> r != [])
    decreases |s|
  {
    if s == [] then []
    else
      var (n, ok) := Next(s);
      (if ok then s[..n] else REPLACEMENT) + Lossy(s[n..])
  }

  predicate Valid(s: seq<byte>)
    decreases |s|
  {
    s == [] || (Next(s).1 && Valid(s[Next(s).0..]))
  }

  /** Exactly valid UTF-8 is left as it is. */
  lemma {:induction false} LossyKeepsIff(s: seq<byte>)
    ensures Lossy(s) == s <==> Valid(s)
    decreases |s|
  {
    if s != [] {
      var (n, ok) := Next(s);
      LossyKeepsIff(s[n..]);
      assert s == s[..n] + s[n..];
      if ok {
        DropFirst(s[..n], Lossy(s[n..]));
      } else {
        assert Lossy(s)[..3] == REPLACEMENT;
        ReplacementIsCharacter(s);
      }
    }
  }

  lemma ReplacementIsCharacter(s: seq<byte>)
    ensures |s| >= 3 && s[..3] == REPLACEMENT ==> Next(s) == (3, true)
  {
    if |s| >= 3 && s[..3] == REPLACEMENT {
      assert s[0] == s[..3][0] && s[1] == s[..3][1] && s[2] == s[..3][2];
    }
  }

  /** A character in front is decoded first. */
  lemma NextOf(c: seq<byte>, rest: seq<byte>)
    requires c != [] && Next(c) == (|c|, true)
    ensures Next(c + rest) == (|c|, true)
  {
  }

  lemma ValidAfter(c: seq<byte>, rest: seq<byte>)
    requires c != [] && Next(c) == (|c|, true) && Valid(rest)
    ensures Valid(c + rest)
  {
    NextOf(c, rest);
    DropFirst(c, rest);
  }

  lemma NextTaken(s: seq<byte>)
    requires s != [] && Next(s).1
    ensures Next(s[..Next(s).0]) == (Next(s).0, true)
  {
  }

  /** What comes out of decoding is valid, so decoding it again changes nothing. */
  lemma {:induction false} LossyIsValid(s: seq<byte>)
    ensures Valid(Lossy(s)) && Lossy(Lossy(s)) == Lossy(s)
    decreases |s|
  {
    if s != [] {
      var (n, ok) := Next(s);
      LossyIsValid(s[n..]);
      if ok {
        NextTaken(s);
        ValidAfter(s[..n], Lossy(s[n..]));
      } else {
        ValidAfter(REPLACEMENT, Lossy(s[n..]));
      }
    }
    LossyKeepsIff(Lossy(s));
  }

  /** Bytes of which none starts a character, each replaced on its own. */
  lemma {:induction false} AllReplaced(s: seq<byte>)
    requires forall i :: 0 <= i < |s| ==> s[i] == 0xFF
    ensures |Lossy(s)| == 3 * |s|
  {
    if s != [] {
      AllReplaced(s[1..]);
    }
  }
}
