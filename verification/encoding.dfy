/** The bytes of text, and the sender's decoding of its pieces as the decoding of bytes. */
module Encoding {
  import opened Text
  import opened Bytes
  import opened FragmentSender
  import Utf8

  /** A character in UTF-8. */
  function CharBytes(c: char): (s: seq<byte>)
    ensures |s| == Utf8Len(c)
  {
    var n := c as int;
    match Utf8Len(c)
    case 1 => [n as byte]
    case 2 => [(0xC0 + n / 64) as byte, Low(n)]
    case 3 => [(0xE0 + n / 64 / 64) as byte, Low(n / 64), Low(n)]
    case _ => [(0xF0 + n / 64 / 64 / 64) as byte, Low(n / 64 / 64), Low(n / 64), Low(n)]
  }

  /** A byte with six of the character's bits. */
  function Low(n: nat): (b: byte)
    ensures Utf8.Continues(b) && b as int == 0x80 + n % 64
  {
    (0x80 + n % 64) as byte
  }

  /** One character of each length. */
  lemma BytesExample()
    ensures CharBytes('A') == [0x41] && CharBytes('\U{E9}') == [0xC3, 0xA9]
    ensures CharBytes('\U{20AC}') == [0xE2, 0x82, 0xAC] && CharBytes('\U{10348}') == [0xF0, 0x90, 0x8D, 0x88]
  {
  }

  function TextBytes(s: string): seq<byte> {
    if s == "" then [] else CharBytes(s[0]) + TextBytes(s[1..])
  }

  /** The bytes the sender's units stand for. */
  function UnitBytes(u: seq<Unit>): (s: seq<byte>)
    requires forall i :: 0 <= i < |u| ==> u[i].index < Utf8Len(u[i].c)
    ensures |s| == |u| && forall i :: 0 <= i < |u| ==> s[i] == CharBytes(u[i].c)[u[i].index]
  {
    seq(|u|, i requires 0 <= i < |u| => CharBytes(u[i].c)[u[i].index])
  }

  /** A piece of encoded text: after each unit comes the next one of its character or the
      first one of another. */
  predicate IsPiece(u: seq<Unit>) {
    && (forall i :: 0 <= i < |u| ==> u[i].index < Utf8Len(u[i].c))
    && forall i :: 0 < i < |u| ==>
         u[i] == Unit(u[i - 1].c, u[i - 1].index + 1) || (u[i].index == 0 && u[i - 1].index + 1 == Utf8Len(u[i - 1].c))
  }

  // ------------------------------------------------------------------
  // What the decoder makes of a character
  // ------------------------------------------------------------------

  lemma FirstByte(c: char)
    ensures Utf8.Width(CharBytes(c)[0]) == Utf8Len(c)
    ensures Utf8Len(c) > 1 ==> Utf8.Follows(CharBytes(c)[0], CharBytes(c)[1])
  {
  }

  lemma LaterBytes(c: char, i: nat)
    requires 0 < i < Utf8Len(c)
    ensures Utf8.Continues(CharBytes(c)[i]) && Utf8.Width(CharBytes(c)[i]) == 0
  {
  }

  lemma WholeCharacter(c: char, rest: seq<byte>)
    ensures Utf8.Next(CharBytes(c) + rest) == (Utf8Len(c), true)
  {
    var s := CharBytes(c) + rest;
    FirstByte(c);
    assert forall i :: 0 <= i < Utf8Len(c) ==> s[i] == CharBytes(c)[i];
    if Utf8Len(c) > 2 { LaterBytes(c, 2); }
    if Utf8Len(c) > 3 { LaterBytes(c, 3); }
  }

  lemma CutCharacter(c: char, n: nat)
    requires 0 < n < Utf8Len(c)
    ensures Utf8.Next(CharBytes(c)[..n]) == (n, false)
  {
    FirstByte(c);
    if n > 2 { LaterBytes(c, 2); }
  }

  lemma ReplacementBytes()
    ensures CharBytes(FragmentSender.REPLACEMENT) == Utf8.REPLACEMENT
  {
  }

  lemma TextBytesPush(c: char, s: string)
    ensures TextBytes([c] + s) == CharBytes(c) + TextBytes(s)
  {
    assert ([c] + s)[1..] == s;
  }

  /** The character whose bytes the decoder takes. */
  lemma TakenCharacter(s: seq<byte>) returns (c: char)
    requires s != [] && Utf8.Next(s).1
    ensures CharBytes(c) == s[..Utf8.Next(s).0]
  {
    match Utf8.Next(s).0 {
      case 1 => c := OneByte(s[0]);
      case 2 => c := TwoBytes(s[0], s[1]);
      case 3 => c := ThreeBytes(s[0], s[1], s[2]);
      case _ => c := FourBytes(s[0], s[1], s[2], s[3]);
    }
  }

  lemma OneByte(a: byte) returns (c: char)
    requires Utf8.Width(a) == 1
    ensures CharBytes(c) == [a]
  {
    c := a as char;
  }

  lemma TwoBytes(a: byte, b: byte) returns (c: char)
    requires Utf8.Width(a) == 2 && Utf8.Follows(a, b)
    ensures CharBytes(c) == [a, b]
  {
    var x, y := a as nat - 0xC0, b as nat - 0x80;
    LastSix(x, y);
    c := (x * 64 + y) as char;
  }

  lemma ThreeBytes(a: byte, b: byte, d: byte) returns (c: char)
    requires Utf8.Width(a) == 3 && Utf8.Follows(a, b) && Utf8.Continues(d)
    ensures CharBytes(c) == [a, b, d]
  {
    var x, y, z := a as nat - 0xE0, b as nat - 0x80, d as nat - 0x80;
    LastSix(x, y);
    LastSix(x * 64 + y, z);
    c := ((x * 64 + y) * 64 + z) as char;
  }

  lemma FourBytes(a: byte, b: byte, d: byte, e: byte) returns (c: char)
    requires Utf8.Width(a) == 4 && Utf8.Follows(a, b) && Utf8.Continues(d) && Utf8.Continues(e)
    ensures CharBytes(c) == [a, b, d, e]
  {
    var x, y, z, w := a as nat - 0xF0, b as nat - 0x80, d as nat - 0x80, e as nat - 0x80;
    LastSix(x, y);
    LastSix(x * 64 + y, z);
    LastSix((x * 64 + y) * 64 + z, w);
    c := (((x * 64 + y) * 64 + z) * 64 + w) as char;
  }

  lemma LastSix(x: nat, y: nat)
    requires y < 64
    ensures (x * 64 + y) / 64 == x && (x * 64 + y) % 64 == y
  {
  }

  /** Bytes are valid exactly when they are those of some text. */
  lemma ValidIff(s: seq<byte>)
    ensures Utf8.Valid(s) <==> exists t :: TextBytes(t) == s
  {
    if Utf8.Valid(s) {
      var t := SomeText(s);
    }
    forall t | TextBytes(t) == s ensures Utf8.Valid(s) {
      TextIsValid(t);
    }
  }

  lemma {:induction false} SomeText(s: seq<byte>) returns (t: string)
    requires Utf8.Valid(s)
    ensures TextBytes(t) == s
    decreases |s|
  {
    if s == [] {
      t := "";
    } else {
      var n := Utf8.Next(s).0;
      var c := TakenCharacter(s);
      var rest := SomeText(s[n..]);
      t := [c] + rest;
      TextInFront(s, n, c, rest);
    }
  }

  lemma TextInFront(s: seq<byte>, n: nat, c: char, rest: string)
    requires n <= |s| && CharBytes(c) == s[..n] && TextBytes(rest) == s[n..]
    ensures TextBytes([c] + rest) == s
  {
    TextBytesPush(c, rest);
    assert s == s[..n] + s[n..];
  }

  lemma {:induction false} TextIsValid(t: string)
    ensures Utf8.Valid(TextBytes(t))
  {
    if t != "" {
      TextIsValid(t[1..]);
      WholeCharacter(t[0], []);
      assert CharBytes(t[0]) + [] == CharBytes(t[0]);
      Utf8.ValidAfter(CharBytes(t[0]), TextBytes(t[1..]));
    }
  }

  lemma StepOver(s: seq<byte>, n: nat, ok: bool)
    requires s != [] && Utf8.Next(s) == (n, ok)
    ensures Utf8.Lossy(s) == (if ok then s[..n] else Utf8.REPLACEMENT) + Utf8.Lossy(s[n..])
  {
  }

  /** The start of some character's bytes, but not all of them. */
  ghost predicate BeginsCharacter(s: seq<byte>) { exists c :: Begins(s, c) }

  predicate Begins(s: seq<byte>, c: char) { s < CharBytes(c) }

  /** Where no character is, one replacement stands for all the bytes that could begin one,
      and at least one byte. */
  lemma BrokenTakes(s: seq<byte>, k: nat)
    requires s != [] && !Utf8.Next(s).1 && 0 < k <= |s|
    ensures BeginsCharacter(s[..k]) ==> k <= Utf8.Next(s).0
    ensures k == Utf8.Next(s).0 && k > 1 ==> BeginsCharacter(s[..k])
    ensures Utf8.Lossy(s) == [0xEF, 0xBF, 0xBD] + Utf8.Lossy(s[Utf8.Next(s).0..])
  {
    StepOver(s, Utf8.Next(s).0, false);
    forall c | Begins(s[..k], c) ensures k <= Utf8.Next(s).0 {
      BeginningTaken(s, k, c);
    }
    if k == Utf8.Next(s).0 && k > 1 {
      var c := SomeCharacter(s);
    }
  }

  lemma BeginningTaken(s: seq<byte>, k: nat, c: char)
    requires s != [] && !Utf8.Next(s).1 && 0 < k <= |s| && Begins(s[..k], c)
    ensures k <= Utf8.Next(s).0
  {
    FirstByte(c);
    assert forall i :: 0 <= i < k ==> s[i] == s[..k][i] == CharBytes(c)[i];
    if k > 2 { LaterBytes(c, 2); }
  }

  /** Any bytes that could begin a character do, with the least bytes behind them. */
  lemma SomeCharacter(s: seq<byte>) returns (c: char)
    requires s != [] && !Utf8.Next(s).1 && Utf8.Next(s).0 > 1
    ensures Begins(s[..Utf8.Next(s).0], c)
  {
    if Utf8.Width(s[0]) == 3 {
      c := ThreeBytes(s[0], s[1], 0x80);
    } else if Utf8.Next(s).0 == 2 {
      c := FourBytes(s[0], s[1], 0x80, 0x80);
    } else {
      c := FourBytes(s[0], s[1], s[2], 0x80);
    }
  }

  // ------------------------------------------------------------------
  // Pieces
  // ------------------------------------------------------------------

  lemma PieceRest(u: seq<Unit>, n: nat)
    requires IsPiece(u) && n <= |u|
    ensures IsPiece(u[n..]) && UnitBytes(u[n..]) == UnitBytes(u)[n..]
  {
  }

  /** A piece that starts with a character goes on with the rest of it. */
  lemma {:induction false} CharacterUnits(u: seq<Unit>, i: nat)
    requires IsPiece(u) && u != [] && u[0].index == 0 && i < Utf8Len(u[0].c) && i < |u|
    ensures u[i] == Unit(u[0].c, i)
  {
    if i > 0 {
      CharacterUnits(u, i - 1);
    }
  }

  lemma CharacterBytes(u: seq<Unit>, n: nat)
    requires IsPiece(u) && u != [] && u[0].index == 0 && n <= Utf8Len(u[0].c) && n <= |u|
    ensures UnitBytes(u)[..n] == CharBytes(u[0].c)[..n]
  {
    forall i | 0 <= i < n ensures UnitBytes(u)[i] == CharBytes(u[0].c)[i] {
      CharacterUnits(u, i);
    }
  }

  /** Decoding a piece as the sender does is decoding its bytes. */
  lemma {:induction false} DecodesAlike(u: seq<Unit>)
    requires IsPiece(u)
    ensures TextBytes(LossyDecode(u)) == Utf8.Lossy(UnitBytes(u))
    decreases |u|
  {
    if u == [] {
    } else if u[0].index != 0 {
      StrayByte(u);
      DecodesAlike(u[1..]);
      TextBytesPush(FragmentSender.REPLACEMENT, LossyDecode(u[1..]));
    } else if |u| < Utf8Len(u[0].c) {
      CutShort(u);
      assert LossyDecode(u) == [FragmentSender.REPLACEMENT] + "";
      TextBytesPush(FragmentSender.REPLACEMENT, "");
    } else {
      var n := Utf8Len(u[0].c);
      WholeFirst(u);
      PieceRest(u, n);
      DecodesAlike(u[n..]);
      TextBytesPush(u[0].c, LossyDecode(u[n..]));
    }
  }

  lemma StrayByte(u: seq<Unit>)
    requires IsPiece(u) && u != [] && u[0].index != 0
    ensures IsPiece(u[1..])
    ensures Utf8.Lossy(UnitBytes(u)) == CharBytes(FragmentSender.REPLACEMENT) + Utf8.Lossy(UnitBytes(u[1..]))
  {
    PieceRest(u, 1);
    LaterBytes(u[0].c, u[0].index);
    StepOver(UnitBytes(u), 1, false);
    ReplacementBytes();
  }

  lemma CutShort(u: seq<Unit>)
    requires IsPiece(u) && u != [] && u[0].index == 0 && |u| < Utf8Len(u[0].c)
    ensures Utf8.Lossy(UnitBytes(u)) == CharBytes(FragmentSender.REPLACEMENT) + []
  {
    CharacterBytes(u, |u|);
    assert UnitBytes(u)[..|u|] == UnitBytes(u);
    CutCharacter(u[0].c, |u|);
    StepOver(UnitBytes(u), |u|, false);
    ReplacementBytes();
  }

  lemma WholeFirst(u: seq<Unit>)
    requires IsPiece(u) && u != [] && u[0].index == 0 && |u| >= Utf8Len(u[0].c)
    ensures var n := Utf8Len(u[0].c);
      IsPiece(u[n..]) && Utf8.Lossy(UnitBytes(u)) == CharBytes(u[0].c) + Utf8.Lossy(UnitBytes(u[n..]))
  {
    var n := Utf8Len(u[0].c);
    CharacterBytes(u, n);
    PieceRest(u, n);
    assert CharBytes(u[0].c)[..n] == CharBytes(u[0].c);
    CharacterAtFront(u[0].c, UnitBytes(u));
  }

  lemma CharacterAtFront(c: char, s: seq<byte>)
    requires |s| >= Utf8Len(c) && s[..Utf8Len(c)] == CharBytes(c)
    ensures Utf8.Lossy(s) == CharBytes(c) + Utf8.Lossy(s[Utf8Len(c)..])
  {
    assert s == s[..Utf8Len(c)] + s[Utf8Len(c)..];
    CharacterInFront(c, s[Utf8Len(c)..]);
  }

  lemma CharacterInFront(c: char, rest: seq<byte>)
    ensures Utf8.Lossy(CharBytes(c) + rest) == CharBytes(c) + Utf8.Lossy(rest)
  {
    WholeCharacter(c, rest);
    DropFirst(CharBytes(c), rest);
    assert (CharBytes(c) + rest)[..Utf8Len(c)] == CharBytes(c);
    StepOver(CharBytes(c) + rest, Utf8Len(c), true);
  }

  // ------------------------------------------------------------------
  // The sender's chunks
  // ------------------------------------------------------------------

  lemma {:induction false} EncodedIsPiece(s: string)
    ensures IsPiece(Encode(s)) && (s != "" ==> Encode(s)[0].index == 0)
  {
    if s != "" {
      EncodedIsPiece(s[1..]);
      var first, rest := CharUnits(s[0], 0), Encode(s[1..]);
      forall i | 0 < i < |first + rest|
        ensures var u := first + rest;
          u[i] == Unit(u[i - 1].c, u[i - 1].index + 1) || (u[i].index == 0 && u[i - 1].index + 1 == Utf8Len(u[i - 1].c))
      {
        if i > |first| {
          assert (first + rest)[i] == rest[i - |first|] && (first + rest)[i - 1] == rest[i - 1 - |first|];
        }
      }
    }
  }

  lemma {:induction false} EncodedBytes(s: string)
    ensures IsPiece(Encode(s)) && UnitBytes(Encode(s)) == TextBytes(s)
  {
    EncodedIsPiece(s);
    if s != "" {
      EncodedBytes(s[1..]);
      FirstBytes(s[0], Encode(s[1..]));
    }
  }

  lemma FirstBytes(c: char, rest: seq<Unit>)
    requires forall i :: 0 <= i < |rest| ==> rest[i].index < Utf8Len(rest[i].c)
    ensures UnitBytes(CharUnits(c, 0) + rest) == CharBytes(c) + UnitBytes(rest)
  {
    assert UnitBytes(CharUnits(c, 0)) == CharBytes(c);
  }

  lemma SliceIsPiece(u: seq<Unit>, a: nat, b: nat)
    requires IsPiece(u) && a <= b <= |u|
    ensures IsPiece(u[a..b]) && UnitBytes(u[a..b]) == UnitBytes(u)[a..b]
  {
  }

  /** The bytes of each chunk are what lossy decoding makes of the payload's bytes from one
      cut to the next. */
  lemma ChunkIsDecodedBytes(payload: string, k: nat)
    requires k < |Chunks(payload)|
    ensures |Chunks(payload)| == ChunkCount(|TextBytes(payload)|) && CHUNK_SIZE * k < |TextBytes(payload)|
    ensures var bytes := TextBytes(payload);
      var end := if CHUNK_SIZE * (k + 1) < |bytes| then CHUNK_SIZE * (k + 1) else |bytes|;
      TextBytes(Chunks(payload)[k]) == Utf8.Lossy(bytes[CHUNK_SIZE * k..end])
  {
    var u := Encode(payload);
    EncodedBytes(payload);
    CutCount(u);
    CutPiece(u, k);
    var end := if CHUNK_SIZE * (k + 1) < |u| then CHUNK_SIZE * (k + 1) else |u|;
    SliceIsPiece(u, CHUNK_SIZE * k, end);
    DecodesAlike(u[CHUNK_SIZE * k..end]);
  }
}
