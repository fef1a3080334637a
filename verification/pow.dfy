/** Proof of work for nick registration: bit counting in a hash, the difficulty
    check built on it, and the nonce search that mines a nick. */
module Pow {
  import opened Text
  import opened Bytes

  type Hash = h: seq<byte> | |h| == 32 witness ZERO_HASH

  const ZERO_HASH: seq<byte> := seq(32, _ => 0)

  /** SHA-256 of the nick followed by the hexadecimal key, as an unknown function. */
  type NickHash = (string, string) -> Hash

  // ------------------------------------------------------------------
  // Numbers
  // ------------------------------------------------------------------

  function Pow2(n: nat): (p: nat)
    ensures p >= 1
  {
    if n == 0 then 1 else 2 * Pow2(n - 1)
  }

  lemma {:induction false} Pow2Sum(a: nat, b: nat)
    ensures Pow2(a + b) == Pow2(a) * Pow2(b)
  {
    if a > 0 {
      Pow2Sum(a - 1, b);
      assert Pow2(a + b) == 2 * Pow2(a - 1 + b);
    }
  }

  lemma {:induction false} Pow2Monotone(a: nat, b: nat)
    requires a <= b
    ensures Pow2(a) <= Pow2(b)
  {
    if a < b {
      Pow2Monotone(a, b - 1);
    }
  }

  /** The hash read as one big-endian number. */
  function BigEndian(h: seq<byte>): nat {
    if h == [] then 0 else h[0] as nat * Pow2(8 * (|h| - 1)) + BigEndian(h[1..])
  }

  lemma EightMore(n: nat)
    ensures Pow2(8 + n) == 256 * Pow2(n)
  {
    Pow2Sum(8, n);
    assert Pow2(8) == 256;
  }

  lemma BelowNextPower(first: nat, scale: nat, rest: nat)
    requires first < 256 && rest < scale
    ensures first * scale + rest < 256 * scale
  {
    assert first * scale <= 255 * scale;
  }

  lemma {:induction false} BigEndianBound(h: seq<byte>)
    ensures BigEndian(h) < Pow2(8 * |h|)
  {
    if h != [] {
      var n := |h| - 1;
      BigEndianBound(h[1..]);
      EightMore(8 * n);
      BelowNextPower(h[0] as nat, Pow2(8 * n), BigEndian(h[1..]));
    }
  }

  // ------------------------------------------------------------------
  // Leading zero bits
  // ------------------------------------------------------------------

  /** `u8::leading_zeros`. */
  function ByteZeros(b: byte): (n: nat)
    ensures n <= 8
    ensures n == 8 <==> b == 0
  {
    if b >= 128 then 0 else if b >= 64 then 1 else if b >= 32 then 2
    else if b >= 16 then 3 else if b >= 8 then 4 else if b >= 4 then 5
    else if b >= 2 then 6 else if b >= 1 then 7 else 8
  }

  lemma ByteZerosBound(b: byte, d: nat)
    requires d <= 8
    ensures ByteZeros(b) >= d <==> (b as nat) < Pow2(8 - d)
  {
    assert Pow2(8) == 256 && Pow2(7) == 128 && Pow2(6) == 64 && Pow2(5) == 32 && Pow2(4) == 16;
    assert Pow2(3) == 8 && Pow2(2) == 4 && Pow2(1) == 2 && Pow2(0) == 1;
  }

  predicate AllZero(h: seq<byte>) { forall i :: 0 <= i < |h| ==> h[i] == 0 }

  /** The number of leading zero bits, without a width. */
  function LeadingZeros(h: seq<byte>): (n: nat)
    ensures n <= 8 * |h|
    ensures n == 8 * |h| <==> AllZero(h)
  {
    if h == [] then 0
    else if h[0] == 0 then
      assert AllZero(h) <==> AllZero(h[1..]) by {
        assert forall i | 0 <= i < |h| - 1 :: h[1..][i] == h[i + 1];
      }
      8 + LeadingZeros(h[1..])
    else ByteZeros(h[0])
  }

  /** Counting zero bits is comparing numbers: a hash starts with at least `d`
      zero bits exactly when its big-endian value is below 2^(bits - d). */
  lemma {:induction false} LeadingZerosIsBound(h: seq<byte>, d: nat)
    requires d <= 8 * |h|
    ensures LeadingZeros(h) >= d <==> BigEndian(h) < Pow2(8 * |h| - d)
  {
    if h != [] {
      BigEndianBound(h[1..]);
      if h[0] != 0 {
        NonZeroFirstByte(h, d);
      } else if d <= 8 {
        Pow2Monotone(8 * |h[1..]|, 8 * |h| - d);
      } else {
        LeadingZerosIsBound(h[1..], d - 8);
      }
    }
  }

  lemma NonZeroFirstByte(h: seq<byte>, d: nat)
    requires h != [] && h[0] != 0 && d <= 8 * |h|
    ensures ByteZeros(h[0]) >= d <==> BigEndian(h) < Pow2(8 * |h| - d)
  {
    var scale, rest := Pow2(8 * (|h| - 1)), BigEndian(h[1..]);
    var first := h[0] as nat;
    BigEndianBound(h[1..]);
    if d <= 8 {
      ByteZerosBound(h[0], d);
      Pow2Sum(8 - d, 8 * (|h| - 1));
      ScaledBound(first, Pow2(8 - d), scale, rest);
    } else {
      Pow2Monotone(8 * |h| - d, 8 * (|h| - 1));
      ScaledBound(first, 1, scale, rest);
    }
  }

  lemma ScaledBound(x: nat, bound: nat, scale: nat, rest: nat)
    requires rest < scale
    ensures x < bound <==> x * scale + rest < bound * scale
  {
    if x < bound {
      assert (x + 1) * scale <= bound * scale;
    } else {
      assert x * scale >= bound * scale;
    }
  }

  /** `leading_zero_bits`, with its counter held in a byte. The counter wraps
      exactly on the all-zero hash, which a checked build reports as a panic. */
  method LeadingZeroBits(hash: Hash) returns (count: nat, overflowed: bool)
    ensures overflowed <==> AllZero(hash)
    ensures !overflowed ==> count == LeadingZeros(hash)
    ensures count == LeadingZeros(hash) % 256
  {
    count, overflowed := 0, false;
    var i := 0;
    while i < |hash|
      invariant 0 <= i <= |hash|
      invariant AllZero(hash[..i])
      invariant LeadingZeros(hash) == 8 * i + LeadingZeros(hash[i..])
      invariant count == if i == 32 then 0 else 8 * i
      invariant overflowed <==> i == 32
    {
      assert hash[i..][1..] == hash[i + 1..];
      if hash[i] == 0 {
        overflowed := overflowed || count + 8 >= 256;
        count := (count + 8) % 256;
      } else {
        count := count + ByteZeros(hash[i]);
        return;
      }
      i := i + 1;
    }
    assert hash[..32] == hash;
  }

  /** The value `leading_zero_bits` leaves in its byte counter. */
  function ZeroBitsU8(hash: Hash): nat { LeadingZeros(hash) % 256 }

  /** The unit test that expects 32 for the all-zero hash does not describe the loop. */
  lemma ZeroHashCount()
    ensures LeadingZeros(ZERO_HASH) == 256 && ZeroBitsU8(ZERO_HASH) == 0
  {
    assert AllZero(ZERO_HASH);
  }

  // ------------------------------------------------------------------
  // The difficulty check
  // ------------------------------------------------------------------

  /** `check_difficulty`. */
  predicate CheckDifficulty(sha: NickHash, nick: string, pubkey: string, required: nat) {
    required == 0 || ZeroBitsU8(sha(nick, pubkey)) >= required
  }

  /** The check is a bound on the hash value, except that the one hash whose
      value is zero fails every positive difficulty. */
  lemma DifficultyIsBound(sha: NickHash, nick: string, pubkey: string, required: nat)
    requires 0 < required < 256
    ensures CheckDifficulty(sha, nick, pubkey, required)
       <==> 0 < BigEndian(sha(nick, pubkey)) < Pow2(256 - required)
  {
    LeadingZerosIsBound(sha(nick, pubkey), required);
    ZeroValue(sha(nick, pubkey));
  }

  lemma ZeroValue(h: seq<byte>)
    ensures LeadingZeros(h) == 8 * |h| <==> BigEndian(h) == 0
  {
    LeadingZerosIsBound(h, 8 * |h|);
    assert Pow2(8 * |h| - 8 * |h|) == 1;
  }

  // ------------------------------------------------------------------
  // Candidate nicks
  // ------------------------------------------------------------------

  function HexChar(d: nat): (c: char)
    requires d < 16
  {
    if d < 10 then ('0' as int + d) as char else ('a' as int + d - 10) as char
  }

  /** `{:04x}`: lower-case hexadecimal, zero-padded to at least `width` digits. */
  function Hex(n: nat, width: nat): (s: string)
    ensures |s| >= width && |s| >= 1
    ensures '#' !in s
    decreases n, width
  {
    if n < 16 && width <= 1 then [HexChar(n)]
    else Hex(n / 16, if width > 0 then width - 1 else 0) + [HexChar(n % 16)]
  }

  // ------------------------------------------------------------------
  // Reading hexadecimal text
  // ------------------------------------------------------------------

  /** The value of a lower-case hexadecimal digit; 16 for any other character. */
  function DigitValue(c: char): (d: nat)
    ensures d <= 16
  {
    if '0' <= c <= '9' then c as nat - '0' as nat
    else if 'a' <= c <= 'f' then c as nat - 'a' as nat + 10
    else 16
  }

  predicate IsHexText(s: string) { forall i :: 0 <= i < |s| ==> DigitValue(s[i]) < 16 }

  /** Reading on from a value, most significant digit first. */
  function ReadHex(value: nat, s: string): nat
    decreases |s|
  {
    if s == "" then value else ReadHex(16 * value + DigitValue(s[0]), s[1..])
  }

  lemma {:induction false} ReadHexLast(value: nat, s: string, c: char)
    ensures ReadHex(value, s + [c]) == 16 * ReadHex(value, s) + DigitValue(c)
    decreases |s|
  {
    if s == "" {
      assert [c][1..] == "";
    } else {
      assert (s + [c])[1..] == s[1..] + [c];
      ReadHexLast(16 * value + DigitValue(s[0]), s[1..], c);
    }
  }

  function Pow16(n: nat): (p: nat)
    ensures p >= 1
  {
    if n == 0 then 1 else 16 * Pow16(n - 1)
  }

  /** Lower-case hexadecimal text with the value `n`: of the given width where that is
      enough, and otherwise longer without a leading zero. */
  predicate IsHexOf(s: string, n: nat, width: nat) {
    && s != "" && IsHexText(s) && ReadHex(0, s) == n
    && (if n < Pow16(width) then |s| == width || (width == 0 && |s| == 1) else |s| > width && s[0] != '0')
  }

  lemma HexDigitReads(d: nat)
    requires d < 16
    ensures DigitValue(HexChar(d)) == d && (HexChar(d) == '0' <==> d == 0)
  {}

  /** What is printed reads back. */
  lemma {:induction false} HexReadsBack(n: nat, width: nat)
    ensures IsHexText(Hex(n, width)) && ReadHex(0, Hex(n, width)) == n
    decreases n, width
  {
    HexDigitReads(n % 16);
    if n < 16 && width <= 1 {
      assert Hex(n, width)[1..] == "";
    } else {
      var narrower := if width > 0 then width - 1 else 0;
      HexReadsBack(n / 16, narrower);
      ReadHexLast(0, Hex(n / 16, narrower), HexChar(n % 16));
    }
  }

  lemma {:induction false} HexLength(n: nat, width: nat)
    ensures n < Pow16(width) && width > 0 ==> |Hex(n, width)| == width
    ensures n >= Pow16(width) ==> |Hex(n, width)| > width && Hex(n, width)[0] != '0'
    decreases n, width
  {
    HexDigitReads(n % 16);
    if n < 16 && width <= 1 {
      assert Pow16(1) == 16;
    } else if width > 0 {
      HexLength(n / 16, width - 1);
      assert Pow16(width) == 16 * Pow16(width - 1);
    } else {
      HexLength(n / 16, 0);
    }
  }

  /** `{:04x}` and the like print exactly the text that is so read. */
  lemma HexIs(n: nat, width: nat)
    ensures IsHexOf(Hex(n, width), n, width)
  {
    HexReadsBack(n, width);
    HexLength(n, width);
    if width == 0 && n < Pow16(0) {
      assert n == 0;
    }
  }

  lemma {:induction false} ReadHexBounds(value: nat, s: string)
    requires IsHexText(s)
    ensures value * Pow16(|s|) <= ReadHex(value, s) < (value + 1) * Pow16(|s|)
    decreases |s|
  {
    if s != "" {
      var d := DigitValue(s[0]);
      ReadHexBounds(16 * value + d, s[1..]);
      HexBoundStep(value, d, Pow16(|s| - 1), ReadHex(value, s));
    }
  }

  lemma HexBoundStep(value: nat, d: nat, p: nat, r: nat)
    requires d < 16 && (16 * value + d) * p <= r < (16 * value + d + 1) * p
    ensures value * (16 * p) <= r < (value + 1) * (16 * p)
  {
    assert (16 * value + d) * p == value * (16 * p) + d * p;
    assert (16 * value + d + 1) * p == value * (16 * p) + (d + 1) * p;
    assert (d + 1) * p <= 16 * p;
    assert (value + 1) * (16 * p) == value * (16 * p) + 16 * p;
  }

  /** Texts of one length and value are one text. */
  lemma {:induction false} SameReadingSameText(s: string, t: string)
    requires |s| == |t| && IsHexText(s) && IsHexText(t) && ReadHex(0, s) == ReadHex(0, t)
    ensures s == t
    decreases |s|
  {
    if s != "" {
      var n := |s| - 1;
      var a, b, c, d := s[..n], s[n], t[..n], t[n];
      assert s == a + [b] && t == c + [d];
      ReadHexLast(0, a, b);
      ReadHexLast(0, c, d);
      SameLastDigit(ReadHex(0, a), DigitValue(b), ReadHex(0, c), DigitValue(d));
      SameReadingSameText(a, c);
    }
  }

  lemma SameLastDigit(x: nat, d: nat, y: nat, e: nat)
    requires d < 16 && e < 16 && 16 * x + d == 16 * y + e
    ensures x == y && d == e
  {
  }

  lemma ReadHexBelow(s: string)
    requires IsHexText(s)
    ensures ReadHex(0, s) < Pow16(|s|)
  {
    ReadHexBounds(0, s);
  }

  lemma LeadingDigit(s: string)
    requires s != "" && IsHexText(s) && s[0] != '0'
    ensures ReadHex(0, s) >= Pow16(|s| - 1)
  {
    var d := DigitValue(s[0]);
    ReadHexBounds(d, s[1..]);
    AtLeastOne(d, Pow16(|s| - 1));
  }

  lemma AtLeastOne(d: nat, p: nat)
    requires d >= 1
    ensures d * p >= p
  {
  }

  /** The longer of two texts without a leading zero has the greater value. */
  lemma LongerIsGreater(s: string, t: string)
    requires IsHexText(s) && IsHexText(t) && |s| < |t| && t[0] != '0'
    ensures ReadHex(0, s) < ReadHex(0, t)
  {
    ReadHexBelow(s);
    LeadingDigit(t);
    Pow16Monotone(|s|, |t| - 1);
  }

  lemma {:induction false} Pow16Monotone(a: nat, b: nat)
    requires a <= b
    ensures Pow16(a) <= Pow16(b)
  {
    if a < b {
      Pow16Monotone(a, b - 1);
    }
  }

  /** Only that text is such a text. */
  lemma HexOnly(s: string, n: nat, width: nat)
    requires IsHexOf(s, n, width)
    ensures s == Hex(n, width)
  {
    var t := Hex(n, width);
    HexIs(n, width);
    SameLength(s, t, n, width);
    SameReadingSameText(s, t);
  }

  lemma SameLength(s: string, t: string, n: nat, width: nat)
    requires IsHexOf(s, n, width) && IsHexOf(t, n, width)
    ensures |s| == |t|
  {
    if n >= Pow16(width) {
      if |s| < |t| {
        LongerIsGreater(s, t);
      } else if |t| < |s| {
        LongerIsGreater(t, s);
      }
    }
  }

  /** The nick tried for a nonce. */
  function Candidate(base: string, nonce: nat): string {
    base + "#" + Hex(nonce, 4)
  }

  lemma CandidateInjective(base: string, m: nat, n: nat)
    requires Candidate(base, m) == Candidate(base, n)
    ensures m == n
  {
    var k := |base + "#"|;
    assert Candidate(base, m)[k..] == Hex(m, 4);
    assert Candidate(base, n)[k..] == Hex(n, 4);
    HexReadsBack(m, 4);
    HexReadsBack(n, 4);
  }

  /** A nick is the one tried for a nonce exactly when it is the base, a '#' and the nonce
      in lower-case hexadecimal, of four digits or longer without a leading zero. */
  lemma CandidateIff(base: string, nonce: nat, nick: string)
    ensures nick == Candidate(base, nonce) <==>
      base + "#" <= nick && IsHexOf(nick[|base| + 1..], nonce, 4)
  {
    if nick == Candidate(base, nonce) {
      HexIs(nonce, 4);
      assert nick[|base| + 1..] == Hex(nonce, 4);
    }
    if base + "#" <= nick {
      assert nick == (base + "#") + nick[|base| + 1..];
      if IsHexOf(nick[|base| + 1..], nonce, 4) {
        HexOnly(nick[|base| + 1..], nonce, 4);
      }
    }
  }

  /** `base_name`: the part before the first '#'. */
  function BaseName(nick: string): string {
    match Find(nick, '#')
    case None => nick
    case Some(i) => nick[..i]
  }

  /** It has no '#' itself, and is the whole nick or what stands before a '#'. */
  lemma BaseNameIff(nick: string, base: string)
    ensures BaseName(nick) == base <==> '#' !in base && (nick == base || base + "#" <= nick)
  {
    if base + "#" <= nick && '#' !in base {
      var rest := nick[|base| + 1..];
      assert nick == base + ['#'] + rest;
      FindAfter(base, '#', rest);
    }
  }

  /** A mined nick gives its base back exactly when the base holds no '#'. */
  lemma BaseNameOfCandidate(base: string, nonce: nat)
    ensures BaseName(Candidate(base, nonce)) == base <==> '#' !in base
  {
    if '#' !in base {
      FindAfter(base, '#', Hex(nonce, 4));
      assert Candidate(base, nonce) == base + ['#'] + Hex(nonce, 4);
    } else {
      assert Candidate(base, nonce)[|base|] == '#';
    }
  }

  // ------------------------------------------------------------------
  // Mining
  // ------------------------------------------------------------------

  datatype MinedNick = MinedNick(nick: string, nonce: nat, bits: nat, attempts: nat)

  const U32_LIMIT: nat := 0x1_0000_0000

  /** `nonce` solves the search: its candidate is the first to meet the requirement. */
  ghost predicate LeastSolution(sha: NickHash, base: string, pubkey: string, required: nat, nonce: nat) {
    && CheckDifficulty(sha, Candidate(base, nonce), pubkey, required)
    && forall k: nat | k < nonce :: !CheckDifficulty(sha, Candidate(base, k), pubkey, required)
  }

  /** What is mined: the first candidate that passes, the base and a '#' and its nonce in
      hexadecimal; the nonce as far as 32 bits hold it; and exactly how difficult it is. */
  ghost predicate IsMined(sha: NickHash, base: string, pubkey: string, required: nat, maxAttempts: nat, m: MinedNick) {
    && 0 < m.attempts <= maxAttempts
    && LeastSolution(sha, base, pubkey, required, m.attempts - 1)
    && m.nick == Candidate(base, m.attempts - 1)
    && base + "#" <= m.nick && IsHexOf(m.nick[|base| + 1..], m.attempts - 1, 4)
    && m.nonce == (m.attempts - 1) % U32_LIMIT
    && (maxAttempts <= U32_LIMIT ==> m.nonce == m.attempts - 1)
    && required <= m.bits == ZeroBitsU8(sha(m.nick, pubkey))
    && (forall d: nat :: d <= m.bits ==> CheckDifficulty(sha, m.nick, pubkey, d))
    && (forall d: nat :: m.bits < d ==> !CheckDifficulty(sha, m.nick, pubkey, d))
  }

  lemma MinedIs(sha: NickHash, base: string, pubkey: string, required: nat, maxAttempts: nat, nonce: nat, bits: nat)
    requires nonce < maxAttempts && LeastSolution(sha, base, pubkey, required, nonce)
    requires required <= bits == ZeroBitsU8(sha(Candidate(base, nonce), pubkey))
    ensures IsMined(sha, base, pubkey, required, maxAttempts,
              MinedNick(Candidate(base, nonce), nonce % U32_LIMIT, bits, nonce + 1))
  {
    CandidateIff(base, nonce, Candidate(base, nonce));
  }

  /** `mine_nick`. The nonce is stored in 32 bits, the attempt count is not. */
  method MineNick(sha: NickHash, base: string, pubkey: string, required: nat, maxAttempts: nat)
    returns (result: Option<MinedNick>)
    requires required < 256
    ensures required == 0 ==> result == Some(MinedNick(base, 0, 0, 0))
    ensures required > 0 ==>
      (result.None? <==> forall k: nat | k < maxAttempts ::
                           !CheckDifficulty(sha, Candidate(base, k), pubkey, required))
    ensures required > 0 && result.Some? ==> IsMined(sha, base, pubkey, required, maxAttempts, result.value)
  {
    if required == 0 {
      return Some(MinedNick(base, 0, 0, 0));
    }
    var nonce := 0;
    while nonce < maxAttempts
      invariant 0 <= nonce <= maxAttempts
      invariant forall k: nat | k < nonce :: !CheckDifficulty(sha, Candidate(base, k), pubkey, required)
    {
      var candidate := Candidate(base, nonce);
      var bits, _ := LeadingZeroBits(sha(candidate, pubkey));
      if bits >= required {
        MinedIs(sha, base, pubkey, required, maxAttempts, nonce, bits);
        return Some(MinedNick(candidate, nonce % U32_LIMIT, bits, nonce + 1));
      }
      nonce := nonce + 1;
    }
    return None;
  }

  /** What a user gets from mining: the nick registers at every difficulty up to
      its bits, and stripping the suffix gives back a base without '#'. */
  lemma MinedNickRegisters(sha: NickHash, base: string, pubkey: string, required: nat, nonce: nat, d: nat)
    requires required > 0 && d <= required
    requires LeastSolution(sha, base, pubkey, required, nonce)
    requires '#' !in base
    ensures CheckDifficulty(sha, Candidate(base, nonce), pubkey, d)
    ensures BaseName(Candidate(base, nonce)) == base
    ensures forall other: nat :: LeastSolution(sha, base, pubkey, required, other) ==> other == nonce
  {
    BaseNameOfCandidate(base, nonce);
  }
}
