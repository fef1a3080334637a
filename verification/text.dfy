/** String primitives the source takes from Rust's standard library, with the
    round trips the protocol modules rely on. */
module Text {

  datatype Option<+T> = None | Some(value: T)

  // ------------------------------------------------------------------
  // Sequences in general
  // ------------------------------------------------------------------

  lemma Associative<T>(a: seq<T>, b: seq<T>, c: seq<T>)
    ensures (a + b) + c == a + (b + c)
  {}

  lemma DropFirst<T>(a: seq<T>, b: seq<T>)
    ensures (a + b)[|a|..] == b
  {}

  // ------------------------------------------------------------------
  // Picking out
  // ------------------------------------------------------------------

  /** `part` lists, in order, what stands in `whole` at the chosen places and nothing else;
      `at` are those places. */
  ghost predicate Picks<T(!new)>(whole: seq<T>, part: seq<T>, at: seq<nat>, chosen: nat -> bool) {
    && |at| == |part|
    && (forall k :: 0 <= k < |at| ==> at[k] < |whole| && part[k] == whole[at[k]])
    && (forall j, k :: 0 <= j < k < |at| ==> at[j] < at[k])
    && forall i: nat :: i < |whole| ==> (i in at <==> chosen(i))
  }

  lemma PicksNothing<T(!new)>(chosen: nat -> bool)
    ensures Picks<T>([], [], [], chosen)
  {
  }

  /** One more at the end, picked or not. */
  lemma PicksMore<T(!new)>(whole: seq<T>, part: seq<T>, at: seq<nat>, chosen: nat -> bool, x: T) returns (more: seq<nat>)
    requires Picks(whole, part, at, chosen)
    ensures Picks(whole + [x], part + if chosen(|whole|) then [x] else [], more, chosen)
  {
    more := at + if chosen(|whole|) then [|whole|] else [];
    assert forall i: nat :: i in more <==> i in at || (chosen(|whole|) && i == |whole|);
    assert part + [] == part;
  }

  lemma PicksLast<T(!new)>(whole: seq<T>, shorter: seq<T>, at: seq<nat>, chosen: nat -> bool, part: seq<T>) returns (more: seq<nat>)
    requires whole != [] && Picks(whole[..|whole| - 1], shorter, at, chosen)
    requires part == shorter + if chosen(|whole| - 1) then [whole[|whole| - 1]] else []
    ensures Picks(whole, part, more, chosen)
  {
    more := PicksMore(whole[..|whole| - 1], shorter, at, chosen, whole[|whole| - 1]);
    assert whole == whole[..|whole| - 1] + [whole[|whole| - 1]];
  }

  /** Everything chosen, or nothing. */
  lemma {:induction false} PicksAllOrNone<T(!new)>(whole: seq<T>, part: seq<T>, at: seq<nat>, chosen: nat -> bool)
    requires Picks(whole, part, at, chosen)
    ensures (forall i: nat :: i < |whole| ==> chosen(i)) ==> part == whole
    ensures (forall i: nat :: i < |whole| ==> !chosen(i)) ==> part == []
    decreases |whole|
  {
    assert part != [] ==> at[0] in at;
    if forall i: nat :: i < |whole| ==> chosen(i) {
      PicksEach(whole, part, at, chosen, |whole|);
      if at != [] {
        Ascends(at, |at| - 1);
      }
    }
  }

  lemma {:induction false} PicksEach<T(!new)>(whole: seq<T>, part: seq<T>, at: seq<nat>, chosen: nat -> bool, n: nat)
    requires Picks(whole, part, at, chosen) && (forall i: nat :: i < |whole| ==> chosen(i)) && n <= |whole|
    ensures n <= |at| && forall k :: 0 <= k < n ==> at[k] == k
    decreases n
  {
    if n > 0 {
      PicksEach(whole, part, at, chosen, n - 1);
      assert chosen(n - 1) && n - 1 in at;
      var j :| 0 <= j < |at| && at[j] == n - 1;
      assert j >= n - 1 && at[n - 1] <= at[j];
      assert n > 1 ==> at[n - 2] < at[n - 1];
    }
  }

  lemma {:induction false} Ascends(at: seq<nat>, k: nat)
    requires (forall i, j :: 0 <= i < j < |at| ==> at[i] < at[j]) && k < |at|
    ensures at[k] >= k
  {
    if k > 0 {
      Ascends(at, k - 1);
    }
  }

  // ------------------------------------------------------------------
  // Searching and splitting
  // ------------------------------------------------------------------

  /** `str::find` with a character pattern: the first occurrence. */
  function Find(s: string, c: char): (r: Option<nat>)
    ensures r.None? <==> c !in s
    ensures r.Some? ==> r.value < |s| && s[r.value] == c && c !in s[..r.value]
  {
    if s == [] then None
    else if s[0] == c then Some(0)
    else
      match Find(s[1..], c)
      case None => None
      case Some(i) =>
        assert s[..i + 1] == [s[0]] + s[1..][..i];
        Some(i + 1)
  }

  lemma FindAfter(before: string, c: char, after: string)
    requires c !in before
    ensures Find(before + [c] + after, c) == Some(|before|)
  {
    var s := before + [c] + after;
    assert s[|before|] == c;
    var i := Find(s, c).value;
    assert forall k | 0 <= k < |before| :: s[k] == before[k];
    assert forall k | 0 <= k < i :: s[k] in s[..i];
  }

  /** `str::strip_prefix`. */
  function StripPrefix(s: string, prefix: string): (r: Option<string>)
    ensures r.Some? ==> s == prefix + r.value
    ensures r.None? ==> !(prefix <= s)
  {
    if prefix <= s then Some(s[|prefix|..]) else None
  }

  /** `str::split` with a character pattern: always at least one piece. */
  function Split(s: string, c: char): (parts: seq<string>)
    ensures |parts| >= 1
    ensures forall p :: p in parts ==> c !in p
    decreases |s|
  {
    match Find(s, c)
    case None => [s]
    case Some(i) => [s[..i]] + Split(s[i + 1..], c)
  }

  function Join(parts: seq<string>, c: char): string {
    if parts == [] then ""
    else if |parts| == 1 then parts[0]
    else parts[0] + [c] + Join(parts[1..], c)
  }

  lemma SplitFirst(a: string, c: char, rest: string)
    requires c !in a
    ensures Split(a + [c] + rest, c) == [a] + Split(rest, c)
  {
    var s := a + [c] + rest;
    FindAfter(a, c, rest);
    assert s[..|a|] == a;
    assert s[|a| + 1..] == rest;
  }

  lemma {:induction false} SplitJoin(parts: seq<string>, c: char)
    requires |parts| >= 1
    requires forall p :: p in parts ==> c !in p
    ensures Split(Join(parts, c), c) == parts
  {
    if |parts| == 1 {
      assert parts == [parts[0]];
    } else {
      SplitFirst(parts[0], c, Join(parts[1..], c));
      SplitJoin(parts[1..], c);
      assert parts == [parts[0]] + parts[1..];
    }
  }

  lemma {:induction false} JoinSplit(s: string, c: char)
    ensures Join(Split(s, c), c) == s
    decreases |s|
  {
    match Find(s, c)
    case None =>
    case Some(i) =>
      JoinSplit(s[i + 1..], c);
      var rest := Split(s[i + 1..], c);
      assert ([s[..i]] + rest)[1..] == rest;
      assert s == s[..i] + [c] + s[i + 1..];
  }

  lemma {:induction false} JoinConcat(x: seq<string>, y: seq<string>, c: char)
    requires |x| >= 1 && |y| >= 1
    ensures Join(x + y, c) == Join(x, c) + [c] + Join(y, c)
  {
    assert (x + y)[1..] == x[1..] + y;
    if |x| == 1 {
      assert x[1..] + y == y;
    } else {
      JoinConcat(x[1..], y, c);
      Regroup(x[0], c, Join(x[1..], c), Join(y, c));
    }
  }

  lemma Regroup(a: string, c: char, b: string, d: string)
    ensures a + [c] + (b + [c] + d) == a + [c] + b + [c] + d
  {}

  /** Splitting around a separator. */
  lemma {:induction false} SplitConcat(a: string, c: char, b: string)
    ensures Split(a + [c] + b, c) == Split(a, c) + Split(b, c)
    decreases |a|
  {
    match Find(a, c)
    case None =>
      SplitFirst(a, c, b);
    case Some(i) =>
      var first, more := a[..i], a[i + 1..];
      assert a == first + [c] + more;
      SplitConcat(more, c, b);
      SplitFirst(first, c, more + [c] + b);
      Regroup(first, c, more, b);
      Associative([first], Split(more, c), Split(b, c));
  }

  /** Every part split, in order. */
  function SplitAll(parts: seq<string>, c: char): (r: seq<string>)
    ensures |r| >= |parts|
  {
    if parts == [] then [] else Split(parts[0], c) + SplitAll(parts[1..], c)
  }

  /** What comes of joining and splitting again when the parts may hold the separator. */
  lemma {:induction false} SplitOfJoin(parts: seq<string>, c: char)
    requires |parts| >= 1
    ensures Split(Join(parts, c), c) == SplitAll(parts, c)
  {
    if |parts| == 1 {
      assert SplitAll(parts[1..], c) == [];
    } else {
      SplitOfJoin(parts[1..], c);
      SplitConcat(parts[0], c, Join(parts[1..], c));
    }
  }

  lemma {:induction false} SplitAllConcat(x: seq<string>, y: seq<string>, c: char)
    ensures SplitAll(x + y, c) == SplitAll(x, c) + SplitAll(y, c)
  {
    if x == [] {
      assert x + y == y;
    } else {
      assert (x + y)[1..] == x[1..] + y;
      SplitAllConcat(x[1..], y, c);
      Associative(Split(x[0], c), SplitAll(x[1..], c), SplitAll(y, c));
    }
  }

  lemma SplitOne(s: string, c: char)
    ensures c !in s <==> |Split(s, c)| == 1
    ensures |Split(s, c)| == 1 ==> Split(s, c) == [s]
  {
  }

  /** As many pieces as parts: no part holds the separator, and the pieces are the parts. */
  lemma {:induction false} SplitAllIsParts(parts: seq<string>, c: char)
    ensures |SplitAll(parts, c)| == |parts| <==> forall p :: p in parts ==> c !in p
    ensures |SplitAll(parts, c)| == |parts| ==> SplitAll(parts, c) == parts
  {
    if parts != [] {
      SplitAllIsParts(parts[1..], c);
      SplitOne(parts[0], c);
      assert parts == [parts[0]] + parts[1..];
    }
  }

  // ------------------------------------------------------------------
  // Decimal numbers
  // ------------------------------------------------------------------

  predicate IsDigit(c: char) { '0' <= c <= '9' }

  predicate AllDigits(s: string) { forall i :: 0 <= i < |s| ==> IsDigit(s[i]) }

  function DigitChar(d: nat): (c: char)
    requires d < 10
    ensures IsDigit(c) && DigitOf(c) == d
  {
    ('0' as int + d) as char
  }

  /** `to_string` of an unsigned integer. */
  function Decimal(n: nat): (s: string)
    ensures |s| >= 1 && AllDigits(s)
  {
    if n < 10 then [DigitChar(n)] else Decimal(n / 10) + [DigitChar(n % 10)]
  }

  function DigitsValue(s: string): nat
    requires AllDigits(s)
  {
    if s == [] then 0
    else DigitsValue(s[..|s| - 1]) * 10 + DigitOf(s[|s| - 1])
  }

  function DigitOf(c: char): nat
    requires IsDigit(c)
  {
    c as int - '0' as int
  }

  lemma {:induction false} DecimalValue(n: nat)
    ensures DigitsValue(Decimal(n)) == n
  {
    if n < 10 {
      assert Decimal(n)[..0] == [];
    } else {
      var s := Decimal(n);
      assert s[..|s| - 1] == Decimal(n / 10);
      DecimalValue(n / 10);
    }
  }

  /** There are no leading zeros. */
  lemma {:induction false} NoLeadingZero(n: nat)
    ensures Decimal(n)[0] == '0' <==> n == 0
    ensures |Decimal(n)| > 1 ==> n >= 10
  {
    if n >= 10 {
      NoLeadingZero(n / 10);
    }
  }

  const U64_LIMIT: nat := 0x1_0000_0000_0000_0000

  /** `str::parse::<usize>` on a 64-bit target: an optional plus sign, at least
      one digit, nothing else, and no overflow. */
  function ParseUsize(s: string): Option<nat> {
    var digits := if |s| > 0 && s[0] == '+' then s[1..] else s;
    if digits == [] || !AllDigits(digits) then None
    else if DigitsValue(digits) >= U64_LIMIT then None
    else Some(DigitsValue(digits))
  }

  lemma ParseDecimal(n: nat)
    requires n < U64_LIMIT
    ensures ParseUsize(Decimal(n)) == Some(n)
  {
    DecimalValue(n);
    assert IsDigit(Decimal(n)[0]);
  }

  predicate AllZeros(s: string) { forall i :: 0 <= i < |s| ==> s[i] == '0' }

  lemma {:induction false} ZerosAddNothing(zeros: string, digits: string)
    requires AllZeros(zeros) && AllDigits(digits)
    ensures AllDigits(zeros + digits) && DigitsValue(zeros + digits) == DigitsValue(digits)
    decreases |zeros| + |digits|
  {
    if digits != "" {
      ZerosAddNothing(zeros, digits[..|digits| - 1]);
      assert (zeros + digits)[..|zeros + digits| - 1] == zeros + digits[..|digits| - 1];
    } else if zeros != "" {
      ZerosAddNothing(zeros[..|zeros| - 1], "");
      assert zeros + digits == zeros && zeros[..|zeros| - 1] + "" == zeros[..|zeros| - 1];
    }
  }

  /** Any digits are zeros and then the number they stand for. */
  lemma {:induction false} ZerosAndDecimal(s: string) returns (zeros: string)
    requires s != "" && AllDigits(s)
    ensures AllZeros(zeros) && s == zeros + Decimal(DigitsValue(s))
  {
    var before, last := s[..|s| - 1], s[|s| - 1];
    assert s == before + [last];
    if before == "" {
      zeros := "";
    } else {
      zeros := ZerosAndDecimal(before);
      var value := DigitsValue(before);
      if value == 0 {
        zeros := before;
      } else {
        assert DigitsValue(s) / 10 == value && DigitsValue(s) % 10 == DigitOf(last);
        Associative(zeros, Decimal(value), [last]);
      }
    }
  }

  predicate Spells(s: string, sign: string, zeros: string, n: nat) {
    (sign == "" || sign == "+") && AllZeros(zeros) && s == sign + zeros + Decimal(n)
  }

  /** A number is read from exactly its decimal form, with any zeros and at most one plus sign
      in front, if it fits 64 bits. */
  lemma ParseUsizeIff(s: string, n: nat)
    ensures ParseUsize(s) == Some(n) <==> n < 0x1_0000_0000_0000_0000 && exists sign, zeros :: Spells(s, sign, zeros, n)
  {
    if ParseUsize(s) == Some(n) {
      var sign := if s[0] == '+' then "+" else "";
      var digits := s[|sign|..];
      var zeros := ZerosAndDecimal(digits);
      Associative(sign, zeros, Decimal(n));
      assert s == sign + digits;
      assert Spells(s, sign, zeros, n);
    }
    if n < U64_LIMIT {
      forall sign, zeros | Spells(s, sign, zeros, n) ensures ParseUsize(s) == Some(n) {
        SpelledReads(s, sign, zeros, n);
      }
    }
  }

  lemma SpelledReads(s: string, sign: string, zeros: string, n: nat)
    requires n < U64_LIMIT && Spells(s, sign, zeros, n)
    ensures ParseUsize(s) == Some(n)
  {
    var digits := zeros + Decimal(n);
    ZerosAddNothing(zeros, Decimal(n));
    DecimalValue(n);
    Associative(sign, zeros, Decimal(n));
    SignedReads(sign, digits);
  }

  lemma SignedReads(sign: string, digits: string)
    requires (sign == "" || sign == "+") && digits != "" && AllDigits(digits) && DigitsValue(digits) < U64_LIMIT
    ensures ParseUsize(sign + digits) == Some(DigitsValue(digits))
  {
    var s := sign + digits;
    if sign == "" {
      assert s == digits && IsDigit(s[0]);
    } else {
      assert s[1..] == digits;
    }
  }

  /** `to_string` of a signed integer. */
  function SignedDecimal(i: int): (s: string)
    ensures |s| >= 1
    ensures i < 0 <==> s[0] == '-'
    ensures forall k :: 0 < k < |s| ==> IsDigit(s[k])
  {
    if i < 0 then "-" + Decimal(-i) else Decimal(i)
  }

  /** A minus sign and the digits of the absolute value, or the digits alone. */
  lemma SignedDecimalReads(i: int)
    ensures var digits := if i < 0 then SignedDecimal(i)[1..] else SignedDecimal(i);
      && AllDigits(digits) && DigitsValue(digits) == (if i < 0 then -i else i)
      && (digits[0] == '0' <==> i == 0) && (i < 0 ==> SignedDecimal(i)[0] == '-')
  {
    if i < 0 {
      DropFirst("-", Decimal(-i));
      DecimalValue(-i);
      NoLeadingZero(-i);
    } else {
      DecimalValue(i);
      NoLeadingZero(i);
    }
  }

  lemma SignedDecimalInjective(i: int, j: int)
    requires SignedDecimal(i) == SignedDecimal(j)
    ensures i == j
  {
    if i < 0 {
      DropFirst("-", Decimal(-i));
      DropFirst("-", Decimal(-j));
      DecimalValue(-i);
      DecimalValue(-j);
    } else {
      DecimalValue(i);
      DecimalValue(j);
    }
  }

  // ------------------------------------------------------------------
  // Bytes and white space
  // ------------------------------------------------------------------

  /** Length of one character in UTF-8. */
  function Utf8Len(c: char): (n: nat)
    ensures 1 <= n <= 4
  {
    if c as int < 0x80 then 1
    else if c as int < 0x800 then 2
    else if c as int < 0x1_0000 then 3
    else 4
  }

  /** `str::len`: the number of UTF-8 bytes. */
  function ByteLen(s: string): nat {
    if s == [] then 0 else Utf8Len(s[0]) + ByteLen(s[1..])
  }

  lemma {:induction false} ByteLenConcat(a: string, b: string)
    ensures ByteLen(a + b) == ByteLen(a) + ByteLen(b)
  {
    if a == [] {
      assert a + b == b;
    } else {
      assert (a + b)[1..] == a[1..] + b;
      ByteLenConcat(a[1..], b);
    }
  }

  predicate IsAscii(s: string) { forall i :: 0 <= i < |s| ==> s[i] as int < 0x80 }

  lemma {:induction false} ByteLenAscii(s: string)
    requires IsAscii(s)
    ensures ByteLen(s) == |s|
  {
    if s != [] {
      ByteLenAscii(s[1..]);
    }
  }

  /** `char::is_whitespace`: the Unicode White_Space property. */
  predicate IsWhitespace(c: char) {
    var n := c as int;
    || 0x09 <= n <= 0x0D || n == 0x20 || n == 0x85 || n == 0xA0 || n == 0x1680
    || 0x2000 <= n <= 0x200A || n == 0x2028 || n == 0x2029 || n == 0x202F
    || n == 0x205F || n == 0x3000
  }

  function TrimStart(s: string): (r: string)
    ensures |r| <= |s| && r == s[|s| - |r|..]
    ensures r != [] ==> !IsWhitespace(r[0])
    ensures s != [] && !IsWhitespace(s[0]) ==> r == s
  {
    if s != [] && IsWhitespace(s[0]) then TrimStart(s[1..]) else s
  }

  function TrimEnd(s: string): (r: string)
    ensures r <= s
    ensures r != [] ==> !IsWhitespace(r[|r| - 1])
    ensures forall i :: |r| <= i < |s| ==> IsWhitespace(s[i])
  {
    if s != [] && IsWhitespace(s[|s| - 1]) then TrimEnd(s[..|s| - 1]) else s
  }

  /** `str::trim`. */
  function Trim(s: string): string { TrimEnd(TrimStart(s)) }

  predicate IsSpace(s: string) { forall i :: 0 <= i < |s| ==> IsWhitespace(s[i]) }

  lemma {:induction false} TrimStartIs(space: string, s: string)
    requires IsSpace(space) && s != "" && !IsWhitespace(s[0])
    ensures TrimStart(space + s) == s
  {
    if space == "" {
      assert space + s == s;
    } else {
      assert (space + s)[1..] == space[1..] + s;
      TrimStartIs(space[1..], s);
    }
  }

  lemma {:induction false} TrimStartDrops(s: string)
    ensures IsSpace(s[..|s| - |TrimStart(s)|])
    ensures TrimStart(s) == "" ==> IsSpace(s)
  {
    if s != "" && IsWhitespace(s[0]) {
      TrimStartDrops(s[1..]);
      var n := |s| - |TrimStart(s)|;
      assert s[..n] == [s[0]] + s[1..][..n - 1];
    }
  }

  lemma TrimEndIs(s: string, r: string)
    requires r <= s && (r != "" ==> !IsWhitespace(r[|r| - 1]))
    requires forall i :: |r| <= i < |s| ==> IsWhitespace(s[i])
    ensures TrimEnd(s) == r
  {
    var t := TrimEnd(s);
    assert t == s[..|t|] && r == s[..|r|];
    if |t| > |r| {
      assert t[|t| - 1] == s[|t| - 1];
    }
  }

  /** Trimming leaves a text that neither begins nor ends in white space exactly where there
      is nothing but white space around it. */
  lemma TrimIff(s: string, r: string)
    requires r != "" && !IsWhitespace(r[0]) && !IsWhitespace(r[|r| - 1])
    ensures Trim(s) == r <==> exists before, after :: Surrounds(s, before, r, after)
  {
    if Trim(s) == r {
      var before, after := TrimSurrounds(s);
    }
    if before, after :| Surrounds(s, before, r, after) {
      TrimIs(s, before, r, after);
    }
  }

  lemma TrimSurrounds(s: string) returns (before: string, after: string)
    ensures Surrounds(s, before, Trim(s), after)
  {
    before := s[..|s| - |TrimStart(s)|];
    TrimStartDrops(s);
    after := EndTrimmed(TrimStart(s));
    Associative(before, Trim(s), after);
  }

  lemma EndTrimmed(t: string) returns (after: string)
    ensures t == TrimEnd(t) + after && IsSpace(after)
  {
    after := t[|TrimEnd(t)|..];
  }

  lemma TrimIs(s: string, before: string, r: string, after: string)
    requires r != "" && !IsWhitespace(r[0]) && !IsWhitespace(r[|r| - 1]) && Surrounds(s, before, r, after)
    ensures Trim(s) == r
  {
    Associative(before, r, after);
    TrimStartIs(before, r + after);
    TrimEndIs(r + after, r);
  }

  predicate Surrounds(s: string, before: string, r: string, after: string) {
    IsSpace(before) && IsSpace(after) && s == before + r + after
  }

  /** `str::split_whitespace`: the maximal runs of other characters. */
  function SplitWhitespace(s: string): seq<string>
    decreases |s|
  {
    var t := TrimStart(s);
    if t == [] then []
    else
      var w := FirstWord(t);
      [w] + SplitWhitespace(t[|w|..])
  }

  lemma SplitWord(w: string, rest: string)
    requires IsWord(w)
    ensures SplitWhitespace(w + " " + rest) == [w] + SplitWhitespace(rest)
  {
    var s := w + " " + rest;
    assert s == w + (" " + rest);
    FirstWordIs(w, " " + rest);
    assert s[|w|..] == " " + rest;
    assert (" " + rest)[1..] == rest;
    assert TrimStart(" " + rest) == TrimStart(rest);
  }

  lemma {:induction false} AllSpaceTrims(space: string)
    requires IsSpace(space)
    ensures TrimStart(space) == ""
  {
    if space != "" {
      AllSpaceTrims(space[1..]);
    }
  }

  /** The words of a text: none exactly when it is all white space; otherwise the first is
      what stands between white space, and the others are those of what follows. */
  lemma WordsAre(space: string, w: string, rest: string)
    requires IsSpace(space) && IsWord(w) && (rest != "" ==> IsWhitespace(rest[0]))
    ensures SplitWhitespace(space) == []
    ensures SplitWhitespace(space + w + rest) == [w] + SplitWhitespace(rest)
  {
    AllSpaceTrims(space);
    Associative(space, w, rest);
    TrimStartIs(space, w + rest);
    FirstWordIs(w, rest);
    DropFirst(w, rest);
  }

  lemma SplitNonEmpty(s: string)
    requires s != "" && !IsWhitespace(s[0])
    ensures SplitWhitespace(s) != []
  {}

  predicate IsWord(w: string) {
    w != [] && forall i :: 0 <= i < |w| ==> !IsWhitespace(w[i])
  }

  function FirstWord(s: string): (w: string)
    requires s != [] && !IsWhitespace(s[0])
    ensures w <= s
    ensures IsWord(w)
    ensures |w| < |s| ==> IsWhitespace(s[|w|])
  {
    if |s| == 1 || IsWhitespace(s[1]) then s[..1]
    else [s[0]] + FirstWord(s[1..])
  }

  lemma FirstWordIs(w: string, rest: string)
    requires IsWord(w)
    requires rest != [] ==> IsWhitespace(rest[0])
    ensures FirstWord(w + rest) == w
  {
    var s := w + rest;
    var f := FirstWord(s);
    assert forall k | 0 <= k < |w| :: s[k] == w[k];
    assert forall k | 0 <= k < |f| :: f[k] == s[k];
    assert |rest| > 0 ==> s[|w|] == rest[0];
  }
}
