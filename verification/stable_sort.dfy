/** The library's stable sort by timestamp, given by insertion and pinned down by
    what "stable sort" means. */
module StableSort {
  import opened Canonical

  /** `m` behind every message that is not later. */
  function Insert(s: seq<SignedMessage>, m: SignedMessage): (r: seq<SignedMessage>)
    ensures |r| == |s| + 1
    ensures forall x :: x in r <==> x in s || x == m
  {
    if s == [] || s[|s| - 1].timestamp <= m.timestamp then s + [m]
    else Insert(s[..|s| - 1], m) + [s[|s| - 1]]
  }

  /** `sort_by_key(|m| m.timestamp)` */
  function Sort(s: seq<SignedMessage>): (r: seq<SignedMessage>)
    ensures |r| == |s|
    ensures forall x :: x in r <==> x in s
  {
    if s == [] then [] else Insert(Sort(s[..|s| - 1]), s[|s| - 1])
  }

  predicate Sorted(s: seq<SignedMessage>) {
    forall i, j :: 0 <= i < j < |s| ==> s[i].timestamp <= s[j].timestamp
  }

  /** The messages with timestamp `t`, in order. */
  function AtTime(s: seq<SignedMessage>, t: int): seq<SignedMessage> {
    if s == [] then []
    else AtTime(s[..|s| - 1], t) + if s[|s| - 1].timestamp == t then [s[|s| - 1]] else []
  }

  lemma {:induction false} AtTimeMembers(s: seq<SignedMessage>, t: int)
    ensures forall x :: x in AtTime(s, t) <==> x in s && x.timestamp == t
  {
    if s != [] {
      AtTimeMembers(s[..|s| - 1], t);
      assert s == s[..|s| - 1] + [s[|s| - 1]];
    }
  }

  lemma AtTimePush(s: seq<SignedMessage>, m: SignedMessage, t: int)
    ensures AtTime(s + [m], t) == AtTime(s, t) + if m.timestamp == t then [m] else []
  {
    assert (s + [m])[..|s|] == s;
  }

  /** Ascending, and messages with the same timestamp in their original order. */
  ghost predicate IsStableSortOf(r: seq<SignedMessage>, s: seq<SignedMessage>) {
    Sorted(r) && forall t :: AtTime(r, t) == AtTime(s, t)
  }

  lemma {:induction false} InsertSorted(s: seq<SignedMessage>, m: SignedMessage)
    requires Sorted(s)
    ensures Sorted(Insert(s, m))
  {
    if s != [] && s[|s| - 1].timestamp > m.timestamp {
      InsertSorted(s[..|s| - 1], m);
      var r := Insert(s[..|s| - 1], m);
      assert forall x | x in s[..|s| - 1] :: x.timestamp <= s[|s| - 1].timestamp;
      assert forall i | 0 <= i < |r| :: r[i] in r;
    }
  }

  lemma {:induction false} InsertAtTime(s: seq<SignedMessage>, m: SignedMessage, t: int)
    ensures AtTime(Insert(s, m), t) == AtTime(s, t) + if m.timestamp == t then [m] else []
  {
    if s == [] || s[|s| - 1].timestamp <= m.timestamp {
      AtTimePush(s, m, t);
    } else {
      var before, last := s[..|s| - 1], s[|s| - 1];
      InsertAtTime(before, m, t);
      AtTimePush(Insert(before, m), last, t);
    }
  }

  lemma {:induction false} SortIsStable(s: seq<SignedMessage>)
    ensures IsStableSortOf(Sort(s), s)
  {
    if s != [] {
      var before, m := s[..|s| - 1], s[|s| - 1];
      SortIsStable(before);
      InsertSorted(Sort(before), m);
      forall t
        ensures AtTime(Sort(s), t) == AtTime(s, t)
      {
        InsertAtTime(Sort(before), m, t);
      }
    }
  }

  lemma LastAtTime(s: seq<SignedMessage>)
    requires s != []
    ensures var l := AtTime(s, s[|s| - 1].timestamp); l != [] && l[|l| - 1] == s[|s| - 1]
  {}

  /** Two ascending lists end at the same time if they hold messages of the same times. */
  lemma SameLastTime(a: seq<SignedMessage>, b: seq<SignedMessage>)
    requires Sorted(a) && Sorted(b) && a != []
    requires forall t :: |AtTime(a, t)| == |AtTime(b, t)|
    ensures b != [] && a[|a| - 1].timestamp == b[|b| - 1].timestamp
  {
    LastAtTime(a);
    assert |AtTime(b, a[|a| - 1].timestamp)| == |AtTime(a, a[|a| - 1].timestamp)|;
    NotLater(b, a[|a| - 1].timestamp);
    LastAtTime(b);
    assert |AtTime(a, b[|b| - 1].timestamp)| == |AtTime(b, b[|b| - 1].timestamp)|;
    NotLater(a, b[|b| - 1].timestamp);
  }

  lemma {:induction false} NotLater(s: seq<SignedMessage>, t: int)
    requires Sorted(s) && AtTime(s, t) != []
    ensures s != [] && t <= s[|s| - 1].timestamp
  {
    var n := |s| - 1;
    if s[n].timestamp != t {
      assert AtTime(s[..n], t) + [] == AtTime(s[..n], t);
      NotLater(s[..n], t);
    }
  }

  lemma DropLast(a: seq<SignedMessage>, b: seq<SignedMessage>, t: int)
    requires a != [] && b != [] && a[|a| - 1] == b[|b| - 1] && AtTime(a, t) == AtTime(b, t)
    ensures AtTime(a[..|a| - 1], t) == AtTime(b[..|b| - 1], t)
  {
    var x, y := AtTime(a[..|a| - 1], t), AtTime(b[..|b| - 1], t);
    if a[|a| - 1].timestamp == t {
      assert (x + [a[|a| - 1]])[..|x|] == x && (y + [b[|b| - 1]])[..|y|] == y;
    } else {
      assert x + [] == x && y + [] == y;
    }
  }

  /** A stable sort is determined by what it sorts. */
  lemma {:induction false} StableSortUnique(a: seq<SignedMessage>, b: seq<SignedMessage>)
    requires Sorted(a) && Sorted(b)
    requires forall t :: AtTime(a, t) == AtTime(b, t)
    ensures a == b
    decreases |a|
  {
    if a == [] {
      if b != [] {
        LastAtTime(b);
      }
    } else {
      SameLastTime(a, b);
      LastAtTime(a);
      LastAtTime(b);
      var a', b' := a[..|a| - 1], b[..|b| - 1];
      forall t
        ensures AtTime(a', t) == AtTime(b', t)
      {
        DropLast(a, b, t);
      }
      StableSortUnique(a', b');
      assert a == a' + [a[|a| - 1]] && b == b' + [b[|b| - 1]];
    }
  }

  /** The only stable sort of `s`. */
  lemma SortIffStable(r: seq<SignedMessage>, s: seq<SignedMessage>)
    ensures r == Sort(s) <==> IsStableSortOf(r, s)
  {
    SortIsStable(s);
    if IsStableSortOf(r, s) {
      StableSortUnique(r, Sort(s));
    }
  }

  ghost predicate SameOrderPerTime(x: seq<SignedMessage>, y: seq<SignedMessage>) {
    forall t :: AtTime(x, t) == AtTime(y, t)
  }

  lemma SortsEqualIff(x: seq<SignedMessage>, y: seq<SignedMessage>)
    ensures Sort(x) == Sort(y) <==> SameOrderPerTime(x, y)
  {
    SortIsStable(x);
    SortIsStable(y);
    if SameOrderPerTime(x, y) {
      forall t
        ensures AtTime(Sort(x), t) == AtTime(Sort(y), t)
      {
        assert AtTime(x, t) == AtTime(y, t);
      }
      StableSortUnique(Sort(x), Sort(y));
    }
  }

  /** Sorting after each push is sorting once. */
  lemma SortAfterPush(s: seq<SignedMessage>, m: SignedMessage)
    ensures Sort(Sort(s) + [m]) == Sort(s + [m])
  {
    SortIsStable(s);
    SortIffStable(Sort(s), Sort(s));
    assert (Sort(s) + [m])[..|s|] == Sort(s) && (s + [m])[..|s|] == s;
  }

  lemma AtTimeCount(s: seq<SignedMessage>, t: int)
    requires s != []
    ensures |AtTime(s, t)| == |AtTime(s[..|s| - 1], t)| + (if s[|s| - 1].timestamp == t then 1 else 0)
  {}

  lemma TimestampsPush(s: seq<SignedMessage>, m: SignedMessage)
    ensures Timestamps(s + [m]) == Timestamps(s) + [m.timestamp]
  {}

  /** Ascending lists with as many messages of each time have the same times throughout. */
  lemma {:induction false} SameTimes(a: seq<SignedMessage>, b: seq<SignedMessage>)
    requires Sorted(a) && Sorted(b)
    requires forall t :: |AtTime(a, t)| == |AtTime(b, t)|
    ensures Timestamps(a) == Timestamps(b)
    decreases |a|
  {
    if a == [] {
      if b != [] {
        LastAtTime(b);
      }
    } else {
      SameLastTime(a, b);
      var a', b' := a[..|a| - 1], b[..|b| - 1];
      forall t
        ensures |AtTime(a', t)| == |AtTime(b', t)|
      {
        assert |AtTime(a, t)| == |AtTime(b, t)|;
        AtTimeCount(a, t);
        AtTimeCount(b, t);
      }
      SameTimes(a', b');
      assert a == a' + [a[|a| - 1]] && b == b' + [b[|b| - 1]];
      TimestampsPush(a', a[|a| - 1]);
      TimestampsPush(b', b[|b| - 1]);
    }
  }
}
