/** The order JavaScript's Array.prototype.sort uses when it is given no comparator:
    strings are compared character by character, and a proper prefix comes first. */
module TextOrder {

  /** `a` sorts strictly before `b`. */
  predicate Below(a: string, b: string)
    decreases |a|
  {
    if a == [] then b != []
    else if b == [] then false
    else if a[0] != b[0] then a[0] < b[0]
    else Below(a[1..], b[1..])
  }

  predicate AtMost(a: string, b: string) {
    a == b || Below(a, b)
  }

  lemma {:induction false} BelowIrreflexive(a: string)
    ensures !Below(a, a)
    decreases |a|
  {
    if a != [] {
      BelowIrreflexive(a[1..]);
    }
  }

  lemma {:induction false} BelowAsymmetric(a: string, b: string)
    requires Below(a, b)
    ensures !Below(b, a) && a != b
    decreases |a|
  {
    if a != [] && b != [] && a[0] == b[0] {
      BelowAsymmetric(a[1..], b[1..]);
    }
    if a == b {
      BelowIrreflexive(a);
    }
  }

  lemma {:induction false} BelowTransitive(a: string, b: string, c: string)
    requires Below(a, b) && Below(b, c)
    ensures Below(a, c)
    decreases |a|
  {
    if a != [] && b != [] && c != [] && a[0] == b[0] == c[0] {
      BelowTransitive(a[1..], b[1..], c[1..]);
    }
  }

  lemma {:induction false} BelowTotal(a: string, b: string)
    ensures a == b || Below(a, b) || Below(b, a)
    decreases |a|
  {
    if a != [] && b != [] && a[0] == b[0] {
      BelowTotal(a[1..], b[1..]);
      if a[1..] == b[1..] {
        assert a == [a[0]] + a[1..] && b == [b[0]] + b[1..];
      }
    }
  }

  lemma AtMostTransitive(a: string, b: string, c: string)
    requires AtMost(a, b) && AtMost(b, c)
    ensures AtMost(a, c)
  {
    if a != b && b != c {
      BelowTransitive(a, b, c);
    }
  }

  lemma AtMostAntisymmetric(a: string, b: string)
    requires AtMost(a, b) && AtMost(b, a)
    ensures a == b
  {
    if a != b {
      BelowAsymmetric(a, b);
    }
  }

  /** Every string is in order before every later one. */
  predicate Ascending(s: seq<string>) {
    forall i, j :: 0 <= i < j < |s| ==> AtMost(s[i], s[j])
  }

  /** Ascending and without repetitions. */
  predicate StrictlyAscending(s: seq<string>) {
    forall i, j :: 0 <= i < j < |s| ==> Below(s[i], s[j])
  }

  /** Place `x` in front of the first element of `s` that sorts after it. */
  function Insert(x: string, s: seq<string>): (r: seq<string>)
    requires Ascending(s)
    ensures Ascending(r)
    ensures multiset(r) == multiset(s) + multiset{x}
    decreases |s|
  {
    if s == [] then [x]
    else if AtMost(x, s[0]) then
      AtMostAll(x, s);
      AscendingCons(x, s);
      [x] + s
    else
      var t := Insert(x, s[1..]);
      FirstBelowInserted(x, s, t);
      AscendingCons(s[0], t);
      assert s == [s[0]] + s[1..];
      [s[0]] + t
  }

  /** An element at most every element of an ascending sequence can go in front. */
  lemma AscendingCons(h: string, t: seq<string>)
    requires Ascending(t) && forall j :: 0 <= j < |t| ==> AtMost(h, t[j])
    ensures Ascending([h] + t)
  {
    var r := [h] + t;
    forall i, j | 0 <= i < j < |r| ensures AtMost(r[i], r[j]) {
      if i > 0 {
        assert r[i] == t[i - 1] && r[j] == t[j - 1];
      } else {
        assert r[j] == t[j - 1];
      }
    }
  }

  /** What sorts no later than the head of an ascending sequence sorts no later
      than any of its elements. */
  lemma AtMostAll(x: string, s: seq<string>)
    requires Ascending(s) && s != [] && AtMost(x, s[0])
    ensures forall j :: 0 <= j < |s| ==> AtMost(x, s[j])
  {
    forall j | 0 < j < |s| ensures AtMost(x, s[j]) { AtMostTransitive(x, s[0], s[j]); }
  }

  /** When `x` sorts after the head of an ascending `s`, the head is at most every
      element of the rest of `s` with `x` added. */
  lemma FirstBelowInserted(x: string, s: seq<string>, t: seq<string>)
    requires Ascending(s) && s != [] && !AtMost(x, s[0])
    requires multiset(t) == multiset(s[1..]) + multiset{x}
    ensures forall j :: 0 <= j < |t| ==> AtMost(s[0], t[j])
  {
    BelowTotal(x, s[0]);
    forall j | 0 <= j < |t| ensures AtMost(s[0], t[j]) {
      assert t[j] in multiset(s[1..]) + multiset{x};
      if t[j] != x {
        var k :| 0 <= k < |s[1..]| && s[1..][k] == t[j];
        assert s[k + 1] == t[j];
      }
    }
  }

  /** The channel lists' sort: ascending, and a permutation of its input. */
  function Sort(s: seq<string>): (r: seq<string>)
    ensures Ascending(r)
    ensures multiset(r) == multiset(s)
    decreases |s|
  {
    if s == [] then []
    else
      assert s == [s[0]] + s[1..];
      Insert(s[0], Sort(s[1..]))
  }

  /** Two ascending arrangements of the same strings start with the same string. */
  lemma AscendingSameFirst(r1: seq<string>, r2: seq<string>)
    requires Ascending(r1) && Ascending(r2) && r1 != [] && r2 != []
    requires multiset(r1) == multiset(r2)
    ensures r1[0] == r2[0]
  {
    assert r1[0] in multiset(r2);
    var k :| 0 <= k < |r2| && r2[k] == r1[0];
    assert AtMost(r2[0], r1[0]);
    assert r2[0] in multiset(r1);
    var m :| 0 <= m < |r1| && r1[m] == r2[0];
    assert AtMost(r1[0], r2[0]);
    AtMostAntisymmetric(r1[0], r2[0]);
  }

  /** Dropping the first element of a sequence drops it from its multiset. */
  lemma MultisetOfTail(r: seq<string>)
    requires r != []
    ensures multiset(r[1..]) == multiset(r) - multiset{r[0]}
  {
    assert r == [r[0]] + r[1..];
    assert multiset(r) == multiset{r[0]} + multiset(r[1..]);
  }

  /** Two ascending arrangements of the same strings are the same sequence. */
  lemma {:induction false} AscendingUnique(r1: seq<string>, r2: seq<string>)
    requires Ascending(r1) && Ascending(r2)
    requires multiset(r1) == multiset(r2)
    ensures r1 == r2
    decreases |r1|
  {
    assert |r2| == |multiset(r2)| == |multiset(r1)| == |r1|;
    if r1 != [] {
      AscendingSameFirst(r1, r2);
      MultisetOfTail(r1);
      MultisetOfTail(r2);
      AscendingUnique(r1[1..], r2[1..]);
      assert r1 == [r1[0]] + r1[1..] && r2 == [r2[0]] + r2[1..];
    }
  }

  /** An ascending sequence without repetitions is strictly ascending. */
  lemma DistinctAscendingIsStrict(s: seq<string>)
    requires Ascending(s)
    requires forall i, j :: 0 <= i < j < |s| ==> s[i] != s[j]
    ensures StrictlyAscending(s)
  {
  }

  /** Everything up to `i` is in order, except possibly for pairs ending at `j`. */
  predicate InOrderExcept(s: seq<string>, i: nat, j: nat)
    requires i < |s|
  {
    forall k, l :: 0 <= k < l <= i && l != j ==> AtMost(s[k], s[l])
  }

  /** Swapping the out-of-order element at `j` with its predecessor moves the
      exception one place back, keeps the same strings and leaves everything after
      `i` alone. */
  lemma SwapBack(s: seq<string>, i: nat, j: nat)
    requires 0 < j <= i < |s|
    requires InOrderExcept(s, i, j) && Below(s[j], s[j - 1])
    ensures InOrderExcept(s[j - 1 := s[j]][j := s[j - 1]], i, j - 1)
    ensures multiset(s[j - 1 := s[j]][j := s[j - 1]]) == multiset(s)
    ensures s[j - 1 := s[j]][j := s[j - 1]][i + 1..] == s[i + 1..]
  {
    var t := s[j - 1 := s[j]][j := s[j - 1]];
    forall k, l | 0 <= k < l <= i && l != j - 1
      ensures AtMost(t[k], t[l])
    {
      if k == j - 1 && l == j {
      } else if k == j - 1 {
        assert AtMost(s[j], s[l]);
      } else if k == j {
        assert AtMost(s[j - 1], s[l]);
      } else if l == j {
        assert AtMost(s[k], s[j - 1]);
      } else {
        assert AtMost(s[k], s[l]);
      }
    }
  }

  /** Once the element at `j` is no longer below its predecessor, everything up
      to `i` is in order. */
  lemma Settled(s: seq<string>, i: nat, j: nat)
    requires j <= i < |s| && InOrderExcept(s, i, j)
    requires j == 0 || !Below(s[j], s[j - 1])
    ensures Ascending(s[..i + 1])
  {
    if j > 0 {
      BelowTotal(s[j], s[j - 1]);
      forall k | 0 <= k < j ensures AtMost(s[k], s[j]) {
        AtMostTransitive(s[k], s[j - 1], s[j]);
      }
    }
    assert InOrderExcept(s, i, j);
  }

  /** One step of insertion sort: with `a[..i]` in order, swap `a[i]` back past
      every larger element, so that `a[..i + 1]` is in order; the elements after
      `i` stay where they are. */
  method InsertBackward(a: array<string>, i: nat)
    requires i < a.Length && Ascending(a[..i])
    modifies a
    ensures Ascending(a[..i + 1])
    ensures multiset(a[..]) == multiset(old(a[..]))
    ensures a[i + 1..] == old(a[i + 1..])
  {
    var j := i;
    while j > 0 && Below(a[j], a[j - 1])
      invariant 0 <= j <= i
      invariant multiset(a[..]) == multiset(old(a[..]))
      invariant a[i + 1..] == old(a[i + 1..])
      invariant InOrderExcept(a[..], i, j)
    {
      ghost var s := a[..];
      SwapBack(s, i, j);
      a[j - 1], a[j] := a[j], a[j - 1];
      assert a[..] == s[j - 1 := s[j]][j := s[j - 1]];
      j := j - 1;
    }
    Settled(a[..], i, j);
  }

  /** In-place insertion sort by adjacent swaps (Array.prototype.sort on an array of
      strings); the array ends up as `Sort` of its old contents. */
  method SortInPlace(a: array<string>)
    modifies a
    ensures a[..] == Sort(old(a[..]))
  {
    for i := 0 to a.Length
      invariant Ascending(a[..i])
      invariant multiset(a[..]) == multiset(old(a[..]))
    {
      InsertBackward(a, i);
    }
    assert a[..a.Length] == a[..];
    AscendingUnique(a[..], Sort(old(a[..])));
  }
}
