/** Stable sorting by an integer key, the way Array.prototype.sort behaves with the
    comparator `(a, b) => key(a) - key(b)`: ascending keys, and elements with equal
    keys keep their original relative order. */
module KeySort {
  import opened Common

  /** The elements of `s` whose key is `t`, in their order in `s`. */
  function WithKey<T>(s: seq<T>, key: T -> int, t: int): seq<T> {
    Filter(s, x => key(x) == t)
  }

  predicate SortedByKey<T>(s: seq<T>, key: T -> int) {
    forall i, j :: 0 <= i < j < |s| ==> key(s[i]) <= key(s[j])
  }

  /** `r` and `s` hold, for every key, the same elements in the same order: `r` is
      a stable rearrangement of `s`. */
  ghost predicate SameKeyOrder<T>(r: seq<T>, s: seq<T>, key: T -> int) {
    forall t :: WithKey(r, key, t) == WithKey(s, key, t)
  }

  lemma WithKeyCons<T>(x: T, s: seq<T>, key: T -> int, t: int)
    ensures WithKey([x] + s, key, t) == (if key(x) == t then [x] else []) + WithKey(s, key, t)
  {
    assert ([x] + s)[1..] == s;
  }

  lemma WithKeyHasMember<T>(s: seq<T>, key: T -> int, i: int)
    requires 0 <= i < |s|
    ensures s[i] in WithKey(s, key, key(s[i]))
  {
    FilterIsSelection(s, y => key(y) == key(s[i]));
    assert s[i] in multiset(s);
  }

  /** Every element picked out by WithKey comes from the sequence. */
  lemma WithKeyMember<T>(s: seq<T>, key: T -> int, t: int, x: T)
    requires x in WithKey(s, key, t)
    ensures x in s && key(x) == t
  {
    FilterIsSelection(s, y => key(y) == t);
    assert x in multiset(WithKey(s, key, t));
  }

  /** A lower bound on keys survives adding `x` to every key's order. */
  lemma KeysBoundedBelow<T>(u: seq<T>, s: seq<T>, x: T, key: T -> int, lo: int)
    requires forall t :: WithKey(u, key, t) == (if key(x) == t then [x] else []) + WithKey(s, key, t)
    requires lo <= key(x)
    requires forall i :: 0 <= i < |s| ==> lo <= key(s[i])
    ensures forall i :: 0 <= i < |u| ==> lo <= key(u[i])
  {
    forall i | 0 <= i < |u| ensures lo <= key(u[i]) {
      var t := key(u[i]);
      WithKeyHasMember(u, key, i);
      if u[i] != x {
        assert u[i] in WithKey(s, key, t);
        WithKeyMember(s, key, t, u[i]);
      }
    }
  }

  /** Insert `x` in front of the first element whose key is not smaller. */
  function InsertByKey<T>(x: T, s: seq<T>, key: T -> int): (r: seq<T>)
    requires SortedByKey(s, key)
    ensures SortedByKey(r, key)
    ensures |r| == |s| + 1
    ensures forall t :: WithKey(r, key, t) == (if key(x) == t then [x] else []) + WithKey(s, key, t)
    decreases |s|
  {
    if s == [] || key(x) <= key(s[0]) then
      assert forall t :: WithKey([x] + s, key, t) == (if key(x) == t then [x] else []) + WithKey(s, key, t) by {
        forall t { WithKeyCons(x, s, key, t); }
      }
      [x] + s
    else
      var u := InsertByKey(x, s[1..], key);
      KeysBoundedBelow(u, s[1..], x, key, key(s[0]));
      InsertByKeyStep(x, s, u, key);
      [s[0]] + u
  }

  lemma InsertByKeyStep<T>(x: T, s: seq<T>, u: seq<T>, key: T -> int)
    requires s != [] && key(s[0]) < key(x)
    requires forall t :: WithKey(u, key, t) == (if key(x) == t then [x] else []) + WithKey(s[1..], key, t)
    ensures forall t :: WithKey([s[0]] + u, key, t) == (if key(x) == t then [x] else []) + WithKey(s, key, t)
  {
    assert s == [s[0]] + s[1..];
    forall t ensures WithKey([s[0]] + u, key, t) == (if key(x) == t then [x] else []) + WithKey(s, key, t) {
      WithKeyCons(s[0], u, key, t);
      WithKeyCons(s[0], s[1..], key, t);
    }
  }

  /** Stable insertion sort by `key`. */
  function SortByKey<T>(s: seq<T>, key: T -> int): (r: seq<T>)
    ensures SortedByKey(r, key)
    ensures SameKeyOrder(r, s, key)
    ensures |r| == |s|
    decreases |s|
  {
    if s == [] then []
    else
      var u := SortByKey(s[1..], key);
      assert s == [s[0]] + s[1..];
      forall t ensures WithKey(s, key, t) == (if key(s[0]) == t then [s[0]] else []) + WithKey(s[1..], key, t) {
        WithKeyCons(s[0], s[1..], key, t);
      }
      InsertByKey(s[0], u, key)
  }

  /** A stable rearrangement is a permutation. */
  lemma SameKeyOrderIsPermutation<T>(r: seq<T>, s: seq<T>, key: T -> int)
    requires SameKeyOrder(r, s, key)
    ensures multiset(r) == multiset(s)
  {
    forall x ensures multiset(r)[x] == multiset(s)[x] {
      assert WithKey(r, key, key(x)) == WithKey(s, key, key(x));
      FilterIsSelection(r, y => key(y) == key(x));
      FilterIsSelection(s, y => key(y) == key(x));
    }
  }

  /** The sort only rearranges: it keeps every element as often as it occurs. */
  lemma SortByKeyPermutation<T>(s: seq<T>, key: T -> int)
    ensures multiset(SortByKey(s, key)) == multiset(s)
  {
    SameKeyOrderIsPermutation(SortByKey(s, key), s, key);
  }

  lemma FirstOfWithKey<T>(s: seq<T>, key: T -> int)
    requires s != []
    ensures WithKey(s, key, key(s[0])) != [] && WithKey(s, key, key(s[0]))[0] == s[0]
    ensures WithKey(s[1..], key, key(s[0])) == WithKey(s, key, key(s[0]))[1..]
    ensures forall t :: t != key(s[0]) ==> WithKey(s[1..], key, t) == WithKey(s, key, t)
  {
    assert s == [s[0]] + s[1..];
    forall t {
      WithKeyCons(s[0], s[1..], key, t);
    }
  }

  /** Sorted and stable determine the result: a stable sort has exactly one answer. */
  lemma {:induction false} StableSortUnique<T>(r1: seq<T>, r2: seq<T>, key: T -> int)
    requires SortedByKey(r1, key) && SortedByKey(r2, key)
    requires SameKeyOrder(r1, r2, key)
    ensures r1 == r2
    decreases |r1| + |r2|
  {
    if r1 == [] && r2 == [] {
    } else if r2 == [] {
      FirstOfWithKey(r1, key);
      assert false;
    } else if r1 == [] {
      FirstOfWithKey(r2, key);
      assert false;
    } else {
      FirstOfWithKey(r1, key);
      FirstOfWithKey(r2, key);
      var m1, m2 := key(r1[0]), key(r2[0]);
      WithKeyMember(r2, key, m1, WithKey(r2, key, m1)[0]);
      var i :| 0 <= i < |r2| && r2[i] == WithKey(r2, key, m1)[0];
      assert m2 <= m1;
      WithKeyMember(r1, key, m2, WithKey(r1, key, m2)[0]);
      var j :| 0 <= j < |r1| && r1[j] == WithKey(r1, key, m2)[0];
      assert m1 <= m2;
      assert r1[0] == r2[0];
      StableSortUnique(r1[1..], r2[1..], key);
      assert r1 == [r1[0]] + r1[1..] && r2 == [r2[0]] + r2[1..];
    }
  }

  /** Two sorted sequences that both keep every key's order of `s` are equal. */
  lemma SharedOrderUnique<T>(r1: seq<T>, r2: seq<T>, s: seq<T>, key: T -> int)
    requires SortedByKey(r1, key) && SortedByKey(r2, key)
    requires SameKeyOrder(r1, s, key) && SameKeyOrder(r2, s, key)
    ensures r1 == r2
  {
    StableSortUnique(r1, r2, key);
  }

  /** The stable sort is the only sorted, stable rearrangement of `s`. */
  lemma SortByKeyUnique<T>(r: seq<T>, s: seq<T>, key: T -> int)
    requires SortedByKey(r, key) && SameKeyOrder(r, s, key)
    ensures r == SortByKey(s, key)
  {
    SharedOrderUnique(r, SortByKey(s, key), s, key);
  }

  /** Exchanging two neighbours whose keys differ keeps every key's order. */
  lemma SwapKeepsKeyOrder<T>(s: seq<T>, j: int, key: T -> int)
    requires 0 < j < |s| && key(s[j - 1]) != key(s[j])
    ensures SameKeyOrder(s[j - 1 := s[j]][j := s[j - 1]], s, key)
  {
    var s' := s[j - 1 := s[j]][j := s[j - 1]];
    var pre, post := s[..j - 1], s[j + 1..];
    assert s == pre + ([s[j - 1]] + ([s[j]] + post));
    assert s' == pre + ([s[j]] + ([s[j - 1]] + post));
    forall t ensures WithKey(s', key, t) == WithKey(s, key, t) {
      FilterAppend(pre, [s[j]] + ([s[j - 1]] + post), y => key(y) == t);
      FilterAppend(pre, [s[j - 1]] + ([s[j]] + post), y => key(y) == t);
      WithKeyCons(s[j], [s[j - 1]] + post, key, t);
      WithKeyCons(s[j - 1], post, key, t);
      WithKeyCons(s[j - 1], [s[j]] + post, key, t);
      WithKeyCons(s[j], post, key, t);
    }
  }

  /** Everything up to `i` is in key order, except possibly for pairs ending at `j`. */
  predicate KeyOrderExcept<T>(s: seq<T>, key: T -> int, i: nat, j: nat)
    requires i < |s|
  {
    forall k, l :: 0 <= k < l <= i && l != j ==> key(s[k]) <= key(s[l])
  }

  /** Swapping the out-of-order element at `j` with its predecessor moves the
      exception one place back. */
  lemma SwapBack<T>(s: seq<T>, key: T -> int, i: nat, j: nat)
    requires 0 < j <= i < |s|
    requires KeyOrderExcept(s, key, i, j) && key(s[j]) < key(s[j - 1])
    ensures KeyOrderExcept(s[j - 1 := s[j]][j := s[j - 1]], key, i, j - 1)
  {
    var t := s[j - 1 := s[j]][j := s[j - 1]];
    forall k, l | 0 <= k < l <= i && l != j - 1
      ensures key(t[k]) <= key(t[l])
    {
      if k == j - 1 && l == j {
      } else if k == j - 1 {
        assert key(s[j]) <= key(s[l]);
      } else if k == j {
        assert key(s[j - 1]) <= key(s[l]);
      } else if l == j {
        assert key(s[k]) <= key(s[j - 1]);
      } else {
        assert key(s[k]) <= key(s[l]);
      }
    }
  }

  /** Once the element at `j` has a key no smaller than its predecessor's,
      everything up to `i` is in key order. */
  lemma KeySettled<T>(s: seq<T>, key: T -> int, i: nat, j: nat)
    requires j <= i < |s| && KeyOrderExcept(s, key, i, j)
    requires j == 0 || key(s[j - 1]) <= key(s[j])
    ensures SortedByKey(s[..i + 1], key)
  {
    assert KeyOrderExcept(s, key, i, j);
  }

  /** One step of the insertion sort: with `a[..i]` in key order, move `a[i]` left
      past the neighbours whose key is strictly greater. */
  method InsertBackward<T>(a: array<T>, key: T -> int, i: nat)
    requires i < a.Length && SortedByKey(a[..i], key)
    modifies a
    ensures SortedByKey(a[..i + 1], key)
    ensures SameKeyOrder(a[..], old(a[..]), key)
  {
    var j := i;
    while j > 0 && key(a[j]) < key(a[j - 1])
      invariant 0 <= j <= i
      invariant SameKeyOrder(a[..], old(a[..]), key)
      invariant KeyOrderExcept(a[..], key, i, j)
    {
      ghost var before := a[..];
      SwapBack(before, key, i, j);
      SwapKeepsKeyOrder(before, j, key);
      a[j - 1], a[j] := a[j], a[j - 1];
      assert a[..] == before[j - 1 := before[j]][j := before[j - 1]];
      j := j - 1;
    }
    KeySettled(a[..], key, i, j);
  }

  /** In-place stable insertion sort: each element moves left past the neighbours
      whose key is strictly greater. The array ends up as SortByKey of its old contents. */
  method SortInPlace<T>(a: array<T>, key: T -> int)
    modifies a
    ensures a[..] == SortByKey(old(a[..]), key)
  {
    for i := 0 to a.Length
      invariant SortedByKey(a[..i], key)
      invariant SameKeyOrder(a[..], old(a[..]), key)
    {
      InsertBackward(a, key, i);
    }
    assert a[..a.Length] == a[..];
    StableSortUnique(a[..], SortByKey(old(a[..]), key), key);
  }
}
