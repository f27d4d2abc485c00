/** Stable sorting by an integer key: the specification of Python's
    `list.sort(key=...)` (stable, ascending), with the in-place insertion
    sort that meets it. */
module Sorting {

  predicate SortedBy<T>(s: seq<T>, key: T -> int) {
    forall i, j :: 0 <= i < j < |s| ==> key(s[i]) <= key(s[j])
  }

  /** The elements of `s` whose key is `k`, in their order in `s`. */
  function WithKey<T>(s: seq<T>, key: T -> int, k: int): (r: seq<T>)
    ensures |r| <= |s|
  {
    if s == [] then []
    else WithKey(s[..|s| - 1], key, k) + (if key(s[|s| - 1]) == k then [s[|s| - 1]] else [])
  }

  /** Insert `x` after every trailing element whose key exceeds its key. */
  function InsertBy<T>(s: seq<T>, x: T, key: T -> int): (r: seq<T>)
    ensures |r| == |s| + 1
    ensures multiset(r) == multiset(s) + multiset{x}
  {
    if s == [] || key(s[|s| - 1]) <= key(x) then s + [x]
    else
      assert s == s[..|s| - 1] + [s[|s| - 1]];
      InsertBy(s[..|s| - 1], x, key) + [s[|s| - 1]]
  }

  /** Insertion sort: insert each element in turn into the sorted prefix. */
  function SortBy<T>(s: seq<T>, key: T -> int): (r: seq<T>)
    ensures |r| == |s|
    ensures multiset(r) == multiset(s)
  {
    if s == [] then []
    else
      assert s == s[..|s| - 1] + [s[|s| - 1]];
      InsertBy(SortBy(s[..|s| - 1], key), s[|s| - 1], key)
  }

  // ---------------------------------------------------------------- properties

  lemma {:induction false} InsertBySorted<T>(s: seq<T>, x: T, key: T -> int)
    requires SortedBy(s, key)
    ensures SortedBy(InsertBy(s, x, key), key)
    decreases |s|
  {
    if s != [] && key(s[|s| - 1]) > key(x) {
      var init, last := s[..|s| - 1], s[|s| - 1];
      InsertBySorted(init, x, key);
      var r := InsertBy(init, x, key);
      forall i | 0 <= i < |r| ensures key(r[i]) <= key(last) {
        assert r[i] in multiset(r);
        assert r[i] in multiset(init) || r[i] == x;
        if r[i] != x {
          var j :| 0 <= j < |init| && init[j] == r[i];
          assert key(s[j]) <= key(s[|s| - 1]);
        }
      }
    }
  }

  /** The sort puts the elements in key order. */
  lemma {:induction false} SortBySorted<T>(s: seq<T>, key: T -> int)
    ensures SortedBy(SortBy(s, key), key)
  {
    if s != [] {
      SortBySorted(s[..|s| - 1], key);
      InsertBySorted(SortBy(s[..|s| - 1], key), s[|s| - 1], key);
    }
  }

  lemma WithKeySnoc<T>(s: seq<T>, x: T, key: T -> int, k: int)
    ensures WithKey(s + [x], key, k) == WithKey(s, key, k) + (if key(x) == k then [x] else [])
  {
    assert (s + [x])[..|s|] == s;
  }

  lemma {:induction false} InsertByWithKey<T>(s: seq<T>, x: T, key: T -> int, k: int)
    ensures WithKey(InsertBy(s, x, key), key, k) == WithKey(s, key, k) + (if key(x) == k then [x] else [])
    decreases |s|
  {
    if s == [] || key(s[|s| - 1]) <= key(x) {
      WithKeySnoc(s, x, key, k);
    } else {
      var init, last := s[..|s| - 1], s[|s| - 1];
      assert s == init + [last];
      InsertByWithKey(init, x, key, k);
      WithKeySnoc(InsertBy(init, x, key), last, key, k);
      WithKeySnoc(init, last, key, k);
    }
  }

  /** The sort is stable: the elements of each key keep their input order. */
  lemma {:induction false} SortByStable<T>(s: seq<T>, key: T -> int, k: int)
    ensures WithKey(SortBy(s, key), key, k) == WithKey(s, key, k)
  {
    if s != [] {
      var init, last := s[..|s| - 1], s[|s| - 1];
      SortByStable(init, key, k);
      InsertByWithKey(SortBy(init, key), last, key, k);
    }
  }

  /** An already sorted sequence is left as it is. */
  lemma {:induction false} SortBySortedIdentity<T>(s: seq<T>, key: T -> int)
    requires SortedBy(s, key)
    ensures SortBy(s, key) == s
  {
    if s != [] {
      var init := s[..|s| - 1];
      assert SortedBy(init, key);
      SortBySortedIdentity(init, key);
    }
  }

  // ---------------------------------------------------------------- in place

  lemma InsertByStep<T>(s: seq<T>, x: T, key: T -> int, j: nat, i: nat)
    requires 0 < j <= i == |s| && key(s[j - 1]) > key(x)
    ensures InsertBy(s[..j], x, key) + s[j..i] == InsertBy(s[..j - 1], x, key) + s[j - 1..i]
  {
    assert s[..j][..j - 1] == s[..j - 1];
    assert s[j - 1..i] == [s[j - 1]] + s[j..i];
  }

  /** The shifting stops where the key no longer exceeds the key of `x`. */
  lemma InsertByStop<T>(s: seq<T>, x: T, key: T -> int, j: nat)
    requires j <= |s| && (j == 0 || key(s[j - 1]) <= key(x))
    ensures InsertBy(s[..j], x, key) + s[j..] == s[..j] + [x] + s[j..]
  {
  }

  /** One shift of the loop: copying `b[j - 1]` into `b[j]` moves the gap
      one place to the left. */
  lemma ShiftStep<T>(b: seq<T>, s: seq<T>, rest: seq<T>, j: nat, i: nat)
    requires 0 < j <= i == |s| && |b| == i + 1 + |rest|
    requires b[..j] == s[..j] && b[j + 1..i + 1] == s[j..i] && b[i + 1..] == rest
    ensures var c := b[j := b[j - 1]];
            c[..j - 1] == s[..j - 1] && c[j..i + 1] == s[j - 1..i] && c[i + 1..] == rest
  {
    var c := b[j := b[j - 1]];
    assert c[..j - 1] == b[..j - 1] == s[..j - 1];
    assert c[j..i + 1] == [b[j - 1]] + b[j + 1..i + 1];
  }

  /** Filling the gap at `j` with `x` gives `s` with `x` inserted at `j`. */
  lemma FillGap<T>(b: seq<T>, s: seq<T>, rest: seq<T>, x: T, j: nat, i: nat)
    requires j <= i == |s| && |b| == i + 1 + |rest|
    requires b[..j] == s[..j] && b[j + 1..i + 1] == s[j..i] && b[i + 1..] == rest
    ensures var c := b[j := x]; c[..i + 1] == s[..j] + [x] + s[j..] && c[i + 1..] == rest
  {
    var c := b[j := x];
    assert c[..i + 1] == c[..j] + [c[j]] + c[j + 1..i + 1];
  }

  /** One pass of insertion sort: `a[i]` moves left past the larger keys of
      the sorted prefix `a[..i]`. */
  method InsertInPlace<T>(a: array<T>, i: nat, key: T -> int)
    requires i < a.Length
    modifies a
    ensures a[..i + 1] == InsertBy(old(a[..i]), old(a[i]), key)
    ensures a[i + 1..] == old(a[i + 1..])
  {
    ghost var s, rest := a[..i], a[i + 1..];
    var x := a[i];
    var j := i;
    assert s[..j] == s && s[j..i] == [];
    while j > 0 && key(a[j - 1]) > key(x)
      invariant 0 <= j <= i
      invariant a[..j] == s[..j] && a[j + 1..i + 1] == s[j..i] && a[i + 1..] == rest
      invariant InsertBy(s, x, key) == InsertBy(s[..j], x, key) + s[j..i]
    {
      InsertByStep(s, x, key, j, i);
      ShiftStep(a[..], s, rest, j, i);
      a[j] := a[j - 1];
      j := j - 1;
    }
    InsertByStop(s, x, key, j);
    FillGap(a[..], s, rest, x, j, i);
    a[j] := x;
  }

  /** Sorting one more element inserts it into the sorted prefix. */
  lemma SortByStep<T>(o: seq<T>, i: nat, key: T -> int)
    requires i < |o|
    ensures SortBy(o[..i + 1], key) == InsertBy(SortBy(o[..i], key), o[i], key)
  {
    assert o[..i + 1][..i] == o[..i];
  }

  /** The unsorted suffix starts with `o[i]` and continues with `o[i + 1..]`. */
  lemma SuffixStep<T>(b: seq<T>, o: seq<T>, i: nat)
    requires i < |o| == |b| && b[i..] == o[i..]
    ensures b[i] == o[i] && b[i + 1..] == o[i + 1..]
  {
    assert b[i..][0] == b[i] && o[i..][0] == o[i];
    assert b[i + 1..] == b[i..][1..];
    assert o[i + 1..] == o[i..][1..];
  }

  /** `list.sort(key=...)`: insertion sort shifting larger keys right. */
  method SortInPlace<T>(a: array<T>, key: T -> int)
    modifies a
    ensures a[..] == SortBy(old(a[..]), key)
  {
    ghost var o := a[..];
    var i := 0;
    while i < a.Length
      invariant 0 <= i <= a.Length
      invariant a[..i] == SortBy(o[..i], key)
      invariant a[i..] == o[i..]
    {
      SuffixStep(a[..], o, i);
      SortByStep(o, i, key);
      InsertInPlace(a, i, key);
      i := i + 1;
    }
    assert a[..] == a[..a.Length] && o[..a.Length] == o;
  }
}
