/** Grouping a sequence by a key, as `defaultdict(list)` does when every
    element is appended to the list of its key: the groups, the keys in
    order of first appearance, and the fact that the groups partition the
    input. */
module Grouping {

  predicate Distinct<K(==)>(s: seq<K>) {
    forall i, j :: 0 <= i < j < |s| ==> s[i] != s[j]
  }

  /** The list held under `k`: the elements whose key is `k`, in input
      order. */
  function Group<T, K(==)>(s: seq<T>, key: T -> K, k: K): (g: seq<T>)
    ensures |g| <= |s|
  {
    if s == [] then []
    else Group(s[..|s| - 1], key, k) + (if key(s[|s| - 1]) == k then [s[|s| - 1]] else [])
  }

  /** The dictionary's keys: each key once, in order of first appearance. */
  function KeysInOrder<T, K(==)>(s: seq<T>, key: T -> K): (ks: seq<K>)
    ensures Distinct(ks)
  {
    if s == [] then []
    else
      var ks := KeysInOrder(s[..|s| - 1], key);
      if key(s[|s| - 1]) in ks then ks else ks + [key(s[|s| - 1])]
  }

  // ---------------------------------------------------------------- properties

  /** A prefix one longer is the prefix and the next element. */
  lemma TakeSnoc<T>(s: seq<T>, j: nat)
    requires j < |s|
    ensures s[..j + 1] == s[..j] + [s[j]]
  {
  }

  /** The keys are exactly the keys of the elements. */
  lemma {:induction false} KeysInOrderMembers<T, K>(s: seq<T>, key: T -> K)
    ensures forall k :: k in KeysInOrder(s, key) <==> exists i :: 0 <= i < |s| && key(s[i]) == k
  {
    if s != [] {
      var init := s[..|s| - 1];
      KeysInOrderMembers(init, key);
      assert forall i :: 0 <= i < |init| ==> init[i] == s[i];
    }
  }

  /** A key no element carries has an empty group. */
  lemma {:induction false} GroupEmpty<T, K>(s: seq<T>, key: T -> K, k: K)
    requires k !in KeysInOrder(s, key)
    ensures Group(s, key, k) == []
  {
    if s != [] {
      GroupEmpty(s[..|s| - 1], key, k);
    }
  }

  /** Each element is in the group of its own key and in no other. */
  lemma {:induction false} GroupMembers<T, K>(s: seq<T>, key: T -> K, k: K)
    ensures forall x :: x in Group(s, key, k) <==> x in s && key(x) == k
  {
    if s != [] {
      var init := s[..|s| - 1];
      GroupMembers(init, key, k);
      assert s == init + [s[|s| - 1]];
    }
  }

  /** The same, element by element. */
  lemma GroupElements<T, K>(s: seq<T>, key: T -> K, k: K)
    ensures forall i :: 0 <= i < |Group(s, key, k)| ==> Group(s, key, k)[i] in s && key(Group(s, key, k)[i]) == k
  {
    forall i | 0 <= i < |Group(s, key, k)| ensures Group(s, key, k)[i] in s && key(Group(s, key, k)[i]) == k {
      GroupMembers(s, key, k);
      var g := Group(s, key, k);
      assert g[i] in g;
    }
  }

  /** Appending an element extends its own group and leaves every other
      group as it was. */
  lemma GroupSnoc<T, K>(s: seq<T>, x: T, key: T -> K, k: K)
    ensures Group(s + [x], key, k) == Group(s, key, k) + (if key(x) == k then [x] else [])
  {
    assert (s + [x])[..|s|] == s;
  }

  /** The keys of `s + [x]` are those of `s`, then `key(x)` if it is new. */
  lemma KeysInOrderSnoc<T, K>(s: seq<T>, x: T, key: T -> K)
    ensures KeysInOrder(s + [x], key) ==
            if key(x) in KeysInOrder(s, key) then KeysInOrder(s, key) else KeysInOrder(s, key) + [key(x)]
  {
    assert (s + [x])[..|s|] == s;
  }

  /** The total size of the groups of `ks`. */
  function GroupSizes<T, K(==)>(ks: seq<K>, s: seq<T>, key: T -> K): nat {
    if ks == [] then 0
    else GroupSizes(ks[..|ks| - 1], s, key) + |Group(s, key, ks[|ks| - 1])|
  }

  lemma {:induction false} GroupSizesStep<T, K>(ks: seq<K>, s: seq<T>, x: T, key: T -> K)
    requires Distinct(ks)
    ensures GroupSizes(ks, s + [x], key) == GroupSizes(ks, s, key) + (if key(x) in ks then 1 else 0)
  {
    if ks != [] {
      var init := ks[..|ks| - 1];
      assert Distinct(init);
      GroupSizesStep(init, s, x, key);
      GroupSnoc(s, x, key, ks[|ks| - 1]);
      assert key(x) in ks <==> key(x) in init || key(x) == ks[|ks| - 1];
      if key(x) == ks[|ks| - 1] {
        assert key(x) !in init;
      }
    }
  }

  /** Adding a key no element carries adds nothing. */
  lemma GroupSizesAppend<T, K>(ks: seq<K>, k: K, s: seq<T>, key: T -> K)
    requires k !in KeysInOrder(s, key)
    ensures GroupSizes(ks + [k], s, key) == GroupSizes(ks, s, key)
  {
    assert (ks + [k])[..|ks|] == ks;
    GroupEmpty(s, key, k);
  }

  /** The groups partition the input: every element is in exactly one of
      them, so together they hold exactly `|s|` elements. */
  lemma {:induction false} GroupsPartition<T, K>(s: seq<T>, key: T -> K)
    ensures GroupSizes(KeysInOrder(s, key), s, key) == |s|
  {
    if s != [] {
      var init, last := s[..|s| - 1], s[|s| - 1];
      assert s == init + [last];
      GroupsPartition(init, key);
      var ks := KeysInOrder(init, key);
      GroupSizesStep(ks, init, last, key);
      if key(last) !in ks {
        GroupSizesStep(ks + [key(last)], init, last, key);
        GroupSizesAppend(ks, key(last), init, key);
        GroupSnoc(init, last, key, key(last));
        GroupEmpty(init, key, key(last));
      }
    }
  }

  /** `le` holds between every earlier and every later element. */
  predicate Pairwise<T>(s: seq<T>, le: (T, T) -> bool) {
    forall i, j :: 0 <= i < j < |s| ==> le(s[i], s[j])
  }

  /** Groups keep the input order: a relation that holds between every
      earlier and later element of `s` holds within each group. */
  lemma {:induction false} GroupKeepsOrder<T, K>(s: seq<T>, key: T -> K, k: K, le: (T, T) -> bool)
    requires Pairwise(s, le)
    ensures Pairwise(Group(s, key, k), le)
  {
    if s != [] {
      var init, last := s[..|s| - 1], s[|s| - 1];
      assert forall i :: 0 <= i < |init| ==> init[i] == s[i];
      GroupKeepsOrder(init, key, k, le);
      GroupElements(init, key, k);
      var g0 := Group(init, key, k);
      forall i | 0 <= i < |g0| ensures le(g0[i], last) {
        assert g0[i] in init;
        var j :| 0 <= j < |init| && init[j] == g0[i];
        assert le(s[j], s[|s| - 1]);
      }
    }
  }
}
