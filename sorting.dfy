/** An in-place sort of an array by an integer key, standing in for Go's `sort.Slice`
    with a strict "less" comparison on that key. `sort.Slice` is not stable; only the
    order of the keys and the permutation matter to its callers here. */
module Sorting {

  predicate SortedBy<T>(s: seq<T>, key: T -> int) {
    forall i, j :: 0 <= i < j < |s| ==> key(s[i]) <= key(s[j])
  }

  /** Insertion sort by adjacent swaps: the result is ordered by `key` and holds the same
      elements as before. */
  method SortByKey<T>(a: array<T>, key: T -> int)
    modifies a
    ensures SortedBy(a[..], key)
    ensures multiset(a[..]) == multiset(old(a[..]))
  {
    for i := 0 to a.Length
      invariant SortedBy(a[..i], key)
      invariant multiset(a[..]) == multiset(old(a[..]))
    {
      InsertLast(a, i, key);
    }
    assert a[..a.Length] == a[..];
  }

  /** Moves `a[i]` left past every larger element, so that `a[..i + 1]` becomes ordered. */
  method InsertLast<T>(a: array<T>, i: nat, key: T -> int)
    requires i < a.Length && SortedBy(a[..i], key)
    modifies a
    ensures SortedBy(a[..i + 1], key)
    ensures multiset(a[..]) == multiset(old(a[..]))
  {
    var j := i;
    InsertingStart(a[..], i, key);
    while j > 0 && key(a[j - 1]) > key(a[j])
      invariant 0 <= j <= i
      invariant multiset(a[..]) == multiset(old(a[..]))
      invariant Inserting(a[..], j, i, key)
      decreases j
    {
      ghost var before := a[..];
      a[j - 1], a[j] := a[j], a[j - 1];
      SwapKeepsMultiset(before, j - 1, j);
      assert a[..] == before[j - 1 := before[j]][j := before[j - 1]];
      InsertingStep(before, j, i, key);
      j := j - 1;
    }
    InsertingDone(a[..], j, i, key);
  }

  /** The state of `InsertLast` with the moving element at `j`: the elements before it are
      ordered, the ones after it up to `i` are ordered and larger than it, and every element
      before it is at most every element after it. */
  ghost predicate Inserting<T>(s: seq<T>, j: nat, i: nat, key: T -> int)
    requires j <= i < |s|
  {
    (forall p, q :: 0 <= p < q < j ==> key(s[p]) <= key(s[q])) &&
    (forall p, q :: j < p < q <= i ==> key(s[p]) <= key(s[q])) &&
    (forall p, q :: 0 <= p < j < q <= i ==> key(s[p]) <= key(s[q])) &&
    (forall q :: j < q <= i ==> key(s[j]) < key(s[q]))
  }

  lemma InsertingStart<T>(s: seq<T>, i: nat, key: T -> int)
    requires i < |s| && SortedBy(s[..i], key)
    ensures Inserting(s, i, i, key)
  {
    assert forall p :: 0 <= p < i ==> s[..i][p] == s[p];
  }

  lemma InsertingStep<T>(s: seq<T>, j: nat, i: nat, key: T -> int)
    requires 0 < j <= i < |s| && Inserting(s, j, i, key) && key(s[j - 1]) > key(s[j])
    ensures Inserting(s[j - 1 := s[j]][j := s[j - 1]], j - 1, i, key)
  {
  }

  lemma InsertingDone<T>(s: seq<T>, j: nat, i: nat, key: T -> int)
    requires j <= i < |s| && Inserting(s, j, i, key)
    requires j == 0 || key(s[j - 1]) <= key(s[j])
    ensures SortedBy(s[..i + 1], key)
  {
    forall p, q | 0 <= p < q <= i ensures key(s[p]) <= key(s[q]) {
      if q == j && p < j - 1 {
        assert key(s[p]) <= key(s[j - 1]);
      }
    }
    assert forall p :: 0 <= p <= i ==> s[..i + 1][p] == s[p];
  }

  lemma SwapKeepsMultiset<T>(s: seq<T>, i: nat, j: nat)
    requires i < j < |s|
    ensures multiset(s[i := s[j]][j := s[i]]) == multiset(s)
  {
    var t := s[i := s[j]][j := s[i]];
    assert s == s[..i] + [s[i]] + s[i + 1..j] + [s[j]] + s[j + 1..];
    assert t == s[..i] + [s[j]] + s[i + 1..j] + [s[i]] + s[j + 1..];
  }

  /** The elements of a sequence occur at most once each. */
  predicate Distinct<T(==)>(s: seq<T>) {
    forall i, j :: 0 <= i < j < |s| ==> s[i] != s[j]
  }

  /** A rearrangement of a sequence without repetitions has none either. */
  lemma PermutationKeepsDistinct<T>(s: seq<T>, t: seq<T>)
    requires multiset(s) == multiset(t) && Distinct(s)
    ensures Distinct(t)
  {
    DistinctCounts(s);
    forall i, j | 0 <= i < j < |t| ensures t[i] != t[j] {
      if t[i] == t[j] {
        TwoOccurrences(t, i, j);
      }
    }
  }

  lemma {:induction false} DistinctCounts<T>(s: seq<T>)
    requires Distinct(s)
    ensures forall x :: multiset(s)[x] <= 1
  {
    if s != [] {
      var init := s[..|s| - 1];
      assert s == init + [s[|s| - 1]];
      assert Distinct(init);
      DistinctCounts(init);
      assert s[|s| - 1] !in init;
    }
  }

  lemma TwoOccurrences<T>(t: seq<T>, i: nat, j: nat)
    requires i < j < |t| && t[i] == t[j]
    ensures multiset(t)[t[i]] >= 2
  {
    assert t == t[..i] + [t[i]] + t[i + 1..j] + [t[j]] + t[j + 1..];
  }


  /** A rearrangement of a listing of the map is again a listing of the map. */
  lemma SameEntries<K, V>(m: map<K, V>, list: seq<(K, V)>, r: seq<(K, V)>)
    requires multiset(list) == multiset(r) && Distinct(list)
    requires forall i :: 0 <= i < |list| ==> list[i].0 in m && list[i] == (list[i].0, m[list[i].0])
    requires forall k :: k in m ==> exists i :: 0 <= i < |list| && list[i].0 == k
    ensures |r| == |list|
    ensures forall i :: 0 <= i < |r| ==> r[i].0 in m && r[i].1 == m[r[i].0]
    ensures forall k :: k in m ==> exists i :: 0 <= i < |r| && r[i].0 == k
    ensures forall i, j :: 0 <= i < j < |r| ==> r[i].0 != r[j].0
  {
    assert |r| == |multiset(r)| == |multiset(list)| == |list|;
    PermutationKeepsDistinct(list, r);
    forall i | 0 <= i < |r| ensures r[i] in list {
      assert r[i] in multiset(r);
    }
    forall k | k in m ensures exists i :: 0 <= i < |r| && r[i].0 == k {
      var j :| 0 <= j < |list| && list[j].0 == k;
      assert list[j] in multiset(list);
      var i :| 0 <= i < |r| && r[i] == list[j];
    }
  }

  /** `for k, v := range m { list = append(list, ...) }`: every entry once, in an arbitrary order. */
  method ReadMap<K, V(==)>(m: map<K, V>) returns (list: seq<(K, V)>)
    ensures |list| == |m| && Distinct(list)
    ensures forall i :: 0 <= i < |list| ==> list[i].0 in m && list[i] == (list[i].0, m[list[i].0])
    ensures forall k :: k in m ==> exists i :: 0 <= i < |list| && list[i].0 == k
  {
    list := [];
    var rest := m.Keys;
    while rest != {}
      invariant rest <= m.Keys && |list| + |rest| == |m|
      invariant forall i :: 0 <= i < |list| ==> list[i].0 in m && list[i].0 !in rest && list[i] == (list[i].0, m[list[i].0])
      invariant forall k :: k in m && k !in rest ==> exists i :: 0 <= i < |list| && list[i].0 == k
      invariant Distinct(list)
      decreases |rest|
    {
      var k :| k in rest;
      ghost var prev := list;
      list := list + [(k, m[k])];
      rest := rest - {k};
      forall k' | k' in m && k' !in rest ensures exists i :: 0 <= i < |list| && list[i].0 == k' {
        if k' == k {
          assert list[|prev|].0 == k;
        } else {
          var i :| 0 <= i < |prev| && prev[i].0 == k';
          assert list[i] == prev[i];
        }
      }
    }
  }
}
