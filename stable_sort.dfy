/** In-place stable sorting into non-increasing order of a key, as
    `Array.prototype.sort` does with a comparator `(a, b) => key(b) - key(a)`:
    the engines' sort is stable, so elements whose comparator result is 0 keep
    their relative order. Both sorts in the modelled code (the used colours by
    count, the admin code list by status and time) are instances. */
module StableSort {

  /** A sort key compared lexicographically: `primary` first, then `secondary`. */
  datatype SortKey = SortKey(primary: int, secondary: int)

  /** `a` ranks strictly below `b`, so `b` must come first in the sorted order. */
  predicate Below(a: SortKey, b: SortKey) {
    a.primary < b.primary || (a.primary == b.primary && a.secondary < b.secondary)
  }

  /** Non-increasing order of the key: no element ranks below a later one. */
  ghost predicate SortedDesc<T>(s: seq<T>, key: T -> SortKey) {
    forall i, j :: 0 <= i < j < |s| ==> !Below(key(s[i]), key(s[j]))
  }

  /** Inserts `x` after every element that does not rank below it. */
  function Insert<T>(x: T, s: seq<T>, key: T -> SortKey): seq<T>
    decreases |s|
  {
    if |s| == 0 || !Below(key(s[|s| - 1]), key(x)) then s + [x]
    else Insert(x, s[..|s| - 1], key) + [s[|s| - 1]]
  }

  /** The stable sort of `s`: each element in turn inserted into the sorted prefix. */
  function InsertionSort<T>(s: seq<T>, key: T -> SortKey): seq<T>
    decreases |s|
  {
    if |s| == 0 then []
    else Insert(s[|s| - 1], InsertionSort(s[..|s| - 1], key), key)
  }

  /** The elements of `s` whose key is exactly `k`, in order. */
  function WithKey<T>(s: seq<T>, key: T -> SortKey, k: SortKey): seq<T>
    decreases |s|
  {
    if |s| == 0 then []
    else WithKey(s[..|s| - 1], key, k) + (if key(s[|s| - 1]) == k then [s[|s| - 1]] else [])
  }

  // ---------------------------------------------------------------------------
  // Insert

  lemma {:induction false} InsertMultiset<T>(x: T, s: seq<T>, key: T -> SortKey)
    ensures multiset(Insert(x, s, key)) == multiset(s) + multiset{x}
    ensures |Insert(x, s, key)| == |s| + 1
    decreases |s|
  {
    if |s| > 0 && Below(key(s[|s| - 1]), key(x)) {
      InsertMultiset(x, s[..|s| - 1], key);
      assert s == s[..|s| - 1] + [s[|s| - 1]];
    }
  }

  lemma {:induction false} InsertSorted<T>(x: T, s: seq<T>, key: T -> SortKey)
    requires SortedDesc(s, key)
    ensures SortedDesc(Insert(x, s, key), key)
    decreases |s|
  {
    if |s| > 0 && Below(key(s[|s| - 1]), key(x)) {
      var init, last := s[..|s| - 1], s[|s| - 1];
      InsertSorted(x, init, key);
      var r := Insert(x, init, key);
      InsertMultiset(x, init, key);
      forall i | 0 <= i < |r| ensures !Below(key(r[i]), key(last)) {
        assert r[i] in multiset(init) + multiset{x};
        if r[i] != x {
          var j :| 0 <= j < |init| && init[j] == r[i];
        }
      }
    }
  }

  /** Inserting `x` appends it to the elements of its own key and leaves the others alone. */
  lemma {:induction false} InsertWithKey<T>(x: T, s: seq<T>, key: T -> SortKey, k: SortKey)
    ensures WithKey(Insert(x, s, key), key, k)
      == WithKey(s, key, k) + (if key(x) == k then [x] else [])
    decreases |s|
  {
    if |s| == 0 || !Below(key(s[|s| - 1]), key(x)) {
      WithKeySnoc(s, x, key, k);
    } else {
      var init, last := s[..|s| - 1], s[|s| - 1];
      var r := Insert(x, init, key);
      assert Insert(x, s, key) == r + [last];
      assert s == init + [last];
      InsertWithKey(x, init, key, k);
      WithKeySnoc(r, last, key, k);
      WithKeySnoc(init, last, key, k);
      if key(x) == k {
        assert key(last) != k;
      }
    }
  }

  lemma WithKeySnoc<T>(s: seq<T>, y: T, key: T -> SortKey, k: SortKey)
    ensures WithKey(s + [y], key, k) == WithKey(s, key, k) + (if key(y) == k then [y] else [])
  {
    assert (s + [y])[..|s|] == s;
  }

  // ---------------------------------------------------------------------------
  // InsertionSort: a sorted permutation that keeps equal keys in input order

  lemma {:induction false} SortIsPermutation<T>(s: seq<T>, key: T -> SortKey)
    ensures multiset(InsertionSort(s, key)) == multiset(s)
    ensures |InsertionSort(s, key)| == |s|
    decreases |s|
  {
    if |s| > 0 {
      SortIsPermutation(s[..|s| - 1], key);
      InsertMultiset(s[|s| - 1], InsertionSort(s[..|s| - 1], key), key);
      assert s == s[..|s| - 1] + [s[|s| - 1]];
    }
  }

  lemma {:induction false} SortIsSorted<T>(s: seq<T>, key: T -> SortKey)
    ensures SortedDesc(InsertionSort(s, key), key)
    decreases |s|
  {
    if |s| > 0 {
      SortIsSorted(s[..|s| - 1], key);
      InsertSorted(s[|s| - 1], InsertionSort(s[..|s| - 1], key), key);
    }
  }

  /** Stability: for every key value, the elements having it appear in the sorted
      sequence in exactly their input order. */
  lemma {:induction false} SortIsStable<T>(s: seq<T>, key: T -> SortKey, k: SortKey)
    ensures WithKey(InsertionSort(s, key), key, k) == WithKey(s, key, k)
    decreases |s|
  {
    if |s| > 0 {
      SortIsStable(s[..|s| - 1], key, k);
      InsertWithKey(s[|s| - 1], InsertionSort(s[..|s| - 1], key), key, k);
    }
  }

  // ---------------------------------------------------------------------------
  // The in-place sort

  /** Where the inner loop of the sort stops, `Insert` puts `x`. */
  lemma {:induction false} InsertAt<T>(x: T, s: seq<T>, j: nat, key: T -> SortKey)
    requires j <= |s|
    requires forall k :: j <= k < |s| ==> Below(key(s[k]), key(x))
    requires j == 0 || !Below(key(s[j - 1]), key(x))
    ensures Insert(x, s, key) == s[..j] + [x] + s[j..]
    decreases |s|
  {
    if |s| == j {
      assert s[..j] == s && s[j..] == [];
    } else {
      var init := s[..|s| - 1];
      InsertAt(x, init, j, key);
      assert init[..j] == s[..j];
      assert init[j..] + [s[|s| - 1]] == s[j..];
    }
  }

  /** One step of the sort: moves `a[i]` left past the elements of `a[..i]` that rank
      below it. */
  method InsertInPlace<T>(a: array<T>, i: nat, key: T -> SortKey)
    requires i < a.Length
    modifies a
    ensures a[..i + 1] == Insert(old(a[i]), old(a[..i]), key)
    ensures a[i + 1..] == old(a[i + 1..])
  {
    ghost var sorted := a[..i];
    ghost var rest := a[i + 1..];
    var x := a[i];
    var j := i;
    while j > 0 && Below(key(a[j - 1]), key(x))
      invariant 0 <= j <= i
      invariant forall k :: 0 <= k < j ==> a[k] == sorted[k]
      invariant forall k :: j < k <= i ==> a[k] == sorted[k - 1]
      invariant forall k :: i < k < a.Length ==> a[k] == rest[k - i - 1]
      invariant forall k :: j <= k < i ==> Below(key(sorted[k]), key(x))
    {
      a[j] := a[j - 1];
      j := j - 1;
    }
    a[j] := x;
    InsertAt(x, sorted, j, key);
    assert a[..i + 1] == sorted[..j] + [x] + sorted[j..];
    assert a[i + 1..] == rest;
  }

  /** Sorts `a` in place, stably, into non-increasing key order. */
  method SortDescending<T>(a: array<T>, key: T -> SortKey)
    modifies a
    ensures a[..] == InsertionSort(old(a[..]), key)
  {
    ghost var input := a[..];
    var i := 0;
    while i < a.Length
      invariant 0 <= i <= a.Length
      invariant a[..i] == InsertionSort(input[..i], key)
      invariant a[i..] == input[i..]
    {
      assert a[i] == input[i];
      InsertInPlace(a, i, key);
      assert input[..i + 1][..i] == input[..i];
      i := i + 1;
    }
    assert input[..a.Length] == input;
  }
}
