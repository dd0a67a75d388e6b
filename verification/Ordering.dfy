/** Comparators in the style of `lcs_compare_cb` (only the sign of the result matters), and what it
    means for a stretch of a sequence to be sorted or permuted. */
module Ordering {

  /** The comparator orders the elements of `s` totally; different elements may compare equal. */
  ghost predicate TotalPreorder<T>(cmp: (T, T) -> int, s: multiset<T>) {
    Mirrored(cmp, s) && Transitive(cmp, s)
  }

  ghost predicate Mirrored<T>(cmp: (T, T) -> int, s: multiset<T>) {
    forall a, b {:trigger cmp(a, b)} :: a in s && b in s ==> (cmp(a, b) <= 0 <==> cmp(b, a) >= 0)
  }

  ghost predicate Transitive<T>(cmp: (T, T) -> int, s: multiset<T>) {
    forall a, b, c {:trigger cmp(a, b), cmp(b, c)} :: a in s && b in s && c in s && cmp(a, b) <= 0 && cmp(b, c) <= 0 ==> cmp(a, c) <= 0
  }

  /** The comparator tells different elements of `s` apart. */
  ghost predicate Separating<T>(cmp: (T, T) -> int, s: multiset<T>) {
    forall a, b {:trigger cmp(a, b)} :: a in s && b in s && cmp(a, b) == 0 ==> a == b
  }

  ghost predicate SortedBy<T>(cmp: (T, T) -> int, s: seq<T>, low: int, hi: int)
    requires 0 <= low && hi < |s|
  {
    forall p, q :: low <= p < q <= hi ==> cmp(s[p], s[q]) <= 0
  }

  /** `t` is `s` with only the elements at `low..hi` rearranged. */
  ghost predicate Permuted<T>(s: seq<T>, t: seq<T>, low: int, hi: int)
    requires 0 <= low <= hi + 1 <= |s|
  {
    && |t| == |s|
    && multiset(s) == multiset(t)
    && (forall k :: 0 <= k < |s| && !(low <= k <= hi) ==> t[k] == s[k])
  }

  /** What a sort of `low..hi` must deliver: the same elements, in order, and nothing else touched. */
  ghost predicate IsSortOf<T>(cmp: (T, T) -> int, s: seq<T>, t: seq<T>, low: int, hi: int)
    requires 0 <= low <= hi + 1 <= |s|
  {
    Permuted(s, t, low, hi) && SortedBy(cmp, t, low, hi)
  }

  lemma PermutedSlices<T>(s: seq<T>, t: seq<T>, low: int, hi: int)
    requires 0 <= low <= hi + 1 <= |s|
    requires Permuted(s, t, low, hi)
    ensures multiset(s[low..hi + 1]) == multiset(t[low..hi + 1])
  {
    MultisetSplit(s, low, hi);
    MultisetSplit(t, low, hi);
    assert s[..low] == t[..low] && s[hi + 1..] == t[hi + 1..];
    assert multiset(s[low..hi + 1]) == multiset(s) - multiset(s[..low]) - multiset(s[hi + 1..]);
    assert multiset(t[low..hi + 1]) == multiset(t) - multiset(t[..low]) - multiset(t[hi + 1..]);
  }

  lemma MultisetSplit<T>(s: seq<T>, low: int, hi: int)
    requires 0 <= low <= hi + 1 <= |s|
    ensures multiset(s) == multiset(s[..low]) + multiset(s[low..hi + 1]) + multiset(s[hi + 1..])
  {
    assert s == s[..low] + s[low..hi + 1] + s[hi + 1..];
  }

  /** Every element after the rearrangement was somewhere in the same stretch before. */
  lemma PermutedOrigin<T>(s: seq<T>, t: seq<T>, low: int, hi: int, k: int) returns (o: int)
    requires 0 <= low <= hi + 1 <= |s|
    requires Permuted(s, t, low, hi)
    requires low <= k <= hi
    ensures low <= o <= hi && s[o] == t[k]
  {
    PermutedSlices(s, t, low, hi);
    assert t[k] == t[low..hi + 1][k - low];
    assert t[k] in multiset(s[low..hi + 1]);
    var i :| 0 <= i < hi + 1 - low && s[low..hi + 1][i] == t[k];
    o := low + i;
  }

  /** A sort is determined by its input as soon as the comparator separates elements: any two sorts of
      the same stretch end with the same sequence. */
  lemma {:induction false} SortIsUnique<T>(cmp: (T, T) -> int, s: seq<T>, t: seq<T>, u: seq<T>, low: int, hi: int)
    requires 0 <= low <= hi + 1 <= |s|
    requires IsSortOf(cmp, s, t, low, hi) && IsSortOf(cmp, s, u, low, hi)
    requires Mirrored(cmp, multiset(s)) && Separating(cmp, multiset(s))
    ensures t == u
  {
    PermutedSlices(s, t, low, hi);
    PermutedSlices(s, u, low, hi);
    var x, y := t[low..hi + 1], u[low..hi + 1];
    SliceOfSort(cmp, s, t, low, hi, x);
    SliceOfSort(cmp, s, u, low, hi, y);
    SortedEqual(cmp, multiset(s), x, y);
    SlicesEqual(t, u, low, hi);
  }

  lemma SliceOfSort<T>(cmp: (T, T) -> int, s: seq<T>, t: seq<T>, low: int, hi: int, x: seq<T>)
    requires 0 <= low <= hi + 1 <= |s|
    requires IsSortOf(cmp, s, t, low, hi) && x == t[low..hi + 1]
    ensures SortedBy(cmp, x, 0, |x| - 1)
    ensures forall k :: 0 <= k < |x| ==> x[k] in multiset(s)
  {
  }

  lemma SlicesEqual<T>(t: seq<T>, u: seq<T>, low: int, hi: int)
    requires |t| == |u| && 0 <= low <= hi + 1 <= |t|
    requires t[low..hi + 1] == u[low..hi + 1]
    requires forall k :: 0 <= k < |t| && !(low <= k <= hi) ==> t[k] == u[k]
    ensures t == u
  {
  }

  lemma {:induction false} SortedEqual<T>(cmp: (T, T) -> int, m: multiset<T>, x: seq<T>, y: seq<T>)
    requires multiset(x) == multiset(y)
    requires SortedBy(cmp, x, 0, |x| - 1) && SortedBy(cmp, y, 0, |y| - 1)
    requires forall k :: 0 <= k < |x| ==> x[k] in m
    requires Mirrored(cmp, m) && Separating(cmp, m)
    ensures x == y
  {
    assert |multiset(x)| == |x| && |multiset(y)| == |y|;
    if |x| > 0 {
      SortedHeads(cmp, m, x, y);
      TailMultiset(x);
      TailMultiset(y);
      SortedTail(cmp, x);
      SortedTail(cmp, y);
      SortedEqual(cmp, m, x[1..], y[1..]);
      HeadAndTail(x, y);
    }
  }

  lemma HeadAndTail<T>(x: seq<T>, y: seq<T>)
    requires |x| > 0 && |y| > 0 && x[0] == y[0] && x[1..] == y[1..]
    ensures x == y
  {
    assert x == [x[0]] + x[1..] && y == [y[0]] + y[1..];
  }

  lemma SortedTail<T>(cmp: (T, T) -> int, x: seq<T>)
    requires |x| > 0 && SortedBy(cmp, x, 0, |x| - 1)
    ensures SortedBy(cmp, x[1..], 0, |x[1..]| - 1)
  {
  }

  lemma TailMultiset<T>(x: seq<T>)
    requires |x| > 0
    ensures multiset(x[1..]) == multiset(x) - multiset{x[0]}
  {
    assert x == [x[0]] + x[1..];
  }

  lemma WithoutMultiset<T>(t: seq<T>, k: int)
    requires 0 <= k < |t|
    ensures multiset(t[..k] + t[k + 1..]) == multiset(t) - multiset{t[k]}
  {
    assert t == t[..k] + [t[k]] + t[k + 1..];
    assert multiset(t) == multiset(t[..k]) + multiset{t[k]} + multiset(t[k + 1..]);
  }

  lemma SortedHeads<T>(cmp: (T, T) -> int, m: multiset<T>, x: seq<T>, y: seq<T>)
    requires |x| > 0 && |y| > 0 && multiset(x) == multiset(y)
    requires SortedBy(cmp, x, 0, |x| - 1) && SortedBy(cmp, y, 0, |y| - 1)
    requires forall k :: 0 <= k < |x| ==> x[k] in m
    requires Mirrored(cmp, m) && Separating(cmp, m)
    ensures x[0] == y[0]
  {
    assert x[0] in multiset(y) && y[0] in multiset(x);
    var i :| 0 <= i < |y| && y[i] == x[0];
    var j :| 0 <= j < |x| && x[j] == y[0];
    if i > 0 && j > 0 {
      assert cmp(y[0], y[i]) <= 0 && cmp(x[0], x[j]) <= 0;
      assert x[0] in m && x[j] in m;
    }
  }
}
