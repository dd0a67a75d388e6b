/** The Hoare-style partition that both quicksorts of the reporting code use, seen on sequences: what its
    scans keep, and the split its last swap produces. The split index belongs to the right half. */
module Partitioning {
  import opened Ordering

  /** The boundary a partition at `j` establishes: nothing left of `j` exceeds anything from `j` on. */
  ghost predicate SplitAt<T>(cmp: (T, T) -> int, t: seq<T>, low: int, j: int, hi: int)
    requires 0 <= low && hi < |t|
  {
    forall p, q :: low <= p < j <= q <= hi ==> cmp(t[p], t[q]) <= 0
  }

  ghost function Swapped<T>(s: seq<T>, i: int, j: int): seq<T>
    requires 0 <= i < |s| && 0 <= j < |s|
  {
    s[i := s[j]][j := s[i]]
  }

  lemma SwapPermutes<T>(s: seq<T>, t: seq<T>, i: int, j: int, low: int, hi: int)
    requires 0 <= low <= hi < |s| && low <= i <= hi && low <= j <= hi
    requires Permuted(s, t, low, hi)
    ensures Permuted(s, Swapped(t, i, j), low, hi)
  {
  }

  /** Nothing strictly between `low` and `i` exceeds the pivot at `low`. */
  ghost predicate Below<T>(cmp: (T, T) -> int, s: seq<T>, low: int, i: int)
    requires 0 <= low < |s| && i <= |s|
  {
    forall k :: low < k < i ==> cmp(s[low], s[k]) >= 0
  }

  /** Nothing after `j` up to `hi` is under the pivot at `low`. */
  ghost predicate Above<T>(cmp: (T, T) -> int, s: seq<T>, low: int, j: int, hi: int)
    requires 0 <= low <= hi < |s| && low <= j
  {
    forall k :: j < k <= hi ==> cmp(s[low], s[k]) <= 0
  }

  /** What the two scans of a partition keep: the pivot still at `low`, nothing above it before `i`,
      nothing below it after `j`, the scans at most one step past each other. */
  ghost predicate Scan<T>(cmp: (T, T) -> int, s: seq<T>, low: int, i: int, j: int, hi: int)
    requires 0 <= low <= hi < |s|
  {
    && low < i <= j + 1 <= hi + 1 && (low < hi ==> low < j)
    && Below(cmp, s, low, i) && Above(cmp, s, low, j, hi)
  }

  lemma SwapKeepsScan<T>(cmp: (T, T) -> int, s: seq<T>, low: int, i: int, j: int, hi: int)
    requires 0 <= low <= hi < |s| && i < j
    requires Scan(cmp, s, low, i, j, hi)
    requires cmp(s[low], s[j]) > 0 && cmp(s[low], s[i]) < 0
    ensures Scan(cmp, Swapped(s, i, j), low, i + 1, j - 1, hi) && Swapped(s, i, j)[low] == s[low]
  {
  }

  /** Moving the pivot to where the scans met turns the scan result into a split. */
  lemma ScannedSplits<T>(cmp: (T, T) -> int, s: seq<T>, low: int, i: int, j: int, hi: int)
    requires 0 <= low <= hi < |s|
    requires TotalPreorder(cmp, multiset(s))
    requires Scan(cmp, s, low, i, j, hi) && j <= i
    ensures SplitAt(cmp, if cmp(s[j], s[low]) < 0 then Swapped(s, low, j) else s, low, j, hi)
  {
    var pivot := s[low];
    var t := if cmp(s[j], pivot) < 0 then Swapped(s, low, j) else s;
    forall p, q | low <= p < j <= q <= hi ensures cmp(t[p], t[q]) <= 0 {
      assert t[p] in multiset(s) && t[q] in multiset(s) && pivot in multiset(s) && s[j] in multiset(s);
      assert cmp(t[p], pivot) <= 0 by {
        if p != low {
          assert cmp(pivot, s[p]) >= 0;
        } else {
          assert cmp(pivot, pivot) <= 0 <==> cmp(pivot, pivot) >= 0;
        }
      }
      assert cmp(pivot, t[q]) <= 0 by {
        assert cmp(pivot, pivot) <= 0 <==> cmp(pivot, pivot) >= 0;
        assert cmp(pivot, s[j]) <= 0 <==> cmp(s[j], pivot) >= 0;
      }
    }
  }

  /** Rearranging one side of a split keeps the split. */
  lemma SplitSurvives<T>(cmp: (T, T) -> int, s: seq<T>, t: seq<T>, low: int, j: int, hi: int, a: int, b: int)
    requires 0 <= low <= a <= b + 1 <= hi + 1 <= |s| && (b < j || j <= a)
    requires SplitAt(cmp, s, low, j, hi) && Permuted(s, t, a, b)
    ensures SplitAt(cmp, t, low, j, hi)
  {
    forall p, q | low <= p < j <= q <= hi ensures cmp(t[p], t[q]) <= 0 {
      var p', q' := p, q;
      if a <= p <= b { p' := PermutedOrigin(s, t, a, b, p); }
      if a <= q <= b { q' := PermutedOrigin(s, t, a, b, q); }
      assert cmp(s[p'], s[q']) <= 0;
    }
  }

  /** A segment is sorted once both halves of its split are; a half of one element is left alone. */
  lemma HalvesSorted<T>(cmp: (T, T) -> int, before: seq<T>, s0: seq<T>, s1: seq<T>, s2: seq<T>, low: int, j: int, hi: int)
    requires 0 <= low <= hi < |before| && (if low < hi then low < j <= hi else j == low)
    requires Permuted(before, s0, low, hi) && SplitAt(cmp, s0, low, j, hi)
    requires if low < j - 1 then IsSortOf(cmp, s0, s1, low, j - 1) else s1 == s0
    requires if j < hi then IsSortOf(cmp, s1, s2, j, hi) else s2 == s1
    ensures IsSortOf(cmp, before, s2, low, hi)
  {
    SplitSurvives(cmp, s0, s1, low, j, hi, low, j - 1);
    SplitSurvives(cmp, s1, s2, low, j, hi, j, hi);
    forall p, q | low <= p < q <= hi ensures cmp(s2[p], s2[q]) <= 0 {
      if q < j { assert s2[p] == s1[p] && s2[q] == s1[q]; }
    }
  }
}
