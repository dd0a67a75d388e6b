/** The partition of `cluster/quicksort/main.c` over an array of C `long`s, and its recursive driver. */
module QuickSort {
  import opened Ordering
  import opened Partitioning
  import opened LongSwap
  import opened LcsSort

  /** What a partition keeps while it scans, as long as it has lost nothing. */
  ghost predicate Scanning(before: seq<int>, s: seq<int>, low: int, i: int, j: int, hi: int)
    requires 0 <= low <= hi < |before|
  {
    SameOutside(before, s, low, hi) && (Lost(before, s) || (Permuted(before, s, low, hi) && Scan(CompareLong, s, low, i, j, hi)))
  }

  /** What it delivers: a rearrangement of `low..hi` split at `j`, unless an element was cut. */
  ghost predicate SplitUnlessLost(s: seq<int>, t: seq<int>, low: int, j: int, hi: int)
    requires 0 <= low <= hi < |s|
  {
    SameOutside(s, t, low, hi) && (Lost(s, t) || (Permuted(s, t, low, hi) && SplitAt(CompareLong, t, low, j, hi)))
  }

  /** A swap inside the stretch keeps it a permutation, or loses an element; lost ones do not come back. */
  lemma SwapOrLose(before: seq<int>, s: seq<int>, i: int, j: int, low: int, hi: int)
    requires 0 <= low <= hi < |before| && low <= i <= hi && low <= j <= hi
    requires SameOutside(before, s, low, hi) && (Lost(before, s) || Permuted(before, s, low, hi))
    ensures var t := SwappedThroughInt(s, i, j);
      && SameOutside(before, t, low, hi)
      && (Lost(before, t) || (!Lost(before, s) && t == Swapped(s, i, j) && Permuted(before, t, low, hi)))
  {
    WideSwap(s, i, j);
    if Permuted(before, s, low, hi) {
      WidePermuted(before, s);
      SwapPermutes(before, s, i, j, low, hi);
    }
    if InInt32(s[i]) {
      IntSwap(s, i, j);
    }
  }

  lemma SwapKeepsScanning(before: seq<int>, s: seq<int>, low: int, i: int, j: int, hi: int)
    requires 0 <= low < i < j <= hi < |before|
    requires Scanning(before, s, low, i, j, hi) && s[j] < s[low] < s[i]
    ensures Scanning(before, SwappedThroughInt(s, i, j), low, i + 1, j - 1, hi)
  {
    SwapOrLose(before, s, i, j, low, hi);
    if !Lost(before, s) {
      SwapKeepsScan(CompareLong, s, low, i, j, hi);
    }
  }

  lemma LastSwapSplits(before: seq<int>, s: seq<int>, low: int, i: int, j: int, hi: int)
    requires 0 <= low <= j <= i && j <= hi < |before|
    requires Scanning(before, s, low, i, j, hi)
    ensures SplitUnlessLost(before, if s[j] < s[low] then SwappedThroughInt(s, low, j) else s, low, j, hi)
  {
    SwapOrLose(before, s, low, j, low, hi);
    if !Lost(before, s) {
      LongOrder(multiset(s));
      ScannedSplits(CompareLong, s, low, i, j, hi);
    }
  }

  method SwapThroughInt(data: array<int>, i: int, j: int)
    requires 0 <= i < data.Length && 0 <= j < data.Length
    modifies data
    ensures data[..] == SwappedThroughInt(old(data[..]), i, j)
  {
    var tmp := ToInt32(data[i]);
    data[i] := data[j];
    data[j] := tmp;
  }

  /** One round of the outer loop. */
  method ScanAndSwap(data: array<int>, low: int, i: int, j: int, hi: int, ghost before: seq<int>) returns (i': int, j': int)
    requires 0 <= low < i < j <= hi < data.Length && |before| == data.Length
    requires Scanning(before, data[..], low, i, j, hi)
    modifies data
    ensures i <= i' <= j' + 1 <= j + 1 && i <= j' && j' - i' < j - i && data[low] == old(data[low])
    ensures Scanning(before, data[..], low, i', j', hi)
  {
    j' := ScanDown(data, low, i, j, hi, CompareLong);
    i' := ScanUp(data, low, i, j', hi, CompareLong);
    if i' < j' {
      SwapKeepsScanning(before, data[..], low, i', j', hi);
      SwapThroughInt(data, i', j');
      i' := i' + 1;
      j' := j' - 1;
    }
  }

  method Partition(data: array<int>, low: int, hi: int) returns (j: int)
    requires 0 <= low <= hi < data.Length
    modifies data
    ensures if low < hi then low < j <= hi else j == low
    ensures SplitUnlessLost(old(data[..]), data[..], low, j, hi)
    ensures hi == low + 1 ==> data[..] == PairPartitioned(old(data[..]), low)
  {
    ghost var before := data[..];
    var pivot := data[low];
    var i := low + 1;
    j := hi;
    while i < j
      invariant low < i <= j + 1 <= hi + 1 && (low < hi ==> low < j) && data[low] == pivot
      invariant Scanning(before, data[..], low, i, j, hi)
      invariant hi == low + 1 ==> i == j && data[..] == before
      decreases j - i
    {
      i, j := ScanAndSwap(data, low, i, j, hi, before);
    }
    LastSwapSplits(before, data[..], low, i, j, hi);
    if data[j] < pivot {
      SwapThroughInt(data, low, j);
    }
  }

  lemma HalvesSortedUnlessLost(before: seq<int>, s0: seq<int>, s1: seq<int>, s2: seq<int>, low: int, j: int, hi: int)
    requires 0 <= low <= hi < |before| && (if low < hi then low < j <= hi else j == low)
    requires SplitUnlessLost(before, s0, low, j, hi)
    requires if low < j - 1 then SortedUnlessLost(s0, s1, low, j - 1) else s1 == s0
    requires if j < hi then SortedUnlessLost(s1, s2, j, hi) else s2 == s1
    ensures SortedUnlessLost(before, s2, low, hi)
  {
    LostLater(before, s0, s1);
    LostLater(before, s1, s2);
    if !Lost(before, s2) {
      HalvesSorted(CompareLong, before, s0, s1, s2, low, j, hi);
    }
  }

  method QuickSort(arr: array<int>, low: int, hi: int)
    requires 0 <= low <= hi < arr.Length
    modifies arr
    ensures SortedUnlessLost(old(arr[..]), arr[..], low, hi)
    ensures AllInt32(old(arr[..]), low, hi) ==> IsSortOf(CompareLong, old(arr[..]), arr[..], low, hi)
    ensures hi == low + 1 ==> arr[..] == PairPartitioned(old(arr[..]), low)
    decreases hi - low
  {
    ghost var before := arr[..];
    var j := Partition(arr, low, hi);
    ghost var s0 := arr[..];
    if low < j - 1 {
      QuickSort(arr, low, j - 1);
    }
    ghost var s1 := arr[..];
    if j < hi {
      QuickSort(arr, j, hi);
    }
    HalvesSortedUnlessLost(before, s0, s1, arr[..], low, j, hi);
    SortedExactlyIfKept(before, arr[..], low, hi);
  }

  /** Whatever the three drivers do inside, they leave the same array: sorting `long`s has one result. */
  lemma DriversAgree(s: seq<int>, t: seq<int>, u: seq<int>, low: int, hi: int)
    requires 0 <= low <= hi + 1 <= |s|
    requires IsSortOf(CompareLong, s, t, low, hi) && IsSortOf(CompareLong, s, u, low, hi)
    ensures t == u
  {
    LongOrder(multiset(s));
    SortIsUnique(CompareLong, s, t, u, low, hi);
  }
}
