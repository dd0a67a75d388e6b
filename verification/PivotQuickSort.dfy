/** The quicksort of `quicksort/quicksort.c`. Its partition puts the pivot at its final index, and the
    recursion leaves that index out. */
module PivotQuickSort {
  import opened Ordering
  import opened Partitioning
  import opened LongSwap
  import opened QuickSort

  /** The element at `j` is in its final place within `low..hi`. */
  ghost predicate PlacedAt(s: seq<int>, low: int, j: int, hi: int)
    requires 0 <= low <= j <= hi < |s|
  {
    && (forall k :: low <= k <= j ==> s[k] <= s[j])
    && (forall k :: j <= k <= hi ==> s[j] <= s[k])
  }

  /** Moving the pivot from `low` to `j` places it, provided nothing above it is left of `j` and nothing
      below it right of `j`, and the element it trades with is not above it. */
  lemma PivotPlaced(s: seq<int>, low: int, j: int, hi: int)
    requires 0 <= low <= j <= hi < |s| && s[j] <= s[low]
    requires Below(CompareLong, s, low, j) && Above(CompareLong, s, low, j, hi)
    ensures PlacedAt(Swapped(s, low, j), low, j, hi)
    ensures s[j] == s[low] ==> PlacedAt(s, low, j, hi)
  {
  }

  /** What the partition delivers unless an element was cut: the first element placed at `j`. */
  ghost predicate PlacedUnlessLost(s: seq<int>, t: seq<int>, low: int, j: int, hi: int)
    requires 0 <= low <= j <= hi < |s|
  {
    SameOutside(s, t, low, hi) && (Lost(s, t) || (Permuted(s, t, low, hi) && t[j] == s[low] && PlacedAt(t, low, j, hi)))
  }

  method ScanDown(data: array<int>, low: int, i: int, start: int, hi: int) returns (j: int)
    requires 0 <= low < i <= start <= hi < data.Length
    ensures i <= j <= start
    ensures Above(CompareLong, data[..], low, start, hi) ==> Above(CompareLong, data[..], low, j, hi)
    ensures i < j ==> data[low] > data[j]
  {
    j := start;
    while i < j
      invariant i <= j <= start
      invariant Above(CompareLong, data[..], low, start, hi) ==> Above(CompareLong, data[..], low, j, hi)
    {
      if data[low] > data[j] {
        break;
      }
      j := j - 1;
    }
  }

  method ScanUp(data: array<int>, low: int, start: int, j: int, hi: int) returns (i: int)
    requires 0 <= low < start <= j <= hi < data.Length
    ensures start <= i <= j
    ensures Below(CompareLong, data[..], low, start) ==> Below(CompareLong, data[..], low, i)
    ensures i < j ==> data[i] > data[low]
  {
    i := start;
    while i < j
      invariant start <= i <= j
      invariant Below(CompareLong, data[..], low, start) ==> Below(CompareLong, data[..], low, i)
    {
      if data[i] > data[low] {
        break;
      }
      i := i + 1;
    }
  }

  /** One round of the outer loop. */
  method ScanAndSwap(data: array<int>, low: int, i: int, j: int, hi: int, ghost before: seq<int>) returns (i': int, j': int)
    requires 0 <= low < i < j <= hi < data.Length && |before| == data.Length
    requires Scanning(before, data[..], low, i, j, hi)
    modifies data
    ensures i <= i' <= j' + 1 <= j + 1 && i <= j' && j' - i' < j - i && data[low] == old(data[low])
    ensures Scanning(before, data[..], low, i', j', hi)
  {
    j' := ScanDown(data, low, i, j, hi);
    i' := ScanUp(data, low, i, j', hi);
    if i' < j' {
      SwapKeepsScanning(before, data[..], low, i', j', hi);
      SwapThroughInt(data, i', j');
      i' := i' + 1;
      j' := j' - 1;
    }
  }

  /** Swapping the first element with an element not above it, where the scans met or one before, places it. */
  lemma LastSwapPlaces(before: seq<int>, s: seq<int>, low: int, i: int, j: int, k: int, hi: int)
    requires 0 <= low <= k <= j <= i && j <= hi < |before|
    requires Scanning(before, s, low, i, j, hi) && s[low] == before[low]
    requires if k == j then i == j ==> s[k] <= s[low] else k == j - 1 && s[j] > s[low]
    ensures PlacedUnlessLost(before, SwappedThroughInt(s, low, k), low, k, hi)
    ensures s[k] >= s[low] ==> PlacedUnlessLost(before, s, low, k, hi)
  {
    SwapOrLose(before, s, low, k, low, hi);
    if !Lost(before, s) {
      assert k == low || k == i || CompareLong(s[low], s[k]) >= 0;
      PivotPlaced(s, low, k, hi);
    }
  }

  method Partition(data: array<int>, low: int, hi: int) returns (j: int)
    requires 0 <= low <= hi < data.Length
    modifies data
    ensures low <= j <= hi && PlacedUnlessLost(old(data[..]), data[..], low, j, hi)
  {
    ghost var before := data[..];
    var i := low + 1;
    j := hi;
    while i < j
      invariant low < i <= j + 1 <= hi + 1 && (low < hi ==> low < j) && data[low] == before[low]
      invariant Scanning(before, data[..], low, i, j, hi)
      decreases j - i
    {
      i, j := ScanAndSwap(data, low, i, j, hi, before);
    }
    j := Place(data, low, i, j, hi, before);
  }

  /** What follows the outer loop: five ways out. */
  method Place(data: array<int>, low: int, i: int, met: int, hi: int, ghost before: seq<int>) returns (j: int)
    requires 0 <= low < i <= met + 1 <= hi + 1 <= data.Length && met <= i && (low < hi ==> low < met)
    requires |before| == data.Length && data[low] == before[low] && Scanning(before, data[..], low, i, met, hi)
    modifies data
    ensures low <= j <= hi && PlacedUnlessLost(before, data[..], low, j, hi)
  {
    ghost var s := data[..];
    j := met;
    if i == j {
      if data[low] > data[j] {
        LastSwapPlaces(before, s, low, i, j, j, hi);
        SwapThroughInt(data, low, j);
      } else if data[low] < data[j] {
        j := j - 1;
        LastSwapPlaces(before, s, low, i, met, j, hi);
        if data[low] > data[j] {
          SwapThroughInt(data, low, j);
        }
      } else {
        LastSwapPlaces(before, s, low, i, j, j, hi);
      }
    } else {
      LastSwapPlaces(before, s, low, i, j, j, hi);
      SwapThroughInt(data, low, j);
    }
  }

  method QuickSortAround(arr: array<int>, l: int, h: int)
    requires l < h ==> 0 <= l && h < arr.Length
    modifies arr
    ensures if l < h then SortedUnlessLost(old(arr[..]), arr[..], l, h) else arr[..] == old(arr[..])
    ensures l < h && AllInt32(old(arr[..]), l, h) ==> IsSortOf(CompareLong, old(arr[..]), arr[..], l, h)
    decreases if l < h then h - l else 0
  {
    if l < h {
      ghost var before := arr[..];
      var j := Partition(arr, l, h);
      ghost var s0 := arr[..];
      QuickSortAround(arr, l, j - 1);
      ghost var s1 := arr[..];
      QuickSortAround(arr, j + 1, h);
      SidesSorted(before, s0, s1, arr[..], l, j, h);
      SortedExactlyIfKept(before, arr[..], l, h);
    }
  }

  lemma SidesSorted(before: seq<int>, s0: seq<int>, s1: seq<int>, s2: seq<int>, low: int, j: int, hi: int)
    requires 0 <= low <= j <= hi < |before| && PlacedUnlessLost(before, s0, low, j, hi)
    requires if low < j - 1 then SortedUnlessLost(s0, s1, low, j - 1) else s1 == s0
    requires if j + 1 < hi then SortedUnlessLost(s1, s2, j + 1, hi) else s2 == s1
    ensures SortedUnlessLost(before, s2, low, hi)
  {
    LostLater(before, s0, s1);
    LostLater(before, s1, s2);
    if !Lost(before, s2) {
      if low < j - 1 { PlacedSurvives(s0, s1, low, j, hi, low, j - 1); }
      if j + 1 < hi { PlacedSurvives(s1, s2, low, j, hi, j + 1, hi); }
      SortedAround(s2, low, j, hi);
    }
  }

  /** Rearranging one side of a placed element keeps it placed. */
  lemma PlacedSurvives(s: seq<int>, t: seq<int>, low: int, j: int, hi: int, a: int, b: int)
    requires 0 <= low <= j <= hi < |s| && low <= a <= b <= hi && (b < j || j < a)
    requires PlacedAt(s, low, j, hi) && Permuted(s, t, a, b)
    ensures PlacedAt(t, low, j, hi)
  {
    forall k | low <= k <= hi ensures (k <= j ==> t[k] <= t[j]) && (j <= k ==> t[j] <= t[k]) {
      if a <= k <= b { var o := PermutedOrigin(s, t, a, b, k); }
    }
  }

  lemma SortedAround(s: seq<int>, low: int, j: int, hi: int)
    requires 0 <= low <= j <= hi < |s| && PlacedAt(s, low, j, hi)
    requires low < j - 1 ==> SortedBy(CompareLong, s, low, j - 1)
    requires j + 1 < hi ==> SortedBy(CompareLong, s, j + 1, hi)
    ensures SortedBy(CompareLong, s, low, hi)
  {
  }
}
