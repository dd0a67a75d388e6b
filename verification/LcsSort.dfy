/** The comparator quicksort of the reporting library: `lcs_partition_ext` and `lcs_quick_sort_ext`. */
module LcsSort {
  import opened Ordering
  import opened Partitioning

  method Swap<T>(data: array<T>, i: int, j: int, low: int, hi: int, ghost before: seq<T>)
    requires 0 <= low <= hi < data.Length && low <= i <= hi && low <= j <= hi
    requires |before| == data.Length && Permuted(before, data[..], low, hi)
    modifies data
    ensures data[..] == Swapped(old(data[..]), i, j)
    ensures Permuted(before, data[..], low, hi)
  {
    ghost var s := data[..];
    var tmp := data[i];
    data[i] := data[j];
    data[j] := tmp;
    assert data[..] == Swapped(s, i, j);
    SwapPermutes(before, s, i, j, low, hi);
  }

  /** The first inner loop: move `j` down over elements at or above the pivot, never below `i`. */
  method ScanDown<T>(data: array<T>, low: int, i: int, start: int, hi: int, cmp: (T, T) -> int) returns (j: int)
    requires 0 <= low < i <= start <= hi < data.Length
    ensures i <= j <= start
    ensures Above(cmp, data[..], low, start, hi) ==> Above(cmp, data[..], low, j, hi)
    ensures i < j ==> cmp(data[low], data[j]) > 0
  {
    j := start;
    while cmp(data[low], data[j]) <= 0
      invariant i <= j <= start
      invariant Above(cmp, data[..], low, start, hi) ==> Above(cmp, data[..], low, j, hi)
      decreases j - i
    {
      if i < j {
        j := j - 1;
      } else {
        break;
      }
    }
  }

  /** The second inner loop: move `i` up over elements at or below the pivot, never above `j`. */
  method ScanUp<T>(data: array<T>, low: int, start: int, j: int, hi: int, cmp: (T, T) -> int) returns (i: int)
    requires 0 <= low < start <= j <= hi < data.Length
    ensures start <= i <= j
    ensures Below(cmp, data[..], low, start) ==> Below(cmp, data[..], low, i)
    ensures i < j ==> cmp(data[low], data[i]) < 0
  {
    i := start;
    while cmp(data[low], data[i]) >= 0
      invariant start <= i <= j
      invariant Below(cmp, data[..], low, start) ==> Below(cmp, data[..], low, i)
      decreases j - i
    {
      if i < j {
        i := i + 1;
      } else {
        break;
      }
    }
  }

  method PartitionExt<T>(data: array<T>, low: int, hi: int, cmp: (T, T) -> int) returns (j: int)
    requires 0 <= low <= hi < data.Length
    requires TotalPreorder(cmp, multiset(data[..]))
    modifies data
    ensures Permuted(old(data[..]), data[..], low, hi)
    ensures if low < hi then low < j <= hi else j == low
    ensures SplitAt(cmp, data[..], low, j, hi)
  {
    ghost var before := data[..];
    var pivot := data[low];
    var i := low + 1;
    j := hi;
    while i < j
      invariant data[low] == pivot
      invariant Permuted(before, data[..], low, hi) && Scan(cmp, data[..], low, i, j, hi)
      decreases j - i
    {
      j := ScanDown(data, low, i, j, hi, cmp);
      i := ScanUp(data, low, i, j, hi, cmp);
      if i < j {
        SwapKeepsScan(cmp, data[..], low, i, j, hi);
        Swap(data, i, j, low, hi, before);
        i := i + 1;
        j := j - 1;
      }
    }
    ScannedSplits(cmp, data[..], low, i, j, hi);
    if cmp(data[j], pivot) < 0 {
      Swap(data, low, j, low, hi, before);
    }
  }

  method QuickSortExt<T>(arr: array<T>, low: int, hi: int, cmp: (T, T) -> int)
    requires 0 <= low <= hi < arr.Length
    requires TotalPreorder(cmp, multiset(arr[..]))
    modifies arr
    ensures IsSortOf(cmp, old(arr[..]), arr[..], low, hi)
    decreases hi - low
  {
    ghost var before := arr[..];
    var j := PartitionExt(arr, low, hi, cmp);
    ghost var s0 := arr[..];
    if low < j - 1 {
      QuickSortExt(arr, low, j - 1, cmp);
    }
    ghost var s1 := arr[..];
    if j < hi {
      QuickSortExt(arr, j, hi, cmp);
    }
    HalvesSorted(cmp, before, s0, s1, arr[..], low, j, hi);
  }
}
