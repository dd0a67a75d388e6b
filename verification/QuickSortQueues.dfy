/** The two non-recursive drivers: a linked FIFO of heap-allocated segments, and a pair of fixed-size
    arrays whose zero entries mark the end of the queue. */
module QuickSortQueues {
  import opened Ordering
  import opened Partitioning
  import opened Worklist
  import opened LongSwap
  import opened QuickSort

  class SortSegment {
    var low: int
    var hi: int
    var next: SortSegment?

    constructor (low: int, hi: int)
      ensures this.low == low && this.hi == hi && next == null
    {
      this.low, this.hi, next := low, hi, null;
    }
  }

  /** `root` and `last` are the ends of the chain `nodes`, which holds the segments `work`. An empty
      chain is a null `root`; `last` then dangles. The nodes ever allocated for it are in `repr`. */
  ghost predicate Chain(root: SortSegment?, last: SortSegment?, nodes: seq<SortSegment>, work: seq<Segment>, repr: set<SortSegment>)
    reads repr
  {
    && |nodes| == |work|
    && (forall k :: 0 <= k < |nodes| ==> nodes[k] in repr)
    && (root == null <==> nodes == [])
    && (nodes != [] ==> root == nodes[0] && last == nodes[|nodes| - 1] && last.next == null)
    && (forall k :: 0 <= k < |nodes| ==> nodes[k].low == work[k].low && nodes[k].hi == work[k].hi)
    && (forall k :: 0 <= k < |nodes| - 1 ==> nodes[k].next == nodes[k + 1])
    && (forall k, m :: 0 <= k < m < |nodes| ==> nodes[k] != nodes[m])
  }

  method Enqueue(root: SortSegment?, last: SortSegment?, low: int, hi: int, ghost nodes: seq<SortSegment>, ghost work: seq<Segment>,
                 ghost repr: set<SortSegment>)
    returns (root': SortSegment?, last': SortSegment)
    requires Chain(root, last, nodes, work, repr)
    modifies repr
    ensures fresh(last') && Chain(root', last', nodes + [last'], work + [Segment(low, hi)], repr + {last'})
  {
    var tmp := new SortSegment(low, hi);
    if root == null {
      root' := tmp;
    } else {
      last.next := tmp;
      root' := root;
    }
    last' := tmp;
  }

  lemma ChainTail(root: SortSegment, last: SortSegment?, nodes: seq<SortSegment>, work: seq<Segment>, repr: set<SortSegment>)
    requires Chain(root, last, nodes, work, repr)
    ensures Chain(root.next, last, nodes[1..], work[1..], repr)
  {
    if |nodes| > 1 {
      assert nodes[0].next == nodes[0 + 1];
    }
  }

  /** Queue the halves of a partitioned segment, left before right. */
  method EnqueueHalves(root: SortSegment?, last: SortSegment?, seg: Segment, j: int, ghost nodes: seq<SortSegment>, ghost work: seq<Segment>,
                       ghost repr: set<SortSegment>)
    returns (root': SortSegment?, last': SortSegment?, ghost nodes': seq<SortSegment>, ghost repr': set<SortSegment>)
    requires Chain(root, last, nodes, work, repr)
    modifies repr
    ensures Chain(root', last', nodes', work + Halves(seg, j), repr') && fresh(repr' - repr)
  {
    root', last', nodes', repr' := root, last, nodes, repr;
    ghost var w := work;
    if seg.low < j - 1 {
      root', last' := Enqueue(root', last', seg.low, j - 1, nodes', w, repr');
      nodes', w, repr' := nodes' + [last'], w + [Segment(seg.low, j - 1)], repr' + {last'};
    }
    if j < seg.hi {
      root', last' := Enqueue(root', last', j, seg.hi, nodes', w, repr');
      nodes', w, repr' := nodes' + [last'], w + [Segment(j, seg.hi)], repr' + {last'};
    }
    assert w == work + Halves(seg, j);
  }

  /** What every round of either queue keeps: the queued segments are apart and inside the range, only
      that range was touched, and, unless an element was cut, positions sharing no queued segment are in
      order. */
  ghost predicate Progress(before: seq<int>, s: seq<int>, low: int, hi: int, work: seq<Segment>)
    requires 0 <= low <= hi < |before|
  {
    && Queued(work, low, hi)
    && SameOutside(before, s, low, hi)
    && (Lost(before, s) || (Permuted(before, s, low, hi) && OrderedUpTo(CompareLong, s, low, hi, work)))
  }

  lemma ProgressStarts(s: seq<int>, low: int, hi: int)
    requires 0 <= low < hi < |s|
    ensures Progress(s, s, low, hi, [Segment(low, hi)]) && Weight([Segment(low, hi)]) == hi - low
  {
    var work := [Segment(low, hi)];
    assert Weight(work) == Weight([]) + (hi - low);
    forall p, q | low <= p < q <= hi ensures Together(work, p, q) {
      assert work[0].low <= p && q <= work[0].hi;
    }
  }

  lemma ProgressStep(before: seq<int>, s: seq<int>, t: seq<int>, low: int, hi: int, work: seq<Segment>, j: int)
    requires 0 <= low <= hi < |before|
    requires Progress(before, s, low, hi, work) && work != [] && work[0].low < j <= work[0].hi
    requires SplitUnlessLost(s, t, work[0].low, j, work[0].hi)
    ensures Progress(before, t, low, hi, work[1..] + Halves(work[0], j))
    ensures Weight(work[1..] + Halves(work[0], j)) == Weight(work) - 1
  {
    StepWeight(work, j);
    StepQueued(work, low, hi, j);
    LostLater(before, s, t);
    if !Lost(before, t) {
      StepOrdered(CompareLong, s, t, low, hi, work, j);
    }
  }

  lemma ProgressEnds(before: seq<int>, s: seq<int>, low: int, hi: int)
    requires 0 <= low <= hi < |before| && Progress(before, s, low, hi, [])
    ensures SortedUnlessLost(before, s, low, hi)
    ensures AllInt32(before, low, hi) ==> IsSortOf(CompareLong, before, s, low, hi)
  {
    SortedExactlyIfKept(before, s, low, hi);
  }

  /** Take the first segment off the chain, partition it, and queue its halves. */
  method Round(arr: array<int>, root: SortSegment, last: SortSegment?, ghost nodes: seq<SortSegment>, ghost work: seq<Segment>,
               ghost repr: set<SortSegment>, ghost before: seq<int>, ghost low: int, ghost hi: int)
    returns (root': SortSegment?, last': SortSegment?, ghost nodes': seq<SortSegment>, ghost work': seq<Segment>, ghost repr': set<SortSegment>)
    requires Chain(root, last, nodes, work, repr)
    requires 0 <= low <= hi < arr.Length == |before| && Progress(before, arr[..], low, hi, work)
    modifies arr, repr
    ensures Chain(root', last', nodes', work', repr') && fresh(repr' - repr)
    ensures Progress(before, arr[..], low, hi, work') && Weight(work') == Weight(work) - 1
  {
    ghost var s := arr[..];
    var tmpLow, tmpHi := root.low, root.hi;
    ChainTail(root, last, nodes, work, repr);
    var rest := root.next;
    var j := Partition(arr, tmpLow, tmpHi);
    ProgressStep(before, s, arr[..], low, hi, work, j);
    work' := work[1..] + Halves(work[0], j);
    root', last', nodes', repr' := EnqueueHalves(rest, last, Segment(tmpLow, tmpHi), j, nodes[1..], work[1..], repr);
  }

  method QuickSortNonRecursive(arr: array<int>, low: int, hi: int)
    requires low < hi ==> 0 <= low && hi < arr.Length
    modifies arr
    ensures if low >= hi then arr[..] == old(arr[..]) else SortedUnlessLost(old(arr[..]), arr[..], low, hi)
    ensures low < hi && AllInt32(old(arr[..]), low, hi) ==> IsSortOf(CompareLong, old(arr[..]), arr[..], low, hi)
  {
    if low >= hi {
      return;
    }
    ghost var before := arr[..];
    var root: SortSegment? := new SortSegment(low, hi);
    var last: SortSegment? := root;
    ghost var nodes: seq<SortSegment>, repr: set<SortSegment> := [root], {root};
    ghost var work := [Segment(low, hi)];
    ProgressStarts(before, low, hi);
    while root != null
      invariant fresh(repr) && Chain(root, last, nodes, work, repr)
      invariant Progress(before, arr[..], low, hi, work)
      decreases Weight(work)
    {
      WeightBoundsLength(work, low, hi);
      root, last, nodes, work, repr := Round(arr, root, last, nodes, work, repr, before, low, hi);
    }
    ProgressEnds(before, arr[..], low, hi);
  }

  /** Entries `jump..total` of the arrays hold the queue `work`; everything after `total` is still zero. */
  ghost predicate Slots(lows: seq<int>, his: seq<int>, jump: int, total: int, work: seq<Segment>) {
    && |lows| == |his| && 0 <= jump && |work| == total + 1 - jump && total < |his|
    && (forall k :: 0 <= k < |work| ==> lows[jump + k] == work[k].low && his[jump + k] == work[k].hi)
    && (forall k :: total < k < |his| ==> his[k] == 0)
  }

  method AppendHalves(arrLow: array<int>, arrHi: array<int>, last: int, seg: Segment, j: int, ghost jump: int, ghost work: seq<Segment>)
    returns (total: int)
    requires arrLow != arrHi && Slots(arrLow[..], arrHi[..], jump, last, work)
    requires last + |Halves(seg, j)| < arrHi.Length
    modifies arrLow, arrHi
    ensures Slots(arrLow[..], arrHi[..], jump, total, work + Halves(seg, j))
  {
    total := last;
    if seg.low < j - 1 {
      total := total + 1;
      arrLow[total], arrHi[total] := seg.low, j - 1;
    }
    if j < seg.hi {
      total := total + 1;
      arrLow[total], arrHi[total] := j, seg.hi;
    }
  }

  /** Partition the segment at `jump` and append its halves behind `last`. */
  method SlotRound(arr: array<int>, arrLow: array<int>, arrHi: array<int>, jump: int, last: int,
                   ghost work: seq<Segment>, ghost before: seq<int>, ghost low: int, ghost hi: int)
    returns (total: int, ghost work': seq<Segment>)
    requires arr != arrLow && arr != arrHi && arrLow != arrHi
    requires Slots(arrLow[..], arrHi[..], jump, last, work) && work != []
    requires 0 <= low <= hi < arr.Length == |before| && Progress(before, arr[..], low, hi, work)
    requires arrHi.Length == hi - low + 1 && jump + Weight(work) == hi - low
    modifies arr, arrLow, arrHi
    ensures Slots(arrLow[..], arrHi[..], jump + 1, total, work')
    ensures Progress(before, arr[..], low, hi, work')
    ensures jump + 1 + Weight(work') == hi - low && total < hi - low
  {
    ghost var s := arr[..];
    var tmpLow, tmpHi := arrLow[jump], arrHi[jump];
    assert arrLow[..][jump + 0] == work[0].low && arrHi[..][jump + 0] == work[0].hi;
    SlotsTail(arrLow[..], arrHi[..], jump, last, work);
    var j := Partition(arr, tmpLow, tmpHi);
    ProgressStep(before, s, arr[..], low, hi, work, j);
    work' := work[1..] + Halves(work[0], j);
    WeightBoundsLength(work', low, hi);
    total := AppendHalves(arrLow, arrHi, last, Segment(tmpLow, tmpHi), j, jump + 1, work[1..]);
  }

  /** Returns, for the proof, how many segments were queued: exactly `hi - low`, so the entry at index
      `hi - low` of the two arrays stays zero and stops the loop. */
  method QuickSortNonRecursiveImprove(arr: array<int>, low: int, hi: int) returns (ghost queued: int)
    requires low < hi ==> 0 <= low && hi < arr.Length
    modifies arr
    ensures if low >= hi then arr[..] == old(arr[..]) else SortedUnlessLost(old(arr[..]), arr[..], low, hi)
    ensures low < hi && AllInt32(old(arr[..]), low, hi) ==> IsSortOf(CompareLong, old(arr[..]), arr[..], low, hi)
    ensures queued == if low < hi then hi - low else 0
  {
    queued := 0;
    if low >= hi {
      return;
    }
    ghost var before := arr[..];
    var size := hi - low + 1;
    var arrLow := new int[size](_ => 0);
    var arrHi := new int[size](_ => 0);
    var total, jump := 0, 0;
    arrLow[total], arrHi[total] := low, hi;
    ghost var work := [Segment(low, hi)];
    ProgressStarts(before, low, hi);
    while arrHi[jump] > 0
      invariant Slots(arrLow[..], arrHi[..], jump, total, work)
      invariant jump + Weight(work) == hi - low && total < hi - low
      invariant Progress(before, arr[..], low, hi, work)
      invariant arrHi[jump] > 0 <==> work != []
      decreases Weight(work)
    {
      WeightBoundsLength(work, low, hi);
      total, work := SlotRound(arr, arrLow, arrHi, jump, total, work, before, low, hi);
      jump := jump + 1;
      SlotsSentinel(arrLow[..], arrHi[..], jump, total, low, hi, work);
    }
    ProgressEnds(before, arr[..], low, hi);
    queued := total + 1;
  }

  lemma SlotsTail(lows: seq<int>, his: seq<int>, jump: int, total: int, work: seq<Segment>)
    requires Slots(lows, his, jump, total, work) && work != []
    ensures Slots(lows, his, jump + 1, total, work[1..])
  {
  }

  /** The zero sentinel tells exactly whether a queued segment is left. */
  lemma SlotsSentinel(lows: seq<int>, his: seq<int>, jump: int, total: int, low: int, hi: int, work: seq<Segment>)
    requires 0 <= low && Slots(lows, his, jump, total, work) && Queued(work, low, hi) && jump < |his|
    ensures his[jump] > 0 <==> work != []
  {
    if work != [] {
      assert his[jump + 0] == work[0].hi;
    }
  }
}
