/** Quicksort driven by a queue of segments instead of recursion. Segments leave at the front and their
    halves join at the back, so the queue is not in position order; what holds instead is that two
    positions out of order always lie in one queued segment. */
module Worklist {
  import opened Ordering
  import opened Partitioning

  datatype Segment = Segment(low: int, hi: int)

  /** The halves of a partitioned segment that still need work: those with two elements or more. */
  function Halves(seg: Segment, j: int): seq<Segment> {
    (if seg.low < j - 1 then [Segment(seg.low, j - 1)] else []) + (if j < seg.hi then [Segment(j, seg.hi)] else [])
  }

  /** How many partitions the queue still stands for. */
  function Weight(work: seq<Segment>): int {
    if work == [] then 0 else Weight(work[..|work| - 1]) + (work[|work| - 1].hi - work[|work| - 1].low)
  }

  ghost predicate Apart(a: Segment, b: Segment) {
    a.hi < b.low || b.hi < a.low
  }

  ghost predicate Queued(work: seq<Segment>, low: int, hi: int) {
    && (forall k :: 0 <= k < |work| ==> low <= work[k].low < work[k].hi <= hi)
    && (forall k, m :: 0 <= k < m < |work| ==> Apart(work[k], work[m]))
  }

  ghost predicate Together(work: seq<Segment>, p: int, q: int) {
    exists k :: 0 <= k < |work| && work[k].low <= p && q <= work[k].hi
  }

  /** Positions that share no queued segment are already in order. */
  ghost predicate OrderedUpTo<T>(cmp: (T, T) -> int, s: seq<T>, low: int, hi: int, work: seq<Segment>)
    requires 0 <= low && hi < |s|
  {
    forall p, q :: low <= p < q <= hi && !Together(work, p, q) ==> cmp(s[p], s[q]) <= 0
  }

  lemma {:induction false} WeightConcat(a: seq<Segment>, b: seq<Segment>)
    ensures Weight(a + b) == Weight(a) + Weight(b)
  {
    if b == [] {
      assert a + b == a;
    } else {
      assert (a + b)[..|a + b| - 1] == a + b[..|b| - 1];
      WeightConcat(a, b[..|b| - 1]);
    }
  }

  lemma {:induction false} WeightBoundsLength(work: seq<Segment>, low: int, hi: int)
    requires Queued(work, low, hi)
    ensures |work| <= Weight(work)
  {
    if work != [] {
      WeightBoundsLength(work[..|work| - 1], low, hi);
    }
  }

  lemma SingleWeight(seg: Segment)
    ensures Weight([seg]) == seg.hi - seg.low
  {
  }

  lemma HalvesWeight(seg: Segment, j: int)
    requires seg.low < j <= seg.hi
    ensures Weight(Halves(seg, j)) == seg.hi - seg.low - 1
  {
    var l, r := Segment(seg.low, j - 1), Segment(j, seg.hi);
    SingleWeight(l);
    SingleWeight(r);
    WeightConcat(if seg.low < j - 1 then [l] else [], if j < seg.hi then [r] else []);
  }

  /** Partitioning the segment in front uses up exactly one unit of weight, however it splits. */
  lemma StepWeight(work: seq<Segment>, j: int)
    requires work != [] && work[0].low < j <= work[0].hi
    ensures Weight(work[1..] + Halves(work[0], j)) == Weight(work) - 1
  {
    HalvesWeight(work[0], j);
    WeightConcat(work[1..], Halves(work[0], j));
    SingleWeight(work[0]);
    WeightConcat([work[0]], work[1..]);
    assert work == [work[0]] + work[1..];
  }

  /** The segments of the queue stay inside `low..hi` and apart from each other. */
  lemma StepQueued(work: seq<Segment>, low: int, hi: int, j: int)
    requires work != [] && Queued(work, low, hi) && work[0].low < j <= work[0].hi
    ensures Queued(work[1..] + Halves(work[0], j), low, hi)
  {
  }

  /** One step keeps the order: positions inside the partitioned segment are ordered by the split unless
      they fall in one queued half, and a position outside it was ordered against the whole segment. */
  lemma StepOrdered<T>(cmp: (T, T) -> int, s: seq<T>, t: seq<T>, low: int, hi: int, work: seq<Segment>, j: int)
    requires 0 <= low <= hi < |s|
    requires work != [] && Queued(work, low, hi) && work[0].low < j <= work[0].hi
    requires OrderedUpTo(cmp, s, low, hi, work)
    requires Permuted(s, t, work[0].low, work[0].hi) && SplitAt(cmp, t, work[0].low, j, work[0].hi)
    ensures OrderedUpTo(cmp, t, low, hi, work[1..] + Halves(work[0], j))
  {
    var next := work[1..] + Halves(work[0], j);
    forall p, q | low <= p < q <= hi && !Together(next, p, q) ensures cmp(t[p], t[q]) <= 0 {
      var a, b := work[0].low, work[0].hi;
      if a <= p && q <= b {
        SeparatedBySplit(work, j, p, q);
      } else {
        var p', q' := p, q;
        if a <= p <= b { p' := PermutedOrigin(s, t, a, b, p); }
        if a <= q <= b { q' := PermutedOrigin(s, t, a, b, q); }
        NotTogetherBefore(work, low, hi, j, p, q, p', q');
        assert cmp(s[p'], s[q']) <= 0;
      }
    }
  }

  lemma SeparatedBySplit(work: seq<Segment>, j: int, p: int, q: int)
    requires work != [] && work[0].low <= p < q <= work[0].hi && work[0].low < j <= work[0].hi
    ensures p < j <= q || Together(work[1..] + Halves(work[0], j), p, q)
  {
    var n := |work| - 1;
    var next := work[1..] + Halves(work[0], j);
    if q < j {
      assert next[n] == Segment(work[0].low, j - 1);
    } else if j <= p {
      assert next[|next| - 1] == Segment(j, work[0].hi);
    }
  }

  lemma NotTogetherBefore(work: seq<Segment>, low: int, hi: int, j: int, p: int, q: int, p': int, q': int)
    requires work != [] && Queued(work, low, hi) && p < q
    requires !(work[0].low <= p && q <= work[0].hi)
    requires if work[0].low <= p <= work[0].hi then work[0].low <= p' <= work[0].hi else p' == p
    requires if work[0].low <= q <= work[0].hi then work[0].low <= q' <= work[0].hi else q' == q
    ensures p' < q'
    ensures Together(work, p', q') ==> Together(work[1..] + Halves(work[0], j), p, q)
  {
    var next := work[1..] + Halves(work[0], j);
    if k :| 0 <= k < |work| && work[k].low <= p' && q' <= work[k].hi {
      if k > 0 {
        assert Apart(work[0], work[k]) && next[k - 1] == work[k];
      }
    }
  }
}
