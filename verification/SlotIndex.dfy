/** The fixed-slot hash index in shared memory: each bucket remembers the first few rows of its residue
    class, later ones are stored but not indexed. */
module SlotIndex {
  import opened Text

  // ----- Rows of a residue class

  /** The rows that fall into bucket `b`, in insertion order. */
  ghost function Positions(classes: seq<int>, b: int): seq<int> {
    if classes == [] then []
    else
      var n := |classes| - 1;
      Positions(classes[..n], b) + if classes[n] == b then [n] else []
  }

  /** How many earlier rows share the bucket of row `k`. */
  ghost function Rank(classes: seq<int>, k: int): nat
    requires 0 <= k < |classes|
  {
    |Positions(classes[..k], classes[k])|
  }

  /** How often `b` occurs. */
  function Occurrences(classes: seq<int>, b: int): nat {
    if classes == [] then 0 else Occurrences(classes[1..], b) + if classes[0] == b then 1 else 0
  }

  lemma {:induction false} OccurrencesSnoc(classes: seq<int>, last: int, b: int)
    ensures Occurrences(classes + [last], b) == Occurrences(classes, b) + if last == b then 1 else 0
  {
    if classes == [] {
      assert [last][1..] == [];
    } else {
      assert (classes + [last])[1..] == classes[1..] + [last];
      OccurrencesSnoc(classes[1..], last, b);
    }
  }

  /** The rank of a row is the number of earlier rows of its class. */
  lemma {:induction false} RankCounts(classes: seq<int>, b: int)
    ensures |Positions(classes, b)| == Occurrences(classes, b)
  {
    if classes != [] {
      var n := |classes| - 1;
      RankCounts(classes[..n], b);
      OccurrencesSnoc(classes[..n], classes[n], b);
      assert classes == classes[..n] + [classes[n]];
    }
  }

  ghost function Slot(classes: seq<int>, b: int, t: int): int
    requires 0 <= t
  {
    if t < |Positions(classes, b)| then Positions(classes, b)[t] else -1
  }

  lemma {:induction false} PositionsFacts(classes: seq<int>, b: int)
    ensures forall t :: 0 <= t < |Positions(classes, b)| ==>
      0 <= Positions(classes, b)[t] < |classes| && classes[Positions(classes, b)[t]] == b && Rank(classes, Positions(classes, b)[t]) == t
    ensures forall t, u :: 0 <= t < u < |Positions(classes, b)| ==> Positions(classes, b)[t] < Positions(classes, b)[u]
  {
    if classes != [] {
      var n := |classes| - 1;
      PositionsFacts(classes[..n], b);
      var before := Positions(classes[..n], b);
      forall t | 0 <= t < |Positions(classes, b)|
        ensures 0 <= Positions(classes, b)[t] < |classes| && classes[Positions(classes, b)[t]] == b && Rank(classes, Positions(classes, b)[t]) == t
      {
        if t < |before| {
          assert classes[..n][..before[t]] == classes[..before[t]];
        }
      }
    }
  }

  lemma {:induction false} RankPosition(classes: seq<int>, k: int)
    requires 0 <= k < |classes|
    ensures Rank(classes, k) < |Positions(classes, classes[k])| && Positions(classes, classes[k])[Rank(classes, k)] == k
  {
    var n := |classes| - 1;
    if k < n {
      RankPosition(classes[..n], k);
      assert classes[..n][..k] == classes[..k];
    }
  }

  // ----- The table

  /** Linear search: the first row with the key. */
  function FirstRow<K(==)>(rows: seq<K>, key: K): Option<int> {
    if rows == [] then None
    else
      var n := |rows| - 1;
      var found := FirstRow(rows[..n], key);
      if found.Some? then found else if rows[n] == key then Some(n) else None
  }

  lemma {:induction false} FirstRowFacts<K>(rows: seq<K>, key: K)
    ensures match FirstRow(rows, key)
      case None => forall k :: 0 <= k < |rows| ==> rows[k] != key
      case Some(k) => 0 <= k < |rows| && rows[k] == key && forall m :: 0 <= m < k ==> rows[m] != key
  {
    if rows != [] {
      var n := |rows| - 1;
      FirstRowFacts(rows[..n], key);
      assert forall k :: 0 <= k < n ==> rows[..n][k] == rows[k];
    }
  }

  class SlotTable<K(==)> {
    const n: int
    const width: int
    var rows: seq<K>
    var h: array2<int>
    ghost var classes: seq<int>

    ghost predicate Valid()
      reads this, h
    {
      && 0 < n && 0 < width && h.Length0 == n && h.Length1 == width && |classes| == |rows|
      && (forall k :: 0 <= k < |classes| ==> 0 <= classes[k] < n)
      && (forall b, t :: 0 <= b < n && 0 <= t < width ==> h[b, t] == Slot(classes, b, t))
    }

    /** The load functions: every slot of every bucket starts at -1. */
    constructor (n: int, width: int)
      requires 0 < n && 0 < width
      ensures Valid() && rows == [] && classes == [] && fresh(h) && this.n == n && this.width == width
    {
      this.n, this.width := n, width;
      rows, classes := [], [];
      h := new int[n, width]((_, _) => -1);
    }

    /** Store the next row and index it in bucket `index` if a slot is left. */
    method Write(index: int, key: K)
      requires Valid() && 0 <= index < n
      modifies this, h
      ensures Valid() && h == old(h)
      ensures rows == old(rows) + [key] && classes == old(classes) + [index]
    {
      var k := |rows|;
      ghost var before := classes;
      var t := 0;
      while t < width
        invariant 0 <= t <= width && t <= |Positions(before, index)|
        invariant Valid() && h == old(h) && classes == before && rows == old(rows)
      {
        if h[index, t] < 0 {
          h[index, t] := k;
          break;
        }
        SlotFilled(before, index, t);
        t := t + 1;
      }
      PositionsFacts(before, index);
      rows := rows + [key];
      classes := classes + [index];
      forall b, s | 0 <= b < n && 0 <= s < width ensures h[b, s] == Slot(classes, b, s) {
        SlotAfterWrite(before, index, b, s);
      }
    }

    /** Search the slots of a bucket until the key is found or an empty slot is met. */
    method Find(index: int, key: K) returns (r: Option<int>)
      requires Valid() && 0 <= index < n
      ensures FoundInBucket(rows, classes, width, index, key, r)
    {
      r := None;
      var t := 0;
      ghost var pos := Positions(classes, index);
      PositionsFacts(classes, index);
      while t < width
        invariant 0 <= t <= width && t <= |pos| && r.None?
        invariant forall u :: 0 <= u < t ==> rows[pos[u]] != key
      {
        if h[index, t] < 0 {
          break;
        }
        if key == rows[h[index, t]] {
          r := Some(h[index, t]);
          forall m | 0 <= m < r.value && classes[m] == index ensures rows[m] != key {
            RankPosition(classes, m);
          }
          return;
        }
        t := t + 1;
      }
      forall k | 0 <= k < |rows| && classes[k] == index && Rank(classes, k) < width ensures rows[k] != key {
        RankPosition(classes, k);
      }
    }
  }

  lemma SlotFilled(classes: seq<int>, b: int, t: int)
    requires 0 <= t && Slot(classes, b, t) >= 0
    ensures t < |Positions(classes, b)|
  {
  }

  /** Appending a row fills at most the next slot of its own bucket. */
  lemma SlotAfterWrite(classes: seq<int>, index: int, b: int, t: int)
    requires 0 <= t
    ensures Slot(classes + [index], b, t) ==
            if b == index && t == |Positions(classes, index)| then |classes| else Slot(classes, b, t)
  {
  }

  // ----- Agreement with the linear scan

  /** What bucket search finds, given where the rows went. */
  ghost predicate FoundInBucket<K>(rows: seq<K>, classes: seq<int>, width: int, index: int, key: K, r: Option<int>)
    requires |classes| == |rows|
  {
    match r
    case Some(k) => 0 <= k < |rows| && rows[k] == key && classes[k] == index && Rank(classes, k) < width &&
                    forall m :: 0 <= m < k && classes[m] == index ==> rows[m] != key
    case None => forall k :: 0 <= k < |rows| && classes[k] == index && Rank(classes, k) < width ==> rows[k] != key
  }

  /** When rows of one key share a bucket, bucket search finds the first row with the key exactly when
      that row was among the first `width` of its bucket, and nothing otherwise. */
  lemma BucketSearchAgrees<K>(rows: seq<K>, classes: seq<int>, width: int, index: int, key: K, r: Option<int>)
    requires |classes| == |rows| && FoundInBucket(rows, classes, width, index, key, r)
    requires forall k :: 0 <= k < |rows| && rows[k] == key ==> classes[k] == index
    ensures var first := FirstRow(rows, key);
      r == if first.Some? && 0 <= first.value < |rows| && Rank(classes, first.value) < width then first else None
  {
    FirstRowFacts(rows, key);
  }

  /** Pigeonhole: different numbers below `w` are at most `w` many. */
  lemma {:induction false} DistinctBelow(s: seq<int>, w: int)
    requires 0 <= w && forall i :: 0 <= i < |s| ==> 0 <= s[i] < w
    requires forall i, j :: 0 <= i < j < |s| ==> s[i] != s[j]
    ensures |s| <= w
    decreases w
  {
    assert |s| > 0 ==> 0 <= s[0] < w;
    if i :| 0 <= i < |s| && s[i] == w - 1 {
      DistinctBelow(s[..i] + s[i + 1..], w - 1);
    } else if w > 0 {
      DistinctBelow(s, w - 1);
    }
  }

  lemma DifferentQuotients(ids: seq<int>, pos: seq<int>, quotients: seq<int>, base: int, n: int)
    requires 0 < n && |quotients| == |pos| && forall t :: 0 <= t < |pos| ==> 0 <= pos[t] < |ids|
    requires forall t :: 0 <= t < |pos| ==> quotients[t] == (ids[pos[t]] - base) / n
    requires forall t, u :: 0 <= t < u < |pos| ==> ids[pos[t]] % n == ids[pos[u]] % n && ids[pos[t]] != ids[pos[u]]
    ensures forall t, u :: 0 <= t < u < |pos| ==> quotients[t] != quotients[u]
  {
    forall t, u | 0 <= t < u < |pos| ensures quotients[t] != quotients[u] {
      SameQuotient(ids[pos[t]], ids[pos[u]], base, n);
    }
  }

  lemma BoundedQuotients(ids: seq<int>, pos: seq<int>, quotients: seq<int>, base: int, n: int, width: int, span: int)
    requires 0 < n && span == width * n && |quotients| == |pos|
    requires forall t :: 0 <= t < |pos| ==> 0 <= pos[t] < |ids| && base <= ids[pos[t]] < base + span
    requires forall t :: 0 <= t < |pos| ==> quotients[t] == (ids[pos[t]] - base) / n
    ensures forall t :: 0 <= t < |pos| ==> 0 <= quotients[t] < width
  {
    forall t | 0 <= t < |pos| ensures 0 <= quotients[t] < width {
      QuotientBound(ids[pos[t]] - base, n, width, span);
    }
  }

  /** Numbers in a window of `width * n` consecutive values fall `width` at most into one class. */
  lemma WindowRank(ids: seq<int>, classes: seq<int>, n: int, width: int, span: int, base: int, k: int)
    requires 0 < n && 0 < width && span == width * n && |ids| == |classes| && 0 <= k < |ids|
    requires forall i :: 0 <= i < |ids| ==> base <= ids[i] < base + span
    requires forall i :: 0 <= i < |ids| ==> classes[i] == ids[i] % n
    requires forall i, j :: 0 <= i < j < |ids| ==> ids[i] != ids[j]
    ensures Rank(classes, k) < width
  {
    var pos := Positions(classes, classes[k]);
    PositionsFacts(classes, classes[k]);
    RankPosition(classes, k);
    var quotients := Quotients(ids, pos, base, n);
    BoundedQuotients(ids, pos, quotients, base, n, width, span);
    DifferentQuotients(ids, pos, quotients, base, n);
    DistinctBelow(quotients, width);
  }

  ghost function Quotients(ids: seq<int>, pos: seq<int>, base: int, n: int): (q: seq<int>)
    requires 0 < n && forall t :: 0 <= t < |pos| ==> 0 <= pos[t] < |ids|
    ensures |q| == |pos| && forall t :: 0 <= t < |pos| ==> q[t] == (ids[pos[t]] - base) / n
  {
    if pos == [] then [] else [(ids[pos[0]] - base) / n] + Quotients(ids, pos[1..], base, n)
  }

  lemma MulLe(n: int, x: int, y: int)
    requires 0 < n
    ensures x <= y ==> n * x <= n * y
  {
  }

  lemma QuotientBound(a: int, n: int, width: int, span: int)
    requires 0 < n && 0 <= a < span && span == width * n
    ensures 0 <= a / n < width
  {
  }

  /** Numbers of one residue class whose distances from `base` have one quotient are equal. */
  lemma SameQuotient(a: int, b: int, base: int, n: int)
    requires 0 < n && a % n == b % n
    ensures (a - base) / n == (b - base) / n ==> a == b
  {
    var q, x, y, d := (a - base) / n, (a - base) % n, (b - base) % n, a / n - b / n;
    assert a - b == n * d by { DivStep(a, n); DivStep(b, n); assert n * (a / n) - n * (b / n) == n * d; }
    DivStep(a - base, n);
    DivStep(b - base, n);
    MulLe(n, 1, d);
    MulLe(n, d, -1);
    assert d == 0 ==> n * d == 0;
  }

  lemma DivStep(a: int, n: int)
    requires 0 < n
    ensures a == n * (a / n) + a % n && 0 <= a % n < n
  {
  }
}
