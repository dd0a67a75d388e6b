/** Arrays of C `long`s whose elements are swapped through an `int` temporary: what such a swap loses, and
    how to state a sort that may have lost something on the way. */
module LongSwap {
  import opened Ordering
  import opened Partitioning

  /** The range of a C `int` on the platforms the code is built for. */
  predicate InInt32(v: int) { -0x8000_0000 <= v < 0x8000_0000 }

  /** Storing a `long` in the `int tmp` of a swap keeps the low 32 bits. */
  function ToInt32(v: int): int { (v + 0x8000_0000) % 0x1_0000_0000 - 0x8000_0000 }

  function CompareLong(a: int, b: int): int { a - b }

  ghost predicate AllInt32(s: seq<int>, low: int, hi: int)
    requires 0 <= low && hi < |s|
  {
    forall k :: low <= k <= hi ==> InInt32(s[k])
  }

  /** The value that fits an `int` and has the same low 32 bits. */
  lemma ToInt32Meaning(v: int)
    ensures -2147483648 <= ToInt32(v) <= 2147483647 && ToInt32(v) % 4294967296 == v % 4294967296
    ensures InInt32(v) <==> -2147483648 <= v <= 2147483647
    ensures InInt32(v) <==> ToInt32(v) == v
  {
  }

  /** The swap as written: element `i` travels through the `int` temporary. */
  function SwappedThroughInt(s: seq<int>, i: int, j: int): seq<int>
    requires 0 <= i < |s| && 0 <= j < |s|
  {
    s[i := s[j]][j := ToInt32(s[i])]
  }

  lemma LongOrder(s: multiset<int>)
    ensures TotalPreorder(CompareLong, s) && Separating(CompareLong, s)
  {
  }

  // ----- Counting the elements that are no `int`

  function Wide(s: seq<int>): nat {
    if s == [] then 0 else (if InInt32(s[0]) then 0 else 1) + Wide(s[1..])
  }

  /** An element that is no `int` has been cut on the way from `s` to `t`. */
  ghost predicate Lost(s: seq<int>, t: seq<int>) {
    Wide(t) < Wide(s)
  }

  lemma {:induction false} WideConcat(a: seq<int>, b: seq<int>)
    ensures Wide(a + b) == Wide(a) + Wide(b)
  {
    if a == [] {
      assert a + b == b;
    } else {
      assert (a + b)[1..] == a[1..] + b;
      WideConcat(a[1..], b);
    }
  }

  lemma WideAt(s: seq<int>, k: int)
    requires 0 <= k < |s|
    ensures Wide(s) == Wide(s[..k]) + (if InInt32(s[k]) then 0 else 1) + Wide(s[k + 1..])
  {
    assert s == s[..k] + s[k..] && s[k..][1..] == s[k + 1..];
    WideConcat(s[..k], s[k..]);
  }

  lemma WideUpdate(s: seq<int>, k: int, v: int)
    requires 0 <= k < |s|
    ensures Wide(s[k := v]) == Wide(s) - (if InInt32(s[k]) then 0 else 1) + if InInt32(v) then 0 else 1
  {
    var t := s[k := v];
    WideAt(s, k);
    WideAt(t, k);
    assert t[..k] == s[..k] && t[k + 1..] == s[k + 1..];
  }

  lemma {:induction false} WidePermuted(s: seq<int>, t: seq<int>)
    requires multiset(s) == multiset(t)
    ensures Wide(s) == Wide(t)
  {
    assert |multiset(s)| == |s| && |multiset(t)| == |t|;
    if s != [] {
      assert s[0] in multiset(t);
      var k :| 0 <= k < |t| && t[k] == s[0];
      TailMultiset(s);
      WithoutMultiset(t, k);
      WidePermuted(s[1..], t[..k] + t[k + 1..]);
      WideConcat(t[..k], t[k + 1..]);
      WideAt(t, k);
    }
  }

  lemma {:induction false} WideOutside(s: seq<int>, t: seq<int>)
    requires |t| == |s| && forall k :: 0 <= k < |s| && !InInt32(s[k]) ==> t[k] == s[k]
    ensures Wide(s) <= Wide(t)
  {
    if s != [] {
      assert forall k :: 0 <= k < |s[1..]| ==> s[1..][k] == s[k + 1] && t[1..][k] == t[k + 1];
      WideOutside(s[1..], t[1..]);
    }
  }

  lemma WideSwap(s: seq<int>, i: int, j: int)
    requires 0 <= i < |s| && 0 <= j < |s|
    ensures Wide(SwappedThroughInt(s, i, j)) == Wide(s) - if InInt32(s[i]) then 0 else 1
  {
    WideUpdate(s, i, s[j]);
    WideUpdate(s[i := s[j]], j, ToInt32(s[i]));
  }

  /** An `int` is swapped like any other value. */
  lemma IntSwap(s: seq<int>, i: int, j: int)
    requires 0 <= i < |s| && 0 <= j < |s| && InInt32(s[i])
    ensures SwappedThroughInt(s, i, j) == Swapped(s, i, j)
    ensures multiset(Swapped(s, i, j)) == multiset(s)
  {
  }

  /** The swap keeps the elements of the array exactly when the value in the temporary is an `int`. */
  lemma SwapKeepsElements(s: seq<int>, i: int, j: int)
    requires 0 <= i < |s| && 0 <= j < |s|
    ensures multiset(SwappedThroughInt(s, i, j)) == multiset(s) <==> InInt32(s[i])
  {
    WideSwap(s, i, j);
    if multiset(SwappedThroughInt(s, i, j)) == multiset(s) {
      WidePermuted(SwappedThroughInt(s, i, j), s);
    }
    if InInt32(s[i]) {
      IntSwap(s, i, j);
    }
  }

  // ----- A sort that may lose elements

  ghost predicate SameOutside(s: seq<int>, t: seq<int>, low: int, hi: int)
    requires 0 <= low <= hi + 1 <= |s|
  {
    |t| == |s| && forall k :: 0 <= k < |s| && !(low <= k <= hi) ==> t[k] == s[k]
  }

  /** Only `low..hi` was touched, and the result is a sort unless an element was cut. */
  ghost predicate SortedUnlessLost(s: seq<int>, t: seq<int>, low: int, hi: int)
    requires 0 <= low <= hi + 1 <= |s|
  {
    SameOutside(s, t, low, hi) && (IsSortOf(CompareLong, s, t, low, hi) || Lost(s, t))
  }

  /** Losing an element is the only way to fail: the result is a sort exactly when it has the elements of
      the input, and it always is if all of them are `int`s. */
  lemma SortedExactlyIfKept(s: seq<int>, t: seq<int>, low: int, hi: int)
    requires 0 <= low <= hi + 1 <= |s| && SortedUnlessLost(s, t, low, hi)
    ensures IsSortOf(CompareLong, s, t, low, hi) <==> multiset(s) == multiset(t)
    ensures AllInt32(s, low, hi) ==> IsSortOf(CompareLong, s, t, low, hi)
  {
    if multiset(s) == multiset(t) { WidePermuted(s, t); }
    if AllInt32(s, low, hi) { WideOutside(s, t); }
  }

  /** What a sort of `long`s is: the same elements, ascending in the range, the rest as it was. */
  lemma SortAscends(s: seq<int>, t: seq<int>, low: int, hi: int)
    requires 0 <= low <= hi + 1 <= |s|
    ensures IsSortOf(CompareLong, s, t, low, hi) <==>
            |t| == |s| && multiset(t) == multiset(s) && Ascending(t, low, hi) && SameOutside(s, t, low, hi)
  {
  }

  ghost predicate Ascending(t: seq<int>, low: int, hi: int) {
    forall p, q :: 0 <= low <= p < q <= hi < |t| ==> t[p] <= t[q]
  }

  lemma LostLater(s: seq<int>, t: seq<int>, u: seq<int>)
    requires (multiset(s) == multiset(t) || Lost(s, t)) && (multiset(t) == multiset(u) || Lost(t, u))
    ensures multiset(s) == multiset(u) || Lost(s, u)
    ensures Lost(s, t) || Lost(t, u) ==> Lost(s, u)
  {
    if multiset(s) == multiset(t) { WidePermuted(s, t); }
    if multiset(t) == multiset(u) { WidePermuted(t, u); }
  }

  /** A pair of `long`s is left in order by one partition exactly when it was in order or its first element
      is an `int`: only that one travels through the temporary. */
  lemma PairSorted(s: seq<int>, low: int)
    requires 0 <= low && low + 1 < |s|
    ensures IsSortOf(CompareLong, s, PairPartitioned(s, low), low, low + 1) <==> s[low] <= s[low + 1] || InInt32(s[low])
  {
    if s[low] <= s[low + 1] {
    } else if InInt32(s[low]) {
      IntSwap(s, low, low + 1);
      SwapPermutes(s, s, low, low + 1, low, low + 1);
    } else {
      SwapKeepsElements(s, low, low + 1);
    }
  }

  function PairPartitioned(s: seq<int>, low: int): seq<int>
    requires 0 <= low && low + 1 < |s|
  {
    if s[low + 1] < s[low] then SwappedThroughInt(s, low, low + 1) else s
  }

  /** 2^31 before 0 comes out as 0 before -2^31. */
  lemma PairLost()
    ensures PairPartitioned([0x8000_0000, 0], 0) == [0, -0x8000_0000]
    ensures !IsSortOf(CompareLong, [0x8000_0000, 0], PairPartitioned([0x8000_0000, 0], 0), 0, 1)
  {
    PairSorted([0x8000_0000, 0], 0);
  }
}
