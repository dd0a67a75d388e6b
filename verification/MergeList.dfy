/** `lcs_hcollect005_sum` and `lcs_merge005_list`: read rows from a text into a list of row objects, sort
    an array of references to them, add up each run of equal keys in place, and write the result. */
module MergeList {
  import opened Text
  import opened Rows
  import opened RowText
  import opened Ordering
  import LcsSort

  class MergeCounting {
    const key: Key
    var count: Counters

    constructor (key: Key, count: Counters)
      ensures this.key == key && this.count == count
    {
      this.key, this.count := key, count;
    }
  }

  function CompareObjects(a: MergeCounting, b: MergeCounting): int {
    CompareKeys(a.key, b.key)
  }

  lemma ObjectOrder(s: multiset<MergeCounting>)
    ensures TotalPreorder(CompareObjects, s)
  {
    forall a, b | a in s && b in s ensures CompareObjects(a, b) <= 0 <==> CompareObjects(b, a) >= 0 {
      KeysMirrored(a.key, b.key);
    }
    forall a, b, c | a in s && b in s && c in s && CompareObjects(a, b) <= 0 && CompareObjects(b, c) <= 0
      ensures CompareObjects(a, c) <= 0
    {
      KeysTransitive(a.key, b.key, c.key);
    }
  }

  function RowOf(o: MergeCounting): Row
    reads o
  {
    Row(o.key, o.count)
  }

  /** The rows that a list of row objects currently holds. */
  function RowsOf(objs: seq<MergeCounting>): (rows: seq<Row>)
    reads objs
    ensures |rows| == |objs| && forall k :: 0 <= k < |objs| ==> rows[k] == RowOf(objs[k])
  {
    if objs == [] then [] else [RowOf(objs[0])] + RowsOf(objs[1..])
  }

  ghost predicate Distinct(objs: seq<MergeCounting>) {
    forall i, j :: 0 <= i < j < |objs| ==> objs[i] != objs[j]
  }

  lemma RowsOfConcat(a: seq<MergeCounting>, b: seq<MergeCounting>)
    ensures RowsOf(a + b) == RowsOf(a) + RowsOf(b)
  {
  }

  /** Taking the head of `a` out of its rearrangement `b`. */
  lemma TakeOut<T>(a: seq<T>, b: seq<T>) returns (j: int)
    requires multiset(a) == multiset(b) && a != []
    ensures 0 <= j < |b| && b[j] == a[0]
    ensures b == b[..j] + ([b[j]] + b[j + 1..])
    ensures multiset(a[1..]) == multiset(b[..j] + b[j + 1..])
  {
    assert a[0] in multiset(b);
    j :| 0 <= j < |b| && b[j] == a[0];
    TailMultiset(a);
    WithoutMultiset(b, j);
  }

  /** Rearranging the references changes no total. */
  lemma {:induction false} PermutedTotals(a: seq<MergeCounting>, b: seq<MergeCounting>, k: Key)
    requires multiset(a) == multiset(b)
    ensures HasKey(RowsOf(a), k) ==> HasKey(RowsOf(b), k)
    ensures KeyTotal(RowsOf(a), k) == KeyTotal(RowsOf(b), k)
  {
    assert |multiset(a)| == |a| && |multiset(b)| == |b|;
    if a != [] {
      var j := TakeOut(a, b);
      var x, y := b[..j], b[j + 1..];
      PermutedTotals(a[1..], x + y, k);
      RowsOfConcat(x, y);
      RowsOfConcat(x, [b[j]] + y);
      assert RowsOf([b[j]] + y) == [RowOf(b[j])] + RowsOf(y);
      MiddleRow(RowsOf(x), RowOf(b[j]), RowsOf(y), k);
      HasKeyConcat([RowOf(a[0])], RowsOf(a[1..]), k);
      HasKeyConcat([RowOf(a[0])], RowsOf(x + y), k);
      KeyTotalConcat([RowOf(a[0])], RowsOf(a[1..]), k);
      KeyTotalConcat([RowOf(a[0])], RowsOf(x + y), k);
    }
  }

  lemma MiddleRow(x: seq<Row>, r: Row, y: seq<Row>, k: Key)
    ensures HasKey(x + ([r] + y), k) <==> HasKey([r] + (x + y), k)
    ensures KeyTotal(x + ([r] + y), k) == KeyTotal([r] + (x + y), k)
  {
    HasKeyConcat(x, [r] + y, k);
    HasKeyConcat([r], y, k);
    HasKeyConcat(x, y, k);
    HasKeyConcat([r], x + y, k);
    KeyTotalConcat(x, [r] + y, k);
    KeyTotalConcat([r], y, k);
    KeyTotalConcat(x, y, k);
    KeyTotalConcat([r], x + y, k);
  }

  lemma PermutedSameTotals(a: seq<MergeCounting>, b: seq<MergeCounting>)
    requires multiset(a) == multiset(b)
    ensures SameTotals(RowsOf(a), RowsOf(b))
  {
    forall k: Key
      ensures (HasKey(RowsOf(a), k) <==> HasKey(RowsOf(b), k)) && KeyTotal(RowsOf(a), k) == KeyTotal(RowsOf(b), k)
    {
      PermutedTotals(a, b, k);
      PermutedTotals(b, a, k);
    }
  }

  // ----- Grouping sorted rows

  ghost predicate SortedRows(vals: seq<Row>) {
    forall p, q :: 0 <= p < q < |vals| ==> CompareKeys(vals[p].key, vals[q].key) <= 0
  }

  /** `m..e` holds rows of one key, and the rows before `m` have smaller keys. */
  ghost predicate Run(vals: seq<Row>, m: int, e: int)
    requires 0 <= m < e <= |vals|
  {
    && (forall p :: m <= p < e ==> vals[p].key == vals[m].key)
    && (m > 0 ==> CompareKeys(vals[m - 1].key, vals[m].key) < 0)
  }

  lemma {:induction false} OneKeyTotals(rows: seq<Row>, key: Key, k: Key)
    requires rows != [] && forall p :: 0 <= p < |rows| ==> rows[p].key == key
    ensures HasKey(rows, k) <==> k == key
    ensures KeyTotal(rows, k) == if k == key then ColumnTotals(rows) else ZERO
  {
    assert rows[0].key == key;
    if |rows| > 1 {
      OneKeyTotals(rows[1..], key, k);
    } else {
      assert rows[1..] == [];
    }
  }

  lemma {:induction false} ColumnTotalsSnoc(rows: seq<Row>, r: Row)
    ensures ColumnTotals(rows + [r]) == ColumnTotals(rows).Plus(r.count)
  {
    if rows == [] {
      assert rows + [r] == [r] && [r][1..] == [];
      PlusZero(r.count);
    } else {
      assert (rows + [r])[1..] == rows[1..] + [r];
      ColumnTotalsSnoc(rows[1..], r);
      PlusAssociative(rows[0].count, ColumnTotals(rows[1..]), r.count);
    }
  }

  /** The counters of `vals[m..e]`, added up in the order the summing loop does. */
  function RunTotal(vals: seq<Row>, m: int, e: int): Counters
    requires 0 <= m < e <= |vals|
  {
    if e == m + 1 then vals[m].count else RunTotal(vals, m, e - 1).Plus(vals[e - 1].count)
  }

  lemma {:induction false} RunTotalIsColumnTotals(vals: seq<Row>, m: int, e: int)
    requires 0 <= m < e <= |vals|
    ensures RunTotal(vals, m, e) == ColumnTotals(vals[m..e])
  {
    if e == m + 1 {
      assert vals[m..e] == [vals[m]] && vals[m..e][1..] == [];
      PlusZero(vals[m].count);
    } else {
      RunTotalIsColumnTotals(vals, m, e - 1);
      assert vals[m..e] == vals[m..e - 1] + [vals[e - 1]];
      ColumnTotalsSnoc(vals[m..e - 1], vals[e - 1]);
    }
  }

  /** Writing one row for a run extends a merge of what came before it. */
  lemma GroupStep(vals: seq<Row>, m: int, e: int, out: seq<Row>)
    requires 0 <= m < e <= |vals| && SortedRows(vals) && Run(vals, m, e)
    requires IsMerge(out, vals[..m])
    ensures IsMerge(out + [Row(vals[m].key, RunTotal(vals, m, e))], vals[..e])
  {
    RunTotalIsColumnTotals(vals, m, e);
    var r := Row(vals[m].key, RunTotal(vals, m, e));
    forall k: Key
      ensures (HasKey([r], k) <==> HasKey(vals[m..e], k)) && KeyTotal([r], k) == KeyTotal(vals[m..e], k)
    {
      assert forall p :: 0 <= p < e - m ==> vals[m..e][p] == vals[m + p];
      OneKeyTotals(vals[m..e], vals[m].key, k);
      OneKeyTotals([r], r.key, k);
      PlusZero(r.count);
      assert [r][1..] == [];
    }
    SameTotalsConcat(out, [r], vals[..m], vals[m..e]);
    assert vals[..e] == vals[..m] + vals[m..e];
    forall j | 0 <= j < |out| ensures CompareKeys(out[j].key, r.key) < 0 {
      assert HasKey(out, out[j].key) && HasKey(vals[..m], out[j].key);
      var p :| 0 <= p < m && vals[..m][p].key == out[j].key;
      assert p == m - 1 || CompareKeys(vals[p].key, vals[m - 1].key) <= 0;
      if p < m - 1 { KeysTransitive(vals[p].key, vals[m - 1].key, vals[m].key); }
    }
  }

  lemma {:induction false} LinesSnoc(rows: seq<Row>, r: Row)
    ensures Lines(rows + [r]) == Lines(rows) + [PrintRow(r)]
  {
    if rows == [] {
      assert rows + [r] == [r] && [r][1..] == [];
    } else {
      assert (rows + [r])[1..] == rows[1..] + [r];
      LinesSnoc(rows[1..], r);
    }
  }

  lemma PrintRowsSnoc(rows: seq<Row>, r: Row)
    ensures PrintRows(rows + [r]) == PrintRows(rows) + PrintRow(r)
  {
    LinesSnoc(rows, r);
    ConcatSnoc(Lines(rows), PrintRow(r));
  }

  /** The do-while loop: the last index of the run of equal keys that starts at `m`. */
  method FindRun(arr: array<MergeCounting>, m: int) returns (i: int)
    requires 0 <= m < arr.Length
    ensures m <= i < arr.Length && forall p :: m <= p <= i ==> arr[p].key == arr[m].key
    ensures i + 1 < arr.Length ==> arr[i + 1].key != arr[i].key
  {
    i := m;
    while true
      invariant m <= i < arr.Length && forall p :: m <= p <= i ==> arr[p].key == arr[m].key
      decreases arr.Length - i
    {
      if i == arr.Length - 1 {
        break;
      }
      StrcmpMirrored(arr[i].key.date, arr[i + 1].key.date);
      if Strcmp(arr[i].key.date, arr[i + 1].key.date) != 0 {
        break;
      }
      StrcmpMirrored(arr[i].key.hour, arr[i + 1].key.hour);
      if Strcmp(arr[i].key.hour, arr[i + 1].key.hour) != 0 {
        break;
      }
      i := i + 1;
    }
  }

  /** The summing loop: row `m` receives the counters of rows `m..i`. */
  method SumRun(arr: array<MergeCounting>, m: int, i: int, ghost vals: seq<Row>)
    requires 0 <= m <= i < arr.Length == |vals| && Distinct(arr[..])
    requires forall k :: m <= k < arr.Length ==> arr[k].count == vals[k].count
    modifies arr[m]
    ensures arr[m].count == RunTotal(vals, m, i + 1)
  {
    ghost var objs := arr[..];
    var l := m + 1;
    while l <= i
      invariant m < l <= i + 1
      invariant forall k :: m < k < |objs| ==> objs[k].count == vals[k].count
      invariant arr[m].count == RunTotal(vals, m, l)
    {
      assert objs[m] != objs[l] && arr[l] == objs[l];
      arr[m].count := arr[m].count.Plus(arr[l].count);
      assert forall k :: m < k < |objs| ==> objs[k] != objs[m];
      l := l + 1;
    }
  }

  lemma DistinctPermuted(a: seq<MergeCounting>, b: seq<MergeCounting>)
    requires multiset(a) == multiset(b) && Distinct(a)
    ensures Distinct(b)
  {
    forall i, j | 0 <= i < j < |b| ensures b[i] != b[j] {
      if b[i] == b[j] {
        assert b == b[..i] + [b[i]] + b[i + 1..j] + [b[j]] + b[j + 1..];
        assert multiset(b)[b[i]] >= 2;
        OnceInDistinct(a, b[i]);
      }
    }
  }

  lemma {:induction false} OnceInDistinct(a: seq<MergeCounting>, x: MergeCounting)
    requires Distinct(a)
    ensures multiset(a)[x] <= 1
  {
    if a != [] {
      OnceInDistinct(a[1..], x);
      assert a == [a[0]] + a[1..];
      if a[0] == x {
        assert x !in a[1..];
      }
    }
  }

  /** Where a run ends in sorted rows, the next row has a larger key. */
  lemma RunEnds(vals: seq<Row>, e: int)
    requires 0 < e < |vals| && SortedRows(vals) && vals[e].key != vals[e - 1].key
    ensures CompareKeys(vals[e - 1].key, vals[e].key) < 0
  {
    KeysMirrored(vals[e - 1].key, vals[e].key);
  }

  /** The text of the merge grows by one line for each run. */
  lemma GroupPrinted(vals: seq<Row>, m: int, e: int, row: Row, file: string)
    requires 0 <= m < e <= |vals| && SortedRows(vals) && Run(vals, m, e)
    requires row == Row(vals[m].key, RunTotal(vals, m, e)) && file == PrintRows(Merged(vals[..m]))
    ensures file + PrintRow(row) == PrintRows(Merged(vals[..e]))
  {
    MergedIsMerge(vals[..m]);
    GroupStep(vals, m, e, Merged(vals[..m]));
    MergeIsUnique(Merged(vals[..m]) + [row], vals[..e]);
    PrintRowsSnoc(Merged(vals[..m]), row);
  }

  /** One round of the grouping loop: find the run at `m`, add it up, and return its line. */
  method GroupLine(arr: array<MergeCounting>, m: int, ghost objs: seq<MergeCounting>, ghost vals: seq<Row>) returns (i: int, line: string)
    requires arr[..] == objs && |objs| == |vals| && Distinct(objs) && SortedRows(vals) && 0 <= m < |vals|
    requires forall k :: 0 <= k < |objs| ==> objs[k].key == vals[k].key
    requires forall k :: m <= k < |objs| ==> objs[k].count == vals[k].count
    requires m > 0 ==> CompareKeys(vals[m - 1].key, vals[m].key) < 0
    modifies objs[m]
    ensures m < i <= |vals| && Run(vals, m, i)
    ensures line == PrintRow(Row(vals[m].key, RunTotal(vals, m, i)))
    ensures i < |vals| ==> CompareKeys(vals[i - 1].key, vals[i].key) < 0
  {
    assert arr[m] == objs[m];
    i := FindRun(arr, m);
    forall p | m <= p <= i ensures vals[p].key == vals[m].key { assert arr[p] == objs[p]; }
    SumRun(arr, m, i, vals);
    line := PrintRow(Row(arr[m].key, arr[m].count));
    i := i + 1;
    if i < arr.Length {
      assert arr[i] == objs[i] && arr[i - 1] == objs[i - 1];
      RunEnds(vals, i);
    }
  }

  /** The grouping loop over the sorted array: one line of text for each key. */
  method WriteGroups(arr: array<MergeCounting>, ghost objs: seq<MergeCounting>, ghost vals: seq<Row>) returns (file: string)
    requires arr[..] == objs && |objs| == |vals| && Distinct(objs) && SortedRows(vals)
    requires forall k :: 0 <= k < |objs| ==> objs[k].key == vals[k].key && objs[k].count == vals[k].count
    modifies objs
    ensures file == PrintRows(Merged(vals))
  {
    file := "";
    var i := 0;
    while i < arr.Length
      invariant 0 <= i <= arr.Length
      invariant forall k :: i <= k < |objs| ==> objs[k].count == vals[k].count
      invariant 0 < i < |vals| ==> CompareKeys(vals[i - 1].key, vals[i].key) < 0
      invariant file == PrintRows(Merged(vals[..i]))
    {
      var m, line := i, "";
      i, line := GroupLine(arr, m, objs, vals);
      GroupPrinted(vals, m, i, Row(vals[m].key, RunTotal(vals, m, i)), file);
      file := file + line;
    }
    assert vals[..|vals|] == vals;
  }

  /** `lcs_merge005_list`: the text written for the rows of a non-empty list. */
  method Merge005List(root: seq<MergeCounting>) returns (file: string)
    requires root != [] && Distinct(root)
    modifies root
    ensures file == PrintRows(Merged(old(RowsOf(root))))
  {
    ghost var input := RowsOf(root);
    var arr := SortedList(root);
    ghost var objs := arr[..];
    ghost var vals := RowsOf(objs);
    PermutedSameTotals(objs, root);
    DistinctPermuted(root, objs);
    forall p, q | 0 <= p < q < |vals| ensures CompareKeys(vals[p].key, vals[q].key) <= 0 {
      assert CompareObjects(objs[p], objs[q]) <= 0;
    }
    forall k | 0 <= k < |objs| ensures objs[k] in root {
      assert objs[k] in multiset(root);
    }
    file := WriteGroups(arr, objs, vals);
    MergedIsMerge(vals);
    assert IsMerge(Merged(vals), input);
    MergeIsUnique(Merged(vals), input);
  }

  /** Fill the array from the list and sort it. */
  method SortedList(root: seq<MergeCounting>) returns (arr: array<MergeCounting>)
    requires root != []
    ensures fresh(arr) && multiset(arr[..]) == multiset(root)
    ensures SortedBy(CompareObjects, arr[..], 0, arr.Length - 1)
  {
    var n := |root|;
    arr := new MergeCounting[n](_ => root[0]);
    var p := 0;
    while p < n
      invariant 0 <= p <= n && arr[..p] == root[..p]
    {
      arr[p] := root[p];
      p := p + 1;
    }
    assert arr[..] == root;
    ObjectOrder(multiset(arr[..]));
    LcsSort.QuickSortExt(arr, 0, n - 1, CompareObjects);
  }

  /** Reads the eight counter tokens of a line. The one variable `data` serves them all, so a token that
      is not a number repeats the value before it. */
  method ReadCounters(tokens: seq<string>, t: int, data: int) returns (count: Counters, last: int)
    requires 0 <= t && t + 8 <= |tokens|
    ensures count == ScanCounters(tokens[t..t + 8], data) && last == count.vinaFull
  {
    last := ScanOr(tokens[t], data);
    var totalCall := last;
    last := ScanOr(tokens[t + 1], last);
    var totalFullChannel := last;
    last := ScanOr(tokens[t + 2], last);
    var viettelAuto := last;
    last := ScanOr(tokens[t + 3], last);
    var viettelFull := last;
    last := ScanOr(tokens[t + 4], last);
    var mobileAuto := last;
    last := ScanOr(tokens[t + 5], last);
    var mobileFull := last;
    last := ScanOr(tokens[t + 6], last);
    var vinaAuto := last;
    last := ScanOr(tokens[t + 7], last);
    count := Counters(totalCall, totalFullChannel, viettelAuto, viettelFull, mobileAuto, mobileFull, vinaAuto, last);
  }

  /** One round of the token loop on the specification side. */
  lemma NextLine(tokens: seq<string>, t: int, data: int, count: Counters)
    requires 0 <= t < |tokens| && ParseRows(tokens[t..], data).Some?
    requires t + 10 <= |tokens| ==> count == ScanCounters(tokens[t + 2..t + 10], data)
    ensures t + 10 <= |tokens| && ParseRows(tokens[t + 10..], count.vinaFull).Some?
    ensures ParseRows(tokens[t..], data).value ==
            [Row(Key(tokens[t], tokens[t + 1]), count)] + ParseRows(tokens[t + 10..], count.vinaFull).value
  {
  }

  /** The file reports what the text says: its rows ascend by date and hour, it has the keys of the text
      and no other, and each row has the sum of every column over the rows of the text with its key. */
  ghost predicate Reports(file: string, text: string) {
    var out, rows := RowsIn(file), RowsIn(text);
    && (forall p, q :: 0 <= p < q < |out| ==> KeyBefore(out[p].key, out[q].key))
    && (forall p, i :: 0 <= p < |out| && 0 <= i < 8 ==> Column(out[p].count, i) == ColumnSum(rows, out[p].key, i))
    && (forall p :: 0 <= p < |out| ==> HasKey(rows, out[p].key))
    && (forall j :: 0 <= j < |rows| ==> HasKey(out, rows[j].key))
  }

  lemma CollectedReports(text: string)
    requires RowsIn(text) != []
    ensures Reports(CollectText(text).value, text)
  {
    RowsInGood(text);
    RowsRoundTrip(Merged(RowsIn(text)));
    MergedIsMerge(RowsIn(text));
    MergeInNumbers(Merged(RowsIn(text)), RowsIn(text));
  }

  /** `lcs_hcollect005_sum`: the token loop builds the list, ten tokens a row, and the list is merged
      unless it is empty. `None` means that no file is written. */
  method CollectSum(text: string) returns (file: Option<string>)
    requires ParseRows(Tokens(text), 0).Some?
    ensures file == CollectText(text)
    ensures file.None? <==> RowsIn(text) == []
    ensures file.Some? ==> Reports(file.value, text)
  {
    var root := ReadList(text);
    if root == [] {
      return None;
    }
    var content := Merge005List(root);
    CollectedReports(text);
    return Some(content);
  }

  /** One round of the token loop: ten tokens make one row object. */
  method ReadLine(tokens: seq<string>, t: int, data: int) returns (node: MergeCounting, last: int)
    requires 0 <= t < |tokens| && ParseRows(tokens[t..], data).Some?
    ensures fresh(node) && t + 10 <= |tokens| && ParseRows(tokens[t + 10..], last).Some?
    ensures ParseRows(tokens[t..], data).value == [RowOf(node)] + ParseRows(tokens[t + 10..], last).value
  {
    ghost var expected := if t + 10 <= |tokens| then ScanCounters(tokens[t + 2..t + 10], data) else ZERO;
    NextLine(tokens, t, data, expected);
    var count;
    count, last := ReadCounters(tokens, t + 2, data);
    node := new MergeCounting(Key(tokens[t], tokens[t + 1]), count);
  }

  lemma RowsOfSnoc(root: seq<MergeCounting>, node: MergeCounting, rest: seq<Row>)
    ensures RowsOf(root) + ([RowOf(node)] + rest) == RowsOf(root + [node]) + rest
  {
  }

  /** The same for a row object that joins a list. */
  method ReadMore(tokens: seq<string>, t: int, data: int, root: seq<MergeCounting>) returns (node: MergeCounting, last: int)
    requires 0 <= t < |tokens| && ParseRows(tokens[t..], data).Some? && Distinct(root)
    ensures fresh(node) && Distinct(root + [node])
    ensures t + 10 <= |tokens| && ParseRows(tokens[t + 10..], last).Some?
    ensures RowsOf(root) + ParseRows(tokens[t..], data).value == RowsOf(root + [node]) + ParseRows(tokens[t + 10..], last).value
  {
    node, last := ReadLine(tokens, t, data);
    RowsOfSnoc(root, node, ParseRows(tokens[t + 10..], last).value);
  }

  /** The token loop: a fresh row object for every ten tokens. */
  method ReadList(text: string) returns (root: seq<MergeCounting>)
    requires ParseRows(Tokens(text), 0).Some?
    ensures (forall k :: 0 <= k < |root| ==> fresh(root[k])) && Distinct(root)
    ensures RowsOf(root) == RowsIn(text)
  {
    var tokens := Tokens(text);
    var t, data := 0, 0;
    root := [];
    assert [] + RowsIn(text) == RowsIn(text) && tokens[0..] == tokens;
    while t < |tokens|
      invariant 0 <= t <= |tokens|
      invariant forall k :: 0 <= k < |root| ==> fresh(root[k])
      invariant Distinct(root)
      invariant ParseRows(tokens[t..], data).Some?
      invariant RowsIn(text) == RowsOf(root) + ParseRows(tokens[t..], data).value
    {
      var node;
      node, data := ReadMore(tokens, t, data, root);
      root := root + [node];
      t := t + 10;
    }
    assert RowsOf(root) + [] == RowsOf(root);
  }
}
