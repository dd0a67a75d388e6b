/** The counting rows of the reports: one (date, hour) key and eight counters. Merging sorts rows by key
    and adds up the rows of each key. */
module Rows {
  import opened Text

  datatype Key = Key(date: string, hour: string)

  datatype Counters = Counters(totalCall: int, totalFullChannel: int, viettelAuto: int, viettelFull: int,
                               mobileAuto: int, mobileFull: int, vinaAuto: int, vinaFull: int)
  {
    function Plus(c: Counters): Counters {
      Counters(totalCall + c.totalCall, totalFullChannel + c.totalFullChannel, viettelAuto + c.viettelAuto,
               viettelFull + c.viettelFull, mobileAuto + c.mobileAuto, mobileFull + c.mobileFull,
               vinaAuto + c.vinaAuto, vinaFull + c.vinaFull)
    }
  }

  const ZERO := Counters(0, 0, 0, 0, 0, 0, 0, 0)

  datatype Row = Row(key: Key, count: Counters)

  /** `lcs_merge_counting_cb` on keys: by date, then by hour. */
  function CompareKeys(a: Key, b: Key): int {
    var r := Strcmp(a.date, b.date);
    if r != 0 then r else Strcmp(a.hour, b.hour)
  }

  lemma KeysMirrored(a: Key, b: Key)
    ensures CompareKeys(a, b) < 0 <==> CompareKeys(b, a) > 0
    ensures CompareKeys(a, b) > 0 <==> CompareKeys(b, a) < 0
    ensures CompareKeys(a, b) == 0 <==> a == b
  {
    StrcmpMirrored(a.date, b.date);
    StrcmpMirrored(b.date, a.date);
    StrcmpMirrored(a.hour, b.hour);
    StrcmpMirrored(b.hour, a.hour);
  }

  lemma KeysTransitive(a: Key, b: Key, c: Key)
    requires CompareKeys(a, b) <= 0 && CompareKeys(b, c) <= 0
    ensures CompareKeys(a, c) <= 0
    ensures CompareKeys(a, b) < 0 || CompareKeys(b, c) < 0 ==> CompareKeys(a, c) < 0
  {
    StrcmpMirrored(a.date, b.date);
    StrcmpMirrored(b.date, c.date);
    StrcmpMirrored(a.date, c.date);
    StrcmpTransitive(a.date, b.date, c.date);
    if a.date == b.date == c.date {
      StrcmpTransitive(a.hour, b.hour, c.hour);
    }
  }

  /** Report order: by date, then by hour, both in dictionary order. */
  ghost predicate KeyBefore(a: Key, b: Key) {
    Before(a.date, b.date) || (a.date == b.date && Before(a.hour, b.hour))
  }

  lemma KeysAscend(a: Key, b: Key)
    ensures CompareKeys(a, b) < 0 <==> KeyBefore(a, b)
  {
    StrcmpMirrored(a.date, b.date);
    StrcmpIsDictionaryOrder(a.date, b.date);
    StrcmpIsDictionaryOrder(a.hour, b.hour);
  }

  // ----- What rows stand for

  ghost predicate HasKey(rows: seq<Row>, k: Key) {
    exists i :: 0 <= i < |rows| && rows[i].key == k
  }

  function KeyTotal(rows: seq<Row>, k: Key): Counters {
    if rows == [] then ZERO
    else if rows[0].key == k then rows[0].count.Plus(KeyTotal(rows[1..], k))
    else KeyTotal(rows[1..], k)
  }

  function ColumnTotals(rows: seq<Row>): Counters {
    if rows == [] then ZERO else rows[0].count.Plus(ColumnTotals(rows[1..]))
  }

  /** The same keys, and for each key the same sum of every counter. */
  ghost predicate SameTotals(a: seq<Row>, b: seq<Row>) {
    forall k: Key :: (HasKey(a, k) <==> HasKey(b, k)) && KeyTotal(a, k) == KeyTotal(b, k)
  }

  ghost predicate Increasing(rows: seq<Row>) {
    forall i, j :: 0 <= i < j < |rows| ==> CompareKeys(rows[i].key, rows[j].key) < 0
  }

  /** `out` is a merge of `rows`: strictly increasing keys, and nothing added or lost under any key. */
  ghost predicate IsMerge(out: seq<Row>, rows: seq<Row>) {
    Increasing(out) && SameTotals(out, rows)
  }

  lemma {:induction false} KeyTotalConcat(a: seq<Row>, b: seq<Row>, k: Key)
    ensures KeyTotal(a + b, k) == KeyTotal(a, k).Plus(KeyTotal(b, k))
  {
    if a == [] {
      assert a + b == b;
      assert KeyTotal(a, k) == ZERO;
      PlusZero(KeyTotal(b, k));
    } else {
      assert (a + b)[1..] == a[1..] + b && (a + b)[0] == a[0];
      KeyTotalConcat(a[1..], b, k);
      if a[0].key == k {
        assert KeyTotal(a + b, k) == a[0].count.Plus(KeyTotal(a[1..] + b, k));
        assert KeyTotal(a, k) == a[0].count.Plus(KeyTotal(a[1..], k));
        PlusAssociative(a[0].count, KeyTotal(a[1..], k), KeyTotal(b, k));
      } else {
        assert KeyTotal(a + b, k) == KeyTotal(a[1..] + b, k) && KeyTotal(a, k) == KeyTotal(a[1..], k);
      }
    }
  }

  lemma PlusZero(c: Counters)
    ensures ZERO.Plus(c) == c && c.Plus(ZERO) == c
  {
  }

  lemma PlusAssociative(a: Counters, b: Counters, c: Counters)
    ensures a.Plus(b).Plus(c) == a.Plus(b.Plus(c))
  {
  }

  lemma HasKeyConcat(a: seq<Row>, b: seq<Row>, k: Key)
    ensures HasKey(a + b, k) <==> HasKey(a, k) || HasKey(b, k)
  {
    if i :| 0 <= i < |a| && a[i].key == k { assert (a + b)[i].key == k; }
    if i :| 0 <= i < |b| && b[i].key == k { assert (a + b)[|a| + i].key == k; }
  }

  lemma SameTotalsConcat(a: seq<Row>, b: seq<Row>, c: seq<Row>, d: seq<Row>)
    requires SameTotals(a, c) && SameTotals(b, d)
    ensures SameTotals(a + b, c + d)
  {
    forall k: Key ensures (HasKey(a + b, k) <==> HasKey(c + d, k)) && KeyTotal(a + b, k) == KeyTotal(c + d, k) {
      KeyTotalConcat(a, b, k);
      KeyTotalConcat(c, d, k);
      HasKeyConcat(a, b, k);
      HasKeyConcat(c, d, k);
    }
  }

  lemma {:induction false} NoKeyNoTotal(rows: seq<Row>, k: Key)
    requires !HasKey(rows, k)
    ensures KeyTotal(rows, k) == ZERO
  {
    if rows != [] {
      assert forall i :: 0 <= i < |rows| - 1 ==> rows[1..][i] == rows[i + 1];
      assert rows[0].key != k;
      NoKeyNoTotal(rows[1..], k);
    }
  }

  /** In a merge, a row's counters are the sums over the input rows with its key. */
  lemma {:induction false} IncreasingTotal(out: seq<Row>, i: int)
    requires Increasing(out) && 0 <= i < |out|
    ensures KeyTotal(out, out[i].key) == out[i].count
  {
    KeysMirrored(out[0].key, out[i].key);
    if i == 0 {
      if j :| 0 <= j < |out[1..]| && out[1..][j].key == out[0].key {
        KeysMirrored(out[0].key, out[j + 1].key);
      }
      NoKeyNoTotal(out[1..], out[0].key);
    } else {
      IncreasingTotal(out[1..], i - 1);
    }
  }

  lemma MergeRowsAreSums(out: seq<Row>, rows: seq<Row>, i: int)
    requires IsMerge(out, rows) && 0 <= i < |out|
    ensures out[i].count == KeyTotal(rows, out[i].key)
  {
    IncreasingTotal(out, i);
  }

  // ----- What a merge says, in numbers

  /** The counters by their place on a line. */
  function Column(c: Counters, i: int): int {
    if i == 0 then c.totalCall else if i == 1 then c.totalFullChannel
    else if i == 2 then c.viettelAuto else if i == 3 then c.viettelFull
    else if i == 4 then c.mobileAuto else if i == 5 then c.mobileFull
    else if i == 6 then c.vinaAuto else c.vinaFull
  }

  /** The sum of one column over the rows with a key. */
  function ColumnSum(rows: seq<Row>, k: Key, i: int): int {
    if rows == [] then 0 else (if rows[0].key == k then Column(rows[0].count, i) else 0) + ColumnSum(rows[1..], k, i)
  }

  lemma {:induction false} KeyTotalColumns(rows: seq<Row>, k: Key, i: int)
    ensures Column(KeyTotal(rows, k), i) == ColumnSum(rows, k, i)
  {
    if rows != [] {
      KeyTotalColumns(rows[1..], k, i);
    }
  }

  /** A merge lists every key of the input once, in report order, with the sum of every column over the
      input rows of the key. */
  lemma MergeInNumbers(out: seq<Row>, rows: seq<Row>)
    requires IsMerge(out, rows)
    ensures forall p, q :: 0 <= p < q < |out| ==> KeyBefore(out[p].key, out[q].key)
    ensures forall p, i :: 0 <= p < |out| && 0 <= i < 8 ==> Column(out[p].count, i) == ColumnSum(rows, out[p].key, i)
    ensures forall p :: 0 <= p < |out| ==> HasKey(rows, out[p].key)
    ensures forall j :: 0 <= j < |rows| ==> HasKey(out, rows[j].key)
  {
    forall p, q | 0 <= p < q < |out| ensures KeyBefore(out[p].key, out[q].key) {
      KeysAscend(out[p].key, out[q].key);
    }
    forall p, i | 0 <= p < |out| && 0 <= i < 8 ensures Column(out[p].count, i) == ColumnSum(rows, out[p].key, i) {
      MergeRowsAreSums(out, rows, p);
      KeyTotalColumns(rows, out[p].key, i);
    }
    forall p | 0 <= p < |out| ensures HasKey(rows, out[p].key) {
      assert HasKey(out, out[p].key);
    }
    forall j | 0 <= j < |rows| ensures HasKey(out, rows[j].key) {
      assert HasKey(rows, rows[j].key);
    }
  }

  // ----- Merging is determined by the totals

  lemma {:induction false} IncreasingUnique(a: seq<Row>, b: seq<Row>)
    requires Increasing(a) && Increasing(b) && SameTotals(a, b)
    ensures a == b
  {
    if a == [] || b == [] {
      if a != [] { assert HasKey(a, a[0].key); }
      if b != [] { assert HasKey(b, b[0].key); }
    } else {
      FirstKeysEqual(a, b);
      IncreasingTotal(a, 0);
      IncreasingTotal(b, 0);
      assert a[0] == b[0];
      forall k: Key
        ensures (HasKey(a[1..], k) <==> HasKey(b[1..], k)) && KeyTotal(a[1..], k) == KeyTotal(b[1..], k)
      {
        TailTotals(a, k);
        TailTotals(b, k);
      }
      IncreasingUnique(a[1..], b[1..]);
      assert a == [a[0]] + a[1..] && b == [b[0]] + b[1..];
    }
  }

  lemma FirstKeysEqual(a: seq<Row>, b: seq<Row>)
    requires Increasing(a) && Increasing(b) && SameTotals(a, b) && a != [] && b != []
    ensures a[0].key == b[0].key
  {
    assert HasKey(a, a[0].key) && HasKey(b, b[0].key);
    var i :| 0 <= i < |b| && b[i].key == a[0].key;
    var j :| 0 <= j < |a| && a[j].key == b[0].key;
    KeysMirrored(a[0].key, b[0].key);
    KeysMirrored(b[0].key, a[0].key);
  }

  lemma TailTotals(a: seq<Row>, k: Key)
    requires Increasing(a) && a != []
    ensures HasKey(a[1..], k) <==> HasKey(a, k) && k != a[0].key
    ensures KeyTotal(a[1..], k) == if k == a[0].key then ZERO else KeyTotal(a, k)
  {
    HasKeyConcat([a[0]], a[1..], k);
    assert a == [a[0]] + a[1..] && [a[0]][0] == a[0];
    if i :| 0 <= i < |a[1..]| && a[1..][i].key == a[0].key {
      KeysMirrored(a[0].key, a[i + 1].key);
    }
    if k == a[0].key { NoKeyNoTotal(a[1..], k); }
  }

  // ----- A reference merge

  function InsertRow(r: Row, out: seq<Row>): seq<Row> {
    if out == [] then [r]
    else
      var c := CompareKeys(r.key, out[0].key);
      if c < 0 then [r] + out
      else if c == 0 then [Row(r.key, r.count.Plus(out[0].count))] + out[1..]
      else [out[0]] + InsertRow(r, out[1..])
  }

  /** The merge of `rows`, one row at a time. */
  function Merged(rows: seq<Row>): seq<Row> {
    if rows == [] then [] else InsertRow(rows[0], Merged(rows[1..]))
  }

  lemma {:induction false} InsertRowHasKey(r: Row, out: seq<Row>, k: Key)
    ensures HasKey(InsertRow(r, out), k) <==> HasKey(out, k) || k == r.key
  {
    if out == [] {
      OneRow(r, k);
    } else {
      var c, head, rest := CompareKeys(r.key, out[0].key), InsertRow(r, out)[0], InsertRow(r, out)[1..];
      KeysMirrored(r.key, out[0].key);
      assert out == [out[0]] + out[1..] && InsertRow(r, out) == [head] + rest;
      HasKeyConcat([head], rest, k);
      HasKeyConcat([out[0]], out[1..], k);
      OneRow(head, k);
      OneRow(out[0], k);
      if c > 0 { InsertRowHasKey(r, out[1..], k); }
    }
  }

  lemma OneRow(r: Row, k: Key)
    ensures HasKey([r], k) <==> r.key == k
  {
    assert [r][0] == r;
  }

  lemma {:induction false} InsertRowTotals(r: Row, out: seq<Row>, k: Key)
    ensures KeyTotal(InsertRow(r, out), k) == if k == r.key then r.count.Plus(KeyTotal(out, k)) else KeyTotal(out, k)
  {
    if out != [] {
      var c := CompareKeys(r.key, out[0].key);
      KeysMirrored(r.key, out[0].key);
      if c < 0 {
        assert ([r] + out)[1..] == out;
      } else if c == 0 {
        PlusAssociative(r.count, out[0].count, KeyTotal(out[1..], k));
      } else {
        InsertRowTotals(r, out[1..], k);
      }
    } else {
      assert KeyTotal([], k) == ZERO;
    }
  }

  lemma PlusSwap(a: Counters, b: Counters, c: Counters)
    ensures a.Plus(b.Plus(c)) == b.Plus(a.Plus(c))
  {
  }

  lemma {:induction false} InsertRowColumns(r: Row, out: seq<Row>)
    ensures ColumnTotals(InsertRow(r, out)) == r.count.Plus(ColumnTotals(out))
  {
    if out != [] {
      var c := CompareKeys(r.key, out[0].key);
      if c < 0 {
        assert ([r] + out)[1..] == out;
      } else if c == 0 {
        PlusAssociative(r.count, out[0].count, ColumnTotals(out[1..]));
      } else {
        InsertRowColumns(r, out[1..]);
        PlusSwap(out[0].count, r.count, ColumnTotals(out[1..]));
      }
    } else {
      assert ColumnTotals([]) == ZERO;
    }
  }

  lemma HeadBelow(out: seq<Row>, k: Key)
    requires Increasing(out) && out != [] && HasKey(out[1..], k)
    ensures CompareKeys(out[0].key, k) < 0
  {
    var i :| 0 <= i < |out[1..]| && out[1..][i].key == k;
    assert out[1..][i] == out[i + 1];
  }

  lemma IncreasingCons(r: Row, rest: seq<Row>)
    requires Increasing(rest) && forall j :: 0 <= j < |rest| ==> CompareKeys(r.key, rest[j].key) < 0
    ensures Increasing([r] + rest)
  {
  }

  lemma {:induction false} InsertRowIncreasing(r: Row, out: seq<Row>)
    requires Increasing(out)
    ensures Increasing(InsertRow(r, out))
  {
    if out != [] {
      var c := CompareKeys(r.key, out[0].key);
      KeysMirrored(r.key, out[0].key);
      if c < 0 {
        forall j | 0 < j < |out| ensures CompareKeys(r.key, out[j].key) < 0 {
          KeysTransitive(r.key, out[0].key, out[j].key);
        }
        IncreasingCons(r, out);
      } else if c > 0 {
        var rest := InsertRow(r, out[1..]);
        InsertRowIncreasing(r, out[1..]);
        forall j | 0 <= j < |rest| ensures CompareKeys(out[0].key, rest[j].key) < 0 {
          InsertRowHasKey(r, out[1..], rest[j].key);
          assert HasKey(rest, rest[j].key);
          if rest[j].key != r.key { HeadBelow(out, rest[j].key); }
        }
        IncreasingCons(out[0], rest);
      }
    }
  }

  /** The reference merge is a merge, and adds nothing to and takes nothing from any column. */
  lemma {:induction false} MergedIsMerge(rows: seq<Row>)
    ensures IsMerge(Merged(rows), rows)
    ensures ColumnTotals(Merged(rows)) == ColumnTotals(rows)
  {
    if rows != [] {
      var rest := Merged(rows[1..]);
      MergedIsMerge(rows[1..]);
      InsertRowIncreasing(rows[0], rest);
      forall k: Key
        ensures (HasKey(Merged(rows), k) <==> HasKey(rows, k)) && KeyTotal(Merged(rows), k) == KeyTotal(rows, k)
      {
        InsertRowHasKey(rows[0], rest, k);
        InsertRowTotals(rows[0], rest, k);
        HasKeyConcat([rows[0]], rows[1..], k);
        OneRow(rows[0], k);
        assert rows == [rows[0]] + rows[1..];
      }
      InsertRowColumns(rows[0], rest);
    }
  }

  /** Any merge, whatever order it met the rows in, is the reference merge. */
  lemma MergeIsUnique(out: seq<Row>, rows: seq<Row>)
    requires IsMerge(out, rows)
    ensures out == Merged(rows)
  {
    MergedIsMerge(rows);
    IncreasingUnique(out, Merged(rows));
  }

  // ----- Merging pieces first changes nothing

  function Concat<T>(pieces: seq<seq<T>>): seq<T> {
    if pieces == [] then [] else pieces[0] + Concat(pieces[1..])
  }

  lemma {:induction false} ConcatSnoc<T>(pieces: seq<seq<T>>, last: seq<T>)
    ensures Concat(pieces + [last]) == Concat(pieces) + last
  {
    if pieces == [] {
      assert pieces + [last] == [last] && [last][1..] == [];
    } else {
      assert (pieces + [last])[1..] == pieces[1..] + [last];
      ConcatSnoc(pieces[1..], last);
    }
  }

  function MergeEach(pieces: seq<seq<Row>>): seq<seq<Row>> {
    if pieces == [] then [] else [Merged(pieces[0])] + MergeEach(pieces[1..])
  }

  lemma {:induction false} PiecesSameTotals(pieces: seq<seq<Row>>)
    ensures SameTotals(Concat(MergeEach(pieces)), Concat(pieces))
  {
    if pieces != [] {
      MergedIsMerge(pieces[0]);
      PiecesSameTotals(pieces[1..]);
      assert MergeEach(pieces)[1..] == MergeEach(pieces[1..]);
      SameTotalsConcat(Merged(pieces[0]), Concat(MergeEach(pieces[1..])), pieces[0], Concat(pieces[1..]));
    }
  }

  /** Aggregates of aggregates are aggregates of everything, for every split of the rows into pieces. */
  lemma MergePiecesFirst(pieces: seq<seq<Row>>)
    ensures Merged(Concat(MergeEach(pieces))) == Merged(Concat(pieces))
  {
    var merged := Concat(MergeEach(pieces));
    MergedIsMerge(merged);
    PiecesSameTotals(pieces);
    MergeIsUnique(Merged(merged), Concat(pieces));
  }
}
