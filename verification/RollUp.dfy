/** The hour job and the day job: append the texts of the level below and merge them. */
module RollUp {
  import opened Text
  import opened Rows
  import opened RowText
  import opened MergeList

  /** The text a missing file contributes is empty. */
  function Texts(files: seq<Option<string>>): seq<string> {
    if files == [] then [] else [files[0].GetOr("")] + Texts(files[1..])
  }

  lemma {:induction false} TextsSnoc(files: seq<Option<string>>, last: Option<string>)
    ensures Texts(files + [last]) == Texts(files) + [last.GetOr("")]
  {
    if files == [] {
      assert files + [last] == [last] && [last][1..] == [];
    } else {
      assert (files + [last])[1..] == files[1..] + [last];
      TextsSnoc(files[1..], last);
    }
  }

  lemma NextText(files: seq<Option<string>>, i: int)
    requires 0 <= i < |files|
    ensures Concat(Texts(files[..i + 1])) == Concat(Texts(files[..i])) + files[i].GetOr("")
  {
    assert files[..i + 1] == files[..i] + [files[i]];
    TextsSnoc(files[..i], files[i]);
    ConcatSnoc(Texts(files[..i]), files[i].GetOr(""));
  }

  /** `lcs_hcollect_ana` of the hour job, once the 5-minute files exist. */
  method HourJob(files: seq<Option<string>>) returns (result: Option<string>)
    requires ParseRows(Tokens(Concat(Texts(files))), 0).Some?
    ensures result == CollectText(Concat(Texts(files)))
  {
    var text := "";
    var i := 0;
    while i < |files|
      invariant 0 <= i <= |files| && text == Concat(Texts(files[..i]))
    {
      NextText(files, i);
      if files[i].Some? && files[i].value != "" {
        text := text + files[i].value;
      }
      i := i + 1;
    }
    assert files[..i] == files;
    result := CollectSum(text);
  }

  /** `lcs_hcollect_ana` of the day job, once the workers are done: every hour file is appended to the
      result file, which is then merged in place. If workers were launched an old result is removed first,
      otherwise the merged text begins with it. */
  method DayJob(dest: Option<string>, launched: bool, files: seq<Option<string>>) returns (result: Option<string>)
    requires launched ==> ParseRows(Tokens(Concat(Texts(files))), 0).Some?
    requires !launched ==> ParseRows(Tokens(dest.GetOr("") + Concat(Texts(files))), 0).Some?
    ensures launched ==> var text := Concat(Texts(files));
      if RowsIn(text) != [] then result == CollectText(text)
      else result == if files == [] then None else Some(text)
    ensures !launched ==> var text := dest.GetOr("") + Concat(Texts(files));
      if RowsIn(text) != [] then result == CollectText(text)
      else result == if files == [] then dest else Some(text)
  {
    result := dest;
    if launched {
      result := None;
    }
    result := AppendFiles(result, files);
    assert "" + Concat(Texts(files)) == Concat(Texts(files));
    assert files == [] ==> dest.GetOr("") + Concat(Texts(files)) == dest.GetOr("");
    result := MergeInPlace(result);
  }

  /** `cat` every hour file behind the result file, which the first one creates. */
  method AppendFiles(start: Option<string>, files: seq<Option<string>>) returns (result: Option<string>)
    ensures result == if files == [] then start else Some(start.GetOr("") + Concat(Texts(files)))
    ensures files == [] ==> Concat(Texts(files)) == ""
  {
    result := start;
    var i := 0;
    while i < |files|
      invariant 0 <= i <= |files| && result.GetOr("") == start.GetOr("") + Concat(Texts(files[..i]))
      invariant if i == 0 then result == start else result.Some?
    {
      NextText(files, i);
      result := Some(result.GetOr("") + files[i].GetOr(""));
      i := i + 1;
    }
    assert files[..i] == files;
  }

  /** The end of the day job: the merge of the result file replaces it, unless it has no rows. */
  method MergeInPlace(file: Option<string>) returns (result: Option<string>)
    requires ParseRows(Tokens(file.GetOr("")), 0).Some?
    ensures result == if RowsIn(file.GetOr("")) != [] then CollectText(file.GetOr("")) else file
  {
    result := file;
    if file.Some? && file.value != "" {
      var merged := CollectSum(file.value);
      if merged.Some? {
        result := merged;
      }
    }
  }

  // ----- The roll-up keeps its meaning

  ghost predicate CleanTexts(files: seq<string>) {
    forall i :: 0 <= i < |files| ==> CleanText(files[i])
  }

  function RowsOfFiles(files: seq<string>): seq<seq<Row>> {
    if files == [] then [] else [RowsIn(files[0])] + RowsOfFiles(files[1..])
  }

  lemma {:induction false} RowsOfConcat(files: seq<string>)
    requires CleanTexts(files)
    ensures CleanText(Concat(files)) && RowsIn(Concat(files)) == Concat(RowsOfFiles(files))
  {
    if files != [] {
      RowsOfConcat(files[1..]);
      CleanConcat(files[0], Concat(files[1..]));
    }
  }

  /** The result file of the hour job, for every hour of a day. */
  function HourTexts(hours: seq<seq<string>>): seq<string> {
    if hours == [] then [] else [CollectText(Concat(hours[0])).GetOr("")] + HourTexts(hours[1..])
  }

  function RowsOfHours(hours: seq<seq<string>>): seq<seq<Row>> {
    if hours == [] then [] else [Concat(RowsOfFiles(hours[0]))] + RowsOfHours(hours[1..])
  }

  /** A result file reads back as the merge it was printed from, also when no file was written. */
  lemma CollectedRows(text: string)
    ensures CleanText(CollectText(text).GetOr("")) && RowsIn(CollectText(text).GetOr("")) == Merged(RowsIn(text))
  {
    RowsInGood(text);
    RowsRoundTrip(Merged(RowsIn(text)));
    RowsRoundTrip([]);
  }

  lemma {:induction false} HourRows(hours: seq<seq<string>>)
    requires forall h :: 0 <= h < |hours| ==> CleanTexts(hours[h])
    ensures CleanTexts(HourTexts(hours)) && RowsOfFiles(HourTexts(hours)) == MergeEach(RowsOfHours(hours))
  {
    if hours != [] {
      RowsOfConcat(hours[0]);
      CollectedRows(Concat(hours[0]));
      HourRows(hours[1..]);
      assert HourTexts(hours)[1..] == HourTexts(hours[1..]);
      assert RowsOfHours(hours)[1..] == RowsOfHours(hours[1..]);
    }
  }

  lemma {:induction false} ConcatAppend<T>(a: seq<seq<T>>, b: seq<seq<T>>)
    ensures Concat(a + b) == Concat(a) + Concat(b)
  {
    if a == [] {
      assert a + b == b;
    } else {
      assert (a + b)[1..] == a[1..] + b;
      ConcatAppend(a[1..], b);
    }
  }

  lemma {:induction false} RowsOfFilesAppend(a: seq<string>, b: seq<string>)
    ensures RowsOfFiles(a + b) == RowsOfFiles(a) + RowsOfFiles(b)
  {
    if a == [] {
      assert a + b == b;
    } else {
      assert (a + b)[1..] == a[1..] + b;
      RowsOfFilesAppend(a[1..], b);
    }
  }

  lemma {:induction false} AllRows(hours: seq<seq<string>>)
    requires forall h :: 0 <= h < |hours| ==> CleanTexts(hours[h])
    ensures CleanTexts(Concat(hours)) && Concat(RowsOfFiles(Concat(hours))) == Concat(RowsOfHours(hours))
  {
    if hours != [] {
      AllRows(hours[1..]);
      RowsOfFilesAppend(hours[0], Concat(hours[1..]));
      ConcatAppend(RowsOfFiles(hours[0]), RowsOfFiles(Concat(hours[1..])));
      assert RowsOfHours(hours)[1..] == RowsOfHours(hours[1..]);
    }
  }

  /** The roll-up: merging the hour files gives exactly the text that merging all 5-minute files at once
      gives, for every split of the files into hours. */
  lemma DayOfHoursIsDayOfAll(hours: seq<seq<string>>)
    requires forall h :: 0 <= h < |hours| ==> CleanTexts(hours[h])
    ensures CollectText(Concat(HourTexts(hours))) == CollectText(Concat(Concat(hours)))
  {
    HourRows(hours);
    RowsOfConcat(HourTexts(hours));
    AllRows(hours);
    RowsOfConcat(Concat(hours));
    var pieces := RowsOfHours(hours);
    MergePiecesFirst(pieces);
    EmptyTogether(Concat(MergeEach(pieces)), Concat(pieces));
  }

  function Present(files: seq<string>): seq<Option<string>> {
    if files == [] then [] else [Some(files[0])] + Present(files[1..])
  }

  lemma {:induction false} TextsPresent(files: seq<string>)
    ensures Texts(Present(files)) == files
  {
    if files != [] {
      TextsPresent(files[1..]);
      assert Present(files)[1..] == Present(files[1..]);
    }
  }

  lemma {:induction false} HourTextsSnoc(hours: seq<seq<string>>, last: seq<string>)
    ensures HourTexts(hours + [last]) == HourTexts(hours) + [CollectText(Concat(last)).GetOr("")]
  {
    if hours == [] {
      assert hours + [last] == [last] && [last][1..] == [];
    } else {
      assert (hours + [last])[1..] == hours[1..] + [last];
      HourTextsSnoc(hours[1..], last);
    }
  }

  lemma CleanParses(text: string)
    requires CleanText(text)
    ensures ParseRows(Tokens(text), 0).Some?
  {
    CleanIgnoresData(Tokens(text), 0, 0);
  }

  /** One hour job for every hour. */
  method HourJobs(hours: seq<seq<string>>) returns (files: seq<Option<string>>)
    requires forall h :: 0 <= h < |hours| ==> CleanTexts(hours[h])
    ensures Texts(files) == HourTexts(hours)
  {
    files := [];
    var h := 0;
    while h < |hours|
      invariant 0 <= h <= |hours| && Texts(files) == HourTexts(hours[..h])
    {
      TextsPresent(hours[h]);
      RowsOfConcat(hours[h]);
      CleanParses(Concat(hours[h]));
      var result := HourJob(Present(hours[h]));
      TextsSnoc(files, result);
      NextHour(hours, h);
      files := files + [result];
      h := h + 1;
    }
    assert hours[..h] == hours;
  }

  lemma NextHour(hours: seq<seq<string>>, h: int)
    requires 0 <= h < |hours|
    ensures HourTexts(hours[..h + 1]) == HourTexts(hours[..h]) + [CollectText(Concat(hours[h])).GetOr("")]
  {
    HourTextsSnoc(hours[..h], hours[h]);
    assert hours[..h + 1] == hours[..h] + [hours[h]];
  }

  /** The jobs end to end: an hour job for every hour, launched by the day job, and the merge of their
      results. Whatever the old day file was, the new one is what all 5-minute files at once would give. */
  method DayFromScratch(stale: Option<string>, hours: seq<seq<string>>) returns (day: Option<string>)
    requires forall h :: 0 <= h < |hours| ==> CleanTexts(hours[h])
    ensures if RowsIn(Concat(Concat(hours))) != [] then day == CollectText(Concat(Concat(hours))) else day.GetOr("") == ""
  {
    var files := HourJobs(hours);
    DayText(hours);
    day := DayJob(stale, true, files);
  }

  /** The text that the day job merges, and what comes of it. */
  lemma DayText(hours: seq<seq<string>>)
    requires forall h :: 0 <= h < |hours| ==> CleanTexts(hours[h])
    ensures var text, all := Concat(HourTexts(hours)), Concat(Concat(hours));
      && ParseRows(Tokens(text), 0).Some?
      && CollectText(text) == CollectText(all)
      && (RowsIn(text) == [] <==> RowsIn(all) == [])
      && (RowsIn(text) == [] ==> text == "")
  {
    HourRows(hours);
    RowsOfConcat(HourTexts(hours));
    CleanParses(Concat(HourTexts(hours)));
    DayOfHoursIsDayOfAll(hours);
    if RowsIn(Concat(HourTexts(hours))) == [] { NoRowsNoText(hours); }
  }

  lemma {:induction false} NoRowsNoText(hours: seq<seq<string>>)
    requires forall h :: 0 <= h < |hours| ==> CleanTexts(hours[h])
    requires RowsIn(Concat(HourTexts(hours))) == []
    ensures Concat(HourTexts(hours)) == ""
  {
    if hours != [] {
      var first, rest := HourTexts(hours)[0], HourTexts(hours[1..]);
      HourRows(hours[1..]);
      RowsOfConcat(rest);
      CollectedRows(Concat(hours[0]));
      assert HourTexts(hours)[1..] == rest;
      CleanConcat(first, Concat(rest));
      EmptyMerge(RowsIn(Concat(hours[0])));
      NoRowsNoText(hours[1..]);
    }
  }

  lemma EmptyMerge(rows: seq<Row>)
    ensures Merged(rows) == [] <==> rows == []
  {
    MergedIsMerge(rows);
    if rows != [] { assert HasKey(rows, rows[0].key); }
  }

  lemma EmptyTogether(a: seq<Row>, b: seq<Row>)
    requires Merged(a) == Merged(b)
    ensures a == [] <==> b == []
  {
  }

  /** Appending rows to their own merge doubles the sum under each key. */
  lemma TwiceTotals(rows: seq<Row>, k: Key)
    ensures HasKey(Merged(Merged(rows) + rows), k) <==> HasKey(Merged(rows), k)
    ensures KeyTotal(Merged(rows), k) == KeyTotal(rows, k)
    ensures KeyTotal(Merged(Merged(rows) + rows), k) == KeyTotal(rows, k).Plus(KeyTotal(rows, k))
  {
    MergedIsMerge(rows);
    MergedIsMerge(Merged(rows) + rows);
    HasKeyConcat(Merged(rows), rows, k);
    KeyTotalConcat(Merged(rows), rows, k);
  }

  ghost predicate AllZero(rows: seq<Row>) {
    forall k: Key :: KeyTotal(rows, k) == ZERO
  }

  lemma TwiceOfZero(rows: seq<Row>, k: Key)
    requires KeyTotal(rows, k) == ZERO
    ensures HasKey(Merged(Merged(rows) + rows), k) <==> HasKey(Merged(rows), k)
    ensures KeyTotal(Merged(Merged(rows) + rows), k) == KeyTotal(Merged(rows), k)
  {
    TwiceTotals(rows, k);
    PlusZero(ZERO);
  }

  lemma AllZeroMergesTwice(rows: seq<Row>)
    requires AllZero(rows)
    ensures Merged(Merged(rows) + rows) == Merged(rows)
  {
    var once, twice := Merged(rows), Merged(Merged(rows) + rows);
    forall k: Key ensures (HasKey(twice, k) <==> HasKey(once, k)) && KeyTotal(twice, k) == KeyTotal(once, k) {
      assert KeyTotal(rows, k) == ZERO;
      TwiceOfZero(rows, k);
    }
    MergedIsMerge(rows);
    MergedIsMerge(once + rows);
    IncreasingUnique(twice, once);
  }

  lemma OnlyZeroIsItsDouble(c: Counters)
    requires c.Plus(c) == c
    ensures c == ZERO
  {
  }

  /** Result files are equal exactly when the merged rows are. */
  lemma CollectEqual(t: string, u: string)
    requires RowsIn(t) != [] && RowsIn(u) != []
    ensures CollectText(t) == CollectText(u) <==> Merged(RowsIn(t)) == Merged(RowsIn(u))
  {
    CollectedRows(t);
    CollectedRows(u);
  }

  lemma MergesTwice(rows: seq<Row>)
    ensures Merged(Merged(rows) + rows) == Merged(rows) <==> AllZero(rows)
  {
    if Merged(Merged(rows) + rows) == Merged(rows) {
      forall k: Key ensures KeyTotal(rows, k) == ZERO {
        TwiceTotals(rows, k);
        OnlyZeroIsItsDouble(KeyTotal(rows, k));
      }
    } else if AllZero(rows) {
      AllZeroMergesTwice(rows);
    }
  }

  /** Running the day job again without removing the old result counts everything twice; the second
      result equals the first exactly when there was nothing but zeros to count. */
  lemma RerunDoubles(text: string, first: string)
    requires CleanText(text) && CollectText(text) == Some(first)
    ensures CollectText(first + text) == Some(first) <==> AllZero(RowsIn(text))
  {
    CollectedRows(text);
    CleanConcat(first, text);
    assert RowsIn(first + text) == Merged(RowsIn(text)) + RowsIn(text);
    CollectEqual(first + text, text);
    MergesTwice(RowsIn(text));
  }

  /** The job run twice, the second time with nothing left to launch. */
  method DayTwice(stale: Option<string>, files: seq<Option<string>>) returns (first: Option<string>, second: Option<string>)
    requires CleanText(Concat(Texts(files))) && RowsIn(Concat(Texts(files))) != []
    ensures first == CollectText(Concat(Texts(files)))
    ensures second == first <==> AllZero(RowsIn(Concat(Texts(files))))
  {
    ghost var text := Concat(Texts(files));
    CleanParses(text);
    first := DayJob(stale, true, files);
    CollectedRows(text);
    CleanConcat(first.value, text);
    CleanParses(first.value + text);
    RerunDoubles(text, first.value);
    second := DayJob(first, false, files);
  }

  lemma MergedOnceAndTwice(r: Row)
    ensures Merged([r]) == [r] && Merged([r] + [r]) == [Row(r.key, r.count.Plus(r.count))]
  {
    assert [r][1..] == [] && ([r] + [r])[1..] == [r];
    KeysMirrored(r.key, r.key);
  }

  /** A file of one row: the second run prints the row with every counter doubled, so one call becomes two. */
  lemma RerunOfOne(r: Row, text: string)
    requires GoodKey(r.key) && text == PrintRows([r])
    ensures CollectText(text) == Some(text)
    ensures CollectText(text + text) == Some(PrintRows([Row(r.key, r.count.Plus(r.count))]))
  {
    MergedOnceAndTwice(r);
    RowsRoundTrip([r]);
    CleanConcat(text, text);
  }

  /** An eight-digit date and a two-digit hour make a usable key. */
  lemma UsableKey()
    ensures GoodKey(Key("20140101", "00"))
  {
  }
}
