/** Report rows as text: one line per row, ten fields, tabs between them. Printing and re-reading rows is
    what carries the 5-minute figures to the hour file and the hour figures to the day file. */
module RowText {
  import opened Text
  import opened Rows

  /** The capacities of the `date` and `hour` fields, without the terminating NUL. */
  const DATE_MAX := 11
  const HOUR_MAX := 3

  function Fields(r: Row): seq<string> {
    var c := r.count;
    [r.key.date, r.key.hour, PrintInt(c.totalCall), PrintInt(c.totalFullChannel), PrintInt(c.viettelAuto), PrintInt(c.viettelFull),
     PrintInt(c.mobileAuto), PrintInt(c.mobileFull), PrintInt(c.vinaAuto), PrintInt(c.vinaFull)]
  }

  /** The fields of one line, tab-separated and ended by a newline. */
  function PrintFields(fields: seq<string>): string {
    if fields == [] then "" else fields[0] + [if |fields| == 1 then '\n' else '\t'] + PrintFields(fields[1..])
  }

  function PrintRow(r: Row): string {
    PrintFields(Fields(r))
  }

  function Lines(rows: seq<Row>): seq<string> {
    if rows == [] then [] else [PrintRow(rows[0])] + Lines(rows[1..])
  }

  function PrintRows(rows: seq<Row>): string {
    Concat(Lines(rows))
  }

  /** A counter field: a token `%d` cannot read leaves the variable with the previous field's value. */
  function ScanOr(token: string, data: int): int {
    ScanInt(token).GetOr(data)
  }

  /** The eight counters of a line; `data` is the value the shared variable holds before them. */
  function ScanCounters(f: seq<string>, data: int): Counters
    requires |f| == 8
  {
    var d1 := ScanOr(f[0], data);
    var d2 := ScanOr(f[1], d1);
    var d3 := ScanOr(f[2], d2);
    var d4 := ScanOr(f[3], d3);
    var d5 := ScanOr(f[4], d4);
    var d6 := ScanOr(f[5], d5);
    var d7 := ScanOr(f[6], d6);
    Counters(d1, d2, d3, d4, d5, d6, d7, ScanOr(f[7], d7))
  }

  /** Each counter is what its field says; an unreadable field repeats the counter before it. */
  lemma CountersByField(f: seq<string>, data: int, i: int)
    requires |f| == 8 && 0 <= i < 8
    ensures var c := ScanCounters(f, data);
      Column(c, i) == if ScanInt(f[i]).Some? then ScanInt(f[i]).value else if i == 0 then data else Column(c, i - 1)
  {
  }

  predicate FitsKey(date: string, hour: string) {
    |date| <= DATE_MAX && |hour| <= HOUR_MAX
  }

  /** The rows a token stream spells, ten tokens a row. `None` where the C code has no defined result: a
      line that breaks off (a null token is used) or a key that overruns its field. */
  function ParseRows(tokens: seq<string>, data: int): Option<seq<Row>> {
    if tokens == [] then Some([])
    else if |tokens| < 10 || !FitsKey(tokens[0], tokens[1]) then None
    else
      var count := ScanCounters(tokens[2..10], data);
      Prepend(Row(Key(tokens[0], tokens[1]), count), ParseRows(tokens[10..], count.vinaFull))
  }

  function Prepend(row: Row, rest: Option<seq<Row>>): Option<seq<Row>> {
    if rest.None? then None else Some([row] + rest.value)
  }

  /** Tokens that spell whole rows with readable counters. */
  predicate CleanTokens(tokens: seq<string>) {
    tokens == [] ||
    (|tokens| >= 10 && FitsKey(tokens[0], tokens[1]) && (forall k :: 2 <= k < 10 ==> ScanInt(tokens[k]).Some?) &&
     CleanTokens(tokens[10..]))
  }

  /** A report file: it spells whole rows and does not end inside a line. */
  predicate CleanText(text: string) {
    Closed(text) && CleanTokens(Tokens(text))
  }

  function RowsIn(text: string): seq<Row> {
    ParseRows(Tokens(text), 0).GetOr([])
  }

  /** What `lcs_hcollect005_sum` leaves in the result file: nothing is written when there are no rows. */
  function CollectText(text: string): Option<string> {
    if RowsIn(text) == [] then None else Some(PrintRows(Merged(RowsIn(text))))
  }

  // ----- Reading appended files

  /** With readable counters the value left over from an earlier line plays no part. */
  lemma CleanIgnoresData(a: seq<string>, data: int, data': int)
    requires CleanTokens(a)
    ensures ParseRows(a, data).Some? && ParseRows(a, data) == ParseRows(a, data')
    decreases |a|
  {
  }

  /** Row `i` of a clean stream is spelled by tokens `10i` to `10i + 9`: date, hour, eight counters. */
  lemma {:induction false} RowsByTokens(tokens: seq<string>, data: int, i: int)
    requires CleanTokens(tokens)
    ensures ParseRows(tokens, data).Some? && |tokens| == 10 * |ParseRows(tokens, data).value|
    ensures 0 <= i < |ParseRows(tokens, data).value| ==> SpelledBy(ParseRows(tokens, data).value[i], tokens, 10 * i)
    decreases |tokens|
  {
    if tokens != [] {
      var count := ScanCounters(tokens[2..10], data);
      RowsByTokens(tokens[10..], count.vinaFull, i - 1);
      if i == 0 {
        FirstSpelled(tokens, data, count);
      } else if 0 < i < |ParseRows(tokens, data).value| {
        SpelledLater(ParseRows(tokens, data).value[i], tokens, 10 * (i - 1));
      }
    }
  }

  ghost predicate SpelledBy(r: Row, tokens: seq<string>, at: int) {
    && 0 <= at && at + 10 <= |tokens| && r.key == Key(tokens[at], tokens[at + 1])
    && forall c :: 0 <= c < 8 ==> ScanInt(tokens[at + 2 + c]) == Some(Column(r.count, c))
  }

  lemma FirstSpelled(tokens: seq<string>, data: int, count: Counters)
    requires tokens != [] && CleanTokens(tokens) && count == ScanCounters(tokens[2..10], data)
    ensures SpelledBy(Row(Key(tokens[0], tokens[1]), count), tokens, 0)
  {
    forall c | 0 <= c < 8 ensures ScanInt(tokens[0 + 2 + c]) == Some(Column(count, c)) {
      CountersByField(tokens[2..10], data, c);
      assert tokens[2..10][c] == tokens[0 + 2 + c];
    }
  }

  lemma SpelledLater(r: Row, tokens: seq<string>, at: int)
    requires |tokens| >= 10 && SpelledBy(r, tokens[10..], at)
    ensures SpelledBy(r, tokens, at + 10)
  {
    forall c | 0 <= c < 8 ensures ScanInt(tokens[at + 10 + 2 + c]) == Some(Column(r.count, c)) {
      assert tokens[10..][at + 2 + c] == tokens[at + 10 + 2 + c];
    }
  }

  /** The first line of appended token streams is the first line of the first one. */
  lemma FirstLine(a: seq<string>, b: seq<string>)
    requires |a| >= 10
    ensures (a + b)[10..] == a[10..] + b && (a + b)[2..10] == a[2..10]
    ensures forall k :: 0 <= k < 10 ==> (a + b)[k] == a[k]
  {
  }

  lemma ParseLine(a: seq<string>, b: seq<string>, data: int, count: Counters)
    requires |a| >= 10 && FitsKey(a[0], a[1]) && count == ScanCounters(a[2..10], data)
    ensures ParseRows(a + b, data) == Prepend(Row(Key(a[0], a[1]), count), ParseRows(a[10..] + b, count.vinaFull))
  {
    FirstLine(a, b);
  }

  lemma {:induction false} CleanTokensConcat(a: seq<string>, b: seq<string>)
    requires CleanTokens(a) && CleanTokens(b)
    ensures CleanTokens(a + b)
  {
    if a == [] {
      assert a + b == b;
    } else {
      FirstLine(a, b);
      CleanTokensConcat(a[10..], b);
    }
  }

  lemma {:induction false} ParseConcat(a: seq<string>, b: seq<string>, data: int)
    requires CleanTokens(a) && CleanTokens(b)
    ensures ParseRows(a, data).Some? && ParseRows(b, 0).Some?
    ensures ParseRows(a + b, data) == Some(ParseRows(a, data).value + ParseRows(b, 0).value)
    decreases |a|
  {
    CleanIgnoresData(a, data, 0);
    CleanIgnoresData(b, data, 0);
    if a == [] {
      assert a + b == b;
      assert [] + ParseRows(b, 0).value == ParseRows(b, 0).value;
    } else {
      var count := ScanCounters(a[2..10], data);
      ParseLine(a, b, data, count);
      ParseLine(a, [], data, count);
      assert a + [] == a && a[10..] + [] == a[10..];
      ParseConcat(a[10..], b, count.vinaFull);
      PrependConcat(Row(Key(a[0], a[1]), count), ParseRows(a[10..], count.vinaFull).value, ParseRows(b, 0).value);
    }
  }

  lemma PrependConcat(row: Row, mid: seq<Row>, last: seq<Row>)
    ensures Prepend(row, Some(mid + last)) == Some(Prepend(row, Some(mid)).value + last)
  {
    assert [row] + (mid + last) == [row] + mid + last;
  }

  /** Appending one report file to another appends their rows. */
  lemma CleanConcat(a: string, b: string)
    requires CleanText(a) && CleanText(b)
    ensures CleanText(a + b) && RowsIn(a + b) == RowsIn(a) + RowsIn(b)
  {
    TokensConcat(a, b);
    CleanTokensConcat(Tokens(a), Tokens(b));
    ParseConcat(Tokens(a), Tokens(b), 0);
  }

  // ----- Keys survive the text

  predicate GoodKey(k: Key) {
    IsToken(k.date) && IsToken(k.hour) && FitsKey(k.date, k.hour)
  }

  ghost predicate GoodKeys(rows: seq<Row>) {
    forall i :: 0 <= i < |rows| ==> GoodKey(rows[i].key)
  }

  lemma {:induction false} TokensAreTokens(current: string, text: string)
    requires forall k :: 0 <= k < |current| ==> !IsDelimiter(current[k])
    ensures forall i :: 0 <= i < |TokensFrom(current, text)| ==> IsToken(TokensFrom(current, text)[i])
    decreases |text|
  {
    if text != [] {
      if IsDelimiter(text[0]) {
        TokensAreTokens([], text[1..]);
      } else {
        TokensAreTokens(current + [text[0]], text[1..]);
      }
    }
  }

  lemma {:induction false} ParsedKeysGood(tokens: seq<string>, data: int)
    requires forall i :: 0 <= i < |tokens| ==> IsToken(tokens[i])
    ensures ParseRows(tokens, data).Some? ==> GoodKeys(ParseRows(tokens, data).value)
  {
    if |tokens| >= 10 && FitsKey(tokens[0], tokens[1]) {
      assert forall i :: 0 <= i < |tokens| - 10 ==> tokens[10..][i] == tokens[i + 10];
      ParsedKeysGood(tokens[10..], ScanCounters(tokens[2..10], data).vinaFull);
    }
  }

  lemma MergedKeysGood(rows: seq<Row>)
    requires GoodKeys(rows)
    ensures GoodKeys(Merged(rows))
  {
    MergedIsMerge(rows);
    forall i | 0 <= i < |Merged(rows)| ensures GoodKey(Merged(rows)[i].key) {
      assert HasKey(Merged(rows), Merged(rows)[i].key);
      assert HasKey(rows, Merged(rows)[i].key);
    }
  }

  lemma RowsInGood(text: string)
    ensures GoodKeys(RowsIn(text)) && GoodKeys(Merged(RowsIn(text)))
  {
    TokensAreTokens([], text);
    ParsedKeysGood(Tokens(text), 0);
    MergedKeysGood(RowsIn(text));
  }

  // ----- The text itself

  function Tab(field: string, rest: string): string {
    field + ("\t" + rest)
  }

  /** A line as it is written: date, hour and the eight counters, tabs between them, a newline at the end. */
  function LineOf(k: Key, c: Counters): string {
    Tab(k.date, Tab(k.hour, Tab(PrintInt(c.totalCall), Tab(PrintInt(c.totalFullChannel), Tab(PrintInt(c.viettelAuto),
      Tab(PrintInt(c.viettelFull), Tab(PrintInt(c.mobileAuto), Tab(PrintInt(c.mobileFull), Tab(PrintInt(c.vinaAuto),
      PrintInt(c.vinaFull) + "\n")))))))))
  }

  lemma RowIsLine(r: Row)
    ensures PrintRow(r) == LineOf(r.key, r.count)
  {
    TenFields(Fields(r));
  }

  /** A file is its lines, one after the other. */
  lemma RowsAreLines(r: Row, rest: seq<Row>)
    ensures PrintRows([]) == "" && PrintRows([r] + rest) == LineOf(r.key, r.count) + PrintRows(rest)
  {
    RowIsLine(r);
    assert ([r] + rest)[1..] == rest && Lines([r] + rest)[1..] == Lines(rest);
  }

  lemma TenFields(f: seq<string>)
    requires |f| == 10
    ensures PrintFields(f) == Tab(f[0], Tab(f[1], Tab(f[2], Tab(f[3], Tab(f[4], Tab(f[5], Tab(f[6], Tab(f[7], Tab(f[8], f[9] + "\n")))))))))
  {
    LastFive(f);
    PrintField(f, 0);
    PrintField(f, 1);
    PrintField(f, 2);
    PrintField(f, 3);
    PrintField(f, 4);
    assert f[0..] == f;
  }

  lemma LastFive(f: seq<string>)
    requires |f| == 10
    ensures PrintFields(f[5..]) == Tab(f[5], Tab(f[6], Tab(f[7], Tab(f[8], f[9] + "\n"))))
  {
    PrintField(f, 5);
    PrintField(f, 6);
    PrintField(f, 7);
    PrintField(f, 8);
    PrintField(f, 9);
    assert PrintFields(f[10..]) == "" && "\n" + "" == "\n";
  }

  /** The newline at the end of a line is its only one. */
  lemma {:induction false} OnlyNewline(fields: seq<string>)
    requires fields != [] && forall k :: 0 <= k < |fields| ==> IsToken(fields[k])
    ensures var text := PrintFields(fields);
      text != "" && text[|text| - 1] == '\n' && forall k :: 0 <= k < |text| - 1 ==> text[k] != '\n'
  {
    var text, rest := PrintFields(fields), PrintFields(fields[1..]);
    PrintField(fields, 0);
    assert fields[0..] == fields;
    if |fields| > 1 {
      OnlyNewline(fields[1..]);
      assert text == fields[0] + ("\t" + rest);
      AfterField(fields[0], "\t", rest);
    } else {
      assert text == fields[0] + ("\n" + rest) && rest == "";
      assert "\n" + rest == "\n";
    }
  }

  lemma AfterField(field: string, tab: string, rest: string)
    requires IsToken(field) && tab == "\t" && rest != "" && forall k :: 0 <= k < |rest| - 1 ==> rest[k] != '\n'
    ensures var text := field + (tab + rest);
      text[|text| - 1] == rest[|rest| - 1] && forall k :: 0 <= k < |text| - 1 ==> text[k] != '\n'
  {
    var text := field + (tab + rest);
    forall k | 0 <= k < |text| - 1 ensures text[k] != '\n' {
      if k < |field| {
        assert text[k] == field[k] && !IsDelimiter(field[k]);
      } else if k > |field| {
        assert text[k] == rest[k - |field| - 1];
      }
    }
  }

  lemma PrintField(fields: seq<string>, i: int)
    requires 0 <= i < |fields|
    ensures PrintFields(fields[i..]) == fields[i] + ((if i == |fields| - 1 then "\n" else "\t") + PrintFields(fields[i + 1..]))
  {
    assert fields[i..][1..] == fields[i + 1..];
  }

  // ----- Printing and reading back

  lemma {:induction false} FieldsRoundTrip(fields: seq<string>, rest: string)
    requires forall k :: 0 <= k < |fields| ==> IsToken(fields[k])
    ensures Tokens(PrintFields(fields) + rest) == fields + Tokens(rest)
  {
    if fields == [] {
      assert PrintFields(fields) + rest == rest && fields + Tokens(rest) == Tokens(rest);
    } else {
      var tail := FirstField(fields, rest);
      TokenFirst([], fields[0], tail);
      FieldsRoundTrip(fields[1..], rest);
      assert [fields[0]] + (fields[1..] + Tokens(rest)) == fields + Tokens(rest);
      assert [] + fields[0] == fields[0];
    }
  }

  lemma FirstField(fields: seq<string>, rest: string) returns (tail: string)
    requires fields != []
    ensures PrintFields(fields) + rest == fields[0] + tail
    ensures tail != [] && IsDelimiter(tail[0]) && tail[1..] == PrintFields(fields[1..]) + rest
  {
    var separator, others := [if |fields| == 1 then '\n' else '\t'], PrintFields(fields[1..]);
    tail := separator + others + rest;
    assert fields[0] + separator + others + rest == fields[0] + tail;
    assert tail[1..] == others + rest;
  }

  lemma FieldReads(r: Row, k: int)
    requires GoodKey(r.key) && 0 <= k < 10
    ensures IsToken(Fields(r)[k]) && (k >= 2 ==> ScanInt(Fields(r)[k]) == Some(Column(r.count, k - 2)))
  {
    if k >= 2 {
      PrintScan(Column(r.count, k - 2));
    }
  }

  lemma CountersRead(f: seq<string>, c: Counters, data: int)
    requires |f| == 8 && forall i :: 0 <= i < 8 ==> ScanInt(f[i]) == Some(Column(c, i))
    ensures ScanCounters(f, data) == c
  {
  }

  lemma RowFields(r: Row, data: int)
    requires GoodKey(r.key)
    ensures forall k :: 0 <= k < 10 ==> IsToken(Fields(r)[k])
    ensures forall k :: 2 <= k < 10 ==> ScanInt(Fields(r)[k]).Some?
    ensures ScanCounters(Fields(r)[2..10], data) == r.count
  {
    var f := Fields(r);
    forall k | 0 <= k < 10 ensures IsToken(f[k]) && (k >= 2 ==> ScanInt(f[k]) == Some(Column(r.count, k - 2))) {
      FieldReads(r, k);
    }
    forall i | 0 <= i < 8 ensures ScanInt(f[2..10][i]) == Some(Column(r.count, i)) {
      assert f[2..10][i] == f[i + 2];
    }
    CountersRead(f[2..10], r.count, data);
  }

  /** Rows with usable keys come back from their text exactly as they were. */
  lemma {:induction false} RowsRoundTrip(rows: seq<Row>)
    requires GoodKeys(rows)
    ensures CleanText(PrintRows(rows)) && RowsIn(PrintRows(rows)) == rows
  {
    if rows != [] {
      RowsRoundTrip(rows[1..]);
      LineRoundTrip(rows[0]);
      CleanConcat(PrintRow(rows[0]), PrintRows(rows[1..]));
      assert Lines(rows)[1..] == Lines(rows[1..]) && Lines(rows)[0] == PrintRow(rows[0]);
      assert rows == [rows[0]] + rows[1..];
    }
  }

  lemma LineRoundTrip(r: Row)
    requires GoodKey(r.key)
    ensures CleanText(PrintRow(r)) && RowsIn(PrintRow(r)) == [r]
  {
    var f := Fields(r);
    RowFields(r, 0);
    FieldsRoundTrip(f, "");
    assert PrintFields(f) + "" == PrintFields(f) && f + Tokens("") == f;
    FieldsClosed(f);
    ParseLine(f, [], 0, r.count);
    assert f[10..] + [] == [] && f + [] == f && ParseRows([], r.count.vinaFull) == Some([]);
    assert Key(f[0], f[1]) == r.key && [r] + [] == [r];
  }

  lemma {:induction false} FieldsClosed(fields: seq<string>)
    ensures Closed(PrintFields(fields))
  {
    if |fields| > 1 {
      FieldsClosed(fields[1..]);
    } else if |fields| == 1 {
      assert PrintFields(fields[1..]) == "";
    }
  }
}
