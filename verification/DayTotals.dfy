/** The daily call totals: every line of every hour file, text in and text out, adds a count to one of four dispositions. */
module DayTotals {
  import opened Text

  const WORD32 := 0x1_0000_0000
  const KEYS := ["ANSWERED", "BUSY", "FAILED", "NO ANSWER"]

  const LINE_DELIMITERS := "\r\n"

  /** The lines of a file, as `strtok` cuts them: empty lines vanish. */
  function Lines(text: string): seq<string> {
    Tokens(text, LINE_DELIMITERS)
  }

  // ----- One line, as `sscanf(line, "%lu\t%s\t", ..)` reads it

  function SkipBlanks(s: string): string {
    if s != [] && IsSpace(s[0]) then SkipBlanks(s[1..]) else s
  }

  function SkipDigits(s: string): string {
    if s != [] && IsDigit(s[0]) then SkipDigits(s[1..]) else s
  }

  /** What follows the number at the start of a line. */
  function AfterNumber(s: string): string {
    var t := SkipBlanks(s);
    SkipDigits(if t != [] && (t[0] == '-' || t[0] == '+') then t[1..] else t)
  }

  /** The characters up to the next blank. */
  function Word(s: string): string {
    if s != [] && !IsSpace(s[0]) then [s[0]] + Word(s[1..]) else []
  }

  function LineCount(line: string): int {
    ScanInt(line).GetOr(0)
  }

  /** The name on a line; empty when the line does not start with a number. */
  function LineName(line: string): string {
    if ScanInt(line).None? then [] else Word(SkipBlanks(AfterNumber(line)))
  }

  /** The first disposition that starts with the name, or 4. */
  function KeyFrom(name: string, j: int): int
    requires 0 <= j <= 4
    decreases 4 - j
  {
    if j == 4 then 4 else if name <= KEYS[j] then j else KeyFrom(name, j + 1)
  }

  function KeyOf(name: string): int {
    if name == [] then 4 else KeyFrom(name, 0)
  }

  // ----- Totals

  /** What the lines say about disposition `j`. */
  function Sum(lines: seq<string>, j: int): int {
    if lines == [] then 0
    else Sum(lines[..|lines| - 1], j) + if KeyOf(LineName(lines[|lines| - 1])) == j then LineCount(lines[|lines| - 1]) else 0
  }

  /** The counters `now` are `before` plus what the lines add, at the width of an `unsigned int`. */
  ghost predicate Collected(before: seq<int>, now: seq<int>, lines: seq<string>) {
    |before| == |now| == 5 && forall j :: 0 <= j < 4 ==> now[j] == (before[j] + Sum(lines, j)) % WORD32
  }

  lemma AddMod(a: int, c: int)
    ensures (a % WORD32 + c) % WORD32 == (a + c) % WORD32
  {
  }

  /** The counters after one line. */
  function Stepped(now: seq<int>, line: string): seq<int>
    requires |now| == 5
  {
    var k := KeyOf(LineName(line));
    if 0 <= k < 4 then now[k := (now[k] + LineCount(line)) % WORD32] else now
  }

  /** One line adds its count to its disposition, and nothing to the others. */
  lemma CollectStep(before: seq<int>, now: seq<int>, lines: seq<string>, i: int)
    requires 0 <= i < |lines| && Collected(before, now, lines[..i])
    ensures Collected(before, Stepped(now, lines[i]), lines[..i + 1])
  {
    var k, c := KeyOf(LineName(lines[i])), LineCount(lines[i]);
    forall j | 0 <= j < 4 ensures Sum(lines[..i + 1], j) == Sum(lines[..i], j) + if k == j then c else 0 {
      assert lines[..i + 1][..i] == lines[..i];
    }
    if 0 <= k < 4 { AddMod(before[k] + Sum(lines[..i], k), c); }
  }

  /** The body of the line loop. */
  method CollectLine(line: string, counts: array<int>)
    requires counts.Length == 5
    modifies counts
    ensures counts[..] == Stepped(old(counts[..]), line)
  {
    var count, name := LineCount(line), LineName(line);
    if name != [] {
      var j := FindKey(name);
      if j < 4 {
        counts[j] := (counts[j] + count) % WORD32;
      }
    }
  }

  /** `lcs_hcollect_sum` on the text of one file. */
  method CollectLines(text: string, counts: array<int>)
    requires counts.Length == 5 && forall j :: 0 <= j < 5 ==> 0 <= counts[j] < WORD32
    modifies counts
    ensures Collected(old(counts[..]), counts[..], Lines(text))
    ensures counts[..][4] == old(counts[..])[4]
  {
    var lines := Lines(text);
    var i := 0;
    while i < |lines|
      invariant 0 <= i <= |lines| && counts[..][4] == old(counts[..])[4]
      invariant Collected(old(counts[..]), counts[..], lines[..i])
    {
      CollectStep(old(counts[..]), counts[..], lines, i);
      CollectLine(lines[i], counts);
      i := i + 1;
    }
    assert lines[..i] == lines;
  }

  method FindKey(name: string) returns (j: int)
    requires name != []
    ensures j == KeyOf(name) && 0 <= j <= 4
  {
    j := 0;
    while j < 4
      invariant 0 <= j <= 4 && KeyFrom(name, j) == KeyOf(name)
    {
      if name <= KEYS[j] {
        return;
      }
      j := j + 1;
    }
  }

  /** The line that a job writes for disposition `j`. */
  function TotalLine(count: nat, j: int): string
    requires 0 <= j < 4
  {
    Digits(count) + ("\t" + KEYS[j])
  }

  /** The lines from disposition `j` on, each with its newline. */
  function PrintTotals(counts: seq<nat>, j: int): string
    requires |counts| == 4 && 0 <= j <= 4
    decreases 4 - j
  {
    if j == 4 then "" else TotalLine(counts[j], j) + ("\n" + PrintTotals(counts, j + 1))
  }

  /** All lines of all files for one disposition; a file that is missing has none. */
  function SumFiles(files: seq<Option<string>>, j: int): int {
    if files == [] then 0 else SumFiles(files[..|files| - 1], j) + Sum(Lines(files[|files| - 1].GetOr("")), j)
  }

  /** The day's counters after some files. */
  ghost predicate DayCounts(counts: seq<int>, files: seq<Option<string>>) {
    |counts| == 5 && counts[4] == 0 && forall j :: 0 <= j < 4 ==> counts[j] == SumFiles(files, j) % WORD32
  }

  lemma DayStep(before: seq<int>, now: seq<int>, files: seq<Option<string>>, i: int)
    requires 0 <= i < |files| && DayCounts(before, files[..i])
    requires Collected(before, now, Lines(files[i].GetOr(""))) && now[4] == 0
    ensures DayCounts(now, files[..i + 1])
  {
    assert files[..i + 1][..i] == files[..i];
    forall j | 0 <= j < 4 ensures now[j] == SumFiles(files[..i + 1], j) % WORD32 {
      AddMod(SumFiles(files[..i], j), Sum(Lines(files[i].GetOr("")), j));
    }
  }

  /** Add one hour file, unless it is missing or empty. */
  method CollectFile(file: Option<string>, counts: array<int>)
    requires counts.Length == 5 && forall j :: 0 <= j < 5 ==> 0 <= counts[j] < WORD32
    modifies counts
    ensures Collected(old(counts[..]), counts[..], Lines(file.GetOr("")))
    ensures counts[..][4] == old(counts[..])[4]
  {
    if file.Some? && file.value != "" {
      CollectLines(file.value, counts);
    } else {
      assert Lines(file.GetOr("")) == [];
    }
  }

  /** The part of the day job after its barrier: collect every hour file and write the four totals. */
  method DayJob(files: seq<Option<string>>) returns (result: string)
    ensures result == PrintTotals([SumFiles(files, 0) % 4294967296, SumFiles(files, 1) % 4294967296,
                                   SumFiles(files, 2) % 4294967296, SumFiles(files, 3) % 4294967296], 0)
  {
    var counts := new int[5](_ => 0);
    var i := 0;
    while i < |files|
      invariant 0 <= i <= |files| && DayCounts(counts[..], files[..i])
    {
      ghost var before := counts[..];
      assert forall j :: 0 <= j < 5 ==> counts[j] == before[j];
      CollectFile(files[i], counts);
      DayStep(before, counts[..], files, i);
      i := i + 1;
    }
    assert files[..i] == files;
    ghost var final := counts[..];
    assert counts[0] == final[0] && counts[1] == final[1] && counts[2] == final[2] && counts[3] == final[3];
    result := WriteTotals([counts[0], counts[1], counts[2], counts[3]]);
  }

  lemma Regroup(text: string, line: string, end: string, rest: string)
    ensures text + (line + (end + rest)) == text + line + end + rest
  {
    assert text + (line + (end + rest)) == text + line + (end + rest);
  }

  method WriteTotals(counts: seq<nat>) returns (text: string)
    requires |counts| == 4
    ensures text == PrintTotals(counts, 0)
  {
    text := "";
    var i := 0;
    while i < 4
      invariant 0 <= i <= 4 && text + PrintTotals(counts, i) == PrintTotals(counts, 0)
    {
      var line := TotalLine(counts[i], i);
      Regroup(text, line, "\n", PrintTotals(counts, i + 1));
      text := text + line + "\n";
      i := i + 1;
    }
  }

  /** Sums that fit the counters are printed as they are. */
  lemma SmallSumsUnreduced(s0: int, s1: int, s2: int, s3: int)
    requires 0 <= s0 < 4294967296 && 0 <= s1 < 4294967296 && 0 <= s2 < 4294967296 && 0 <= s3 < 4294967296
    ensures PrintTotals([s0 % 4294967296, s1 % 4294967296, s2 % 4294967296, s3 % 4294967296], 0) == PrintTotals([s0, s1, s2, s3], 0)
  {
    var reduced: seq<nat> := [s0 % 4294967296, s1 % 4294967296, s2 % 4294967296, s3 % 4294967296];
    var sums: seq<nat> := [s0, s1, s2, s3];
    assert reduced == sums;
  }

  /** The text of the four totals, written out. */
  lemma TotalsText(counts: seq<nat>)
    requires |counts| == 4
    ensures PrintTotals(counts, 0) ==
      Digits(counts[0]) + ("\tANSWERED\n" + (Digits(counts[1]) + ("\tBUSY\n" +
      (Digits(counts[2]) + ("\tFAILED\n" + (Digits(counts[3]) + "\tNO ANSWER\n"))))))
  {
    TotalText(counts, 0);
    TotalText(counts, 1);
    TotalText(counts, 2);
    TotalText(counts, 3);
    assert End(3) + PrintTotals(counts, 4) == End(3);
  }

  function End(j: int): string {
    if j == 0 then "\tANSWERED\n" else if j == 1 then "\tBUSY\n" else if j == 2 then "\tFAILED\n" else "\tNO ANSWER\n"
  }

  lemma KeyEnds(j: int)
    requires 0 <= j < 4
    ensures "\t" + KEYS[j] + "\n" == End(j)
  {
  }

  lemma TotalText(counts: seq<nat>, j: int)
    requires |counts| == 4 && 0 <= j < 4
    ensures PrintTotals(counts, j) == Digits(counts[j]) + (End(j) + PrintTotals(counts, j + 1))
  {
    KeyEnds(j);
    Behind(Digits(counts[j]), "\t" + KEYS[j], "\n", PrintTotals(counts, j + 1));
  }

  lemma Behind(d: string, key: string, newline: string, rest: string)
    ensures d + key + (newline + rest) == d + (key + newline + rest)
  {
    assert key + newline + rest == key + (newline + rest);
  }

  /** A name stands for the disposition that begins with it; no two begin alike. */
  lemma KeyOfName(name: string)
    ensures KeyOf(name) == 0 <==> name != "" && name <= "ANSWERED"
    ensures KeyOf(name) == 1 <==> name != "" && name <= "BUSY"
    ensures KeyOf(name) == 2 <==> name != "" && name <= "FAILED"
    ensures KeyOf(name) == 3 <==> name != "" && name <= "NO ANSWER"
    ensures 0 <= KeyOf(name) <= 4
  {
    assert KEYS[0] == "ANSWERED" && KEYS[1] == "BUSY" && KEYS[2] == "FAILED" && KEYS[3] == "NO ANSWER";
    if name != "" {
      assert name <= "ANSWERED" ==> name[0] == 'A';
      assert name <= "BUSY" ==> name[0] == 'B';
      assert name <= "FAILED" ==> name[0] == 'F';
      assert name <= "NO ANSWER" ==> name[0] == 'N';
      assert KeyFrom(name, 3) == if name <= "NO ANSWER" then 3 else 4;
      assert KeyFrom(name, 2) == if name <= "FAILED" then 2 else KeyFrom(name, 3);
      assert KeyFrom(name, 1) == if name <= "BUSY" then 1 else KeyFrom(name, 2);
    }
  }

  /** A line of digits, a tab and a name counts that number for that name, whatever follows a blank. */
  lemma LineReads(d: string, name: string, rest: string, tail: string)
    requires d != "" && forall k :: 0 <= k < |d| ==> IsDigit(d[k])
    requires name != "" && forall k :: 0 <= k < |name| ==> !IsSpace(name[k])
    requires rest == "" || IsSpace(rest[0])
    requires tail == "\t" + (name + rest)
    ensures LineCount(d + tail) == ScanInt(d).GetOr(-1) && LineName(d + tail) == name
  {
    CountReads(d, tail);
    NumberSkipped(d, tail);
    TailName(name, rest, tail);
  }

  lemma CountReads(d: string, tail: string)
    requires d != "" && (forall k :: 0 <= k < |d| ==> IsDigit(d[k])) && tail != "" && tail[0] == '\t'
    ensures ScanInt(d).Some? && ScanInt(d + tail) == ScanInt(d)
  {
    ScanNumber(d, tail);
    ScanNumber(d, "");
    assert d + "" == d;
  }

  lemma NumberSkipped(d: string, tail: string)
    requires d != "" && (forall k :: 0 <= k < |d| ==> IsDigit(d[k])) && tail != "" && tail[0] == '\t'
    ensures AfterNumber(d + tail) == tail
  {
    assert (d + tail)[0] == d[0] && IsDigit(d[0]);
    DigitsPrefix(d, tail);
  }

  lemma TailName(name: string, rest: string, tail: string)
    requires name != "" && forall k :: 0 <= k < |name| ==> !IsSpace(name[k])
    requires rest == "" || IsSpace(rest[0])
    requires tail == "\t" + (name + rest)
    ensures Word(SkipBlanks(tail)) == name
  {
    assert tail[1..] == name + rest && (name + rest)[0] == name[0];
    assert SkipBlanks(tail) == SkipBlanks(name + rest) == name + rest;
    WordOf(name + rest, |name|);
    assert (name + rest)[..|name|] == name;
  }

  /** A line that does not start with a number counts for nothing. */
  lemma NoNumberNoCount(line: string, j: int)
    requires ScanInt(line).None? && 0 <= j < 4
    ensures KeyOf(LineName(line)) != j
  {
  }

  // ----- Reading back what was written

  lemma {:induction false} DigitsPrefix(d: string, rest: string)
    requires forall k :: 0 <= k < |d| ==> IsDigit(d[k])
    requires rest == [] || !IsDigit(rest[0])
    ensures SkipDigits(d + rest) == rest
  {
    if d == [] {
      assert d + rest == rest;
    } else {
      assert (d + rest)[1..] == d[1..] + rest;
      DigitsPrefix(d[1..], rest);
    }
  }

  lemma {:induction false} WordOf(s: string, n: nat)
    requires n <= |s| && forall k :: 0 <= k < n ==> !IsSpace(s[k])
    requires n == |s| || IsSpace(s[n])
    ensures Word(s) == s[..n]
  {
    if n > 0 {
      WordOf(s[1..], n - 1);
      assert s[..n] == [s[0]] + s[1..][..n - 1];
    }
  }

  /** How much of each disposition `%s` reads: the last one has two words. */
  function NameLength(j: int): int
    requires 0 <= j < 4
  {
    if j == 0 then 8 else if j == 1 then 4 else if j == 2 then 6 else 2
  }

  lemma KeyNames(j: int)
    requires 0 <= j < 4
    ensures NameLength(j) <= |KEYS[j]| && forall k :: 0 <= k < NameLength(j) ==> !IsSpace(KEYS[j][k])
    ensures NameLength(j) == |KEYS[j]| || IsSpace(KEYS[j][NameLength(j)])
    ensures KeyOf(KEYS[j][..NameLength(j)]) == j
  {
    var name := KEYS[j][..NameLength(j)];
    assert name[0] == KEYS[j][0];
    assert KEYS[0][0] == 'A' && KEYS[1][0] == 'B' && KEYS[2][0] == 'F' && KEYS[3][0] == 'N';
    assert forall i :: 0 <= i < j ==> !(name <= KEYS[i]);
    KeyFromSkips(name, 0, j);
  }

  lemma KeyFromSkips(name: string, i: int, j: int)
    requires 0 <= i <= j < 4 && name <= KEYS[j] && forall k :: i <= k < j ==> !(name <= KEYS[k])
    ensures KeyFrom(name, i) == j
    decreases j - i
  {
  }

  /** A total reads back as the same count for the same disposition. */
  lemma TotalRoundTrip(count: nat, j: int)
    requires 0 <= j < 4
    ensures LineCount(TotalLine(count, j)) == count && KeyOf(LineName(TotalLine(count, j))) == j
  {
    var d, rest := Digits(count), "\t" + KEYS[j];
    DigitsScan(count);
    var line := d + rest;
    assert line[0] == d[0] && IsDigit(d[0]);
    ScanDigitsConcat(d, rest, 0);
    assert SkipBlanks(line) == line;
    DigitsPrefix(d, rest);
    assert rest[1..] == KEYS[j];
    KeyNames(j);
    assert SkipBlanks(rest) == KEYS[j];
    WordOf(KEYS[j], NameLength(j));
  }

  lemma TotalLineToken(count: nat, j: int)
    requires 0 <= j < 4
    ensures IsToken(TotalLine(count, j), LINE_DELIMITERS)
  {
    DigitsScan(count);
    KeyLetters(j);
    var d, rest := Digits(count), "\t" + KEYS[j];
    forall k | 0 <= k < |d + rest| ensures !IsDelimiter((d + rest)[k], LINE_DELIMITERS) {
      if k < |d| { assert IsDigit(d[k]); } else { assert (d + rest)[k] == rest[k - |d|]; }
    }
  }

  lemma KeyLetters(j: int)
    requires 0 <= j < 4
    ensures forall k :: 0 <= k < |KEYS[j]| ==> !IsDelimiter(KEYS[j][k], LINE_DELIMITERS)
  {
  }

  /** The lines printed from disposition `j` on are read back as they were. */
  lemma PrintedLines(counts: seq<nat>, j: int)
    requires |counts| == 4 && 0 <= j < 4
    ensures Lines(PrintTotals(counts, j)) == [TotalLine(counts[j], j)] + Lines(PrintTotals(counts, j + 1))
  {
    var line, rest := TotalLine(counts[j], j), "\n" + PrintTotals(counts, j + 1);
    TotalLineToken(counts[j], j);
    TokenFirst([], line, rest, LINE_DELIMITERS);
    assert [] + line == line && rest[1..] == PrintTotals(counts, j + 1);
  }

  lemma {:induction false} SumConcat(a: seq<string>, b: seq<string>, j: int)
    ensures Sum(a + b, j) == Sum(a, j) + Sum(b, j)
  {
    if b == [] {
      assert a + b == a;
    } else {
      assert (a + b)[..|a + b| - 1] == a + b[..|b| - 1];
      SumConcat(a, b[..|b| - 1], j);
    }
  }

  /** The text of a file contributes exactly its four totals. */
  lemma {:induction false} FileRoundTrip(counts: seq<nat>, i: int, j: int)
    requires |counts| == 4 && 0 <= i <= 4 && 0 <= j < 4
    ensures Sum(Lines(PrintTotals(counts, i)), j) == if i <= j then counts[j] else 0
    decreases 4 - i
  {
    if i < 4 {
      var line := TotalLine(counts[i], i);
      PrintedLines(counts, i);
      SumConcat([line], Lines(PrintTotals(counts, i + 1)), j);
      assert [line][..0] == [];
      TotalRoundTrip(counts[i], i);
      FileRoundTrip(counts, i + 1, j);
    }
  }

  function ColumnSum(hours: seq<seq<nat>>, j: int): int
    requires 0 <= j < 4 && forall h :: 0 <= h < |hours| ==> |hours[h]| == 4
  {
    if hours == [] then 0 else ColumnSum(hours[..|hours| - 1], j) + hours[|hours| - 1][j]
  }

  /** The day's totals over the texts that the hour jobs wrote are the sums of the hours' totals. */
  lemma {:induction false} DayIsSumOfHours(hours: seq<seq<nat>>, files: seq<Option<string>>, j: int)
    requires 0 <= j < 4 && |files| == |hours|
    requires forall h :: 0 <= h < |hours| ==> |hours[h]| == 4
    requires forall h :: 0 <= h < |hours| ==> files[h] == Some(PrintTotals(hours[h], 0))
    ensures SumFiles(files, j) == ColumnSum(hours, j)
  {
    if hours != [] {
      var n := |hours| - 1;
      DayIsSumOfHours(hours[..n], files[..n], j);
      FileRoundTrip(hours[n], 0, j);
    }
  }
}
