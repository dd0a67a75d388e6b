/** The pieces of the C library that the reporting code relies on, as functions on strings without NUL:
    `strcmp`, `strtok` with a set of delimiters, and `%d` in `printf` and `sscanf`. */
module Text {

  datatype Option<+T> = None | Some(value: T) {
    function GetOr(default: T): T {
      if Some? then value else default
    }
  }

  /** An `unsigned char`. */
  type byte = b: int | 0 <= b < 256

  // ----- strcmp

  function Strcmp(a: string, b: string): int {
    if a == [] && b == [] then 0
    else if a == [] then -1
    else if b == [] then 1
    else if a[0] != b[0] then a[0] as int - b[0] as int
    else Strcmp(a[1..], b[1..])
  }

  lemma {:induction false} StrcmpMirrored(a: string, b: string)
    ensures Strcmp(a, b) < 0 <==> Strcmp(b, a) > 0
    ensures Strcmp(a, b) == 0 <==> a == b
    decreases |a| + |b|
  {
    if a != [] && b != [] {
      StrcmpMirrored(a[1..], b[1..]);
      StrcmpMirrored(b[1..], a[1..]);
      assert a == [a[0]] + a[1..] && b == [b[0]] + b[1..];
    }
  }

  lemma {:induction false} StrcmpTransitive(a: string, b: string, c: string)
    requires Strcmp(a, b) <= 0 && Strcmp(b, c) <= 0
    ensures Strcmp(a, c) <= 0
    ensures Strcmp(a, b) < 0 || Strcmp(b, c) < 0 ==> Strcmp(a, c) < 0
  {
    if a != [] && b != [] && c != [] && a[0] == b[0] == c[0] {
      StrcmpTransitive(a[1..], b[1..], c[1..]);
    }
  }

  /** `a` comes before `b` in a dictionary: it is a proper prefix, or it has the smaller character where
      they first differ. */
  ghost predicate Before(a: string, b: string) {
    exists n :: SameUpTo(a, b, n) && (if n < |a| && n < |b| then a[n] < b[n] else n == |a| < |b|)
  }

  ghost predicate SameUpTo(a: string, b: string, n: int) {
    0 <= n <= |a| && n <= |b| && forall k :: 0 <= k < n ==> a[k] == b[k]
  }

  /** `strcmp` is negative exactly on strings in dictionary order. */
  lemma {:induction false} StrcmpIsDictionaryOrder(a: string, b: string)
    ensures Strcmp(a, b) < 0 <==> Before(a, b)
  {
    if a == [] || b == [] || a[0] != b[0] {
      assert SameUpTo(a, b, 0);
    } else {
      StrcmpIsDictionaryOrder(a[1..], b[1..]);
      if Before(a[1..], b[1..]) {
        var n :| SameUpTo(a[1..], b[1..], n) && (if n < |a| - 1 && n < |b| - 1 then a[1..][n] < b[1..][n] else n == |a| - 1 < |b| - 1);
        assert forall k :: 0 <= k < n ==> a[k + 1] == a[1..][k] == b[1..][k] == b[k + 1];
        assert SameUpTo(a, b, n + 1);
      }
      if Before(a, b) {
        var n :| SameUpTo(a, b, n) && (if n < |a| && n < |b| then a[n] < b[n] else n == |a| < |b|);
        assert SameUpTo(a[1..], b[1..], n - 1);
      }
    }
  }

  // ----- strtok

  const FIELD_DELIMITERS := "\t\n"

  predicate IsDelimiter(c: char, delims: string := FIELD_DELIMITERS) { c in delims }

  /** A token `strtok` can return: not empty, and free of delimiters. */
  predicate IsToken(s: string, delims: string := FIELD_DELIMITERS) {
    s != [] && forall k :: 0 <= k < |s| ==> !IsDelimiter(s[k], delims)
  }

  function Flush(current: string): seq<string> {
    if current == [] then [] else [current]
  }

  /** The tokens of `text`, where `current` is the part of a token already read. */
  function TokensFrom(current: string, text: string, delims: string := FIELD_DELIMITERS): seq<string>
    decreases |text|
  {
    if text == [] then Flush(current)
    else if IsDelimiter(text[0], delims) then Flush(current) + TokensFrom([], text[1..], delims)
    else TokensFrom(current + [text[0]], text[1..], delims)
  }

  /** What `strtok` delivers until it returns null; delimiters in a row count once. */
  function Tokens(text: string, delims: string := FIELD_DELIMITERS): seq<string> {
    TokensFrom([], text, delims)
  }

  /** A text that a file can be appended to without gluing two tokens together. */
  predicate Closed(text: string, delims: string := FIELD_DELIMITERS) {
    text == [] || IsDelimiter(text[|text| - 1], delims)
  }

  lemma {:induction false} TokensFromConcat(current: string, a: string, b: string, delims: string := FIELD_DELIMITERS)
    requires Closed(a, delims) && (a == [] ==> current == [])
    ensures TokensFrom(current, a + b, delims) == TokensFrom(current, a, delims) + Tokens(b, delims)
    decreases |a|
  {
    if a == [] {
      assert a + b == b;
    } else {
      assert (a + b)[1..] == a[1..] + b;
      assert a[1..] != [] ==> a[1..][|a[1..]| - 1] == a[|a| - 1];
      if IsDelimiter(a[0], delims) {
        TokensFromConcat([], a[1..], b, delims);
      } else {
        TokensFromConcat(current + [a[0]], a[1..], b, delims);
      }
    }
  }

  /** Appending files keeps their tokens apart as long as the first one is closed. */
  lemma TokensConcat(a: string, b: string, delims: string := FIELD_DELIMITERS)
    requires Closed(a, delims)
    ensures Tokens(a + b, delims) == Tokens(a, delims) + Tokens(b, delims)
    ensures Closed(b, delims) ==> Closed(a + b, delims)
  {
    TokensFromConcat([], a, b, delims);
  }

  lemma {:induction false} TokenFirst(current: string, token: string, rest: string, delims: string := FIELD_DELIMITERS)
    requires current + token != []
    requires forall k :: 0 <= k < |token| ==> !IsDelimiter(token[k], delims)
    requires rest != [] && IsDelimiter(rest[0], delims)
    ensures TokensFrom(current, token + rest, delims) == [current + token] + Tokens(rest[1..], delims)
    decreases |token|
  {
    if token == [] {
      assert token + rest == rest && current + token == current;
    } else {
      assert (token + rest)[1..] == token[1..] + rest;
      assert current + [token[0]] + token[1..] == current + token;
      TokenFirst(current + [token[0]], token[1..], rest, delims);
    }
  }

  // ----- %d

  predicate IsDigit(c: char) { '0' <= c <= '9' }

  predicate IsSpace(c: char) {
    c == ' ' || c == '\t' || c == '\n' || c == '\r' || c as int == 11 || c as int == 12
  }

  function Digit(d: int): char
    requires 0 <= d < 10
  {
    '0' + d as char
  }

  function Digits(n: nat): string {
    if n < 10 then [Digit(n)] else Digits(n / 10) + [Digit(n % 10)]
  }

  function PrintInt(n: int): string {
    if n < 0 then "-" + Digits(-n) else Digits(n)
  }

  function ScanDigits(s: string, acc: int): int {
    if s != [] && IsDigit(s[0]) then ScanDigits(s[1..], acc * 10 + (s[0] as int - '0' as int)) else acc
  }

  function ScanUnsigned(s: string): Option<int> {
    if s != [] && IsDigit(s[0]) then Some(ScanDigits(s, 0)) else None
  }

  /** `sscanf(s, "%d", ..)`: blanks, an optional sign, then at least one digit; the rest is ignored. */
  function ScanInt(s: string): Option<int> {
    if s != [] && IsSpace(s[0]) then ScanInt(s[1..])
    else if s != [] && (s[0] == '-' || s[0] == '+') then
      var u := ScanUnsigned(s[1..]);
      if u.Some? && s[0] == '-' then Some(-u.value) else u
    else ScanUnsigned(s)
  }

  lemma {:induction false} ScanDigitsConcat(a: string, b: string, acc: int)
    requires forall k :: 0 <= k < |a| ==> IsDigit(a[k])
    ensures ScanDigits(a + b, acc) == ScanDigits(b, ScanDigits(a, acc))
  {
    if a == [] {
      assert a + b == b;
    } else {
      assert (a + b)[1..] == a[1..] + b;
      ScanDigitsConcat(a[1..], b, acc * 10 + (a[0] as int - '0' as int));
    }
  }

  lemma {:induction false} DigitsScan(n: nat)
    ensures Digits(n) != [] && forall k :: 0 <= k < |Digits(n)| ==> IsDigit(Digits(n)[k])
    ensures ScanDigits(Digits(n), 0) == n
  {
    if n < 10 {
      assert ScanDigits(Digits(n)[1..], n) == n;
    } else {
      DigitsScan(n / 10);
      var last := [Digit(n % 10)];
      ScanDigitsConcat(Digits(n / 10), last, 0);
      assert ScanDigits(last[1..], n / 10 * 10 + n % 10) == n;
    }
  }

  /** Printing a number gives a token, and scanning the token gives the number back. */
  lemma PrintScan(n: int)
    ensures IsToken(PrintInt(n)) && ScanInt(PrintInt(n)) == Some(n)
  {
    var m := if n < 0 then -n else n;
    DigitsScan(m);
    var d := Digits(m);
    assert IsDigit(d[0]);
    if n < 0 {
      assert PrintInt(n)[1..] == d;
    }
  }

  /** A printed number starts with a minus sign exactly if it is negative; the rest are decimal digits, as
      few as possible. */
  lemma PrintIntForm(n: int)
    ensures var s := PrintInt(n); var d := if n < 0 then s[1..] else s;
      && s != [] && (n < 0 <==> s[0] == '-') && d != []
      && (forall k :: 0 <= k < |d| ==> '0' <= d[k] <= '9')
      && (d[0] == '0' ==> n == 0 && d == "0")
  {
    var m := if n < 0 then -n else n;
    DigitsScan(m);
    FirstDigit(m);
    assert n < 0 ==> PrintInt(n)[1..] == Digits(m);
    assert IsDigit(Digits(m)[0]);
  }

  lemma {:induction false} FirstDigit(n: nat)
    ensures Digits(n) != [] && (Digits(n)[0] == '0' ==> n == 0 && Digits(n) == "0")
  {
    if n >= 10 {
      FirstDigit(n / 10);
    }
  }

  /** Digits are read up to the first character that is none. */
  lemma ScanNumber(s: string, rest: string)
    requires s != [] && forall k :: 0 <= k < |s| ==> '0' <= s[k] <= '9'
    requires rest == [] || !('0' <= rest[0] <= '9')
    ensures ScanInt(s + rest) == Some(ScanDigits(s, 0))
  {
    assert IsDigit(s[0]) && (s + rest)[0] == s[0];
    ScanDigitsConcat(s, rest, 0);
  }

  /** The decimal reading: a digit behind a number multiplies it by ten and is added; no digits count 0. */
  lemma ScanDecimal(s: string, c: char)
    requires (forall k :: 0 <= k < |s| ==> '0' <= s[k] <= '9') && '0' <= c <= '9'
    ensures ScanDigits(s + [c], 0) == 10 * ScanDigits(s, 0) + (c as int - 48)
    ensures s == [] ==> ScanDigits(s, 0) == 0
  {
    var v := ScanDigits(s, 0);
    ScanDigitsConcat(s, [c], 0);
    assert ScanDigits([c][1..], v * 10 + (c as int - 48)) == v * 10 + (c as int - 48);
  }

  /** Blanks in front are skipped. */
  lemma ScanBlank(c: char, s: string)
    requires c == ' ' || c == '\t' || c == '\n' || c == '\r'
    ensures ScanInt([c] + s) == ScanInt(s)
  {
    assert ([c] + s)[1..] == s;
  }

  /** One sign is read, and without a digit there is no number. */
  lemma ScanSign(s: string)
    requires s != [] ==> '0' <= s[0] <= '9'
    ensures ScanInt(s).None? <==> s == []
    ensures ScanInt(['+'] + s) == ScanInt(s)
    ensures ScanInt(['-'] + s) == if s == [] then None else Some(-ScanInt(s).GetOr(0))
  {
    assert (['+'] + s)[1..] == s && (['-'] + s)[1..] == s;
    assert ScanInt(s) == ScanUnsigned(s);
  }

  lemma DelimitersAreTabAndNewline(c: char)
    ensures IsDelimiter(c) <==> c == '\t' || c == '\n'
  {
  }
}
