/**
 * `formatDate(oDate, format = 'yyyy-MM-dd')`: token substitution. The year run is found
 * case-insensitively and replaced by the tail of the year's digits; then, for each of the tokens
 * `M d h m s q S` in turn, the first run of that letter is replaced by the field's value, unpadded
 * for a run of one letter and as two digits for a longer run.
 */
module DateFormat {
  import opened Chars
  import opened Sequences
  import opened Wrappers

  /** The values the `Date` getters return: `getFullYear`, `getMonth` (0-based), `getDate`,
      `getHours`, `getMinutes`, `getSeconds`, `getMilliseconds`. */
  datatype DateFields = DateFields(year: int, month: nat, date: nat, hours: nat,
                                   minutes: nat, seconds: nat, milliseconds: nat)

  const DefaultFormat: string := "yyyy-MM-dd"

  // ---------------------------------------------------------------------------------------------
  // String primitives

  /** `String.prototype.substr(start)`: a negative start counts from the end (not below 0), a start
      past the end gives the empty string. */
  function Substr(s: string, start: int): (r: string)
    ensures |r| <= |s| && r == s[|s| - |r|..]
    ensures 0 <= start <= |s| ==> |r| == |s| - start
    ensures -|s| <= start < 0 ==> |r| == -start
    ensures start >= |s| ==> r == []
    ensures start < -|s| ==> r == s
  {
    var from := if start < 0 then (if |s| + start < 0 then 0 else |s| + start)
                else (if start > |s| then |s| else start);
    s[from..]
  }

  /** `pat` occurs in `s` starting at index `k`. */
  predicate OccursAt(s: string, pat: string, k: nat)
  {
    k + |pat| <= |s| && s[k..k + |pat|] == pat
  }

  /** The first index at or after `i` where `pat` occurs in `s`; `None` when it occurs nowhere there. */
  function IndexOfFrom(s: string, pat: string, i: nat): (r: Option<nat>)
    requires i <= |s|
    ensures r.Some? ==> i <= r.value && r.value + |pat| <= |s| && s[r.value..r.value + |pat|] == pat
    ensures r.Some? ==> forall k :: i <= k < r.value ==> !OccursAt(s, pat, k)
    ensures r.None? ==> forall k :: i <= k ==> !OccursAt(s, pat, k)
    decreases |s| - i
  {
    if i + |pat| > |s| then None
    else if s[i..i + |pat|] == pat then Some(i)
    else IndexOfFrom(s, pat, i + 1)
  }

  /** `s.replace(pat, text)` with a string pattern: only the first occurrence is replaced. */
  function ReplaceFirst(s: string, pat: string, text: string): string
  {
    match IndexOfFrom(s, pat, 0)
    case None => s
    case Some(i) => s[..i] + text + s[i + |pat|..]
  }

  // ---------------------------------------------------------------------------------------------
  // Finding the run that `/(x+)/` (or `/(x+)/i`) captures

  /** A character that the token letter matches, ignoring case under the `i` flag. */
  predicate IsTokenChar(ch: char, letter: char, ignoreCase: bool)
  {
    ch == letter || (ignoreCase && ToLower(ch) == ToLower(letter))
  }

  function RunStartFrom(s: string, letter: char, ignoreCase: bool, i: nat): (r: Option<nat>)
    requires i <= |s|
    ensures r.Some? ==> i <= r.value < |s| && IsTokenChar(s[r.value], letter, ignoreCase)
    ensures r.Some? ==> forall k :: i <= k < r.value ==> !IsTokenChar(s[k], letter, ignoreCase)
    ensures r.None? ==> forall k :: i <= k < |s| ==> !IsTokenChar(s[k], letter, ignoreCase)
    decreases |s| - i
  {
    if i == |s| then None
    else if IsTokenChar(s[i], letter, ignoreCase) then Some(i)
    else RunStartFrom(s, letter, ignoreCase, i + 1)
  }

  function RunEnd(s: string, letter: char, ignoreCase: bool, i: nat): (e: nat)
    requires i <= |s|
    ensures i <= e <= |s|
    ensures forall k :: i <= k < e ==> IsTokenChar(s[k], letter, ignoreCase)
    ensures e == |s| || !IsTokenChar(s[e], letter, ignoreCase)
    decreases |s| - i
  {
    if i < |s| && IsTokenChar(s[i], letter, ignoreCase) then RunEnd(s, letter, ignoreCase, i + 1) else i
  }

  /** `/(x+)/.test(s)` and the `RegExp.$1` it leaves: the leftmost, longest run of the letter. */
  function Capture(s: string, letter: char, ignoreCase: bool): Option<string>
  {
    match RunStartFrom(s, letter, ignoreCase, 0)
    case None => None
    case Some(start) => Some(s[start..RunEnd(s, letter, ignoreCase, start)])
  }

  // ---------------------------------------------------------------------------------------------
  // The replacement texts

  /** `` `${year}`.substr(4 - $1.length) `` */
  function YearText(runLength: nat, year: int): string
  {
    Substr(IntText(year), 4 - runLength)
  }

  /** A run of one letter gives the value itself; a longer run gives `('00' + v).substr(String(v).length)`. */
  function TokenText(runLength: nat, v: nat): string
  {
    if runLength == 1 then Decimal(v) else Substr("00" + Decimal(v), |Decimal(v)|)
  }

  /** The table `M+ d+ h+ m+ s+ q+ S+` in its declaration order. The `q` entry is
      `Math.floor(getMonth() * 3 / 3)`, which is the 0-based month. */
  function Tokens(d: DateFields): seq<(char, nat)>
  {
    [('M', d.month + 1), ('d', d.date), ('h', d.hours), ('m', d.minutes), ('s', d.seconds),
     ('q', (d.month * 3) / 3), ('S', d.milliseconds)]
  }

  // ---------------------------------------------------------------------------------------------
  // The substitution steps

  function YearStep(format: string, year: int): string
  {
    match Capture(format, 'y', true)
    case None => format
    case Some(cap) => ReplaceFirst(format, cap, YearText(|cap|, year))
  }

  function TokenStep(format: string, letter: char, v: nat): string
  {
    match Capture(format, letter, false)
    case None => format
    case Some(cap) => ReplaceFirst(format, cap, TokenText(|cap|, v))
  }

  /** The token loop: one substitution per table entry, in table order. */
  function ApplyTokens(format: string, table: seq<(char, nat)>): string
    decreases |table|
  {
    if table == [] then format
    else ApplyTokens(TokenStep(format, table[0].0, table[0].1), table[1..])
  }

  function FormatDateSpec(d: DateFields, format: Option<string>): string
  {
    var f := if format.Some? then format.value else DefaultFormat;
    ApplyTokens(YearStep(f, d.year), Tokens(d))
  }

  /** `formatDate`; `format` is `None` when the argument is left out (or `undefined`). */
  method FormatDate(d: DateFields, format: Option<string>) returns (result: string)
    ensures result == FormatDateSpec(d, format)
  {
    var f := if format.Some? then format.value else DefaultFormat;
    result := ReplaceYear(f, d.year);
    result := ReplaceTokens(result, Tokens(d));
  }

  /** The year substitution: the first run of `y`/`Y` becomes the year's last digits. */
  method ReplaceYear(format: string, year: int) returns (result: string)
    ensures result == YearStep(format, year)
  {
    result := format;
    var cap := Capture(result, 'y', true);
    if cap.Some? {
      result := ReplaceFirst(result, cap.value, YearText(|cap.value|, year));
    }
  }

  /** The `for (var k in o)` loop: each table entry in turn replaces the first run of its letter. */
  method ReplaceTokens(format: string, table: seq<(char, nat)>) returns (result: string)
    ensures result == ApplyTokens(format, table)
  {
    result := format;
    for k := 0 to |table|
      invariant ApplyTokens(result, table[k..]) == ApplyTokens(format, table)
    {
      var (letter, v) := table[k];
      var cap := Capture(result, letter, false);
      if cap.Some? {
        result := ReplaceFirst(result, cap.value, TokenText(|cap.value|, v));
      }
      assert table[k..][1..] == table[k + 1..];
    }
  }

  // ---------------------------------------------------------------------------------------------
  // What the substitution does

  /** `replace` finds a pattern at `start` when its first character occurs nowhere before. */
  lemma {:induction false} FoundAt(s: string, pat: string, start: nat, i: nat)
    requires i <= start && start + |pat| <= |s| && |pat| >= 1 && s[start..start + |pat|] == pat
    requires forall k :: i <= k < start ==> s[k] != pat[0]
    ensures IndexOfFrom(s, pat, i) == Some(start)
    decreases start - i
  {
    if i < start {
      assert s[i..i + |pat|][0] == s[i];
      FoundAt(s, pat, start, i + 1);
    }
  }

  /** One substitution on `pre + run + post`, where `run` is the first run of the letter. */
  lemma ReplaceRunShape(pre: string, run: string, post: string, letter: char, ignoreCase: bool, text: string)
    requires forall k :: 0 <= k < |pre| ==> !IsTokenChar(pre[k], letter, ignoreCase)
    requires |run| >= 1 && forall k :: 0 <= k < |run| ==> IsTokenChar(run[k], letter, ignoreCase)
    requires post == [] || !IsTokenChar(post[0], letter, ignoreCase)
    ensures Capture(pre + run + post, letter, ignoreCase) == Some(run)
    ensures ReplaceFirst(pre + run + post, run, text) == pre + text + post
  {
    var s := pre + run + post;
    RunOfConcat(pre, run, post, letter, ignoreCase, s);
    assert forall k :: 0 <= k < |pre| ==> s[k] != run[0];
    FoundAt(s, run, |pre|, 0);
    assert s[..|pre|] == pre && s[|pre| + |run|..] == post;
  }

  lemma RunOfConcat(pre: string, run: string, post: string, letter: char, ignoreCase: bool, s: string)
    requires s == pre + run + post
    requires forall k :: 0 <= k < |pre| ==> !IsTokenChar(pre[k], letter, ignoreCase)
    requires |run| >= 1 && forall k :: 0 <= k < |run| ==> IsTokenChar(run[k], letter, ignoreCase)
    requires post == [] || !IsTokenChar(post[0], letter, ignoreCase)
    ensures RunStartFrom(s, letter, ignoreCase, 0) == Some(|pre|)
    ensures RunEnd(s, letter, ignoreCase, |pre|) == |pre| + |run|
    ensures s[|pre|..|pre| + |run|] == run
  {
    assert forall k :: 0 <= k < |pre| ==> s[k] == pre[k];
    assert forall k :: |pre| <= k < |pre| + |run| ==> s[k] == run[k - |pre|];
    StartOfRun(s, letter, ignoreCase, |pre|, 0);
    assert |pre| + |run| < |s| ==> s[|pre| + |run|] == post[0];
    EndOfRun(s, letter, ignoreCase, |pre|, |pre| + |run|);
  }

  lemma {:induction false} StartOfRun(s: string, letter: char, ignoreCase: bool, start: nat, i: nat)
    requires i <= start < |s| && IsTokenChar(s[start], letter, ignoreCase)
    requires forall k :: 0 <= k < start ==> !IsTokenChar(s[k], letter, ignoreCase)
    ensures RunStartFrom(s, letter, ignoreCase, i) == Some(start)
    decreases start - i
  {
    if i < start {
      StartOfRun(s, letter, ignoreCase, start, i + 1);
    }
  }

  lemma {:induction false} EndOfRun(s: string, letter: char, ignoreCase: bool, i: nat, e: nat)
    requires i <= e <= |s| && (e == |s| || !IsTokenChar(s[e], letter, ignoreCase))
    requires forall k :: i <= k < e ==> IsTokenChar(s[k], letter, ignoreCase)
    ensures RunEnd(s, letter, ignoreCase, i) == e
    decreases e - i
  {
    if i < e {
      EndOfRun(s, letter, ignoreCase, i + 1, e);
    }
  }

  /** The letter `c` repeated `n` times. */
  function Repeat(c: char, n: nat): (r: string)
    ensures |r| == n && forall k :: 0 <= k < n ==> r[k] == c
  {
    if n == 0 then [] else [c] + Repeat(c, n - 1)
  }

  /** A field token: in `pre + c^n + post` with no `c` in `pre`, the run is replaced by the field's
      text and nothing else changes; a format without the letter is left alone. */
  lemma TokenStepShape(pre: string, n: nat, post: string, c: char, v: nat)
    requires c !in pre && n >= 1 && (post == [] || post[0] != c)
    ensures TokenStep(pre + Repeat(c, n) + post, c, v) == pre + TokenText(n, v) + post
  {
    assert forall k :: 0 <= k < |pre| ==> pre[k] != c;
    ReplaceRunShape(pre, Repeat(c, n), post, c, false, TokenText(n, v));
  }

  lemma TokenStepAbsent(format: string, c: char, v: nat)
    requires c !in format
    ensures TokenStep(format, c, v) == format
  {
    assert forall k :: 0 <= k < |format| ==> format[k] != c;
  }

  predicate IsYearLetter(ch: char) { ch == 'y' || ch == 'Y' }

  /** The year token: in `pre + run + post`, where `run` is the first run of `y`/`Y` letters in any
      mix of case, the run is replaced by the tail of the year's text. */
  lemma YearStepShape(pre: string, run: string, post: string, year: int)
    requires forall k :: 0 <= k < |pre| ==> !IsYearLetter(pre[k])
    requires |run| >= 1 && forall k :: 0 <= k < |run| ==> IsYearLetter(run[k])
    requires post == [] || !IsYearLetter(post[0])
    ensures YearStep(pre + run + post, year) == pre + YearText(|run|, year) + post
  {
    ReplaceRunShape(pre, run, post, 'y', true, YearText(|run|, year));
  }

  /** A one-letter token gives the value unpadded; a longer one gives exactly two digits: the value
      zero-padded when below 10, otherwise its last two digits. */
  lemma TokenTextDigits(n: nat, v: nat)
    requires n >= 1
    ensures n == 1 ==> TokenText(n, v) == Decimal(v)
    ensures n >= 2 ==> TokenText(n, v) == [Digit((v / 10) % 10), Digit(v % 10)]
  {
    if n >= 2 {
      var t := Decimal(v);
      var r := TokenText(n, v);
      assert r == ("00" + t)[|t|..];
      if v < 10 {
        assert r == ['0', t[0]];
      } else {
        var u := Decimal(v / 10);
        assert t == u + [Digit(v % 10)];
        assert r == [u[|u| - 1], t[|t| - 1]];
      }
    }
  }

  /** For a four-digit year, `yyyy` gives the year and `yy` its last two digits. */
  lemma YearTextFourDigits(year: int)
    requires 1000 <= year <= 9999
    ensures YearText(4, year) == Decimal(year)
    ensures |Decimal(year)| == 4 && YearText(2, year) == Decimal(year)[2..]
  {
    assert |Decimal(year / 1000)| == 1;
    assert |Decimal(year / 100)| == 2;
    assert |Decimal(year / 10)| == 3;
    assert |Decimal(year)| == 4;
  }

  /** The `q` token stands for the 0-based month, not the quarter (`Math.floor(month * 3 / 3)`):
      the format `q` gives the month number counted from 0. */
  lemma QuarterTokenIsMonth(d: DateFields, format: string)
    requires format == "q"
    ensures FormatDateSpec(d, Some(format)) == Decimal(d.month)
  {
    assert YearStep(format, d.year) == format by {
      assert forall k :: 0 <= k < |format| ==> !IsTokenChar(format[k], 'y', true);
    }
    ApplyTokensUnfold(format, d);
    DateClockAbsent(format, d);
    var m := QuarterStep(format, d.month);
    TokenStepAbsent(m, 'S', d.milliseconds);
  }

  lemma DateClockAbsent(f: string, d: DateFields)
    requires 'M' !in f && 'd' !in f && 'h' !in f && 'm' !in f && 's' !in f
    ensures TokenStep(TokenStep(TokenStep(TokenStep(TokenStep(f, 'M', d.month + 1), 'd', d.date),
      'h', d.hours), 'm', d.minutes), 's', d.seconds) == f
  {
    TokenStepAbsent(f, 'M', d.month + 1);
    TokenStepAbsent(f, 'd', d.date);
    TokenStepAbsent(f, 'h', d.hours);
    TokenStepAbsent(f, 'm', d.minutes);
    TokenStepAbsent(f, 's', d.seconds);
  }

  lemma QuarterStep(format: string, month: nat) returns (m: string)
    requires format == "q"
    ensures m == Decimal(month) && 'S' !in m
    ensures TokenStep(format, 'q', (month * 3) / 3) == m
  {
    assert format == [] + Repeat('q', 1) + [];
    TokenStepShape([], 1, [], 'q', (month * 3) / 3);
    assert (month * 3) / 3 == month;
    TokenTextDigits(1, month);
    m := Decimal(month);
    assert [] + m + [] == m;
    assert Plain(m);
    NoLetterIn(m, 'S');
  }

  /** Digits and the separators `-`, `:` and space: what the substitutions leave behind. */
  predicate IsPlainChar(ch: char) { IsDigit(ch) || ch == '-' || ch == ':' || ch == ' ' }

  predicate Plain(t: string)
  {
    forall k :: 0 <= k < |t| ==> IsPlainChar(t[k])
  }

  lemma PlainConcat(a: string, b: string)
    requires Plain(a) && Plain(b)
    ensures Plain(a + b)
  {
    assert forall k :: 0 <= k < |a + b| ==> (a + b)[k] == if k < |a| then a[k] else b[k - |a|];
  }

  /** A string of digits and separators holds none of the token letters. */
  lemma NoLetterIn(t: string, c: char)
    requires Plain(t) && !IsPlainChar(c)
    ensures c !in t
  {
  }

  /** The token loop over the table, one step per letter. */
  lemma ApplyTokensUnfold(f: string, d: DateFields)
    ensures ApplyTokens(f, Tokens(d)) ==
      TokenStep(TokenStep(TokenStep(TokenStep(TokenStep(TokenStep(TokenStep(f,
        'M', d.month + 1), 'd', d.date), 'h', d.hours), 'm', d.minutes), 's', d.seconds),
        'q', (d.month * 3) / 3), 'S', d.milliseconds)
  {
    var t6: seq<(char, nat)> := [('S', d.milliseconds)];
    var t5 := [('q', (d.month * 3) / 3)] + t6;
    var t4 := [('s', d.seconds)] + t5;
    var t3 := [('m', d.minutes)] + t4;
    var t2 := [('h', d.hours)] + t3;
    var t1 := [('d', d.date)] + t2;
    var t0 := [('M', d.month + 1)] + t1;
    assert Tokens(d) == t0;
    var f1 := TokenStep(f, 'M', d.month + 1);
    var f2 := TokenStep(f1, 'd', d.date);
    var f3 := TokenStep(f2, 'h', d.hours);
    var f4 := TokenStep(f3, 'm', d.minutes);
    var f5 := TokenStep(f4, 's', d.seconds);
    var f6 := TokenStep(f5, 'q', (d.month * 3) / 3);
    ApplyTokensCons(f6, ('S', d.milliseconds), []);
    assert [('S', d.milliseconds)] + [] == t6;
    ApplyTokensCons(f5, ('q', (d.month * 3) / 3), t6);
    ApplyTokensCons(f4, ('s', d.seconds), t5);
    ApplyTokensCons(f3, ('m', d.minutes), t4);
    ApplyTokensCons(f2, ('h', d.hours), t3);
    ApplyTokensCons(f1, ('d', d.date), t2);
    ApplyTokensCons(f, ('M', d.month + 1), t1);
  }

  lemma ApplyTokensCons(f: string, e: (char, nat), rest: seq<(char, nat)>)
    ensures ApplyTokens(f, [e] + rest) == ApplyTokens(TokenStep(f, e.0, e.1), rest)
  {
    assert ([e] + rest)[1..] == rest;
  }

  /** The clock tokens and `q`, `S` are absent from a string of digits and separators. */
  lemma LaterTokensAbsent(f: string, d: DateFields)
    requires Plain(f)
    ensures TokenStep(TokenStep(TokenStep(TokenStep(TokenStep(f, 'h', d.hours), 'm', d.minutes),
      's', d.seconds), 'q', (d.month * 3) / 3), 'S', d.milliseconds) == f
  {
    NoLetterIn(f, 'h');
    NoLetterIn(f, 'm');
    NoLetterIn(f, 's');
    NoLetterIn(f, 'q');
    NoLetterIn(f, 'S');
    TokenStepAbsent(f, 'h', d.hours);
    TokenStepAbsent(f, 'm', d.minutes);
    TokenStepAbsent(f, 's', d.seconds);
    TokenStepAbsent(f, 'q', (d.month * 3) / 3);
    TokenStepAbsent(f, 'S', d.milliseconds);
  }

  /** Replacing the run `cc` that follows `pre`. */
  lemma TwoLetterStep(s: string, pre: string, c: char, post: string, v: nat) returns (r: string)
    requires s == pre + [c, c] + post && Plain(pre)
    requires !IsPlainChar(c) && (post == [] || post[0] != c)
    ensures r == pre + TokenText(2, v) && Plain(r)
    ensures TokenStep(s, c, v) == r + post
  {
    NoLetterIn(pre, c);
    assert Repeat(c, 2) == [c, c];
    TokenStepShape(pre, 2, post, c, v);
    TokenTextDigits(2, v);
    PlainConcat(pre, TokenText(2, v));
    r := pre + TokenText(2, v);
  }

  /** The default format `yyyy-MM-dd` with a four-digit year: the year, then month (1-based) and
      day as two digits each. */
  lemma DefaultFormatShape(d: DateFields)
    requires 1000 <= d.year <= 9999
    ensures FormatDateSpec(d, None) ==
      Decimal(d.year) + "-" + TokenText(2, d.month + 1) + "-" + TokenText(2, d.date)
  {
    var y := Decimal(d.year);
    var f0 := FourDigitYearStep(d.year, "yyyy", "-MM-dd");
    assert DefaultFormat == "yyyy" + "-MM-dd";
    assert f0 == y + "-MM-dd" + "";
    var f := DatePart(y, d.month + 1, d.date, "");
    var s2 := TokenStep(TokenStep(f0, 'M', d.month + 1), 'd', d.date);
    assert s2 == f by { assert f + "" == f; }
    LaterTokensAbsent(f, d);
    ApplyTokensUnfold(f0, d);
  }

  /** `yyyy` at the front of a format, for a four-digit year. */
  lemma FourDigitYearStep(year: int, run: string, post: string) returns (f: string)
    requires 1000 <= year <= 9999 && run == "yyyy" && (post == [] || !IsYearLetter(post[0]))
    ensures f == Decimal(year) + post && YearStep(run + post, year) == f
    ensures AllDigits(Decimal(year))
  {
    assert forall k :: 0 <= k < |run| ==> IsYearLetter(run[k]);
    YearStepAtFront(run, post, year);
    YearTextFourDigits(year);
    f := Decimal(year) + post;
  }

  /** A run of year letters at the very front of a format. */
  lemma YearStepAtFront(run: string, post: string, year: int)
    requires |run| >= 1 && forall k :: 0 <= k < |run| ==> IsYearLetter(run[k])
    requires post == [] || !IsYearLetter(post[0])
    ensures YearStep(run + post, year) == YearText(|run|, year) + post
  {
    YearStepShape([], run, post, year);
    EmptyConcat(run);
    EmptyConcat(YearText(|run|, year));
  }

  /** `yyyy-MM-dd` after the year step: month and day become two digits each. */
  lemma DatePart(y: string, month: nat, date: nat, rest: string) returns (f: string)
    requires AllDigits(y) && (rest == [] || rest[0] != 'd')
    ensures f == y + "-" + TokenText(2, month) + "-" + TokenText(2, date) && Plain(f)
    ensures TokenStep(TokenStep(y + "-MM-dd" + rest, 'M', month), 'd', date) == f + rest
  {
    var r1 := MonthStep(y, rest, month);
    f := DayStep(r1, rest, date);
  }

  lemma MonthStep(y: string, rest: string, month: nat) returns (r1: string)
    requires AllDigits(y)
    ensures r1 == y + "-" + TokenText(2, month) && Plain(r1)
    ensures TokenStep(y + "-MM-dd" + rest, 'M', month) == r1 + "-dd" + rest
  {
    PlainConcat(y, "-");
    r1 := TwoLetterStep(y + "-MM-dd" + rest, y + "-", 'M', "-dd" + rest, month);
  }

  lemma DayStep(r1: string, rest: string, date: nat) returns (r2: string)
    requires Plain(r1) && (rest == [] || rest[0] != 'd')
    ensures r2 == r1 + "-" + TokenText(2, date) && Plain(r2)
    ensures TokenStep(r1 + "-dd" + rest, 'd', date) == r2 + rest
  {
    PlainConcat(r1, "-");
    r2 := TwoLetterStep(r1 + "-dd" + rest, r1 + "-", 'd', rest, date);
  }

  /** ` hh:mm:ss` after a date: hours, minutes and seconds become two digits each. */
  lemma TimePart(p: string, hours: nat, minutes: nat, seconds: nat) returns (f: string)
    requires Plain(p)
    ensures f == p + " " + TokenText(2, hours) + ":" + TokenText(2, minutes) + ":" + TokenText(2, seconds)
    ensures Plain(f)
    ensures TokenStep(TokenStep(TokenStep(p + " hh:mm:ss", 'h', hours), 'm', minutes), 's', seconds) == f
  {
    var r1 := HourStep(p, hours);
    var r2 := MinuteStep(r1, minutes);
    f := SecondStep(r2, seconds);
  }

  lemma HourStep(p: string, hours: nat) returns (r1: string)
    requires Plain(p)
    ensures r1 == p + " " + TokenText(2, hours) && Plain(r1)
    ensures TokenStep(p + " hh:mm:ss", 'h', hours) == r1 + ":mm:ss"
  {
    PlainConcat(p, " ");
    r1 := TwoLetterStep(p + " hh:mm:ss", p + " ", 'h', ":mm:ss", hours);
  }

  lemma MinuteStep(r1: string, minutes: nat) returns (r2: string)
    requires Plain(r1)
    ensures r2 == r1 + ":" + TokenText(2, minutes) && Plain(r2)
    ensures TokenStep(r1 + ":mm:ss", 'm', minutes) == r2 + ":ss"
  {
    PlainConcat(r1, ":");
    r2 := TwoLetterStep(r1 + ":mm:ss", r1 + ":", 'm', ":ss", minutes);
  }

  lemma SecondStep(r2: string, seconds: nat) returns (r3: string)
    requires Plain(r2)
    ensures r3 == r2 + ":" + TokenText(2, seconds) && Plain(r3)
    ensures TokenStep(r2 + ":ss", 's', seconds) == r3
  {
    PlainConcat(r2, ":");
    r3 := TwoLetterStep(r2 + ":ss", r2 + ":", 's', "", seconds);
    assert r3 + "" == r3;
  }

  /** `yyyy-MM-dd hh:mm:ss` with a four-digit year: every field but the year as two digits. */
  lemma DateTimeFormatShape(d: DateFields)
    requires 1000 <= d.year <= 9999
    ensures FormatDateSpec(d, Some("yyyy-MM-dd hh:mm:ss")) ==
      Decimal(d.year) + "-" + TokenText(2, d.month + 1) + "-" + TokenText(2, d.date) + " " +
      TokenText(2, d.hours) + ":" + TokenText(2, d.minutes) + ":" + TokenText(2, d.seconds)
  {
    assert "yyyy-MM-dd hh:mm:ss" == "yyyy" + ("-MM-dd" + " hh:mm:ss");
    DateTimeFormatSteps(d, "yyyy-MM-dd hh:mm:ss", "-MM-dd" + " hh:mm:ss");
  }

  lemma DateTimeFormatSteps(d: DateFields, format: string, post: string)
    requires 1000 <= d.year <= 9999 && post == "-MM-dd" + " hh:mm:ss" && format == "yyyy" + post
    ensures FormatDateSpec(d, Some(format)) ==
      Decimal(d.year) + "-" + TokenText(2, d.month + 1) + "-" + TokenText(2, d.date) + " " +
      TokenText(2, d.hours) + ":" + TokenText(2, d.minutes) + ":" + TokenText(2, d.seconds)
  {
    var y := Decimal(d.year);
    var f0 := FourDigitYearStep(d.year, "yyyy", post);
    DateTimeTokens(d, y, f0);
  }

  lemma DateTimeTokens(d: DateFields, y: string, f0: string)
    requires AllDigits(y) && f0 == y + ("-MM-dd" + " hh:mm:ss")
    ensures ApplyTokens(f0, Tokens(d)) ==
      y + "-" + TokenText(2, d.month + 1) + "-" + TokenText(2, d.date) + " " +
      TokenText(2, d.hours) + ":" + TokenText(2, d.minutes) + ":" + TokenText(2, d.seconds)
  {
    assert f0 == y + "-MM-dd" + " hh:mm:ss";
    var p := DatePart(y, d.month + 1, d.date, " hh:mm:ss");
    var f := TimePart(p, d.hours, d.minutes, d.seconds);
    ClockTokensGone(f, d);
    ApplyTokensUnfold(f0, d);
  }

  lemma ClockTokensGone(f: string, d: DateFields)
    requires Plain(f)
    ensures TokenStep(TokenStep(f, 'q', (d.month * 3) / 3), 'S', d.milliseconds) == f
  {
    NoLetterIn(f, 'q');
    NoLetterIn(f, 'S');
    TokenStepAbsent(f, 'q', (d.month * 3) / 3);
    TokenStepAbsent(f, 'S', d.milliseconds);
  }

  /** 18 August 2019 at midnight. */
  lemma FormatDateExample(d: DateFields)
    requires d == DateFields(2019, 7, 18, 0, 0, 0, 0)
    ensures FormatDateSpec(d, Some("yyyy-MM-dd hh:mm:ss")) == "2019-08-18 00:00:00"
  {
    FormatDateExampleSteps(d);
    ExampleConcat();
  }

  lemma ExampleConcat()
    ensures "2019" + "-" + "08" + "-" + "18" + " " + "00" + ":" + "00" + ":" + "00" == "2019-08-18 00:00:00"
  {
  }

  lemma FormatDateExampleSteps(d: DateFields)
    requires d == DateFields(2019, 7, 18, 0, 0, 0, 0)
    ensures FormatDateSpec(d, Some("yyyy-MM-dd hh:mm:ss")) ==
      "2019" + "-" + "08" + "-" + "18" + " " + "00" + ":" + "00" + ":" + "00"
  {
    DateTimeFormatShape(d);
    ExampleTexts();
  }

  lemma ExampleTexts()
    ensures Decimal(2019) == "2019"
    ensures TokenText(2, 8) == "08" && TokenText(2, 18) == "18" && TokenText(2, 0) == "00"
  {
    assert Decimal(2) == "2";
    assert Decimal(20) == "20";
    assert Decimal(201) == "201";
    TokenTextDigits(2, 8);
    TokenTextDigits(2, 18);
    TokenTextDigits(2, 0);
  }
}
