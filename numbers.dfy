/**
 * Numeric-text helpers: `isRealNum` (a regular-expression recogniser), `formatMoney` (thousands
 * separators inserted by a regular-expression replace) and `exchangeNumber` (an XOR swap).
 */
module Numbers {
  import opened Chars
  import opened Sequences

  /** The length of the run of digits that starts at index `i`. */
  function DigitRun(s: string, i: nat): (n: nat)
    requires i <= |s|
    ensures i + n <= |s|
    ensures forall k :: i <= k < i + n ==> IsDigit(s[k])
    ensures i + n == |s| || !IsDigit(s[i + n])
    decreases |s| - i
  {
    if i < |s| && IsDigit(s[i]) then 1 + DigitRun(s, i + 1) else 0
  }

  // ---------------------------------------------------------------------------------------------
  // isRealNum: whether the text is digits, then at most one arbitrary character, then digits

  /** The recogniser: a leading run of digits, then either the end, or one character that `.`
      accepts (the dot is not escaped) followed only by digits. Since the pattern has no `u` flag,
      a character outside the Basic Multilingual Plane is two code units: `.` takes the first and
      `[0-9]*$` fails on the second, so such a character is rejected. */
  function IsRealNum(s: string): bool
  {
    var p := DigitRun(s, 0);
    p > 0 && (p == |s| || (DotMatchesChar(s[p]) && AllDigits(s[p + 1..])))
  }

  /** The language of `^[0-9]+.?[0-9]*$`: `s` splits as one or more digits `s[..p]`, an optional
      single character `s[p..q]` that is one code unit and not a line terminator, and zero or more digits `s[q..]`. */
  ghost predicate MatchesRealNumPattern(s: string)
  {
    exists p, q :: 0 < p <= q <= |s| && q <= p + 1 && AllDigits(s[..p])
                   && (q == p + 1 ==> DotMatchesChar(s[p])) && AllDigits(s[q..])
  }

  /** The recogniser accepts exactly the strings the regular expression matches. */
  lemma IsRealNumMatchesPattern(s: string)
    ensures IsRealNum(s) <==> MatchesRealNumPattern(s)
  {
    var r := DigitRun(s, 0);
    if IsRealNum(s) {
      var q := if r == |s| then r else r + 1;
      assert AllDigits(s[..r]);
      assert AllDigits(s[q..]);
    }
    if MatchesRealNumPattern(s) {
      var p, q :| 0 < p <= q <= |s| && q <= p + 1 && AllDigits(s[..p])
                  && (q == p + 1 ==> DotMatchesChar(s[p])) && AllDigits(s[q..]);
      assert forall k :: 0 <= k < p ==> IsDigit(s[k]) by {
        forall k | 0 <= k < p ensures IsDigit(s[k]) { assert s[..p][k] == s[k]; }
      }
      assert forall k :: q <= k < |s| ==> IsDigit(s[k]) by {
        forall k | q <= k < |s| ensures IsDigit(s[k]) { assert s[q..][k - q] == s[k]; }
      }
      if r < |s| {
        assert r == p;
        assert s[r + 1..] == s[q..];
      }
    }
  }

  lemma IsRealNumAccepts()
    ensures IsRealNum("1231223") && IsRealNum("1a2") && IsRealNum("3.14") && IsRealNum("7.")
  {
  }

  lemma IsRealNumRejects()
    ensures !IsRealNum("") && !IsRealNum(".5") && !IsRealNum("1\n2")
  {
  }

  /** A digit run, a letter, then more than digits: rejected. */
  lemma IsRealNumRejectsText(s: string)
    requires s == "111this is a string.111"
    ensures !IsRealNum(s)
  {
    assert DigitRun(s, 3) == 0;
    assert !IsDigit(s[4..][0]);
  }

  /** A character outside the Basic Multilingual Plane after the digits is rejected, whether or not
      digits follow it. */
  lemma IsRealNumRejectsAstral()
    ensures !IsRealNum("1\U{1F600}2") && !IsRealNum("1\U{1F600}")
    ensures IsRealNum("1\U{E9}2")
  {
  }

  // ---------------------------------------------------------------------------------------------
  // formatMoney: a comma before every group of three digits that ends a run of digits

  /** A word character stands at index `j` (indices outside the string are not word characters). */
  predicate WordAt(s: string, j: int)
  {
    0 <= j < |s| && IsWordChar(s[j])
  }

  /** `\B` at position `i`: the characters on both sides are alike, both word or both not. */
  predicate NotBoundary(s: string, i: nat)
  {
    WordAt(s, i - 1) == WordAt(s, i)
  }

  /** The lookahead `(?=(\d{3})+(?!\d))` at position `i`, read literally: some positive number of
      digit triples starts at `i` and no digit follows them. */
  ghost predicate TriplesAhead(s: string, i: nat)
    requires i <= |s|
  {
    exists k :: 1 <= k && i + 3 * k <= |s| && (forall j :: i <= j < i + 3 * k ==> IsDigit(s[j]))
                && (i + 3 * k == |s| || !IsDigit(s[i + 3 * k]))
  }

  /** The empty match of the pattern at position `i`: the digit run starting there has a length
      that is a positive multiple of three, and `\B` holds there. */
  predicate CommaBefore(s: string, i: nat)
    requires i <= |s|
  {
    var m := DigitRun(s, i);
    NotBoundary(s, i) && m > 0 && m % 3 == 0
  }

  /** `CommaBefore` is the regular expression's match condition: `\B` and the lookahead. */
  lemma CommaBeforeIsPatternMatch(s: string, i: nat)
    requires i <= |s|
    ensures CommaBefore(s, i) <==> NotBoundary(s, i) && TriplesAhead(s, i)
  {
    var m := DigitRun(s, i);
    if m > 0 && m % 3 == 0 {
      var k := m / 3;
      assert i + 3 * k == i + m;
    }
    if TriplesAhead(s, i) {
      var k :| 1 <= k && i + 3 * k <= |s| && (forall j :: i <= j < i + 3 * k ==> IsDigit(s[j]))
               && (i + 3 * k == |s| || !IsDigit(s[i + 3 * k]));
      assert m == 3 * k;
    }
  }

  /** The global replace from position `i` on: each empty match inserts a comma, after which the
      scan moves one character on. */
  function FormatMoneyFrom(s: string, i: nat): string
    requires i <= |s|
    decreases |s| - i
  {
    if i == |s| then []
    else (if CommaBefore(s, i) then [','] else []) + [s[i]] + FormatMoneyFrom(s, i + 1)
  }

  function FormatMoney(money: string): string
  {
    FormatMoneyFrom(money, 0)
  }

  /** The string with its commas deleted. */
  function RemoveCommas(s: string): (r: string)
    ensures ',' !in r
  {
    if s == [] then [] else (if s[0] == ',' then [] else [s[0]]) + RemoveCommas(s[1..])
  }

  lemma {:induction false} RemoveCommasAppend(a: string, b: string)
    ensures RemoveCommas(a + b) == RemoveCommas(a) + RemoveCommas(b)
  {
    if a == [] {
      assert a + b == b;
    } else {
      assert (a + b)[0] == a[0];
      assert (a + b)[1..] == a[1..] + b;
      RemoveCommasAppend(a[1..], b);
    }
  }

  lemma {:induction false} RemoveCommasFrom(s: string, i: nat)
    requires i <= |s|
    ensures RemoveCommas(FormatMoneyFrom(s, i)) == RemoveCommas(s[i..])
    decreases |s| - i
  {
    if i < |s| {
      RemoveCommasFrom(s, i + 1);
      var sep: string := if CommaBefore(s, i) then [','] else [];
      RemoveCommasStep(sep, s[i], FormatMoneyFrom(s, i + 1));
      RemoveCommasStep([], s[i], s[i + 1..]);
      assert s[i..] == [] + [s[i]] + s[i + 1..];
    }
  }

  /** An inserted separator disappears again; the character after it and the rest are kept. */
  lemma RemoveCommasStep(sep: string, c: char, rest: string)
    requires sep == [] || sep == [',']
    ensures RemoveCommas(sep + [c] + rest) == RemoveCommas([c]) + RemoveCommas(rest)
  {
    RemoveCommasAppend(sep + [c], rest);
    RemoveCommasAppend(sep, [c]);
  }

  /** Deleting the commas from the result gives back the input with its own commas deleted; for an
      input without commas this is the input itself. */
  lemma FormatMoneyRemoveCommas(s: string)
    ensures RemoveCommas(FormatMoney(s)) == RemoveCommas(s)
    ensures ',' !in s ==> RemoveCommas(FormatMoney(s)) == s
  {
    RemoveCommasFrom(s, 0);
    assert s[0..] == s;
    if ',' !in s {
      NoCommaUnchanged(s);
    }
  }

  lemma {:induction false} NoCommaUnchanged(s: string)
    requires ',' !in s
    ensures RemoveCommas(s) == s
  {
    if s != [] {
      assert s[0] in s;
      assert forall c :: c in s[1..] ==> c in s;
      NoCommaUnchanged(s[1..]);
    }
  }

  lemma {:induction false} DigitRunOfDigits(s: string, i: nat)
    requires AllDigits(s) && i <= |s|
    ensures DigitRun(s, i) == |s| - i
    decreases |s| - i
  {
    if i < |s| {
      DigitRunOfDigits(s, i + 1);
    }
  }

  /** On a string of digits, a comma goes before index `i` exactly when `0 < i < |s|` and the
      number of digits from `i` to the end is a multiple of three. */
  lemma CommaBeforeInDigits(s: string, i: nat)
    requires AllDigits(s) && i <= |s|
    ensures CommaBefore(s, i) <==> 0 < i < |s| && (|s| - i) % 3 == 0
  {
    DigitRunOfDigits(s, i);
  }

  /** The grouping a reader expects: the last three digits, preceded by a comma and the grouping
      of the digits before them. */
  function GroupThousands(s: string): string
  {
    if |s| <= 3 then s else GroupThousands(s[..|s| - 3]) + "," + s[|s| - 3..]
  }

  /** The scan over a string of digits with the comma condition of `CommaBeforeInDigits`. */
  function DigitScan(s: string, i: nat): string
    requires i <= |s|
    decreases |s| - i
  {
    if i == |s| then []
    else (if 0 < i && (|s| - i) % 3 == 0 then [','] else []) + [s[i]] + DigitScan(s, i + 1)
  }

  lemma {:induction false} FormatMoneyFromDigits(s: string, i: nat)
    requires AllDigits(s) && i <= |s|
    ensures FormatMoneyFrom(s, i) == DigitScan(s, i)
    decreases |s| - i
  {
    if i < |s| {
      FormatMoneyFromDigits(s, i + 1);
      CommaBeforeInDigits(s, i);
    }
  }

  /** Up to the last three digits, the scan over `s` and the scan over `s` minus its last three
      digits insert the same commas. */
  lemma {:induction false} DigitScanDropTriple(s: string, i: nat)
    requires |s| > 3 && i <= |s| - 3
    ensures DigitScan(s, i) == DigitScan(s[..|s| - 3], i) + DigitScan(s, |s| - 3)
    decreases |s| - i
  {
    var t := s[..|s| - 3];
    var tail := DigitScan(s, |s| - 3);
    if i < |s| - 3 {
      DigitScanDropTriple(s, i + 1);
      DigitScanPrefixStep(s, t, i);
      var head := (if 0 < i && (|s| - i) % 3 == 0 then [','] else []) + [s[i]];
      ConcatAssoc(head, DigitScan(t, i + 1), tail);
    } else {
      assert DigitScan(t, i) == [];
    }
  }

  /** One step of the scan over `s` minus its last three digits has the comma condition of `s`. */
  lemma DigitScanPrefixStep(s: string, t: string, i: nat)
    requires |s| > 3 && i < |s| - 3 && t == s[..|s| - 3]
    ensures DigitScan(t, i) == (if 0 < i && (|s| - i) % 3 == 0 then [','] else []) + [s[i]] + DigitScan(t, i + 1)
  {
    ModThreeShift(|t| - i);
  }

  lemma ModThreeShift(x: nat)
    ensures (x + 3) % 3 == x % 3
  {
  }

  /** On a string of digits, the regular-expression replace is the grouping by thousands. */
  lemma FormatMoneyGroupsDigits(s: string)
    requires AllDigits(s)
    ensures FormatMoney(s) == GroupThousands(s)
  {
    FormatMoneyFromDigits(s, 0);
    DigitScanGroups(s);
  }

  lemma {:induction false} DigitScanGroups(s: string)
    ensures DigitScan(s, 0) == GroupThousands(s)
    decreases |s|
  {
    var n := |s|;
    if n <= 3 {
      DigitScanTail(s, 0);
    } else {
      DigitScanGroups(s[..n - 3]);
      DigitScanGroupsStep(s, s[..n - 3]);
    }
  }

  lemma DigitScanGroupsStep(s: string, t: string)
    requires |s| > 3 && t == s[..|s| - 3] && DigitScan(t, 0) == GroupThousands(t)
    ensures DigitScan(s, 0) == GroupThousands(s)
  {
    DigitScanDropTriple(s, 0);
    DigitScanLastTriple(s);
    ConcatAssoc(GroupThousands(t), ",", s[|s| - 3..]);
  }

  /** The last three digits of a longer string get one comma in front of them. */
  lemma DigitScanLastTriple(s: string)
    requires |s| > 3
    ensures DigitScan(s, |s| - 3) == "," + s[|s| - 3..]
  {
    var n := |s|;
    DigitScanTail(s, n - 2);
    assert DigitScan(s, n - 3) == [','] + [s[n - 3]] + s[n - 2..];
    assert s[n - 3..] == [s[n - 3]] + s[n - 2..];
    ConcatAssoc([','], [s[n - 3]], s[n - 2..]);
  }

  /** Among the last two characters, or anywhere in a string of at most three, no comma goes in. */
  lemma {:induction false} DigitScanTail(s: string, i: nat)
    requires i <= |s| && (|s| <= 3 || |s| - 3 < i)
    ensures DigitScan(s, i) == s[i..]
    decreases |s| - i
  {
    if i < |s| {
      DigitScanTail(s, i + 1);
      assert s[i..] == [s[i]] + s[i + 1..];
    }
  }

  lemma FormatMoneyExample()
    ensures FormatMoney("1234567890") == "1,234,567,890"
  {
    FormatMoneyExampleSteps("1234567890");
  }

  lemma FormatMoneyExampleSteps(s: string)
    requires s == "1234567890"
    ensures FormatMoney(s) == "1,234,567,890"
  {
    assert AllDigits(s);
    FormatMoneyGroupsDigits(s);
    assert s[..7] == "1234567" && s[7..] == "890";
    assert s[..4] == "1234" && s[4..7] == "567";
    assert s[..1] == "1" && s[1..4] == "234";
    assert GroupThousands(s[..4]) == "1,234";
    assert s[..7][..4] == s[..4] && s[..7][4..] == s[4..7];
    assert GroupThousands(s[..7]) == "1,234,567";
  }

  // ---------------------------------------------------------------------------------------------
  // exchangeNumber: swaps two numbers by three exclusive-or assignments

  /** The XOR swap on 32-bit values: the two values come back exchanged. */
  method ExchangeNumber(a0: bv32, b0: bv32) returns (a: bv32, b: bv32)
    ensures a == b0 && b == a0
  {
    a := a0 ^ b0;
    b := b0 ^ a;
    assert b == a0;
    a := a ^ b;
  }
}
