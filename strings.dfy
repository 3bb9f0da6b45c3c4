/**
 * String case conversion: `camelcaseToHyphen`, `hyphenToCamelcase` and `firstUpperCase`.
 * Case mapping is ASCII only (see Chars.ToLower and Chars.ToUpper).
 */
module Strings {
  import opened Chars
  import opened Wrappers

  /** The regular-expression step `replace(/([A-Z])/g, "-$1")`: a hyphen before every upper-case letter. */
  function HyphenateCapitals(s: string): string
  {
    if s == [] then []
    else (if IsUpper(s[0]) then ['-', s[0]] else [s[0]]) + HyphenateCapitals(s[1..])
  }

  /** `toLowerCase()` over a whole string. */
  function LowerCase(s: string): (r: string)
    ensures |r| == |s|
    ensures forall i :: 0 <= i < |s| ==> r[i] == ToLower(s[i])
  {
    if s == [] then [] else [ToLower(s[0])] + LowerCase(s[1..])
  }

  /** `camelcaseToHyphen`: hyphenate the capitals, then lower-case everything. */
  function CamelcaseToHyphen(s: string): string
  {
    LowerCase(HyphenateCapitals(s))
  }

  /** `hyphenToCamelcase`: `replace(/-(\w)/g, ...)` drops each hyphen that is followed by a word
      character and upper-cases that character; matches are taken left to right without overlap. */
  function HyphenToCamelcase(s: string): string
  {
    if s == [] then []
    else if |s| >= 2 && s[0] == '-' && IsWordChar(s[1]) then [ToUpper(s[1])] + HyphenToCamelcase(s[2..])
    else [s[0]] + HyphenToCamelcase(s[1..])
  }

  /** `firstUpperCase`: `str[0]` of the empty string is `undefined`, and calling `toUpperCase` on it throws. */
  function FirstUpperCase(s: string): (r: Outcome<string>)
    ensures r.Throws? <==> s == []
    ensures r.Returns? ==> |r.value| == |s| && r.value[1..] == s[1..]
    ensures r.Returns? ==> !IsLower(r.value[0]) && ToLower(r.value[0]) == ToLower(s[0])
  {
    if s == [] then Throws("TypeError") else Returns([ToUpper(s[0])] + s[1..])
  }

  function CountUpper(s: string): nat
  {
    if s == [] then 0 else (if IsUpper(s[0]) then 1 else 0) + CountUpper(s[1..])
  }

  predicate NoUpper(s: string) { forall i :: 0 <= i < |s| ==> !IsUpper(s[i]) }

  lemma {:induction false} LowerCaseAppend(a: string, b: string)
    ensures LowerCase(a + b) == LowerCase(a) + LowerCase(b)
  {
  }

  /** One step of `camelcaseToHyphen`: the first character's contribution, then the rest. */
  lemma CamelcaseToHyphenCons(c: char, t: string)
    ensures CamelcaseToHyphen([c] + t)
         == (if IsUpper(c) then ['-', ToLower(c)] else [ToLower(c)]) + CamelcaseToHyphen(t)
  {
    assert ([c] + t)[1..] == t;
    var head := if IsUpper(c) then ['-', c] else [c];
    LowerCaseAppend(head, HyphenateCapitals(t));
  }

  /** The result has no capitals, and is one character longer for every capital of the input. */
  lemma {:induction false} CamelcaseToHyphenShape(s: string)
    requires AllAscii(s)
    ensures NoUpper(CamelcaseToHyphen(s))
    ensures |CamelcaseToHyphen(s)| == |s| + CountUpper(s)
  {
    if s != [] {
      CamelcaseToHyphenShape(s[1..]);
      assert s == [s[0]] + s[1..];
      CamelcaseToHyphenCons(s[0], s[1..]);
    }
  }

  /** A leading capital gives a leading hyphen. */
  lemma LeadingCapitalGivesHyphen(s: string)
    requires s != [] && IsUpper(s[0])
    ensures CamelcaseToHyphen(s)[..2] == ['-', ToLower(s[0])]
  {
    assert s == [s[0]] + s[1..];
    CamelcaseToHyphenCons(s[0], s[1..]);
  }

  /** Converting an ASCII string without hyphens to hyphen form and back gives the string again.
      (Beyond ASCII, `toLowerCase` also changes letters such as `É`, which this model's ASCII case
      mapping leaves alone.) */
  lemma {:induction false} CamelRoundTrip(s: string)
    requires AllAscii(s) && '-' !in s
    ensures HyphenToCamelcase(CamelcaseToHyphen(s)) == s
  {
    if s != [] {
      var c, t := s[0], s[1..];
      assert s == [c] + t;
      assert '-' !in t;
      CamelcaseToHyphenCons(c, t);
      CamelRoundTrip(t);
      var h := CamelcaseToHyphen(t);
      if IsUpper(c) {
        assert (['-', ToLower(c)] + h)[2..] == h;
      } else {
        assert ([c] + h)[1..] == h;
      }
    }
  }

  /** Every hyphen of `s` is followed by a lower-case letter. */
  predicate HyphensBeforeLower(s: string)
  {
    forall i :: 0 <= i < |s| && s[i] == '-' ==> i + 1 < |s| && IsLower(s[i + 1])
  }

  /** Converting a lower-case ASCII hyphenated string to camel case and back gives the string again. */
  lemma {:induction false} HyphenRoundTrip(s: string)
    requires AllAscii(s) && NoUpper(s) && HyphensBeforeLower(s)
    ensures CamelcaseToHyphen(HyphenToCamelcase(s)) == s
  {
    if s != [] {
      if s[0] == '-' {
        var x, t := s[1], s[2..];
        assert HyphensBeforeLower(t) by {
          forall i | 0 <= i < |t| && t[i] == '-' ensures i + 1 < |t| && IsLower(t[i + 1]) {
            assert s[i + 2] == t[i];
          }
        }
        HyphenRoundTrip(t);
        assert HyphenToCamelcase(s) == [ToUpper(x)] + HyphenToCamelcase(t);
        CamelcaseToHyphenCons(ToUpper(x), HyphenToCamelcase(t));
        assert s == ['-', x] + t;
      } else {
        var c, t := s[0], s[1..];
        assert HyphensBeforeLower(t) by {
          forall i | 0 <= i < |t| && t[i] == '-' ensures i + 1 < |t| && IsLower(t[i + 1]) {
            assert s[i + 1] == t[i];
          }
        }
        HyphenRoundTrip(t);
        assert HyphenToCamelcase(s) == [c] + HyphenToCamelcase(t);
        CamelcaseToHyphenCons(c, HyphenToCamelcase(t));
        assert s == [c] + t;
      }
    }
  }

  /** `firstUpperCase` applied to its own result changes nothing. */
  lemma FirstUpperCaseIdempotent(s: string)
    requires s != []
    ensures FirstUpperCase(FirstUpperCase(s).value) == FirstUpperCase(s)
  {
  }

  /** For a hyphen-free word starting with a word character, `hyphenToCamelcase("-" + s)` is `firstUpperCase(s)`. */
  lemma {:induction false} HyphenPrefixCapitalises(s: string)
    requires s != [] && IsWordChar(s[0]) && '-' !in s
    ensures HyphenToCamelcase("-" + s) == FirstUpperCase(s).value
  {
    assert ("-" + s)[2..] == s[1..];
    NoHyphenUnchanged(s[1..]);
  }

  /** A string without hyphens is left alone by `hyphenToCamelcase`. */
  lemma {:induction false} NoHyphenUnchanged(s: string)
    requires '-' !in s
    ensures HyphenToCamelcase(s) == s
  {
    if s != [] {
      assert s[0] in s;
      NoHyphenUnchanged(s[1..]);
    }
  }

  /** `camelcaseToHyphen` works piece by piece: converting a concatenation converts each part. */
  lemma {:induction false} CamelcaseToHyphenAppend(a: string, b: string)
    ensures CamelcaseToHyphen(a + b) == CamelcaseToHyphen(a) + CamelcaseToHyphen(b)
  {
    HyphenateCapitalsAppend(a, b);
    LowerCaseAppend(HyphenateCapitals(a), HyphenateCapitals(b));
  }

  lemma {:induction false} HyphenateCapitalsAppend(a: string, b: string)
    ensures HyphenateCapitals(a + b) == HyphenateCapitals(a) + HyphenateCapitals(b)
  {
    if a != [] {
      var head := if IsUpper(a[0]) then ['-', a[0]] else [a[0]];
      assert (a + b)[0] == a[0];
      assert (a + b)[1..] == a[1..] + b;
      HyphenateCapitalsAppend(a[1..], b);
      calc {
        HyphenateCapitals(a + b);
        head + HyphenateCapitals(a[1..] + b);
        head + (HyphenateCapitals(a[1..]) + HyphenateCapitals(b));
        (head + HyphenateCapitals(a[1..])) + HyphenateCapitals(b);
      }
    } else {
      assert a + b == b;
    }
  }

  /** `hyphenToCamelcase` works piece by piece when the first piece does not end with a hyphen
      (a final hyphen could pair with the first character of the second piece). */
  lemma {:induction false} HyphenToCamelcaseAppend(a: string, b: string)
    requires a == [] || a[|a| - 1] != '-'
    ensures HyphenToCamelcase(a + b) == HyphenToCamelcase(a) + HyphenToCamelcase(b)
  {
    if a != [] {
      assert (a + b)[0] == a[0];
      assert |a| >= 2 ==> (a + b)[1] == a[1];
      if |a| >= 2 && a[0] == '-' && IsWordChar(a[1]) {
        assert (a + b)[2..] == a[2..] + b;
        HyphenToCamelcaseAppend(a[2..], b);
      } else {
        assert (a + b)[1..] == a[1..] + b;
        HyphenToCamelcaseAppend(a[1..], b);
      }
    } else {
      assert a + b == b;
    }
  }

  lemma CamelcaseToHyphenExample()
    ensures CamelcaseToHyphen("thisIsAString") == "this-is-a-string"
  {
    var w1, w2, w3, w4 := "this", "Is", "A", "String";
    assert AllAscii(w2[1..]) && NoUpper(w2[1..]);
    assert AllAscii(w4[1..]) && NoUpper(w4[1..]);
    CamelcaseToHyphenJoin(w1, w2, w3, w4);
    assert ['-', ToLower(w2[0])] + w2[1..] == "-is";
    assert ['-', ToLower(w3[0])] + w3[1..] == "-a";
    assert ['-', ToLower(w4[0])] + w4[1..] == "-string";
    assert CamelcaseToHyphen(w1 + w2 + w3 + w4) == "this-is-a-string";
    assert w1 + w2 + w3 + w4 == "thisIsAString";
  }

  /** An ASCII word without capitals is left as it is. */
  lemma {:induction false} CamelcaseToHyphenOfLower(s: string)
    requires AllAscii(s) && NoUpper(s)
    ensures CamelcaseToHyphen(s) == s
  {
    if s != [] {
      assert s == [s[0]] + s[1..];
      CamelcaseToHyphenCons(s[0], s[1..]);
      CamelcaseToHyphenOfLower(s[1..]);
    }
  }

  /** A capitalised word becomes a hyphen and the word in lower case. */
  lemma CamelcaseToHyphenOfCapitalised(s: string)
    requires s != [] && IsUpper(s[0]) && AllAscii(s[1..]) && NoUpper(s[1..])
    ensures CamelcaseToHyphen(s) == ['-', ToLower(s[0])] + s[1..]
  {
    assert s == [s[0]] + s[1..];
    CamelcaseToHyphenCons(s[0], s[1..]);
    CamelcaseToHyphenOfLower(s[1..]);
  }

  /** A word and three capitalised words, converted word by word. */
  lemma CamelcaseToHyphenJoin(w1: string, w2: string, w3: string, w4: string)
    requires AllAscii(w1) && NoUpper(w1)
    requires w2 != [] && IsUpper(w2[0]) && AllAscii(w2[1..]) && NoUpper(w2[1..])
    requires w3 != [] && IsUpper(w3[0]) && AllAscii(w3[1..]) && NoUpper(w3[1..])
    requires w4 != [] && IsUpper(w4[0]) && AllAscii(w4[1..]) && NoUpper(w4[1..])
    ensures CamelcaseToHyphen(w1 + w2 + w3 + w4)
         == w1 + (['-', ToLower(w2[0])] + w2[1..]) + (['-', ToLower(w3[0])] + w3[1..]) + (['-', ToLower(w4[0])] + w4[1..])
  {
    CamelcaseToHyphenAppend(w1 + w2 + w3, w4);
    CamelcaseToHyphenAppend(w1 + w2, w3);
    CamelcaseToHyphenAppend(w1, w2);
    CamelcaseToHyphenOfLower(w1);
    CamelcaseToHyphenOfCapitalised(w2);
    CamelcaseToHyphenOfCapitalised(w3);
    CamelcaseToHyphenOfCapitalised(w4);
  }

  lemma HyphenToCamelcaseExample()
    ensures HyphenToCamelcase("this-is-a-string") == "thisIsAString"
  {
    var w1, w2, w3, w4 := "this", "-is", "-a", "-string";
    assert '-' !in w1 && '-' !in w2[1..] && '-' !in w3[1..] && '-' !in w4[1..];
    HyphenToCamelcaseJoin(w1, w2, w3, w4);
    assert FirstUpperCase(w2[1..]).value == "Is";
    assert FirstUpperCase(w3[1..]).value == "A";
    assert FirstUpperCase(w4[1..]).value == "String";
    assert HyphenToCamelcase(w1 + w2 + w3 + w4) == "thisIsAString";
    assert w1 + w2 + w3 + w4 == "this-is-a-string";
  }

  /** A hyphen-free word followed by three hyphenated words, converted word by word. */
  lemma HyphenToCamelcaseJoin(w1: string, w2: string, w3: string, w4: string)
    requires w1 != [] && w1[|w1| - 1] != '-' && '-' !in w1
    requires |w2| >= 2 && w2[0] == '-' && IsWordChar(w2[1]) && '-' !in w2[1..]
    requires |w3| >= 2 && w3[0] == '-' && IsWordChar(w3[1]) && '-' !in w3[1..]
    requires |w4| >= 2 && w4[0] == '-' && IsWordChar(w4[1]) && '-' !in w4[1..]
    ensures HyphenToCamelcase(w1 + w2 + w3 + w4)
         == w1 + FirstUpperCase(w2[1..]).value + FirstUpperCase(w3[1..]).value + FirstUpperCase(w4[1..]).value
  {
    HyphenToCamelcaseAppend(w1 + w2 + w3, w4);
    HyphenToCamelcaseAppend(w1 + w2, w3);
    HyphenToCamelcaseAppend(w1, w2);
    NoHyphenUnchanged(w1);
    HyphenPrefixCapitalises(w2[1..]);
    HyphenPrefixCapitalises(w3[1..]);
    HyphenPrefixCapitalises(w4[1..]);
    assert w2 == "-" + w2[1..] && w3 == "-" + w3[1..] && w4 == "-" + w4[1..];
  }

  lemma FirstUpperCaseExample()
    ensures FirstUpperCase("abc") == Returns("Abc")
  {
    assert ToUpper('a') == 'A';
    assert ['A'] + "abc"[1..] == "Abc";
  }
}
