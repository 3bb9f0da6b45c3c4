# utils.js helpers in Dafny

This project models the helper library `utils.js`. Each exported helper of its core becomes a Dafny
function or method, with the properties the helper promises proved about it:

- the value-kind helpers `typeOf`, `isArray`, `isEmptyObj` and `deepCopy` (module `Values`);
- the membership and de-duplication helpers `oneOf` and `changeReArr` (module `Arrays`);
- the case converters `camelcaseToHyphen`, `hyphenToCamelcase` and `firstUpperCase` (module `Strings`);
- `sort`, the merge of two ascending arrays (module `Merge`);
- `orderArr` and `orderObjArr`, the in-place sorts (module `Ordering`);
- `formatDate`, the token substitution over calendar fields (module `DateFormat`);
- `isRealNum`, `formatMoney` and `exchangeNumber` (module `Numbers`).

The shared pieces are:

- `Chars`: ASCII character classes, case mapping and the decimal text of integers;
- `Wrappers`: `Option` and `Outcome`, where `Outcome` is a return value or a thrown error;
- `Sequences`: two sequence identities used by the proofs.

The model follows the form of the source:

- **Imperative helpers are methods.** `oneOf`, `sort`, `deepCopy` and `formatDate`'s token loop
  are methods with loops. `exchangeNumber` is a method that reassigns its two variables three times.
  `orderArr` and `orderObjArr` sort a Dafny `array` in place. Each method is proved against a
  specification function or states its result outright.
- **Expression helpers are functions.** Helpers that are one expression or one regular-expression
  replace become functions, with lemmas about them.
- **Containers live on the heap.** Arrays and plain objects are heap objects (`JsArray`,
  `JsObject`), so `deepCopy` is proved to build fresh containers that share no array or plain object
  with the original.
- **Regular expressions are recognisers or scans.** For `^[0-9]+.?[0-9]*$`, `\B(?=(\d{3})+(?!\d))`
  and `/(x+)/`, a recogniser or a scan is tied by a lemma or by its contract to a separate statement
  of the pattern's meaning. The two case-conversion patterns, `/([A-Z])/g` and `/-(\w)/g`, are
  modelled directly as left-to-right scans. Their shape, append and round-trip lemmas state what
  they do.

Some behaviour of the code is reproduced on purpose:

- **`||` in `sort`.** `arr[i] || Infinity` also reads a `0` element as exhausted; see Findings.
- **Ties in `sort`.** On equal heads, the head of `arr2` is pushed first.
- **`q` in `formatDate`.** The `q` token is the 0-based month (`Math.floor(m * 3 / 3)`), not the
  quarter.
- **Two-digit padding in `formatDate`.** The padding `('00' + v).substr(len)` keeps the last two
  digits of a value of three digits or more.
- **First run only in `formatDate`.** Only the first run of each token letter is replaced, and the
  year run is found case-insensitively.
- **Unescaped `.` in `isRealNum`.** The `.` in `isRealNum`'s pattern accepts any single UTF-16 code
  unit except a line terminator. The pattern has no `u` flag, so a character outside the Basic
  Multilingual Plane (two code units) cannot stand in that place and the string is rejected.
- **`firstUpperCase("")` throws.** `str[0]` is `undefined`, so `.toUpperCase()` raises an error.

## Model

| member | source | states |
|---|---|---|
| Values.TypeOf | utils.js:2-17 | the result is a type name for every kind in the table and `undefined` (`None`) exactly for host kinds whose tag the table lacks |
| Values.Tag | utils.js:3-16 | the `Object.prototype.toString` tag of each kind, which `typeOf` looks up; TypeOfNames states the name each tag leads to |
| Values.TypeOfNames | utils.js:2-17 | each of the ten kinds gets its own name (`boolean`, `number`, `string`, `function`, `array`, `date`, `regExp`, `undefined`, `null`, `object`), and a host kind gets `undefined` |
| Values.TypeOfSeparatesKinds | utils.js:4-16 | two known values get the same type name if and only if they are of the same kind, whatever their contents |
| Values.TypeOfContainers | utils.js:2-17 | `'array'` is returned exactly for arrays and `'object'` exactly for plain objects |
| Arrays.OneOf | utils.js:20-27 | the scan returns true if and only if the value occurs in the list |
| Chars.ToLower | utils.js:31 | `toLowerCase` on one character: the result is never a capital, a capital becomes its lower-case letter (which `ToUpper` maps back), and every other character is kept |
| Chars.ToUpper | utils.js:36-41 | `toUpperCase` on one character: the result is never a lower-case letter, a lower-case letter becomes the capital 32 code points below it, and every other character is kept |
| Strings.LowerCase | utils.js:31 | `toLowerCase` keeps the length and lower-cases each character |
| Strings.HyphenateCapitals | utils.js:31 | the `replace(/([A-Z])/g, "-$1")` step; CamelcaseToHyphenShape and CamelcaseToHyphenAppend state what it contributes |
| Strings.CamelcaseToHyphen | utils.js:30-32 | `camelcaseToHyphen` itself; its properties are the CamelcaseToHyphen* rows, CamelRoundTrip and HyphenRoundTrip |
| Strings.CamelcaseToHyphenShape | utils.js:30-32 | for an ASCII string, the result has no capital letters, and its length is the input's length plus the number of capitals in it |
| Strings.LeadingCapitalGivesHyphen | utils.js:31 | a capital at the start gives a leading hyphen followed by its lower-case letter |
| Strings.CamelcaseToHyphenAppend | utils.js:31 | converting a concatenation converts each part separately |
| Strings.CamelcaseToHyphenOfLower | utils.js:31 | an ASCII string without capitals is returned unchanged |
| Strings.CamelcaseToHyphenOfCapitalised | utils.js:31 | a capital followed by an ASCII word without capitals becomes a hyphen and the lower-case word |
| Strings.CamelcaseToHyphenExample | utils.js:30-32 | `thisIsAString` converts to `this-is-a-string`, derived word by word from CamelcaseToHyphenOfLower and CamelcaseToHyphenOfCapitalised |
| Strings.HyphenToCamelcase | utils.js:35-37 | `hyphenToCamelcase` itself; its properties are NoHyphenUnchanged, HyphenPrefixCapitalises, HyphenToCamelcaseAppend and the two round trips |
| Strings.CamelRoundTrip | utils.js:30-37 | for an ASCII string without hyphens, `hyphenToCamelcase(camelcaseToHyphen(s))` is `s` again |
| Strings.HyphenRoundTrip | utils.js:30-37 | for a lower-case ASCII string whose hyphens each precede a lower-case letter, `camelcaseToHyphen(hyphenToCamelcase(s))` is `s` again |
| Strings.NoHyphenUnchanged | utils.js:35-37 | a string without hyphens is left unchanged by `hyphenToCamelcase` |
| Strings.HyphenPrefixCapitalises | utils.js:35-42 | a hyphen before a hyphen-free word starting with a word character is dropped and the word's first letter upper-cased, as `firstUpperCase` does |
| Strings.HyphenToCamelcaseAppend | utils.js:36 | the left-to-right replace works piece by piece when the first piece does not end in a hyphen |
| Strings.HyphenToCamelcaseExample | utils.js:35-37 | `this-is-a-string` converts to `thisIsAString`, derived word by word from NoHyphenUnchanged and HyphenPrefixCapitalises |
| Strings.FirstUpperCase | utils.js:40-42 | throws exactly on the empty string; otherwise keeps the length and every character after the first, and upper-cases the first character |
| Strings.FirstUpperCaseExample | utils.js:40-42 | `abc` becomes `Abc` |
| Strings.FirstUpperCaseIdempotent | utils.js:40-42 | applying `firstUpperCase` to its own result changes nothing |
| Values.DeepCopy | utils.js:45-69 | the copy denotes the same tree as the original, its containers are all fresh and disjoint from the original's, and non-container kinds are returned as they are |
| Values.CopyArray | utils.js:57-60 | the array branch yields a fresh array of the same length whose elements are copies of the original's elements, in order |
| Values.CopyObject | utils.js:61-66 | the object branch yields a fresh object with exactly the original's own keys, each mapped to a copy of the original value |
| Values.CopyFields | utils.js:62-66 | the `for..in` loop sets exactly the original's keys, each to a copy of its value, with every new container fresh |
| Values.PushCopy | utils.js:59 | one `push` appends a copy of the element and keeps the earlier elements |
| Values.PutCopy | utils.js:64 | one assignment adds the key with a copy of the value and keeps the earlier keys |
| Values.CopyIsDetached | utils.js:45-69 | emptying the copied array leaves the original's tree unchanged |
| Values.WithinGrow | utils.js:45-69 | enlarging the set of heap containers considered leaves a value's tree unchanged |
| Merge.Less | utils.js:110 | the comparison `min1 < min2` on integers and `Infinity`; LessIsStrictTotal states its order |
| Merge.LessIsStrictTotal | utils.js:110 | `<` is irreflexive, transitive and total on distinct values, with `Infinity` above every finite number and below none |
| Merge.HeadOrInfinity | utils.js:108-109 | the intended head read: the element at the pointer, or `Infinity` once the pointer has passed the end; FalsyHeadDiffers compares it with the code as written |
| Merge.MergeSorted | utils.js:105-119 | the intended merge (smaller head first, `arr2`'s head on a tie); MergeSortedFacts, MergePermutation, MergeIsSorted, MergeTakesFirst and MergeTakesSecond state its properties |
| Merge.Merge | utils.js:105-119 | the merge loop computes the intended merge; its result is a permutation of both inputs and is ascending when both inputs are |
| Merge.MergeTakesFirst | utils.js:110-112 | when the first array's head is smaller, the merge continues with that head |
| Merge.MergeTakesSecond | utils.js:113-115 | otherwise, on a tie too, the merge continues with the second array's head |
| Merge.MergeSortedFacts | utils.js:105-119 | the merge is a permutation of the two inputs, and ascending when both are |
| Merge.MergePermutation | utils.js:107 | the merge holds every element of both inputs as often as they do, so its length is the sum of theirs |
| Merge.MergeIsSorted | utils.js:110-116 | merging two ascending sequences gives an ascending sequence |
| Merge.MergeLowerBound | utils.js:110-116 | a bound below all elements of both inputs is below all elements of the merge |
| Merge.MergeExample | utils.js:105-119 | `[1,6]` and `[2,3,4,10]` merge to `[1,2,3,4,6,10]` |
| Merge.FalsyHeadDiffers | utils.js:108-109 | the as-written head read differs from the intended one exactly when the element at the pointer is `0`; both give `Infinity` past the end |
| Merge.FalsyHead | utils.js:108-109 | the falsy-head fallback to `Infinity`: an exhausted pointer or a `0` element reads as `Infinity`; AsWrittenDropsZero and AsWrittenAgreesWithoutZeros state its effect |
| Merge.AsWrittenSteps | utils.js:107-116 | the pushes of the loop as written; MergeAsWritten computes it, and AsWrittenAgreesWithoutZeros and AsWrittenDropsZero compare it with the intended merge |
| Merge.MergeAsWritten | utils.js:105-119 | the loop as written, with its falsy-head fallback to `Infinity`, pushes exactly what the step function of that code gives |
| Merge.AsWrittenAgreesWithoutZeros | utils.js:108-109 | when neither input has a `0`, the loop as written pushes exactly the intended merge |
| Merge.AsWrittenDropsZero | utils.js:108-109 | on `[0]` and `[1]` the loop as written pushes `1, Infinity` where the intended merge is `0, 1` |
| Ordering.Insert | utils.js:180-198 | one insertion into a sorted sequence, after the elements whose key is not greater; the SortByKey* rows state what the sort built from it does |
| Ordering.SortByKey | utils.js:180-198 | the stable sort by key that `arr.sort` performs; SortByKeySortsAndPermutes, SortByKeyStable, SortByKeyOfSorted and SortByKeyIdempotent state its properties |
| Ordering.PropertyKey | utils.js:194-196 | the comparator's `item[property]`, the key OrderObjArr sorts by |
| Ordering.SortInPlace | utils.js:180-198 | the in-place sort leaves the array holding the stable sort by key of its old contents |
| Ordering.InsertLast | utils.js:180-198 | one insertion step places the next element into the sorted prefix and leaves the cells after it untouched |
| Ordering.SortByKeySortsAndPermutes | utils.js:180-198 | the sort result is ascending by key and a permutation of the input |
| Ordering.SortByKeyStable | utils.js:180-198 | for every key, the elements with that key keep their relative order |
| Ordering.SortByKeyOfSorted | utils.js:180-198 | a sequence already ascending by key is left as it is |
| Ordering.SortByKeyIdempotent | utils.js:180-198 | sorting twice gives the same as sorting once |
| Ordering.OrderArr | utils.js:180-184 | sorts the numbers ascending in place and returns the same array, a permutation of the old contents |
| Ordering.OrderArrExample | utils.js:180-184 | `[1,4,2,3,5]` sorts to `[1,2,3,4,5]` |
| Ordering.OrderObjArr | utils.js:192-198 | sorts the records ascending by the property in place and returns the same array, a permutation of the old contents |
| DateFormat.Tokens | utils.js:128-136 | the token table in its declaration order, the `q` entry being the 0-based month; QuarterTokenIsMonth states its effect |
| DateFormat.YearText | utils.js:140 | `` `${year}`.substr(4 - len) ``; YearTextFourDigits states its value |
| DateFormat.TokenText | utils.js:145 | the value for one letter, `('00' + v).substr(len)` for more; TokenTextDigits states its value |
| DateFormat.ReplaceFirst | utils.js:140-145 | `replace` with a string pattern, only the first occurrence replaced; ReplaceRunShape states its effect on a token run |
| DateFormat.IsTokenChar | utils.js:139 | the characters `/(y+)/i` matches: the letter itself or, under the `i` flag, the same letter in the other case; RunStartFrom and RunEnd are stated in terms of it |
| DateFormat.Capture | utils.js:139-144 | the `RegExp.$1` a `/(x+)/` test leaves; ReplaceRunShape, RunStartFrom and RunEnd state that it is the first, longest run |
| DateFormat.YearStep | utils.js:139-141 | the year substitution; YearStepShape states its effect and ReplaceYear computes it |
| DateFormat.TokenStep | utils.js:144-146 | one token substitution; TokenStepShape and TokenStepAbsent state its effect |
| DateFormat.ApplyTokens | utils.js:143-147 | the token loop over the table; ReplaceTokens computes it |
| DateFormat.DefaultFormat | utils.js:127 | the default `format` parameter `yyyy-MM-dd`; DefaultFormatShape states what it produces |
| DateFormat.FormatDateSpec | utils.js:127-150 | the whole substitution; DefaultFormatShape, DateTimeFormatShape, QuarterTokenIsMonth and FormatDateExample state its results |
| DateFormat.FormatDate | utils.js:127-150 | the year step then the token loop give the format's substitution, with `yyyy-MM-dd` when no format is given |
| DateFormat.ReplaceYear | utils.js:139-141 | the first case-insensitive run of `y` is replaced by the year's text |
| DateFormat.ReplaceTokens | utils.js:143-147 | each table entry in table order replaces the first run of its letter |
| DateFormat.Substr | utils.js:140-145 | `substr(start)` is a suffix of the string: of length (string length minus `start`) for a start inside it, of length `-start` for a negative start inside it, empty for a start past the end and the whole string for a negative start before the beginning |
| DateFormat.IndexOfFrom | utils.js:140-145 | a found index is the first occurrence of the pattern at or after the start, and `None` means it occurs nowhere there |
| DateFormat.RunStartFrom | utils.js:139-144 | the run found is the first character the token letter matches, with none before it |
| DateFormat.RunEnd | utils.js:139-144 | the captured run extends as far as the letter repeats |
| DateFormat.ReplaceRunShape | utils.js:139-146 | the captured group is the first run of the letter, and replacing it changes only that run |
| DateFormat.TokenStepShape | utils.js:144-146 | the first run of a token letter is replaced by the field's text and everything after it is kept, later runs of the same letter included |
| DateFormat.TokenStepAbsent | utils.js:144 | a format without the token letter is left unchanged |
| DateFormat.YearStepShape | utils.js:139-141 | the first run of `y`/`Y`, in any mix of cases, is replaced by the year text and the rest is kept |
| DateFormat.TokenTextDigits | utils.js:145 | a one-letter token gives the unpadded decimal value; a longer one gives exactly two digits, the value's last two (zero-padded below 10) |
| DateFormat.YearTextFourDigits | utils.js:140 | for a four-digit year, `yyyy` gives the year and `yy` its last two digits |
| DateFormat.QuarterTokenIsMonth | utils.js:134 | the format `q` gives the 0-based month, not the quarter |
| DateFormat.DefaultFormatShape | utils.js:127 | with no format, a four-digit year gives the year, the 1-based month and the day, each two-digit, joined by `-` |
| DateFormat.DateTimeFormatShape | utils.js:127-150 | `yyyy-MM-dd hh:mm:ss` gives the year, then every other field as two digits |
| DateFormat.FormatDateExample | utils.js:127-150 | 18 August 2019 at midnight formats as `2019-08-18 00:00:00` |
| Chars.IntText | utils.js:140 | the template-literal text of an integer year: a leading `-` exactly for a negative year, then digits with no leading zero, ending in the value's last digit |
| Chars.Decimal | utils.js:140-145 | the text of a non-negative integer: digits only, no leading zero, ending in the value's last digit, one digit exactly below 10 |
| Chars.DecimalValue | utils.js:140-145 | reading back the digits of an integer's text gives the integer |
| Chars.DecimalOfValue | utils.js:140-145 | every digit string without a leading zero is the text of its value |
| Values.Falsy | utils.js:154 | `!arr`: `undefined`, `null`, `false`, `0` and the empty string are falsy, and every other modelled value is truthy; IsArray is stated in terms of it |
| Values.IsArray | utils.js:153-160 | the result is true exactly for arrays, whether or not the host has `Array.isArray` |
| Numbers.DigitRun | utils.js:164 | the length of the maximal run of digits starting at an index |
| Chars.DotMatchesChar | utils.js:164 | the unescaped `.` without the `u` flag: one UTF-16 code unit that is not a line terminator; IsRealNumRejectsAstral states its effect |
| Numbers.IsRealNum | utils.js:163-170 | `isRealNum` itself; IsRealNumMatchesPattern states the language it accepts |
| Numbers.IsRealNumMatchesPattern | utils.js:163-170 | the recogniser accepts a string if and only if it is one or more digits, an optional character that is one UTF-16 code unit and not a line terminator, then digits |
| Numbers.IsRealNumRejectsAstral | utils.js:164 | a character outside the Basic Multilingual Plane after the digits makes the string rejected, while an accented letter inside it is accepted |
| Numbers.IsRealNumAccepts | utils.js:163-170 | `1231223`, `1a2`, `3.14` and `7.` are accepted |
| Numbers.IsRealNumRejects | utils.js:163-170 | the empty string, `.5` and a string with a newline between digits are rejected |
| Numbers.IsRealNumRejectsText | utils.js:163-170 | `111this is a string.111` is rejected |
| Arrays.ChangeReArr | utils.js:173-177 | the result has no duplicates, is no longer than the input, and holds exactly the input's elements |
| Arrays.ChangeReArrFirstOccurrenceOrder | utils.js:176 | the result lists the elements in the order of their first occurrence in the input |
| Arrays.ChangeReArrOfDistinct | utils.js:176 | an input without duplicates is returned as it is |
| Arrays.ChangeReArrIdempotent | utils.js:173-177 | de-duplicating twice is the same as de-duplicating once |
| Arrays.ChangeReArrKeepsKnown | utils.js:176 | appending elements that already occurred does not change the result |
| Arrays.ChangeReArrExample | utils.js:173-177 | `[1,4,2,3,5,3,2,3,4,1,2,3,1]` gives `[1,4,2,3,5]` |
| Numbers.FormatMoneyFrom | utils.js:241 | the global replace scanning from a position, a comma inserted wherever the pattern matches; FormatMoneyRemoveCommas and FormatMoneyGroupsDigits state its result |
| Numbers.FormatMoney | utils.js:239-242 | `formatMoney` itself; FormatMoneyRemoveCommas, FormatMoneyGroupsDigits and FormatMoneyExample state its results |
| Numbers.CommaBeforeIsPatternMatch | utils.js:241 | the comma condition holds at a position if and only if `\B` and the lookahead `(?=(\d{3})+(?!\d))` both match there |
| Numbers.CommaBeforeInDigits | utils.js:241 | on a digit string of length n, a comma goes before index i exactly when 0 < i < n and n - i is a multiple of 3 |
| Numbers.FormatMoneyRemoveCommas | utils.js:239-242 | deleting the commas from the result gives the input with its commas deleted, which is the input itself when it had none |
| Numbers.FormatMoneyGroupsDigits | utils.js:239-242 | on a digit string the replace equals the grouping by thousands from the right |
| Numbers.FormatMoneyExample | utils.js:239-242 | `1234567890` becomes `1,234,567,890` |
| Numbers.ExchangeNumber | utils.js:249-254 | the three XORs on 32-bit values return the two values exchanged |
| Values.OwnPropertyNames | utils.js:258 | throws exactly on `undefined` and `null`; a plain object's names are its keys; arrays, strings, functions and regular expressions have at least one own name |
| Values.IsEmptyObj | utils.js:257-259 | `isEmptyObj` itself; IsEmptyObjCases states its result for every kind |
| Values.IsEmptyObjCases | utils.js:257-259 | throws on `undefined` and `null`; true for a plain object exactly when it has no own enumerable properties (the only kind the model has); false for arrays, strings, functions and regular expressions; true for numbers, booleans and dates |

## Left out

- `scrollTop` (utils.js:72-102) is not modelled. It drives the DOM through `requestAnimationFrame` with floating-point steps.
- `getBoundingClientRect`, `setCookie` and `getCookie` (utils.js:262-300) are not modelled. They are thin wrappers over browser host objects (`document.cookie`, `Date` arithmetic, `unescape`).
- `modifyObjAttr` and `defineObjAccess` (utils.js:201-236) are not modelled. They are unexported demonstrations of `Object.defineProperty` that return nothing.
- The commented-out helpers (utils.js:308-336) are not modelled.
- `get` is imported and called by test/utils.test.js, but utils.js neither defines nor exports it, so nothing models it.
- JavaScript numbers are modelled as unbounded integers. Floating point, `NaN` and `-0` are not modelled.
- Numbers.ExchangeNumber: works on `bv32` values. It omits the ToInt32 conversion that JavaScript's `^` applies to its operands first.
- DateFields: the `Date` getters read the local time zone, so the calendar fields are taken as inputs instead.
- Chars.ToLower and Chars.ToUpper: map ASCII letters only. Non-ASCII case mapping is not modelled.
- Strings.LowerCase: keeps the length only under the ASCII mapping. JavaScript lower-cases `İ` to two code units.
- Strings.FirstUpperCase: keeps the length only under the ASCII mapping. JavaScript upper-cases `ß` to `SS`.
- Strings.CamelcaseToHyphenAppend: holds of the source for ASCII strings. Beyond ASCII, `toLowerCase` picks the form of a Greek capital sigma from its neighbours, so a concatenation is not always converted piece by piece.
- `isRealNum` and `firstUpperCase` convert their argument with `toString()`. The model takes a string directly.
- Numbers.FormatMoneyGroupsDigits: holds for digit-only strings only. With a decimal point the lookahead also groups the fraction, which the model computes but no lemma describes.
- Ordering.OrderObjArr: requires every element to have the property. A missing property gives `NaN` comparisons, whose resulting order the engine does not fix.
- Ordering.SortInPlace: the engine's sort algorithm is not specified. The model uses a stable insertion sort, and since the sort is stable its result is fixed by the comparator alone.
- Values.DeepCopy: requires a finite nesting depth (`Within`). On a cyclic value the source recurses until the stack overflows and a `RangeError` is thrown; the model has no such value.
- Values.DeepCopy: `for..in` also visits inherited enumerable keys, which `hasOwnProperty` then skips. Prototype chains and key order are not modelled.
- Values.DeepCopy: every value that is not an array or a plain object is returned by reference, so the copy shares the original's `Date`, `RegExp`, function, `Map` and `Set` objects. The model treats these as immutable values, so their mutability and this sharing are not modelled.
- Values.DeepCopy: `JsObject.props` holds only an object's own enumerable properties. The source's `for..in` skips non-enumerable own properties, so the copy lacks them. The model cannot represent such properties.
- Values.IsEmptyObj: non-enumerable own properties are not modelled. `Object.getOwnPropertyNames` also lists those, so an object whose only property was added by `Object.defineProperty` without `enumerable` is not empty in the source. IsEmptyObjCases' result for a plain object is therefore the source's only when all its own properties are enumerable.
- Values.OwnPropertyNames: functions, regular expressions and host objects get fixed sets of own names, rather than their full property lists. A string's index names are counted by characters, whereas JavaScript counts UTF-16 code units, so a string with a character above U+FFFF gets too few index names. No contract and no `IsEmptyObj` result depends on that count.
- DateFormat.FormatDate: `format = 'yyyy-MM-dd'` replaces only an absent or `undefined` format. The model's `None` stands for those cases, and a `null` format is not modelled.

## Findings

| source | as written | input that shows it | evidently intended | confidence | as-written member | corrected member |
|---|---|---|---|---|---|---|
| utils.js:108-109 | the fallback from a falsy head to `Infinity` reads a `0` element as an exhausted array, so the `0` is never pushed and `Infinity` is pushed in its place | `sort([0], [1])` pushes `1, Infinity` | test the pointer against the length, giving `[0, 1]` | not executed | Merge.AsWrittenDropsZero | Merge.Merge |
