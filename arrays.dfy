/** Membership and de-duplication: `oneOf` and `changeReArr`. */
module Arrays {

  /** `oneOf`: a scan of `validList` by index that returns `true` at the first strictly equal element. */
  method OneOf<T(==)>(value: T, validList: seq<T>) returns (found: bool)
    ensures found <==> value in validList
  {
    var i, len := 0, |validList|;
    while i < len
      invariant 0 <= i <= len
      invariant value !in validList[..i]
    {
      if value == validList[i] {
        return true;
      }
      i := i + 1;
    }
    return false;
  }

  predicate NoDuplicates<T(==)>(s: seq<T>)
  {
    forall i, j :: 0 <= i < j < |s| ==> s[i] != s[j]
  }

  /** `changeReArr`: `[...new Set(arr)]`. A `Set` remembers insertion order, so the elements come out
      in the order of their first occurrence, each once. */
  function ChangeReArr<T(==)>(arr: seq<T>): (r: seq<T>)
    ensures |r| <= |arr|
    ensures forall i :: 0 <= i < |r| ==> r[i] in arr
    ensures forall i :: 0 <= i < |arr| ==> arr[i] in r
    ensures NoDuplicates(r)
  {
    if arr == [] then []
    else
      var kept := ChangeReArr(arr[..|arr| - 1]);
      var x := arr[|arr| - 1];
      if x in kept then kept else kept + [x]
  }

  /** The index of the first occurrence of `x` in `s`. */
  function FirstIndex<T(==)>(s: seq<T>, x: T): (k: nat)
    requires x in s
    ensures k < |s| && s[k] == x && x !in s[..k]
  {
    if s[0] == x then 0 else 1 + FirstIndex(s[1..], x)
  }

  lemma FirstIndexOfPrefix<T>(s: seq<T>, x: T, y: T)
    requires s != [] && x == s[|s| - 1] && y in s[..|s| - 1]
    ensures y in s && FirstIndex(s, y) == FirstIndex(s[..|s| - 1], y)
  {
    var p := s[..|s| - 1];
    var k := FirstIndex(p, y);
    assert s[k] == y;
    assert y !in s[..k] by { assert s[..k] == p[..k]; }
    FirstIndexUnique(s, y, k);
  }

  /** The first occurrence is the only index `k` holding `x` with no `x` before it. */
  lemma {:induction false} FirstIndexUnique<T>(s: seq<T>, x: T, k: nat)
    requires k < |s| && s[k] == x && x !in s[..k]
    ensures FirstIndex(s, x) == k
  {
    if k > 0 {
      assert s[0] != x by { assert s[..k][0] == s[0]; }
      assert s[1..][..k - 1] == s[..k][1..];
      FirstIndexUnique(s[1..], x, k - 1);
    }
  }

  /** The result lists the elements in the order of their first occurrence in the input. */
  lemma {:induction false} ChangeReArrFirstOccurrenceOrder<T>(arr: seq<T>)
    ensures forall i, j :: 0 <= i < j < |ChangeReArr(arr)| ==>
      FirstIndex(arr, ChangeReArr(arr)[i]) < FirstIndex(arr, ChangeReArr(arr)[j])
  {
    if arr != [] {
      var p := arr[..|arr| - 1];
      var x := arr[|arr| - 1];
      var kept := ChangeReArr(p);
      var r := ChangeReArr(arr);
      ChangeReArrFirstOccurrenceOrder(p);
      forall i, j | 0 <= i < j < |r|
        ensures FirstIndex(arr, r[i]) < FirstIndex(arr, r[j])
      {
        assert r[i] in kept;
        FirstIndexOfPrefix(arr, x, r[i]);
        if j < |kept| {
          FirstIndexOfPrefix(arr, x, r[j]);
        } else {
          assert r[j] == x && x !in p;
          FirstIndexUnique(arr, x, |arr| - 1);
        }
      }
    }
  }

  /** A sequence without duplicates is its own de-duplication. */
  lemma {:induction false} ChangeReArrOfDistinct<T>(s: seq<T>)
    requires NoDuplicates(s)
    ensures ChangeReArr(s) == s
  {
    if s != [] {
      var p := s[..|s| - 1];
      assert NoDuplicates(p);
      ChangeReArrOfDistinct(p);
      assert s[|s| - 1] !in p;
      assert s == p + [s[|s| - 1]];
    }
  }

  /** De-duplicating twice is the same as de-duplicating once. */
  lemma ChangeReArrIdempotent<T>(arr: seq<T>)
    ensures ChangeReArr(ChangeReArr(arr)) == ChangeReArr(arr)
  {
    ChangeReArrOfDistinct(ChangeReArr(arr));
  }

  lemma ChangeReArrExample()
    ensures ChangeReArr([1, 4, 2, 3, 5, 3, 2, 3, 4, 1, 2, 3, 1]) == [1, 4, 2, 3, 5]
  {
    ChangeReArrExampleSteps([1, 4, 2, 3, 5, 3, 2, 3, 4, 1, 2, 3, 1]);
  }

  lemma ChangeReArrExampleSteps(s: seq<int>)
    requires s == [1, 4, 2, 3, 5, 3, 2, 3, 4, 1, 2, 3, 1]
    ensures ChangeReArr(s) == [1, 4, 2, 3, 5]
  {
    var d := [1, 4, 2, 3, 5];
    assert s[..5] == d;
    ChangeReArrOfDistinct(d);
    assert forall k :: 5 <= k < |s| ==> s[k] in s[..5];
    ChangeReArrKeepsKnown(s, 5);
  }

  /** Appending elements that already occurred leaves the result unchanged. */
  lemma {:induction false} ChangeReArrKeepsKnown<T>(s: seq<T>, n: nat)
    requires n <= |s| && forall k :: n <= k < |s| ==> s[k] in s[..n]
    ensures ChangeReArr(s) == ChangeReArr(s[..n])
    decreases |s| - n
  {
    if n == |s| {
      assert s[..n] == s;
    } else {
      assert s[..n] <= s[..n + 1];
      ChangeReArrKeepsKnown(s, n + 1);
      var p := s[..n + 1];
      assert p[..|p| - 1] == s[..n];
      var i :| 0 <= i < n && s[..n][i] == s[n];
      assert s[n] in ChangeReArr(s[..n]);
    }
  }
}
