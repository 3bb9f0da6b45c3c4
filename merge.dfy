/**
 * `sort(arr1, arr2)`: the merge of two ascending arrays by two pointers. At each of the
 * `|arr1| + |arr2|` steps the smaller current head is pushed, the head of `arr2` on a tie, and a
 * pointer past the end of its array reads as `Infinity`.
 */
module Merge {
  import opened Sequences

  /** A JavaScript number as the merge compares it: a finite integer or `Infinity`. */
  datatype Ext = Fin(n: int) | Inf

  /** The comparison `min1 < min2`. */
  predicate Less(a: Ext, b: Ext)
  {
    match (a, b)
    case (Fin(x), Fin(y)) => x < y
    case (Fin(_), Inf) => true
    case (Inf, _) => false
  }

  /** `<` on these numbers is a strict total order with `Infinity` above every finite number. */
  lemma LessIsStrictTotal(a: Ext, b: Ext, c: Ext)
    ensures !Less(a, a)
    ensures Less(a, b) && Less(b, c) ==> Less(a, c)
    ensures a != b ==> Less(a, b) || Less(b, a)
    ensures a.Fin? ==> Less(a, Inf)
    ensures !Less(Inf, a)
  {
  }

  predicate Sorted(s: seq<int>)
  {
    forall i, j :: 0 <= i < j < |s| ==> s[i] <= s[j]
  }

  /** The intended merge: the smaller head first, the head of `b` on a tie. */
  function MergeSorted(a: seq<int>, b: seq<int>): seq<int>
  {
    if a == [] then b
    else if b == [] then a
    else if a[0] < b[0] then [a[0]] + MergeSorted(a[1..], b)
    else [b[0]] + MergeSorted(a, b[1..])
  }

  /** The current head of `s` at pointer `i`, `Infinity` once the pointer has passed the end. */
  function HeadOrInfinity(s: seq<int>, i: nat): Ext
  {
    if i < |s| then Fin(s[i]) else Inf
  }

  /** `sort` with the exhausted-array test done on the pointer (the behaviour the source intends). */
  method Merge(arr1: seq<int>, arr2: seq<int>) returns (result: seq<int>)
    ensures result == MergeSorted(arr1, arr2)
    ensures multiset(result) == multiset(arr1) + multiset(arr2)
    ensures Sorted(arr1) && Sorted(arr2) ==> Sorted(result)
  {
    var i, j := 0, 0;
    result := [];
    for n := 0 to |arr1| + |arr2|
      invariant i + j == n && i <= |arr1| && j <= |arr2|
      invariant result + MergeSorted(arr1[i..], arr2[j..]) == MergeSorted(arr1, arr2)
    {
      var min1 := HeadOrInfinity(arr1, i);
      var min2 := HeadOrInfinity(arr2, j);
      if Less(min1, min2) {
        MergeTakesFirst(arr1, arr2, i, j);
        ConcatAssoc(result, [min1.n], MergeSorted(arr1[i + 1..], arr2[j..]));
        result := result + [min1.n];
        i := i + 1;
      } else {
        MergeTakesSecond(arr1, arr2, i, j);
        ConcatAssoc(result, [min2.n], MergeSorted(arr1[i..], arr2[j + 1..]));
        result := result + [min2.n];
        j := j + 1;
      }
    }
    assert arr1[i..] == [] && arr2[j..] == [];
    MergeSortedFacts(arr1, arr2);
  }

  /** When the head of `a` compares smaller, the merge of the rests starts with it. */
  lemma MergeTakesFirst(a: seq<int>, b: seq<int>, i: nat, j: nat)
    requires i <= |a| && j <= |b| && Less(HeadOrInfinity(a, i), HeadOrInfinity(b, j))
    ensures i < |a| && MergeSorted(a[i..], b[j..]) == [a[i]] + MergeSorted(a[i + 1..], b[j..])
  {
    assert a[i..][1..] == a[i + 1..];
  }

  /** Otherwise, while elements remain, it starts with the head of `b`. */
  lemma MergeTakesSecond(a: seq<int>, b: seq<int>, i: nat, j: nat)
    requires i <= |a| && j <= |b| && i + j < |a| + |b| && !Less(HeadOrInfinity(a, i), HeadOrInfinity(b, j))
    ensures j < |b| && MergeSorted(a[i..], b[j..]) == [b[j]] + MergeSorted(a[i..], b[j + 1..])
  {
    assert b[j..][1..] == b[j + 1..];
  }

  /** What the caller of the merge may rely on: a permutation of the inputs, ascending when they are. */
  lemma MergeSortedFacts(a: seq<int>, b: seq<int>)
    ensures multiset(MergeSorted(a, b)) == multiset(a) + multiset(b)
    ensures Sorted(a) && Sorted(b) ==> Sorted(MergeSorted(a, b))
  {
    MergePermutation(a, b);
    if Sorted(a) && Sorted(b) {
      MergeIsSorted(a, b);
    }
  }

  /** The merge holds every element of both inputs, as often as they do. */
  lemma {:induction false} MergePermutation(a: seq<int>, b: seq<int>)
    ensures multiset(MergeSorted(a, b)) == multiset(a) + multiset(b)
    ensures |MergeSorted(a, b)| == |a| + |b|
  {
    if a != [] && b != [] {
      if a[0] < b[0] {
        MergePermutation(a[1..], b);
        assert a == [a[0]] + a[1..];
      } else {
        MergePermutation(a, b[1..]);
        assert b == [b[0]] + b[1..];
      }
    }
  }

  /** Merging two ascending sequences gives an ascending sequence. */
  lemma {:induction false} MergeIsSorted(a: seq<int>, b: seq<int>)
    requires Sorted(a) && Sorted(b)
    ensures Sorted(MergeSorted(a, b))
  {
    if a != [] && b != [] {
      if a[0] < b[0] {
        MergeIsSorted(a[1..], b);
        MergeLowerBound(a[1..], b, a[0]);
        SortedCons(a[0], MergeSorted(a[1..], b));
      } else {
        MergeIsSorted(a, b[1..]);
        MergeLowerBound(a, b[1..], b[0]);
        SortedCons(b[0], MergeSorted(a, b[1..]));
      }
    }
  }

  /** A bound below every element of both inputs is below every element of the merge. */
  lemma MergeLowerBound(a: seq<int>, b: seq<int>, x: int)
    requires forall k :: 0 <= k < |a| ==> x <= a[k]
    requires forall k :: 0 <= k < |b| ==> x <= b[k]
    ensures forall k :: 0 <= k < |MergeSorted(a, b)| ==> x <= MergeSorted(a, b)[k]
  {
    var m := MergeSorted(a, b);
    MergePermutation(a, b);
    forall k | 0 <= k < |m| ensures x <= m[k] {
      assert m[k] in multiset(m);
      assert m[k] in a || m[k] in b;
    }
  }

  lemma SortedCons(x: int, s: seq<int>)
    requires Sorted(s) && forall k :: 0 <= k < |s| ==> x <= s[k]
    ensures Sorted([x] + s)
  {
  }

  lemma MergeExample()
    ensures MergeSorted([1, 6], [2, 3, 4, 10]) == [1, 2, 3, 4, 6, 10]
  {
  }

  // ---------------------------------------------------------------------------------------------
  // The merge as written: `min1 = arr1[i] || Infinity` also reads a 0 element as Infinity.

  /** `arr[i] || Infinity`: a pointer past the end reads `undefined`, and both `undefined` and `0`
      are falsy, so both give `Infinity`. */
  function FalsyHead(s: seq<int>, i: nat): Ext
  {
    if i < |s| && s[i] != 0 then Fin(s[i]) else Inf
  }

  /** The two head reads differ exactly where the array still has a `0` at the pointer. */
  lemma FalsyHeadDiffers(s: seq<int>, i: nat)
    ensures FalsyHead(s, i) != HeadOrInfinity(s, i) <==> i < |s| && s[i] == 0
    ensures i >= |s| ==> FalsyHead(s, i) == Inf && HeadOrInfinity(s, i) == Inf
    ensures i < |s| ==> HeadOrInfinity(s, i) == Fin(s[i])
  {
  }

  /** The values the as-written loop pushes in its remaining `steps` iterations from pointers `i`, `j`. */
  function AsWrittenSteps(a: seq<int>, b: seq<int>, i: nat, j: nat, steps: nat): seq<Ext>
    decreases steps
  {
    if steps == 0 then []
    else
      var min1 := FalsyHead(a, i);
      var min2 := FalsyHead(b, j);
      if Less(min1, min2) then [min1] + AsWrittenSteps(a, b, i + 1, j, steps - 1)
      else [min2] + AsWrittenSteps(a, b, i, j + 1, steps - 1)
  }

  /** `sort` exactly as written. Its result may hold `Infinity`, since a `0` head is pushed as `Infinity`. */
  method MergeAsWritten(arr1: seq<int>, arr2: seq<int>) returns (result: seq<Ext>)
    ensures result == AsWrittenSteps(arr1, arr2, 0, 0, |arr1| + |arr2|)
  {
    var i, j := 0, 0;
    result := [];
    var total := |arr1| + |arr2|;
    for n := 0 to total
      invariant result + AsWrittenSteps(arr1, arr2, i, j, total - n) == AsWrittenSteps(arr1, arr2, 0, 0, total)
    {
      var min1 := FalsyHead(arr1, i);
      var min2 := FalsyHead(arr2, j);
      if Less(min1, min2) {
        result := result + [min1];
        i := i + 1;
      } else {
        result := result + [min2];
        j := j + 1;
      }
    }
  }

  function Lift(s: seq<int>): (r: seq<Ext>)
    ensures |r| == |s| && forall k :: 0 <= k < |s| ==> r[k] == Fin(s[k])
  {
    if s == [] then [] else [Fin(s[0])] + Lift(s[1..])
  }

  /** Without `0` elements the as-written loop pushes exactly the intended merge. */
  lemma {:induction false} AsWrittenAgreesWithoutZeros(a: seq<int>, b: seq<int>, i: nat, j: nat)
    requires 0 !in a && 0 !in b && i <= |a| && j <= |b|
    ensures AsWrittenSteps(a, b, i, j, |a| - i + |b| - j) == Lift(MergeSorted(a[i..], b[j..]))
    decreases |a| - i + |b| - j
  {
    var steps := |a| - i + |b| - j;
    if steps > 0 {
      if i < |a| { assert a[i] in a; }
      if j < |b| { assert b[j] in b; }
      var min1 := FalsyHead(a, i);
      var min2 := FalsyHead(b, j);
      assert min1 == HeadOrInfinity(a, i) && min2 == HeadOrInfinity(b, j);
      if Less(min1, min2) {
        AsWrittenAgreesWithoutZeros(a, b, i + 1, j);
        MergeTakesFirst(a, b, i, j);
      } else {
        AsWrittenAgreesWithoutZeros(a, b, i, j + 1);
        MergeTakesSecond(a, b, i, j);
      }
    } else {
      assert a[i..] == [] && b[j..] == [];
    }
  }

  /** A `0` element is lost: merging `[0]` and `[1]` pushes `1` and then `Infinity`, not `0, 1`. */
  lemma AsWrittenDropsZero()
    ensures AsWrittenSteps([0], [1], 0, 0, 2) == [Fin(1), Inf]
    ensures Lift(MergeSorted([0], [1])) == [Fin(0), Fin(1)]
  {
  }
}
