/**
 * `orderArr` and `orderObjArr`: `arr.sort(compare)` sorts the array in place and returns it.
 * `Array.prototype.sort` is stable, so its result is fixed by the comparator alone; the model
 * sorts by a key with a stable insertion sort, which gives that same result.
 */
module Ordering {

  predicate SortedBy<T>(s: seq<T>, key: T -> int)
  {
    forall i, j :: 0 <= i < j < |s| ==> key(s[i]) <= key(s[j])
  }

  /** `x` placed after every element of the sorted `s` whose key is not greater than its own. */
  function Insert<T>(x: T, s: seq<T>, key: T -> int): seq<T>
  {
    if s == [] then [x]
    else if key(x) < key(s[0]) then [x] + s
    else [s[0]] + Insert(x, s[1..], key)
  }

  /** The stable sort by `key`: each element in turn inserted into the sorted elements before it. */
  function SortByKey<T>(s: seq<T>, key: T -> int): seq<T>
  {
    if s == [] then [] else Insert(s[|s| - 1], SortByKey(s[..|s| - 1], key), key)
  }

  /** The elements of `s` whose key is `v`, in their order in `s`. */
  function WithKey<T>(s: seq<T>, key: T -> int, v: int): seq<T>
  {
    if s == [] then []
    else WithKey(s[..|s| - 1], key, v) + (if key(s[|s| - 1]) == v then [s[|s| - 1]] else [])
  }

  // ---------------------------------------------------------------------------------------------
  // Facts about Insert

  lemma {:induction false} InsertPermutation<T>(x: T, s: seq<T>, key: T -> int)
    ensures multiset(Insert(x, s, key)) == multiset(s) + multiset{x}
  {
    if s != [] && key(x) >= key(s[0]) {
      InsertPermutation(x, s[1..], key);
      assert s == [s[0]] + s[1..];
    }
  }

  lemma {:induction false} InsertSorted<T>(x: T, s: seq<T>, key: T -> int)
    requires SortedBy(s, key)
    ensures SortedBy(Insert(x, s, key), key)
  {
    if s != [] && key(x) >= key(s[0]) {
      var rest := Insert(x, s[1..], key);
      InsertSorted(x, s[1..], key);
      InsertPermutation(x, s[1..], key);
      forall k | 0 <= k < |rest| ensures key(s[0]) <= key(rest[k]) {
        assert rest[k] in multiset(rest);
        assert rest[k] == x || rest[k] in s[1..];
      }
    }
  }

  /** Inserting into a sorted sequence puts `x` at the index `j` that the insertion loop stops at. */
  lemma {:induction false} InsertAt<T>(x: T, s: seq<T>, j: nat, key: T -> int)
    requires SortedBy(s, key) && j <= |s|
    requires j > 0 ==> key(s[j - 1]) <= key(x)
    requires forall k :: j <= k < |s| ==> key(x) < key(s[k])
    ensures Insert(x, s, key) == s[..j] + [x] + s[j..]
  {
    if j > 0 {
      assert key(s[0]) <= key(x);
      InsertAt(x, s[1..], j - 1, key);
      assert s[1..][..j - 1] == s[1..j];
      assert s[1..][j - 1..] == s[j..];
      assert s[..j] == [s[0]] + s[1..j];
    } else if s != [] {
      assert key(x) < key(s[0]);
    }
  }

  lemma {:induction false} WithKeyAppend<T>(a: seq<T>, b: seq<T>, key: T -> int, v: int)
    ensures WithKey(a + b, key, v) == WithKey(a, key, v) + WithKey(b, key, v)
    decreases |b|
  {
    if b == [] {
      assert a + b == a;
    } else {
      var b' := b[..|b| - 1];
      assert (a + b)[..|a + b| - 1] == a + b';
      WithKeyAppend(a, b', key, v);
    }
  }

  lemma {:induction false} WithKeyNone<T>(s: seq<T>, key: T -> int, v: int)
    requires forall k :: 0 <= k < |s| ==> key(s[k]) != v
    ensures WithKey(s, key, v) == []
  {
    if s != [] {
      WithKeyNone(s[..|s| - 1], key, v);
    }
  }

  lemma WithKeySingleton<T>(x: T, key: T -> int, v: int)
    ensures WithKey([x], key, v) == if key(x) == v then [x] else []
  {
    assert [x][..0] == [];
  }

  /** Insertion keeps the order among elements of equal key: `x` comes after the ones already there. */
  lemma {:induction false} InsertStable<T>(x: T, s: seq<T>, key: T -> int, v: int)
    requires SortedBy(s, key)
    ensures WithKey(Insert(x, s, key), key, v)
         == WithKey(s, key, v) + (if key(x) == v then [x] else [])
    decreases |s|, 1
  {
    WithKeySingleton(x, key, v);
    if s == [] {
      assert Insert(x, s, key) == [x];
    } else if key(x) < key(s[0]) {
      assert Insert(x, s, key) == [x] + s;
      WithKeyAppend([x], s, key, v);
      if key(x) == v {
        assert forall k :: 0 <= k < |s| ==> key(s[k]) != v by {
          forall k | 0 <= k < |s| ensures key(s[k]) != v {
            assert key(s[0]) <= key(s[k]);
          }
        }
        WithKeyNone(s, key, v);
      }
    } else {
      InsertStableStep(x, s, key, v);
    }
  }

  lemma {:induction false} InsertStableStep<T>(x: T, s: seq<T>, key: T -> int, v: int)
    requires SortedBy(s, key) && s != [] && key(x) >= key(s[0])
    ensures WithKey(Insert(x, s, key), key, v)
         == WithKey(s, key, v) + (if key(x) == v then [x] else [])
    decreases |s|, 0
  {
    InsertStable(x, s[1..], key, v);
    assert Insert(x, s, key) == [s[0]] + Insert(x, s[1..], key);
    WithKeyAppend([s[0]], Insert(x, s[1..], key), key, v);
    WithKeyAppend([s[0]], s[1..], key, v);
    assert s == [s[0]] + s[1..];
  }

  lemma {:induction false} InsertAtEnd<T>(x: T, s: seq<T>, key: T -> int)
    requires forall k :: 0 <= k < |s| ==> key(s[k]) <= key(x)
    ensures Insert(x, s, key) == s + [x]
  {
    if s != [] {
      InsertAtEnd(x, s[1..], key);
    }
  }

  // ---------------------------------------------------------------------------------------------
  // Facts about SortByKey

  /** The sort gives an ascending sequence holding the same elements as often as the input. */
  lemma {:induction false} SortByKeySortsAndPermutes<T>(s: seq<T>, key: T -> int)
    ensures SortedBy(SortByKey(s, key), key)
    ensures multiset(SortByKey(s, key)) == multiset(s)
  {
    if s != [] {
      var p, x := s[..|s| - 1], s[|s| - 1];
      SortByKeySortsAndPermutes(p, key);
      InsertSorted(x, SortByKey(p, key), key);
      InsertPermutation(x, SortByKey(p, key), key);
      assert s == p + [x];
    }
  }

  /** The sort is stable: for every key, the elements with that key keep their relative order. */
  lemma {:induction false} SortByKeyStable<T>(s: seq<T>, key: T -> int, v: int)
    ensures WithKey(SortByKey(s, key), key, v) == WithKey(s, key, v)
  {
    if s != [] {
      var p := s[..|s| - 1];
      SortByKeyStable(p, key, v);
      SortByKeySortsAndPermutes(p, key);
      InsertStable(s[|s| - 1], SortByKey(p, key), key, v);
    }
  }

  /** A sequence already in order is left as it is. */
  lemma {:induction false} SortByKeyOfSorted<T>(s: seq<T>, key: T -> int)
    requires SortedBy(s, key)
    ensures SortByKey(s, key) == s
  {
    if s != [] {
      var p := s[..|s| - 1];
      SortByKeyOfSorted(p, key);
      InsertAtEnd(s[|s| - 1], p, key);
    }
  }

  /** Sorting twice gives the same as sorting once. */
  lemma SortByKeyIdempotent<T>(s: seq<T>, key: T -> int)
    ensures SortByKey(SortByKey(s, key), key) == SortByKey(s, key)
  {
    SortByKeySortsAndPermutes(s, key);
    SortByKeyOfSorted(SortByKey(s, key), key);
  }

  // ---------------------------------------------------------------------------------------------
  // The in-place sort

  /** Insertion sort in place: after step `i` the first `i` cells hold the sorted first `i` inputs. */
  method SortInPlace<T>(a: array<T>, key: T -> int)
    modifies a
    ensures a[..] == SortByKey(old(a[..]), key)
  {
    ghost var input := a[..];
    for i := 0 to a.Length
      invariant a[..i] == SortByKey(input[..i], key)
      invariant a[i..] == input[i..]
    {
      SortByKeySortsAndPermutes(input[..i], key);
      InsertLast(a, i, key);
      assert input[..i + 1][..i] == input[..i];
    }
    assert input[..a.Length] == input;
  }

  /** One step of the insertion sort: shift the larger elements of the sorted `a[..i]` one cell to
      the right and put `a[i]` into the gap. */
  method InsertLast<T>(a: array<T>, i: nat, key: T -> int)
    requires i < a.Length && SortedBy(a[..i], key)
    modifies a
    ensures a[..i + 1] == Insert(old(a[i]), old(a[..i]), key)
    ensures a[i + 1..] == old(a[i + 1..])
  {
    var x := a[i];
    ghost var sorted := a[..i];
    var j := i;
    while j > 0 && key(x) < key(a[j - 1])
      invariant 0 <= j <= i
      invariant forall k :: 0 <= k < j ==> a[k] == sorted[k]
      invariant forall k :: j < k <= i ==> a[k] == sorted[k - 1]
      invariant forall k :: j <= k < i ==> key(x) < key(sorted[k])
      invariant forall k :: i < k < a.Length ==> a[k] == old(a[k])
    {
      a[j] := a[j - 1];
      j := j - 1;
    }
    a[j] := x;
    InsertAt(x, sorted, j, key);
    InsertedCells(a[..], sorted, x, j);
    assert a[i + 1..] == old(a[i + 1..]);
  }

  /** Cells that hold `sorted[..j]`, then `x`, then the rest of `sorted` shifted by one. */
  lemma InsertedCells<T>(cells: seq<T>, sorted: seq<T>, x: T, j: nat)
    requires j <= |sorted| < |cells| && cells[j] == x
    requires forall k :: 0 <= k < j ==> cells[k] == sorted[k]
    requires forall k :: j < k <= |sorted| ==> cells[k] == sorted[k - 1]
    ensures cells[..|sorted| + 1] == sorted[..j] + [x] + sorted[j..]
  {
    var inserted := sorted[..j] + [x] + sorted[j..];
    forall k | 0 <= k <= |sorted| ensures cells[k] == inserted[k] {
      if k < j {
        assert inserted[k] == sorted[k];
      } else if j < k {
        assert inserted[k] == sorted[k - 1];
      }
    }
  }

  function Identity(x: int): int { x }

  /** `orderArr`: sorts the numbers ascending in place and returns the same array. */
  method OrderArr(arr: array<int>) returns (r: array<int>)
    modifies arr
    ensures r == arr
    ensures arr[..] == SortByKey(old(arr[..]), Identity)
    ensures SortedBy(arr[..], Identity) && multiset(arr[..]) == multiset(old(arr[..]))
  {
    SortInPlace(arr, Identity);
    SortByKeySortsAndPermutes(old(arr[..]), Identity);
    r := arr;
  }

  /** An object as `orderObjArr` sees it: its numeric properties by name. */
  datatype Entry = Entry(props: map<string, int>)

  /** The comparator's `item[property]`. */
  function PropertyKey(property: string): Entry -> int
  {
    (e: Entry) => if property in e.props then e.props[property] else 0
  }

  /** `orderObjArr`: sorts the objects in place, ascending by `property`, and returns the same array. */
  method OrderObjArr(arr: array<Entry>, property: string) returns (r: array<Entry>)
    requires forall k :: 0 <= k < arr.Length ==> property in arr[k].props
    modifies arr
    ensures r == arr
    ensures arr[..] == SortByKey(old(arr[..]), PropertyKey(property))
    ensures forall k :: 0 <= k < arr.Length ==> property in arr[k].props
    ensures forall i, j :: 0 <= i < j < arr.Length ==> arr[i].props[property] <= arr[j].props[property]
    ensures multiset(arr[..]) == multiset(old(arr[..]))
  {
    SortInPlace(arr, PropertyKey(property));
    SortByKeySortsAndPermutes(old(arr[..]), PropertyKey(property));
    forall k | 0 <= k < arr.Length ensures property in arr[k].props {
      assert arr[k] in multiset(arr[..]);
      assert arr[k] in old(arr[..]);
    }
    r := arr;
  }

  lemma OrderArrExample()
    ensures SortByKey([1, 4, 2, 3, 5], Identity) == [1, 2, 3, 4, 5]
  {
    OrderArrExampleSteps([1, 4, 2, 3, 5]);
  }

  lemma OrderArrExampleSteps(s: seq<int>)
    requires s == [1, 4, 2, 3, 5]
    ensures SortByKey(s, Identity) == [1, 2, 3, 4, 5]
  {
    assert s[..4] == [1, 4, 2, 3];
    assert s[..4][..3] == [1, 4, 2];
    assert s[..4][..3][..2] == [1, 4];
    assert s[..4][..3][..2][..1] == [1];
    assert SortByKey(s[..4][..3][..2], Identity) == Insert(4, [1], Identity) == [1, 4];
    assert SortByKey(s[..4][..3], Identity) == Insert(2, [1, 4], Identity) == [1, 2, 4];
    assert SortByKey(s[..4], Identity) == Insert(3, [1, 2, 4], Identity) == [1, 2, 3, 4];
    assert SortByKey(s, Identity) == Insert(5, [1, 2, 3, 4], Identity);
    InsertAtEnd(5, [1, 2, 3, 4], Identity);
  }
}
