/**
 * Stable sorting by a descending integer key, as `Array.prototype.sort`
 * does with a comparator `(a, b) => key(b) - key(a)` (ECMAScript requires
 * the sort to be stable). `SortDesc` is the reference definition (insertion
 * sort on values); `SortDescInPlace` sorts an array in place and is proved
 * to produce exactly `SortDesc` of the old contents.
 */
module Sorting {

  /**
   * Inserts `x` in front of the first element whose key is at most `x`'s,
   * so `x` stays ahead of the equal-key elements of `t`.
   */
  function InsertFirst<T>(x: T, t: seq<T>, key: T -> int): (r: seq<T>)
    ensures |r| == |t| + 1
  {
    if t == [] || key(t[0]) <= key(x) then [x] + t
    else [t[0]] + InsertFirst(x, t[1..], key)
  }

  function SortDesc<T>(s: seq<T>, key: T -> int): (r: seq<T>)
    ensures |r| == |s|
  {
    if s == [] then [] else InsertFirst(s[0], SortDesc(s[1..], key), key)
  }

  /** Keys never increase from left to right. */
  predicate NonIncreasing<T>(s: seq<T>, key: T -> int) {
    forall i, j :: 0 <= i < j < |s| ==> key(s[i]) >= key(s[j])
  }

  /** The elements whose key is `v`, in their order in `s`. */
  function KeyRun<T>(s: seq<T>, key: T -> int, v: int): seq<T> {
    if s == [] then []
    else (if key(s[0]) == v then [s[0]] else []) + KeyRun(s[1..], key, v)
  }

  lemma {:induction false} InsertFirstSorted<T>(x: T, t: seq<T>, key: T -> int)
    requires NonIncreasing(t, key)
    ensures NonIncreasing(InsertFirst(x, t, key), key)
    ensures InsertFirst(x, t, key)[0] == if t == [] || key(t[0]) <= key(x) then x else t[0]
  {
    if t == [] || key(t[0]) <= key(x) {
    } else {
      var rest := InsertFirst(x, t[1..], key);
      InsertFirstSorted(x, t[1..], key);
      var r := [t[0]] + rest;
      forall i, j | 0 <= i < j < |r| ensures key(r[i]) >= key(r[j]) {
        if i == 0 {
          assert key(t[0]) >= key(rest[0]);
          assert key(rest[0]) >= key(rest[j - 1]) || j == 1;
        } else {
          assert r[i] == rest[i - 1] && r[j] == rest[j - 1];
        }
      }
    }
  }

  /** The result of SortDesc is ordered by non-increasing key. */
  lemma {:induction false} SortDescNonIncreasing<T>(s: seq<T>, key: T -> int)
    ensures NonIncreasing(SortDesc(s, key), key)
  {
    if s != [] {
      SortDescNonIncreasing(s[1..], key);
      InsertFirstSorted(s[0], SortDesc(s[1..], key), key);
    }
  }

  lemma {:induction false} InsertFirstMultiset<T>(x: T, t: seq<T>, key: T -> int)
    ensures multiset(InsertFirst(x, t, key)) == multiset{x} + multiset(t)
  {
    if t != [] && key(t[0]) > key(x) {
      InsertFirstMultiset(x, t[1..], key);
      assert t == [t[0]] + t[1..];
    }
  }

  /** SortDesc only reorders: the result is a permutation of the input. */
  lemma {:induction false} SortDescPermutes<T>(s: seq<T>, key: T -> int)
    ensures multiset(SortDesc(s, key)) == multiset(s)
  {
    if s != [] {
      SortDescPermutes(s[1..], key);
      InsertFirstMultiset(s[0], SortDesc(s[1..], key), key);
      assert s == [s[0]] + s[1..];
    }
  }

  lemma {:induction false} InsertFirstRun<T>(x: T, t: seq<T>, key: T -> int, v: int)
    ensures KeyRun(InsertFirst(x, t, key), key, v) == (if key(x) == v then [x] else []) + KeyRun(t, key, v)
  {
    var r := InsertFirst(x, t, key);
    if t == [] || key(t[0]) <= key(x) {
      assert r[1..] == t;
    } else {
      InsertFirstRun(x, t[1..], key, v);
      assert r[1..] == InsertFirst(x, t[1..], key);
    }
  }

  /**
   * SortDesc is stable: for every key value, the elements carrying it come
   * out in the order they went in.
   */
  lemma {:induction false} SortDescStable<T>(s: seq<T>, key: T -> int, v: int)
    ensures KeyRun(SortDesc(s, key), key, v) == KeyRun(s, key, v)
  {
    if s != [] {
      SortDescStable(s[1..], key, v);
      InsertFirstRun(s[0], SortDesc(s[1..], key), key, v);
    }
  }

  /** Inserting `x` at position `k` of `t`, where the keys before `k` exceed `x`'s and the key at `k` does not. */
  lemma {:induction false} InsertFirstAt<T>(x: T, t: seq<T>, key: T -> int, k: nat)
    requires k <= |t|
    requires forall m :: 0 <= m < k ==> key(t[m]) > key(x)
    requires k == |t| || key(t[k]) <= key(x)
    ensures InsertFirst(x, t, key) == t[..k] + [x] + t[k..]
  {
    if k == 0 {
      assert t[k..] == t;
    } else {
      InsertFirstAt(x, t[1..], key, k - 1);
      assert t[1..][..k - 1] == t[1..k];
      assert t[1..][k - 1..] == t[k..];
      assert t[..k] == [t[0]] + t[1..k];
    }
  }

  /**
   * One insertion step: moves `a[i]` rightwards past the elements of the
   * (already sorted) suffix whose key is larger.
   */
  method InsertInPlace<T>(a: array<T>, i: nat, key: T -> int)
    requires i < a.Length
    modifies a
    ensures a[..i] == old(a[..i])
    ensures a[i..] == InsertFirst(old(a[i]), old(a[i + 1..]), key)
  {
    ghost var t := a[i + 1..];
    var x := a[i];
    var j := i;
    while j + 1 < a.Length && key(a[j + 1]) > key(x)
      invariant i <= j < a.Length
      invariant a[..i] == old(a[..i])
      invariant a[i..j] == t[..j - i]
      invariant a[j + 1..] == t[j - i..]
      invariant forall m :: 0 <= m < j - i ==> key(t[m]) > key(x)
    {
      a[j] := a[j + 1];
      j := j + 1;
    }
    a[j] := x;
    InsertFirstAt(x, t, key, j - i);
    assert a[i..] == a[i..j] + [x] + a[j + 1..];
  }

  /** Sorts `a` in place: a right-to-left insertion sort. */
  method SortDescInPlace<T>(a: array<T>, key: T -> int)
    modifies a
    ensures a[..] == SortDesc(old(a[..]), key)
  {
    ghost var s := a[..];
    var i := a.Length;
    assert s[i..] == [];
    while i > 0
      invariant 0 <= i <= a.Length
      invariant a[..i] == s[..i]
      invariant a[i..] == SortDesc(s[i..], key)
    {
      i := i - 1;
      assert a[i] == s[i];
      InsertInPlace(a, i, key);
      assert s[i..][1..] == s[i + 1..];
    }
    assert a[..] == a[0..];
    assert s == s[0..];
  }
}
