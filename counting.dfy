/**
 * Counting values in a sequence the way a JavaScript object used as a
 * dictionary, or a Python dict or `Counter`, does: keys in first-occurrence
 * (insertion) order, each with its number of occurrences; and the first
 * position of a maximum, which is what Python's `max(..., key=...)` returns.
 */
module Counting {

  /** How many times `x` occurs in `s`. */
  function Occurrences<T(==)>(s: seq<T>, x: T): (n: nat)
    ensures n <= |s|
  {
    if s == [] then 0
    else Occurrences(s[..|s| - 1], x) + (if s[|s| - 1] == x then 1 else 0)
  }

  lemma {:induction false} OccurrencesPositive<T>(s: seq<T>, x: T)
    ensures Occurrences(s, x) > 0 <==> x in s
  {
    if s != [] {
      OccurrencesPositive(s[..|s| - 1], x);
      assert s == s[..|s| - 1] + [s[|s| - 1]];
    }
  }

  predicate NoDuplicates<T(==)>(s: seq<T>) {
    forall i, j :: 0 <= i < j < |s| ==> s[i] != s[j]
  }

  /** The distinct values of `s`, in the order of their first occurrence. */
  function Distinct<T(==)>(s: seq<T>): seq<T> {
    if s == [] then []
    else
      var d := Distinct(s[..|s| - 1]);
      if s[|s| - 1] in d then d else d + [s[|s| - 1]]
  }

  /** Distinct lists each value of `s` exactly once and nothing else. */
  lemma {:induction false} DistinctSpec<T>(s: seq<T>)
    ensures forall x :: x in Distinct(s) <==> x in s
    ensures NoDuplicates(Distinct(s))
  {
    if s != [] {
      DistinctSpec(s[..|s| - 1]);
      assert s == s[..|s| - 1] + [s[|s| - 1]];
    }
  }

  lemma DistinctElement<T>(s: seq<T>, i: nat)
    requires i < |Distinct(s)|
    ensures Distinct(s)[i] in s
  {
    DistinctSpec(s);
    assert Distinct(s)[i] in Distinct(s);
  }

  /** Index of the first occurrence of `x` in `s`. */
  function FirstIndex<T(==)>(s: seq<T>, x: T): (k: nat)
    requires x in s
    ensures k < |s| && s[k] == x && x !in s[..k]
  {
    if s[0] == x then 0 else 1 + FirstIndex(s[1..], x)
  }

  lemma {:induction false} FirstIndexOfPrefix<T>(s: seq<T>, n: nat, x: T)
    requires n <= |s| && x in s[..n]
    ensures FirstIndex(s[..n], x) == FirstIndex(s, x)
  {
    var k := FirstIndex(s[..n], x);
    var k' := FirstIndex(s, x);
    assert s[..k] == s[..n][..k];
  }

  /** Distinct is in first-occurrence order: earlier keys first appear earlier in `s`. */
  lemma {:induction false} DistinctInFirstOccurrenceOrder<T>(s: seq<T>, i: nat, j: nat)
    requires i < j < |Distinct(s)|
    ensures Distinct(s)[i] in s && Distinct(s)[j] in s
    ensures FirstIndex(s, Distinct(s)[i]) < FirstIndex(s, Distinct(s)[j])
  {
    DistinctSpec(s);
    var p := s[..|s| - 1];
    var d := Distinct(p);
    var last := s[|s| - 1];
    DistinctSpec(p);
    assert s == p + [last];
    assert p == s[..|s| - 1];
    if j < |d| {
      DistinctInFirstOccurrenceOrder(p, i, j);
      FirstIndexOfPrefix(s, |s| - 1, d[i]);
      FirstIndexOfPrefix(s, |s| - 1, d[j]);
    } else {
      // the last key is new: it first occurs at the last position
      assert last !in d;
      assert Distinct(s) == d + [last];
      assert Distinct(s)[j] == last && last !in p;
      assert Distinct(s)[i] == d[i];
      DistinctElement(p, i);
      FirstIndexOfPrefix(s, |s| - 1, d[i]);
      assert FirstIndex(s, last) == |s| - 1;
    }
  }

  /** Sum of `Occurrences(s, x)` over the keys `d`. */
  function CountSum<T(==)>(s: seq<T>, d: seq<T>): int {
    if d == [] then 0 else CountSum(s, d[..|d| - 1]) + Occurrences(s, d[|d| - 1])
  }

  lemma {:induction false} CountSumAppend<T>(s: seq<T>, d: seq<T>, x: T)
    ensures CountSum(s + [x], d) == CountSum(s, d) + (if x in d then Occurrences(d, x) else 0)
  {
    if d != [] {
      var p := d[..|d| - 1];
      CountSumAppend(s, p, x);
      assert (s + [x])[..|s + [x]| - 1] == s;
      assert d == p + [d[|d| - 1]];
      OccurrencesPositive(p, x);
    }
  }

  /** The counts of the distinct keys add up to the length of the sequence. */
  lemma {:induction false} CountsSumToLength<T>(s: seq<T>)
    ensures CountSum(s, Distinct(s)) == |s|
  {
    if s != [] {
      var p := s[..|s| - 1];
      var x := s[|s| - 1];
      assert s == p + [x];
      CountsSumToLength(p);
      DistinctSpec(p);
      CountSumAppend(p, Distinct(p), x);
      if x in Distinct(p) {
        DistinctCountsOne(p, x);
      } else {
        assert Distinct(s) == Distinct(p) + [x];
        assert Distinct(s)[..|Distinct(s)| - 1] == Distinct(p);
        CountSumAppend(p, Distinct(p), x);
        OccurrencesPositive(p, x);
      }
    }
  }

  /** A key of Distinct(s) occurs there once. */
  lemma DistinctCountsOne<T>(s: seq<T>, x: T)
    requires x in Distinct(s)
    ensures Occurrences(Distinct(s), x) == 1
  {
    DistinctSpec(s);
    NoDuplicatesOccurOnce(Distinct(s), x);
  }

  lemma {:induction false} NoDuplicatesOccurOnce<T>(d: seq<T>, x: T)
    requires NoDuplicates(d) && x in d
    ensures Occurrences(d, x) == 1
  {
    var p := d[..|d| - 1];
    if d[|d| - 1] == x {
      assert x !in p;
      OccurrencesPositive(p, x);
    } else {
      assert x in p;
      NoDuplicatesOccurOnce(p, x);
    }
  }

  /**
   * Counts every value of `s` with a dictionary, inserting a key the first
   * time it is seen and incrementing it afterwards.
   */
  method Tally<T(==)>(s: seq<T>) returns (keys: seq<T>, counts: map<T, nat>)
    ensures keys == Distinct(s)
    ensures forall x :: x in counts <==> x in s
    ensures forall x :: x in counts ==> counts[x] == Occurrences(s, x)
  {
    keys, counts := [], map[];
    for k := 0 to |s|
      invariant keys == Distinct(s[..k])
      invariant forall x :: x in counts <==> x in s[..k]
      invariant forall x :: x in counts ==> counts[x] == Occurrences(s[..k], x)
    {
      var x := s[k];
      assert s[..k + 1][..k] == s[..k];
      DistinctSpec(s[..k]);
      if x in counts {
        counts := counts[x := counts[x] + 1];
      } else {
        keys := keys + [x];
        counts := counts[x := 1];
        OccurrencesPositive(s[..k], x);
      }
    }
    assert s[..|s|] == s;
  }

  /** The first position of a maximum of `w`. */
  function FirstMaxIndex(w: seq<int>): (b: nat)
    requires w != []
    ensures b < |w|
    ensures forall k :: 0 <= k < |w| ==> w[k] <= w[b]
    ensures forall k :: 0 <= k < b ==> w[k] < w[b]
  {
    if |w| == 1 then 0
    else
      var b := FirstMaxIndex(w[..|w| - 1]);
      if w[|w| - 1] > w[b] then |w| - 1 else b
  }

  /** The two ensures of FirstMaxIndex single out one position. */
  lemma FirstMaxIndexUnique(w: seq<int>, b: nat)
    requires b < |w|
    requires forall k :: 0 <= k < |w| ==> w[k] <= w[b]
    requires forall k :: 0 <= k < b ==> w[k] < w[b]
    ensures b == FirstMaxIndex(w)
  {
  }

  /** The counts of the distinct keys of `s`, in key order. */
  function KeyCounts<T(==)>(s: seq<T>): (w: seq<int>)
    ensures |w| == |Distinct(s)|
  {
    var d := Distinct(s);
    seq(|d|, k requires 0 <= k < |d| => Occurrences(s, d[k]))
  }

  /**
   * Python's `Counter(s).most_common(1)[0][0]`: a value of maximal count,
   * the one seen first among those.
   */
  function MostCommon<T(==)>(s: seq<T>): (m: T)
    requires s != []
    ensures m in s
    ensures forall x :: x in s ==> Occurrences(s, x) <= Occurrences(s, m)
    ensures forall k :: 0 <= k < FirstIndex(s, m) ==> Occurrences(s, s[k]) < Occurrences(s, m)
  {
    DistinctSpec(s);
    assert s[0] in Distinct(s);
    var d := Distinct(s);
    var b := FirstMaxIndex(KeyCounts(s));
    MostCommonSpec(s, d, b);
    d[b]
  }

  lemma MostCommonSpec<T>(s: seq<T>, d: seq<T>, b: nat)
    requires d == Distinct(s) && d != [] && b == FirstMaxIndex(KeyCounts(s))
    ensures d[b] in s
    ensures forall x :: x in s ==> Occurrences(s, x) <= Occurrences(s, d[b])
    ensures forall k :: 0 <= k < FirstIndex(s, d[b]) ==> Occurrences(s, s[k]) < Occurrences(s, d[b])
  {
    DistinctSpec(s);
    forall x | x in s ensures Occurrences(s, x) <= Occurrences(s, d[b]) {
      KeyCountAt(s, FirstIndex(d, x));
    }
    forall k | 0 <= k < FirstIndex(s, d[b]) ensures Occurrences(s, s[k]) < Occurrences(s, d[b]) {
      MostCommonBeatsEarlier(s, d, b, k);
    }
  }

  lemma KeyCountAt<T>(s: seq<T>, i: nat)
    requires i < |Distinct(s)|
    ensures KeyCounts(s)[i] == Occurrences(s, Distinct(s)[i])
  {
  }

  lemma MostCommonBeatsEarlier<T>(s: seq<T>, d: seq<T>, b: nat, k: nat)
    requires d == Distinct(s) && d != [] && b == FirstMaxIndex(KeyCounts(s))
    requires d[b] in s && k < FirstIndex(s, d[b])
    ensures Occurrences(s, s[k]) < Occurrences(s, d[b])
  {
    DistinctSpec(s);
    var y := s[k];
    var i := FirstIndex(d, y);
    assert FirstIndex(s, y) <= k;
    if b < i {
      DistinctInFirstOccurrenceOrder(s, b, i);
    }
    assert i < b;
    KeyCountAt(s, i);
    KeyCountAt(s, b);
  }
}
