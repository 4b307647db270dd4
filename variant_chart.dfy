/**
 * "Card Variant Distribution" (CardVariantChart.tsx): the variants of PARSED
 * records counted in a dictionary, turned into `{ name, value }` slices in
 * key order and sorted by descending count with the stable `Array.sort`.
 */
module VariantChart {
  import opened Wrappers
  import opened Records
  import opened Sorting
  import opened Counting

  /** A record passes `r.status === 'PARSED' && r.card_variant`: a non-null, non-empty variant. */
  predicate HasVariant(r: ParsedRecord) {
    r.status == PARSED && r.cardVariant.Some? && r.cardVariant.value != ""
  }

  /** The variants the `forEach` counts, in record order (`r.card_variant || 'Unknown'`). */
  function Variants(rs: seq<ParsedRecord>): seq<string> {
    if rs == [] then []
    else
      var r := rs[|rs| - 1];
      Variants(rs[..|rs| - 1]) + (if HasVariant(r) then [r.cardVariant.GetOr("Unknown")] else [])
  }

  /**
   * A name is counted exactly when some PARSED record carries it as a
   * non-empty variant; in particular the `'Unknown'` fallback never fires.
   */
  lemma {:induction false} VariantsAreRecordVariants(rs: seq<ParsedRecord>, v: string)
    ensures v in Variants(rs) <==> exists k :: 0 <= k < |rs| && HasVariant(rs[k]) && rs[k].cardVariant == Some(v)
  {
    if rs != [] {
      var p := rs[..|rs| - 1];
      VariantsAreRecordVariants(p, v);
      assert forall k :: 0 <= k < |p| ==> p[k] == rs[k];
      if exists k :: 0 <= k < |rs| && HasVariant(rs[k]) && rs[k].cardVariant == Some(v) {
        var k :| 0 <= k < |rs| && HasVariant(rs[k]) && rs[k].cardVariant == Some(v);
        if k < |p| {
          assert p[k] == rs[k];
        }
      }
    }
  }

  datatype Slice = Slice(name: string, value: int)

  function SliceValue(s: Slice): int { s.value }

  /** The slices before sorting: one per distinct variant, in first-occurrence order, with its count. */
  function VariantSlices(rs: seq<ParsedRecord>): (es: seq<Slice>)
    ensures |es| == |Distinct(Variants(rs))|
  {
    var vs := Variants(rs);
    var d := Distinct(vs);
    seq(|d|, k requires 0 <= k < |d| => Slice(d[k], Occurrences(vs, d[k])))
  }

  /** `chartData`: the slices sorted by descending count. */
  function Chart(rs: seq<ParsedRecord>): seq<Slice> {
    SortDesc(VariantSlices(rs), SliceValue)
  }

  /** The chart data CardVariantChart.tsx computes from the full record list. */
  method ChartData(rs: seq<ParsedRecord>) returns (data: seq<Slice>)
    ensures data == Chart(rs)
  {
    var vs := Variants(rs);
    var keys, counts := Tally(vs);
    DistinctSpec(vs);
    var slices := new Slice[|keys|](k requires 0 <= k < |keys| && keys[k] in counts => Slice(keys[k], counts[keys[k]]));
    assert slices[..] == VariantSlices(rs);
    SortDescInPlace(slices, SliceValue);
    data := slices[..];
  }

  /** Every slice is a counted variant with its number of records, so every value is at least 1. */
  lemma SlicesCountVariants(rs: seq<ParsedRecord>, k: nat)
    requires k < |Chart(rs)|
    ensures Chart(rs)[k].name in Variants(rs)
    ensures Chart(rs)[k].value == Occurrences(Variants(rs), Chart(rs)[k].name) >= 1
  {
    var vs := Variants(rs);
    var es := VariantSlices(rs);
    SortDescPermutes(es, SliceValue);
    assert Chart(rs)[k] in multiset(es);
    var j :| 0 <= j < |es| && es[j] == Chart(rs)[k];
    DistinctSpec(vs);
    assert Distinct(vs)[j] in Distinct(vs);
    OccurrencesPositive(vs, es[j].name);
  }

  /** Every counted variant has a slice. */
  lemma EveryVariantHasSlice(rs: seq<ParsedRecord>, v: string)
    requires v in Variants(rs)
    ensures exists k :: 0 <= k < |Chart(rs)| && Chart(rs)[k].name == v
  {
    var vs := Variants(rs);
    var es := VariantSlices(rs);
    DistinctSpec(vs);
    var j := FirstIndex(Distinct(vs), v);
    assert es[j].name == v;
    SortDescPermutes(es, SliceValue);
    assert es[j] in multiset(Chart(rs));
    var k :| 0 <= k < |Chart(rs)| && Chart(rs)[k] == es[j];
  }

  /** No variant is listed twice. */
  lemma NamesDistinct(rs: seq<ParsedRecord>, k: nat, l: nat)
    requires k < l < |Chart(rs)|
    ensures Chart(rs)[k].name != Chart(rs)[l].name
  {
    var c := Chart(rs);
    var es := VariantSlices(rs);
    SlicesCountVariants(rs, k);
    SlicesCountVariants(rs, l);
    if c[k].name == c[l].name {
      assert c[k] == c[l];
      var m := multiset(c);
      assert c == c[..l] + [c[l]] + c[l + 1..];
      assert c[k] in c[..l];
      assert m[c[k]] >= 2;
      SortDescPermutes(es, SliceValue);
      DistinctSpec(Variants(rs));
      SlicesOccurOnce(rs, c[k]);
      assert false;
    }
  }

  lemma SlicesOccurOnce(rs: seq<ParsedRecord>, s: Slice)
    ensures multiset(VariantSlices(rs))[s] <= 1
  {
    var es := VariantSlices(rs);
    var d := Distinct(Variants(rs));
    DistinctSpec(Variants(rs));
    assert NoDuplicates(es) by {
      forall i, j | 0 <= i < j < |es| ensures es[i] != es[j] {
        assert es[i].name == d[i] && es[j].name == d[j];
      }
    }
    if s in es {
      NoDuplicatesOccurOnce(es, s);
      MultisetCount(es, s);
    } else {
      assert s !in multiset(es);
    }
  }

  lemma {:induction false} MultisetCount<T>(s: seq<T>, x: T)
    ensures multiset(s)[x] == Occurrences(s, x)
  {
    if s != [] {
      MultisetCount(s[..|s| - 1], x);
      assert s == s[..|s| - 1] + [s[|s| - 1]];
    }
  }

  /** The chart is ordered by non-increasing count. */
  lemma ChartSorted(rs: seq<ParsedRecord>)
    ensures NonIncreasing(Chart(rs), SliceValue)
  {
    SortDescNonIncreasing(VariantSlices(rs), SliceValue);
  }

  /**
   * Slices with equal counts keep their dictionary order, and the
   * dictionary order is first-occurrence order of the variants.
   */
  lemma TiesKeepFirstOccurrenceOrder(rs: seq<ParsedRecord>, v: int, i: nat, j: nat)
    requires i < j < |VariantSlices(rs)|
    ensures KeyRun(Chart(rs), SliceValue, v) == KeyRun(VariantSlices(rs), SliceValue, v)
    ensures VariantSlices(rs)[i].name in Variants(rs) && VariantSlices(rs)[j].name in Variants(rs)
    ensures FirstIndex(Variants(rs), VariantSlices(rs)[i].name) < FirstIndex(Variants(rs), VariantSlices(rs)[j].name)
  {
    SortDescStable(VariantSlices(rs), SliceValue, v);
    DistinctInFirstOccurrenceOrder(Variants(rs), i, j);
  }

  function ValueSum(es: seq<Slice>): int {
    if es == [] then 0 else ValueSum(es[..|es| - 1]) + es[|es| - 1].value
  }

  lemma {:induction false} ValueSumAppend(a: seq<Slice>, b: seq<Slice>)
    ensures ValueSum(a + b) == ValueSum(a) + ValueSum(b)
    decreases |b|
  {
    if b == [] {
      assert a + b == a;
    } else {
      ValueSumAppend(a, b[..|b| - 1]);
      assert (a + b)[..|a + b| - 1] == a + b[..|b| - 1];
    }
  }

  lemma {:induction false} ValueSumIgnoresOrder(a: seq<Slice>, b: seq<Slice>)
    requires multiset(a) == multiset(b)
    ensures ValueSum(a) == ValueSum(b)
    decreases |a|
  {
    if a != [] {
      var a' := a[..|a| - 1];
      var x := a[|a| - 1];
      assert a == a' + [x];
      assert multiset(a') == multiset(a) - multiset{x};
      assert x in multiset(b);
      var k :| 0 <= k < |b| && b[k] == x;
      assert b == b[..k] + [x] + b[k + 1..];
      assert multiset(b[..k] + b[k + 1..]) == multiset(b) - multiset{x};
      ValueSumIgnoresOrder(a', b[..k] + b[k + 1..]);
      ValueSumAppend(b[..k] + [x], b[k + 1..]);
      ValueSumAppend(b[..k], [x]);
      ValueSumAppend(b[..k], b[k + 1..]);
    }
  }

  lemma {:induction false} SlicesSumIsCountSum(vs: seq<string>, d: seq<string>)
    ensures ValueSum(seq(|d|, k requires 0 <= k < |d| => Slice(d[k], Occurrences(vs, d[k])))) == CountSum(vs, d)
  {
    if d != [] {
      var p := d[..|d| - 1];
      SlicesSumIsCountSum(vs, p);
      var es := seq(|d|, k requires 0 <= k < |d| => Slice(d[k], Occurrences(vs, d[k])));
      assert es[..|es| - 1] == seq(|p|, k requires 0 <= k < |p| => Slice(p[k], Occurrences(vs, p[k])));
    }
  }

  /** The slice values add up to the number of counted records; no counted record, no slice. */
  lemma ValuesSumToCountedRecords(rs: seq<ParsedRecord>)
    ensures ValueSum(Chart(rs)) == |Variants(rs)|
    ensures Chart(rs) == [] <==> Variants(rs) == []
  {
    var vs := Variants(rs);
    SortDescPermutes(VariantSlices(rs), SliceValue);
    ValueSumIgnoresOrder(Chart(rs), VariantSlices(rs));
    SlicesSumIsCountSum(vs, Distinct(vs));
    CountsSumToLength(vs);
    DistinctSpec(vs);
    if vs != [] {
      assert vs[0] in Distinct(vs);
    }
  }
}
