/**
 * The six-key accumulator shared by Chart.tsx and TransactionChart.tsx: an
 * object with one zero-initialised bucket per issuer, the counted records
 * added to their issuer's bucket, then `Object.entries(...)` (declaration
 * order) filtered to the buckets above zero.
 */
module IssuerBuckets {
  import opened Wrappers
  import opened Records
  import opened KpiCards

  /** The sum an issuer's bucket reaches over `rs`. */
  function Bucket(rs: seq<ParsedRecord>, m: Measure, i: Issuer): int {
    if rs == [] then 0
    else
      var r := rs[|rs| - 1];
      Bucket(rs[..|rs| - 1], m, i) + (if r.issuer == i then Amount(r, m) else 0)
  }

  /** The accumulator after the `forEach`: all six keys, each holding its bucket. */
  function BucketMap(rs: seq<ParsedRecord>, m: Measure): (b: map<Issuer, int>)
    ensures forall i :: i in b && b[i] == Bucket(rs, m, i)
  {
    IssuersListed();
    map i | i in Issuers :: Bucket(rs, m, i)
  }

  /** Adds each counted record to its issuer's bucket, starting from six zeros. */
  method Accumulate(rs: seq<ParsedRecord>, m: Measure) returns (buckets: map<Issuer, int>)
    ensures buckets == BucketMap(rs, m)
  {
    IssuersListed();
    buckets := map i | i in Issuers :: 0;
    assert rs[..0] == [];
    for k := 0 to |rs|
      invariant forall i :: i in buckets && buckets[i] == Bucket(rs[..k], m, i)
    {
      var r := rs[k];
      assert rs[..k + 1][..k] == rs[..k];
      var v := Counted(r, m);
      if v.Some? {
        buckets := buckets[r.issuer := buckets[r.issuer] + v.value];
      }
    }
    assert rs[..|rs|] == rs;
  }

  /** The six buckets together hold the whole KPI total. */
  lemma {:induction false} BucketsPartitionTotal(rs: seq<ParsedRecord>, m: Measure)
    ensures Bucket(rs, m, HDFC) + Bucket(rs, m, ICICI) + Bucket(rs, m, SBI) + Bucket(rs, m, AXIS)
            + Bucket(rs, m, AMEX) + Bucket(rs, m, UNKNOWN) == Total(rs, m)
  {
    if rs != [] {
      BucketsPartitionTotal(rs[..|rs| - 1], m);
    }
  }

  lemma {:induction false} BucketNonNegative(rs: seq<ParsedRecord>, m: Measure, i: Issuer)
    requires forall k :: 0 <= k < |rs| ==> Amount(rs[k], m) >= 0
    ensures Bucket(rs, m, i) >= 0
  {
    if rs != [] {
      BucketNonNegative(rs[..|rs| - 1], m, i);
    }
  }

  /** Without a counted record every bucket stays at zero. */
  lemma {:induction false} NothingCountedEmptyBuckets(rs: seq<ParsedRecord>, m: Measure, i: Issuer)
    requires forall k :: 0 <= k < |rs| ==> Counted(rs[k], m) == None
    ensures Bucket(rs, m, i) == 0
  {
    if rs != [] {
      NothingCountedEmptyBuckets(rs[..|rs| - 1], m, i);
    }
  }

  datatype Entry = Entry(issuer: Issuer, value: int)

  /** `Object.entries(issuerData)`: the six buckets in declaration order. */
  function Entries(b: map<Issuer, int>): (es: seq<Entry>)
    requires forall i :: i in b
    ensures |es| == |Issuers|
    ensures forall k :: 0 <= k < |es| ==> es[k] == Entry(Issuers[k], b[Issuers[k]])
  {
    seq(|Issuers|, k requires 0 <= k < |Issuers| => Entry(Issuers[k], b[Issuers[k]]))
  }

  /** Issuers strictly increase in declaration order, so none repeats. */
  predicate InIssuerOrder(es: seq<Entry>) {
    forall k, l :: 0 <= k < l < |es| ==> Rank(es[k].issuer) < Rank(es[l].issuer)
  }

  /** `.filter(([_, value]) => value > 0)`: keeps exactly the entries above zero. */
  function Positive(es: seq<Entry>): (p: seq<Entry>)
    ensures |p| <= |es|
    ensures forall e :: e in p <==> e in es && e.value > 0
  {
    if es == [] then [] else (if es[0].value > 0 then [es[0]] else []) + Positive(es[1..])
  }

  /** The filter keeps the entries' order. */
  lemma {:induction false} PositiveInOrder(es: seq<Entry>)
    requires InIssuerOrder(es)
    ensures InIssuerOrder(Positive(es))
  {
    if es != [] {
      var rest := Positive(es[1..]);
      PositiveInOrder(es[1..]);
      forall k | 0 <= k < |rest| ensures Rank(es[0].issuer) < Rank(rest[k].issuer) {
        assert rest[k] in es[1..];
      }
    }
  }

  function EntrySum(es: seq<Entry>): int {
    if es == [] then 0 else es[0].value + EntrySum(es[1..])
  }

  /** Dropping entries that are not above zero loses nothing when no entry is negative. */
  lemma {:induction false} PositiveKeepsSum(es: seq<Entry>)
    requires forall k :: 0 <= k < |es| ==> es[k].value >= 0
    ensures EntrySum(Positive(es)) == EntrySum(es)
  {
    if es != [] {
      PositiveKeepsSum(es[1..]);
      var rest := Positive(es[1..]);
      if es[0].value > 0 {
        assert Positive(es) == [es[0]] + rest && ([es[0]] + rest)[1..] == rest;
      } else {
        assert Positive(es) == rest;
      }
    }
  }

  /** The entries of the accumulator: one per issuer, holding its bucket, in declaration order. */
  lemma EntriesOfBuckets(rs: seq<ParsedRecord>, m: Measure)
    ensures forall i :: Entry(i, Bucket(rs, m, i)) in Entries(BucketMap(rs, m))
    ensures forall e :: e in Entries(BucketMap(rs, m)) ==> e.value == Bucket(rs, m, e.issuer)
    ensures InIssuerOrder(Entries(BucketMap(rs, m)))
  {
    var es := Entries(BucketMap(rs, m));
    IssuersListed();
    forall i ensures Entry(i, Bucket(rs, m, i)) in es {
      assert es[Rank(i)] == Entry(i, Bucket(rs, m, i));
    }
  }

  /**
   * The chart rows before the final `map`: exactly the issuers whose bucket
   * is above zero, each once, in declaration order, with its bucket.
   */
  function PositiveBuckets(rs: seq<ParsedRecord>, m: Measure): (p: seq<Entry>)
    ensures |p| <= |Issuers|
    ensures forall k :: 0 <= k < |p| ==> p[k].value == Bucket(rs, m, p[k].issuer) > 0
    ensures forall i :: Bucket(rs, m, i) > 0 <==> Entry(i, Bucket(rs, m, i)) in p
    ensures InIssuerOrder(p)
  {
    EntriesOfBuckets(rs, m);
    PositiveInOrder(Entries(BucketMap(rs, m)));
    var p := Positive(Entries(BucketMap(rs, m)));
    assert forall k :: 0 <= k < |p| ==> p[k] in p;
    p
  }

  lemma EntriesSum(b: map<Issuer, int>)
    requires forall i :: i in b
    ensures EntrySum(Entries(b)) == b[HDFC] + b[ICICI] + b[SBI] + b[AXIS] + b[AMEX] + b[UNKNOWN]
  {
    var es := Entries(b);
    assert es == [Entry(HDFC, b[HDFC]), Entry(ICICI, b[ICICI]), Entry(SBI, b[SBI]),
                  Entry(AXIS, b[AXIS]), Entry(AMEX, b[AMEX]), Entry(UNKNOWN, b[UNKNOWN])];
    var e1 := es[1..];
    var e2 := e1[1..];
    var e3 := e2[1..];
    var e4 := e3[1..];
    var e5 := e4[1..];
    assert EntrySum(e5) == b[UNKNOWN] + EntrySum(e5[1..]) && e5[1..] == [];
    assert EntrySum(e4) == b[AMEX] + EntrySum(e5);
    assert EntrySum(e3) == b[AXIS] + EntrySum(e4);
    assert EntrySum(e2) == b[SBI] + EntrySum(e3);
    assert EntrySum(e1) == b[ICICI] + EntrySum(e2);
  }

  /** With no negative amounts, the rows add up to the KPI total. */
  lemma PositiveBucketsSumToTotal(rs: seq<ParsedRecord>, m: Measure)
    requires forall k :: 0 <= k < |rs| ==> Amount(rs[k], m) >= 0
    ensures EntrySum(PositiveBuckets(rs, m)) == Total(rs, m)
  {
    var es := Entries(BucketMap(rs, m));
    forall k | 0 <= k < |es| ensures es[k].value >= 0 {
      BucketNonNegative(rs, m, es[k].issuer);
    }
    PositiveKeepsSum(es);
    BucketsPartitionTotal(rs, m);
    EntriesSum(BucketMap(rs, m));
  }

  /** With no counted record there is no row, which is the chart's empty state. */
  lemma NothingCountedNoRows(rs: seq<ParsedRecord>, m: Measure)
    requires forall k :: 0 <= k < |rs| ==> Counted(rs[k], m) == None
    ensures PositiveBuckets(rs, m) == []
  {
    var p := PositiveBuckets(rs, m);
    if p != [] {
      NothingCountedEmptyBuckets(rs, m, p[0].issuer);
    }
  }
}
