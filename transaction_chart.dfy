/**
 * "Transactions by Issuer" (TransactionChart.tsx): the transaction-count
 * buckets above zero, in issuer declaration order, unrounded.
 */
module TransactionChart {
  import opened Records
  import opened KpiCards
  import opened IssuerBuckets

  datatype CountBar = CountBar(issuer: Issuer, count: int)

  /** The `.map(([issuer, count]) => ({ issuer, count }))` step. */
  function Relabelled(p: seq<Entry>): (bars: seq<CountBar>)
    ensures |bars| == |p|
  {
    seq(|p|, k requires 0 <= k < |p| => CountBar(p[k].issuer, p[k].value))
  }

  /** The chart data TransactionChart.tsx computes from the full record list. */
  method ChartData(rs: seq<ParsedRecord>) returns (bars: seq<CountBar>)
    ensures bars == Relabelled(PositiveBuckets(rs, Transactions))
    ensures |bars| <= 6
    ensures forall k :: 0 <= k < |bars| ==> bars[k].count == Bucket(rs, Transactions, bars[k].issuer) > 0
    ensures forall i :: Bucket(rs, Transactions, i) > 0 <==> exists k :: 0 <= k < |bars| && bars[k].issuer == i
    ensures forall k, l :: 0 <= k < l < |bars| ==> Rank(bars[k].issuer) < Rank(bars[l].issuer)
  {
    var buckets := Accumulate(rs, Transactions);
    bars := Relabelled(Positive(Entries(buckets)));
    ghost var p := PositiveBuckets(rs, Transactions);
    forall i | Bucket(rs, Transactions, i) > 0 ensures exists k :: 0 <= k < |bars| && bars[k].issuer == i {
      var k :| 0 <= k < |p| && p[k] == Entry(i, Bucket(rs, Transactions, i));
      assert bars[k].issuer == i;
    }
  }

  function CountSum(bars: seq<CountBar>): int {
    if bars == [] then 0 else bars[0].count + CountSum(bars[1..])
  }

  lemma {:induction false} RelabelledSum(p: seq<Entry>)
    ensures CountSum(Relabelled(p)) == EntrySum(p)
  {
    if p != [] {
      RelabelledSum(p[1..]);
      assert Relabelled(p)[1..] == Relabelled(p[1..]);
    }
  }

  /** With no negative counts the bars add up to the Total Transactions KPI. */
  lemma BarsSumToTotalTransactions(rs: seq<ParsedRecord>)
    requires forall k :: 0 <= k < |rs| ==> Amount(rs[k], Transactions) >= 0
    ensures CountSum(Relabelled(PositiveBuckets(rs, Transactions))) == ComputeKpis(rs).totalTransactions
  {
    PositiveBucketsSumToTotal(rs, Transactions);
    RelabelledSum(PositiveBuckets(rs, Transactions));
  }
}
