/**
 * "Amount Payable by Issuer" (Chart.tsx): the balance buckets above zero,
 * in issuer declaration order, each rounded to whole rupees by `Math.round`
 * after the filter.
 */
module BalanceChart {
  import opened Records
  import opened KpiCards
  import opened IssuerBuckets

  datatype Bar = Bar(issuer: Issuer, amount: int)

  /**
   * `Math.round(paise / 100)`: the nearest whole rupee, a half rounded up
   * (towards positive infinity, as `Math.round` does).
   */
  function RoundRupees(paise: int): (r: int)
    ensures 100 * r - 50 <= paise < 100 * r + 50
  {
    (paise + 50) / 100
  }

  /** The `.map(([issuer, amount]) => ({ issuer, amount: Math.round(amount) }))` step. */
  function Rounded(p: seq<Entry>): (bars: seq<Bar>)
    ensures |bars| == |p|
  {
    seq(|p|, k requires 0 <= k < |p| => Bar(p[k].issuer, RoundRupees(p[k].value)))
  }

  /** The chart data Chart.tsx computes from the full record list. */
  method ChartData(rs: seq<ParsedRecord>) returns (bars: seq<Bar>)
    ensures bars == Rounded(PositiveBuckets(rs, Balance))
    ensures forall k :: 0 <= k < |bars| ==>
      Bucket(rs, Balance, bars[k].issuer) > 0 && bars[k].amount >= 0
      && bars[k].amount == RoundRupees(Bucket(rs, Balance, bars[k].issuer))
    ensures forall i :: Bucket(rs, Balance, i) > 0 <==> exists k :: 0 <= k < |bars| && bars[k].issuer == i
    ensures forall k, l :: 0 <= k < l < |bars| ==> Rank(bars[k].issuer) < Rank(bars[l].issuer)
  {
    var buckets := Accumulate(rs, Balance);
    bars := Rounded(Positive(Entries(buckets)));
    ghost var p := PositiveBuckets(rs, Balance);
    forall i | Bucket(rs, Balance, i) > 0 ensures exists k :: 0 <= k < |bars| && bars[k].issuer == i {
      var k :| 0 <= k < |p| && p[k] == Entry(i, Bucket(rs, Balance, i));
      assert bars[k].issuer == i;
    }
  }

  function AmountSum(bars: seq<Bar>): int {
    if bars == [] then 0 else bars[0].amount + AmountSum(bars[1..])
  }

  lemma {:induction false} RoundedSumClose(p: seq<Entry>)
    ensures 100 * AmountSum(Rounded(p)) - 50 * |p| <= EntrySum(p) < 100 * AmountSum(Rounded(p)) + 50 * |p| || p == []
    ensures p == [] ==> AmountSum(Rounded(p)) == 0 == EntrySum(p)
  {
    if p != [] {
      RoundedSumClose(p[1..]);
      assert Rounded(p)[1..] == Rounded(p[1..]);
    }
  }

  /**
   * With no negative balances the bars, in rupees, add up to the Amount
   * Payable KPI up to half a rupee of rounding per bar.
   */
  lemma BarsMatchAmountPayable(rs: seq<ParsedRecord>)
    requires forall k :: 0 <= k < |rs| ==> Amount(rs[k], Balance) >= 0
    ensures var bars := Rounded(PositiveBuckets(rs, Balance));
      100 * AmountSum(bars) - 50 * |bars| <= Total(rs, Balance) <= 100 * AmountSum(bars) + 50 * |bars|
  {
    PositiveBucketsSumToTotal(rs, Balance);
    RoundedSumClose(PositiveBuckets(rs, Balance));
  }
}
