/**
 * The three dashboard KPIs (KPICards.tsx): the number of PARSED statements,
 * the summed balance and the summed transaction count over PARSED records
 * whose field is non-null.
 */
module KpiCards {
  import opened Wrappers
  import opened Records

  datatype Measure = Balance | Transactions

  /** The value a record contributes to a measure: only PARSED records with the field set count. */
  function Counted(r: ParsedRecord, m: Measure): (v: Option<int>)
    ensures r.status == FAILED ==> v == None
  {
    if r.status != PARSED then None
    else match m
      case Balance => r.totalBalance
      case Transactions => r.transactionCount
  }

  /** `r.field || 0` on a record that passed the filter; nothing otherwise. */
  function Amount(r: ParsedRecord, m: Measure): int {
    Counted(r, m).GetOr(0)
  }

  /** `records.filter(r => r.status === 'PARSED').length` */
  function TotalStatements(rs: seq<ParsedRecord>): (n: nat)
    ensures n <= |rs|
  {
    if rs == [] then 0
    else TotalStatements(rs[..|rs| - 1]) + (if rs[|rs| - 1].status == PARSED then 1 else 0)
  }

  /** The `filter(...).reduce((sum, r) => sum + (field || 0), 0)` chain for one measure. */
  function Total(rs: seq<ParsedRecord>, m: Measure): int {
    if rs == [] then 0 else Total(rs[..|rs| - 1], m) + Amount(rs[|rs| - 1], m)
  }

  datatype Kpis = Kpis(totalStatements: nat, totalBalance: int, totalTransactions: int) {
    function Plus(other: Kpis): Kpis {
      Kpis(totalStatements + other.totalStatements, totalBalance + other.totalBalance,
           totalTransactions + other.totalTransactions)
    }
  }

  function ComputeKpis(rs: seq<ParsedRecord>): Kpis {
    Kpis(TotalStatements(rs), Total(rs, Balance), Total(rs, Transactions))
  }

  /** The KPIs of one record: 1 and its non-null fields when PARSED, zeros when FAILED. */
  lemma KpisOfOne(r: ParsedRecord)
    ensures ComputeKpis([r]) ==
      if r.status == PARSED
      then Kpis(1, r.totalBalance.GetOr(0), r.transactionCount.GetOr(0))
      else Kpis(0, 0, 0)
  {
    assert [r][..0] == [];
    assert Total([r], Balance) == Amount(r, Balance);
    assert Total([r], Transactions) == Amount(r, Transactions);
  }

  /** No records, all three KPIs zero. */
  lemma KpisOfEmpty()
    ensures ComputeKpis([]) == Kpis(0, 0, 0)
  {
  }

  /** The KPIs of a concatenation are the sums of the KPIs of the parts. */
  lemma {:induction false} KpisAppend(a: seq<ParsedRecord>, b: seq<ParsedRecord>)
    ensures ComputeKpis(a + b) == ComputeKpis(a).Plus(ComputeKpis(b))
    decreases |b|
  {
    if b == [] {
      assert a + b == a;
    } else {
      var b' := b[..|b| - 1];
      KpisAppend(a, b');
      assert (a + b)[..|a + b| - 1] == a + b';
    }
  }

  /** A FAILED record, wherever it is inserted, changes none of the KPIs. */
  lemma FailedRecordChangesNothing(a: seq<ParsedRecord>, r: ParsedRecord, b: seq<ParsedRecord>)
    requires r.status == FAILED
    ensures ComputeKpis(a + [r] + b) == ComputeKpis(a + b)
  {
    KpisAppend(a + [r], b);
    KpisAppend(a, [r]);
    KpisOfOne(r);
    KpisAppend(a, b);
  }

  /** totalStatements reaches the number of records exactly when every record is PARSED. */
  lemma {:induction false} AllParsedCounted(rs: seq<ParsedRecord>)
    ensures TotalStatements(rs) == |rs| <==> forall k :: 0 <= k < |rs| ==> rs[k].status == PARSED
  {
    if rs != [] {
      var p := rs[..|rs| - 1];
      AllParsedCounted(p);
      assert forall k :: 0 <= k < |p| ==> p[k] == rs[k];
    }
  }

  /** Taking out the record at `k`: its KPIs split off, and the multiset loses one copy of it. */
  lemma RemoveAt(b: seq<ParsedRecord>, k: nat)
    requires k < |b|
    ensures multiset(b[..k] + b[k + 1..]) == multiset(b) - multiset{b[k]}
    ensures ComputeKpis(b) == ComputeKpis(b[..k] + b[k + 1..]).Plus(ComputeKpis([b[k]]))
  {
    var x := b[k];
    assert b == b[..k] + [x] + b[k + 1..];
    KpisAppend(b[..k] + [x], b[k + 1..]);
    KpisAppend(b[..k], [x]);
    KpisAppend(b[..k], b[k + 1..]);
  }

  /** The KPIs depend on which records there are, not on their order. */
  lemma {:induction false} KpisIgnoreOrder(a: seq<ParsedRecord>, b: seq<ParsedRecord>)
    requires multiset(a) == multiset(b)
    ensures ComputeKpis(a) == ComputeKpis(b)
    decreases |a|
  {
    if a != [] {
      var a' := a[..|a| - 1];
      var x := a[|a| - 1];
      assert a == a' + [x];
      assert multiset(a') == multiset(a) - multiset{x};
      assert x in multiset(b);
      var k :| 0 <= k < |b| && b[k] == x;
      RemoveAt(b, k);
      KpisIgnoreOrder(a', b[..k] + b[k + 1..]);
      KpisAppend(a', [x]);
    }
  }

  /** With non-negative inputs every total is non-negative. */
  lemma {:induction false} TotalNonNegative(rs: seq<ParsedRecord>, m: Measure)
    requires forall k :: 0 <= k < |rs| ==> Amount(rs[k], m) >= 0
    ensures Total(rs, m) >= 0
  {
    if rs != [] {
      TotalNonNegative(rs[..|rs| - 1], m);
    }
  }
}
