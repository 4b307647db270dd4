/**
 * The Dashboard page (Dashboard.tsx): the records loaded from the backend,
 * sorted newest first; the issuer filter and the text search that feed the
 * statements table; the "Clear All" reset; and the KPI cards and the three
 * charts, which are always given the full record list.
 */
module Dashboard {
  import opened Wrappers
  import opened Records
  import opened Text
  import opened Sorting
  import opened Counting
  import opened KpiCards
  import opened IssuerBuckets
  import BalanceChart
  import TransactionChart
  import VariantChart

  // ---------------------------------------------------------------------------
  // Array.prototype.filter

  /** The elements of `s` that satisfy `p`, in their order in `s`. */
  function Keep<T>(s: seq<T>, p: T -> bool): seq<T> {
    if s == [] then []
    else Keep(s[..|s| - 1], p) + (if p(s[|s| - 1]) then [s[|s| - 1]] else [])
  }

  /** `a` is `b` with some elements removed (order kept). */
  predicate SubsequenceOf<T(==)>(a: seq<T>, b: seq<T>)
    decreases |b|
  {
    if a == [] then true
    else if b == [] then false
    else (a[|a| - 1] == b[|b| - 1] && SubsequenceOf(a[..|a| - 1], b[..|b| - 1]))
         || SubsequenceOf(a, b[..|b| - 1])
  }

  lemma {:induction false} SubsequenceShorter<T>(a: seq<T>, b: seq<T>)
    requires SubsequenceOf(a, b)
    ensures |a| <= |b|
    decreases |b|
  {
    if a != [] {
      if a[|a| - 1] == b[|b| - 1] && SubsequenceOf(a[..|a| - 1], b[..|b| - 1]) {
        SubsequenceShorter(a[..|a| - 1], b[..|b| - 1]);
      } else {
        SubsequenceShorter(a, b[..|b| - 1]);
      }
    }
  }

  /**
   * Filtering keeps order (a subsequence) and keeps exactly the elements
   * satisfying `p`, each as often as it occurs in `s`.
   */
  lemma {:induction false} KeepSpec<T>(s: seq<T>, p: T -> bool, x: T)
    ensures SubsequenceOf(Keep(s, p), s)
    ensures Occurrences(Keep(s, p), x) == if p(x) then Occurrences(s, x) else 0
    ensures x in Keep(s, p) <==> x in s && p(x)
  {
    if s != [] {
      var t := s[..|s| - 1];
      var y := s[|s| - 1];
      KeepSpec(t, p, x);
      var k := Keep(s, p);
      if p(y) {
        assert k == Keep(t, p) + [y];
        assert k[..|k| - 1] == Keep(t, p);
        assert k[|k| - 1] == s[|s| - 1];
      } else {
        assert k == Keep(t, p);
        if k != [] {
          assert SubsequenceOf(k, s[..|s| - 1]);
        }
      }
      OccurrencesPositive(Keep(s, p), x);
      OccurrencesPositive(s, x);
    }
  }

  lemma {:induction false} KeepSamePredicate<T>(s: seq<T>, p: T -> bool, q: T -> bool)
    requires forall x :: x in s ==> p(x) == q(x)
    ensures Keep(s, p) == Keep(s, q)
  {
    if s != [] {
      KeepSamePredicate(s[..|s| - 1], p, q);
    }
  }

  // ---------------------------------------------------------------------------
  // filterRecords

  /** The issuer dropdown: `'ALL'` or one issuer. */
  datatype IssuerFilter = All | Only(issuer: Issuer)

  function IssuerIs(i: Issuer): ParsedRecord -> bool {
    (r: ParsedRecord) => r.issuer == i
  }

  /**
   * The search predicate: the lower-cased (not trimmed) query is a substring
   * of the lower-cased issuer, of the lower-cased last four digits when
   * there are any, or of the lower-cased file name.
   */
  predicate MatchesSearch(r: ParsedRecord, query: string) {
    var q := Lower(query);
    Contains(Lower(IssuerName(r.issuer)), q)
    || (r.cardLast4.Some? && Contains(Lower(r.cardLast4.value), q))
    || Contains(Lower(r.filename), q)
  }

  function Matching(query: string): ParsedRecord -> bool {
    (r: ParsedRecord) => MatchesSearch(r, query)
  }

  /** The list `filterRecords` stores in `filteredRecords`. */
  function Filtered(rs: seq<ParsedRecord>, query: string, f: IssuerFilter): seq<ParsedRecord> {
    var byIssuer := if f.All? then rs else Keep(rs, IssuerIs(f.issuer));
    if Strip(JsTrim, query) == [] then byIssuer else Keep(byIssuer, Matching(query))
  }

  /** With `'ALL'` and a blank (empty or whitespace-only) query the table shows every record. */
  lemma NoFilterShowsAll(rs: seq<ParsedRecord>, query: string)
    requires IsBlank(JsTrim, query)
    ensures Filtered(rs, query, All) == rs
  {
  }

  /**
   * A record is shown exactly when it has the selected issuer (any, for
   * `'ALL'`) and, unless the query is blank, matches the search; it is shown
   * as many times as it is stored, in stored order, so the table is never
   * longer than the record list.
   */
  lemma FilteredSpec(rs: seq<ParsedRecord>, query: string, f: IssuerFilter, r: ParsedRecord)
    ensures SubsequenceOf(Filtered(rs, query, f), rs)
    ensures |Filtered(rs, query, f)| <= |rs|
    ensures var shown := (f.All? || r.issuer == f.issuer) && (IsBlank(JsTrim, query) || MatchesSearch(r, query));
            Occurrences(Filtered(rs, query, f), r) == if shown then Occurrences(rs, r) else 0
    ensures r in Filtered(rs, query, f) <==>
              r in rs && (f.All? || r.issuer == f.issuer) && (IsBlank(JsTrim, query) || MatchesSearch(r, query))
  {
    var byIssuer := if f.All? then rs else Keep(rs, IssuerIs(f.issuer));
    if f.Only? {
      KeepSpec(rs, IssuerIs(f.issuer), r);
    } else {
      assert SubsequenceOf(rs, rs) by { SubsequenceReflexive(rs); }
    }
    if Strip(JsTrim, query) != [] {
      KeepSpec(byIssuer, Matching(query), r);
      SubsequenceTransitive(Filtered(rs, query, f), byIssuer, rs);
    }
    SubsequenceShorter(Filtered(rs, query, f), rs);
    OccurrencesPositive(Filtered(rs, query, f), r);
    OccurrencesPositive(rs, r);
  }

  lemma {:induction false} SubsequenceReflexive<T>(s: seq<T>)
    ensures SubsequenceOf(s, s)
  {
    if s != [] {
      SubsequenceReflexive(s[..|s| - 1]);
    }
  }

  lemma {:induction false} SubsequenceTransitive<T>(a: seq<T>, b: seq<T>, c: seq<T>)
    requires SubsequenceOf(a, b) && SubsequenceOf(b, c)
    ensures SubsequenceOf(a, c)
    decreases |c|
  {
    if a != [] {
      if b[|b| - 1] == c[|c| - 1] && SubsequenceOf(b[..|b| - 1], c[..|c| - 1]) {
        if a[|a| - 1] == b[|b| - 1] && SubsequenceOf(a[..|a| - 1], b[..|b| - 1]) {
          SubsequenceTransitive(a[..|a| - 1], b[..|b| - 1], c[..|c| - 1]);
        } else {
          SubsequenceTransitive(a, b[..|b| - 1], c[..|c| - 1]);
        }
      } else {
        SubsequenceTransitive(a, b, c[..|c| - 1]);
      }
    }
  }

  /** The search ignores letter case: queries equal up to case give the same table. */
  lemma SearchIgnoresCase(rs: seq<ParsedRecord>, q1: string, q2: string, f: IssuerFilter)
    requires Upper(q1) == Upper(q2)
    ensures Filtered(rs, q1, f) == Filtered(rs, q2, f)
  {
    SameCaseFold(q1, q2);
    LowerKeepsSpaces(JsTrim, q1, q2);
    var byIssuer := if f.All? then rs else Keep(rs, IssuerIs(f.issuer));
    KeepSamePredicate(byIssuer, Matching(q1), Matching(q2));
  }

  // ---------------------------------------------------------------------------
  // The page state

  /** The `uploaded_at` sort key, `new Date(uploaded_at).getTime()`, given as `millis`. */
  function ByUpload(millis: string -> int): ParsedRecord -> int {
    (r: ParsedRecord) => millis(r.uploadedAt)
  }

  /** What the KPI cards and the three charts display. */
  datatype Panels = Panels(
    kpis: Kpis,
    balanceBars: seq<BalanceChart.Bar>,
    transactionBars: seq<TransactionChart.CountBar>,
    variantSlices: seq<VariantChart.Slice>)

  /** The panels of a record list: each chart's data as its component computes it. */
  function PanelsOf(rs: seq<ParsedRecord>): Panels {
    Panels(
      ComputeKpis(rs),
      BalanceChart.Rounded(PositiveBuckets(rs, Balance)),
      TransactionChart.Relabelled(PositiveBuckets(rs, Transactions)),
      VariantChart.Chart(rs))
  }

  class DashboardPage {
    var records: seq<ParsedRecord>
    var filteredRecords: seq<ParsedRecord>
    var isLoading: bool
    var searchQuery: string
    var issuerFilter: IssuerFilter

    /** The filter effect has run: the table shows the filtered records. */
    ghost predicate Valid()
      reads this
    {
      filteredRecords == Filtered(records, searchQuery, issuerFilter)
    }

    /** The KPI cards and charts, always computed from the full `records`. */
    function Shown(): Panels
      reads this
    {
      PanelsOf(records)
    }

    constructor()
      ensures records == [] && filteredRecords == [] && isLoading
      ensures searchQuery == "" && issuerFilter == All
      ensures Valid()
    {
      records, filteredRecords := [], [];
      isLoading := true;
      searchQuery, issuerFilter := "", All;
    }

    /** filterRecords: the issuer filter, then the search when the trimmed query is non-empty. */
    method FilterRecords()
      modifies this
      ensures filteredRecords == Filtered(records, searchQuery, issuerFilter)
      ensures records == old(records) && isLoading == old(isLoading)
      ensures searchQuery == old(searchQuery) && issuerFilter == old(issuerFilter)
      ensures Valid()
    {
      var filtered := records;
      if issuerFilter != All {
        filtered := Keep(filtered, IssuerIs(issuerFilter.issuer));
      }
      if Strip(JsTrim, searchQuery) != [] {
        filtered := Keep(filtered, Matching(searchQuery));
      }
      filteredRecords := filtered;
    }

    /**
     * loadRecords with the response given: on success the returned array is
     * sorted in place, newest upload first (`Array.sort` is stable), and
     * becomes `records`; otherwise the records stay as they were.
     */
    method LoadRecords(success: bool, data: array?<ParsedRecord>, millis: string -> int)
      requires Valid()
      modifies this, data
      ensures Valid() && !isLoading
      ensures searchQuery == old(searchQuery) && issuerFilter == old(issuerFilter)
      ensures success && data != null ==>
                data[..] == SortDesc(old(data[..]), ByUpload(millis)) && records == data[..]
                && NonIncreasing(records, ByUpload(millis))
                && multiset(records) == multiset(old(data[..]))
      ensures !(success && data != null) ==> records == old(records)
    {
      isLoading := true;
      if success && data != null {
        SortDescInPlace(data, ByUpload(millis));
        SortDescNonIncreasing(old(data[..]), ByUpload(millis));
        SortDescPermutes(old(data[..]), ByUpload(millis));
        records := data[..];
        FilterRecords();
      }
      isLoading := false;
    }

    /** Typing in the search box: the table is refiltered, the panels do not change. */
    method SetSearchQuery(query: string)
      requires Valid()
      modifies this
      ensures searchQuery == query && Valid()
      ensures records == old(records) && issuerFilter == old(issuerFilter) && isLoading == old(isLoading)
      ensures Shown() == old(Shown())
    {
      searchQuery := query;
      FilterRecords();
    }

    /** Choosing an issuer: the table is refiltered, the panels do not change. */
    method SetIssuerFilter(f: IssuerFilter)
      requires Valid()
      modifies this
      ensures issuerFilter == f && Valid()
      ensures records == old(records) && searchQuery == old(searchQuery) && isLoading == old(isLoading)
      ensures Shown() == old(Shown())
    {
      issuerFilter := f;
      FilterRecords();
    }

    /**
     * handleClearAll with the confirmation answer and the backend's verdict
     * given: both lists are emptied only when the user confirmed and the
     * backend reported success.
     */
    method ClearAll(confirmed: bool, success: bool)
      requires Valid()
      modifies this
      ensures Valid()
      ensures searchQuery == old(searchQuery) && issuerFilter == old(issuerFilter) && isLoading == old(isLoading)
      ensures confirmed && success ==> records == [] && filteredRecords == []
      ensures !(confirmed && success) ==> records == old(records) && filteredRecords == old(filteredRecords)
    {
      if !confirmed {
        return;
      }
      if success {
        records := [];
        filteredRecords := [];
      }
    }
  }

  /** The panels of an empty list are the zero KPIs and three empty charts. */
  lemma ClearedPanels()
    ensures PanelsOf([]) == Panels(Kpis(0, 0, 0), [], [], [])
  {
    KpisOfEmpty();
    NothingCountedNoRows([], Balance);
    NothingCountedNoRows([], Transactions);
    VariantChart.ValuesSumToCountedRecords([]);
  }
}
