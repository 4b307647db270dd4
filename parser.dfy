/**
 * The statement parser's decisions (parser.py) once the regular expressions
 * have matched: keyword-priority issuer detection, merchant categorisation,
 * the sanity filters and choices applied to the matched candidates, and the
 * `parse_pdf` guard against PDFs with too little text.
 *
 * The regular expressions are not modelled: each extractor receives the
 * candidates its patterns matched, pattern by pattern, as an argument.
 */
module Parser {
  import opened Wrappers
  import opened Records
  import opened Text
  import opened Counting

  /** `any(pattern in text for pattern in patterns)`. */
  predicate MentionsAny(text: string, patterns: seq<string>) {
    exists k :: 0 <= k < |patterns| && Contains(text, patterns[k])
  }

  // ---------------------------------------------------------------------------
  // detect_issuer

  /** The keywords `detect_issuer` looks for, per issuer (none for UNKNOWN). */
  function Keywords(i: Issuer): seq<string> {
    match i
    case HDFC => ["HDFC BANK", "HDFC CREDIT CARD", "HDFCBANK"]
    case ICICI => ["ICICI BANK", "ICICI CREDIT CARD", "ICICIBANK"]
    case SBI => ["STATE BANK OF INDIA", "SBI CARD", "SBICARD", "SBI CREDIT CARD"]
    case AXIS => ["AXIS BANK", "AXIS CREDIT CARD", "AXISBANK"]
    case AMEX => ["AMERICAN EXPRESS", "AMEX", "AMERICANEXPRESS"]
    case UNKNOWN => []
  }

  /**
   * The issuer whose keywords occur in the upper-cased text, checked in the
   * order HDFC, ICICI, SBI, AXIS, AMEX: the result's keywords occur, no
   * earlier issuer's do, and UNKNOWN is returned exactly when no keyword of
   * any issuer occurs.
   */
  function DetectIssuer(text: string): (i: Issuer)
    ensures i != UNKNOWN ==> MentionsAny(Upper(text), Keywords(i))
    ensures forall j :: Rank(j) < Rank(i) ==> !MentionsAny(Upper(text), Keywords(j))
    ensures i == UNKNOWN <==> forall j :: !MentionsAny(Upper(text), Keywords(j))
  {
    var u := Upper(text);
    if MentionsAny(u, Keywords(HDFC)) then HDFC
    else if MentionsAny(u, Keywords(ICICI)) then ICICI
    else if MentionsAny(u, Keywords(SBI)) then SBI
    else if MentionsAny(u, Keywords(AXIS)) then AXIS
    else if MentionsAny(u, Keywords(AMEX)) then AMEX
    else UNKNOWN
  }

  /** Letter case does not matter: lower- or upper-casing the text detects the same issuer. */
  lemma DetectIssuerIgnoresCase(text: string)
    ensures DetectIssuer(Lower(text)) == DetectIssuer(text)
    ensures DetectIssuer(Upper(text)) == DetectIssuer(text)
  {
    UpperAbsorbs(text);
  }

  // ---------------------------------------------------------------------------
  // categorize_merchants

  /** The spending categories with their keywords, in declaration order. */
  const Categories: seq<(string, seq<string>)> := [
    ("Food & Dining", ["SWIGGY", "ZOMATO", "RESTAURANT", "CAFE", "PIZZA", "BURGER", "FOOD", "MCDONALD", "KFC", "DOMINO", "STARBUCKS"]),
    ("Shopping", ["AMAZON", "FLIPKART", "MYNTRA", "AJIO", "MALL", "STORE", "SHOP", "RETAIL", "MART"]),
    ("Transportation", ["UBER", "OLA", "RAPIDO", "PETROL", "FUEL", "PARKING", "TOLL"]),
    ("Entertainment", ["NETFLIX", "PRIME", "HOTSTAR", "SPOTIFY", "CINEMA", "MOVIE", "THEATRE", "BOOKMYSHOW"]),
    ("Utilities", ["ELECTRICITY", "WATER", "GAS", "INTERNET", "BROADBAND", "MOBILE", "RECHARGE"]),
    ("Travel", ["AIRLINE", "FLIGHT", "HOTEL", "BOOKING", "MAKEMYTRIP", "GOIBIBO", "IRCTC"]),
    ("Healthcare", ["HOSPITAL", "PHARMACY", "MEDICAL", "CLINIC", "DOCTOR", "APOLLO", "MEDPLUS"]),
    ("Digital Services", ["PAYTM", "PHONEPE", "GPAY", "GOOGLE", "MICROSOFT", "APPLE", "ADOBE"])
  ]

  /** The answer when merchants were found but none falls in a category. */
  const OtherCategory := "Other"

  predicate InCategory(merchant: string, c: nat)
    requires c < |Categories|
  {
    MentionsAny(Upper(merchant), Categories[c].1)
  }

  /** The number of merchants that mention a keyword of category `c`. */
  function Hits(ms: seq<string>, c: nat): (n: nat)
    requires c < |Categories|
    ensures n <= |ms|
  {
    if ms == [] then 0
    else Hits(ms[..|ms| - 1], c) + (if InCategory(ms[|ms| - 1], c) then 1 else 0)
  }

  function HitCounts(ms: seq<string>): (w: seq<int>)
    ensures |w| == |Categories|
  {
    seq(|Categories|, c requires 0 <= c < |Categories| => Hits(ms, c))
  }

  /** The category `categorize_merchants` returns. */
  function TopCategory(ms: seq<string>): Option<string> {
    if ms == [] then None
    else
      var w := HitCounts(ms);
      var b := FirstMaxIndex(w);
      if w[b] > 0 then Some(Categories[b].0) else Some(OtherCategory)
  }

  /**
   * categorize_merchants: one counter per category, each merchant adding one
   * to every category one of whose keywords it contains; then the first
   * category of maximal count, or "Other" when every count is 0.
   */
  method CategorizeMerchants(merchants: seq<string>) returns (top: Option<string>)
    ensures top == TopCategory(merchants)
  {
    if merchants == [] {
      return None;
    }
    var counts: seq<int> := seq(|Categories|, _ => 0);
    for m := 0 to |merchants|
      invariant |counts| == |Categories|
      invariant forall c :: 0 <= c < |Categories| ==> counts[c] == Hits(merchants[..m], c)
    {
      var upper := Upper(merchants[m]);
      assert merchants[..m + 1][..m] == merchants[..m];
      for c := 0 to |Categories|
        invariant |counts| == |Categories|
        invariant forall d :: 0 <= d < c ==> counts[d] == Hits(merchants[..m + 1], d)
        invariant forall d :: c <= d < |Categories| ==> counts[d] == Hits(merchants[..m], d)
      {
        if MentionsAny(upper, Categories[c].1) {
          counts := counts[c := counts[c] + 1];
        }
      }
    }
    assert merchants[..|merchants|] == merchants;
    assert counts == HitCounts(merchants);
    var b := FirstMaxIndex(counts);
    if counts[b] > 0 {
      top := Some(Categories[b].0);
    } else {
      top := Some(OtherCategory);
    }
  }

  /** A count is 0 exactly when no merchant mentions the category. */
  lemma {:induction false} HitsZero(ms: seq<string>, c: nat)
    requires c < |Categories|
    ensures Hits(ms, c) == 0 <==> forall k :: 0 <= k < |ms| ==> !InCategory(ms[k], c)
  {
    if ms != [] {
      var p := ms[..|ms| - 1];
      HitsZero(p, c);
      assert forall k :: 0 <= k < |p| ==> p[k] == ms[k];
    }
  }

  /** A merchant adds one to each category it mentions and nothing to the others. */
  lemma MerchantCountsForEach(ms: seq<string>, m: string, c: nat)
    requires c < |Categories|
    ensures Hits(ms + [m], c) == Hits(ms, c) + (if InCategory(m, c) then 1 else 0)
  {
    assert (ms + [m])[..|ms|] == ms;
  }

  /** "Other" is not the name of a category. */
  lemma OtherIsNoCategory(c: nat)
    requires c < |Categories|
    ensures Categories[c].0 != OtherCategory
  {
    assert Categories[c].0 in ["Food & Dining", "Shopping", "Transportation", "Entertainment",
                               "Utilities", "Travel", "Healthcare", "Digital Services"];
  }

  /** Some category has a non-zero count exactly when some merchant mentions some category. */
  lemma SomeHit(ms: seq<string>)
    ensures (exists c :: 0 <= c < |Categories| && Hits(ms, c) > 0) <==>
            (exists k, c :: 0 <= k < |ms| && 0 <= c < |Categories| && InCategory(ms[k], c))
  {
    if exists k, c :: 0 <= k < |ms| && 0 <= c < |Categories| && InCategory(ms[k], c) {
      var k, c :| 0 <= k < |ms| && 0 <= c < |Categories| && InCategory(ms[k], c);
      HitsZero(ms, c);
    }
    if exists c :: 0 <= c < |Categories| && Hits(ms, c) > 0 {
      var c :| 0 <= c < |Categories| && Hits(ms, c) > 0;
      HitsZero(ms, c);
    }
  }

  /**
   * No merchants, no category; "Other" exactly when merchants were found but
   * none mentions any keyword.
   */
  lemma TopCategoryFallbacks(ms: seq<string>)
    ensures TopCategory(ms) == None <==> ms == []
    ensures TopCategory(ms) == Some(OtherCategory) <==>
              ms != [] && forall k, c :: 0 <= k < |ms| && 0 <= c < |Categories| ==> !InCategory(ms[k], c)
  {
    if ms != [] {
      var w := HitCounts(ms);
      var b := FirstMaxIndex(w);
      SomeHit(ms);
      if w[b] > 0 {
        OtherIsNoCategory(b);
        assert TopCategory(ms) == Some(Categories[b].0);
        assert Hits(ms, b) > 0;
        assert exists c :: 0 <= c < |Categories| && Hits(ms, c) > 0;
      } else {
        forall c | 0 <= c < |Categories| ensures Hits(ms, c) == 0 {
          assert w[c] == Hits(ms, c) <= w[b];
        }
      }
    }
  }

  /** Otherwise the answer is a category of maximal count that beats every category declared before it. */
  lemma TopCategoryWinner(ms: seq<string>)
    requires TopCategory(ms) != None && TopCategory(ms) != Some(OtherCategory)
    ensures exists b :: 0 <= b < |Categories| && TopCategory(ms) == Some(Categories[b].0)
              && Hits(ms, b) > 0
              && (forall c :: 0 <= c < |Categories| ==> Hits(ms, c) <= Hits(ms, b))
              && (forall c :: 0 <= c < b ==> Hits(ms, c) < Hits(ms, b))
  {
    var w := HitCounts(ms);
    var b := FirstMaxIndex(w);
    assert forall c :: 0 <= c < |Categories| ==> w[c] == Hits(ms, c);
    assert TopCategory(ms) == Some(Categories[b].0);
  }

  // ---------------------------------------------------------------------------
  // extract_total_balance

  /** Balances are accepted strictly between 0 and 10000000 rupees (in paise). */
  const MaxBalance := 1_000_000_000

  predicate InRange(a: Option<int>) {
    a.Some? && 0 < a.value < MaxBalance
  }

  /** The in-range amounts of one pattern's matches, in match order. */
  function InRangeOf(matches: seq<Option<int>>): seq<int> {
    if matches == [] then []
    else
      var a := matches[|matches| - 1];
      InRangeOf(matches[..|matches| - 1]) + (if InRange(a) then [a.value] else [])
  }

  /** `found_amounts`: the in-range amounts of every pattern, pattern by pattern. */
  function Found(ms: seq<seq<Option<int>>>): seq<int> {
    if ms == [] then [] else Found(ms[..|ms| - 1]) + InRangeOf(ms[|ms| - 1])
  }

  /** The amount `extract_total_balance` returns. */
  function SelectedBalance(ms: seq<seq<Option<int>>>): Option<int> {
    var found := Found(ms);
    if found == [] then None
    else if |found| > 1 then Some(MostCommon(found))
    else Some(found[0])
  }

  /**
   * extract_total_balance on the normalised amounts each pattern matched
   * (None where `normalize_amount` failed): collect the in-range amounts,
   * then take the most frequent.
   */
  method ExtractTotalBalance(ms: seq<seq<Option<int>>>) returns (r: Option<int>)
    ensures r == SelectedBalance(ms)
  {
    var found: seq<int> := [];
    for p := 0 to |ms|
      invariant found == Found(ms[..p])
    {
      var matches := ms[p];
      assert ms[..p + 1][..p] == ms[..p];
      for k := 0 to |matches|
        invariant found == Found(ms[..p]) + InRangeOf(matches[..k])
      {
        assert matches[..k + 1][..k] == matches[..k];
        var amount := matches[k];
        if amount.Some? && amount.value > 0 && amount.value < MaxBalance {
          found := found + [amount.value];
        }
      }
      assert matches[..|matches|] == matches;
    }
    assert ms[..|ms|] == ms;
    if found != [] {
      if |found| > 1 {
        return Some(MostCommon(found));
      }
      return Some(found[0]);
    }
    return None;
  }

  lemma {:induction false} InRangeOfSpec(matches: seq<Option<int>>, a: int)
    ensures a in InRangeOf(matches) <==> InRange(Some(a)) && Some(a) in matches
  {
    if matches != [] {
      InRangeOfSpec(matches[..|matches| - 1], a);
      assert matches == matches[..|matches| - 1] + [matches[|matches| - 1]];
    }
  }

  lemma {:induction false} FoundSpec(ms: seq<seq<Option<int>>>, a: int)
    ensures a in Found(ms) <==> InRange(Some(a)) && exists p :: 0 <= p < |ms| && Some(a) in ms[p]
  {
    if ms != [] {
      var q := ms[..|ms| - 1];
      FoundSpec(q, a);
      InRangeOfSpec(ms[|ms| - 1], a);
      assert forall p :: 0 <= p < |q| ==> q[p] == ms[p];
    }
  }

  /**
   * None exactly when no amount is in range; otherwise an in-range matched
   * amount of maximal frequency among the collected amounts, the first
   * collected of those; the single-amount branch agrees with that rule.
   */
  lemma SelectedBalanceSpec(ms: seq<seq<Option<int>>>)
    ensures SelectedBalance(ms) == None <==> forall p :: 0 <= p < |ms| ==> forall a :: a in ms[p] ==> !InRange(a)
    ensures SelectedBalance(ms).Some? ==>
              var a := SelectedBalance(ms).value; var found := Found(ms);
              && a == MostCommon(found)
              && 0 < a < MaxBalance
              && (exists p :: 0 <= p < |ms| && Some(a) in ms[p])
              && (forall x :: x in found ==> Occurrences(found, x) <= Occurrences(found, a))
              && (forall k :: 0 <= k < FirstIndex(found, a) ==> Occurrences(found, found[k]) < Occurrences(found, a))
  {
    var found := Found(ms);
    if found == [] {
      forall p, a | 0 <= p < |ms| && a in ms[p] ensures !InRange(a) {
        if InRange(a) {
          FoundSpec(ms, a.value);
        }
      }
    } else {
      if |found| == 1 {
        assert Distinct(found) == [found[0]];
      }
      FoundSpec(ms, found[0]);
      FoundSpec(ms, MostCommon(found));
    }
  }

  // ---------------------------------------------------------------------------
  // extract_transaction_count, extract_last4, extract_card_variant, extract_interest_charges

  /** Transaction counts are accepted strictly between 0 and 10000. */
  const MaxCount := 10000

  predicate CountOk(c: Option<int>) {
    c.Some? && 0 < c.value < MaxCount
  }

  /**
   * extract_transaction_count on the first match of each pattern and the
   * number of date-like tokens: the first in-bounds count, else half the
   * number of dates when there are more than five, else None.
   */
  function SelectedCount(firsts: seq<Option<int>>, dateCount: nat): (r: Option<int>)
    ensures (exists k :: 0 <= k < |firsts| && CountOk(firsts[k])) ==>
              CountOk(r) && exists k :: 0 <= k < |firsts| && firsts[k] == r && forall j :: 0 <= j < k ==> !CountOk(firsts[j])
    ensures (forall k :: 0 <= k < |firsts| ==> !CountOk(firsts[k])) ==>
              r == if dateCount > 5 then Some(dateCount / 2) else None
    ensures r.Some? ==> r.value > 0
  {
    if firsts == [] then (if dateCount > 5 then Some(dateCount / 2) else None)
    else if firsts[0].Some? && 0 < firsts[0].value < MaxCount then firsts[0]
    else
      var r := SelectedCount(firsts[1..], dateCount);
      assert forall k :: 1 <= k < |firsts| ==> firsts[k] == firsts[1..][k - 1];
      r
  }

  /** A last-4 candidate is accepted when it is four digits. */
  predicate IsLast4(s: string) {
    |s| == 4 && forall i :: 0 <= i < 4 ==> IsDigit(s[i])
  }

  /** extract_last4 on every match of the patterns in order: the first four-digit group. */
  function SelectedLast4(cands: seq<string>): (r: Option<string>)
    ensures r.None? <==> forall k :: 0 <= k < |cands| ==> !IsLast4(cands[k])
    ensures r.Some? ==> IsLast4(r.value)
    ensures r.Some? ==>
              exists k :: 0 <= k < |cands| && cands[k] == r.value && forall j :: 0 <= j < k ==> !IsLast4(cands[j])
  {
    if cands == [] then None
    else if IsLast4(cands[0]) then Some(cands[0])
    else
      var r := SelectedLast4(cands[1..]);
      assert forall k :: 1 <= k < |cands| ==> cands[k] == cands[1..][k - 1];
      r
  }

  /** A variant is accepted when, stripped, it is 3 to 49 characters long. */
  predicate VariantOk(g: Option<string>) {
    g.Some? && 2 < |Strip(PyStrip, g.value)| < 50
  }

  /** extract_card_variant on the first match of each pattern: the first acceptable one, title-cased. */
  function SelectedVariant(firsts: seq<Option<string>>): (r: Option<string>)
    ensures r.None? <==> forall k :: 0 <= k < |firsts| ==> !VariantOk(firsts[k])
    ensures r.Some? ==> 3 <= |r.value| <= 49 && IsTitled(r.value)
    ensures r.Some? ==>
              exists k :: 0 <= k < |firsts| && VariantOk(firsts[k]) && r.value == TitleCase(Strip(PyStrip, firsts[k].value))
                && forall j :: 0 <= j < k ==> !VariantOk(firsts[j])
  {
    if firsts == [] then None
    else if firsts[0].Some? && 2 < |Strip(PyStrip, firsts[0].value)| < 50 then
      var v := Strip(PyStrip, firsts[0].value);
      TitleCaseIsTitled(v);
      Some(TitleCase(v))
    else
      var r := SelectedVariant(firsts[1..]);
      assert forall k :: 1 <= k < |firsts| ==> firsts[k] == firsts[1..][k - 1];
      r
  }

  /** extract_interest_charges on the first match of each pattern: the first positive amount. */
  function SelectedInterest(firsts: seq<Option<int>>): (r: Option<int>)
    ensures r.None? <==> forall k :: 0 <= k < |firsts| ==> !(firsts[k].Some? && firsts[k].value > 0)
    ensures r.Some? ==> r.value > 0 && r in firsts
    ensures r.Some? ==>
              exists k :: 0 <= k < |firsts| && firsts[k] == r
                && forall j :: 0 <= j < k ==> !(firsts[j].Some? && firsts[j].value > 0)
  {
    if firsts == [] then None
    else if firsts[0].Some? && firsts[0].value > 0 then firsts[0]
    else
      var r := SelectedInterest(firsts[1..]);
      assert forall k :: 1 <= k < |firsts| ==> firsts[k] == firsts[1..][k - 1];
      r
  }

  // ---------------------------------------------------------------------------
  // parse_pdf

  /** What the regular expressions found in a statement's text. */
  datatype Extraction = Extraction(
    last4Matches: seq<string>,
    variantMatches: seq<Option<string>>,
    balanceMatches: seq<seq<Option<int>>>,
    countMatches: seq<Option<int>>,
    dateCount: nat,
    interestMatches: seq<Option<int>>,
    merchants: seq<string>)

  const MinTextLength := 50
  const NoTextError := "Unable to extract text from PDF"

  /**
   * parse_pdf on the extracted text: a FAILED record when the stripped text
   * is shorter than 50 characters, otherwise a PARSED record of the
   * detected issuer and the selected fields.
   */
  function ParsePdf(filename: string, text: string, ex: Extraction, id: string, uploadedAt: string): (r: ParsedRecord)
    ensures r.filename == filename && r.id == id && r.uploadedAt == uploadedAt
    ensures r.status == FAILED <==> |Strip(PyStrip, text)| < MinTextLength
    ensures r.status == FAILED ==>
              && r.error == Some(NoTextError) && r.issuer == UNKNOWN
              && r.cardLast4 == None && r.cardVariant == None && r.totalBalance == None
              && r.transactionCount == None && r.interestCharges == None && r.topMerchantCategory == None
    ensures r.status == PARSED ==> r.error == None && r.issuer == DetectIssuer(text)
    ensures r.status == PARSED ==>
              && r.cardLast4 == SelectedLast4(ex.last4Matches)
              && r.cardVariant == SelectedVariant(ex.variantMatches)
              && r.totalBalance == SelectedBalance(ex.balanceMatches)
              && r.transactionCount == SelectedCount(ex.countMatches, ex.dateCount)
              && r.interestCharges == SelectedInterest(ex.interestMatches)
              && r.topMerchantCategory == TopCategory(ex.merchants)
  {
    if |Strip(PyStrip, text)| < MinTextLength then
      Create(id, uploadedAt, filename, status := FAILED, error := Some(NoTextError))
    else
      Create(id, uploadedAt, filename,
        issuer := DetectIssuer(text),
        cardLast4 := SelectedLast4(ex.last4Matches),
        cardVariant := SelectedVariant(ex.variantMatches),
        totalBalance := SelectedBalance(ex.balanceMatches),
        transactionCount := SelectedCount(ex.countMatches, ex.dateCount),
        interestCharges := SelectedInterest(ex.interestMatches),
        topMerchantCategory := TopCategory(ex.merchants),
        status := PARSED)
  }

  /**
   * Every field of a parsed record passed its sanity check: four digits,
   * a title-cased variant of 3 to 49 characters, a balance strictly between
   * 0 and 10000000 rupees, and positive counts and interest.
   */
  lemma ParsedFieldsSane(filename: string, text: string, ex: Extraction, id: string, uploadedAt: string)
    ensures var r := ParsePdf(filename, text, ex, id, uploadedAt);
      && (r.cardLast4.Some? ==> IsLast4(r.cardLast4.value))
      && (r.cardVariant.Some? ==> 3 <= |r.cardVariant.value| <= 49 && IsTitled(r.cardVariant.value))
      && (r.totalBalance.Some? ==> 0 < r.totalBalance.value < MaxBalance)
      && (r.transactionCount.Some? ==> r.transactionCount.value > 0)
      && (r.interestCharges.Some? ==> r.interestCharges.value > 0)
  {
    SelectedBalanceSpec(ex.balanceMatches);
  }
}
