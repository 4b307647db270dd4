/**
 * The statement record shared by the backend (the `ParsedRecord` dataclass)
 * and the frontend (the `ParsedRecord` interface): its fields, the
 * `create` factory with its defaults, and the dictionary `to_dict` returns.
 *
 * Money is an integer number of paise (hundredths of a rupee), the precision
 * the parser rounds amounts to. `id` and `uploaded_at` are generated by
 * `uuid4` and `utcnow`; here they are arguments.
 */
module Records {
  import opened Wrappers

  datatype Issuer = HDFC | ICICI | SBI | AXIS | AMEX | UNKNOWN

  /** The six issuers in declaration order. */
  const Issuers: seq<Issuer> := [HDFC, ICICI, SBI, AXIS, AMEX, UNKNOWN]

  /** Position of an issuer in the declaration order. */
  function Rank(i: Issuer): (k: nat)
    ensures k < |Issuers| && Issuers[k] == i
  {
    match i
    case HDFC => 0
    case ICICI => 1
    case SBI => 2
    case AXIS => 3
    case AMEX => 4
    case UNKNOWN => 5
  }

  /** Every issuer is listed, at the position its rank gives. */
  lemma IssuersListed()
    ensures forall i :: i in Issuers
    ensures forall k :: 0 <= k < |Issuers| ==> Rank(Issuers[k]) == k
  {
    forall i ensures i in Issuers {
      assert Issuers[Rank(i)] == i;
    }
  }

  function IssuerName(i: Issuer): string {
    match i
    case HDFC => "HDFC"
    case ICICI => "ICICI"
    case SBI => "SBI"
    case AXIS => "AXIS"
    case AMEX => "AMEX"
    case UNKNOWN => "UNKNOWN"
  }

  function ParseIssuer(s: string): (r: Option<Issuer>)
    ensures r.Some? ==> IssuerName(r.value) == s
  {
    if s == "HDFC" then Some(HDFC)
    else if s == "ICICI" then Some(ICICI)
    else if s == "SBI" then Some(SBI)
    else if s == "AXIS" then Some(AXIS)
    else if s == "AMEX" then Some(AMEX)
    else if s == "UNKNOWN" then Some(UNKNOWN)
    else None
  }

  datatype Status = PARSED | FAILED

  function StatusName(s: Status): string {
    match s
    case PARSED => "PARSED"
    case FAILED => "FAILED"
  }

  function ParseStatus(s: string): (r: Option<Status>)
    ensures r.Some? ==> StatusName(r.value) == s
  {
    if s == "PARSED" then Some(PARSED) else if s == "FAILED" then Some(FAILED) else None
  }

  datatype ParsedRecord = ParsedRecord(
    id: string,
    filename: string,
    issuer: Issuer,
    cardLast4: Option<string>,
    cardVariant: Option<string>,
    totalBalance: Option<int>,
    transactionCount: Option<int>,
    interestCharges: Option<int>,
    topMerchantCategory: Option<string>,
    uploadedAt: string,
    status: Status,
    error: Option<string>)

  /**
   * `ParsedRecord.create`: every argument goes to the field of the same name;
   * issuer defaults to UNKNOWN, status to PARSED, every optional field and
   * the error to None. `id` and `uploadedAt` stand for the generated values.
   */
  function Create(
    id: string,
    uploadedAt: string,
    filename: string,
    issuer: Issuer := UNKNOWN,
    cardLast4: Option<string> := None,
    cardVariant: Option<string> := None,
    totalBalance: Option<int> := None,
    transactionCount: Option<int> := None,
    interestCharges: Option<int> := None,
    topMerchantCategory: Option<string> := None,
    status: Status := PARSED,
    error: Option<string> := None): (r: ParsedRecord)
    ensures r.id == id && r.uploadedAt == uploadedAt && r.filename == filename
    ensures r.issuer == issuer && r.status == status && r.error == error
    ensures r.cardLast4 == cardLast4 && r.cardVariant == cardVariant
    ensures r.totalBalance == totalBalance && r.transactionCount == transactionCount
    ensures r.interestCharges == interestCharges && r.topMerchantCategory == topMerchantCategory
  {
    ParsedRecord(id, filename, issuer, cardLast4, cardVariant, totalBalance,
                 transactionCount, interestCharges, topMerchantCategory, uploadedAt, status, error)
  }

  /** With only a filename, `create` yields an UNKNOWN-issuer PARSED record with every optional field None. */
  lemma CreateDefaults(id: string, uploadedAt: string, filename: string)
    ensures var r := Create(id, uploadedAt, filename);
      && r.issuer == UNKNOWN && r.status == PARSED && r.error == None
      && r.cardLast4 == None && r.cardVariant == None && r.totalBalance == None
      && r.transactionCount == None && r.interestCharges == None && r.topMerchantCategory == None
  {
  }

  /** A JSON value as `jsonify` would render a field. */
  datatype Value = Str(s: string) | Num(n: int) | Null

  function OptStr(o: Option<string>): Value {
    match o
    case Some(s) => Str(s)
    case None => Null
  }

  function OptNum(o: Option<int>): Value {
    match o
    case Some(n) => Num(n)
    case None => Null
  }

  /** The twelve dataclass field names, in declaration order. */
  const FieldNames: seq<string> := [
    "id", "filename", "issuer", "card_last4", "card_variant", "total_balance",
    "transaction_count", "interest_charges", "top_merchant_category",
    "uploaded_at", "status", "error"]

  type Dict = seq<(string, Value)>

  /** `to_dict` (`dataclasses.asdict`): one entry per field, in field order. */
  function ToDict(r: ParsedRecord): (d: Dict)
    ensures |d| == |FieldNames| && forall k :: 0 <= k < |d| ==> d[k].0 == FieldNames[k]
  {
    [("id", Str(r.id)), ("filename", Str(r.filename)), ("issuer", Str(IssuerName(r.issuer))),
     ("card_last4", OptStr(r.cardLast4)), ("card_variant", OptStr(r.cardVariant)),
     ("total_balance", OptNum(r.totalBalance)), ("transaction_count", OptNum(r.transactionCount)),
     ("interest_charges", OptNum(r.interestCharges)),
     ("top_merchant_category", OptStr(r.topMerchantCategory)),
     ("uploaded_at", Str(r.uploadedAt)), ("status", Str(StatusName(r.status))),
     ("error", OptStr(r.error))]
  }

  function GetStr(v: Value): Option<string> {
    if v.Str? then Some(v.s) else None
  }

  function GetOptStr(v: Value): Option<Option<string>> {
    match v
    case Str(s) => Some(Some(s))
    case Null => Some(None)
    case Num(_) => None
  }

  function GetOptNum(v: Value): Option<Option<int>> {
    match v
    case Num(n) => Some(Some(n))
    case Null => Some(None)
    case Str(_) => None
  }

  /** Reads a record back from a dictionary shaped like `to_dict`'s output. */
  function FromDict(d: Dict): (r: Option<ParsedRecord>)
    ensures r.Some? ==> |d| == |FieldNames|
  {
    if |d| != |FieldNames| || exists k :: 0 <= k < |d| && d[k].0 != FieldNames[k] then None
    else
      var id := GetStr(d[0].1);
      var filename := GetStr(d[1].1);
      var issuer := if d[2].1.Str? then ParseIssuer(d[2].1.s) else None;
      var last4 := GetOptStr(d[3].1);
      var variant := GetOptStr(d[4].1);
      var balance := GetOptNum(d[5].1);
      var count := GetOptNum(d[6].1);
      var interest := GetOptNum(d[7].1);
      var category := GetOptStr(d[8].1);
      var uploadedAt := GetStr(d[9].1);
      var status := if d[10].1.Str? then ParseStatus(d[10].1.s) else None;
      var error := GetOptStr(d[11].1);
      if id.None? || filename.None? || issuer.None? || last4.None? || variant.None?
         || balance.None? || count.None? || interest.None? || category.None?
         || uploadedAt.None? || status.None? || error.None?
      then None
      else Some(ParsedRecord(id.value, filename.value, issuer.value, last4.value, variant.value,
                             balance.value, count.value, interest.value, category.value,
                             uploadedAt.value, status.value, error.value))
  }

  /** `to_dict` loses nothing: reading its output back gives the record again. */
  lemma ToDictRoundTrip(r: ParsedRecord)
    ensures FromDict(ToDict(r)) == Some(r)
  {
    var d := ToDict(r);
    assert ParseIssuer(IssuerName(r.issuer)) == Some(r.issuer);
    assert ParseStatus(StatusName(r.status)) == Some(r.status);
  }

  /** Distinct records have distinct dictionaries. */
  lemma ToDictInjective(a: ParsedRecord, b: ParsedRecord)
    requires ToDict(a) == ToDict(b)
    ensures a == b
  {
    ToDictRoundTrip(a);
    ToDictRoundTrip(b);
  }
}
