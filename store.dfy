/**
 * The Flask backend (app.py): the in-memory `records_store` behind the
 * upload, list, clear and CSV export endpoints, and the hard-coded login.
 *
 * Each uploaded file arrives with what the request and the helpers it
 * calls would produce for it: the browser's file name, the name
 * `secure_filename` makes of it, the extracted text, the regular
 * expressions' matches, and the generated id and timestamp.
 */
module Store {
  import opened Wrappers
  import opened Records
  import opened Text
  import opened Parser

  // ---------------------------------------------------------------------------
  // login

  const ValidEmail := "admin@example.com"
  const ValidPassword := "admin123"
  const LoginToken := "dummy-token-12345"
  const BadCredentials := "Invalid email or password"

  /** The three outcomes of `/api/login`: 200 with the token, 401, or 500 when the body is not a JSON object. */
  datatype LoginResult = LoginOk(token: string) | Unauthorized(error: string) | ServerError

  /** `data.get(key, '')`. */
  function Field(body: map<string, string>, key: string): string {
    if key in body then body[key] else ""
  }

  /**
   * login: the token exactly when the email and password, stripped of
   * surrounding whitespace, are the hard-coded ones; a missing field counts
   * as empty.
   */
  function Login(body: Option<map<string, string>>): (r: LoginResult)
    ensures r.LoginOk? <==>
              body.Some? && Strip(PyStrip, Field(body.value, "email")) == ValidEmail
              && Strip(PyStrip, Field(body.value, "password")) == ValidPassword
    ensures r.LoginOk? ==> r.token == LoginToken
    ensures r == ServerError <==> body.None?
    ensures r.Unauthorized? ==> r.error == BadCredentials
  {
    match body
    case None => ServerError
    case Some(data) =>
      var email := Strip(PyStrip, Field(data, "email"));
      var password := Strip(PyStrip, Field(data, "password"));
      if email == ValidEmail && password == ValidPassword then LoginOk(LoginToken)
      else Unauthorized(BadCredentials)
  }

  /** Whitespace around the right credentials is accepted; a missing password is refused. */
  lemma LoginIgnoresPadding(a: string, b: string, c: string, d: string)
    requires IsBlank(PyStrip, a) && IsBlank(PyStrip, b) && IsBlank(PyStrip, c) && IsBlank(PyStrip, d)
    ensures Login(Some(map["email" := a + ValidEmail + b, "password" := c + ValidPassword + d])) == LoginOk(LoginToken)
    ensures Login(Some(map["email" := a + ValidEmail + b])) == Unauthorized(BadCredentials)
  {
    StripPadded(PyStrip, a, ValidEmail, b);
    StripPadded(PyStrip, c, ValidPassword, d);
    assert Field(map["email" := a + ValidEmail + b], "password") == "";
  }

  // ---------------------------------------------------------------------------
  // The record store

  /** One part of the multipart `files` field, with the values derived from it. */
  datatype FilePart = FilePart(
    filename: string,
    safeName: string,
    text: string,
    extraction: Extraction,
    id: string,
    uploadedAt: string)

  function Parse(f: FilePart): ParsedRecord {
    ParsePdf(f.safeName, f.text, f.extraction, f.id, f.uploadedAt)
  }

  /** What an upload keeps of `fs`: `parse` of each file with a non-empty name, in request order. */
  function ParseNamed<R>(fs: seq<FilePart>, parse: FilePart -> R): seq<R> {
    if fs == [] then []
    else
      var f := fs[|fs| - 1];
      ParseNamed(fs[..|fs| - 1], parse) + (if f.filename == "" then [] else [parse(f)])
  }

  /** The records an upload of `fs` stores. */
  function ParseAll(fs: seq<FilePart>): seq<ParsedRecord> {
    ParseNamed(fs, Parse)
  }

  lemma ParseNamedStep<R>(fs: seq<FilePart>, parse: FilePart -> R, k: nat)
    requires k < |fs|
    ensures ParseNamed(fs[..k + 1], parse) == ParseNamed(fs[..k], parse) + (if fs[k].filename == "" then [] else [parse(fs[k])])
  {
    assert fs[..k + 1][..k] == fs[..k];
  }

  /** An upload never stores more records than it received files. */
  lemma {:induction false} ParseNamedShorter<R>(fs: seq<FilePart>, parse: FilePart -> R)
    ensures |ParseNamed(fs, parse)| <= |fs|
  {
    if fs != [] {
      ParseNamedShorter(fs[..|fs| - 1], parse);
    }
  }

  /** With every file named, the k-th record is parsed from the k-th file. */
  lemma {:induction false} ParseNamedAll<R>(fs: seq<FilePart>, parse: FilePart -> R)
    requires forall k :: 0 <= k < |fs| ==> fs[k].filename != ""
    ensures |ParseNamed(fs, parse)| == |fs|
    ensures forall k :: 0 <= k < |fs| ==> ParseNamed(fs, parse)[k] == parse(fs[k])
  {
    if fs != [] {
      var p := fs[..|fs| - 1];
      assert forall k :: 0 <= k < |p| ==> p[k] == fs[k];
      ParseNamedAll(p, parse);
      assert ParseNamed(fs, parse) == ParseNamed(p, parse) + [parse(fs[|fs| - 1])];
    }
  }

  /** Files without a name are skipped. */
  lemma {:induction false} ParseNamedNone<R>(fs: seq<FilePart>, parse: FilePart -> R)
    requires forall k :: 0 <= k < |fs| ==> fs[k].filename == ""
    ensures ParseNamed(fs, parse) == []
  {
    if fs != [] {
      var p := fs[..|fs| - 1];
      assert forall k :: 0 <= k < |p| ==> p[k] == fs[k];
      ParseNamedNone(p, parse);
    }
  }

  function Dicts(rs: seq<ParsedRecord>): (ds: seq<Dict>)
    ensures |ds| == |rs|
  {
    seq(|rs|, k requires 0 <= k < |rs| => ToDict(rs[k]))
  }

  /** A JSON response: `success` with its data, or an HTTP error code with a message. */
  datatype Response<T> = Success(data: T) | Failure(code: nat, error: string)

  const NoFiles := "No files provided"

  /** A CSV cell. */
  datatype Cell = Text(s: string) | Number(n: int)

  const CsvHeader: seq<Cell> := [
    Text("ID"), Text("Filename"), Text("Issuer"), Text("Card Last 4"),
    Text("Card Variant"), Text("Amount Payable"), Text("Transaction Count"),
    Text("Interest Charges"), Text("Top Spending Category"),
    Text("Uploaded At"), Text("Status"), Text("Error")]

  /** `value or ''` for an optional string: None and "" give an empty cell. */
  function OrBlank(o: Option<string>): Cell {
    if o.Some? && o.value != "" then Text(o.value) else Text("")
  }

  /** `value or ''` for an optional number: None and 0 give an empty cell. */
  function OrBlankNum(o: Option<int>): Cell {
    if o.Some? && o.value != 0 then Number(o.value) else Text("")
  }

  /** The row `export_csv` writes for a record. */
  function CsvRow(r: ParsedRecord): (row: seq<Cell>)
    ensures |row| == |CsvHeader|
  {
    [Text(r.id), Text(r.filename), Text(IssuerName(r.issuer)),
     OrBlank(r.cardLast4), OrBlank(r.cardVariant),
     OrBlankNum(r.totalBalance), OrBlankNum(r.transactionCount), OrBlankNum(r.interestCharges),
     OrBlank(r.topMerchantCategory), Text(r.uploadedAt), Text(StatusName(r.status)), OrBlank(r.error)]
  }

  /** A JSON value as a CSV cell when every falsy value is blanked. */
  function Blanked(v: Value): Cell {
    match v
    case Str(s) => Text(s)
    case Num(n) => if n == 0 then Text("") else Number(n)
    case Null => Text("")
  }

  /**
   * A CSV row carries the same twelve values as the record's dictionary,
   * column by column, except that falsy values (None, "", 0) are blank.
   */
  lemma CsvRowMatchesDict(r: ParsedRecord)
    ensures forall k :: 0 <= k < |CsvHeader| ==> CsvRow(r)[k] == Blanked(ToDict(r)[k].1)
  {
    var row := CsvRow(r);
    var d := ToDict(r);
    assert row[0] == Blanked(d[0].1) && row[1] == Blanked(d[1].1) && row[2] == Blanked(d[2].1);
    assert row[3] == Blanked(d[3].1) && row[4] == Blanked(d[4].1) && row[5] == Blanked(d[5].1);
    assert row[6] == Blanked(d[6].1) && row[7] == Blanked(d[7].1) && row[8] == Blanked(d[8].1);
    assert row[9] == Blanked(d[9].1) && row[10] == Blanked(d[10].1) && row[11] == Blanked(d[11].1);
  }

  /** A zero amount is exported as an empty cell, just like a missing one. */
  lemma ZeroAmountIsBlank(r: ParsedRecord)
    ensures CsvRow(r)[5] == Text("") <==> r.totalBalance == None || r.totalBalance == Some(0)
    ensures CsvRow(r)[6] == Text("") <==> r.transactionCount == None || r.transactionCount == Some(0)
  {
  }

  /** `records_store`, the list every endpoint shares. */
  class RecordStore {
    var records: seq<ParsedRecord>

    constructor()
      ensures records == []
    {
      records := [];
    }

    /**
     * upload: 400 "No files provided" and no change when the `files` part is
     * missing or empty; otherwise each named file is parsed and appended in
     * request order, and the new records are returned as dictionaries.
     */
    method Upload(files: Option<seq<FilePart>>) returns (r: Response<seq<Dict>>)
      modifies this
      ensures files.None? || files == Some([]) ==> r == Failure(400, NoFiles) && records == old(records)
      ensures files.Some? && files.value != [] ==>
                records == old(records) + ParseAll(files.value) && r == Success(Dicts(ParseAll(files.value)))
    {
      if files.None? {
        return Failure(400, NoFiles);
      }
      var fs := files.value;
      if |fs| == 0 {
        return Failure(400, NoFiles);
      }
      var results: seq<Dict> := [];
      for k := 0 to |fs|
        invariant records == old(records) + ParseNamed(fs[..k], Parse)
        invariant results == Dicts(ParseNamed(fs[..k], Parse))
      {
        ParseNamedStep(fs, Parse, k);
        var f := fs[k];
        if f.filename == "" {
          continue;
        }
        var record := Parse(f);
        records := records + [record];
        results := results + [ToDict(record)];
      }
      assert fs[..|fs|] == fs;
      return Success(results);
    }

    /** get_records: every stored record, in insertion order, as a dictionary that reads back as the record. */
    method GetRecords() returns (ds: seq<Dict>)
      ensures |ds| == |records|
      ensures forall k :: 0 <= k < |ds| ==> FromDict(ds[k]) == Some(records[k])
    {
      ds := Dicts(records);
      forall k | 0 <= k < |ds| ensures FromDict(ds[k]) == Some(records[k]) {
        ToDictRoundTrip(records[k]);
      }
    }

    /** clear_records: the store becomes empty. */
    method ClearRecords()
      modifies this
      ensures records == []
    {
      records := [];
    }

    /** export_csv: the header, then one row per stored record in store order. */
    method ExportCsv() returns (rows: seq<seq<Cell>>)
      ensures |rows| == |records| + 1 && rows[0] == CsvHeader
      ensures forall k :: 0 <= k < |records| ==> rows[k + 1] == CsvRow(records[k])
      ensures forall k :: 0 <= k < |rows| ==> |rows[k]| == 12
    {
      rows := [CsvHeader];
      for k := 0 to |records|
        invariant |rows| == k + 1 && rows[0] == CsvHeader
        invariant forall j :: 0 <= j < k ==> rows[j + 1] == CsvRow(records[j])
        invariant forall j :: 0 <= j < |rows| ==> |rows[j]| == 12
      {
        var r := records[k];
        rows := rows + [[
          Text(r.id), Text(r.filename), Text(IssuerName(r.issuer)),
          OrBlank(r.cardLast4), OrBlank(r.cardVariant),
          OrBlankNum(r.totalBalance), OrBlankNum(r.transactionCount), OrBlankNum(r.interestCharges),
          OrBlank(r.topMerchantCategory), Text(r.uploadedAt), Text(StatusName(r.status)), OrBlank(r.error)]];
      }
    }
  }
}
