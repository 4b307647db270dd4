# CreditCardParser, modelled in Dafny

CreditCardParser turns PDF credit-card statements from Indian issuers
(HDFC, ICICI, SBI, Axis, American Express) into statement records. The
Flask backend extracts a PDF's text and guesses the issuer, the last four
card digits, the card variant, the amount payable, the number of
transactions, the interest charges and the top spending category. It
keeps the records in an in-memory list and serves them as JSON or CSV. The
React dashboard shows the records in a filterable table, three KPI cards
(statements, amount payable, transactions) and three charts (amount and
transactions by issuer, card variants).

This project models:

- the record itself and its `create` factory and `to_dict` (`records.dfy`);
- the dashboard's KPI cards (`kpi_cards.dfy`);
- the six-issuer accumulator shared by the two bar charts (`issuer_buckets.dfy`);
- the balance chart with its rounding (`balance_chart.dfy`) and the transaction chart (`transaction_chart.dfy`);
- the card-variant histogram with its stable descending sort (`variant_chart.dfy`);
- the dashboard page: newest-first loading, the issuer and search filters, "Clear All", and the fact that the cards and charts see every record (`dashboard.dfy`);
- the parser's decisions once its regular expressions have matched (`parser.dfy`);
- the backend's record store, CSV export and login (`store.dfy`).

Shared pieces:

- `sorting.dfy` holds the stable descending sort used by `Array.prototype.sort`. It has an in-place array version, proved equal to the functional one.
- `counting.dfy` holds dictionary-style counting in first-occurrence order, Python's `max` and `Counter.most_common`.
- `text.dfy` holds ASCII case mapping, `strip`/`trim`, `str.title` and substring search.

Conventions:

- Money is an integer number of paise, which is the precision `normalize_amount` rounds to. `Math.round` of a rupee amount is `RoundRupees`, i.e. floor of (paise + 50) / 100.
- Values the program obtains from outside are arguments of the model: generated ids and timestamps, `secure_filename`'s output, the extracted PDF text, the regular-expression matches, `Date.parse`, the user's confirmation and the backend's replies.

Three behaviours of the charts are worth knowing:

- Bars are drawn only for buckets above zero. A bucket with a negative sum is dropped as well as one with a zero sum.
- The balance chart filters before rounding, so a bucket below half a rupee is shown as a bar of 0.
- The rounded bars need not add up to the rounded total. `BarsMatchAmountPayable` bounds the difference at half a rupee per bar.

## Model

| member | source | states |
|---|---|---|
| Records.Rank | CreditCardParser/frontend/src/types/index.ts:1 | each issuer has a position in the declaration order HDFC, ICICI, SBI, AXIS, AMEX, UNKNOWN |
| Records.IssuersListed | CreditCardParser/frontend/src/types/index.ts:1 | the six issuers are exactly the enumeration, each listed at its rank |
| Records.Create | CreditCardParser/backend/models.py:22-48 | every argument is copied unchanged into the field of the same name; only id and uploaded_at come from elsewhere |
| Records.CreateDefaults | CreditCardParser/backend/models.py:23-34 | with only a filename the record is UNKNOWN and PARSED, and every optional field and the error are None |
| Records.ToDict | CreditCardParser/backend/models.py:9-20 | the dictionary has exactly the twelve field names, in declaration order |
| Records.ToDictRoundTrip | CreditCardParser/backend/models.py:50-51 | reading `to_dict`'s output back gives the record: every field keeps its value |
| Records.ToDictInjective | CreditCardParser/backend/models.py:50-51 | different records give different dictionaries |
| Text.ContainsIffOccurs | CreditCardParser/frontend/src/pages/Dashboard.tsx:64-66 | substring search holds exactly when the needle occurs at some position |
| Text.Strip | CreditCardParser/backend/parser.py:204 | stripping never lengthens, is empty exactly for blank strings, and leaves no whitespace at either end; Python's `strip()` also removes the separators U+001C to U+001F, JavaScript's `trim()` does not |
| Text.StripPadded | CreditCardParser/backend/app.py:27-28 | stripping removes exactly the whitespace, of the strip's own kind, around a word |
| Text.TitleCase | CreditCardParser/backend/parser.py:206 | `title()` keeps the length, keeps every non-letter, and changes letters only in case |
| Text.TitleCaseUnique | CreditCardParser/backend/parser.py:206 | the title-cased string is the only titled string equal to the input up to case |
| Text.TitleCaseIsTitled | CreditCardParser/backend/parser.py:206 | the result starts every word with a capital and continues in lower case, and title-casing it again changes nothing |
| Sorting.SortDescNonIncreasing | CreditCardParser/frontend/src/pages/Dashboard.tsx:38-40 | the comparator `b - a` orders keys non-increasing |
| Sorting.SortDescPermutes | CreditCardParser/frontend/src/pages/Dashboard.tsx:38-40 | sorting is a permutation |
| Sorting.SortDescStable | CreditCardParser/frontend/src/components/CardVariantChart.tsx:26 | `Array.prototype.sort` is stable: elements with equal keys keep their input order |
| Sorting.SortDescInPlace | CreditCardParser/frontend/src/pages/Dashboard.tsx:38-40 | the in-place array sort leaves exactly the stable descending order of the old contents |
| Counting.OccurrencesPositive | CreditCardParser/frontend/src/components/CardVariantChart.tsx:18 | a value is counted at least once exactly when it occurs |
| Counting.DistinctSpec | CreditCardParser/frontend/src/components/CardVariantChart.tsx:21 | the dictionary's keys are exactly the values seen, each once |
| Counting.DistinctInFirstOccurrenceOrder | CreditCardParser/frontend/src/components/CardVariantChart.tsx:21 | the keys come in the order of their first occurrence |
| Counting.CountsSumToLength | CreditCardParser/frontend/src/components/CardVariantChart.tsx:14-19 | the counts add up to the number of values counted |
| Counting.Tally | CreditCardParser/frontend/src/components/CardVariantChart.tsx:14-19 | the increment loop leaves each value seen mapped to its number of occurrences, with keys in first-occurrence order |
| Counting.FirstMaxIndex | CreditCardParser/backend/parser.py:396 | Python's `max` with a key: a maximal position, and the first of the maximal ones |
| Counting.FirstMaxIndexUnique | CreditCardParser/backend/parser.py:396 | those two properties single out one position |
| Counting.MostCommon | CreditCardParser/backend/parser.py:266-270 | `most_common(1)`: a value that occurs, of maximal count, and the first such value seen |
| KpiCards.Counted | CreditCardParser/frontend/src/components/KPICards.tsx:11-17 | a FAILED record contributes no value |
| KpiCards.TotalStatements | CreditCardParser/frontend/src/components/KPICards.tsx:9 | the PARSED count never exceeds the record count |
| KpiCards.KpisOfOne | CreditCardParser/frontend/src/components/KPICards.tsx:9-17 | a PARSED record counts 1 whether or not its numbers are null and adds its non-null balance and transaction count; a FAILED record adds nothing |
| KpiCards.KpisOfEmpty | CreditCardParser/frontend/src/components/KPICards.tsx:9-17 | no records give three zeros |
| KpiCards.KpisAppend | CreditCardParser/frontend/src/components/KPICards.tsx:9-17 | the KPIs of two lists joined are the sums of their KPIs |
| KpiCards.FailedRecordChangesNothing | CreditCardParser/frontend/src/components/KPICards.tsx:9-17 | inserting a FAILED record anywhere changes none of the three KPIs |
| KpiCards.AllParsedCounted | CreditCardParser/frontend/src/components/KPICards.tsx:9 | the statement count is the record count exactly when every record is PARSED |
| KpiCards.KpisIgnoreOrder | CreditCardParser/frontend/src/components/KPICards.tsx:9-17 | the KPIs depend only on which records there are, not on their order |
| KpiCards.TotalNonNegative | CreditCardParser/frontend/src/components/KPICards.tsx:11-17 | with no negative values the totals are not negative |
| IssuerBuckets.BucketMap | CreditCardParser/frontend/src/components/Chart.tsx:10-23 | the accumulator has a bucket for each of the six issuers, holding that issuer's sum |
| IssuerBuckets.Accumulate | CreditCardParser/frontend/src/components/Chart.tsx:10-23 | starting from six zeros and adding each counted record to its own issuer's bucket yields that map |
| IssuerBuckets.BucketsPartitionTotal | CreditCardParser/frontend/src/components/Chart.tsx:19-23 | the six buckets add up to the KPI total: each counted record lands in exactly one bucket |
| IssuerBuckets.BucketNonNegative | CreditCardParser/frontend/src/components/Chart.tsx:19-23 | with no negative values no bucket is negative |
| IssuerBuckets.NothingCountedEmptyBuckets | CreditCardParser/frontend/src/components/Chart.tsx:19-23 | with no PARSED record carrying the value every bucket stays 0 |
| IssuerBuckets.Entries | CreditCardParser/frontend/src/components/Chart.tsx:25 | `Object.entries` lists the six buckets in declaration order |
| IssuerBuckets.Positive | CreditCardParser/frontend/src/components/Chart.tsx:26 | the filter keeps exactly the entries above zero |
| IssuerBuckets.PositiveInOrder | CreditCardParser/frontend/src/components/Chart.tsx:25-26 | the filter keeps the declaration order |
| IssuerBuckets.PositiveKeepsSum | CreditCardParser/frontend/src/components/Chart.tsx:26 | with no negative entries dropping the zero ones keeps the sum |
| IssuerBuckets.PositiveBuckets | CreditCardParser/frontend/src/components/Chart.tsx:25-26 | at most six rows; an issuer has a row exactly when its bucket is above zero, holding that bucket; rows in declaration order, none repeated |
| IssuerBuckets.PositiveBucketsSumToTotal | CreditCardParser/frontend/src/components/Chart.tsx:19-26 | with no negative values the rows add up to the KPI total |
| IssuerBuckets.NothingCountedNoRows | CreditCardParser/frontend/src/components/Chart.tsx:32-38 | no counted record gives no rows, so the empty-state message is shown |
| BalanceChart.RoundRupees | CreditCardParser/frontend/src/components/Chart.tsx:29 | `Math.round` of the rupee amount: the nearest whole rupee, halves rounded up |
| BalanceChart.ChartData | CreditCardParser/frontend/src/components/Chart.tsx:10-30 | the bars are the issuers whose unrounded sum is above zero, each once, in declaration order, with the rounded sum |
| BalanceChart.RoundedSumClose | CreditCardParser/frontend/src/components/Chart.tsx:29 | rounding each row moves the sum by at most half a rupee per row |
| BalanceChart.BarsMatchAmountPayable | CreditCardParser/frontend/src/components/Chart.tsx:19-29 | with no negative balances the bars add up to the amount-payable KPI within half a rupee per bar |
| TransactionChart.ChartData | CreditCardParser/frontend/src/components/TransactionChart.tsx:10-30 | at most six bars, one per issuer whose count sum is above zero, in declaration order, holding the unrounded sum |
| TransactionChart.BarsSumToTotalTransactions | CreditCardParser/frontend/src/components/TransactionChart.tsx:19-26 | with no negative counts the bars add up to the transactions KPI |
| VariantChart.VariantsAreRecordVariants | CreditCardParser/frontend/src/components/CardVariantChart.tsx:15-17 | a name is counted exactly when a PARSED record has it as a non-empty variant, so the 'Unknown' fallback never fires |
| VariantChart.ChartData | CreditCardParser/frontend/src/components/CardVariantChart.tsx:12-26 | counting into a dictionary, listing its entries and sorting the array in place gives the stable descending sort of the slices |
| VariantChart.SlicesCountVariants | CreditCardParser/frontend/src/components/CardVariantChart.tsx:16-18 | every slice is a counted variant whose value is its number of records, hence at least 1 |
| VariantChart.EveryVariantHasSlice | CreditCardParser/frontend/src/components/CardVariantChart.tsx:16-25 | every counted variant has a slice |
| VariantChart.NamesDistinct | CreditCardParser/frontend/src/components/CardVariantChart.tsx:12-25 | no variant name appears twice |
| VariantChart.ChartSorted | CreditCardParser/frontend/src/components/CardVariantChart.tsx:26 | values are non-increasing |
| VariantChart.TiesKeepFirstOccurrenceOrder | CreditCardParser/frontend/src/components/CardVariantChart.tsx:21-26 | slices with equal values keep the dictionary's order, which is the order in which the variants first appear |
| VariantChart.ValuesSumToCountedRecords | CreditCardParser/frontend/src/components/CardVariantChart.tsx:14-28 | the values add up to the number of counted records, and the chart is empty exactly when none is counted |
| Dashboard.KeepSpec | CreditCardParser/frontend/src/pages/Dashboard.tsx:57 | `filter` yields a subsequence holding each satisfying element as often as before and nothing else |
| Dashboard.NoFilterShowsAll | CreditCardParser/frontend/src/pages/Dashboard.tsx:53-61 | 'ALL' with an empty or whitespace-only query shows every record unchanged |
| Dashboard.FilteredSpec | CreditCardParser/frontend/src/pages/Dashboard.tsx:52-71 | the table is a subsequence of the records, no longer than them, holding each record with the chosen issuer that matches a non-blank query (as often as stored) and no other |
| Dashboard.SearchIgnoresCase | CreditCardParser/frontend/src/pages/Dashboard.tsx:61-67 | queries equal up to letter case give the same table |
| Dashboard.DashboardPage.constructor | CreditCardParser/frontend/src/pages/Dashboard.tsx:18-22 | the page starts with no records, an empty query, 'ALL' and loading |
| Dashboard.DashboardPage.FilterRecords | CreditCardParser/frontend/src/pages/Dashboard.tsx:52-71 | the table becomes the issuer-filtered, then (for a non-blank query) search-filtered records; nothing else changes |
| Dashboard.DashboardPage.LoadRecords | CreditCardParser/frontend/src/pages/Dashboard.tsx:32-50 | on success the array is sorted in place newest first (stable, a permutation) and becomes the records; otherwise the records stay; loading ends |
| Dashboard.DashboardPage.SetSearchQuery | CreditCardParser/frontend/src/pages/Dashboard.tsx:28-30 | a new query refilters the table and leaves the records, the KPI cards and the charts unchanged |
| Dashboard.DashboardPage.SetIssuerFilter | CreditCardParser/frontend/src/pages/Dashboard.tsx:28-30 | a new issuer refilters the table and leaves the records, the KPI cards and the charts unchanged |
| Dashboard.DashboardPage.ClearAll | CreditCardParser/frontend/src/pages/Dashboard.tsx:90-107 | after confirmation and a successful reply both lists are empty; otherwise nothing changes |
| Dashboard.ClearedPanels | CreditCardParser/frontend/src/pages/Dashboard.tsx:156-182 | once cleared, the cards show zeros and all three charts are empty |
| Parser.DetectIssuer | CreditCardParser/backend/parser.py:118-165 | the issuer whose keyword occurs in the upper-cased text, earlier-checked issuers winning; UNKNOWN exactly when no keyword occurs |
| Parser.DetectIssuerIgnoresCase | CreditCardParser/backend/parser.py:122 | lower- or upper-casing the text does not change the issuer |
| Parser.CategorizeMerchants | CreditCardParser/backend/parser.py:366-399 | the nested counting loop followed by the first maximum gives the specified top category |
| Parser.MerchantCountsForEach | CreditCardParser/backend/parser.py:388-392 | a merchant adds one to every category whose keyword it contains, however many, and nothing to the others |
| Parser.TopCategoryFallbacks | CreditCardParser/backend/parser.py:366-399 | None exactly for no merchants; 'Other' exactly when merchants exist but none contains a keyword |
| Parser.TopCategoryWinner | CreditCardParser/backend/parser.py:394-397 | otherwise a category of maximal count above zero, beating every category declared before it |
| Parser.ExtractTotalBalance | CreditCardParser/backend/parser.py:254-273 | the collecting loops and the choice give the specified balance |
| Parser.FoundSpec | CreditCardParser/backend/parser.py:254-261 | the collected amounts are exactly the in-range matched amounts of all patterns |
| Parser.SelectedBalanceSpec | CreditCardParser/backend/parser.py:263-273 | None exactly when no amount is in range; otherwise an in-range matched amount of maximal frequency, the first collected among those, the single-amount branch included |
| Parser.SelectedCount | CreditCardParser/backend/parser.py:286-302 | the first per-pattern count strictly between 0 and 10000; failing that, half the date count when above 5; else None; never 0 or negative |
| Parser.SelectedLast4 | CreditCardParser/backend/parser.py:181-188 | the first four-digit candidate; None exactly when none is four digits |
| Parser.SelectedVariant | CreditCardParser/backend/parser.py:201-208 | the first match whose stripped text has 3 to 49 characters, title-cased; None exactly when there is none |
| Parser.SelectedInterest | CreditCardParser/backend/parser.py:331-339 | a positive matched amount with no positive match before it, i.e. the first; None exactly when there is none |
| Parser.ParsePdf | CreditCardParser/backend/parser.py:21-60 | FAILED exactly when the stripped text is under 50 characters, then with the fixed error, issuer UNKNOWN and no optional field; otherwise PARSED with the detected issuer, no error, and each field the selection of its own extractor |
| Parser.ParsedFieldsSane | CreditCardParser/backend/parser.py:36-60 | every field of a parsed record passed its sanity check: four digits, a titled 3-49 character variant, a balance within range, positive count and interest |
| Store.Login | CreditCardParser/backend/app.py:20-45 | the token exactly when the email and password, stripped of Python whitespace, are the hard-coded ones; 401 with the fixed message otherwise; 500 without a JSON object |
| Store.LoginIgnoresPadding | CreditCardParser/backend/app.py:26-39 | whitespace around the right credentials is accepted, and a missing password is refused |
| Store.ParseNamedShorter | CreditCardParser/backend/app.py:71-87 | an upload stores at most one record per file |
| Store.ParseNamedAll | CreditCardParser/backend/app.py:71-87 | with every file named, the k-th record is parsed from the k-th file |
| Store.ParseNamedNone | CreditCardParser/backend/app.py:72-73 | files with an empty name are skipped |
| Store.CsvRowMatchesDict | CreditCardParser/backend/app.py:137-151 | each cell is the same column of the record's dictionary, blank where that value is falsy |
| Store.ZeroAmountIsBlank | CreditCardParser/backend/app.py:144-145 | a zero balance or count is exported blank, just like a missing one |
| Store.RecordStore.constructor | CreditCardParser/backend/app.py:13 | the store starts empty |
| Store.RecordStore.Upload | CreditCardParser/backend/app.py:48-98 | no `files` part or no files: 400 'No files provided' and no change; otherwise the named files' records are appended in request order and returned as dictionaries |
| Store.RecordStore.GetRecords | CreditCardParser/backend/app.py:101-110 | every stored record, in insertion order, as a dictionary that reads back as the record |
| Store.RecordStore.ClearRecords | CreditCardParser/backend/app.py:169-180 | the store is empty afterwards |
| Store.RecordStore.ExportCsv | CreditCardParser/backend/app.py:118-151 | the twelve-column header, then one twelve-column row per stored record in store order |

## Left out

- PDF text extraction (pdfplumber, PyPDF2, OCR): these are foreign libraries and I/O. The extracted text is an input.
- The regular expressions in the `extract_*` functions, `extract_merchants` and the whitespace clean-up: Python `re` semantics are not reproduced. Their matches are inputs, given per pattern in pattern order.
- `normalize_amount`'s string-to-float conversion: amounts arrive already converted to paise, or None where the conversion fails.
- Float arithmetic: JavaScript sums, `float`/`round(…, 2)` and the printing of floats in CSV cells are not modelled. Amounts are exact integers of paise.
- Unicode: case mapping, whitespace, `isdigit` and `str.title` are modelled on ASCII only. Non-ASCII letters, digits and whitespace are treated as other characters. The ASCII difference between Python's `strip()` and JavaScript's `trim()`, the separators U+001C to U+001F, is modelled.
- `Date.parse` of `uploaded_at`: it is a function argument. An invalid date, which makes the JavaScript comparator return NaN, is not modelled.
- VariantChart.Chart: JavaScript lists integer-like object keys (a variant named "2", say) in numeric order before the other keys. The model uses insertion order for every name. Names of members inherited by a plain object (`constructor`, `toString`, `__proto__` and the like) are counted like any other name. In the page, `counts[v] + 1` on an inherited member yields a string, and `__proto__` is never listed. Variants reaching the chart from the backend are title-cased, so these names cannot arise there.
- `parse_pdf`'s exception handler and the 500 responses of `upload`, `get_records`, `export_csv` and `clear_records` are not modelled: they report exceptions raised by code outside the model. Login's 500 is modelled only for a body that is not a JSON object; other exceptions and the exception's message are not.
- `secure_filename`, `uuid4` and `utcnow`: their results are fields of each uploaded file.
- Store.RecordStore.ExportCsv: the rows are produced as cells. `csv.writer` quoting and the UTF-8 download are not modelled.
- Flask routing, CORS, JSON serialisation, `jsonify` status codes other than those named above, toast messages, router navigation, the API client and the markup of every component are not modelled.
- React effect scheduling and races between asynchronous loads and clears: each page method runs to completion, and the filter effect runs at the end of every state change.
- Dashboard.DashboardPage.ClearAll: the confirmation dialog's answer and the backend's reply are inputs. A thrown request counts as an unsuccessful reply.
