# Earnings analyser: a Dafny model

The Earnings Analyser is a small SEC-filings dashboard. A Python (FastAPI) backend
reshapes EDGAR JSON and filing HTML. A React front end formats, merges and gates
what the backend returns. This project models the steps listed below. Each
HTTP response is an input or a function parameter.

The model covers five parts, one Dafny module per concern:

- **Filing list and XBRL facts** (`SecClient`, in `sec_client.dfy`):
  - the 10-Q/10-K/20-F filter with its limit over the zipped submission arrays;
  - the Archives URL;
  - fact lookup by accession and period end;
  - the newest-first history of a concept, which `get_timeseries` computes but never returns;
  - the three standardized statements.
- **Backend text pipelines** (`Mda`, in `mda.dfy`, and `Backend`, in `backend.dfy`):
  - the MD&A cut of a fetched filing: quote normalisation, tag stripping, the marker search, the window, whitespace collapsing and HTML escaping;
  - the `<head>` splice of `proxy_filing`;
  - the metric loop and end-date choice of `report_details`.
- **Ticker map** (`TickerResolver`, in `ticker_resolver.dfy`): the entry-by-entry construction of `{TICKER: ten-digit CIK}` and the lookup.
- **Front-end formatting and alignment** (`Display`, `MetricsPanel` and `FinancialStatements`):
  - the magnitude buckets and the null placeholder;
  - the per-share branch;
  - the metric table rows;
  - the chart merge of the revenue and net-income histories;
  - the statement tabs and their empty state.
- **Front-end state machines**:
  - `ReportDashboard.Dashboard` is the detail-loading effect of `Dashboard.jsx`.
  - `SearchApp.App` is `App.jsx` together with the search form of `TickerSearch.jsx`.
  - Each handler step is one method call.

Several modules support the others:

- `Text` holds substring search, ASCII case mapping, decimal rendering and parsing, and code-point order.
- `Sorting` holds a stable insertion sort by a string key.
- `Fetching` holds JavaScript values, how a request completes, the failure message, `trim`, and `encodeURIComponent` together with its decoder.
- `Wire` holds the JSON bodies as the front end reads them.
- `Wrappers` holds `Option` and `Result`.

`Dashboard.jsx` (lines 12-44) has no effect cleanup and no identity check. A response that arrives after the selection changed still writes the state. `ReportDashboard.LateCompletionOverwrites` and `ReportDashboard.LateFailureHidesDetails` show a late answer overwriting the state of the report selected now.

## Model

| member | source | states |
|---|---|---|
| SecClient.Rows | sec_client.py:38 | `zip` over the five arrays has the length of the shortest one, and row `i` holds position `i` of each array |
| SecClient.QualifyingMembers | sec_client.py:35-48 | a report is listed exactly when it is a row whose form is 10-Q, 10-K or 20-F |
| SecClient.QualifyingPrefix | sec_client.py:37-50 | the qualifying rows of a prefix of the input are a prefix of the qualifying rows, in input order |
| SecClient.QualifyingEmpty | sec_client.py:35-52 | nothing qualifies exactly when no row has a priority form |
| SecClient.QualifyingHead | sec_client.py:55-60 | the first qualifying report is the first row with a priority form |
| SecClient.ListReports | sec_client.py:23-52 | for `limit >= 1` the result is the first `min(limit, #qualifying)` qualifying rows; for `limit <= 0` it is the first row alone if that row qualifies, else empty, because the limit is compared after the append |
| SecClient.ListStop | sec_client.py:49-50 | the list at the row where the walk breaks is the limited prefix of all qualifying rows |
| SecClient.ChooseLatestReport | sec_client.py:55-60 | `None` exactly when no row qualifies; otherwise the first qualifying row |
| SecClient.RemoveDashesChars | sec_client.py:71 | the result has no '-', keeps every other character with its multiplicity, and is the input itself when the input has no '-' |
| SecClient.RemoveDashesAppend | sec_client.py:71 | dashes are removed piece by piece, so the remaining characters keep their order |
| SecClient.RemoveDashesSingle | sec_client.py:71 | a single '-' disappears and any other character stays |
| SecClient.BuildFilingUrl | sec_client.py:63-75 | the URL fails exactly when `int` rejects the CIK |
| SecClient.FilingUrlStripsZeros | sec_client.py:70-75 | any zero padding of a numeral CIK gives the Archives prefix, the plain numeral, the accession without dashes and the document |
| SecClient.GetUnits | sec_client.py:91-99 | `[]` whenever a key on the path facts/us-gaap/concept/units/unit is missing, else the entries on that path |
| SecClient.FirstMatchingValue | sec_client.py:113-117 | `None` exactly when no entry has the accession, the end and a value; otherwise the value of the first entry that has all three |
| SecClient.GetMetricForFiling | sec_client.py:102-117 | a value is found only when the unit path exists, and it is the first matching entry's value |
| SecClient.Cleaned | sec_client.py:131-135 | the kept entries are exactly those with both `end` and `val` |
| SecClient.CleanedAppend | sec_client.py:131-135 | the comprehension filters piece by piece, so kept entries keep their input order |
| SecClient.CleanedSingle | sec_client.py:131-135 | one entry is kept exactly when it has both `end` and `val` |
| SecClient.CleanedWithKey | sec_client.py:131-135 | choosing the entries of one period end commutes with dropping incomplete entries |
| SecClient.SliceStop | sec_client.py:140 | Python's `[:k]` stop: never past the length, and `min(k, n)` for `k >= 0` |
| SecClient.TimeseriesSeries | sec_client.py:130-149 | the series is the stably sorted, newest-first cleaned list, cut with slice semantics, one point per entry |
| SecClient.TimeseriesShape | sec_client.py:130-149 | every point has an `end` and a `val` taken from a fact; the ends do not increase; there are at most `max_points` points when `max_points >= 0` |
| SecClient.TimeseriesStable | sec_client.py:137 | the sorted facts with a given `end` are exactly the complete input entries with that `end`, in input order |
| SecClient.GetTimeseries | sec_client.py:120-149 | the function returns `None` because it has no `return` |
| SecClient.FirstHitSpec | sec_client.py:198-204 | the concept loop finds nothing exactly when no concept has a value; otherwise it names the first concept with a value, together with that value |
| SecClient.FirstHitNone | sec_client.py:198-204 | the "nothing found" half of the concept loop |
| SecClient.FirstHitSome | sec_client.py:198-204 | the "first hit" half of the concept loop |
| SecClient.UnitFor | sec_client.py:200-211 | the unit is "USD/sh" exactly when the label contains "EPS", and "USD" otherwise |
| SecClient.StatementItems | sec_client.py:195-212 | one item per line of the map, in order |
| SecClient.StatementLine | sec_client.py:193-213 | each line keeps its label; its value is `None` exactly when no concept has a value, and is otherwise the first concept's value; its unit is "USD/sh" exactly for EPS labels |
| SecClient.LookupLine | sec_client.py:196-204 | the inner loop with its `break` computes the line's value |
| SecClient.BuildStatement | sec_client.py:194-213 | the loop over one statement's lines yields its items |
| SecClient.BuildStatements | sec_client.py:193-213 | over statements with distinct keys, the keys are those statements' keys and each value is that statement's items |
| SecClient.BuildFinancialStatements | sec_client.py:151-215 | the keys are exactly income, balance and cash_flow, and each holds the items of its lines in `FINANCIAL_STATEMENT_MAP` |
| Backend.EndDate | main.py:217 | `report_date` when it is non-empty, else `filing_date` |
| Backend.ConceptList | main.py:221-222 | a bare concept becomes a one-element list, and a list stays as it is |
| Backend.MetricConceptsFromMap | main.py:207-212 | the four concept lists are the Revenue, Net Income and EPS (Diluted) lines of the income statement and the Net Cash from Operating line of the cash-flow statement |
| Backend.MetricsSpecWellFormed | main.py:207-212 | every metric has a concept, and the keys are distinct and exactly revenue, net_income, eps_diluted, cfo |
| Backend.MetricForSpec | main.py:219-245 | `current` is the first concept's value, and `concept` names that concept; with no value, `current` is `None` and `concept` is `concepts[0]`; the label and unit are kept; `series` is `None` |
| Backend.ComputeMetric | main.py:224-245 | the loop with its `break` computes `MetricFor` |
| Backend.BuildMetrics | main.py:214-245 | one metric per spec, keyed by its name, and no other keys |
| Backend.ReportMetrics | main.py:207-245 | the keys are the four metric names, each built from its spec (eps_diluted in "USD/sh", the others in "USD") |
| Backend.ReportDetails | main.py:188-258 | once `get_company_facts` has returned, the request fails exactly when the CIK is not an integer; otherwise the echoed fields, the metrics, the statements and the MD&A fragment of the fetched filing, all looked up at `EndDate` |
| Backend.LastSlash | main.py:280 | the index of the last '/', or -1 exactly when there is none |
| Backend.BaseHref | main.py:280 | the URL up to and including its last '/', or the URL plus '/' when there is none |
| Backend.BaseHrefFolder | main.py:280 | a URL `folder + doc`, where `doc` has no '/', gets `folder` as its base href |
| Backend.FilingBaseHref | main.py:267-280 | the base href of a filing URL is the filing's folder under the Archives |
| Backend.InsertAt | main.py:295-301 | the insertion point lies within the page |
| Backend.SpliceSpec | main.py:295-301 | the injection goes right after the first case-insensitive "<head>", or at the front when there is none; removing it gives the page back |
| Backend.InjectHead | main.py:295-301 | the find-and-splice code computes `Splice` |
| Backend.ProxyFiling | main.py:261-304 | a fetch failure answers 502 with "Error fetching SEC filing: " and the message; otherwise the page with the injection built from the base href |
| Mda.NormalizeQuotes | main.py:127-132 | same length, no curly quote remains, curly singles become `'`, curly doubles become `"`, and every other character is kept |
| Mda.StripTags | main.py:135 | the text never grows, and it is empty exactly when the input is |
| Mda.StripTagsChars | main.py:135 | every character of the result is a replacement space or an input character |
| Mda.StripTagsNoTags | main.py:135 | no match of `<[^>]+>` is left |
| Mda.StripTagsKeepsUntagged | main.py:135 | a text with no match is unchanged |
| Mda.StripTagsIdempotent | main.py:135 | stripping twice is stripping once |
| Mda.StripTagsPlainPrefix | main.py:135 | text without '<' is copied unchanged ahead of the rest |
| Mda.StripTagsTag | main.py:135 | a '<', a non-empty run without '>', and a '>' become exactly one space |
| Mda.StripTagsUnclosed | main.py:135 | a '<' with no '>' after it is kept |
| Mda.StripTagsEmptyBrackets | main.py:135 | in "<>" the '<' is kept, since the pattern needs a character between the brackets |
| Mda.FirstFound | main.py:145-150 | the list position of the first marker that occurs at all; no earlier marker occurs |
| Mda.StartIndex | main.py:139-153 | -1 exactly when no start marker occurs; otherwise the first occurrence of the first marker in list order that occurs (not the earliest position) |
| Mda.FindStart | main.py:145-150 | the loop with its `break` computes `StartIndex` |
| Mda.CandidatesSpec | main.py:163-168 | each candidate is an occurrence of an end marker, and every marker found from `start+50` contributes its position |
| Mda.CandidatesEarliest | main.py:170-171 | the smallest candidate is the first position from `start+50` where any end marker occurs |
| Mda.CandidatesEmpty | main.py:170-174 | there are no candidates exactly when no end marker occurs from `start+50` on |
| Mda.EndIndex | main.py:156-174 | the end lies between the start and the end of the text |
| Mda.EndIndexEarliest | main.py:156-174 | the end is the earliest end-marker occurrence at or after `start+50`; with none, it is `min(len(text), start+40000)` |
| Mda.FindEnd | main.py:163-174 | the candidate loop followed by `min` or the fallback computes `EndIndex` |
| Mda.SkipSpaces | main.py:178 | only leading whitespace is dropped, and the result starts with a non-space |
| Mda.TrimEnd | main.py:178 | only trailing whitespace is dropped, and the result ends with a non-space |
| Mda.SqueezeNonSpace | main.py:178 | collapsing runs keeps every non-whitespace character in order |
| Mda.SqueezeSingleSpaced | main.py:178 | after collapsing, every whitespace character is a single ' ' followed by a non-space |
| Mda.TrimNonSpace | main.py:178 | `strip` keeps every non-whitespace character |
| Mda.CollapseWhitespaceSpec | main.py:178 | the cleaned snippet is single-spaced with no space at either end; it keeps every non-whitespace character in order; it is empty exactly when the cut is all whitespace |
| Mda.SqueezeWord | main.py:178 | a text without whitespace is not changed by collapsing runs |
| Mda.SqueezeRun | main.py:178 | a non-empty whitespace run before a non-space character becomes exactly one space |
| Mda.SqueezeAppend | main.py:178 | after a non-space character, runs are collapsed piece by piece |
| Mda.CollapseWord | main.py:178 | a single word is left as it is by the whole clean-up |
| Mda.CollapseJoin | main.py:178 | two pieces joined by a whitespace run come out as the two cleaned pieces with exactly one space between them, so word breaks survive |
| Mda.HtmlEscape | main.py:183 | the escaped text holds no `<`, `>`, `"` or `'` |
| Mda.HtmlEscapeRoundTrip | main.py:183 | unescaping the five references gives the text back |
| Mda.Window | main.py:152-176 | there is no cut exactly when no start marker occurs in the lower-cased plain text |
| Mda.MdaOfSpec | main.py:176-184 | `None` exactly when no marker occurs or the cut is all whitespace; otherwise the fixed `<div>` around the escaped, tidied cut |
| Mda.ExtractMda | main.py:105-184 | a CIK that `int` rejects raises; a failed fetch gives `None`; otherwise the fragment of the fetched page |
| TickerResolver.FormatCik | ticker_resolver.py:23 | `{:010d}` gives exactly ten digits for `0 <= n < 10^10`; any CIK is zeros then its decimal, with the minus sign first for a negative one |
| TickerResolver.LoadTickerMap | ticker_resolver.py:20-25 | the loop builds the map entry by entry, later entries overriding earlier ones |
| TickerResolver.TickerMapKeys | ticker_resolver.py:22-24 | the keys are exactly the upper-cased tickers of the entries |
| TickerResolver.TickerMapLastWins | ticker_resolver.py:21-24 | a key holds the padded CIK of the last entry with that upper-cased ticker |
| TickerResolver.LastIndexIsLast | ticker_resolver.py:21-24 | the index found is the last entry with that upper-cased ticker |
| TickerResolver.TickerToCik | ticker_resolver.py:32-39 | `None` for an empty or unknown ticker; otherwise the map value of its upper-cased form |
| TickerResolver.TickerLookupCaseInsensitive | ticker_resolver.py:39 | a ticker and its upper-cased form resolve alike |
| TickerResolver.ResolveLoadedTicker | ticker_resolver.py:20-39 | a ticker resolves exactly when some entry matches it ignoring case; it then gives the last such entry's padded CIK, ten characters long when it is below 10^10 |
| TickerResolver.CikRoundTrip | ticker_resolver.py:23 | padding a CIK here and `str(int(...))` in the URL builder give back the plain decimal CIK |
| Text.Find | main.py:145-168 | `str.find`: -1 exactly when there is no occurrence from `start` on; otherwise the lowest such occurrence |
| Text.FindContains | sec_client.py:200 | `find` succeeds exactly when `in` holds |
| Text.Upper | ticker_resolver.py:22 | length-preserving, character by character |
| Text.Lower | main.py:136 | length-preserving, character by character, so indices found in the lower-cased text fit the text |
| Text.UpperIdempotent | ticker_resolver.py:39 | upper-casing twice is upper-casing once |
| Text.ParseInt | sec_client.py:70 | `int` accepts exactly an optional sign followed by ASCII digits, and reads the digits in base ten |
| Text.IntRoundTrip | sec_client.py:70 | `int(str(n)) == n` |
| Text.PaddedParse | sec_client.py:70 | `int` ignores leading zeros, with or without a minus sign |
| Text.LexLessTotal | sec_client.py:137 | string order is total, so sorting by `end` is well defined |
| Text.LexLessTransitive | sec_client.py:137 | string order is transitive |
| Sorting.SortSortedPermutation | sec_client.py:137 | the sort yields a sorted permutation of its input |
| Sorting.SortStable | sec_client.py:137 | elements with equal keys keep their relative order |
| Sorting.SortDistinct | frontend/src/components/MetricsPanel.jsx:56 | sorting keeps the keys distinct |
| Sorting.SortMembers | frontend/src/components/MetricsPanel.jsx:56 | sorting keeps exactly the elements it was given |
| Display.ScaledOrLocale | frontend/src/components/MetricsPanel.jsx:6-10 | at a thousand or more the value is scaled, with `mantissa * scale == x` and a mantissa of at least 1; below a thousand it is left to the locale |
| Display.MagnitudeSymmetric | frontend/src/components/MetricsPanel.jsx:6 | `n` and `-n` get the same bucket, and their mantissas differ only in sign |
| Display.MagnitudeMonotone | frontend/src/components/MetricsPanel.jsx:7-9 | a larger magnitude never gets a smaller bucket |
| MetricsPanel.FormatNumber | frontend/src/components/MetricsPanel.jsx:4-11 | the dash exactly for null or undefined; the magnitude bucket from a thousand upwards; the locale rendering with at most two fraction digits below that |
| MetricsPanel.UnitSuffix | frontend/src/components/MetricsPanel.jsx:18 | a unit is written only when it is non-empty and not "USD" |
| MetricsPanel.UnitTag | frontend/src/components/MetricsPanel.jsx:123 | the Latest cell shows the unit under the same condition as the history lines |
| MetricsPanel.RenderSeries | frontend/src/components/MetricsPanel.jsx:13-20 | "No history" exactly for a missing or empty series; otherwise one line per point in order |
| MetricsPanel.RowsForRows | frontend/src/components/MetricsPanel.jsx:115-117 | every row is the row of a present metric whose key is listed |
| MetricsPanel.RowsForKeys | frontend/src/components/MetricsPanel.jsx:115-117 | a listed key has a row exactly when its metric is present |
| MetricsPanel.RowsForOrder | frontend/src/components/MetricsPanel.jsx:115 | the rows follow the order of the key list |
| MetricsPanel.MetricTable | frontend/src/components/MetricsPanel.jsx:26-127 | nothing without metrics; otherwise one row per present metric, in the order revenue, net_income, eps_diluted, cfo |
| MetricsPanel.SeriesOrEmpty | frontend/src/components/MetricsPanel.jsx:35-36 | a missing metric or series counts as empty |
| MetricsPanel.CreateRows | frontend/src/components/MetricsPanel.jsx:39-46 | one row `{name: end}` per distinct non-empty `end` of the two series |
| MetricsPanel.AssignPass | frontend/src/components/MetricsPanel.jsx:48-54 | a pass sets the field of a row to the `val` of the last point with that `end`, leaves the field absent when no point has it, and adds no row |
| MetricsPanel.CellAt | frontend/src/components/MetricsPanel.jsx:48-54 | a field is absent exactly when no point has that `end`; otherwise it holds the last such point's `val` |
| MetricsPanel.ValuesInOrder | frontend/src/components/MetricsPanel.jsx:56 | `Object.values` lists every row once, in the order its name was inserted (see Left out for integer-like names) |
| MetricsPanel.MergeChart | frontend/src/components/MetricsPanel.jsx:39-56 | one row per distinct non-empty `end` of either series, each field from the last point of its series with that end, names strictly ascending |
| MetricsPanel.SortChart | frontend/src/components/MetricsPanel.jsx:56 | sorting keeps every row and name, and orders the names strictly |
| MetricsPanel.BackendMetricNoHistory | frontend/src/components/MetricsPanel.jsx:14 | a metric from the backend, whose series is `None`, shows "No history" |
| MetricsPanel.BackendChartInputsEmpty | frontend/src/components/MetricsPanel.jsx:35-36 | with the backend's metrics both chart inputs are empty |
| FinancialStatements.FormatCurrency | frontend/src/components/FinancialStatements.jsx:3-18 | the dash exactly for null or undefined; two decimals for a "/sh" unit whatever the magnitude; otherwise the magnitude bucket, with the locale's default below a thousand |
| FinancialStatements.PerShareFormattedDifferently | frontend/src/components/FinancialStatements.jsx:7-9 | a per-share value of a thousand or more gets two decimals here but a scaled mantissa in the metrics table |
| FinancialStatements.SameBucketsOtherwise | frontend/src/components/FinancialStatements.jsx:12-17 | without a per-share unit both tables pick the same bucket and mantissa |
| FinancialStatements.TabsCoverStatements | frontend/src/components/FinancialStatements.jsx:21-29 | the tabs are exactly income, balance and cash_flow, each once, and income is the first tab shown |
| FinancialStatements.SelectItems | frontend/src/components/FinancialStatements.jsx:31 | the items of the active tab, or `[]` when its key is absent |
| FinancialStatements.Rows | frontend/src/components/FinancialStatements.jsx:80-94 | one row per item in order; an empty list gives exactly the "No data" row |
| FinancialStatements.StatementsView | frontend/src/components/FinancialStatements.jsx:23-31 | nothing when `statements` is missing; otherwise the rows of the active tab |
| FinancialStatements.BackendStatementsTabs | frontend/src/components/FinancialStatements.jsx:31-94 | with the backend's three keys, a tab shows "No data" only for an empty statement |
| Fetching.FailureMessage | frontend/src/components/Dashboard.jsx:32 | a truthy `detail` is the message; otherwise "Error: " and the status; the message is never empty |
| Fetching.ErrorOf | frontend/src/components/Dashboard.jsx:28-37 | a completion leaves an error exactly when it is not a success |
| Fetching.Trim | frontend/src/components/TickerSearch.jsx:8 | `trim` is empty exactly when the input is all whitespace, and it starts and ends with a non-space |
| Fetching.EncodeUriComponent | frontend/src/components/TickerSearch.jsx:15 | the output holds only unreserved characters, '%' and upper-case hex digits |
| Fetching.EncodeUnreserved | frontend/src/components/TickerSearch.jsx:15 | unreserved text is sent as it is |
| Fetching.UriComponentRoundTrip | frontend/src/components/TickerSearch.jsx:15 | `decodeURIComponent` undoes `encodeURIComponent` |
| ReportDashboard.RequestFor | frontend/src/components/Dashboard.jsx:20-26 | the query is the cik and the report's accession, document and filing date, with `report_date` or '' |
| ReportDashboard.Dashboard.constructor | frontend/src/components/Dashboard.jsx:8-10 | the first render holds no details, is not loading and has no error |
| ReportDashboard.Dashboard.RunEffect | frontend/src/components/Dashboard.jsx:12-26 | with no report nothing changes and nothing is requested; otherwise loading starts, error and details are cleared, and the report's request is issued |
| ReportDashboard.Dashboard.Rerender | frontend/src/components/Dashboard.jsx:44 | the effect runs again exactly when `cik` or the report object changes; a report of another parse is another object |
| ReportDashboard.Dashboard.Resolve | frontend/src/components/Dashboard.jsx:28-39 | success stores the body; a failure stores its message; loading ends either way, with no check of which request it was |
| ReportDashboard.Dashboard.Render | frontend/src/components/Dashboard.jsx:46-54 | the loading message first, then a non-empty error, then nothing without details, then the panels |
| ReportDashboard.LateCompletionOverwrites | frontend/src/components/Dashboard.jsx:12-44 | after a switch of report, the old request's late answer replaces the new one's and is shown under the new report |
| ReportDashboard.LateFailureHidesDetails | frontend/src/components/Dashboard.jsx:28-39 | a late failure of an abandoned request hides the current details behind an error |
| ReportDashboard.FirstCompletionEndsLoading | frontend/src/components/Dashboard.jsx:38-39 | loading ends at the first completion even while the current report's request is still out |
| SearchApp.ReportsPath | frontend/src/components/TickerSearch.jsx:15 | the input is upper-cased but not trimmed, then encoded, and the query decodes back to it |
| SearchApp.App.constructor | frontend/src/App.jsx:8-11 | no data, index 0, not loading, no error, and "GOOGL" in the input |
| SearchApp.App.Edit | frontend/src/components/TickerSearch.jsx:4-36 | typing changes only the input |
| SearchApp.App.HandleDataFetched | frontend/src/App.jsx:13-17 | stores the data, resets the index to 0 and clears the error, whatever the prior state |
| SearchApp.App.HandleReportSelect | frontend/src/App.jsx:19-21 | stores the index with no bounds check |
| SearchApp.App.Submit | frontend/src/components/TickerSearch.jsx:6-15 | a blank input changes nothing and issues no request; otherwise loading starts, error and data are cleared, and the upper-cased, encoded ticker is requested |
| SearchApp.App.Complete | frontend/src/components/TickerSearch.jsx:17-28 | success publishes a freshly parsed body at index 0 with no error; a failure stores its message; loading ends either way; an error is never shown while loading |
| SearchApp.App.ShowContent | frontend/src/App.jsx:43 | the list and the dashboard show exactly with data and not while loading |
| SearchApp.App.ErrorBanner | frontend/src/App.jsx:39 | the banner shows exactly a non-empty error |
| SearchApp.App.DashboardReport | frontend/src/App.jsx:57 | the dashboard gets `reports[selectedReportIndex]` of the current parse, or `undefined` out of range |
| SearchApp.FailedSearch | frontend/src/components/TickerSearch.jsx:12-25 | after a failed search no data remains and the content is hidden |
| SearchApp.SuccessfulSearch | frontend/src/components/TickerSearch.jsx:22-23 | after a successful search the content shows the first report, with no error |
| SearchApp.OverlappingSearchReloads | frontend/src/App.jsx:43-58 | when a second search completes while the dashboard is shown, the dashboard gets a new report object and fetches its details again, even for an equal body |
| SearchApp.BlankSearch | frontend/src/components/TickerSearch.jsx:8 | a blank search issues no request and leaves loading, error and data as they were |

## Left out

- Backend.ReportDetails takes the company facts as a value. `get_company_facts` (main.py:202) calls `raise_for_status` outside any `try`, so an unknown CIK or a network failure answers HTTP 500. That error path is not modelled.
- Network I/O is not modelled. This covers `get_submissions`, `get_company_facts`, the downloads in `extract_mda_html`, `proxy_filing` and `load_ticker_map`, and every front-end `fetch`. Their results are inputs. A fetch is a function parameter, or a `Completion` given to a handler.
- FastAPI routing, CORS, static mounting, `root()` and `wsgi.py` are framework wiring and are not modelled.
- The `latest_report` and `reports` endpoints (main.py:54-104) are not modelled. They are handlers that combine modelled functions (the ticker lookup, `list_reports`, `build_filing_url`) with 404 responses ("Ticker not found", "No report found", "No reports found"). They also attach `filing_url` to every report and return `ticker.upper()`.
- `MDAPanel.jsx`, `FilingFrame.jsx` and `ReportList.jsx` are pure presentation and are not modelled. JSX markup, styling and recharts are left out as well.
- Text.Lower and Text.Upper map ASCII letters only. Python's `str.lower`/`str.upper` and JavaScript's case mapping also change other letters, and some change the length.
- Mda.IsSpace is Python's `str.isspace` on one code point. The regex engine's Unicode tables are not modelled further.
- Text.ParseInt accepts an optional sign and ASCII digits. Python's `int` also accepts surrounding whitespace, underscores and non-ASCII digits.
- Numbers are rendered as a `Display.Formatted` value. The text of `toFixed` and `toLocaleString` and the chart tick formatter depend on floating point and the locale, so they are not modelled.
- Sorting.Sort orders by code point. `localeCompare` on chart names is modelled as code-point order. The period ends are ISO dates, where the two orders agree.
- A JSON `null` in a fact entry is treated like a missing key (`None`). The model does not separate `e.get("accn") == None` from an absent key.
- `chartDataMap` is modelled as a map from strings. Property names that clash with `Object.prototype` members are not modelled.
- A `detail` field that is not a string, such as FastAPI's list of validation errors, is not modelled. `detail` is a string or missing.
- React's batching of state updates, effect scheduling and unmounting are not modelled. The interleaving of awaited requests is modelled only as atomic handler steps in the order the scenarios choose.
- MetricsPanel.ValuesInOrder lists the rows in insertion order. JavaScript lists integer-like names such as "2023" first, in ascending numeric order. Period ends are ISO dates, which are never integer-like, and the rows are sorted by their distinct names right after, so the chart is the same.
- SecClient.ListReports takes a typed `RecentFilings`. `list_reports` (sec_client.py:28-33) raises `KeyError` when `filings`, `recent` or one of the five arrays is missing, and the endpoint then answers HTTP 500. The model cannot express a missing key there.
- Fetching.Trim has no `ensures` tying the result to a slice of the input. It states emptiness and the ends only.
- The `activeTab` toggle of `FinancialStatements.jsx` and the `viewMode` toggle of `MetricsPanel.jsx` are parameters of the views. They are not state.
