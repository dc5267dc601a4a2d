/**
 * The EDGAR client: choosing periodic reports out of a company's submissions,
 * building a filing's Archives URL, looking XBRL facts up by filing, the
 * newest-first history of a concept, and the three standardized statements.
 * The HTTP downloads (`get_submissions`, `get_company_facts`) are not part of
 * the model: their decoded JSON is an input.
 */
module SecClient {
  import opened Wrappers
  import opened Text
  import Sorting

  // ---------------------------------------------------------------------------
  // Submissions and the report list

  /** `submissions["filings"]["recent"]`: five parallel arrays, one position per filing. */
  datatype RecentFilings = RecentFilings(
    form: seq<string>,
    accessionNumber: seq<string>,
    primaryDocument: seq<string>,
    filingDate: seq<string>,
    reportDate: seq<string>)

  /** One entry of the report list. */
  datatype Report = Report(form: string, accession: string, primaryDoc: string, filingDate: string, reportDate: string)

  function Min(a: int, b: int): int {
    if a <= b then a else b
  }

  /** Python's `zip` over the five arrays: it stops at the shortest one. */
  function Rows(recent: RecentFilings): (r: seq<Report>)
    ensures |r| == Min(Min(Min(|recent.form|, |recent.accessionNumber|), Min(|recent.primaryDocument|, |recent.filingDate|)), |recent.reportDate|)
    ensures forall i :: 0 <= i < |r| ==>
      r[i] == Report(recent.form[i], recent.accessionNumber[i], recent.primaryDocument[i], recent.filingDate[i], recent.reportDate[i])
  {
    var n := Min(Min(Min(|recent.form|, |recent.accessionNumber|), Min(|recent.primaryDocument|, |recent.filingDate|)), |recent.reportDate|);
    seq(n, i requires 0 <= i < n =>
      Report(recent.form[i], recent.accessionNumber[i], recent.primaryDocument[i], recent.filingDate[i], recent.reportDate[i]))
  }

  /** The periodic report forms the dashboard lists. */
  predicate IsPriorityForm(f: string) {
    f == "10-Q" || f == "10-K" || f == "20-F"
  }

  /** The rows whose form is a priority form, in input order. */
  function Qualifying(rows: seq<Report>): seq<Report> {
    if rows == [] then []
    else Qualifying(rows[..|rows| - 1]) + (if IsPriorityForm(rows[|rows| - 1].form) then [rows[|rows| - 1]] else [])
  }

  lemma {:induction false} QualifyingPrefix(rows: seq<Report>, i: nat)
    requires i <= |rows|
    ensures |Qualifying(rows[..i])| <= |Qualifying(rows)|
    ensures Qualifying(rows[..i]) == Qualifying(rows)[..|Qualifying(rows[..i])|]
    decreases |rows| - i
  {
    if i < |rows| {
      var p := rows[..|rows| - 1];
      assert rows[..i] == p[..i];
      QualifyingPrefix(p, i);
    } else {
      assert rows[..i] == rows;
    }
  }

  /** A report is listed exactly when it is a row with a priority form. */
  lemma {:induction false} QualifyingMembers(rows: seq<Report>, x: Report)
    ensures x in Qualifying(rows) <==> x in rows && IsPriorityForm(x.form)
  {
    if rows != [] {
      var p := rows[..|rows| - 1];
      QualifyingMembers(p, x);
      assert rows == p + [rows[|rows| - 1]];
    }
  }

  /** Nothing is listed exactly when no row has a priority form. */
  lemma {:induction false} QualifyingEmpty(rows: seq<Report>)
    ensures Qualifying(rows) == [] <==> forall i :: 0 <= i < |rows| ==> !IsPriorityForm(rows[i].form)
  {
    forall i | 0 <= i < |rows| && IsPriorityForm(rows[i].form) ensures Qualifying(rows) != [] {
      QualifyingMembers(rows, rows[i]);
    }
    if Qualifying(rows) != [] {
      QualifyingMembers(rows, Qualifying(rows)[0]);
    }
  }

  /** The first listed report is the first row with a priority form. */
  lemma {:induction false} QualifyingHead(rows: seq<Report>)
    ensures Qualifying(rows) == [] <==> forall i :: 0 <= i < |rows| ==> !IsPriorityForm(rows[i].form)
    ensures Qualifying(rows) != [] ==>
      exists i :: 0 <= i < |rows| && rows[i] == Qualifying(rows)[0] && IsPriorityForm(rows[i].form) &&
        forall j :: 0 <= j < i ==> !IsPriorityForm(rows[j].form)
  {
    QualifyingEmpty(rows);
    if rows != [] {
      var p := rows[..|rows| - 1];
      QualifyingHead(p);
      assert forall j :: 0 <= j < |rows| - 1 ==> rows[j] == p[j];
      if Qualifying(p) != [] {
        var i :| 0 <= i < |p| && p[i] == Qualifying(p)[0] && IsPriorityForm(p[i].form) &&
          forall j :: 0 <= j < i ==> !IsPriorityForm(p[j].form);
        assert rows[i] == p[i];
      }
    }
  }

  /**
   * `list_reports`: walk the zipped arrays, append every priority-form row, and
   * stop once the list has reached `limit` entries. The limit is checked after
   * the append, so a limit of zero or less still admits a qualifying first row.
   */
  method ListReports(recent: RecentFilings, limit: int) returns (reports: seq<Report>)
    ensures limit >= 1 ==>
      reports == Qualifying(Rows(recent))[..Min(limit, |Qualifying(Rows(recent))|)]
    ensures limit <= 0 ==>
      reports == if |Rows(recent)| > 0 && IsPriorityForm(Rows(recent)[0].form) then [Rows(recent)[0]] else []
  {
    var rows := Rows(recent);
    reports := [];
    var i := 0;
    while i < |rows|
      invariant 0 <= i <= |rows|
      invariant reports == Qualifying(rows[..i])
      invariant i > 0 ==> |reports| < limit
    {
      assert rows[..i + 1][..i] == rows[..i];
      if IsPriorityForm(rows[i].form) {
        reports := reports + [rows[i]];
      }
      if |reports| >= limit {
        ListStop(rows, i, limit);
        return;
      }
      i := i + 1;
    }
    assert rows[..i] == rows;
  }

  /** The list when the walk stops after row `i`, the first row at which it reaches `limit` entries. */
  lemma {:induction false} ListStop(rows: seq<Report>, i: nat, limit: int)
    requires i < |rows|
    requires |Qualifying(rows[..i + 1])| >= limit
    requires i > 0 ==> |Qualifying(rows[..i])| < limit
    ensures limit >= 1 ==> Qualifying(rows[..i + 1]) == Qualifying(rows)[..Min(limit, |Qualifying(rows)|)]
    ensures limit <= 0 ==> i == 0 && Qualifying(rows[..i + 1]) == if IsPriorityForm(rows[0].form) then [rows[0]] else []
  {
    QualifyingPrefix(rows, i + 1);
    assert rows[..i + 1][..i] == rows[..i];
    if i == 0 {
      assert rows[..1] == [rows[0]];
      assert rows[..0] == [];
    }
  }

  /** `choose_latest_report`: the first priority-form row, or `None`. */
  method ChooseLatestReport(recent: RecentFilings) returns (r: Option<Report>)
    ensures r.None? <==> forall i :: 0 <= i < |Rows(recent)| ==> !IsPriorityForm(Rows(recent)[i].form)
    ensures r.Some? ==>
      exists i :: 0 <= i < |Rows(recent)| && Rows(recent)[i] == r.value && IsPriorityForm(r.value.form) &&
        forall j :: 0 <= j < i ==> !IsPriorityForm(Rows(recent)[j].form)
  {
    var reports := ListReports(recent, 1);
    QualifyingHead(Rows(recent));
    r := if |reports| > 0 then Some(reports[0]) else None;
  }

  // ---------------------------------------------------------------------------
  // Archives URL

  const ArchivesPrefix := "https://www.sec.gov/Archives/edgar/data/"

  /** `s.replace("-", "")`. */
  function RemoveDashes(s: string): string {
    if s == [] then [] else (if s[0] == '-' then [] else [s[0]]) + RemoveDashes(s[1..])
  }

  /** The result has no dash, keeps every other character with its multiplicity, and is `s` itself when `s` has no dash. */
  lemma {:induction false} RemoveDashesChars(s: string)
    ensures '-' !in RemoveDashes(s)
    ensures multiset(RemoveDashes(s)) == multiset(s)['-' := 0]
    ensures '-' !in s ==> RemoveDashes(s) == s
  {
    if s != [] {
      assert s == [s[0]] + s[1..];
      RemoveDashesChars(s[1..]);
    }
  }

  /** Removing dashes works piece by piece: the other characters keep their order. */
  lemma {:induction false} RemoveDashesAppend(a: string, b: string)
    ensures RemoveDashes(a + b) == RemoveDashes(a) + RemoveDashes(b)
  {
    if a == [] {
      assert a + b == b;
    } else {
      var h := if a[0] == '-' then [] else [a[0]];
      RemoveDashesStep(a, b);
      RemoveDashesAppend(a[1..], b);
      assert h + (RemoveDashes(a[1..]) + RemoveDashes(b)) == (h + RemoveDashes(a[1..])) + RemoveDashes(b);
    }
  }

  lemma {:induction false} RemoveDashesStep(a: string, b: string)
    requires a != []
    ensures RemoveDashes(a + b) == (if a[0] == '-' then [] else [a[0]]) + RemoveDashes(a[1..] + b)
  {
    assert (a + b)[0] == a[0];
    assert (a + b)[1..] == a[1..] + b;
  }

  /** One character: a dash disappears, anything else stays. */
  lemma {:induction false} RemoveDashesSingle(c: char)
    ensures RemoveDashes([c]) == if c == '-' then [] else [c]
  {
    assert [c][1..] == [];
  }

  /**
   * `build_filing_url`: the CIK as `str(int(cik))` (leading zeros dropped),
   * the accession without dashes, and the primary document, under the
   * Archives prefix. A CIK that is not an integer literal makes `int` raise.
   */
  function BuildFilingUrl(cikPadded: string, accession: string, primaryDoc: string): (r: Result<string, string>)
    ensures r.Failure? <==> ParseInt(cikPadded).None?
  {
    match ParseInt(cikPadded)
    case None => Failure("ValueError: invalid literal for int() with base 10")
    case Some(n) => Success(ArchivesPrefix + IntString(n) + "/" + RemoveDashes(accession) + "/" + primaryDoc)
  }

  /** Leading zeros of the CIK vanish from the URL: any zero-padding of a numeral gives the plain numeral. */
  lemma {:induction false} FilingUrlStripsZeros(k: nat, n: nat, accession: string, primaryDoc: string)
    ensures BuildFilingUrl(Zeros(k) + DecimalString(n), accession, primaryDoc)
      == Success(ArchivesPrefix + DecimalString(n) + "/" + RemoveDashes(accession) + "/" + primaryDoc)
  {
    LeadingZerosValue(k, DecimalString(n));
    DecimalRoundTrip(n);
  }

  // ---------------------------------------------------------------------------
  // XBRL company facts

  /** One fact of `units[unit]`; a key the JSON lacks is `None`. */
  datatype FactEntry = FactEntry(
    accn: Option<string>,
    end: Option<string>,
    val: Option<real>,
    form: Option<string>,
    fy: Option<int>,
    fp: Option<string>)

  /** `facts["facts"][taxonomy][concept]`: its `units` map, when present. */
  datatype ConceptFacts = ConceptFacts(units: Option<map<string, seq<FactEntry>>>)

  /** The companyfacts document: `facts["facts"]`, a map from taxonomy to concepts, when present. */
  datatype CompanyFacts = CompanyFacts(facts: Option<map<string, map<string, ConceptFacts>>>)

  /** Every key on the path `facts / us-gaap / concept / units / unit` is present. */
  predicate HasUnits(facts: CompanyFacts, concept: string, unit: string) {
    && facts.facts.Some?
    && "us-gaap" in facts.facts.value
    && concept in facts.facts.value["us-gaap"]
    && facts.facts.value["us-gaap"][concept].units.Some?
    && unit in facts.facts.value["us-gaap"][concept].units.value
  }

  /** `_get_units`: the entries on the path, or `[]` when a key is missing (the `KeyError` branch). */
  function GetUnits(facts: CompanyFacts, concept: string, unit: string): (r: seq<FactEntry>)
    ensures !HasUnits(facts, concept, unit) ==> r == []
    ensures HasUnits(facts, concept, unit) ==> r == facts.facts.value["us-gaap"][concept].units.value[unit]
  {
    if HasUnits(facts, concept, unit) then facts.facts.value["us-gaap"][concept].units.value[unit] else []
  }

  /** An entry belongs to the filing: same accession, same period end, and it has a value. */
  predicate MatchesFiling(e: FactEntry, accession: string, endDate: string) {
    e.accn == Some(accession) && e.end == Some(endDate) && e.val.Some?
  }

  /** The value of the first entry (in list order) that matches the filing. */
  function FirstMatchingValue(entries: seq<FactEntry>, accession: string, endDate: string): (r: Option<real>)
    ensures r.None? <==> forall i :: 0 <= i < |entries| ==> !MatchesFiling(entries[i], accession, endDate)
    ensures r.Some? ==>
      exists i :: 0 <= i < |entries| && MatchesFiling(entries[i], accession, endDate) && entries[i].val == r &&
        forall j :: 0 <= j < i ==> !MatchesFiling(entries[j], accession, endDate)
  {
    if entries == [] then None
    else if MatchesFiling(entries[0], accession, endDate) then entries[0].val
    else
      var r := FirstMatchingValue(entries[1..], accession, endDate);
      assert forall i :: 0 < i < |entries| ==> entries[i] == entries[1..][i - 1];
      r
  }

  /** `get_metric_for_filing`. */
  function GetMetricForFiling(facts: CompanyFacts, concept: string, accession: string, endDate: string, unit: string): (r: Option<real>)
    ensures r.Some? ==> HasUnits(facts, concept, unit)
    ensures r == FirstMatchingValue(GetUnits(facts, concept, unit), accession, endDate)
  {
    FirstMatchingValue(GetUnits(facts, concept, unit), accession, endDate)
  }

  // ---------------------------------------------------------------------------
  // History of a concept

  /** A point of a metric's history: the five fields copied by `e.get(...)`. */
  datatype SeriesPoint = SeriesPoint(end: Option<string>, val: Option<real>, form: Option<string>, fy: Option<int>, fp: Option<string>)

  /** Entries kept by the list comprehension: those with both `end` and `val`. */
  function Cleaned(entries: seq<FactEntry>): (r: seq<FactEntry>)
    ensures forall i :: 0 <= i < |r| ==> r[i].end.Some? && r[i].val.Some?
    ensures forall e :: e in r <==> e in entries && e.end.Some? && e.val.Some?
  {
    if entries == [] then []
    else (if entries[0].end.Some? && entries[0].val.Some? then [entries[0]] else []) + Cleaned(entries[1..])
  }

  /** The comprehension filters piece by piece: kept entries keep their input order. */
  lemma {:induction false} CleanedAppend(a: seq<FactEntry>, b: seq<FactEntry>)
    ensures Cleaned(a + b) == Cleaned(a) + Cleaned(b)
  {
    if a == [] {
      assert a + b == b;
    } else {
      assert (a + b)[0] == a[0];
      assert (a + b)[1..] == a[1..] + b;
      CleanedAppend(a[1..], b);
    }
  }

  /** One entry is kept exactly when it has both `end` and `val`. */
  lemma {:induction false} CleanedSingle(e: FactEntry)
    ensures Cleaned([e]) == if e.end.Some? && e.val.Some? then [e] else []
  {
    assert [e][1..] == [];
  }

  /** Picking one period end and dropping incomplete entries commute. */
  lemma {:induction false} CleanedWithKey(entries: seq<FactEntry>, end: string)
    ensures Sorting.WithKey(Cleaned(entries), EndKey, end) == Cleaned(Sorting.WithKey(entries, EndKey, end))
  {
    if entries != [] {
      var e := entries[0];
      var ce := if e.end.Some? && e.val.Some? then [e] else [];
      var ke := if EndKey(e) == end then [e] else [];
      CleanedWithKey(entries[1..], end);
      Sorting.WithKeyAppend(ce, Cleaned(entries[1..]), EndKey, end);
      CleanedAppend(ke, Sorting.WithKey(entries[1..], EndKey, end));
      CleanedSingle(e);
      if ce != [] { assert ce[1..] == []; }
      if ke != [] { assert ke[1..] == []; }
    }
  }

  /** The sort key `e["end"]`. */
  function EndKey(e: FactEntry): string {
    e.end.GetOr("")
  }

  /** `cleaned.sort(key=lambda e: e["end"], reverse=True)`: newest first, stable. */
  function NewestFirst(entries: seq<FactEntry>): seq<FactEntry> {
    Sorting.Sort(Cleaned(entries), EndKey, true)
  }

  /** Python's stop index for `xs[:k]` on a list of length `n`; a negative `k` counts from the end. */
  function SliceStop(n: nat, k: int): (r: nat)
    ensures r <= n
    ensures k >= 0 ==> r == Min(k, n)
  {
    if k >= 0 then Min(k, n) else if n + k >= 0 then n + k else 0
  }

  function PointOf(e: FactEntry): SeriesPoint {
    SeriesPoint(e.end, e.val, e.form, e.fy, e.fp)
  }

  /**
   * The list that `get_timeseries` builds: the cleaned entries sorted newest
   * first, cut to `max_points` with Python slice semantics, one point each.
   */
  method TimeseriesSeries(facts: CompanyFacts, concept: string, maxPoints: int, unit: string) returns (series: seq<SeriesPoint>)
    ensures var sorted := NewestFirst(GetUnits(facts, concept, unit));
      |series| == SliceStop(|sorted|, maxPoints) &&
      forall i :: 0 <= i < |series| ==> series[i] == PointOf(sorted[i])
  {
    var entries := GetUnits(facts, concept, unit);
    var cleaned := Cleaned(entries);
    cleaned := Sorting.Sort(cleaned, EndKey, true);
    var top := cleaned[..SliceStop(|cleaned|, maxPoints)];
    series := [];
    var i := 0;
    while i < |top|
      invariant 0 <= i <= |top|
      invariant |series| == i
      invariant forall j :: 0 <= j < i ==> series[j] == PointOf(top[j])
    {
      var e := top[i];
      series := series + [SeriesPoint(e.end, e.val, e.form, e.fy, e.fp)];
      i := i + 1;
    }
  }

  /**
   * The history is newest first (non-increasing `end`), every point has an
   * `end` and a `val` taken from a fact of the concept, and it never holds
   * more than `max_points` points when `max_points` is not negative.
   */
  lemma {:induction false} TimeseriesShape(entries: seq<FactEntry>, maxPoints: int, series: seq<SeriesPoint>)
    requires var sorted := NewestFirst(entries);
      |series| == SliceStop(|sorted|, maxPoints) &&
      forall i :: 0 <= i < |series| ==> series[i] == PointOf(sorted[i])
    ensures maxPoints >= 0 ==> |series| <= maxPoints
    ensures forall i :: 0 <= i < |series| ==> series[i].end.Some? && series[i].val.Some?
    ensures forall i, j :: 0 <= i < j < |series| ==> !LexLess(series[i].end.value, series[j].end.value)
    ensures forall i :: 0 <= i < |series| ==> exists e :: e in entries && PointOf(e) == series[i]
  {
    var cleaned := Cleaned(entries);
    var sorted := NewestFirst(entries);
    Sorting.SortSortedPermutation(cleaned, EndKey, true);
    forall i | 0 <= i < |series| ensures sorted[i] in cleaned {
      assert sorted[i] in multiset(sorted);
    }
  }

  /** Facts with the same period end keep their relative order in the history (Python's sort is stable). */
  lemma {:induction false} TimeseriesStable(entries: seq<FactEntry>, end: string)
    ensures Sorting.WithKey(NewestFirst(entries), EndKey, end) == Sorting.WithKey(Cleaned(entries), EndKey, end)
    ensures Sorting.WithKey(NewestFirst(entries), EndKey, end) == Cleaned(Sorting.WithKey(entries, EndKey, end))
  {
    Sorting.SortStable(Cleaned(entries), EndKey, true, end);
    CleanedWithKey(entries, end);
  }

  /**
   * `get_timeseries` computes the history but has no `return` statement, so
   * what it hands back is always `None`.
   */
  method GetTimeseries(facts: CompanyFacts, concept: string, maxPoints: int, unit: string) returns (r: Option<seq<SeriesPoint>>)
    ensures r == None
  {
    var series := TimeseriesSeries(facts, concept, maxPoints, unit);
    r := None;
  }

  // ---------------------------------------------------------------------------
  // Standardized statements

  /** A statement line: the label shown and the XBRL concepts tried for it, in order. */
  datatype LineSpec = LineSpec(caption: string, concepts: seq<string>)

  /** A statement: its key and its lines, in display order. */
  datatype StatementSpec = StatementSpec(kind: string, lines: seq<LineSpec>)

  /** `FINANCIAL_STATEMENT_MAP["income"]`, in its insertion order. */
  const IncomeLines: seq<LineSpec> := [
      LineSpec("Revenue", ["Revenues", "RevenueFromContractWithCustomerExcludingAssessedTax", "SalesRevenueNet", "SalesRevenueServicesNet", "SalesRevenueGoodsNet"]),
      LineSpec("Cost of Revenue", ["CostOfRevenue", "CostOfGoodsAndServicesSold", "CostOfGoodsSold", "CostOfServices"]),
      LineSpec("Gross Profit", ["GrossProfit"]),
      LineSpec("Operating Expenses", ["OperatingExpenses", "OperatingCostsAndExpenses"]),
      LineSpec("Operating Income", ["OperatingIncomeLoss"]),
      LineSpec("Net Income", ["NetIncomeLoss", "ProfitLoss"]),
      LineSpec("EPS (Basic)", ["EarningsPerShareBasic"]),
      LineSpec("EPS (Diluted)", ["EarningsPerShareDiluted"])
    ]

  /** `FINANCIAL_STATEMENT_MAP["balance"]`. */
  const BalanceLines: seq<LineSpec> := [
      LineSpec("Cash & Equivalents", ["CashAndCashEquivalentsAtCarryingValue", "CashAndCashEquivalents"]),
      LineSpec("Short-term Investments", ["MarketableSecuritiesCurrent", "AvailableForSaleSecuritiesCurrent"]),
      LineSpec("Total Current Assets", ["AssetsCurrent"]),
      LineSpec("Total Assets", ["Assets"]),
      LineSpec("Accounts Payable", ["AccountsPayableCurrent", "AccountsPayableTradeCurrent"]),
      LineSpec("Total Current Liabilities", ["LiabilitiesCurrent"]),
      LineSpec("Total Liabilities", ["Liabilities"]),
      LineSpec("Retained Earnings", ["RetainedEarningsAccumulatedDeficit"]),
      LineSpec("Total Equity", ["StockholdersEquity", "StockholdersEquityIncludingPortionAttributableToNoncontrollingInterest"])
    ]

  /** `FINANCIAL_STATEMENT_MAP["cash_flow"]`. */
  const CashFlowLines: seq<LineSpec> := [
      LineSpec("Net Cash from Operating", ["NetCashProvidedByUsedInOperatingActivities"]),
      LineSpec("Depreciation & Amortization", ["DepreciationDepletionAndAmortization", "Depreciation", "AmortizationOfIntangibleAssets"]),
      LineSpec("Net Cash from Investing", ["NetCashProvidedByUsedInInvestingActivities"]),
      LineSpec("CapEx", ["PaymentsToAcquirePropertyPlantAndEquipment", "PaymentsToAcquireProductiveAssets"]),
      LineSpec("Net Cash from Financing", ["NetCashProvidedByUsedInFinancingActivities"]),
      LineSpec("Dividends Paid", ["PaymentsOfDividends", "PaymentsOfDividendsCommonStock"])
    ]

  /** The lines of the statement `kind` in the map, or none. */
  function LinesOf(kind: string): seq<LineSpec> {
    if kind == "income" then IncomeLines
    else if kind == "balance" then BalanceLines
    else if kind == "cash_flow" then CashFlowLines
    else []
  }

  /** `FINANCIAL_STATEMENT_MAP`, in its insertion order. */
  const FinancialStatementMap: seq<StatementSpec> :=
    [StatementSpec("income", LinesOf("income")), StatementSpec("balance", LinesOf("balance")), StatementSpec("cash_flow", LinesOf("cash_flow"))]

  /** The first concept, in list order, with a value for the filing, and that value; `None` when no concept has one. */
  function FirstHit(facts: CompanyFacts, concepts: seq<string>, accession: string, endDate: string, unit: string): Option<(string, real)> {
    if concepts == [] then None
    else
      match GetMetricForFiling(facts, concepts[0], accession, endDate, unit)
      case Some(v) => Some((concepts[0], v))
      case None => FirstHit(facts, concepts[1..], accession, endDate, unit)
  }

  /** `FirstHit` is `None` exactly when no concept has a value. */
  lemma {:induction false} FirstHitNone(facts: CompanyFacts, concepts: seq<string>, accession: string, endDate: string, unit: string)
    ensures FirstHit(facts, concepts, accession, endDate, unit).None? <==>
      forall i :: 0 <= i < |concepts| ==> GetMetricForFiling(facts, concepts[i], accession, endDate, unit).None?
  {
    if concepts != [] && GetMetricForFiling(facts, concepts[0], accession, endDate, unit).None? {
      var tail := concepts[1..];
      FirstHitNone(facts, tail, accession, endDate, unit);
      if FirstHit(facts, tail, accession, endDate, unit).None? {
        forall i | 0 <= i < |concepts| ensures GetMetricForFiling(facts, concepts[i], accession, endDate, unit).None? {
          if i > 0 {
            assert concepts[i] == tail[i - 1];
          }
        }
      } else {
        var i :| 0 <= i < |tail| && GetMetricForFiling(facts, tail[i], accession, endDate, unit).Some?;
        assert concepts[i + 1] == tail[i];
      }
    }
  }

  /** When `FirstHit` names a concept, that concept has the value found, and every concept before it has none. */
  lemma {:induction false} FirstHitSome(facts: CompanyFacts, concepts: seq<string>, accession: string, endDate: string, unit: string)
    ensures var r := FirstHit(facts, concepts, accession, endDate, unit);
      r.Some? ==>
        exists i :: 0 <= i < |concepts| && concepts[i] == r.value.0 &&
          GetMetricForFiling(facts, concepts[i], accession, endDate, unit) == Some(r.value.1) &&
          forall j :: 0 <= j < i ==> GetMetricForFiling(facts, concepts[j], accession, endDate, unit).None?
  {
    if concepts != [] && GetMetricForFiling(facts, concepts[0], accession, endDate, unit).None? {
      var tail := concepts[1..];
      FirstHitSome(facts, tail, accession, endDate, unit);
      var r := FirstHit(facts, tail, accession, endDate, unit);
      if r.Some? {
        var i :| 0 <= i < |tail| && tail[i] == r.value.0 &&
          GetMetricForFiling(facts, tail[i], accession, endDate, unit) == Some(r.value.1) &&
          forall j :: 0 <= j < i ==> GetMetricForFiling(facts, tail[j], accession, endDate, unit).None?;
        assert concepts[i + 1] == tail[i];
        forall j | 0 <= j < i + 1 ensures GetMetricForFiling(facts, concepts[j], accession, endDate, unit).None? {
          if j > 0 {
            assert concepts[j] == tail[j - 1];
          }
        }
      }
    }
  }

  /**
   * `FirstHit` is `None` exactly when no concept has a value; otherwise it
   * names a concept with a value, and every concept before it has none.
   */
  lemma {:induction false} FirstHitSpec(facts: CompanyFacts, concepts: seq<string>, accession: string, endDate: string, unit: string)
    ensures var r := FirstHit(facts, concepts, accession, endDate, unit);
      && (r.None? <==> forall i :: 0 <= i < |concepts| ==> GetMetricForFiling(facts, concepts[i], accession, endDate, unit).None?)
      && (r.Some? ==>
            exists i :: 0 <= i < |concepts| && concepts[i] == r.value.0 &&
              GetMetricForFiling(facts, concepts[i], accession, endDate, unit) == Some(r.value.1) &&
              forall j :: 0 <= j < i ==> GetMetricForFiling(facts, concepts[j], accession, endDate, unit).None?)
  {
    FirstHitNone(facts, concepts, accession, endDate, unit);
    FirstHitSome(facts, concepts, accession, endDate, unit);
  }

  /** The unit a statement line is looked up and labelled with. */
  function UnitFor(caption: string): (u: string)
    ensures u == "USD/sh" <==> Contains(caption, "EPS")
    ensures u == "USD" <==> !Contains(caption, "EPS")
  {
    if Contains(caption, "EPS") then "USD/sh" else "USD"
  }

  /** A line of a built statement. */
  datatype LineItem = LineItem(caption: string, value: Option<real>, unit: string)

  /** The value part of a hit. */
  function HitValue(h: Option<(string, real)>): Option<real> {
    if h.Some? then Some(h.value.1) else None
  }

  /** The line item built for one line spec. */
  function ItemFor(facts: CompanyFacts, line: LineSpec, accession: string, endDate: string): LineItem {
    LineItem(line.caption, HitValue(FirstHit(facts, line.concepts, accession, endDate, UnitFor(line.caption))), UnitFor(line.caption))
  }

  /** The line items of one statement: one per line spec, in order. */
  function StatementItems(facts: CompanyFacts, lines: seq<LineSpec>, accession: string, endDate: string): (r: seq<LineItem>)
    ensures |r| == |lines|
    ensures forall i :: 0 <= i < |lines| ==> r[i] == ItemFor(facts, lines[i], accession, endDate)
  {
    seq(|lines|, i requires 0 <= i < |lines| => ItemFor(facts, lines[i], accession, endDate))
  }

  /**
   * Every line of a statement shows its label, in map order; its value is that
   * of the first concept with a value for the filing, or `None` when none has
   * one; its unit is "USD/sh" exactly for the EPS lines.
   */
  lemma {:induction false} StatementLine(facts: CompanyFacts, lines: seq<LineSpec>, accession: string, endDate: string, i: int)
    requires 0 <= i < |lines|
    ensures var item := StatementItems(facts, lines, accession, endDate)[i];
      && item.caption == lines[i].caption
      && (item.unit == "USD/sh" <==> Contains(lines[i].caption, "EPS"))
      && (item.unit == "USD" <==> !Contains(lines[i].caption, "EPS"))
      && (item.value.None? <==>
            forall c :: c in lines[i].concepts ==> GetMetricForFiling(facts, c, accession, endDate, item.unit).None?)
      && (item.value.Some? ==>
            exists k :: 0 <= k < |lines[i].concepts| &&
              GetMetricForFiling(facts, lines[i].concepts[k], accession, endDate, item.unit) == item.value &&
              forall j :: 0 <= j < k ==> GetMetricForFiling(facts, lines[i].concepts[j], accession, endDate, item.unit).None?)
  {
    var unit := UnitFor(lines[i].caption);
    var h := FirstHit(facts, lines[i].concepts, accession, endDate, unit);
    FirstHitSpec(facts, lines[i].concepts, accession, endDate, unit);
    if h.None? {
      forall c | c in lines[i].concepts ensures GetMetricForFiling(facts, c, accession, endDate, unit).None? {
        var k :| 0 <= k < |lines[i].concepts| && lines[i].concepts[k] == c;
      }
    }
  }

  /** The innermost loop: try the line's concepts in order, stop at the first value. */
  method LookupLine(facts: CompanyFacts, line: LineSpec, accession: string, endDate: string) returns (value: Option<real>)
    ensures value == ItemFor(facts, line, accession, endDate).value
  {
    value := None;
    var c := 0;
    while c < |line.concepts|
      invariant 0 <= c <= |line.concepts|
      invariant FirstHit(facts, line.concepts, accession, endDate, UnitFor(line.caption))
             == FirstHit(facts, line.concepts[c..], accession, endDate, UnitFor(line.caption))
    {
      var unit := if Contains(line.caption, "EPS") then "USD/sh" else "USD";
      var val := GetMetricForFiling(facts, line.concepts[c], accession, endDate, unit);
      if val.Some? {
        value := val;
        return;
      }
      assert line.concepts[c..][1..] == line.concepts[c + 1..];
      c := c + 1;
    }
  }

  /** One statement: one line item per line of the map, in order. */
  method BuildStatement(facts: CompanyFacts, lines: seq<LineSpec>, accession: string, endDate: string) returns (data: seq<LineItem>)
    ensures data == StatementItems(facts, lines, accession, endDate)
  {
    data := [];
    var l := 0;
    while l < |lines|
      invariant 0 <= l <= |lines|
      invariant |data| == l
      invariant forall j :: 0 <= j < l ==> data[j] == ItemFor(facts, lines[j], accession, endDate)
    {
      var line := lines[l];
      var value := LookupLine(facts, line, accession, endDate);
      data := data + [LineItem(line.caption, value, if Contains(line.caption, "EPS") then "USD/sh" else "USD")];
      l := l + 1;
    }
  }

  /** The three statements, each the line items of its lines in the statement map. */
  predicate StatementsOfFiling(statements: map<string, seq<LineItem>>, facts: CompanyFacts, accession: string, endDate: string) {
    && statements.Keys == {"income", "balance", "cash_flow"}
    && forall kind :: kind in statements ==> statements[kind] == StatementItems(facts, LinesOf(kind), accession, endDate)
  }

  /**
   * `build_financial_statements`: for each statement of the map, for each
   * line, try the concepts in order and stop at the first value found; the
   * line is kept with `None` when no concept has a value.
   */
  method BuildFinancialStatements(facts: CompanyFacts, accession: string, endDate: string) returns (statements: map<string, seq<LineItem>>)
    ensures StatementsOfFiling(statements, facts, accession, endDate)
  {
    statements := BuildStatements(facts, FinancialStatementMap, accession, endDate);
    var m := FinancialStatementMap;
    assert m[0].kind in statements.Keys && m[1].kind in statements.Keys && m[2].kind in statements.Keys;
    assert statements.Keys == {"income", "balance", "cash_flow"};
    forall kind | kind in statements
      ensures statements[kind] == StatementItems(facts, LinesOf(kind), accession, endDate)
    {
      var t := if kind == "income" then 0 else if kind == "balance" then 1 else 2;
      assert kind == m[t].kind && m[t].lines == LinesOf(kind);
    }
  }

  /** The loop over the statements of a map with distinct keys: one statement per entry, keyed by its name. */
  method BuildStatements(facts: CompanyFacts, specs: seq<StatementSpec>, accession: string, endDate: string) returns (statements: map<string, seq<LineItem>>)
    requires forall i, j :: 0 <= i < j < |specs| ==> specs[i].kind != specs[j].kind
    ensures statements.Keys == set t | 0 <= t < |specs| :: specs[t].kind
    ensures forall t :: 0 <= t < |specs| ==> statements[specs[t].kind] == StatementItems(facts, specs[t].lines, accession, endDate)
  {
    statements := map[];
    var s := 0;
    while s < |specs|
      invariant 0 <= s <= |specs|
      invariant statements.Keys == set t | 0 <= t < s :: specs[t].kind
      invariant forall t :: 0 <= t < s ==> statements[specs[t].kind] == StatementItems(facts, specs[t].lines, accession, endDate)
    {
      var spec := specs[s];
      var data := BuildStatement(facts, spec.lines, accession, endDate);
      statements := statements[spec.kind := data];
      s := s + 1;
    }
  }
}
