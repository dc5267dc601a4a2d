/**
 * The two HTTP handlers of the backend that reshape data after their
 * fetches: `report_details` (the end-date choice, the per-metric concept
 * fallback, the MD&A fragment and the statements) and the `<head>` splice of
 * `proxy_filing`. Company facts and fetched pages are inputs.
 */
module Backend {
  import opened Wrappers
  import opened Text
  import SecClient
  import Mda

  // ---------------------------------------------------------------------------
  // report_details

  /** The period end used for the XBRL lookups: the report date when given, otherwise the filing date. */
  function EndDate(reportDate: string, filingDate: string): (r: string)
    ensures reportDate != "" ==> r == reportDate
    ensures reportDate == "" ==> r == filingDate
  {
    if reportDate != "" then reportDate else filingDate
  }

  /** The concepts of a metric: a bare concept name or a list of them. */
  datatype Concepts = One(name: string) | Many(names: seq<string>)

  /** A bare string is treated as a one-element list. */
  function ConceptList(c: Concepts): (r: seq<string>)
    ensures c.One? ==> r == [c.name]
    ensures c.Many? ==> r == c.names
  {
    match c
    case One(name) => [name]
    case Many(names) => names
  }

  /** One entry of `metrics_spec`: the key, the concepts, the unit and the label. */
  datatype MetricSpec = MetricSpec(key: string, concepts: Concepts, unit: string, caption: string)

  /** The concept list of a line of the statement map, by its caption. */
  function LineConcepts(lines: seq<SecClient.LineSpec>, caption: string): seq<string> {
    if lines == [] then []
    else if lines[0].caption == caption then lines[0].concepts
    else LineConcepts(lines[1..], caption)
  }

  /**
   * `metrics_spec`, in its insertion order. Each concept list is a line of
   * the statement map, as `MetricConceptsFromMap` shows.
   */
  const MetricsSpec: seq<MetricSpec> := [
    MetricSpec("revenue", Many(["Revenues", "RevenueFromContractWithCustomerExcludingAssessedTax", "SalesRevenueNet", "SalesRevenueServicesNet", "SalesRevenueGoodsNet"]), "USD", "Revenue"),
    MetricSpec("net_income", Many(["NetIncomeLoss", "ProfitLoss"]), "USD", "Net income"),
    MetricSpec("eps_diluted", Many(["EarningsPerShareDiluted"]), "USD/sh", "EPS (diluted)"),
    MetricSpec("cfo", Many(["NetCashProvidedByUsedInOperatingActivities"]), "USD", "Operating cash flow")
  ]

  /** One value of `metrics`. */
  datatype Metric = Metric(
    caption: string,
    concept: string,
    unit: string,
    current: Option<real>,
    series: Option<seq<SecClient.SeriesPoint>>)

  /** `unit or "USD"`. */
  function UnitOrUsd(unit: string): string {
    if unit == "" then "USD" else unit
  }

  /** The metric the loop builds for one spec. */
  function MetricFor(facts: SecClient.CompanyFacts, spec: MetricSpec, accession: string, endDate: string): Metric
    requires ConceptList(spec.concepts) != []
  {
    var concepts := ConceptList(spec.concepts);
    var hit := SecClient.FirstHit(facts, concepts, accession, endDate, UnitOrUsd(spec.unit));
    Metric(
      spec.caption,
      if hit.Some? then hit.value.0 else concepts[0],
      spec.unit,
      if hit.Some? then Some(hit.value.1) else None,
      None)
  }

  /**
   * `current` is the value of the first concept, in list order, with a value
   * for the filing, and `concept` names that concept. When no concept has a
   * value, `current` is `None` and `concept` is the first of the list. The
   * series is always `None`, because `get_timeseries` returns nothing.
   */
  lemma {:induction false} MetricForSpec(facts: SecClient.CompanyFacts, spec: MetricSpec, accession: string, endDate: string)
    requires ConceptList(spec.concepts) != []
    ensures var m := MetricFor(facts, spec, accession, endDate);
      var concepts := ConceptList(spec.concepts);
      var unit := UnitOrUsd(spec.unit);
      && m.caption == spec.caption && m.unit == spec.unit && m.series == None
      && (m.current.None? <==>
            forall i :: 0 <= i < |concepts| ==> SecClient.GetMetricForFiling(facts, concepts[i], accession, endDate, unit).None?)
      && (m.current.None? ==> m.concept == concepts[0])
      && (m.current.Some? ==>
            exists i :: 0 <= i < |concepts| && concepts[i] == m.concept &&
              SecClient.GetMetricForFiling(facts, concepts[i], accession, endDate, unit) == m.current &&
              forall j :: 0 <= j < i ==> SecClient.GetMetricForFiling(facts, concepts[j], accession, endDate, unit).None?)
  {
    SecClient.FirstHitSpec(facts, ConceptList(spec.concepts), accession, endDate, UnitOrUsd(spec.unit));
  }

  /** The inner loop of `report_details` for one metric, leaving at the first hit. */
  method ComputeMetric(facts: SecClient.CompanyFacts, spec: MetricSpec, accession: string, endDate: string)
    returns (m: Metric)
    requires ConceptList(spec.concepts) != []
    ensures m == MetricFor(facts, spec, accession, endDate)
  {
    var concepts := ConceptList(spec.concepts);
    var unit := UnitOrUsd(spec.unit);
    var currentVal: Option<real> := None;
    var chosenConcept := concepts[0];
    var c := 0;
    while c < |concepts|
      invariant 0 <= c <= |concepts|
      invariant SecClient.FirstHit(facts, concepts, accession, endDate, unit)
             == SecClient.FirstHit(facts, concepts[c..], accession, endDate, unit)
    {
      var val := SecClient.GetMetricForFiling(facts, concepts[c], accession, endDate, unit);
      if val.Some? {
        currentVal := val;
        chosenConcept := concepts[c];
        break;
      }
      assert concepts[c..][1..] == concepts[c + 1..];
      c := c + 1;
    }
    var series := SecClient.GetTimeseries(facts, chosenConcept, 4, unit);
    m := Metric(spec.caption, chosenConcept, spec.unit, currentVal, series);
  }

  /** The body `report_details` returns. */
  datatype Details = Details(
    cik: string,
    accession: string,
    filingDate: string,
    reportDate: string,
    metrics: map<string, Metric>,
    mdaHtml: Option<string>,
    statements: map<string, seq<SecClient.LineItem>>)

  /**
   * The concept lists of the four metrics are the lines "Revenue", "Net
   * Income" and "EPS (Diluted)" of the income statement and "Net Cash from
   * Operating" of the cash-flow statement in the statement map.
   */
  lemma {:induction false} MetricConceptsFromMap()
    ensures MetricsSpec[0].concepts == Many(LineConcepts(SecClient.LinesOf("income"), "Revenue"))
    ensures MetricsSpec[1].concepts == Many(LineConcepts(SecClient.LinesOf("income"), "Net Income"))
    ensures MetricsSpec[2].concepts == Many(LineConcepts(SecClient.LinesOf("income"), "EPS (Diluted)"))
    ensures MetricsSpec[3].concepts == Many(LineConcepts(SecClient.LinesOf("cash_flow"), "Net Cash from Operating"))
  {
    var lines := SecClient.IncomeLines;
    assert SecClient.LinesOf("income") == lines;
    IncomeLineConcepts();
    assert SecClient.LinesOf("cash_flow") == SecClient.CashFlowLines;
    assert LineConcepts(SecClient.CashFlowLines, "Net Cash from Operating") == SecClient.CashFlowLines[0].concepts;
  }

  lemma {:induction false} IncomeLineConcepts()
    ensures LineConcepts(SecClient.IncomeLines, "Revenue") == SecClient.IncomeLines[0].concepts
    ensures LineConcepts(SecClient.IncomeLines, "Net Income") == SecClient.IncomeLines[5].concepts
    ensures LineConcepts(SecClient.IncomeLines, "EPS (Diluted)") == SecClient.IncomeLines[7].concepts
  {
    var lines := SecClient.IncomeLines;
    var tail := lines[1..][1..][1..][1..][1..];
    assert LineConcepts(tail, "Net Income") == lines[5].concepts;
    assert LineConcepts(tail[1..][1..], "EPS (Diluted)") == lines[7].concepts;
    assert LineConcepts(tail, "EPS (Diluted)") == lines[7].concepts;
  }

  /** Every metric has at least one concept, and the keys are the four metric names. */
  lemma {:induction false} MetricsSpecWellFormed()
    ensures forall i :: 0 <= i < |MetricsSpec| ==> ConceptList(MetricsSpec[i].concepts) != []
    ensures forall i, j :: 0 <= i < j < |MetricsSpec| ==> MetricsSpec[i].key != MetricsSpec[j].key
    ensures (set i | 0 <= i < |MetricsSpec| :: MetricsSpec[i].key) == {"revenue", "net_income", "eps_diluted", "cfo"}
  {
    MetricKeys();
  }

  lemma {:induction false} MetricKeys()
    ensures forall i, j :: 0 <= i < j < |MetricsSpec| ==> MetricsSpec[i].key != MetricsSpec[j].key
    ensures (set i | 0 <= i < |MetricsSpec| :: MetricsSpec[i].key) == {"revenue", "net_income", "eps_diluted", "cfo"}
  {
    var keys := set i | 0 <= i < |MetricsSpec| :: MetricsSpec[i].key;
    assert MetricsSpec[0].key in keys && MetricsSpec[1].key in keys;
    assert MetricsSpec[2].key in keys && MetricsSpec[3].key in keys;
  }

  /** The outer loop of `report_details` over a list of specs: one metric per spec, keyed by its name. */
  method BuildMetrics(facts: SecClient.CompanyFacts, specs: seq<MetricSpec>, accession: string, endDate: string)
    returns (metrics: map<string, Metric>)
    requires forall i :: 0 <= i < |specs| ==> ConceptList(specs[i].concepts) != []
    requires forall i, j :: 0 <= i < j < |specs| ==> specs[i].key != specs[j].key
    ensures metrics.Keys == set i | 0 <= i < |specs| :: specs[i].key
    ensures forall i :: 0 <= i < |specs| ==> metrics[specs[i].key] == MetricFor(facts, specs[i], accession, endDate)
  {
    metrics := map[];
    var s := 0;
    while s < |specs|
      invariant 0 <= s <= |specs|
      invariant metrics.Keys == set t | 0 <= t < s :: specs[t].key
      invariant forall t :: 0 <= t < s ==> metrics[specs[t].key] == MetricFor(facts, specs[t], accession, endDate)
    {
      var spec := specs[s];
      var m := ComputeMetric(facts, spec, accession, endDate);
      metrics := metrics[spec.key := m];
      s := s + 1;
    }
  }

  /** The four metrics, each built from its spec by `MetricFor`. */
  predicate MetricsOfFiling(metrics: map<string, Metric>, facts: SecClient.CompanyFacts, accession: string, endDate: string) {
    && metrics.Keys == {"revenue", "net_income", "eps_diluted", "cfo"}
    && forall i :: 0 <= i < |MetricsSpec| ==>
         ConceptList(MetricsSpec[i].concepts) != [] && MetricsSpec[i].key in metrics &&
         metrics[MetricsSpec[i].key] == MetricFor(facts, MetricsSpec[i], accession, endDate)
  }

  /** The loop of `report_details` over `metrics_spec`. */
  method ReportMetrics(facts: SecClient.CompanyFacts, accession: string, endDate: string) returns (metrics: map<string, Metric>)
    ensures MetricsOfFiling(metrics, facts, accession, endDate)
  {
    MetricsSpecWellFormed();
    metrics := BuildMetrics(facts, MetricsSpec, accession, endDate);
  }

  /**
   * `report_details` after `get_company_facts`: the facts and the fetch of
   * the filing page are inputs. A CIK that `int` rejects makes the MD&A step
   * raise, and the request fails (`Failure`).
   */
  method ReportDetails(
    cik: string, accession: string, primaryDoc: string, filingDate: string, reportDate: string,
    facts: SecClient.CompanyFacts, fetch: string -> Option<string>)
    returns (r: Result<Details, string>)
    ensures r.Failure? <==> SecClient.BuildFilingUrl(cik, accession, primaryDoc).Failure?
    ensures r.Success? ==>
      var d := r.value;
      var endDate := EndDate(reportDate, filingDate);
      && d.cik == cik && d.accession == accession && d.filingDate == filingDate && d.reportDate == reportDate
      && MetricsOfFiling(d.metrics, facts, accession, endDate)
      && SecClient.StatementsOfFiling(d.statements, facts, accession, endDate)
      && d.mdaHtml == (var url := SecClient.BuildFilingUrl(cik, accession, primaryDoc).value;
                       if fetch(url).None? then None else Mda.MdaOf(fetch(url).value))
  {
    var endDate := EndDate(reportDate, filingDate);
    var metrics := ReportMetrics(facts, accession, endDate);
    var mda := Mda.ExtractMda(cik, accession, primaryDoc, fetch);
    if mda.Failure? {
      return Failure(mda.error);
    }
    var statements := SecClient.BuildFinancialStatements(facts, accession, endDate);
    r := Success(Details(cik, accession, filingDate, reportDate, metrics, mda.value, statements));
  }

  // ---------------------------------------------------------------------------
  // proxy_filing

  /** The index of the last '/' in `s`, or -1. */
  function LastSlash(s: string): (r: int)
    ensures -1 <= r < |s|
    ensures r >= 0 ==> s[r] == '/'
    ensures forall i :: r < i < |s| ==> s[i] != '/'
    ensures r == -1 <==> '/' !in s
  {
    if s == [] then -1
    else if s[|s| - 1] == '/' then |s| - 1
    else LastSlash(s[..|s| - 1])
  }

  /** `url.rsplit("/", 1)[0] + "/"`: the URL up to and including its last '/'; with no '/', the URL and a '/'. */
  function BaseHref(url: string): (r: string)
    ensures '/' in url ==> 0 < |r| <= |url| && r == url[..|r|] && r[|r| - 1] == '/' && '/' !in url[|r|..]
    ensures '/' !in url ==> r == url + "/"
  {
    var i := LastSlash(url);
    if i >= 0 then url[..i] + "/"
    else
      assert forall k :: 0 <= k < |url| ==> url[k] != '/';
      url + "/"
  }

  /** The style block injected after the base tag, verbatim. */
  const StyleInjection :=
    "\n    <style>\n    html, body {\n        background: #ffffff !important;\n        color: #000000 !important;\n    }\n    a {\n        color: #0645ad !important;\n    }\n    </style>\n    "

  function Injection(baseHref: string): string {
    "<base href=\"" + baseHref + "\">" + StyleInjection
  }

  const HeadTag := "<head>"

  /** Where the injection goes: right after the first "<head>", compared case-insensitively, or at 0. */
  function InsertAt(html: string): (r: nat)
    ensures r <= |html|
  {
    var idx := Find(Lower(html), HeadTag, 0);
    if idx != -1 then idx + |HeadTag| else 0
  }

  /** The page served: the injection spliced in at `InsertAt`. */
  function Splice(html: string, injection: string): string {
    var at := InsertAt(html);
    html[..at] + injection + html[at..]
  }

  /**
   * The injection lands immediately after the first case-insensitive
   * "<head>", or at the front when there is none, and nothing else of the
   * page changes: cutting the injection out again gives the page back.
   */
  lemma {:induction false} SpliceSpec(html: string, injection: string)
    ensures var r := Splice(html, injection);
      var at := InsertAt(html);
      && r[..at] == html[..at]
      && r[at..at + |injection|] == injection
      && r[at + |injection|..] == html[at..]
      && r[..at] + r[at + |injection|..] == html
    ensures Find(Lower(html), HeadTag, 0) == -1 ==> InsertAt(html) == 0
    ensures Find(Lower(html), HeadTag, 0) != -1 ==>
      var at := InsertAt(html);
      at >= |HeadTag| && OccursAt(Lower(html), HeadTag, at - |HeadTag|) &&
      forall i :: 0 <= i < at - |HeadTag| ==> !OccursAt(Lower(html), HeadTag, i)
  {
    var at := InsertAt(html);
    var r := Splice(html, injection);
    assert r[..at] + r[at + |injection|..] == html[..at] + html[at..];
    assert html[..at] + html[at..] == html;
  }

  /** What `proxy_filing` answers. */
  datatype Response = Page(html: string) | HttpError(status: nat, detail: string) | ServerError(message: string)

  /**
   * `proxy_filing`. The fetch is a parameter: `Failure(e)` stands for a
   * `RequestException` with message `e`, answered with status 502. A CIK
   * that `int` rejects raises out of the handler.
   */
  method ProxyFiling(cik: string, accession: string, primaryDoc: string, fetch: string -> Result<string, string>)
    returns (resp: Response)
    ensures SecClient.BuildFilingUrl(cik, accession, primaryDoc).Failure? ==> resp.ServerError?
    ensures SecClient.BuildFilingUrl(cik, accession, primaryDoc).Success? ==>
      var url := SecClient.BuildFilingUrl(cik, accession, primaryDoc).value;
      match fetch(url)
      case Failure(e) => resp == HttpError(502, "Error fetching SEC filing: " + e)
      case Success(page) => resp == Page(Splice(page, Injection(BaseHref(url))))
  {
    var filingUrl := SecClient.BuildFilingUrl(cik, accession, primaryDoc);
    if filingUrl.Failure? {
      return ServerError(filingUrl.error);
    }
    var fetched := fetch(filingUrl.value);
    if fetched.Failure? {
      return HttpError(502, "Error fetching SEC filing: " + fetched.error);
    }
    var baseHref := BaseHref(filingUrl.value);
    var injection := Injection(baseHref);
    var html := InjectHead(fetched.value, injection);
    return Page(html);
  }

  /** The splice of `proxy_filing`: after the first "<head>" found in the lower-cased page, or in front. */
  method InjectHead(page: string, injection: string) returns (html: string)
    ensures html == Splice(page, injection)
  {
    html := page;
    var lower := Lower(html);
    var idx := Find(lower, HeadTag, 0);
    if idx != -1 {
      var idxEnd := idx + |HeadTag|;
      html := html[..idxEnd] + injection + html[idxEnd..];
    } else {
      assert page[..0] == [] && page[0..] == page;
      html := injection + html;
    }
  }

  /** For a URL whose last segment holds no '/', the base href is the URL without that segment. */
  lemma {:induction false} BaseHrefFolder(folder: string, doc: string)
    requires folder != [] && folder[|folder| - 1] == '/' && '/' !in doc
    ensures BaseHref(folder + doc) == folder
  {
    var url := folder + doc;
    assert url[|folder| - 1] == '/';
    assert forall i :: |folder| <= i < |url| ==> url[i] != '/' by {
      forall i | |folder| <= i < |url| ensures url[i] != '/' {
        assert url[i] == doc[i - |folder|];
      }
    }
    assert LastSlash(url) == |folder| - 1;
    assert url[..|folder| - 1] + "/" == folder;
  }

  /** The base href of a filing URL is the filing's folder under the Archives. */
  lemma {:induction false} FilingBaseHref(cik: string, accession: string, primaryDoc: string)
    requires '/' !in primaryDoc && SecClient.BuildFilingUrl(cik, accession, primaryDoc).Success?
    ensures var folder := SecClient.BuildFilingUrl(cik, accession, "").value;
      BaseHref(SecClient.BuildFilingUrl(cik, accession, primaryDoc).value) == folder
  {
    var folder := SecClient.BuildFilingUrl(cik, accession, "").value;
    assert SecClient.BuildFilingUrl(cik, accession, primaryDoc).value == folder + primaryDoc;
    BaseHrefFolder(folder, primaryDoc);
  }
}
