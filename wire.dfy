/**
 * The JSON bodies of the two API endpoints the front end calls, as the
 * front end reads them: any field may be missing or `null`. The conversions
 * at the bottom say what the backend of this model puts on the wire, so that
 * properties of the front end can be stated about the backend's own output.
 */
module Wire {
  import opened Wrappers
  import opened Fetching
  import SecClient
  import Backend

  /** One point of a metric's `series`. */
  datatype PointJson = PointJson(end: JsValue<string>, val: JsValue<real>, fp: JsValue<string>)

  /** One value of `metrics`. */
  datatype MetricJson = MetricJson(caption: JsValue<string>, current: JsValue<real>, unit: JsValue<string>, series: JsValue<seq<PointJson>>)

  /** One line item of a statement. */
  datatype ItemJson = ItemJson(caption: JsValue<string>, value: JsValue<real>, unit: JsValue<string>)

  /** The body of `/api/report-details`, the fields the panels read. */
  datatype DetailsJson = DetailsJson(
    metrics: JsValue<map<string, MetricJson>>,
    statements: JsValue<map<string, seq<ItemJson>>>,
    mdaHtml: JsValue<string>)

  /** One element of `reports` in the body of `/api/reports`. */
  datatype ReportJson = ReportJson(form: string, accession: string, primaryDoc: string, filingDate: string, reportDate: JsValue<string>)

  /** The body of `/api/reports`. */
  datatype ReportsJson = ReportsJson(ticker: string, cik: string, reports: seq<ReportJson>)

  /** Python's `None` is written as `null`. */
  function OrNull<T>(o: Option<T>): (r: JsValue<T>)
    ensures r.Value? <==> o.Some?
    ensures o.Some? ==> r.v == o.value
    ensures r != Undefined
  {
    if o.Some? then Value(o.value) else Null
  }

  function PointToJson(p: SecClient.SeriesPoint): PointJson {
    PointJson(OrNull(p.end), OrNull(p.val), OrNull(p.fp))
  }

  function MetricToJson(m: Backend.Metric): MetricJson {
    MetricJson(Value(m.caption), OrNull(m.current), Value(m.unit),
      if m.series.Some? then Value(seq(|m.series.value|, i requires 0 <= i < |m.series.value| => PointToJson(m.series.value[i]))) else Null)
  }

  function ItemToJson(item: SecClient.LineItem): ItemJson {
    ItemJson(Value(item.caption), OrNull(item.value), Value(item.unit))
  }

  function MetricsToJson(metrics: map<string, Backend.Metric>): map<string, MetricJson> {
    map k | k in metrics :: MetricToJson(metrics[k])
  }

  function StatementsToJson(statements: map<string, seq<SecClient.LineItem>>): map<string, seq<ItemJson>> {
    map k | k in statements :: seq(|statements[k]|, i requires 0 <= i < |statements[k]| => ItemToJson(statements[k][i]))
  }

  function DetailsToJson(d: Backend.Details): DetailsJson {
    DetailsJson(Value(MetricsToJson(d.metrics)), Value(StatementsToJson(d.statements)), OrNull(d.mdaHtml))
  }
}
