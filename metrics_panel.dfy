/**
 * The key-metrics panel: how a value and its history are rendered, which
 * metric rows the table shows, and the chart rows merged from the revenue
 * and net-income histories.
 */
module MetricsPanel {
  import opened Wrappers
  import opened Text
  import opened Fetching
  import opened Display
  import opened Wire
  import opened Sorting
  import Backend

  // ---------------------------------------------------------------------------
  // formatNumber, the unit after a value, renderSeries

  /** `formatNumber(n)`: the dash for null/undefined, otherwise the magnitude bucket; no unit is consulted. */
  function FormatNumber(n: JsValue<real>): (r: Formatted)
    ensures r == Dash <==> !n.Value?
    ensures n.Value? && Abs(n.v) >= 1000.0 ==>
      r.Scaled? && r.magnitude == MagnitudeOf(n.v) && r.mantissa * Scale(r.magnitude) == n.v
    ensures n.Value? && Abs(n.v) < 1000.0 ==> r == Locale(n.v, Some(2))
  {
    if n.Value? then ScaledOrLocale(n.v, Some(2)) else Dash
  }

  /** The text a history line puts after the number: the unit, unless it is empty or "USD". */
  function UnitSuffix(unit: JsValue<string>): (r: string)
    ensures r != "" <==> TruthyText(unit) && unit.v != "USD"
    ensures r != "" ==> r == " " + unit.v
  {
    if TruthyText(unit) && unit.v != "USD" then " " + unit.v else ""
  }

  /** The unit tag the "Latest" cell shows after the number, under the same condition. */
  function UnitTag(unit: JsValue<string>): (r: Option<string>)
    ensures r.Some? <==> UnitSuffix(unit) != ""
    ensures r.Some? ==> UnitSuffix(unit) == " " + r.value
  {
    if TruthyText(unit) && unit.v != "USD" then Some(unit.v) else None
  }

  /** One history line: the period end, the fiscal period (or nothing), the value and the unit text. */
  datatype SeriesLine = SeriesLine(end: JsValue<string>, fp: string, value: Formatted, unitText: string)

  datatype SeriesView = NoHistory | Lines(lines: seq<SeriesLine>)

  /** `p.fp || ""`. */
  function FpText(fp: JsValue<string>): string {
    if TruthyText(fp) then fp.v else ""
  }

  /** `renderSeries(series, unit)`. */
  function RenderSeries(series: JsValue<seq<PointJson>>, unit: JsValue<string>): (r: SeriesView)
    ensures r.NoHistory? <==> !series.Value? || series.v == []
    ensures r.Lines? ==> |r.lines| == |series.v| && forall i :: 0 <= i < |r.lines| ==>
      r.lines[i].end == series.v[i].end && r.lines[i].value == FormatNumber(series.v[i].val) &&
      r.lines[i].fp == FpText(series.v[i].fp) && r.lines[i].unitText == UnitSuffix(unit)
  {
    if !series.Value? || series.v == [] then NoHistory
    else
      var points := series.v;
      Lines(seq(|points|, i requires 0 <= i < |points| =>
        SeriesLine(points[i].end, FpText(points[i].fp), FormatNumber(points[i].val), UnitSuffix(unit))))
  }

  // ---------------------------------------------------------------------------
  // Table rows

  const MetricKeys: seq<string> := ["revenue", "net_income", "eps_diluted", "cfo"]

  datatype MetricRow = MetricRow(key: string, caption: JsValue<string>, latest: Formatted, unitTag: Option<string>, history: SeriesView)

  function RowOf(key: string, m: MetricJson): MetricRow {
    MetricRow(key, m.caption, FormatNumber(m.current), UnitTag(m.unit), RenderSeries(m.series, m.unit))
  }

  /** The position of `k` in `keys`, or `|keys|` when it is not there. */
  function IndexOf(keys: seq<string>, k: string): (r: nat)
    ensures r <= |keys|
    ensures r < |keys| <==> k in keys
    ensures r < |keys| ==> keys[r] == k
  {
    if keys == [] then 0 else if keys[0] == k then 0 else 1 + IndexOf(keys[1..], k)
  }

  function KeysOf(rows: seq<MetricRow>): seq<string> {
    seq(|rows|, i requires 0 <= i < |rows| => rows[i].key)
  }

  /**
   * The table body: for each key in turn, a row when the metric is present
   * and nothing otherwise.
   */
  function RowsFor(keys: seq<string>, metrics: map<string, MetricJson>): seq<MetricRow> {
    if keys == [] then []
    else
      var rest := RowsFor(keys[1..], metrics);
      if keys[0] in metrics then [RowOf(keys[0], metrics[keys[0]])] + rest else rest
  }

  /** Every row is the row of a present metric whose key is in the list. */
  lemma {:induction false} RowsForRows(keys: seq<string>, metrics: map<string, MetricJson>)
    ensures forall i :: 0 <= i < |RowsFor(keys, metrics)| ==>
      RowsFor(keys, metrics)[i].key in keys && RowsFor(keys, metrics)[i].key in metrics &&
      RowsFor(keys, metrics)[i] == RowOf(RowsFor(keys, metrics)[i].key, metrics[RowsFor(keys, metrics)[i].key])
  {
    if keys != [] {
      RowsForRows(keys[1..], metrics);
      var rest := RowsFor(keys[1..], metrics);
      assert forall i :: 0 <= i < |rest| ==> rest[i].key in keys by {
        forall i | 0 <= i < |rest| ensures rest[i].key in keys {
          var k := rest[i].key;
          assert k in keys[1..];
          var j :| 0 <= j < |keys[1..]| && keys[1..][j] == k;
          assert keys[j + 1] == k;
        }
      }
    }
  }

  /** A key of the list has a row exactly when its metric is present. */
  lemma {:induction false} RowsForKeys(keys: seq<string>, metrics: map<string, MetricJson>, k: string)
    requires k in keys
    ensures k in metrics <==> k in KeysOf(RowsFor(keys, metrics))
  {
    var r := RowsFor(keys, metrics);
    var rest := RowsFor(keys[1..], metrics);
    RowsForRows(keys, metrics);
    if k in KeysOf(r) {
      var i :| 0 <= i < |r| && KeysOf(r)[i] == k;
      assert r[i].key == k;
    }
    if k in metrics {
      if keys[0] == k {
        assert KeysOf(r)[0] == k;
      } else {
        assert k in keys[1..];
        RowsForKeys(keys[1..], metrics, k);
        var i :| 0 <= i < |rest| && KeysOf(rest)[i] == k;
        var off := if keys[0] in metrics then 1 else 0;
        assert r[i + off] == rest[i];
        assert KeysOf(r)[i + off] == k;
      }
    }
  }

  /** The rows follow the order of the list. */
  lemma {:induction false} RowsForOrder(keys: seq<string>, metrics: map<string, MetricJson>)
    requires forall i, j :: 0 <= i < j < |keys| ==> keys[i] != keys[j]
    ensures forall i, j :: 0 <= i < j < |RowsFor(keys, metrics)| ==>
      IndexOf(keys, RowsFor(keys, metrics)[i].key) < IndexOf(keys, RowsFor(keys, metrics)[j].key)
  {
    if keys != [] {
      var tail := keys[1..];
      RowsForOrder(tail, metrics);
      RowsForRows(tail, metrics);
      var rest := RowsFor(tail, metrics);
      forall i | 0 <= i < |rest| ensures rest[i].key != keys[0] && IndexOf(keys, rest[i].key) == 1 + IndexOf(tail, rest[i].key) {
        var j := IndexOf(tail, rest[i].key);
        assert keys[j + 1] == tail[j];
      }
    }
  }

  /** `MetricsPanel`'s table: nothing when `metrics` is missing, else a row per present metric in the fixed order. */
  function MetricTable(metrics: JsValue<map<string, MetricJson>>): (r: Option<seq<MetricRow>>)
    ensures r.None? <==> !metrics.Value?
    ensures r.Some? ==> forall i :: 0 <= i < |r.value| ==>
      r.value[i].key in MetricKeys && r.value[i].key in metrics.v && r.value[i] == RowOf(r.value[i].key, metrics.v[r.value[i].key])
    ensures r.Some? ==> forall k :: k in MetricKeys ==> (k in metrics.v <==> k in KeysOf(r.value))
    ensures r.Some? ==> forall i, j :: 0 <= i < j < |r.value| ==> IndexOf(MetricKeys, r.value[i].key) < IndexOf(MetricKeys, r.value[j].key)
  {
    if metrics.Value? then
      RowsForRows(MetricKeys, metrics.v);
      RowsForOrder(MetricKeys, metrics.v);
      assert forall k :: k in MetricKeys ==> (k in metrics.v <==> k in KeysOf(RowsFor(MetricKeys, metrics.v))) by {
        forall k | k in MetricKeys ensures k in metrics.v <==> k in KeysOf(RowsFor(MetricKeys, metrics.v)) {
          RowsForKeys(MetricKeys, metrics.v, k);
        }
      }
      Some(RowsFor(MetricKeys, metrics.v))
    else None
  }

  /** `metrics[key]?.series || []`. */
  function SeriesOrEmpty(metrics: map<string, MetricJson>, key: string): (r: seq<PointJson>)
    ensures key !in metrics ==> r == []
    ensures key in metrics && metrics[key].series.Value? ==> r == metrics[key].series.v
    ensures key in metrics && !metrics[key].series.Value? ==> r == []
  {
    if key in metrics && metrics[key].series.Value? then metrics[key].series.v else []
  }

  // ---------------------------------------------------------------------------
  // The chart rows

  /** A chart field: not set at all, or set to a point's `val` (which may itself be null). */
  datatype Cell = Absent | Present(val: JsValue<real>)

  /** One element of `chartData`: the period end and the `Revenue` and `'Net Income'` fields. */
  datatype ChartRow = ChartRow(name: string, revenue: Cell, netIncome: Cell)

  /** The property name `chartDataMap[item.end]` looks up. */
  function KeyOf(end: JsValue<string>): (r: string)
    ensures end.Value? ==> r == end.v
  {
    match end
    case Undefined => "undefined"
    case Null => "null"
    case Value(s) => s
  }

  /** The names the first pass creates rows for: every non-empty `end`. */
  function EndNames(points: seq<PointJson>): set<string> {
    set p | p in points && TruthyText(p.end) :: p.end.v
  }

  lemma {:induction false} EndNamesSnoc(points: seq<PointJson>, p: PointJson)
    ensures EndNames(points + [p]) == EndNames(points) + (if TruthyText(p.end) then {p.end.v} else {})
  {
    var q := points + [p];
    assert forall x :: x in q <==> x in points || x == p;
  }

  /** The index of the last point whose end looks up `k`, or -1. */
  function LastAt(points: seq<PointJson>, k: string): (r: int)
    ensures -1 <= r < |points|
    ensures r == -1 <==> forall j :: 0 <= j < |points| ==> KeyOf(points[j].end) != k
    ensures r >= 0 ==> KeyOf(points[r].end) == k && forall j :: r < j < |points| ==> KeyOf(points[j].end) != k
  {
    if points == [] then -1
    else if KeyOf(points[|points| - 1].end) == k then |points| - 1
    else
      var p := points[..|points| - 1];
      var r := LastAt(p, k);
      assert forall j :: 0 <= j < |p| ==> p[j] == points[j];
      r
  }

  /** What the later passes leave in a row's field: the `val` of the last point with that end, if any. */
  function CellAt(points: seq<PointJson>, k: string): (c: Cell)
    ensures c.Absent? <==> forall j :: 0 <= j < |points| ==> KeyOf(points[j].end) != k
    ensures c.Present? ==> LastAt(points, k) >= 0 && c.val == points[LastAt(points, k)].val
  {
    var r := LastAt(points, k);
    if r < 0 then Absent else Present(points[r].val)
  }

  lemma {:induction false} CellAtSnoc(points: seq<PointJson>, p: PointJson, k: string)
    ensures CellAt(points + [p], k) == if KeyOf(p.end) == k then Present(p.val) else CellAt(points, k)
  {
    assert (points + [p])[..|points|] == points;
  }

  /** The row the merge produces for period end `name`. */
  function RowFor(name: string, revenue: seq<PointJson>, income: seq<PointJson>): ChartRow {
    ChartRow(name, CellAt(revenue, name), CellAt(income, name))
  }

  function ChartNames(chart: seq<ChartRow>): set<string> {
    set r | r in chart :: r.name
  }

  function RowName(r: ChartRow): string {
    r.name
  }

  /** Which of the two chart fields a pass writes. */
  datatype Field = RevenueField | IncomeField

  /** A row after a pass: the field is overwritten when the pass found a point for it. */
  function Overlay(row: ChartRow, f: Field, c: Cell): ChartRow {
    if c.Absent? then row
    else if f == RevenueField then row.(revenue := c)
    else row.(netIncome := c)
  }

  /**
   * The first pass: a row `{ name: end }` for each non-empty `end` not seen
   * before, the names kept in insertion order.
   */
  method CreateRows(all: seq<PointJson>) returns (table: map<string, ChartRow>, order: seq<string>)
    ensures table.Keys == EndNames(all)
    ensures forall k :: k in table ==> table[k] == ChartRow(k, Absent, Absent)
    ensures forall j :: 0 <= j < |order| ==> order[j] in table
    ensures forall k :: k in table ==> k in order
    ensures forall a, b :: 0 <= a < b < |order| ==> order[a] != order[b]
  {
    table := map[];
    order := [];
    var i := 0;
    while i < |all|
      invariant 0 <= i <= |all|
      invariant table.Keys == EndNames(all[..i])
      invariant forall k :: k in table ==> table[k] == ChartRow(k, Absent, Absent)
      invariant forall j :: 0 <= j < |order| ==> order[j] in table
      invariant forall k :: k in table ==> k in order
      invariant forall a, b :: 0 <= a < b < |order| ==> order[a] != order[b]
    {
      var item := all[i];
      EndNamesSnoc(all[..i], item);
      assert all[..i + 1] == all[..i] + [item];
      if TruthyText(item.end) && item.end.v !in table {
        table := table[item.end.v := ChartRow(item.end.v, Absent, Absent)];
        order := order + [item.end.v];
      }
      i := i + 1;
    }
    assert all[..i] == all;
  }

  /** One iteration of a later pass: `if (chartDataMap[item.end]) chartDataMap[item.end].<field> = item.val`. */
  function AssignPoint(table: map<string, ChartRow>, item: PointJson, f: Field): (r: map<string, ChartRow>)
    ensures r.Keys == table.Keys
  {
    var k := KeyOf(item.end);
    if k in table then table[k := Overlay(table[k], f, Present(item.val))] else table
  }

  lemma {:induction false} AssignStep(table0: map<string, ChartRow>, table: map<string, ChartRow>, points: seq<PointJson>, i: nat, f: Field)
    requires i < |points| && table.Keys == table0.Keys
    requires forall k :: k in table ==> table[k] == Overlay(table0[k], f, CellAt(points[..i], k))
    ensures forall k :: k in table ==> AssignPoint(table, points[i], f)[k] == Overlay(table0[k], f, CellAt(points[..i + 1], k))
  {
    var item := points[i];
    assert points[..i + 1] == points[..i] + [item];
    forall k | k in table ensures AssignPoint(table, item, f)[k] == Overlay(table0[k], f, CellAt(points[..i + 1], k)) {
      CellAtSnoc(points[..i], item, k);
    }
  }

  /**
   * A later pass: each point whose `end` names an existing row sets the
   * field on it, so the last such point wins; other points change nothing.
   */
  method AssignPass(table0: map<string, ChartRow>, points: seq<PointJson>, f: Field) returns (table: map<string, ChartRow>)
    ensures table.Keys == table0.Keys
    ensures forall k :: k in table ==> table[k] == Overlay(table0[k], f, CellAt(points, k))
  {
    table := table0;
    var i := 0;
    while i < |points|
      invariant 0 <= i <= |points|
      invariant table.Keys == table0.Keys
      invariant forall k :: k in table ==> table[k] == Overlay(table0[k], f, CellAt(points[..i], k))
    {
      AssignStep(table0, table, points, i, f);
      var item := points[i];
      var k := KeyOf(item.end);
      if k in table {
        table := table[k := Overlay(table[k], f, Present(item.val))];
      }
      i := i + 1;
    }
    assert points[..i] == points;
  }

  /** `Object.values(chartDataMap)`: the rows in the order their names were inserted. */
  method ValuesInOrder(table: map<string, ChartRow>, order: seq<string>) returns (values: seq<ChartRow>)
    requires forall j :: 0 <= j < |order| ==> order[j] in table
    ensures |values| == |order|
    ensures forall j :: 0 <= j < |order| ==> values[j] == table[order[j]]
  {
    values := [];
    var i := 0;
    while i < |order|
      invariant 0 <= i <= |order|
      invariant |values| == i
      invariant forall j :: 0 <= j < i ==> values[j] == table[order[j]]
    {
      values := values + [table[order[i]]];
      i := i + 1;
    }
  }

  /**
   * The `chartDataMap` passes and the sort: a row for every non-empty period
   * end of either series, each field set from the last point of its series
   * with that end, sorted ascending by name.
   */
  method MergeChart(revenue: seq<PointJson>, income: seq<PointJson>) returns (chart: seq<ChartRow>)
    ensures forall i :: 0 <= i < |chart| ==> chart[i] == RowFor(chart[i].name, revenue, income)
    ensures ChartNames(chart) == EndNames(revenue + income)
    ensures forall i, j :: 0 <= i < j < |chart| ==> LexLess(chart[i].name, chart[j].name)
  {
    var table, order := CreateRows(revenue + income);
    var table1 := AssignPass(table, revenue, RevenueField);
    var table2 := AssignPass(table1, income, IncomeField);
    var values := ValuesInOrder(table2, order);
    SortChart(values, table2, order, revenue, income);
    chart := Sort(values, RowName, false);
  }

  /** The rows of `Object.values(chartDataMap)` are the rows of the merge, one per name. */
  lemma {:induction false} ValuesAreRows(values: seq<ChartRow>, table: map<string, ChartRow>, order: seq<string>, revenue: seq<PointJson>, income: seq<PointJson>)
    requires |values| == |order|
    requires forall j :: 0 <= j < |order| ==> order[j] in table && values[j] == table[order[j]]
    requires forall k :: k in table ==> k in order
    requires forall a, b :: 0 <= a < b < |order| ==> order[a] != order[b]
    requires forall k :: k in table ==> table[k] == RowFor(k, revenue, income)
    ensures forall j :: 0 <= j < |values| ==> values[j] == RowFor(values[j].name, revenue, income)
    ensures ChartNames(values) == table.Keys
    ensures DistinctKeys(values, RowName)
  {
    forall k | k in table ensures k in ChartNames(values) {
      var j :| 0 <= j < |order| && order[j] == k;
      assert values[j] in values;
    }
  }

  /** Sorting the rows keeps them and their names, and orders the names strictly. */
  lemma {:induction false} SortChart(values: seq<ChartRow>, table: map<string, ChartRow>, order: seq<string>, revenue: seq<PointJson>, income: seq<PointJson>)
    requires |values| == |order|
    requires forall j :: 0 <= j < |order| ==> order[j] in table && values[j] == table[order[j]]
    requires forall k :: k in table ==> k in order
    requires forall a, b :: 0 <= a < b < |order| ==> order[a] != order[b]
    requires table.Keys == EndNames(revenue + income)
    requires forall k :: k in table ==> table[k] == RowFor(k, revenue, income)
    ensures var chart := Sort(values, RowName, false);
      && (forall i :: 0 <= i < |chart| ==> chart[i] == RowFor(chart[i].name, revenue, income))
      && ChartNames(chart) == EndNames(revenue + income)
      && (forall i, j :: 0 <= i < j < |chart| ==> LexLess(chart[i].name, chart[j].name))
  {
    ValuesAreRows(values, table, order, revenue, income);
    SortKeepsRows(values, revenue, income);
    SortedStrictly(values);
  }

  /** Sorting keeps the rows, so each is still the merge of its name, and keeps their names. */
  lemma {:induction false} SortKeepsRows(values: seq<ChartRow>, revenue: seq<PointJson>, income: seq<PointJson>)
    requires forall j :: 0 <= j < |values| ==> values[j] == RowFor(values[j].name, revenue, income)
    ensures forall i :: 0 <= i < |Sort(values, RowName, false)| ==>
      Sort(values, RowName, false)[i] == RowFor(Sort(values, RowName, false)[i].name, revenue, income)
    ensures ChartNames(Sort(values, RowName, false)) == ChartNames(values)
  {
    var chart := Sort(values, RowName, false);
    SortMembers(values, RowName, false);
    forall i | 0 <= i < |chart| ensures chart[i] == RowFor(chart[i].name, revenue, income) {
      assert chart[i] in values;
      var j :| 0 <= j < |values| && values[j] == chart[i];
    }
  }

  lemma {:induction false} SortedStrictly(values: seq<ChartRow>)
    requires DistinctKeys(values, RowName)
    ensures var chart := Sort(values, RowName, false);
      forall i, j :: 0 <= i < j < |chart| ==> LexLess(chart[i].name, chart[j].name)
  {
    var chart := Sort(values, RowName, false);
    SortSortedPermutation(values, RowName, false);
    SortDistinct(values, RowName, false);
    forall i, j | 0 <= i < j < |chart| ensures LexLess(chart[i].name, chart[j].name) {
      LexLessTotal(chart[i].name, chart[j].name);
    }
  }

  // ---------------------------------------------------------------------------
  // What the backend sends

  /** A metric built by the backend has no history, so its row shows "No history". */
  lemma {:induction false} BackendMetricNoHistory(m: Backend.Metric)
    requires m.series.None?
    ensures RowOf("revenue", MetricToJson(m)).history == NoHistory
  {
  }

  /** With every series missing, both chart inputs are empty. */
  lemma {:induction false} BackendChartInputsEmpty(metrics: map<string, Backend.Metric>)
    requires forall k :: k in metrics ==> metrics[k].series.None?
    ensures SeriesOrEmpty(MetricsToJson(metrics), "revenue") == []
    ensures SeriesOrEmpty(MetricsToJson(metrics), "net_income") == []
  {
  }
}
