/**
 * The financial-statements panel: `formatCurrency`, the three tabs, and the
 * rows shown for the selected tab.
 */
module FinancialStatements {
  import opened Wrappers
  import opened Text
  import opened Fetching
  import opened Display
  import opened Wire
  import MetricsPanel

  /** `unit && unit.includes("/sh")`: a per-share unit. */
  predicate PerShare(unit: JsValue<string>) {
    TruthyText(unit) && Contains(unit.v, "/sh")
  }

  /**
   * `formatCurrency(val, unit)`: the dash for null/undefined; two decimals
   * and no suffix for a per-share unit, whatever the magnitude; otherwise the
   * magnitude bucket, with the locale's default rendering below a thousand.
   */
  function FormatCurrency(val: JsValue<real>, unit: JsValue<string>): (r: Formatted)
    ensures r == Dash <==> !val.Value?
    ensures val.Value? && PerShare(unit) ==> r == Fixed2(val.v)
    ensures val.Value? && !PerShare(unit) && Abs(val.v) >= 1000.0 ==>
      r.Scaled? && r.magnitude == MagnitudeOf(val.v) && r.mantissa * Scale(r.magnitude) == val.v
    ensures val.Value? && !PerShare(unit) && Abs(val.v) < 1000.0 ==> r == Locale(val.v, None)
  {
    if !val.Value? then Dash
    else if PerShare(unit) then Fixed2(val.v)
    else ScaledOrLocale(val.v, None)
  }

  /**
   * The two tables disagree on a per-share value of a thousand or more: the
   * statements table shows two decimals, the metrics table a scaled mantissa,
   * because `formatNumber` never looks at the unit.
   */
  lemma {:induction false} PerShareFormattedDifferently(v: real)
    requires Abs(v) >= 1000.0
    ensures FormatCurrency(Value(v), Value("USD/sh")) == Fixed2(v)
    ensures MetricsPanel.FormatNumber(Value(v)).Scaled?
  {
    assert OccursAt("USD/sh", "/sh", 3);
  }

  /** Without a per-share unit both tables pick the same bucket and mantissa. */
  lemma {:induction false} SameBucketsOtherwise(v: real, unit: JsValue<string>)
    requires !PerShare(unit) && Abs(v) >= 1000.0
    ensures FormatCurrency(Value(v), unit) == MetricsPanel.FormatNumber(Value(v))
  {
  }

  // ---------------------------------------------------------------------------
  // Tabs and rows

  datatype Tab = Income | Balance | CashFlow

  /** The key of `statements` a tab shows. */
  function TabKey(t: Tab): (k: string)
    ensures k in {"income", "balance", "cash_flow"}
  {
    match t
    case Income => "income"
    case Balance => "balance"
    case CashFlow => "cash_flow"
  }

  function TabTitle(t: Tab): string {
    match t
    case Income => "Income Statement"
    case Balance => "Balance Sheet"
    case CashFlow => "Cash Flow"
  }

  /** The buttons, in order, and the tab selected at first. */
  const Tabs: seq<Tab> := [Income, Balance, CashFlow]
  const InitialTab: Tab := Income

  /** The tabs show exactly the three statement keys, each once, income first. */
  lemma {:induction false} TabsCoverStatements()
    ensures (set t | t in Tabs :: TabKey(t)) == {"income", "balance", "cash_flow"}
    ensures forall i, j :: 0 <= i < j < |Tabs| ==> TabKey(Tabs[i]) != TabKey(Tabs[j])
    ensures TabKey(InitialTab) == "income"
  {
    assert TabKey(Tabs[0]) == "income" && TabKey(Tabs[1]) == "balance" && TabKey(Tabs[2]) == "cash_flow";
  }

  /** `statements[activeTab] || []`. */
  function SelectItems(statements: map<string, seq<ItemJson>>, t: Tab): (r: seq<ItemJson>)
    ensures TabKey(t) in statements ==> r == statements[TabKey(t)]
    ensures TabKey(t) !in statements ==> r == []
  {
    if TabKey(t) in statements then statements[TabKey(t)] else []
  }

  /** A table row: a line item, or the single row saying the statement is empty. */
  datatype TableRow = ItemRow(caption: JsValue<string>, value: Formatted) | NoDataRow

  const NoDataMessage := "No data available for this statement."

  function ItemRowOf(item: ItemJson): TableRow {
    ItemRow(item.caption, FormatCurrency(item.value, item.unit))
  }

  /** The table body: one row per item in order, or one "no data" row for an empty list. */
  function Rows(items: seq<ItemJson>): (r: seq<TableRow>)
    ensures items == [] ==> r == [NoDataRow]
    ensures items != [] ==> |r| == |items| && forall i :: 0 <= i < |r| ==> r[i] == ItemRowOf(items[i])
    ensures NoDataRow in r <==> items == []
  {
    if items == [] then [NoDataRow]
    else seq(|items|, i requires 0 <= i < |items| => ItemRowOf(items[i]))
  }

  /** The panel: nothing when `statements` is missing, otherwise the rows of the active tab. */
  function StatementsView(statements: JsValue<map<string, seq<ItemJson>>>, t: Tab): (r: Option<seq<TableRow>>)
    ensures r.None? <==> !statements.Value?
    ensures r.Some? ==> r.value == Rows(SelectItems(statements.v, t))
  {
    if statements.Value? then Some(Rows(SelectItems(statements.v, t))) else None
  }

  /**
   * For what the backend sends, every tab has rows of its own: each of the
   * three keys is present, so a tab shows the "no data" row only when the
   * backend built an empty statement.
   */
  lemma {:induction false} BackendStatementsTabs(statements: map<string, seq<Wire.ItemJson>>, t: Tab)
    requires statements.Keys == {"income", "balance", "cash_flow"}
    ensures SelectItems(statements, t) == statements[TabKey(t)]
    ensures (NoDataRow in Rows(SelectItems(statements, t))) <==> statements[TabKey(t)] == []
  {
  }
}
