/**
 * The application shell together with the ticker search form: the state
 * cells `currentData`, `selectedReportIndex`, `loading` and `error` of the
 * application, the form's `ticker` input, and the events that change them.
 * Each handler step is one atomic event; the request itself is an input.
 */
module SearchApp {
  import opened Wrappers
  import opened Text
  import opened Fetching
  import opened Wire
  import ReportDashboard

  const InitialTicker := "GOOGL"

  /** `!ticker.trim()`: nothing but whitespace. */
  predicate Blank(ticker: string) {
    Trim(ticker) == []
  }

  /** The request path of a search: the input upper-cased, not trimmed, then escaped for a query value. */
  function ReportsPath(ticker: string): (path: string)
    ensures path == "/api/reports?ticker=" + EncodeUriComponent(Upper(ticker))
    ensures DecodeUriComponent(path[|"/api/reports?ticker="|..]) == Some(Upper(ticker))
  {
    var path := "/api/reports?ticker=" + EncodeUriComponent(Upper(ticker));
    UriComponentRoundTrip(Upper(ticker));
    assert path[|"/api/reports?ticker="|..] == EncodeUriComponent(Upper(ticker));
    path
  }

  class App {
    var ticker: string
    var currentData: Option<ReportsJson>
    var selectedReportIndex: int
    var loading: bool
    var error: Option<string>
    /** How many response bodies have been parsed: the identity of the objects in `currentData`. */
    var parses: nat

    /** An error is only ever shown once the search that caused it has finished. */
    predicate Valid()
      reads this
    {
      error.Some? ==> !loading
    }

    /** The initial state: no data, the first report, not loading, no error, "GOOGL" in the input. */
    constructor()
      ensures ticker == InitialTicker
      ensures currentData.None? && selectedReportIndex == 0 && !loading && error.None? && parses == 0
      ensures Valid()
    {
      parses := 0;
      ticker := InitialTicker;
      currentData := None;
      selectedReportIndex := 0;
      loading := false;
      error := None;
    }

    /** Typing in the input. */
    method Edit(text: string)
      requires Valid()
      modifies this
      ensures ticker == text
      ensures currentData == old(currentData) && selectedReportIndex == old(selectedReportIndex)
      ensures loading == old(loading) && error == old(error) && parses == old(parses)
      ensures Valid()
    {
      ticker := text;
    }

    /** `handleDataFetched`: store the data, go back to the first report, clear the error. */
    method HandleDataFetched(data: Option<ReportsJson>)
      modifies this
      ensures currentData == data && selectedReportIndex == 0 && error.None?
      ensures ticker == old(ticker) && loading == old(loading) && parses == old(parses)
      ensures Valid()
    {
      currentData := data;
      selectedReportIndex := 0;
      error := None;
    }

    /** `handleReportSelect`: store the index as it is given. */
    method HandleReportSelect(index: int)
      requires Valid()
      modifies this
      ensures selectedReportIndex == index
      ensures ticker == old(ticker) && currentData == old(currentData) && loading == old(loading) && error == old(error)
      ensures parses == old(parses)
      ensures Valid()
    {
      selectedReportIndex := index;
    }

    /**
     * Submitting the form. A blank input does nothing. Otherwise loading
     * starts, the error and the data are cleared, and the request is issued.
     */
    method Submit() returns (request: Option<string>)
      requires Valid()
      modifies this
      ensures Blank(old(ticker)) ==> request.None? && unchanged(this)
      ensures !Blank(old(ticker)) ==> request == Some(ReportsPath(ticker))
      ensures !Blank(old(ticker)) ==> loading && error.None? && currentData.None? && selectedReportIndex == 0
      ensures ticker == old(ticker) && parses == old(parses)
      ensures Valid()
    {
      if Blank(ticker) {
        return None;
      }
      loading := true;
      error := None;
      HandleDataFetched(None);
      request := Some(ReportsPath(ticker));
    }

    /**
     * The search's request completes: success publishes the freshly parsed
     * body, a failure stores its message; loading ends either way.
     */
    method Complete(c: Completion<ReportsJson>)
      modifies this
      ensures !loading
      ensures c.Ok? ==> currentData == Some(c.body) && selectedReportIndex == 0 && error.None? && parses == old(parses) + 1
      ensures !c.Ok? ==> error == ErrorOf(c) && currentData == old(currentData) && selectedReportIndex == old(selectedReportIndex)
      ensures !c.Ok? ==> parses == old(parses)
      ensures ticker == old(ticker)
      ensures Valid()
    {
      match c {
        case Ok(body) =>
          parses := parses + 1;
          HandleDataFetched(Some(body));
        case NotOk(status, detail) =>
          error := Some(FailureMessage(status, detail));
        case Thrown(message) =>
          error := Some(message);
      }
      loading := false;
    }

    /** The report list and the dashboard are shown only with data and not while loading. */
    function ShowContent(): (b: bool)
      reads this
      ensures b <==> currentData.Some? && !loading
    {
      currentData.Some? && !loading
    }

    /** The error banner: a non-empty error, whatever else is shown. */
    function ErrorBanner(): (r: Option<string>)
      reads this
      ensures r.Some? <==> error.Some? && error.value != ""
      ensures r.Some? ==> r == error
    {
      if error.Some? && error.value != "" then error else None
    }

    /** `reports[selectedReportIndex]`: the report there, of the current parse, or `undefined` when the index is out of range. */
    function DashboardReport(): (r: ReportDashboard.ReportProp)
      reads this
      requires currentData.Some?
      ensures var reports := currentData.value.reports;
        (0 <= selectedReportIndex < |reports| ==> r == ReportDashboard.Selected(parses, selectedReportIndex, reports[selectedReportIndex])) &&
        (!(0 <= selectedReportIndex < |reports|) ==> r == ReportDashboard.NoReport)
    {
      var reports := currentData.value.reports;
      if 0 <= selectedReportIndex < |reports| then ReportDashboard.Selected(parses, selectedReportIndex, reports[selectedReportIndex])
      else ReportDashboard.NoReport
    }
  }

  /** A search that fails leaves no data behind: it was cleared when the search began. */
  method FailedSearch(app: App, c: Completion<ReportsJson>) returns (request: Option<string>)
    requires app.Valid() && !Blank(app.ticker) && !c.Ok?
    modifies app
    ensures request == Some(ReportsPath(app.ticker))
    ensures app.currentData.None? && app.error == ErrorOf(c) && !app.loading && !app.ShowContent()
  {
    request := app.Submit();
    app.Complete(c);
  }

  /** A search that succeeds shows the first report of the new list. */
  method SuccessfulSearch(app: App, body: ReportsJson) returns (request: Option<string>)
    requires app.Valid() && !Blank(app.ticker) && body.reports != []
    modifies app
    ensures request == Some(ReportsPath(app.ticker))
    ensures app.ShowContent() && app.ErrorBanner().None?
    ensures app.DashboardReport() == ReportDashboard.Selected(old(app.parses) + 1, 0, body.reports[0])
  {
    request := app.Submit();
    app.Complete(Ok(body));
  }

  /**
   * Two searches are in flight and the first has completed, so the dashboard
   * shows its first report. When the second completes, the dashboard stays
   * mounted and receives the first report of a new parse: a different
   * object even when the two bodies are equal, so the details are fetched
   * again.
   */
  method OverlappingSearchReloads(app: App, d: ReportDashboard.Dashboard, body: ReportsJson)
    returns (request: Option<ReportDashboard.DetailsRequest>)
    requires app.Valid() && d.Valid() && app.ShowContent()
    requires d.cik == app.currentData.value.cik && d.report == app.DashboardReport()
    requires body.reports != []
    modifies app, d
    ensures app.ShowContent()
    ensures d.report == app.DashboardReport() == ReportDashboard.Selected(old(app.parses) + 1, 0, body.reports[0])
    ensures request == Some(ReportDashboard.RequestFor(body.cik, body.reports[0]))
    ensures d.loading && d.Render() == ReportDashboard.LoadingMessage
  {
    app.Complete(Ok(body));
    request := d.Rerender(app.currentData.value.cik, app.DashboardReport());
  }

  /** A blank search is silent: no request, and no error appears. */
  method BlankSearch(app: App) returns (request: Option<string>)
    requires app.Valid() && Blank(app.ticker)
    modifies app
    ensures request.None?
    ensures app.error == old(app.error) && app.loading == old(app.loading) && app.currentData == old(app.currentData)
  {
    request := app.Submit();
  }
}
