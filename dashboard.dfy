/**
 * The report dashboard: three state cells (`details`, `loading`, `error`)
 * driven by the detail-loading effect, and what the component renders from
 * them. Each handler step is one atomic event. The component keeps no
 * record of which request is current, so a completion writes its result
 * whatever report is selected by the time it arrives.
 */
module ReportDashboard {
  import opened Wrappers
  import opened Fetching
  import opened Wire

  /**
   * The `report` prop: the element at a position of a report list, or
   * `undefined`. Every parsed response body is a list of fresh objects, and
   * `list` numbers the parse it came from, so two props are the same object
   * exactly when they come from the same parse and the same position, even
   * when two parses hold equal reports.
   */
  datatype ReportProp = Selected(list: nat, index: nat, report: ReportJson) | NoReport

  /** The query of `/api/report-details`. */
  datatype DetailsRequest = DetailsRequest(cik: string, accession: string, primaryDoc: string, filingDate: string, reportDate: string)

  /** The request the effect issues for a report: its own fields, with `report_date || ''`. */
  function RequestFor(cik: string, report: ReportJson): (q: DetailsRequest)
    ensures q.cik == cik && q.accession == report.accession && q.primaryDoc == report.primaryDoc && q.filingDate == report.filingDate
    ensures TruthyText(report.reportDate) ==> q.reportDate == report.reportDate.v
    ensures !TruthyText(report.reportDate) ==> q.reportDate == ""
  {
    DetailsRequest(cik, report.accession, report.primaryDoc, report.filingDate,
      if TruthyText(report.reportDate) then report.reportDate.v else "")
  }

  /** What the component renders. */
  datatype View = LoadingMessage | ErrorMessage(message: string) | Nothing | Panels(details: DetailsJson)

  class Dashboard {
    var cik: string
    var report: ReportProp
    var details: Option<DetailsJson>
    var loading: bool
    var error: Option<string>

    /** While a load is shown as running, neither an error nor details are held. */
    predicate Valid()
      reads this
    {
      loading ==> error.None? && details.None?
    }

    /** The first render, before the effect runs: no details, not loading, no error. */
    constructor(cik: string, report: ReportProp)
      ensures this.cik == cik && this.report == report
      ensures details.None? && !loading && error.None?
      ensures Valid()
    {
      this.cik := cik;
      this.report := report;
      details := None;
      loading := false;
      error := None;
    }

    /**
     * The effect body. With no report it returns at once; otherwise it sets
     * loading, clears the error and the details, and issues the request.
     */
    method RunEffect() returns (request: Option<DetailsRequest>)
      requires Valid()
      modifies this
      ensures report.NoReport? ==> request.None? && unchanged(this)
      ensures report.Selected? ==> request == Some(RequestFor(cik, report.report))
      ensures report.Selected? ==> loading && error.None? && details.None?
      ensures cik == old(cik) && report == old(report)
      ensures Valid()
    {
      if report.NoReport? {
        return None;
      }
      loading := true;
      error := None;
      details := None;
      request := Some(RequestFor(cik, report.report));
    }

    /**
     * A render with new props. The effect runs again only when `cik` or the
     * report differs from the previous render's.
     */
    method Rerender(newCik: string, newReport: ReportProp) returns (request: Option<DetailsRequest>)
      requires Valid()
      modifies this
      ensures newCik == old(cik) && newReport == old(report) ==> request.None? && unchanged(this)
      ensures cik == newCik && report == newReport
      ensures (newCik != old(cik) || newReport != old(report)) && newReport.Selected? ==>
        request == Some(RequestFor(newCik, newReport.report)) && loading && error.None? && details.None?
      ensures newReport.NoReport? ==>
        request.None? && details == old(details) && loading == old(loading) && error == old(error)
      ensures Valid()
    {
      if newCik == cik && newReport == report {
        return None;
      }
      cik := newCik;
      report := newReport;
      request := RunEffect();
    }

    /**
     * A request completes: success stores the body; a failure stores the
     * message; loading ends either way. Nothing checks that the request is
     * the one for the report selected now.
     */
    method Resolve(c: Completion<DetailsJson>)
      modifies this
      ensures !loading
      ensures c.Ok? ==> details == Some(c.body) && error == old(error)
      ensures !c.Ok? ==> error == ErrorOf(c) && details == old(details)
      ensures cik == old(cik) && report == old(report)
      ensures old(Valid()) && old(loading) && !c.Ok? ==> details.None?
      ensures old(Valid()) && c.Ok? && old(loading) ==> error.None?
      ensures Valid()
    {
      match c {
        case Ok(body) =>
          details := Some(body);
        case NotOk(status, detail) =>
          error := Some(FailureMessage(status, detail));
        case Thrown(message) =>
          error := Some(message);
      }
      loading := false;
    }

    /** The loading message first, then a non-empty error, then nothing without details, then the panels. */
    function Render(): (v: View)
      reads this
      ensures loading ==> v == LoadingMessage
      ensures !loading && error.Some? && error.value != "" ==> v == ErrorMessage(error.value)
      ensures v.Nothing? <==> !loading && (error.None? || error.value == "") && details.None?
      ensures v.Panels? ==> details == Some(v.details)
    {
      if loading then LoadingMessage
      else if error.Some? && error.value != "" then ErrorMessage(error.value)
      else if details.None? then Nothing
      else Panels(details.value)
    }
  }

  /**
   * Switching from report 0 to report 1 while report 0 is loading: if report
   * 1's answer arrives first, report 0's late answer replaces it, and the
   * dashboard goes on showing report 0's details under report 1.
   */
  method LateCompletionOverwrites(cik: string, r0: ReportJson, r1: ReportJson, body0: DetailsJson, body1: DetailsJson)
    returns (d: Dashboard, q0: Option<DetailsRequest>, q1: Option<DetailsRequest>)
    ensures q0 == Some(RequestFor(cik, r0)) && q1 == Some(RequestFor(cik, r1))
    ensures d.report == Selected(0, 1, r1)
    ensures d.details == Some(body0)
    ensures d.Render() == Panels(body0)
  {
    d := new Dashboard(cik, Selected(0, 0, r0));
    q0 := d.RunEffect();
    q1 := d.Rerender(cik, Selected(0, 1, r1));
    d.Resolve(Ok(body1));
    d.Resolve(Ok(body0));
  }

  /**
   * A late failure of an abandoned request hides the details of the current
   * one behind an error message.
   */
  method LateFailureHidesDetails(cik: string, r0: ReportJson, r1: ReportJson, body1: DetailsJson, status: nat)
    returns (d: Dashboard)
    ensures d.report == Selected(0, 1, r1)
    ensures d.details == Some(body1)
    ensures d.Render() == ErrorMessage(FailureMessage(status, Undefined))
  {
    d := new Dashboard(cik, Selected(0, 0, r0));
    var q0 := d.RunEffect();
    var q1 := d.Rerender(cik, Selected(0, 1, r1));
    d.Resolve(Ok(body1));
    d.Resolve(NotOk(status, Undefined));
  }

  /** Loading ends at the first completion, even while the request for the report now selected is still out. */
  method FirstCompletionEndsLoading(cik: string, r0: ReportJson, r1: ReportJson, body0: DetailsJson)
    returns (d: Dashboard)
    ensures d.report == Selected(0, 1, r1)
    ensures !d.loading && d.Render() == Panels(body0)
  {
    d := new Dashboard(cik, Selected(0, 0, r0));
    var q0 := d.RunEffect();
    var q1 := d.Rerender(cik, Selected(0, 1, r1));
    d.Resolve(Ok(body0));
  }
}
