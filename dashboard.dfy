/**
  The report dashboard (src/App.js): the date-range filter applied to the
  fetched reports, the six-per-page window with its Previous/Next buttons,
  and the PIN-guarded delete dialog. The component's state (`reports`,
  `filteredReports`, `currentPage`, `showConfirmation`, `reportToDelete`,
  `pin`) is the class `Dashboard`; its event handlers are the methods.
 */
module ReportDashboard {
  import opened JsArray
  import opened Paging

  /**
    A report as the dashboard reads it: the document id, the form type and the
    submission time in milliseconds (`None` when the stored value does not
    parse as a date). The other fields of a report are only displayed.
   */
  datatype Report = Report(id: string, formType: Option<string>, submittedAt: Option<int>)

  /** One day in milliseconds. */
  const MillisPerDay: int := 86_400_000

  /** `endDateObj.setHours(23, 59, 59, 999)`: the last millisecond of the day starting at `day`. */
  function EndOfDay(day: int): (last: int)
    ensures day <= last < day + MillisPerDay
    ensures last + 1 == day + MillisPerDay
  {
    day + MillisPerDay - 1
  }

  /**
    The date filter's test for one report. A bound that is set rejects a
    report strictly before the start or strictly after the end of the end
    day. A report whose date is invalid is compared as NaN, every comparison
    is false, and so it is kept.
   */
  predicate InDateRange(r: Report, startDate: Option<int>, endDate: Option<int>): (kept: bool)
    ensures startDate.None? && endDate.None? ==> kept
    ensures r.submittedAt.None? ==> kept
    ensures r.submittedAt.Some? && startDate.Some? && endDate.None? ==>
      (kept <==> startDate.value <= r.submittedAt.value)
    ensures r.submittedAt.Some? && startDate.None? && endDate.Some? ==>
      (kept <==> r.submittedAt.value <= EndOfDay(endDate.value))
    ensures r.submittedAt.Some? && startDate.Some? && endDate.Some? ==>
      (kept <==> startDate.value <= r.submittedAt.value < EndOfDay(endDate.value) + 1)
  {
    match r.submittedAt
    case None => true
    case Some(t) =>
      !(startDate.Some? && t < startDate.value) && !(endDate.Some? && t > EndOfDay(endDate.value))
  }

  /**
    The date-range step of `fetchReports`: with neither date set the fetched
    list is used as it is; otherwise the reports inside the range are kept,
    in their fetched order and with their multiplicity.
   */
  function ReportsInRange(fetched: seq<Report>, startDate: Option<int>, endDate: Option<int>): (shown: seq<Report>)
    ensures startDate.None? && endDate.None? ==> shown == fetched
    ensures IsSubsequence(shown, fetched)
    ensures forall r :: multiset(shown)[r] == if InDateRange(r, startDate, endDate) then multiset(fetched)[r] else 0
  {
    if startDate.Some? || endDate.Some? then
      var keep := (r: Report) => InDateRange(r, startDate, endDate);
      FilterIsSubsequence(fetched, keep);
      FilterMultiplicity(fetched, keep);
      Filter(fetched, keep)
    else
      SubsequenceOfItself(fetched);
      fetched
  }

  /**
    The end bound covers the whole end day: a report submitted at 23:59:59.999
    of the end day passes the end bound, one submitted a millisecond later does not.
   */
  lemma EndDayIsInclusive(id: string, formType: Option<string>, endDay: int)
    ensures InDateRange(Report(id, formType, Some(endDay + MillisPerDay - 1)), None, Some(endDay))
    ensures !InDateRange(Report(id, formType, Some(endDay + MillisPerDay)), None, Some(endDay))
    ensures !InDateRange(Report(id, formType, Some(endDay + MillisPerDay)), Some(endDay), Some(endDay))
  {
  }

  /** A report is in the date-filtered list exactly when it was fetched and lies in the range. */
  lemma InRangeMembership(fetched: seq<Report>, startDate: Option<int>, endDate: Option<int>, r: Report)
    ensures r in ReportsInRange(fetched, startDate, endDate) <==> r in fetched && InDateRange(r, startDate, endDate)
  {
    var shown := ReportsInRange(fetched, startDate, endDate);
    assert r in shown <==> multiset(shown)[r] > 0;
    assert r in fetched <==> multiset(fetched)[r] > 0;
  }

  /**
    `reports.filter(report => report.id !== reportToDelete)`: every record with
    the deleted id is dropped, every other record stays, in order.
   */
  function RemoveReport(reports: seq<Report>, id: string): (rest: seq<Report>)
    ensures forall i :: 0 <= i < |rest| ==> rest[i].id != id
    ensures IsSubsequence(rest, reports)
    ensures forall r: Report :: r.id != id ==> multiset(rest)[r] == multiset(reports)[r]
    ensures (forall i :: 0 <= i < |reports| ==> reports[i].id != id) ==> rest == reports
  {
    var keep := (r: Report) => r.id != id;
    FilterIsSubsequence(reports, keep);
    FilterMultiplicity(reports, keep);
    assert (forall i :: 0 <= i < |reports| ==> reports[i].id != id) ==> Filter(reports, keep) == reports by {
      if forall i :: 0 <= i < |reports| ==> reports[i].id != id {
        FilterKeepsAll(reports, keep);
      }
    }
    Filter(reports, keep)
  }

  /** The fixed PIN the delete dialog checks. */
  const DeletePin: string := "2012"

  /** The toast a confirm click shows. */
  datatype Notice = Deleted | DeleteFailed | IncorrectPin

  /** The Previous button is disabled on page 1 (`disabled={currentPage === 1}`). */
  predicate PreviousDisabled(page: int): (disabled: bool)
    ensures page >= 1 ==> (disabled <==> (page - 1) * PageSize == 0)
  {
    page == 1
  }

  /**
    The Next button is disabled on the page equal to the page count, and only
    there: the last page, the one whose six slots reach the end of the list
    while the page before it does not (page 0 when there are no reports).
   */
  predicate NextDisabled(page: int, count: nat): (disabled: bool)
    ensures disabled <==> page >= 0 && page * PageSize >= count && (page == 0 || (page - 1) * PageSize < count)
  {
    page == PageCount(count)
  }

  /**
    The page a Previous click leads to: `currentPage - 1`, or no move while the
    button is disabled. From any page in `[1, PageCount]` it stays in that range.
   */
  function PreviousPage(page: int): (next: int)
    ensures page >= 1 ==> next >= 1
    ensures next == page || next == page - 1
    ensures next == page <==> PreviousDisabled(page)
  {
    if PreviousDisabled(page) then page else page - 1
  }

  /**
    The page a Next click leads to: `currentPage + 1`, or no move while the
    button is disabled. The button is disabled only on the last page itself,
    so from a page past the last one Next still moves further on.
   */
  function NextPage(page: int, count: nat): (next: int)
    ensures 1 <= page <= PageCount(count) ==> 1 <= next <= PageCount(count)
    ensures page > PageCount(count) ==> next == page + 1
    ensures next == page || next == page + 1
    ensures next == page <==> NextDisabled(page, count)
  {
    if NextDisabled(page, count) then page else page + 1
  }

  class Dashboard {
    var reports: seq<Report>
    var filteredReports: seq<Report>
    var currentPage: int
    var showConfirmation: bool
    var reportToDelete: Option<string>
    var pin: string

    /**
      The dashboard's invariant: pages are numbered from 1, the dialog is open
      only once a report has been chosen for deletion, and the shown list is
      always the fetched list (both are set together and filtered together).
     */
    ghost predicate Valid()
      reads this
    {
      && currentPage >= 1
      && (showConfirmation ==> reportToDelete.Some?)
      && filteredReports == reports
    }

    /** The component's initial state: no reports, page 1, dialog closed, empty PIN. */
    constructor ()
      ensures Valid()
      ensures reports == [] && filteredReports == [] && currentPage == 1
      ensures !showConfirmation && reportToDelete == None && pin == ""
    {
      reports, filteredReports := [], [];
      currentPage := 1;
      showConfirmation, reportToDelete, pin := false, None, "";
    }

    /** `currentReports`: the reports on the current page, at most six of them. */
    function CurrentReports(): (page: seq<Report>)
      reads this
      requires Valid()
      ensures |page| <= PageSize
      ensures page == filteredReports[Min((currentPage - 1) * PageSize, |filteredReports|)..Min(currentPage * PageSize, |filteredReports|)]
    {
      PageWindow(filteredReports, currentPage)
    }

    /** `Math.ceil(filteredReports.length / reportsPerPage)`: the number of page buttons. */
    function PageTotal(): (pages: nat)
      reads this
      ensures pages * PageSize >= |filteredReports|
      ensures pages > 0 ==> (pages - 1) * PageSize < |filteredReports|
    {
      PageCount(|filteredReports|)
    }

    /**
      A fetch completed (the effect re-runs whenever a filter input changes):
      the backend has applied the name, address and form-type filters, the
      date range is applied here, and the result becomes both `reports` and
      `filteredReports`. The page and the dialog are left as they were.
     */
    method ShowFetched(fetched: seq<Report>, startDate: Option<int>, endDate: Option<int>)
      requires Valid()
      modifies this
      ensures Valid()
      ensures reports == ReportsInRange(fetched, startDate, endDate)
      ensures filteredReports == reports
      ensures currentPage == old(currentPage) && showConfirmation == old(showConfirmation)
      ensures reportToDelete == old(reportToDelete) && pin == old(pin)
    {
      var data := ReportsInRange(fetched, startDate, endDate);
      reports := data;
      filteredReports := data;
    }

    /**
      `handleDeleteClick(reportId)`: remember the report and open the PIN
      dialog. Delete buttons sit on the report cards, which are rendered only
      while the shown list is not empty.
     */
    method DeleteClick(reportId: string)
      requires Valid() && filteredReports != []
      modifies this
      ensures Valid()
      ensures reportToDelete == Some(reportId) && showConfirmation
      ensures reports == old(reports) && filteredReports == old(filteredReports)
      ensures currentPage == old(currentPage) && pin == old(pin)
    {
      reportToDelete := Some(reportId);
      showConfirmation := true;
    }

    /** `handlePinChange`: the PIN field's new text. */
    method PinChange(value: string)
      requires Valid()
      modifies this
      ensures Valid()
      ensures pin == value
      ensures reports == old(reports) && filteredReports == old(filteredReports)
      ensures currentPage == old(currentPage) && showConfirmation == old(showConfirmation)
      ensures reportToDelete == old(reportToDelete)
    {
      pin := value;
    }

    /**
      `handleConfirmDelete`, reachable only from the open dialog. With the
      wrong PIN nothing changes. With PIN "2012" the backend delete is
      attempted (`deleteSucceeds` is its outcome): on success the chosen id is
      removed from both lists, the dialog closes and the PIN is cleared; on
      failure nothing changes and the dialog stays open.
     */
    method ConfirmDelete(deleteSucceeds: bool) returns (notice: Notice)
      requires Valid() && showConfirmation
      modifies this
      ensures Valid()
      ensures notice == (if old(pin) != DeletePin then IncorrectPin else if deleteSucceeds then Deleted else DeleteFailed)
      ensures notice == Deleted ==>
        && reports == RemoveReport(old(reports), old(reportToDelete).value)
        && filteredReports == RemoveReport(old(filteredReports), old(reportToDelete).value)
        && !showConfirmation && pin == ""
      ensures notice != Deleted ==>
        && reports == old(reports) && filteredReports == old(filteredReports)
        && showConfirmation && pin == old(pin)
      ensures reportToDelete == old(reportToDelete) && currentPage == old(currentPage)
    {
      if pin == DeletePin {
        if deleteSucceeds {
          var id := reportToDelete.value;
          reports := RemoveReport(reports, id);
          filteredReports := RemoveReport(filteredReports, id);
          showConfirmation := false;
          pin := "";
          notice := Deleted;
        } else {
          notice := DeleteFailed;
        }
      } else {
        notice := IncorrectPin;
      }
    }

    /** `handleCancelDelete`: close the dialog and clear the PIN; the chosen id is kept. */
    method CancelDelete()
      requires Valid()
      modifies this
      ensures Valid()
      ensures !showConfirmation && pin == ""
      ensures reports == old(reports) && filteredReports == old(filteredReports)
      ensures currentPage == old(currentPage) && reportToDelete == old(reportToDelete)
    {
      showConfirmation := false;
      pin := "";
    }

    /**
      `paginate(n)` from page button `n` (buttons are numbered from 1). Like
      Previous and Next, the page buttons are rendered only while the shown
      list is not empty.
     */
    method Paginate(n: int)
      requires Valid() && n >= 1 && filteredReports != []
      modifies this
      ensures Valid()
      ensures currentPage == n
      ensures reports == old(reports) && filteredReports == old(filteredReports)
      ensures showConfirmation == old(showConfirmation) && reportToDelete == old(reportToDelete) && pin == old(pin)
    {
      currentPage := n;
    }

    /** A click on Previous: `paginate(currentPage - 1)` unless the button is disabled. */
    method Previous()
      requires Valid() && filteredReports != []
      modifies this
      ensures Valid()
      ensures currentPage == PreviousPage(old(currentPage))
      ensures reports == old(reports) && filteredReports == old(filteredReports)
      ensures showConfirmation == old(showConfirmation) && reportToDelete == old(reportToDelete) && pin == old(pin)
    {
      if !PreviousDisabled(currentPage) {
        currentPage := currentPage - 1;
      }
    }

    /** A click on Next: `paginate(currentPage + 1)` unless the button is disabled. */
    method Next()
      requires Valid() && filteredReports != []
      modifies this
      ensures Valid()
      ensures currentPage == NextPage(old(currentPage), |filteredReports|)
      ensures reports == old(reports) && filteredReports == old(filteredReports)
      ensures showConfirmation == old(showConfirmation) && reportToDelete == old(reportToDelete) && pin == old(pin)
    {
      if !NextDisabled(currentPage, |filteredReports|) {
        currentPage := currentPage + 1;
      }
    }
  }

  /**
    Confirming deletion of `id` with the right PIN and a successful backend
    delete leaves a list in which no report has that id, every other report
    is kept as often as before, and order is preserved; a report the
    delete did not target is still shown.
   */
  lemma DeleteKeepsOthers(reports: seq<Report>, id: string, r: Report)
    requires r in reports && r.id != id
    ensures r in RemoveReport(reports, id)
    ensures forall x :: x in RemoveReport(reports, id) ==> x in reports && x.id != id
  {
    var rest := RemoveReport(reports, id);
    assert multiset(rest)[r] == multiset(reports)[r] > 0;
    forall x | x in rest
      ensures x in reports && x.id != id
    {
      FilterMembership(reports, (y: Report) => y.id != id, x);
    }
  }
}
