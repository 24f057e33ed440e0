# Report and patient dashboard: query core in Dafny

This project models the client-side query logic of a browser dashboard over two record collections held in a remote document store: medical *reports* and *patients*. The logic lives inside three React components. The model pulls it out and proves what it does:

- **Report dashboard** (`src/App.js`), in module `ReportDashboard` (file `dashboard.dfy`) and module `ReportRoutes` (file `routes.dfy`):
  - the route a report card opens, chosen by the report's `formType`;
  - the inclusive date-range filter applied to the fetched reports, with the end date widened to 23:59:59.999;
  - the six-per-page window, the page count, and the rules that disable Previous and Next;
  - the PIN-guarded delete dialog.
  
  The component's state (`reports`, `filteredReports`, `currentPage`, `showConfirmation`, `reportToDelete`, `pin`) is the class `Dashboard`. Its event handlers are methods that change that state.
- **Patient list** (`src/PatientList.js`), in module `PatientList` (file `patients.dfy`). This view works the other way round from the dashboard: it cuts page `p` out of the *unfiltered* list and counts pages over the whole list. Only after that does it apply the search and date predicate, to that one page. Its mutable state is the class `PatientListView`.
- **Progression report field names** (`src/ProgressionReportDetail.js`), in module `ProgressionReport` (file `progression.dfy`): `cleanFieldName` and `getField`.

Three shared modules model the JavaScript built-ins these views rely on, and the paging both views share:
- `JsArray` (file `jsarray.dfy`): `Array.prototype.filter`, and `Array.prototype.slice` with its negative and out-of-range indices.
- `JsString` (file `jsstring.dfy`): `toLowerCase` and `includes`, which the patient search uses, and `indexOf`, which only the model's own route parser (`ReportRoutes.ParseDetailsRoute`) uses.
- `Paging` (file `paging.dfy`): the page window and page count that both views compute the same way.

Timestamps are integers (milliseconds). A field that may be absent is an `Option`. The backend's delete outcome is a boolean input.

Where the code's behaviour is surprising, the model follows the code:
- The report date filter **keeps** a report whose `submittedAt` does not parse as a date, even when a bound is set. The code compares `NaN`, every comparison is false, and so the report passes (`InDateRange`).
- The report dashboard's page count is `Math.ceil(n / 6)`, with no minimum of 1.
- The current page is not reset when the fetched list changes, so it can lie past the last page. In that case the page is empty and, as long as the list is not empty, Next is still enabled, because Next is disabled only when `currentPage` *equals* the page count (`NextPage`). With an empty list the dashboard renders neither the report cards nor the page navigation, so Delete, Previous, Next and the page buttons cannot be clicked; the methods for those clicks require a non-empty list.
- Cancelling the delete dialog closes it and clears the PIN but keeps `reportToDelete`. A wrong PIN does not clear the PIN either.
- In the patient list, a patient without a `registrationDate` is compared as `null`, which JavaScript turns into 0 (the epoch). The end date of the patient filter is not widened to the end of its day.
- The patient list's Next handler sets the page to `totalPages` when it is not below it, so with no patients the page becomes 0 (an empty page).

## Model

| member | source | states |
|---|---|---|
| `Paging.PageCount` | src/App.js:275 | the page count is the least number of six-item pages holding all items: `pages * 6 >= n`, `(pages - 1) * 6 < n` when there is a page, and 0 exactly for no items |
| `Paging.PageWindow` | src/App.js:144-146 | page `p` holds at most 6 items; from page 1 on it is `items[(p-1)*6 .. p*6)` clamped to the list; page 0 (reached only in the patient list) is empty |
| `Paging.PageBeyondLastIsEmpty` | src/App.js:144-146 | a page past the last page shows nothing |
| `Paging.PageSizes` | src/App.js:144-146 | every page before the last is full (6 items); the last holds the remaining 1 to 6 |
| `Paging.ItemOnItsPage` | src/PatientList.js:36-38 | item `i` appears on page `i/6 + 1`, which exists, at position `i % 6` |
| `Paging.FirstPagesArePrefix` | src/PatientList.js:36-38 | reading pages 1..k in order gives exactly the first `6k` items, with no gaps or repeats |
| `Paging.AllPagesShowEverything` | src/App.js:275-287 | the pages 1..page count, read in order, are the whole list |
| `ReportRoutes.ReportDetailsRoute` | src/App.js:82-105 | every route starts with `/`, ends with `/` followed by the report id, and has no other `/` before that final one |
| `ReportRoutes.ViewFor` | src/App.js:82-104 | a missing form type, or one outside the nine known ones, opens the default view; VHC and GVHC, and only they, open the VHC view |
| `ReportRoutes.KnownRoutes` | src/App.js:83-101 | the nine known form types map to their fixed prefixes followed by the id; VHC and GVHC share `/report-details-vhc/` |
| `ReportRoutes.UnknownFormTypeRoute` | src/App.js:102-103 | any unrecognised or missing form type maps to `/report-details-default/<id>` |
| `ReportRoutes.PrefixShape` | src/App.js:84-103 | every route prefix is `/`, one non-empty segment without `/`, then `/` |
| `ReportRoutes.RouteRoundTrip` | src/App.js:82-105 | parsing the route of a report gives back its detail view and its id, for every form type and id |
| `ReportRoutes.RoutesDetermineViewAndId` | src/App.js:82-105 | two reports share a route only if they open the same view and have the same id |
| `ReportRoutes.KnownFormTypesDistinct` | src/App.js:83-101 | apart from VHC and GVHC, different known form types open different views |
| `ReportDashboard.EndOfDay` | src/App.js:57-59 | the widened end bound is the last millisecond of the end day: inside the day, one less than the next day's start |
| `ReportDashboard.InDateRange` | src/App.js:61-66 | with no bound set every report passes; a report whose date does not parse passes whatever the bounds; each bound is applied on its own: a start alone keeps exactly the dated reports at or after it, an end alone exactly those up to the last millisecond of the end day, and both together exactly those between the two |
| `ReportDashboard.ReportsInRange` | src/App.js:54-66 | with no date set the fetched list is unchanged; otherwise the result is an order-preserving subsequence holding each in-range report as often as fetched and no other report |
| `ReportDashboard.InRangeMembership` | src/App.js:61-66 | a report is shown exactly when it was fetched and lies in the range |
| `ReportDashboard.EndDayIsInclusive` | src/App.js:57-64 | a report at 23:59:59.999 of the end day passes the end bound; one a millisecond later is dropped |
| `ReportDashboard.RemoveReport` | src/App.js:125-126 | no record with the deleted id remains; every other record keeps its multiplicity and order; with no such id the list is unchanged |
| `ReportDashboard.DeleteKeepsOthers` | src/App.js:125-126 | a report the delete did not target is still listed, and everything listed afterwards was listed before and has another id |
| `ReportDashboard.PreviousDisabled` | src/App.js:270 | on pages from 1 on, Previous is disabled exactly on the page whose window starts at the first report |
| `ReportDashboard.NextDisabled` | src/App.js:292 | Next is disabled exactly on the last page: the one whose six slots reach the end of the list while the page before it does not (page 0 with no reports) |
| `ReportDashboard.PreviousPage` | src/App.js:267-270 | Previous moves back one page unless disabled, which is exactly on page 1, so it never leaves pages >= 1 |
| `ReportDashboard.NextPage` | src/App.js:289-292 | Next moves on exactly one page unless disabled, and stays put exactly when disabled, which is on the page equal to the page count; from a page in range it stays in range, from a page past the last it moves further |
| `ReportDashboard.Dashboard.constructor` | src/App.js:12-22 | initial state: no reports, page 1, dialog closed, no report chosen, empty PIN |
| `ReportDashboard.Dashboard.CurrentReports` | src/App.js:144-146 | `currentReports` is `filteredReports[(p-1)*6 .. p*6)` clamped, at most 6 reports |
| `ReportDashboard.Dashboard.PageTotal` | src/App.js:275 | the number of page buttons is the ceiling of the count over 6 |
| `ReportDashboard.Dashboard.ShowFetched` | src/App.js:54-70 | both lists become the date-filtered fetched list; page and dialog unchanged |
| `ReportDashboard.Dashboard.DeleteClick` | src/App.js:112-115 | records the report to delete and opens the dialog; nothing else changes |
| `ReportDashboard.Dashboard.PinChange` | src/App.js:117-119 | only the PIN changes |
| `ReportDashboard.Dashboard.ConfirmDelete` | src/App.js:121-137 | wrong PIN: nothing changes; PIN "2012" and a successful delete: the chosen id is removed from both lists, the dialog closes and the PIN is cleared; failed delete: nothing changes and the dialog stays open |
| `ReportDashboard.Dashboard.CancelDelete` | src/App.js:139-142 | closes the dialog and clears the PIN; lists and the chosen id unchanged |
| `ReportDashboard.Dashboard.Paginate` | src/App.js:148 | sets the page to the button's number and changes nothing else |
| `ReportDashboard.Dashboard.Previous` | src/App.js:267-270 | the page becomes `PreviousPage` of the old page; the page stays >= 1 |
| `ReportDashboard.Dashboard.Next` | src/App.js:289-292 | the page becomes `NextPage` of the old page and the report count |
| `PatientList.MatchesSearch` | src/PatientList.js:53-62 | the empty search matches every patient; a patient matches exactly when the lower-cased search occurs at some index of the lower-cased name or address, or the search as typed occurs at some index of the phone number |
| `PatientList.RegistrationTime` | src/PatientList.js:56 | a missing registration date compares as 0 (the epoch); a present one as its own time |
| `PatientList.MatchesDates` | src/PatientList.js:65-66 | with no dates set every patient passes; a start date alone keeps exactly the patients registered at or after it, an end date alone exactly those registered at or before the end date's midnight; with both set a patient passes exactly when registered between the two, which requires start <= end |
| `PatientList.Matches` | src/PatientList.js:68 | with an empty search and no dates every patient matches; a patient matching both dates implies the start is not after the end |
| `PatientList.FilteredPatients` | src/PatientList.js:52-69 | the result has at most 6 patients and is an order-preserving subsequence of the current page of the unfiltered list, holding each matching patient of that page as often as the page does |
| `PatientList.ShownIffOnPageAndMatching` | src/PatientList.js:52-68 | a patient is shown exactly when it is on the current page and matches search and dates |
| `PatientList.NoMatchOnPageShowsNothing` | src/PatientList.js:38-52 | patients on other pages are never searched: with no match on the page, nothing is shown |
| `PatientList.NoFiltersShowWholePage` | src/PatientList.js:59-68 | with an empty search and no dates the whole current page is shown |
| `PatientList.PhoneSearchIsNotCaseFolded` | src/PatientList.js:53-62 | the name test folds case and the phone test does not: phone "ab" is found by "ab" but not by "AB"; name "ab" is found by "AB" |
| `PatientList.NameAndAddressSearchIgnoresCase` | src/PatientList.js:53-61 | the name and address tests give the same answer for a search and its lower-cased form |
| `PatientList.EndDateIsNotClamped` | src/PatientList.js:65-66 | for every patient, a start date alone passes exactly when `start <= registration` and an end date alone exactly when `registration <= end`; the end date is not widened to the end of its day, so a patient registered one millisecond after the end date's midnight fails that end date |
| `PatientList.MissingRegistrationDate` | src/PatientList.js:56-66 | a patient without a registration date compares as the epoch: it fails a positive start date and passes a non-negative end date |
| `PatientList.PreviousPage` | src/PatientList.js:127 | Previous goes to `p - 1` when `p > 1` and to 1 otherwise, never below 1 |
| `PatientList.NextPage` | src/PatientList.js:139 | Next goes to `p + 1` when `p < totalPages` and to `totalPages` otherwise, never past `totalPages` (0 with no patients) |
| `PatientList.PatientListView.constructor` | src/PatientList.js:10-15 | initial state: no patients, page 1, empty search, no dates |
| `PatientList.PatientListView.CurrentPatients` | src/PatientList.js:35-38 | `currentPatients` is `patients[(p-1)*6 .. p*6)` clamped, at most 6 entries, empty on page 0 |
| `PatientList.PatientListView.TotalPages` | src/PatientList.js:44 | `totalPages` is the ceiling of the whole list's length over 6 |
| `PatientList.PatientListView.Shown` | src/PatientList.js:52-69 | what is shown is an order-preserving subsequence of the current page, at most 6 patients, holding each matching patient of the page as often as the page does and no other patient |
| `PatientList.PatientListView.Load` | src/PatientList.js:26 | the fetched list replaces the patients; page and filters unchanged |
| `PatientList.PatientListView.SetSearch` | src/PatientList.js:83 | only the search changes; the page count and the current page's patients are unchanged |
| `PatientList.PatientListView.SetDates` | src/PatientList.js:89-95 | only the dates change; the page count and the current page's patients are unchanged |
| `PatientList.PatientListView.Paginate` | src/PatientList.js:41 | sets the page to the button's number |
| `PatientList.PatientListView.Previous` | src/PatientList.js:127 | the page becomes `PreviousPage` of the old page, at least 1 |
| `PatientList.PatientListView.Next` | src/PatientList.js:139 | the page becomes `NextPage` of the old page and `totalPages`, at most `totalPages` |
| `ProgressionReport.StripReportPrefix` | src/ProgressionReportDetail.js:35 | a name starting with `Progression Report.` loses exactly that prefix, once; any other name is unchanged |
| `ProgressionReport.ReplaceUnderscores` | src/ProgressionReportDetail.js:35 | same length, every `_` becomes a space, every other character stays in place, no `_` remains |
| `ProgressionReport.CleanFieldName` | src/ProgressionReportDetail.js:34-36 | no `_` in the output; its length is the input's minus the stripped prefix; each character is the matching remaining input character with `_` turned into a space |
| `ProgressionReport.ReportPrefixLength` | src/ProgressionReportDetail.js:35 | the stripped prefix is 19 characters long and has no `_` |
| `ProgressionReport.StripsPrefix` | src/ProgressionReportDetail.js:35 | prefix plus `rest` becomes `rest` with its underscores replaced |
| `ProgressionReport.StripsPrefixOnce` | src/ProgressionReportDetail.js:35 | the prefix is removed once only: a second copy right after it stays |
| `ProgressionReport.PlainNameUnchanged` | src/ProgressionReportDetail.js:35 | a name that neither starts with the prefix nor contains `_` is returned unchanged |
| `ProgressionReport.StripBeforeReplace` | src/ProgressionReportDetail.js:35 | stripping happens before replacement: the prefix spelled with `_` for its space keeps its text, the `_` turned into a space |
| `ProgressionReport.StripBeforeReplaceExample` | src/ProgressionReportDetail.js:35 | `"Progression_Report.x"` becomes `"Progression Report.x"`, not `"x"` |
| `ProgressionReport.GetField` | src/ProgressionReportDetail.js:31 | a value other than `undefined` (including `null`) is returned unchanged; `undefined` becomes `'Null'` |
| `ProgressionReport.GetFieldIdempotent` | src/ProgressionReportDetail.js:31 | `getField` never yields `undefined`, so applying it twice equals applying it once |

## Left out

- Remote document store I/O: `getDocs`, `getDoc` and `deleteDoc`, and the loading and error flags around them (src/App.js:29-80, src/PatientList.js:18-33). The fetched list and the delete outcome are inputs. A failed fetch changes neither report list; the model expresses that by not calling `ShowFetched`.
- The backend's prefix-range and equality queries on name, address and form type (src/App.js:38-46). The fetched list is taken as already filtered by them.
- JavaScript date parsing, `toDate()` and `toLocaleString`. Dates are millisecond timestamps, and an empty date input is `None`. `new Date("YYYY-MM-DD")` yields UTC midnight while `setHours` works in local time; the model treats the end date as the start of the chosen day in one time base and does not model that time-zone offset. A `submittedAt` that is `null` (which JavaScript reads as the epoch) must be passed as `Some(0)`; `None` stands for a value that does not parse (NaN).
- Toast notifications: `ConfirmDelete` returns which toast would appear (`Notice`) instead of showing it.
- Navigation itself (`navigate(route)` in `handleReportClick` and `handlePatientClick`): only the route string is modelled, and only for reports. The patient route `/patient-details/<id>` is a fixed prefix plus the id and is not modelled.
- `ReportDashboard.Dashboard.Previous`, `ReportDashboard.Dashboard.Next`: a disabled button fires no click, so these methods model the click as a no-op when the button is disabled. The buttons exist only while the shown list is not empty, so both methods require it.
- `ReportDashboard.Dashboard.DeleteClick`: Delete buttons sit on the report cards, which exist only while the shown list is not empty, so the method requires it.
- `ReportDashboard.Dashboard.DeleteClick`: the method models `handleDeleteClick` alone, not the whole click. The Delete button (src/App.js:253-258) sits inside the card whose `onClick` opens the report (src/App.js:225-227), and nothing stops the click from reaching the card. So a Delete click also runs `handleReportClick` and navigates to the report's detail route. That leaves the dashboard's route, unmounts the component and discards the `showConfirmation` and `reportToDelete` the handler has just set. The model does not capture this event bubbling: in it, the PIN dialog stays open after the click.
- `ReportDashboard.Dashboard.Paginate`, `PatientList.PatientListView.Paginate`: page buttons are numbered from 1, so these methods require `n >= 1`; the dashboard's buttons exist only while its shown list is not empty, so its method requires that too.
- `ReportDashboard.Dashboard.ConfirmDelete`: the Confirm button exists only while the dialog is open, so the method requires `showConfirmation`.
- `ReportDashboard.Dashboard.ConfirmDelete`: `handleConfirmDelete` is modelled as one atomic step. In the code it awaits `deleteDoc` (src/App.js:124) and only afterwards filters the `reports`, `filteredReports` and `reportToDelete` captured when the dialog was rendered (src/App.js:125-126). The dialog stays open during the await, so the model does not capture: a second Confirm issuing a second delete; Cancel, or a Delete click on another report, running before the first delete completes; and a fetch that completes meanwhile being overwritten by the stale filtered list.
- `JsString.ToLower`: maps only the ASCII letters A-Z. JavaScript's full Unicode case mapping is not modelled.
- `ProgressionReport.GetField`: numbers are integers; floating-point values are not modelled.
- Fields a report or patient carries only for display (vitals, welfare schemes, nested sub-objects, DOB, email and so on) are not part of the records.
- `renderFields` and the detail views (src/ReportDetailsNHCE.jsx, src/ReportDetailsVHC.jsx, src/ReportDetailsDEATH.jsx, src/PatientDetails.js) only render fields with `|| "N/A"` fallbacks.
- Routing, login and route guarding (src/Main.js, src/Login.js, src/PrivateRoute.js), service-worker registration and caching, and static markup (src/Navbar.js, src/Footer.js, src/Contact.js, src/index.js).
- Register-number parsing, diagnosis tokenising, status filtering and sorting: none of the modelled files contains them.
