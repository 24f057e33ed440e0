/**
  The patient list (src/PatientList.js). Unlike the report dashboard, it
  pages first and filters second: the page of six is cut from the whole,
  unfiltered list, the page count comes from the whole list, and only then is
  the search and date predicate applied to the patients on that page.
 */
module PatientList {
  import opened JsArray
  import opened JsString
  import opened Paging

  /** The `basicDetailsModel` sub-record a patient document may carry. */
  datatype BasicDetails = BasicDetails(name: Option<string>, address: Option<string>, phoneNumber: Option<string>)

  /**
    A patient as the list reads it: the document id, the optional basic
    details and the registration time in milliseconds, if any.
   */
  datatype Patient = Patient(id: string, basicDetailsModel: Option<BasicDetails>, registrationDate: Option<int>)

  /** `value || ''`: a missing field reads as the empty string. */
  function OrEmpty(value: Option<string>): string
  {
    match value case None => "" case Some(t) => t
  }

  /** `patient.basicDetailsModel?.name`, or the empty string. */
  function NameText(p: Patient): string
  {
    match p.basicDetailsModel case None => "" case Some(d) => OrEmpty(d.name)
  }

  /** `patient.basicDetailsModel?.address`, or the empty string. */
  function AddressText(p: Patient): string
  {
    match p.basicDetailsModel case None => "" case Some(d) => OrEmpty(d.address)
  }

  /** `patient.basicDetailsModel?.phone_number`, or the empty string. */
  function PhoneText(p: Patient): string
  {
    match p.basicDetailsModel case None => "" case Some(d) => OrEmpty(d.phoneNumber)
  }

  /**
    The search test: the lower-cased name or the lower-cased address contains
    the lower-cased search text, or the phone number contains the search text
    as typed (the phone is not case-folded).
   */
  predicate MatchesSearch(p: Patient, search: string): (matched: bool)
    ensures search == "" ==> matched
    ensures matched <==> (exists i :: OccursAt(ToLower(NameText(p)), ToLower(search), i)
                           || OccursAt(ToLower(AddressText(p)), ToLower(search), i)
                           || OccursAt(PhoneText(p), search, i))
  {
    SearchIncludesIffOccurs(p, search);
    || Includes(ToLower(NameText(p)), ToLower(search))
    || Includes(ToLower(AddressText(p)), ToLower(search))
    || Includes(PhoneText(p), search)
  }

  /** The three `includes` tests of the search, each read as "occurs at some index". */
  lemma SearchIncludesIffOccurs(p: Patient, search: string)
    ensures (|| Includes(ToLower(NameText(p)), ToLower(search))
             || Includes(ToLower(AddressText(p)), ToLower(search))
             || Includes(PhoneText(p), search))
        <==> (exists i :: OccursAt(ToLower(NameText(p)), ToLower(search), i)
                       || OccursAt(ToLower(AddressText(p)), ToLower(search), i)
                       || OccursAt(PhoneText(p), search, i))
  {
    IncludesIffOccurs(ToLower(NameText(p)), ToLower(search));
    IncludesIffOccurs(ToLower(AddressText(p)), ToLower(search));
    IncludesIffOccurs(PhoneText(p), search);
  }

  /**
    The registration time as the date comparisons see it: a missing
    `registrationDate` is `null`, which a relational comparison with a date
    turns into 0 (the epoch).
   */
  function RegistrationTime(p: Patient): (t: int)
    ensures p.registrationDate.None? ==> t == 0
    ensures p.registrationDate.Some? ==> t == p.registrationDate.value
  {
    match p.registrationDate case None => 0 case Some(t) => t
  }

  /**
    The date test: a set start date must be at or before the registration
    time and a set end date at or after it. The end date is the start of the
    chosen day; it is not extended to the end of that day.
   */
  predicate MatchesDates(p: Patient, startDate: Option<int>, endDate: Option<int>): (matched: bool)
    ensures startDate.None? && endDate.None? ==> matched
    ensures matched && startDate.Some? && endDate.Some? ==> startDate.value <= endDate.value
    ensures startDate.Some? && endDate.None? ==> (matched <==> startDate.value <= RegistrationTime(p))
    ensures startDate.None? && endDate.Some? ==> (matched <==> RegistrationTime(p) <= endDate.value)
    ensures startDate.Some? && endDate.Some? ==>
      (matched <==> startDate.value <= RegistrationTime(p) < endDate.value + 1)
  {
    && (startDate.Some? ==> startDate.value <= RegistrationTime(p))
    && (endDate.Some? ==> endDate.value >= RegistrationTime(p))
  }

  /** All conditions together: `matchesSearch && matchesStartDate && matchesEndDate`. */
  predicate Matches(p: Patient, search: string, startDate: Option<int>, endDate: Option<int>): (matched: bool)
    ensures search == "" && startDate.None? && endDate.None? ==> matched
    ensures matched ==> (startDate.Some? && endDate.Some? ==> startDate.value <= endDate.value)
  {
    MatchesSearch(p, search) && MatchesDates(p, startDate, endDate)
  }

  /**
    `filteredPatients`: the patients of page `page` of the whole list that
    match. It draws only on that page, keeps the page's order, and keeps every
    matching patient of the page as often as the page holds it.
   */
  function FilteredPatients(patients: seq<Patient>, page: int, search: string, startDate: Option<int>, endDate: Option<int>): (shown: seq<Patient>)
    ensures |shown| <= PageSize
    ensures IsSubsequence(shown, PageWindow(patients, page))
    ensures forall p :: multiset(shown)[p] == if Matches(p, search, startDate, endDate) then multiset(PageWindow(patients, page))[p] else 0
  {
    var window := PageWindow(patients, page);
    var keep := (p: Patient) => Matches(p, search, startDate, endDate);
    FilterIsSubsequence(window, keep);
    FilterMultiplicity(window, keep);
    Filter(window, keep)
  }

  /** A patient is shown exactly when it is on the current page and matches. */
  lemma ShownIffOnPageAndMatching(patients: seq<Patient>, page: int, search: string, startDate: Option<int>, endDate: Option<int>, p: Patient)
    ensures p in FilteredPatients(patients, page, search, startDate, endDate)
        <==> p in PageWindow(patients, page) && Matches(p, search, startDate, endDate)
  {
    var shown := FilteredPatients(patients, page, search, startDate, endDate);
    var window := PageWindow(patients, page);
    assert p in shown <==> multiset(shown)[p] > 0;
    assert p in window <==> multiset(window)[p] > 0;
  }

  /** With an empty search and no dates set, the whole current page is shown. */
  lemma NoFiltersShowWholePage(patients: seq<Patient>, page: int)
    ensures FilteredPatients(patients, page, "", None, None) == PageWindow(patients, page)
  {
    var window := PageWindow(patients, page);
    FilterKeepsAll(window, (p: Patient) => Matches(p, "", None, None));
  }

  /**
    Patients on other pages are never searched: if nobody on the current page
    matches, nothing is shown, even when patients on other pages would match.
   */
  lemma NoMatchOnPageShowsNothing(patients: seq<Patient>, page: int, search: string, startDate: Option<int>, endDate: Option<int>)
    requires forall i :: 0 <= i < |PageWindow(patients, page)| ==> !Matches(PageWindow(patients, page)[i], search, startDate, endDate)
    ensures FilteredPatients(patients, page, search, startDate, endDate) == []
  {
    var shown := FilteredPatients(patients, page, search, startDate, endDate);
    if shown != [] {
      ShownIffOnPageAndMatching(patients, page, search, startDate, endDate, shown[0]);
      assert false;
    }
  }

  /**
    The name and address tests fold case, the phone test does not: a phone
    number "ab" is found by the search "ab" but not by "AB", while a name "ab"
    is found by "AB".
   */
  lemma PhoneSearchIsNotCaseFolded()
    ensures MatchesSearch(Patient("x", Some(BasicDetails(None, None, Some("ab"))), None), "ab")
    ensures !MatchesSearch(Patient("x", Some(BasicDetails(None, None, Some("ab"))), None), "AB")
    ensures MatchesSearch(Patient("x", Some(BasicDetails(Some("ab"), None, None)), None), "AB")
  {
    assert StartsWith("ab", "ab");
    assert ToLower("AB") == "ab";
    assert ToLower("ab") == "ab";
    assert ToLower("") == "";
    assert !Includes("", "ab");
    assert !Includes("b", "AB");
    assert !Includes("ab", "AB");
  }

  /** Searches that differ only in the case of ASCII letters find the same names and addresses. */
  lemma NameAndAddressSearchIgnoresCase(p: Patient, search: string)
    ensures Includes(ToLower(NameText(p)), ToLower(search)) == Includes(ToLower(NameText(p)), ToLower(ToLower(search)))
    ensures Includes(ToLower(AddressText(p)), ToLower(search)) == Includes(ToLower(AddressText(p)), ToLower(ToLower(search)))
  {
    ToLowerIdempotent(search);
  }

  /**
    Each bound is applied on its own: a start date alone keeps exactly the
    patients registered at or after it, an end date alone exactly those
    registered at or before it. The end date is not extended to the end of
    its day, so a patient registered one millisecond after the end date's
    midnight is excluded by that end date and kept by the same start date.
   */
  lemma EndDateIsNotClamped(p: Patient, s: int, e: int, day: int)
    ensures MatchesDates(p, Some(s), None) <==> s <= RegistrationTime(p)
    ensures MatchesDates(p, None, Some(e)) <==> RegistrationTime(p) <= e
    ensures p.registrationDate == Some(day + 1) ==> !MatchesDates(p, None, Some(day)) && MatchesDates(p, Some(day), None)
  {
  }

  /** A patient without a registration date fails any positive start date and passes any non-negative end date. */
  lemma MissingRegistrationDate(p: Patient, startDate: int, endDate: int)
    requires p.registrationDate.None? && startDate > 0 && endDate >= 0
    ensures !MatchesDates(p, Some(startDate), None)
    ensures MatchesDates(p, None, Some(endDate))
  {
  }

  /** `currentPage > 1 ? currentPage - 1 : 1`: one page back, never below page 1. */
  function PreviousPage(page: int): (previous: int)
    ensures previous >= 1
    ensures page > 1 ==> previous == page - 1
    ensures page <= 1 ==> previous == 1
  {
    if page > 1 then page - 1 else 1
  }

  /**
    `currentPage < totalPages ? currentPage + 1 : totalPages`: one page on,
    never past the last page; with no patients the page becomes 0.
   */
  function NextPage(page: int, totalPages: nat): (next: int)
    ensures next <= totalPages
    ensures page < totalPages ==> next == page + 1
    ensures page >= totalPages ==> next == totalPages
    ensures page >= 0 ==> next >= 0
  {
    if page < totalPages then page + 1 else totalPages
  }

  class PatientListView {
    var patients: seq<Patient>
    var currentPage: int
    var search: string
    var startDate: Option<int>
    var endDate: Option<int>

    /** Page numbers never go negative (Next can reach 0 only when there are no pages). */
    ghost predicate Valid()
      reads this
    {
      currentPage >= 0
    }

    /** The initial state: no patients yet, page 1, empty search, no dates. */
    constructor ()
      ensures Valid()
      ensures patients == [] && currentPage == 1 && search == "" && startDate == None && endDate == None
    {
      patients, currentPage := [], 1;
      search, startDate, endDate := "", None, None;
    }

    /** `currentPatients`: page `currentPage` of the whole, unfiltered list. */
    function CurrentPatients(): (page: seq<Patient>)
      reads this
      requires Valid()
      ensures |page| <= PageSize
      ensures currentPage >= 1 ==> page == patients[Min((currentPage - 1) * PageSize, |patients|)..Min(currentPage * PageSize, |patients|)]
      ensures currentPage == 0 ==> page == []
    {
      PageWindow(patients, currentPage)
    }

    /** `totalPages`: counted over the whole list, whatever the search and dates are. */
    function TotalPages(): (pages: nat)
      reads this
      ensures pages * PageSize >= |patients|
      ensures pages > 0 ==> (pages - 1) * PageSize < |patients|
    {
      PageCount(|patients|)
    }

    /** `filteredPatients`: the matching patients of the current page. */
    function Shown(): (shown: seq<Patient>)
      reads this
      requires Valid()
      ensures |shown| <= PageSize
      ensures IsSubsequence(shown, CurrentPatients())
      ensures forall p :: multiset(shown)[p] == if Matches(p, search, startDate, endDate) then multiset(CurrentPatients())[p] else 0
    {
      FilteredPatients(patients, currentPage, search, startDate, endDate)
    }

    /** The fetch completed: `setPatients(patientData)`; the page is not reset. */
    method Load(fetched: seq<Patient>)
      requires Valid()
      modifies this
      ensures Valid()
      ensures patients == fetched
      ensures currentPage == old(currentPage) && search == old(search)
      ensures startDate == old(startDate) && endDate == old(endDate)
    {
      patients := fetched;
    }

    /** Typing in the search box changes what is shown on the page, not the pages. */
    method SetSearch(text: string)
      requires Valid()
      modifies this
      ensures Valid()
      ensures search == text
      ensures patients == old(patients) && currentPage == old(currentPage)
      ensures startDate == old(startDate) && endDate == old(endDate)
      ensures TotalPages() == old(TotalPages()) && CurrentPatients() == old(CurrentPatients())
    {
      search := text;
    }

    /** Choosing the start and end dates (`None` for a cleared date input). */
    method SetDates(start: Option<int>, end: Option<int>)
      requires Valid()
      modifies this
      ensures Valid()
      ensures startDate == start && endDate == end
      ensures patients == old(patients) && currentPage == old(currentPage) && search == old(search)
      ensures TotalPages() == old(TotalPages()) && CurrentPatients() == old(CurrentPatients())
    {
      startDate, endDate := start, end;
    }

    /** `paginate(index + 1)` from a page button. */
    method Paginate(n: int)
      requires Valid() && n >= 1
      modifies this
      ensures Valid()
      ensures currentPage == n
      ensures patients == old(patients) && search == old(search)
      ensures startDate == old(startDate) && endDate == old(endDate)
    {
      currentPage := n;
    }

    /** The Previous item's click handler. */
    method Previous()
      requires Valid()
      modifies this
      ensures Valid()
      ensures currentPage == PreviousPage(old(currentPage)) && currentPage >= 1
      ensures patients == old(patients) && search == old(search)
      ensures startDate == old(startDate) && endDate == old(endDate)
    {
      currentPage := if currentPage > 1 then currentPage - 1 else 1;
    }

    /** The Next item's click handler. */
    method Next()
      requires Valid()
      modifies this
      ensures Valid()
      ensures currentPage == NextPage(old(currentPage), TotalPages()) && currentPage <= TotalPages()
      ensures patients == old(patients) && search == old(search)
      ensures startDate == old(startDate) && endDate == old(endDate)
    {
      var totalPages := PageCount(|patients|);
      currentPage := if currentPage < totalPages then currentPage + 1 else totalPages;
    }
  }
}
