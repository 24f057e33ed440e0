/**
  `getReportDetailsRoute` of the report dashboard (src/App.js): the path a
  report card navigates to, chosen by the report's `formType`. The detail
  view is a function of the form type alone and the report id is appended as
  the last path segment, so the id and the view can be read back from the
  path (`ParseDetailsRoute`).
 */
module ReportRoutes {
  import opened JsArray
  import opened JsString

  /** The detail pages a report can open; VHC and GVHC reports share one. */
  datatype DetailView =
    | NhcView | NhceView | DhcView | ProgressionView | SocialView
    | VhcView | InvestigationView | DeathView | DefaultView

  /** The nine form types the dashboard offers in its form-type selector. */
  const KnownFormTypes: set<string> :=
    {"NHC", "NHC(E)", "DHC", "PROGRESSION REPORT", "SOCIAL REPORT", "VHC", "GVHC", "INVESTIGATION", "DEATH"}

  /** The detail view a form type opens; a missing or unknown form type opens the default one. */
  function ViewFor(formType: Option<string>): (v: DetailView)
    ensures v == DefaultView <==> !(formType.Some? && formType.value in KnownFormTypes)
    ensures v == VhcView <==> formType == Some("VHC") || formType == Some("GVHC")
  {
    match formType
    case None => DefaultView
    case Some(t) =>
      if t == "NHC" then NhcView
      else if t == "NHC(E)" then NhceView
      else if t == "DHC" then DhcView
      else if t == "PROGRESSION REPORT" then ProgressionView
      else if t == "SOCIAL REPORT" then SocialView
      else if t == "VHC" || t == "GVHC" then VhcView
      else if t == "INVESTIGATION" then InvestigationView
      else if t == "DEATH" then DeathView
      else DefaultView
  }

  /** The fixed path prefix of each detail view's route: a slash, one segment, a slash. */
  function RoutePrefix(v: DetailView): (prefix: string)
  {
    match v
    case NhcView => "/reportsdetailnhc/"
    case NhceView => "/reportsdetailnhce/"
    case DhcView => "/report-details-dhc/"
    case ProgressionView => "/report-details-progression/"
    case SocialView => "/report-details-social/"
    case VhcView => "/report-details-vhc/"
    case InvestigationView => "/report-details-investigation/"
    case DeathView => "/report-details-death/"
    case DefaultView => "/report-details-default/"
  }

  /** The view whose route prefix is `prefix`, if there is one. */
  function ViewOfPrefix(prefix: string): (v: Option<DetailView>)
    ensures v.Some? ==> RoutePrefix(v.value) == prefix
  {
    if prefix == RoutePrefix(NhcView) then Some(NhcView)
    else if prefix == RoutePrefix(NhceView) then Some(NhceView)
    else if prefix == RoutePrefix(DhcView) then Some(DhcView)
    else if prefix == RoutePrefix(ProgressionView) then Some(ProgressionView)
    else if prefix == RoutePrefix(SocialView) then Some(SocialView)
    else if prefix == RoutePrefix(VhcView) then Some(VhcView)
    else if prefix == RoutePrefix(InvestigationView) then Some(InvestigationView)
    else if prefix == RoutePrefix(DeathView) then Some(DeathView)
    else if prefix == RoutePrefix(DefaultView) then Some(DefaultView)
    else None
  }

  /**
    `getReportDetailsRoute(formType, reportId)`: the switch over the nine
    form types, each giving its fixed path prefix followed by the id, and the
    default prefix for anything else (including a missing form type).
   */
  function ReportDetailsRoute(formType: Option<string>, reportId: string): (route: string)
    ensures |route| >= |reportId| + 3 && route[0] == '/'
    ensures route[|route| - |reportId| - 1..] == "/" + reportId
    ensures '/' !in route[1..|route| - |reportId| - 1]
  {
    var prefix := RoutePrefix(ViewFor(formType));
    PrefixShape(ViewFor(formType));
    assert (prefix + reportId)[|prefix| - 1..] == "/" + reportId;
    assert (prefix + reportId)[1..|prefix| - 1] == prefix[1..|prefix| - 1];
    prefix + reportId
  }

  /** A route prefix is a slash, a non-empty segment without slashes, and a slash. */
  lemma PrefixShape(v: DetailView)
    ensures var p := RoutePrefix(v);
      |p| >= 3 && p[0] == '/' && p[|p| - 1] == '/' && '/' !in p[1..|p| - 1]
  {
  }

  /** Reads a detail route back: the prefix up to the second slash names the view, the rest is the id. */
  function ParseDetailsRoute(path: string): (parsed: Option<(DetailView, string)>)
  {
    if path == [] || path[0] != '/' then None
    else
      match IndexOf(path[1..], '/')
      case None => None
      case Some(k) =>
        match ViewOfPrefix(path[..k + 2])
        case None => None
        case Some(v) => Some((v, path[k + 2..]))
  }

  /** Each view's prefix is read back as that view. */
  lemma PrefixRoundTrip(v: DetailView)
    ensures ViewOfPrefix(RoutePrefix(v)) == Some(v)
  {
  }

  /** The route of a report names the report's detail view and ends with the report's id. */
  lemma RouteRoundTrip(formType: Option<string>, reportId: string)
    ensures ParseDetailsRoute(ReportDetailsRoute(formType, reportId)) == Some((ViewFor(formType), reportId))
  {
    var v := ViewFor(formType);
    var p := RoutePrefix(v);
    var path := p + reportId;
    PrefixShape(v);
    var mid := p[1..|p| - 1];
    assert p == "/" + mid + "/";
    assert path[1..] == mid + "/" + reportId;
    IndexOfAfter(mid, '/', reportId);
    assert path[..|mid| + 2] == p;
    PrefixRoundTrip(v);
  }

  /** Two reports get the same route only when they open the same view and have the same id. */
  lemma RoutesDetermineViewAndId(a: Option<string>, x: string, b: Option<string>, y: string)
    requires ReportDetailsRoute(a, x) == ReportDetailsRoute(b, y)
    ensures ViewFor(a) == ViewFor(b) && x == y
  {
    RouteRoundTrip(a, x);
    RouteRoundTrip(b, y);
  }

  /** Apart from VHC and GVHC, different known form types open different views. */
  lemma KnownFormTypesDistinct(a: string, b: string)
    requires a in KnownFormTypes && b in KnownFormTypes
    requires ViewFor(Some(a)) == ViewFor(Some(b))
    ensures a == b || {a, b} == {"VHC", "GVHC"}
  {
  }

  /** The nine fixed prefixes, spelled out; VHC and GVHC share `/report-details-vhc/`. */
  lemma KnownRoutes(reportId: string)
    ensures ReportDetailsRoute(Some("NHC"), reportId) == "/reportsdetailnhc/" + reportId
    ensures ReportDetailsRoute(Some("NHC(E)"), reportId) == "/reportsdetailnhce/" + reportId
    ensures ReportDetailsRoute(Some("DHC"), reportId) == "/report-details-dhc/" + reportId
    ensures ReportDetailsRoute(Some("PROGRESSION REPORT"), reportId) == "/report-details-progression/" + reportId
    ensures ReportDetailsRoute(Some("SOCIAL REPORT"), reportId) == "/report-details-social/" + reportId
    ensures ReportDetailsRoute(Some("VHC"), reportId) == "/report-details-vhc/" + reportId
    ensures ReportDetailsRoute(Some("GVHC"), reportId) == "/report-details-vhc/" + reportId
    ensures ReportDetailsRoute(Some("INVESTIGATION"), reportId) == "/report-details-investigation/" + reportId
    ensures ReportDetailsRoute(Some("DEATH"), reportId) == "/report-details-death/" + reportId
  {
  }

  /** A missing or unrecognised form type falls through to `/report-details-default/<id>`. */
  lemma UnknownFormTypeRoute(formType: Option<string>, reportId: string)
    requires !(formType.Some? && formType.value in KnownFormTypes)
    ensures ReportDetailsRoute(formType, reportId) == "/report-details-default/" + reportId
  {
  }
}
