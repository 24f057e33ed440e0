/**
  The two display helpers of the progression report view
  (src/ProgressionReportDetail.js): `cleanFieldName`, which turns a stored
  field name into a heading, and `getField`, which shows `'Null'` for a
  field that is absent.
 */
module ProgressionReport {
  import opened JsString

  /** The literal that `cleanFieldName` strips from the start of a name. */
  const ReportPrefix: string := "Progression Report."

  /** The prefix is 19 characters long. */
  lemma ReportPrefixLength()
    ensures |ReportPrefix| == 19 && '_' !in ReportPrefix
  {
  }

  /** `.replace(/^Progression Report\./, '')`: the prefix is removed once, and only at the start. */
  function StripReportPrefix(name: string): (rest: string)
    ensures StartsWith(name, ReportPrefix) ==> name == ReportPrefix + rest
    ensures !StartsWith(name, ReportPrefix) ==> rest == name
  {
    if StartsWith(name, ReportPrefix) then name[|ReportPrefix|..] else name
  }

  /** What `/_/g` replacement does to one character. */
  function UnderscoreToSpace(c: char): (d: char)
    ensures d != '_'
    ensures c != '_' ==> d == c
  {
    if c == '_' then ' ' else c
  }

  /** `.replace(/_/g, ' ')`: every underscore becomes a space; nothing else moves or changes. */
  function ReplaceUnderscores(s: string): (r: string)
    ensures |r| == |s|
    ensures forall i :: 0 <= i < |s| ==> r[i] == UnderscoreToSpace(s[i])
    ensures '_' !in r
  {
    if s == [] then [] else [UnderscoreToSpace(s[0])] + ReplaceUnderscores(s[1..])
  }

  /**
    `cleanFieldName`: strip the prefix, then replace underscores. The result
    has no underscore; it is as long as the name less the stripped prefix,
    and its characters are the name's remaining characters in order, with
    underscores turned into spaces.
   */
  function CleanFieldName(fieldName: string): (clean: string)
    ensures '_' !in clean
    ensures |clean| == |fieldName| - (if StartsWith(fieldName, ReportPrefix) then |ReportPrefix| else 0)
    ensures forall i :: 0 <= i < |clean| ==> clean[i] == UnderscoreToSpace(fieldName[i + |fieldName| - |clean|])
  {
    var rest := StripReportPrefix(fieldName);
    assert rest == fieldName[|fieldName| - |rest|..];
    ReplaceUnderscores(rest)
  }

  /** Replacing underscores works piece by piece on a concatenation. */
  lemma ReplaceUnderscoresAppend(a: string, b: string)
    ensures ReplaceUnderscores(a + b) == ReplaceUnderscores(a) + ReplaceUnderscores(b)
  {
    var l, r := ReplaceUnderscores(a + b), ReplaceUnderscores(a) + ReplaceUnderscores(b);
    assert forall i :: 0 <= i < |l| ==> l[i] == r[i] by {
      forall i | 0 <= i < |l|
        ensures l[i] == r[i]
      {
        if i < |a| {
          assert (a + b)[i] == a[i];
        } else {
          assert (a + b)[i] == b[i - |a|];
        }
      }
    }
  }

  /** A string without underscores is left as it is by the replacement. */
  lemma ReplaceUnderscoresNoop(s: string)
    requires '_' !in s
    ensures ReplaceUnderscores(s) == s
  {
    var r := ReplaceUnderscores(s);
    assert forall i :: 0 <= i < |s| ==> r[i] == s[i];
  }

  /** Text without underscores in front of `rest` is kept as it is. */
  lemma ReplaceAfterPlainText(plain: string, rest: string)
    requires '_' !in plain
    ensures ReplaceUnderscores(plain + rest) == plain + ReplaceUnderscores(rest)
  {
    ReplaceUnderscoresAppend(plain, rest);
    ReplaceUnderscoresNoop(plain);
  }

  /** A name that starts with the prefix loses exactly those 19 characters; the rest is only underscore-replaced. */
  lemma StripsPrefix(rest: string)
    ensures CleanFieldName(ReportPrefix + rest) == ReplaceUnderscores(rest)
  {
    assert (ReportPrefix + rest)[..|ReportPrefix|] == ReportPrefix;
    assert StripReportPrefix(ReportPrefix + rest) == rest;
  }

  /** The prefix is stripped once only: a second copy right after the first stays. */
  lemma StripsPrefixOnce(rest: string)
    ensures CleanFieldName(ReportPrefix + (ReportPrefix + rest)) == ReportPrefix + ReplaceUnderscores(rest)
  {
    StripsPrefix(ReportPrefix + rest);
    ReportPrefixLength();
    ReplaceAfterPlainText(ReportPrefix, rest);
  }

  /** A name that neither starts with the prefix nor contains an underscore is returned unchanged. */
  lemma PlainNameUnchanged(fieldName: string)
    requires !StartsWith(fieldName, ReportPrefix) && '_' !in fieldName
    ensures CleanFieldName(fieldName) == fieldName
  {
    ReplaceUnderscoresNoop(fieldName);
  }

  /** Replacing underscores in the prefix spelled with `_` for its space gives back the prefix. */
  lemma UnderscoredPrefix()
    ensures ReportPrefix[11] == ' '
    ensures ReplaceUnderscores(ReportPrefix[11 := '_']) == ReportPrefix
  {
    ReportPrefixLength();
    var spelled := ReportPrefix[11 := '_'];
    var r := ReplaceUnderscores(spelled);
    assert forall i :: 0 <= i < |r| ==> r[i] == ReportPrefix[i];
  }

  /**
    Stripping comes before replacement: a name spelled like the prefix but
    with an underscore for its space (such as "Progression_Report.x") does
    not start with the prefix, so it keeps the prefix's text, the underscore
    turned into a space, instead of losing it.
   */
  lemma StripBeforeReplace(rest: string)
    ensures CleanFieldName(ReportPrefix[11 := '_'] + rest) == ReportPrefix + ReplaceUnderscores(rest)
  {
    var spelled := ReportPrefix[11 := '_'];
    UnderscoredPrefix();
    assert !StartsWith(spelled + rest, ReportPrefix) by {
      assert (spelled + rest)[11] == '_';
    }
    ReplaceUnderscoresAppend(spelled, rest);
  }

  /** The instance named above: "Progression_Report.x" becomes "Progression Report.x", not "x". */
  lemma StripBeforeReplaceExample()
    ensures CleanFieldName("Progression_Report.x") == "Progression Report.x"
  {
    assert "Progression_Report.x" == ReportPrefix[11 := '_'] + "x";
    StripBeforeReplace("x");
    assert ReplaceUnderscores("x") == "x";
  }

  /** The values a document field can hold, as far as display is concerned. */
  datatype JsValue = Undefined | Null | Boolean(b: bool) | Number(n: int) | Text(s: string)

  /** `getField`: a field that is `undefined` is shown as `'Null'`; any other value, `null` included, as itself. */
  function GetField(field: JsValue): (shown: JsValue)
    ensures field != Undefined ==> shown == field
    ensures field == Undefined ==> shown == Text("Null")
  {
    if field != Undefined then field else Text("Null")
  }

  /** `getField` never yields `undefined`, so applying it twice changes nothing. */
  lemma GetFieldIdempotent(field: JsValue)
    ensures GetField(field) != Undefined
    ensures GetField(GetField(field)) == GetField(field)
  {
  }
}
