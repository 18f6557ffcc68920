/** "Verify Fix": find one finding of a scan by its id, re-check it against the
    live target, and say whether it is fixed.
 */
module VerifyFix {
  import opened Wrappers
  import opened HeaderChecks
  import opened HeaderVerification
  import S = Scoring
  import T = Text

  /* Finding the finding. */

  function FindingIdentity(r: S.Row, index: nat): string {
    if r.id != "" then r.id else (if r.tool != "" then r.tool else "finding") + "-" + T.Decimal(index)
  }

  /** The first finding, counted from `start`, that goes by the id. */
  function Resolved(findings: seq<S.Row>, id: string, start: nat): Option<S.Row>
    requires start <= |findings|
    decreases |findings| - start
  {
    if start == |findings| then None
    else if FindingIdentity(findings[start], start) == id then Some(findings[start])
    else Resolved(findings, id, start + 1)
  }

  method ResolveFinding(findings: seq<S.Row>, id: string) returns (found: Option<S.Row>)
    ensures found == Resolved(findings, id, 0)
  {
    for i := 0 to |findings|
      invariant Resolved(findings, id, 0) == Resolved(findings, id, i)
    {
      if FindingIdentity(findings[i], i) == id {
        return Some(findings[i]);
      }
    }
    return None;
  }

  lemma {:induction false} ResolvedIsFirst(findings: seq<S.Row>, id: string, start: nat)
    requires start <= |findings|
    ensures match Resolved(findings, id, start)
            case Some(r) => exists i: nat :: start <= i < |findings| && r == findings[i] && FindingIdentity(r, i) == id
            case None => forall i: nat :: start <= i < |findings| ==> FindingIdentity(findings[i], i) != id
    decreases |findings| - start
  {
    if start < |findings| && FindingIdentity(findings[start], start) != id {
      ResolvedIsFirst(findings, id, start + 1);
    }
  }

  ghost predicate HaveIds(findings: seq<S.Row>) {
    forall i :: 0 <= i < |findings| ==> findings[i].id != ""
  }

  ghost predicate IdsTellApart(findings: seq<S.Row>) {
    forall i, j :: 0 <= i < |findings| && 0 <= j < |findings| && findings[i].id == findings[j].id ==>
        findings[i] == findings[j]
  }

  /** Every finding is found by its id exactly when no two different findings
      share one. */
  lemma EveryIdResolvesIff(findings: seq<S.Row>)
    requires HaveIds(findings)
    ensures (forall i :: 0 <= i < |findings| ==> Resolved(findings, findings[i].id, 0) == Some(findings[i]))
            <==> IdsTellApart(findings)
  {
    if IdsTellApart(findings) {
      forall i | 0 <= i < |findings| ensures Resolved(findings, findings[i].id, 0) == Some(findings[i]) {
        ResolvedIsFirst(findings, findings[i].id, 0);
      }
    }
  }

  lemma SameRowsTellApart(rows: seq<S.Row>, sorted: seq<S.Row>)
    requires HaveIds(rows) && IdsTellApart(rows)
    requires forall i :: 0 <= i < |sorted| ==> sorted[i] in rows
    ensures HaveIds(sorted) && IdsTellApart(sorted)
  {
  }

  lemma ScoredHaveIds(rows: seq<S.Row>)
    requires forall k :: 0 <= k < |rows| ==> rows[k].id == ""
    ensures HaveIds(S.ScoreRows(rows)) && IdsTellApart(S.ScoreRows(rows))
  {
    var scored := S.ScoreRows(rows);
    S.AssignedIdsAreDistinct(rows);
    forall i | 0 <= i < |rows| ensures scored[i].id != "" {
      T.DecimalIsDigits(i);
    }
  }

  lemma SortedRowsAreRows(rows: seq<S.Row>)
    ensures forall k :: 0 <= k < |S.Sorted(S.ScoreRows(rows))| ==> S.Sorted(S.ScoreRows(rows))[k] in S.ScoreRows(rows)
  {
    forall k | 0 <= k < |S.Sorted(S.ScoreRows(rows))| ensures S.Sorted(S.ScoreRows(rows))[k] in S.ScoreRows(rows) {
      var i := S.SortedRowOrigin(rows, k);
      assert S.ScoreRows(rows)[i] == S.ScoreRow(rows[i], i);
    }
  }

  /** Ids assigned by scoring lead back to their finding in the sorted list that
      scoring returns. */
  lemma AssignedIdsResolve(rows: seq<S.Row>, i: nat)
    requires forall k :: 0 <= k < |rows| ==> rows[k].id == ""
    requires i < |rows|
    ensures var scored := S.ScoreRows(rows);
            Resolved(S.Sorted(scored), scored[i].id, 0) == Some(scored[i])
  {
    var scored := S.ScoreRows(rows);
    ScoredHaveIds(rows);
    SortedRowsAreRows(rows);
    SameRowsTellApart(scored, S.Sorted(scored));
    var k := S.SortedRowPlace(rows, i);
    EveryIdResolvesIff(S.Sorted(scored));
  }

  /** Findings without ids are found by their tool and their place in the list. */
  lemma PlacesResolve(findings: seq<S.Row>, i: nat)
    requires i < |findings| && forall k :: 0 <= k < |findings| ==> findings[k].id == ""
    ensures var tool := if findings[i].tool == "" then "finding" else findings[i].tool;
            Resolved(findings, tool + "-" + T.Decimal(i), 0) == Some(findings[i])
  {
    var id := (if findings[i].tool == "" then "finding" else findings[i].tool) + "-" + T.Decimal(i);
    ResolvedIsFirst(findings, id, 0);
    forall k: nat | k < |findings| && FindingIdentity(findings[k], k) == id ensures k == i {
      var tool := if findings[k].tool == "" then "finding" else findings[k].tool;
      T.DashedDecimalInjective(tool, k, if findings[i].tool == "" then "finding" else findings[i].tool, i);
    }
    assert FindingIdentity(findings[i], i) == id;
  }

  /* Verdicts. */

  datatype Tool = AttestedTool | HeaderChecksTool | OtherTool

  datatype Live = Live(status: int, response: Response)

  datatype Verdict = Confirmed | Refuted | ToolAttested | Unreachable

  /** `live` is what fetching the finding's URL gives, `other` the outcome of the
      re-checks for other tools and of searching the response for the finding's
      evidence. */
  function VerifyOne(tool: Tool, f: HeaderFinding, url: string, live: Option<Live>, other: Option<bool>): Verdict {
    if tool.AttestedTool? then ToolAttested
    else if url == "" || live.None? || live.value.status >= 400 then Unreachable
    else
      var recheck := if tool.HeaderChecksTool? then Recheck(f, url, live.value.response) else None;
      match if recheck.Some? then recheck else other
      case None => ToolAttested
      case Some(matched) => if matched then Confirmed else Refuted
  }

  datatype FixResult = Fixed | StillPresent | Changed

  function MapVerifierToFixResult(v: Verdict): FixResult {
    match v
    case Refuted => Fixed
    case Confirmed => StillPresent
    case ToolAttested | Unreachable => Changed
  }

  function FixOf(f: HeaderFinding, url: string, live: Option<Live>, other: Option<bool>): FixResult {
    MapVerifierToFixResult(VerifyOne(HeaderChecksTool, f, url, live, other))
  }

  /** The target answered with something to look at. */
  predicate Reached(url: string, live: Option<Live>) {
    url != "" && live.Some? && live.value.status < 400
  }

  /** What looking at it said, if anything: the re-check of a header finding, else
      whatever the other checks made of it. */
  function Seen(tool: Tool, f: HeaderFinding, url: string, live: Live, other: Option<bool>): Option<bool> {
    if tool.HeaderChecksTool? && !f.issue.OtherIssue? then Recheck(f, url, live.response) else other
  }

  /** A finding is fixed or still present only if its target was reached and its
      condition was looked for: gone, or there. An unreachable target, an attested
      finding and one with nothing to look for are reported as changed. */
  lemma FixIsExact(tool: Tool, f: HeaderFinding, url: string, live: Option<Live>, other: Option<bool>)
    ensures var result := MapVerifierToFixResult(VerifyOne(tool, f, url, live, other));
            if tool.AttestedTool? || !Reached(url, live) then result == Changed
            else
              var seen := Seen(tool, f, url, live.value, other);
              && (result == Fixed <==> seen == Some(false))
              && (result == StillPresent <==> seen == Some(true))
              && (result == Changed <==> seen == None)
  {
    if Reached(url, live) {
      RecheckKnows(f, url, live.value.response);
    }
  }

  lemma RecheckKnows(f: HeaderFinding, url: string, r: Response)
    ensures Recheck(f, url, r).None? <==> f.issue.OtherIssue?
  {
  }

  lemma FixFollowsRecheck(f: HeaderFinding, url: string, live: Live, other: Option<bool>)
    requires url != "" && live.status < 400 && Recheck(f, url, live.response).Some?
    ensures FixOf(f, url, Some(live), other) == (if Recheck(f, url, live.response).value then StillPresent else Fixed)
  {
    var recheck := Recheck(f, url, live.response);
  }

  /** On a live response from an https origin, "fixed" means that a new scan of
      that response would not report the finding, and "still present" that it
      would. A wildcard origin under credentials is the exception: the detector
      reports a graver type, and "fixed" waits for the wildcard to go. */
  lemma FixedMeansNoLongerReported(f: HeaderFinding, url: string, live: Live, other: Option<bool>)
    requires IsHttps(url) && live.status < 400 && !f.issue.OtherIssue?
    ensures var result := FixOf(f, url, Some(live), other);
            && (result == Fixed
                <==> && !ReportedAgain(f, Analysis(url, live.response))
                     && !(f.issue == CorsWildcard && live.response.allowOrigin == "*"))
            && (result == StillPresent <==> result != Fixed)
  {
    var findings := Analysis(url, live.response);
    HttpsInAnyCase(url);
    RecheckKnows(f, url, live.response);
    FixFollowsRecheck(f, url, live, other);
    RecheckedIffReportedAgain(f, url, live.response, findings);
  }

  lemma RecheckedIffReportedAgain(f: HeaderFinding, url: string, r: Response, findings: seq<HeaderFinding>)
    requires IsHttps(url) && ResponseIsHttps(url) && findings == Analysis(url, r)
    ensures Recheck(f, url, r) == Some(true)
            <==> ReportedAgain(f, findings) || (f.issue == CorsWildcard && r.allowOrigin == "*")
  {
    if f.issue == InsecureCookie {
      CookiesReportedAgain(f, url, r);
      CookiesAgree(f, r.setCookies);
    } else {
      DetectorAndRecheckAgree(f, url, r);
      SameIssueSuffices(f, findings);
    }
  }

  lemma SameIssueSuffices(f: HeaderFinding, findings: seq<HeaderFinding>)
    requires f.issue != InsecureCookie
    ensures ReportedAgain(f, findings) <==> Emits(findings, f.issue)
  {
    if Emits(findings, f.issue) {
      var i :| 0 <= i < |findings| && findings[i].issue == f.issue;
      assert SameFinding(f, findings[i]);
    }
  }

  const HTTPS := "https://"

  /** When the re-check of a response over plain http decides as a new scan of it
      would: a cookie whose one flaw is `SameSite=None` without `Secure` comes with
      one of its name that lacks `HttpOnly` or `SameSite`; a transport security
      header, which the detector ignores over http, would pass over https; and no
      wildcard origin is reported as a graver type. */
  ghost predicate DecidesAsOverHttp(f: HeaderFinding, r: Response) {
    match GroupOf(f.issue)
    case CookieGroup =>
      SomeConcerned(f.subject, r.setCookies, OnlyNoneWithoutSecure) ==>
        SomeConcerned(f.subject, r.setCookies, h => !Mentions(h, "httponly") || !Mentions(h, "samesite"))
    case HstsGroup => !Emits(HstsFindings(HTTPS, r.hsts), f.issue)
    case _ => !(OvershadowedWildcard(f.issue, r) && r.allowOrigin == "*")
  }

  /** On a live response over plain http, "fixed" means that a new scan of that
      response would not report the finding exactly in those cases. The answer is
      never "changed". */
  lemma HttpFixedMeansNoLongerReportedIff(f: HeaderFinding, url: string, live: Live, other: Option<bool>)
    requires url != "" && !ResponseIsHttps(url) && live.status < 400 && !f.issue.OtherIssue?
    ensures var result := FixOf(f, url, Some(live), other);
            && ((result == Fixed <==> !ReportedAgain(f, Analysis(url, live.response)))
                <==> DecidesAsOverHttp(f, live.response))
            && (result == StillPresent <==> result != Fixed)
  {
    RecheckKnows(f, url, live.response);
    FixFollowsRecheck(f, url, live, other);
    HttpRecheckDecidesIff(f, url, live.response, Analysis(url, live.response));
  }

  lemma HttpRecheckDecidesIff(f: HeaderFinding, url: string, r: Response, findings: seq<HeaderFinding>)
    requires !ResponseIsHttps(url) && findings == Analysis(url, r)
    ensures (Recheck(f, url, r) == Some(true) <==> ReportedAgain(f, findings)) <==> DecidesAsOverHttp(f, r)
  {
    HttpsInAnyCase(url);
    if f.issue == InsecureCookie {
      HttpDetectorAndRecheckAgreeIff(f, url, r);
    } else {
      DetectorAndRecheckAgree(f, url, r);
      SameIssueSuffices(f, findings);
      HttpHeaderDecidesIff(f, url, r);
    }
  }

  lemma HttpHeaderDecidesIff(f: HeaderFinding, url: string, r: Response)
    requires f.issue != InsecureCookie
    ensures DecidesAsOverHttp(f, r)
            <==> (Recheck(f, url, r) == Some(true) ==>
                    !OvershadowedWildcard(f.issue, r) && GroupOf(f.issue) != HstsGroup)
  {
    HstsAgrees(f, HTTPS, r);
    RecheckIgnoresUrl(f, url, HTTPS, r);
  }

  lemma RecheckIgnoresUrl(f: HeaderFinding, url: string, url': string, r: Response)
    requires f.issue != InsecureCookie
    ensures Recheck(f, url, r) == Recheck(f, url', r)
  {
  }
}
