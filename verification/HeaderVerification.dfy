/** The re-check of a header finding on a live response, the verdict it leads
    to, and what "Verify Fix" makes of the verdict.

    The re-check is a second implementation of the detector's conditions. The
    theorems say how far the two agree.
 */
module HeaderVerification {
  import opened Wrappers
  import opened Findings
  import opened HeaderChecks
  import opened Sequences
  import T = Text

  /** The re-check looks at the scheme of the finding's URL in any letter case. */
  predicate ResponseIsHttps(url: string) {
    T.StartsWith(T.Lower(url), "https://")
  }

  predicate MissingAttribute(https: bool, header: string) {
    || (https && !Mentions(header, "secure"))
    || !Mentions(header, "httponly")
    || !Mentions(header, "samesite")
  }

  /** A finding without a cookie name is held against every cookie. */
  predicate ConcernsCookie(cookie: string, header: string) {
    cookie == "" || T.Lower(CookieName(header)) == T.Lower(cookie)
  }

  predicate StillInsecure(https: bool, cookie: string, setCookies: seq<string>) {
    exists i :: 0 <= i < |setCookies| && ConcernsCookie(cookie, setCookies[i]) && MissingAttribute(https, setCookies[i])
  }

  method RecheckCookies(https: bool, cookie: string, setCookies: seq<string>) returns (matched: bool)
    ensures matched == StillInsecure(https, cookie, setCookies)
  {
    for i := 0 to |setCookies|
      invariant forall k :: 0 <= k < i ==>
                !(ConcernsCookie(cookie, setCookies[k]) && MissingAttribute(https, setCookies[k]))
    {
      if !ConcernsCookie(cookie, setCookies[i]) {
        continue;
      }
      if MissingAttribute(https, setCookies[i]) {
        return true;
      }
    }
    return false;
  }

  /* The re-check's own scan of a content security policy. */

  /** Some source behind the directive's name lets everything in. */
  predicate LetsAllIn(directive: string) {
    var tokens := T.Words(directive);
    exists i :: 1 <= i < |tokens| && tokens[i] in ["*", "https:", "http:"]
  }

  function PermissiveDirective(parts: seq<string>): Option<string> {
    if parts == [] then None
    else
      var directive := T.Strip(parts[0]);
      if directive != "" && LetsAllIn(directive) then Some(directive) else PermissiveDirective(parts[1..])
  }

  method CspHasPermissiveSource(csp: string) returns (directive: Option<string>)
    ensures directive == PermissiveDirective(T.Split(csp, ';'))
  {
    var parts := T.Split(csp, ';');
    for i := 0 to |parts|
      invariant PermissiveDirective(parts) == PermissiveDirective(parts[i..])
    {
      assert parts[i..][0] == parts[i] && parts[i..][1..] == parts[i + 1..];
      var text := T.Strip(parts[i]);
      if text == "" {
        continue;
      }
      var broad := AnyLetsAllIn(text);
      if broad {
        return Some(text);
      }
    }
    return None;
  }

  method AnyLetsAllIn(directive: string) returns (broad: bool)
    ensures broad == LetsAllIn(directive)
  {
    var tokens := T.Words(directive);
    var i := 1;
    while i < |tokens|
      invariant 1 <= i
      invariant forall k :: 1 <= k < i && k < |tokens| ==> tokens[k] !in ["*", "https:", "http:"]
    {
      if tokens[i] in ["*", "https:", "http:"] {
        return true;
      }
      i := i + 1;
    }
    return false;
  }

  lemma BroadAmongRest(tokens: seq<string>)
    ensures tokens != [] ==>
              ((exists source :: source in tokens[1..] && BroadSource(source))
               <==> exists i :: 1 <= i < |tokens| && tokens[i] in ["*", "https:", "http:"])
  {
    if tokens != [] {
      if source :| source in tokens[1..] && BroadSource(source) {
        var j :| 0 <= j < |tokens[1..]| && tokens[1..][j] == source;
        assert tokens[j + 1] == source;
      }
      if i :| 1 <= i < |tokens| && tokens[i] in ["*", "https:", "http:"] {
        assert tokens[1..][i - 1] == tokens[i];
        assert BroadSource(tokens[i]);
      }
    }
  }

  /** Segment by segment, the two scans judge alike. */
  lemma SegmentsAgree(segment: string)
    ensures Permissive(segment) <==> T.Strip(segment) != "" && LetsAllIn(T.Strip(segment))
  {
    var directive := T.Strip(segment);
    if directive == "" {
      assert T.Words(directive) == [];
    }
    BroadAmongRest(T.Words(directive));
  }

  /** So they stop at the same directive, for every policy. */
  lemma {:induction false} ScansAgree(segments: seq<string>)
    ensures PermissiveDirective(segments) == FirstPermissive(segments)
  {
    if segments != [] {
      SegmentsAgree(segments[0]);
      ScansAgree(segments[1..]);
    }
  }

  /** Whether the finding's condition is there in a live response; nothing for a
      type the re-check does not know. */
  function Recheck(f: HeaderFinding, url: string, r: Response): Option<bool> {
    match f.issue
    case MissingCsp => Some(r.csp == "")
    case CspUnsafeInline => Some(T.Contains(r.csp, "'unsafe-inline'"))
    case CspUnsafeEval => Some(T.Contains(r.csp, "'unsafe-eval'"))
    case CspOverlyPermissive => Some(PermissiveDirective(T.Split(r.csp, ';')).Some?)
    case MissingHsts => Some(r.hsts == "")
    case WeakHstsMaxAge => Some(r.hsts != "" && Short(ParseHsts(r.hsts).maxAge))
    case MissingHstsIncludeSubdomains => Some(r.hsts != "" && !ParseHsts(r.hsts).includeSubdomains)
    case MissingHstsPreload => Some(r.hsts != "" && !ParseHsts(r.hsts).preload)
    case MissingXFrameOptions => Some(r.xFrameOptions == "" && !T.Contains(T.Lower(r.csp), "frame-ancestors"))
    case DeprecatedXFrameOptions => Some(T.StartsWith(T.Upper(T.Strip(r.xFrameOptions)), "ALLOW-FROM"))
    case InvalidXFrameOptions =>
      var value := T.Upper(T.Strip(r.xFrameOptions));
      Some(r.xFrameOptions != "" && value != "DENY" && value != "SAMEORIGIN" && !T.StartsWith(value, "ALLOW-FROM"))
    case MissingXContentTypeOptions => Some(r.xContentTypeOptions == "")
    case InvalidXContentTypeOptions => Some(r.xContentTypeOptions != ""
        && T.Strip(T.Lower(r.xContentTypeOptions)) != "nosniff")
    case CorsWildcard => Some(r.allowOrigin == "*")
    case CorsWildcardWithCredentials => Some(r.allowOrigin == "*" && T.Lower(r.allowCredentials) == "true")
    case CorsNullOrigin => Some(r.allowOrigin == "null")
    case InsecureCookie => Some(StillInsecure(ResponseIsHttps(url), f.subject, r.setCookies))
    case ServerVersionDisclosure => Some(DisclosesVersion(r.server))
    case XPoweredByDisclosure => Some(r.poweredBy != "")
    case MissingReferrerPolicy => Some(r.referrerPolicy == "")
    case WeakReferrerPolicy => Some(T.Strip(T.Lower(r.referrerPolicy)) == "unsafe-url")
    case OtherIssue(_) => None
  }

  /* Which group of checks an issue belongs to. */

  datatype Group = CspGroup | HstsGroup | FrameGroup | ContentTypeGroup | CorsGroup | CookieGroup | OtherGroup | NoGroup

  function GroupOf(issue: Issue): Group {
    match issue
    case MissingCsp | CspUnsafeInline | CspUnsafeEval | CspOverlyPermissive => CspGroup
    case MissingHsts | WeakHstsMaxAge | MissingHstsIncludeSubdomains | MissingHstsPreload => HstsGroup
    case MissingXFrameOptions | DeprecatedXFrameOptions | InvalidXFrameOptions => FrameGroup
    case MissingXContentTypeOptions | InvalidXContentTypeOptions => ContentTypeGroup
    case CorsWildcard | CorsWildcardWithCredentials | CorsNullOrigin => CorsGroup
    case InsecureCookie => CookieGroup
    case ServerVersionDisclosure | XPoweredByDisclosure | MissingReferrerPolicy | WeakReferrerPolicy => OtherGroup
    case OtherIssue(_) => NoGroup
  }

  ghost predicate Emits(findings: seq<HeaderFinding>, issue: Issue) {
    exists i :: 0 <= i < |findings| && findings[i].issue == issue
  }

  lemma EmitsEither(a: seq<HeaderFinding>, b: seq<HeaderFinding>, issue: Issue)
    ensures Emits(a + b, issue) <==> Emits(a, issue) || Emits(b, issue)
  {
    if Emits(a, issue) {
      var i :| 0 <= i < |a| && a[i].issue == issue;
      assert (a + b)[i].issue == issue;
    }
    if Emits(b, issue) {
      var i :| 0 <= i < |b| && b[i].issue == issue;
      assert (a + b)[|a| + i].issue == issue;
    }
  }

  lemma EmitsWhen(condition: bool, f: HeaderFinding, issue: Issue)
    ensures Emits(When(condition, f), issue) <==> condition && f.issue == issue
  {
    if condition {
      assert When(condition, f)[0] == f;
    }
  }

  lemma EmitsThree(a: seq<HeaderFinding>, b: seq<HeaderFinding>, c: seq<HeaderFinding>, issue: Issue)
    ensures Emits(a + b + c, issue) <==> Emits(a, issue) || Emits(b, issue) || Emits(c, issue)
  {
    EmitsEither(a + b, c, issue);
    EmitsEither(a, b, issue);
  }

  lemma CspAgrees(f: HeaderFinding, url: string, r: Response)
    ensures Emits(CspFindings(r.csp), f.issue) <==> GroupOf(f.issue) == CspGroup && Recheck(f, url, r) == Some(true)
  {
    var inline, eval := T.Contains(r.csp, "'unsafe-inline'"), T.Contains(r.csp, "'unsafe-eval'");
    var found := FirstPermissive(T.Split(r.csp, ';'));
    ScansAgree(T.Split(r.csp, ';'));
    NothingInEmptyCsp(r.csp);
    EmitsWhen(true, Plain(MissingCsp, Medium), f.issue);
    EmitsWhen(inline, Plain(CspUnsafeInline, Medium), f.issue);
    EmitsWhen(eval, Plain(CspUnsafeEval, Medium), f.issue);
    EmitsWhen(found.Some?, HeaderFinding(CspOverlyPermissive, Medium, if found.Some? then found.value else "", []),
        f.issue);
    EmitsThree(When(inline, Plain(CspUnsafeInline, Medium)), When(eval, Plain(CspUnsafeEval, Medium)),
        PermissiveFindings(r.csp), f.issue);
  }

  lemma NothingInEmptyCsp(csp: string)
    ensures csp == "" ==> !T.Contains(csp, "'unsafe-inline'") && !T.Contains(csp, "'unsafe-eval'")
    ensures csp == "" ==> FirstPermissive(T.Split(csp, ';')) == None
  {
  }

  lemma HstsAgrees(f: HeaderFinding, url: string, r: Response)
    ensures Emits(HstsFindings(url, r.hsts), f.issue)
            <==> GroupOf(f.issue) == HstsGroup && IsHttps(url) && Recheck(f, url, r) == Some(true)
  {
    var p := ParseHsts(r.hsts);
    EmitsWhen(true, Plain(MissingHsts, Medium), f.issue);
    WeaknessesEmit(p, f.issue);
  }

  lemma WeaknessesEmit(p: Hsts, issue: Issue)
    ensures Emits(HstsWeaknesses(p), issue)
            <==> || (issue == WeakHstsMaxAge && Short(p.maxAge))
                 || (issue == MissingHstsIncludeSubdomains && !p.includeSubdomains)
                 || (issue == MissingHstsPreload && !p.preload)
  {
    EmitsWhen(Short(p.maxAge), Plain(WeakHstsMaxAge, Low), issue);
    EmitsWhen(!p.includeSubdomains, Plain(MissingHstsIncludeSubdomains, Low), issue);
    EmitsWhen(!p.preload, Plain(MissingHstsPreload, Info), issue);
    EmitsThree(When(Short(p.maxAge), Plain(WeakHstsMaxAge, Low)),
               When(!p.includeSubdomains, Plain(MissingHstsIncludeSubdomains, Low)),
               When(!p.preload, Plain(MissingHstsPreload, Info)), issue);
  }

  lemma FramesAgree(f: HeaderFinding, url: string, r: Response)
    ensures Emits(XFrameOptionsFindings(r.xFrameOptions, r.csp), f.issue)
            <==> GroupOf(f.issue) == FrameGroup && Recheck(f, url, r) == Some(true)
  {
    var value := T.Upper(T.Strip(r.xFrameOptions));
    assert r.xFrameOptions == "" ==> value == "";
    assert T.StartsWith(value, "ALLOW-FROM") ==> |value| >= 10;
    EmitsWhen(!T.Contains(T.Lower(r.csp), "frame-ancestors"), Plain(MissingXFrameOptions, Medium), f.issue);
    EmitsWhen(true, Plain(DeprecatedXFrameOptions, Low), f.issue);
    EmitsWhen(value != "DENY" && value != "SAMEORIGIN", Plain(InvalidXFrameOptions, Low), f.issue);
  }

  lemma ContentTypeAgrees(f: HeaderFinding, url: string, r: Response)
    ensures Emits(XContentTypeOptionsFindings(r.xContentTypeOptions), f.issue)
            <==> GroupOf(f.issue) == ContentTypeGroup && Recheck(f, url, r) == Some(true)
  {
    EmitsWhen(true, Plain(MissingXContentTypeOptions, Low), f.issue);
    EmitsWhen(T.Strip(T.Lower(r.xContentTypeOptions)) != "nosniff", Plain(InvalidXContentTypeOptions, Low), f.issue);
  }

  /** The one type on which the two differ: under credentials the detector
      reports the graver finding instead, the re-check still sees a wildcard. */
  predicate OvershadowedWildcard(issue: Issue, r: Response) {
    issue == CorsWildcard && T.Lower(r.allowCredentials) == "true"
  }

  lemma CorsAgrees(f: HeaderFinding, url: string, r: Response)
    ensures Emits(CorsFindings(r.allowOrigin, r.allowCredentials), f.issue)
            <==> GroupOf(f.issue) == CorsGroup && Recheck(f, url, r) == Some(true) && !OvershadowedWildcard(f.issue, r)
  {
    var wildcard := if r.allowOrigin != "*" then []
                    else if T.Lower(r.allowCredentials) == "true" then [Plain(CorsWildcardWithCredentials, Medium)]
                    else [Plain(CorsWildcard, Low)];
    EmitsEither(wildcard, When(r.allowOrigin == "null", Plain(CorsNullOrigin, Medium)), f.issue);
    EmitsWhen(true, Plain(CorsWildcardWithCredentials, Medium), f.issue);
    EmitsWhen(true, Plain(CorsWildcard, Low), f.issue);
    EmitsWhen(r.allowOrigin == "null", Plain(CorsNullOrigin, Medium), f.issue);
  }

  lemma ServerEmits(server: string, issue: Issue)
    ensures Emits(ServerFindings(server), issue) <==> issue == ServerVersionDisclosure && DisclosesVersion(server)
  {
    EmitsWhen(server != "" && DisclosesVersion(server), Plain(ServerVersionDisclosure, Info), issue);
    if server == "" {
      forall i | 0 <= i < |VERSION_INDICATORS| ensures !T.Contains(T.Lower(server), VERSION_INDICATORS[i]) {
        assert VERSION_INDICATORS[i] != "";
      }
    }
  }

  lemma ReferrerEmits(f: HeaderFinding, url: string, r: Response)
    ensures Emits(ReferrerFindings(r.referrerPolicy), f.issue)
            <==> (f.issue == MissingReferrerPolicy || f.issue == WeakReferrerPolicy) && Recheck(f, url, r) == Some(true)
  {
    assert r.referrerPolicy == "" ==> T.Strip(T.Lower(r.referrerPolicy)) == "";
    EmitsWhen(true, Plain(MissingReferrerPolicy, Info), f.issue);
    EmitsWhen(T.Strip(T.Lower(r.referrerPolicy)) == "unsafe-url", Plain(WeakReferrerPolicy, Low), f.issue);
  }

  lemma OthersAgree(f: HeaderFinding, url: string, r: Response)
    ensures Emits(OtherFindings(r.server, r.poweredBy, r.referrerPolicy), f.issue)
            <==> GroupOf(f.issue) == OtherGroup && Recheck(f, url, r) == Some(true)
  {
    EmitsThree(ServerFindings(r.server), When(r.poweredBy != "", Plain(XPoweredByDisclosure, Info)),
               ReferrerFindings(r.referrerPolicy), f.issue);
    ServerEmits(r.server, f.issue);
    EmitsWhen(r.poweredBy != "", Plain(XPoweredByDisclosure, Info), f.issue);
    ReferrerEmits(f, url, r);
  }

  /* Cookies. */

  /** What is wrong with a cookie, in the detector's and in the re-check's terms. */
  lemma FlagsAreMissingAttributes(https: bool, header: string)
    ensures CookieFlags(https, header) != []
            <==> MissingAttribute(https, header) || (Mentions(header, "samesite=none") && !Mentions(header, "secure"))
  {
  }

  lemma CookieFindingOrigin(https: bool, setCookies: seq<string>, f: HeaderFinding) returns (k: nat)
    requires f in CookieFindings(https, setCookies)
    ensures k < |setCookies| && CookieFlags(https, setCookies[k]) != [] && f == CookieFinding(https, setCookies[k])
  {
    k := FlattenOrigin(CookieReports(https, setCookies), f);
    assert f in CookieReport(https, setCookies[k]);
  }

  lemma BadCookieIsFound(https: bool, setCookies: seq<string>, k: nat)
    requires k < |setCookies| && CookieFlags(https, setCookies[k]) != []
    ensures CookieFinding(https, setCookies[k]) in CookieFindings(https, setCookies)
  {
    assert CookieReports(https, setCookies)[k] == CookieReport(https, setCookies[k]);
    assert CookieFinding(https, setCookies[k]) in CookieReport(https, setCookies[k]);
    FlattenHas(CookieReports(https, setCookies), k, CookieFinding(https, setCookies[k]));
  }

  /** The finding is among `findings` once more, by type and, for a cookie, by
      the cookie's name in any letter case. */
  ghost predicate ReportedAgain(f: HeaderFinding, findings: seq<HeaderFinding>) {
    exists i :: 0 <= i < |findings| && SameFinding(f, findings[i])
  }

  predicate SameFinding(f: HeaderFinding, g: HeaderFinding) {
    g.issue == f.issue && (f.issue == InsecureCookie ==> f.subject == "" || T.Lower(g.subject) == T.Lower(f.subject))
  }

  lemma HttpsInAnyCase(url: string)
    ensures IsHttps(url) ==> ResponseIsHttps(url)
  {
    if IsHttps(url) {
      var scheme := "https://";
      assert |T.Lower(url)| == |url|;
      forall i | 0 <= i < |scheme| ensures T.Lower(url)[i] == scheme[i] {
        assert url[i] == scheme[i];
      }
      assert T.Lower(url)[..8] == scheme;
    }
  }

  /** The detector reports the finding again exactly when a cookie it concerns has
      a flaw. */
  lemma CookieReportedIff(https: bool, f: HeaderFinding, setCookies: seq<string>)
    requires f.issue == InsecureCookie
    ensures ReportedAgain(f, CookieFindings(https, setCookies))
            <==> exists k :: 0 <= k < |setCookies| && ConcernsCookie(f.subject, setCookies[k])
                             && CookieFlags(https, setCookies[k]) != []
  {
    var findings := CookieFindings(https, setCookies);
    if ReportedAgain(f, findings) {
      var i :| 0 <= i < |findings| && SameFinding(f, findings[i]);
      var k := CookieFindingOrigin(https, setCookies, findings[i]);
      assert ConcernsCookie(f.subject, setCookies[k]);
    }
    if k :| && 0 <= k < |setCookies|
            && ConcernsCookie(f.subject, setCookies[k])
            && CookieFlags(https, setCookies[k]) != []
    {
      BadCookieIsFound(https, setCookies, k);
      var i :| 0 <= i < |findings| && findings[i] == CookieFinding(https, setCookies[k]);
      assert SameFinding(f, findings[i]);
    }
  }

  /** Over https the re-check confirms a cookie finding exactly when the detector
      reports a cookie of that name. */
  lemma CookiesAgree(f: HeaderFinding, setCookies: seq<string>)
    requires f.issue == InsecureCookie
    ensures StillInsecure(true, f.subject, setCookies) <==> ReportedAgain(f, CookieFindings(true, setCookies))
  {
    CookieReportedIff(true, f, setCookies);
    forall k | 0 <= k < |setCookies|
      ensures MissingAttribute(true, setCookies[k]) <==> CookieFlags(true, setCookies[k]) != []
    {
      FlagsAreMissingAttributes(true, setCookies[k]);
    }
  }

  /** The one flaw over http that is no missing attribute. */
  predicate OnlyNoneWithoutSecure(header: string) {
    && Mentions(header, "httponly") && Mentions(header, "samesite")
    && Mentions(header, "samesite=none") && !Mentions(header, "secure")
  }

  lemma HttpFlaws(header: string)
    ensures CookieFlags(false, header) != [] <==> MissingAttribute(false, header) || OnlyNoneWithoutSecure(header)
    ensures MissingAttribute(false, header) <==> !Mentions(header, "httponly") || !Mentions(header, "samesite")
  {
  }

  ghost predicate SomeConcerned(cookie: string, setCookies: seq<string>, flawed: string -> bool) {
    exists k :: 0 <= k < |setCookies| && ConcernsCookie(cookie, setCookies[k]) && flawed(setCookies[k])
  }

  lemma HttpCookiesAgreeIff(f: HeaderFinding, setCookies: seq<string>)
    requires f.issue == InsecureCookie
    ensures (ReportedAgain(f, CookieFindings(false, setCookies)) <==> StillInsecure(false, f.subject, setCookies))
            <==> (SomeConcerned(f.subject, setCookies, OnlyNoneWithoutSecure) ==>
                    SomeConcerned(f.subject, setCookies, h => !Mentions(h, "httponly") || !Mentions(h, "samesite")))
  {
    CookieReportedIff(false, f, setCookies);
    forall k | 0 <= k < |setCookies|
      ensures CookieFlags(false, setCookies[k]) != []
              <==> MissingAttribute(false, setCookies[k]) || OnlyNoneWithoutSecure(setCookies[k])
      ensures MissingAttribute(false, setCookies[k])
              <==> !Mentions(setCookies[k], "httponly") || !Mentions(setCookies[k], "samesite")
    {
      HttpFlaws(setCookies[k]);
    }
  }

  lemma ExampleAttributes(lower: string)
    requires lower == "a=b; httponly; samesite=none"
    ensures T.Contains(lower, "httponly") && T.Contains(lower, "samesite") && T.Contains(lower, "samesite=none")
  {
    assert "httponly" <= lower[5..];
    T.ContainsAt(lower, "httponly", 5);
    assert "samesite=none" <= lower[15..];
    T.ContainsAt(lower, "samesite=none", 15);
    assert "samesite" <= lower[15..];
    T.ContainsAt(lower, "samesite", 15);
  }

  lemma ExampleIsNotSecure(lower: string)
    requires lower == "a=b; httponly; samesite=none"
    ensures !T.Contains(lower, "secure")
  {
    assert "secure"[3] == 'u';
    T.LacksLetter(lower, "secure", 'u');
  }

  lemma ExampleLower(header: string, lower: string)
    requires header == "a=b; HttpOnly; SameSite=None" && lower == "a=b; httponly; samesite=none"
    ensures T.Lower(header) == lower
  {
    forall i | 0 <= i < |header| ensures T.LowerChar(header[i]) == lower[i] {
    }
  }

  lemma ExampleName(header: string)
    requires header == "a=b; HttpOnly; SameSite=None"
    ensures CookieName(header) == "a"
  {
    T.BeforeStops("a", '=', "=b; HttpOnly; SameSite=None");
    assert header == "a" + "=b; HttpOnly; SameSite=None";
    assert T.StripLeft("a") == "a" && T.StripRight("a") == "a";
  }

  lemma ExampleFlags(header: string, lower: string)
    requires header == "a=b; HttpOnly; SameSite=None" && lower == "a=b; httponly; samesite=none"
    ensures CookieFlags(false, header) == [SameSiteNoneRequiresSecure] && !MissingAttribute(false, header)
  {
    ExampleLower(header, lower);
    ExampleAttributes(lower);
    ExampleIsNotSecure(lower);
  }

  /* Agreement. */

  lemma AnalysisEmits(url: string, r: Response, issue: Issue)
    ensures Emits(Analysis(url, r), issue)
            <==> || Emits(CspFindings(r.csp), issue)
                 || Emits(HstsFindings(url, r.hsts), issue)
                 || Emits(XFrameOptionsFindings(r.xFrameOptions, r.csp), issue)
                 || Emits(XContentTypeOptionsFindings(r.xContentTypeOptions), issue)
                 || Emits(CorsFindings(r.allowOrigin, r.allowCredentials), issue)
                 || Emits(CookieFindings(IsHttps(url), r.setCookies), issue)
                 || Emits(OtherFindings(r.server, r.poweredBy, r.referrerPolicy), issue)
  {
    var three := CspFindings(r.csp) + HstsFindings(url, r.hsts) + XFrameOptionsFindings(r.xFrameOptions, r.csp);
    var five := three + XContentTypeOptionsFindings(r.xContentTypeOptions)
        + CorsFindings(r.allowOrigin, r.allowCredentials);
    EmitsThree(CspFindings(r.csp), HstsFindings(url, r.hsts), XFrameOptionsFindings(r.xFrameOptions, r.csp), issue);
    EmitsThree(three, XContentTypeOptionsFindings(r.xContentTypeOptions),
        CorsFindings(r.allowOrigin, r.allowCredentials), issue);
    EmitsThree(five, CookieFindings(IsHttps(url), r.setCookies),
        OtherFindings(r.server, r.poweredBy, r.referrerPolicy), issue);
  }

  lemma OnlyCookiesAreCookies(https: bool, setCookies: seq<string>, issue: Issue)
    ensures Emits(CookieFindings(https, setCookies), issue) ==> issue == InsecureCookie
  {
    if Emits(CookieFindings(https, setCookies), issue) {
      var i :| 0 <= i < |CookieFindings(https, setCookies)| && CookieFindings(https, setCookies)[i].issue == issue;
      var _ := CookieFindingOrigin(https, setCookies, CookieFindings(https, setCookies)[i]);
    }
  }

  /** For every response and every type but cookies: the detector emits the type
      exactly when the re-check confirms it. Header findings need an https URL
      only for HSTS; a wildcard under credentials is the one exception. */
  lemma DetectorAndRecheckAgree(f: HeaderFinding, url: string, r: Response)
    requires f.issue != InsecureCookie
    ensures Emits(Analysis(url, r), f.issue)
            <==> && Recheck(f, url, r) == Some(true)
                 && !OvershadowedWildcard(f.issue, r)
                 && (GroupOf(f.issue) == HstsGroup ==> IsHttps(url))
  {
    AnalysisEmits(url, r, f.issue);
    CspAgrees(f, url, r);
    HstsAgrees(f, url, r);
    FramesAgree(f, url, r);
    ContentTypeAgrees(f, url, r);
    CorsAgrees(f, url, r);
    OthersAgree(f, url, r);
    OnlyCookiesAreCookies(IsHttps(url), r.setCookies, f.issue);
  }

  lemma ReportedEither(f: HeaderFinding, a: seq<HeaderFinding>, b: seq<HeaderFinding>)
    ensures ReportedAgain(f, a + b) <==> ReportedAgain(f, a) || ReportedAgain(f, b)
  {
    if ReportedAgain(f, a) {
      var i :| 0 <= i < |a| && SameFinding(f, a[i]);
      assert SameFinding(f, (a + b)[i]);
    }
    if ReportedAgain(f, b) {
      var i :| 0 <= i < |b| && SameFinding(f, b[i]);
      assert SameFinding(f, (a + b)[|a| + i]);
    }
  }

  lemma OtherGroupsReportNoCookies(f: HeaderFinding, url: string, r: Response)
    requires f.issue == InsecureCookie
    ensures !Emits(CspFindings(r.csp), f.issue) && !Emits(HstsFindings(url, r.hsts), f.issue)
    ensures !Emits(XFrameOptionsFindings(r.xFrameOptions, r.csp), f.issue)
    ensures !Emits(XContentTypeOptionsFindings(r.xContentTypeOptions), f.issue)
    ensures !Emits(CorsFindings(r.allowOrigin, r.allowCredentials), f.issue)
    ensures !Emits(OtherFindings(r.server, r.poweredBy, r.referrerPolicy), f.issue)
  {
    CspAgrees(f, url, r);
    HstsAgrees(f, url, r);
    FramesAgree(f, url, r);
    ContentTypeAgrees(f, url, r);
    CorsAgrees(f, url, r);
    OthersAgree(f, url, r);
  }

  lemma CookiesReportedAgain(f: HeaderFinding, url: string, r: Response)
    requires f.issue == InsecureCookie
    ensures ReportedAgain(f, Analysis(url, r)) <==> ReportedAgain(f, CookieFindings(IsHttps(url), r.setCookies))
  {
    var csp, hsts := CspFindings(r.csp), HstsFindings(url, r.hsts);
    var xfo, xcto := XFrameOptionsFindings(r.xFrameOptions, r.csp), XContentTypeOptionsFindings(r.xContentTypeOptions);
    var cors, cookies := CorsFindings(r.allowOrigin, r.allowCredentials), CookieFindings(IsHttps(url), r.setCookies);
    var others := OtherFindings(r.server, r.poweredBy, r.referrerPolicy);
    OtherGroupsReportNoCookies(f, url, r);
    ReportedEither(f, csp + hsts + xfo + xcto + cors + cookies, others);
    ReportedEither(f, csp + hsts + xfo + xcto + cors, cookies);
    ReportedEither(f, csp + hsts + xfo + xcto, cors);
    ReportedEither(f, csp + hsts + xfo, xcto);
    ReportedEither(f, csp + hsts, xfo);
    ReportedEither(f, csp, hsts);
  }

  /** Whatever the detector reports at an https origin, the re-check confirms on
      the same response. Away from https this still holds of every finding that
      is not about a cookie. */
  lemma EmittedIsConfirmed(url: string, r: Response, i: nat)
    requires i < |Analysis(url, r)|
    requires IsHttps(url) || Analysis(url, r)[i].issue != InsecureCookie
    ensures Recheck(Analysis(url, r)[i], url, r) == Some(true)
  {
    var findings := Analysis(url, r);
    var f := findings[i];
    if f.issue == InsecureCookie {
      assert SameFinding(f, findings[i]);
      ReportedCookieIsConfirmed(f, url, r, findings);
    } else {
      assert Emits(findings, f.issue);
      DetectorAndRecheckAgree(f, url, r);
    }
  }

  lemma ReportedCookieIsConfirmed(f: HeaderFinding, url: string, r: Response, findings: seq<HeaderFinding>)
    requires IsHttps(url) && f.issue == InsecureCookie && findings == Analysis(url, r) && ReportedAgain(f, findings)
    ensures Recheck(f, url, r) == Some(true)
  {
    CookiesReportedAgain(f, url, r);
    CookiesAgree(f, r.setCookies);
    HttpsInAnyCase(url);
  }

  /** Over plain http the detector also reports a cookie whose one flaw is
      `SameSite=None` without `Secure`, and the re-check does not see that. The two
      agree on a cookie finding exactly when a cookie with that flaw alone comes
      with one of the same name that lacks `HttpOnly` or `SameSite`. */
  lemma HttpDetectorAndRecheckAgreeIff(f: HeaderFinding, url: string, r: Response)
    requires !ResponseIsHttps(url) && f.issue == InsecureCookie
    ensures (ReportedAgain(f, Analysis(url, r)) <==> Recheck(f, url, r) == Some(true))
            <==> (SomeConcerned(f.subject, r.setCookies, OnlyNoneWithoutSecure) ==>
                    SomeConcerned(f.subject, r.setCookies, h => !Mentions(h, "httponly") || !Mentions(h, "samesite")))
  {
    HttpsInAnyCase(url);
    CookiesReportedAgain(f, url, r);
    RecheckedCookie(f, url, r);
    HttpCookiesAgreeIff(f, r.setCookies);
  }

  /** The re-check takes a URL for https if its first eight characters spell it in any
      letter case. */
  lemma HttpsSpelled(url: string)
    ensures ResponseIsHttps(url) <==> |url| >= 8 && T.Lower(url[..8]) == "https://"
  {
    assert |T.Lower(url)| == |url|;
    if |url| >= 8 {
      assert T.Lower(url)[..8] == T.Lower(url[..8]);
    }
  }

  /** What is wrong with a cookie over plain http. */
  predicate FlawedOverHttp(header: string) {
    !Mentions(header, "httponly") || !Mentions(header, "samesite") || OnlyNoneWithoutSecure(header)
  }

  lemma UpperCaseFlaws(header: string)
    ensures CookieFlags(false, header) != [] <==> FlawedOverHttp(header)
    ensures MissingAttribute(true, header) <==> FlawedOverHttp(header) || !Mentions(header, "secure")
  {
    HttpFlaws(header);
  }

  /** The detector takes such a URL for https only in lower case. In any other case the
      two agree on a cookie finding exactly when a cookie without `Secure` comes with
      one of its name that is flawed over http already. */
  lemma UpperCaseDetectorAndRecheckAgreeIff(f: HeaderFinding, url: string, r: Response)
    requires ResponseIsHttps(url) && !IsHttps(url) && f.issue == InsecureCookie
    ensures (ReportedAgain(f, Analysis(url, r)) <==> Recheck(f, url, r) == Some(true))
            <==> (SomeConcerned(f.subject, r.setCookies, h => !Mentions(h, "secure")) ==>
                    SomeConcerned(f.subject, r.setCookies, FlawedOverHttp))
  {
    CookiesReportedAgain(f, url, r);
    RecheckedCookie(f, url, r);
    UpperCaseCookiesAgreeIff(f, r.setCookies);
  }

  lemma UpperCaseCookiesAgreeIff(f: HeaderFinding, setCookies: seq<string>)
    requires f.issue == InsecureCookie
    ensures (ReportedAgain(f, CookieFindings(false, setCookies)) <==> StillInsecure(true, f.subject, setCookies))
            <==> (SomeConcerned(f.subject, setCookies, h => !Mentions(h, "secure")) ==>
                    SomeConcerned(f.subject, setCookies, FlawedOverHttp))
  {
    CookieReportedIff(false, f, setCookies);
    forall k | 0 <= k < |setCookies|
      ensures CookieFlags(false, setCookies[k]) != [] <==> FlawedOverHttp(setCookies[k])
      ensures MissingAttribute(true, setCookies[k])
              <==> FlawedOverHttp(setCookies[k]) || !Mentions(setCookies[k], "secure")
    {
      UpperCaseFlaws(setCookies[k]);
    }
  }

  lemma RecheckedCookie(f: HeaderFinding, url: string, r: Response)
    requires f.issue == InsecureCookie
    ensures Recheck(f, url, r) == Some(StillInsecure(ResponseIsHttps(url), f.subject, r.setCookies))
  {
  }

  /** An example: a response with one such cookie, which the detector reports over
      http and the re-check refutes. */
  lemma HttpCookieExample(header: string, url: string, r: Response)
    requires header == "a=b; HttpOnly; SameSite=None" && r.setCookies == [header] && !ResponseIsHttps(url)
    ensures var f := CookieFinding(false, header);
            f.subject == "a" && ReportedAgain(f, Analysis(url, r)) && Recheck(f, url, r) == Some(false)
  {
    var f := CookieFinding(false, header);
    ExampleName(header);
    ExampleFlags(header, "a=b; httponly; samesite=none");
    assert r.setCookies[0] == header && ConcernsCookie(f.subject, header);
    HttpsInAnyCase(url);
    CookieReportedIff(false, f, r.setCookies);
    CookiesReportedAgain(f, url, r);
    RecheckedCookie(f, url, r);
  }
}
