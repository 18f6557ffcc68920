/** The passive detector for security headers and cookies: which findings one
    HTTP response gives rise to.
 */
module HeaderChecks {
  import opened Findings
  import opened Sequences
  import opened Wrappers
  import T = Text

  datatype Issue =
    | MissingCsp | CspUnsafeInline | CspUnsafeEval | CspOverlyPermissive
    | MissingHsts | WeakHstsMaxAge | MissingHstsIncludeSubdomains | MissingHstsPreload
    | MissingXFrameOptions | DeprecatedXFrameOptions | InvalidXFrameOptions
    | MissingXContentTypeOptions | InvalidXContentTypeOptions
    | CorsWildcard | CorsWildcardWithCredentials | CorsNullOrigin
    | InsecureCookie
    | ServerVersionDisclosure | XPoweredByDisclosure
    | MissingReferrerPolicy | WeakReferrerPolicy
    | OtherIssue(name: string)

  /** The headers the detector reads. An absent header reads as the empty
      string; every `Set-Cookie` header is kept. */
  datatype Response = Response(
    csp: string,
    hsts: string,
    xFrameOptions: string,
    xContentTypeOptions: string,
    allowOrigin: string,
    allowCredentials: string,
    server: string,
    poweredBy: string,
    referrerPolicy: string,
    setCookies: seq<string>)

  datatype CookieFlag = Secure | HttpOnly | SameSite | SameSiteNoneRequiresSecure

  /** `subject` is the offending CSP directive or the cookie's name, `flags` what
      is wrong with the cookie. */
  datatype HeaderFinding = HeaderFinding(issue: Issue, severity: Severity, subject: string, flags: seq<CookieFlag>)

  function Plain(issue: Issue, severity: Severity): HeaderFinding {
    HeaderFinding(issue, severity, "", [])
  }

  function When(condition: bool, f: HeaderFinding): seq<HeaderFinding> {
    if condition then [f] else []
  }

  predicate IsHttps(url: string) {
    T.StartsWith(url, "https://")
  }

  /* Content-Security-Policy. */

  predicate BroadSource(source: string) {
    source == "*" || source == "https:" || source == "http:"
  }

  /** What follows the directive's name. */
  function Sources(segment: string): seq<string> {
    var tokens := T.Words(T.Strip(segment));
    if tokens == [] then [] else tokens[1..]
  }

  predicate Permissive(segment: string) {
    exists source :: source in Sources(segment) && BroadSource(source)
  }

  /** The first directive with an overly broad source. */
  function FirstPermissive(segments: seq<string>): Option<string> {
    if segments == [] then None
    else if Permissive(segments[0]) then Some(T.Strip(segments[0]))
    else FirstPermissive(segments[1..])
  }

  function PermissiveFindings(csp: string): seq<HeaderFinding> {
    match FirstPermissive(T.Split(csp, ';'))
    case Some(directive) => [HeaderFinding(CspOverlyPermissive, Medium, directive, [])]
    case None => []
  }

  function CspFindings(csp: string): seq<HeaderFinding> {
    if csp == "" then [Plain(MissingCsp, Medium)]
    else
      When(T.Contains(csp, "'unsafe-inline'"), Plain(CspUnsafeInline, Medium))
      + When(T.Contains(csp, "'unsafe-eval'"), Plain(CspUnsafeEval, Medium))
      + PermissiveFindings(csp)
  }

  method HasBroadSource(segment: string) returns (broad: bool)
    ensures broad == Permissive(segment)
  {
    var sources := Sources(segment);
    broad := false;
    for i := 0 to |sources|
      invariant broad <==> exists k :: 0 <= k < i && BroadSource(sources[k])
    {
      broad := broad || BroadSource(sources[i]);
    }
  }

  method CheckCsp(csp: string) returns (findings: seq<HeaderFinding>)
    ensures findings == CspFindings(csp)
  {
    findings := [];
    if csp == "" {
      return [Plain(MissingCsp, Medium)];
    }
    if T.Contains(csp, "'unsafe-inline'") {
      findings := findings + [Plain(CspUnsafeInline, Medium)];
    }
    if T.Contains(csp, "'unsafe-eval'") {
      findings := findings + [Plain(CspUnsafeEval, Medium)];
    }
    var permissive := PermissiveSegment(csp);
    if permissive.Some? {
      findings := findings + [HeaderFinding(CspOverlyPermissive, Medium, permissive.value, [])];
    }
  }

  /** The segments are scanned in order up to the first permissive one. */
  method PermissiveSegment(csp: string) returns (directive: Option<string>)
    ensures directive == FirstPermissive(T.Split(csp, ';'))
  {
    var segments := T.Split(csp, ';');
    for i := 0 to |segments|
      invariant FirstPermissive(segments) == FirstPermissive(segments[i..])
    {
      assert segments[i..][0] == segments[i] && segments[i..][1..] == segments[i + 1..];
      var broad := HasBroadSource(segments[i]);
      if broad {
        return Some(T.Strip(segments[i]));
      }
    }
    directive := None;
  }

  /* Strict-Transport-Security. */

  const HSTS_MIN_MAX_AGE := 31536000

  /** Longer runs of digits are not converted to a number. */
  const MAX_DIGITS := 4300

  datatype Hsts = Hsts(maxAge: Option<nat>, includeSubdomains: bool, preload: bool)

  function Digits(s: string): (digits: string)
    ensures digits <= s && forall i :: 0 <= i < |digits| ==> T.IsDigit(digits[i])
  {
    if s == "" || !T.IsDigit(s[0]) then "" else [s[0]] + Digits(s[1..])
  }

  /** The digits of `max-age = <digits>` where `s` begins with it, white space
      and letter case aside. */
  function MaxAgeHere(s: string): Option<string> {
    var name := T.StripLeft(s);
    if !T.StartsWith(T.Lower(name), "max-age") then None
    else
      var equals := T.StripLeft(name[7..]);
      if !T.StartsWith(equals, "=") then None
      else
        var digits := Digits(T.StripLeft(equals[1..]));
        if digits == "" then None else Some(digits)
  }

  /** The first match at the start of the text or after a semicolon. */
  function MaxAgeAfterSemicolon(s: string): Option<string> {
    if s == "" then None
    else if s[0] == ';' && MaxAgeHere(s[1..]).Some? then MaxAgeHere(s[1..])
    else MaxAgeAfterSemicolon(s[1..])
  }

  function MaxAgeText(s: string): Option<string> {
    if MaxAgeHere(s).Some? then MaxAgeHere(s) else MaxAgeAfterSemicolon(s)
  }

  function ToNumber(digits: string): Option<nat> {
    if |digits| <= MAX_DIGITS && forall i :: 0 <= i < |digits| ==> T.IsDigit(digits[i])
    then Some(T.Value(digits))
    else None
  }

  /** A segment of the header names the directive. */
  predicate Names(segment: string, directive: string) {
    T.Strip(segment) != "" && T.Before(T.Lower(T.Strip(segment)), '=') == directive
  }

  predicate HasDirective(value: string, directive: string) {
    exists segment :: segment in T.Split(T.Lower(value), ';') && Names(segment, directive)
  }

  function ParseHsts(header: string): Hsts {
    var value := T.Strip(header);
    Hsts(match MaxAgeText(value) case Some(digits) => ToNumber(digits) case None => None,
         HasDirective(value, "includesubdomains"),
         HasDirective(value, "preload"))
  }

  predicate Short(maxAge: Option<nat>) {
    maxAge.None? || maxAge.value < HSTS_MIN_MAX_AGE
  }

  function HstsWeaknesses(parsed: Hsts): seq<HeaderFinding> {
    When(Short(parsed.maxAge), Plain(WeakHstsMaxAge, Low))
    + When(!parsed.includeSubdomains, Plain(MissingHstsIncludeSubdomains, Low))
    + When(!parsed.preload, Plain(MissingHstsPreload, Info))
  }

  function HstsFindings(url: string, hsts: string): seq<HeaderFinding> {
    if !IsHttps(url) then []
    else if hsts == "" then [Plain(MissingHsts, Medium)]
    else HstsWeaknesses(ParseHsts(hsts))
  }

  method CheckParsedHsts(parsed: Hsts) returns (findings: seq<HeaderFinding>)
    ensures findings == HstsWeaknesses(parsed)
  {
    findings := [];
    if parsed.maxAge.None? {
      findings := findings + [Plain(WeakHstsMaxAge, Low)];
    } else if parsed.maxAge.value < HSTS_MIN_MAX_AGE {
      findings := findings + [Plain(WeakHstsMaxAge, Low)];
    }
    var strong := parsed.maxAge.Some? && parsed.maxAge.value >= HSTS_MIN_MAX_AGE;
    if strong && !parsed.includeSubdomains {
      findings := findings + [Plain(MissingHstsIncludeSubdomains, Low)];
    } else if !parsed.includeSubdomains && !strong {
      findings := findings + [Plain(MissingHstsIncludeSubdomains, Low)];
    }
    if !parsed.preload {
      findings := findings + [Plain(MissingHstsPreload, Info)];
    }
  }

  method CheckHsts(url: string, hsts: string) returns (findings: seq<HeaderFinding>)
    ensures findings == HstsFindings(url, hsts)
  {
    if !IsHttps(url) {
      return [];
    }
    if hsts == "" {
      return [Plain(MissingHsts, Medium)];
    }
    findings := CheckParsedHsts(ParseHsts(hsts));
  }

  /* Frames, content types, CORS. */

  function XFrameOptionsFindings(xfo: string, csp: string): seq<HeaderFinding> {
    var normalized := T.Upper(T.Strip(xfo));
    if xfo == "" then When(!T.Contains(T.Lower(csp), "frame-ancestors"), Plain(MissingXFrameOptions, Medium))
    else if T.StartsWith(normalized, "ALLOW-FROM") then [Plain(DeprecatedXFrameOptions, Low)]
    else When(normalized != "DENY" && normalized != "SAMEORIGIN", Plain(InvalidXFrameOptions, Low))
  }

  function XContentTypeOptionsFindings(xcto: string): seq<HeaderFinding> {
    if xcto == "" then [Plain(MissingXContentTypeOptions, Low)]
    else When(T.Strip(T.Lower(xcto)) != "nosniff", Plain(InvalidXContentTypeOptions, Low))
  }

  function CorsFindings(origin: string, credentials: string): seq<HeaderFinding> {
    (if origin != "*" then []
     else if T.Lower(credentials) == "true" then [Plain(CorsWildcardWithCredentials, Medium)]
     else [Plain(CorsWildcard, Low)])
    + When(origin == "null", Plain(CorsNullOrigin, Medium))
  }

  /* Cookies. */

  function CookieName(header: string): string {
    T.Strip(T.Before(header, '='))
  }

  predicate Indicates(indicator: string, name: string) {
    T.Contains(T.Lower(name), indicator)
  }

  predicate SessionCookie(name: string) {
    || Indicates("session", name) || Indicates("sid", name) || Indicates("auth", name)
    || Indicates("token", name) || Indicates("jwt", name)
  }

  predicate Mentions(header: string, attribute: string) {
    T.Contains(T.Lower(header), attribute)
  }

  function CookieFlags(https: bool, header: string): seq<CookieFlag> {
    (if https && !Mentions(header, "secure") then [Secure] else [])
    + (if !Mentions(header, "httponly") then [HttpOnly] else [])
    + (if !Mentions(header, "samesite") then [SameSite]
       else if Mentions(header, "samesite=none") && !Mentions(header, "secure") then [SameSiteNoneRequiresSecure]
       else [])
  }

  function CookieFinding(https: bool, header: string): HeaderFinding {
    HeaderFinding(InsecureCookie, if SessionCookie(CookieName(header)) then Medium else Low,
                  CookieName(header), CookieFlags(https, header))
  }

  /** What one cookie gives rise to: a finding or nothing. */
  function CookieReport(https: bool, header: string): seq<HeaderFinding> {
    When(CookieFlags(https, header) != [], CookieFinding(https, header))
  }

  function CookieReports(https: bool, setCookies: seq<string>): seq<seq<HeaderFinding>> {
    seq(|setCookies|, i requires 0 <= i < |setCookies| => CookieReport(https, setCookies[i]))
  }

  function CookieFindings(https: bool, setCookies: seq<string>): seq<HeaderFinding> {
    Flatten(CookieReports(https, setCookies))
  }

  method CheckCookie(https: bool, header: string) returns (flags: seq<CookieFlag>)
    ensures flags == CookieFlags(https, header)
  {
    flags := [];
    if https && !Mentions(header, "secure") {
      flags := flags + [Secure];
    }
    if !Mentions(header, "httponly") {
      flags := flags + [HttpOnly];
    }
    if !Mentions(header, "samesite") {
      flags := flags + [SameSite];
    } else if Mentions(header, "samesite=none") && !Mentions(header, "secure") {
      flags := flags + [SameSiteNoneRequiresSecure];
    }
  }

  lemma ReportsAppend(https: bool, setCookies: seq<string>, i: nat)
    requires i < |setCookies|
    ensures CookieFindings(https, setCookies[..i + 1])
            == CookieFindings(https, setCookies[..i]) + CookieReport(https, setCookies[i])
  {
    var reports := CookieReports(https, setCookies[..i + 1]);
    assert reports[..i] == CookieReports(https, setCookies[..i]);
    assert reports[i] == CookieReport(https, setCookies[i]);
  }

  method CheckCookies(url: string, setCookies: seq<string>) returns (findings: seq<HeaderFinding>)
    ensures findings == CookieFindings(IsHttps(url), setCookies)
  {
    findings := [];
    for i := 0 to |setCookies|
      invariant findings == CookieFindings(IsHttps(url), setCookies[..i])
    {
      ReportsAppend(IsHttps(url), setCookies, i);
      var flags := CheckCookie(IsHttps(url), setCookies[i]);
      if flags != [] {
        findings := findings + [CookieFinding(IsHttps(url), setCookies[i])];
      }
    }
    assert setCookies[..|setCookies|] == setCookies;
  }

  /* Disclosure and referrers. */

  const VERSION_INDICATORS := ["nginx/", "apache/", "iis/", "php/"]

  predicate DisclosesVersion(server: string) {
    exists i :: 0 <= i < |VERSION_INDICATORS| && T.Contains(T.Lower(server), VERSION_INDICATORS[i])
  }

  function ServerFindings(server: string): seq<HeaderFinding> {
    When(server != "" && DisclosesVersion(server), Plain(ServerVersionDisclosure, Info))
  }

  function ReferrerFindings(referrer: string): seq<HeaderFinding> {
    if referrer == "" then [Plain(MissingReferrerPolicy, Info)]
    else When(T.Strip(T.Lower(referrer)) == "unsafe-url", Plain(WeakReferrerPolicy, Low))
  }

  function OtherFindings(server: string, poweredBy: string, referrer: string): seq<HeaderFinding> {
    ServerFindings(server) + When(poweredBy != "", Plain(XPoweredByDisclosure, Info)) + ReferrerFindings(referrer)
  }

  method CheckServer(server: string) returns (findings: seq<HeaderFinding>)
    ensures findings == ServerFindings(server)
  {
    findings := [];
    if server != "" {
      for i := 0 to |VERSION_INDICATORS|
        invariant findings == []
        invariant forall k :: 0 <= k < i ==> !T.Contains(T.Lower(server), VERSION_INDICATORS[k])
      {
        if T.Contains(T.Lower(server), VERSION_INDICATORS[i]) {
          findings := findings + [Plain(ServerVersionDisclosure, Info)];
          break;
        }
      }
    }
  }

  method CheckOtherHeaders(server: string, poweredBy: string, referrer: string) returns (findings: seq<HeaderFinding>)
    ensures findings == OtherFindings(server, poweredBy, referrer)
  {
    findings := CheckServer(server);
    if poweredBy != "" {
      findings := findings + [Plain(XPoweredByDisclosure, Info)];
    }
    if referrer == "" {
      findings := findings + [Plain(MissingReferrerPolicy, Info)];
    } else if T.Strip(T.Lower(referrer)) == "unsafe-url" {
      findings := findings + [Plain(WeakReferrerPolicy, Low)];
    }
  }

  /** Everything the detector reports for a response. */
  function Analysis(url: string, r: Response): seq<HeaderFinding> {
    CspFindings(r.csp)
    + HstsFindings(url, r.hsts)
    + XFrameOptionsFindings(r.xFrameOptions, r.csp)
    + XContentTypeOptionsFindings(r.xContentTypeOptions)
    + CorsFindings(r.allowOrigin, r.allowCredentials)
    + CookieFindings(IsHttps(url), r.setCookies)
    + OtherFindings(r.server, r.poweredBy, r.referrerPolicy)
  }

  method AnalyzeResponse(url: string, r: Response) returns (findings: seq<HeaderFinding>)
    ensures findings == Analysis(url, r)
  {
    var csp := CheckCsp(r.csp);
    var hsts := CheckHsts(url, r.hsts);
    var cookies := CheckCookies(url, r.setCookies);
    var others := CheckOtherHeaders(r.server, r.poweredBy, r.referrerPolicy);
    findings := csp + hsts + XFrameOptionsFindings(r.xFrameOptions, r.csp)
                + XContentTypeOptionsFindings(r.xContentTypeOptions)
                + CorsFindings(r.allowOrigin, r.allowCredentials) + cookies + others;
  }
}
