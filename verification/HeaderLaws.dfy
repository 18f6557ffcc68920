/** The detector's verdicts on header texts, told without its own helpers: how grave
    each type is, what a cookie lacks, what a banner gives away, and how a transport
    security header may be written.
 */
module HeaderLaws {
  import opened Findings
  import opened HeaderChecks
  import opened TextLaws
  import opened Wrappers
  import Q = Sequences
  import T = Text

  /* How grave. */

  /** Part of a text, letter case aside. */
  ghost predicate Within(text: string, part: string) {
    exists i :: 0 <= i <= |text| && part <= T.Lower(text)[i..]
  }

  lemma IndicatesIff(indicator: string, name: string)
    ensures Indicates(indicator, name) <==> Within(name, indicator)
  {
    ContainsIff(T.Lower(name), indicator);
    assert |T.Lower(name)| == |name|;
  }

  /** The cookie's name speaks of a session. */
  ghost predicate SpeaksOfSession(name: string) {
    || Within(name, "session") || Within(name, "sid") || Within(name, "auth") || Within(name, "token")
    || Within(name, "jwt")
  }

  lemma SessionCookieIff(name: string)
    ensures SessionCookie(name) <==> SpeaksOfSession(name)
  {
    IndicatesIff("session", name);
    IndicatesIff("sid", name);
    IndicatesIff("auth", name);
    IndicatesIff("token", name);
    IndicatesIff("jwt", name);
  }

  ghost predicate Fits(f: HeaderFinding) {
    match f.issue
    case MissingCsp | CspUnsafeInline | CspUnsafeEval | CspOverlyPermissive | MissingHsts | MissingXFrameOptions
         | CorsWildcardWithCredentials | CorsNullOrigin => f.severity == Medium
    case WeakHstsMaxAge | MissingHstsIncludeSubdomains | DeprecatedXFrameOptions | InvalidXFrameOptions
         | MissingXContentTypeOptions | InvalidXContentTypeOptions | CorsWildcard | WeakReferrerPolicy =>
      f.severity == Low
    case MissingHstsPreload | ServerVersionDisclosure | XPoweredByDisclosure | MissingReferrerPolicy =>
      f.severity == Info
    case InsecureCookie => f.severity == if SpeaksOfSession(f.subject) then Medium else Low
    case OtherIssue(_) => false
  }

  ghost predicate AllFit(findings: seq<HeaderFinding>) {
    forall i :: 0 <= i < |findings| ==> Fits(findings[i])
  }

  lemma FitJoin(a: seq<HeaderFinding>, b: seq<HeaderFinding>)
    requires AllFit(a) && AllFit(b)
    ensures AllFit(a + b)
  {
  }

  lemma CspFits(csp: string)
    ensures AllFit(CspFindings(csp))
  {
    var inline := When(T.Contains(csp, "'unsafe-inline'"), Plain(CspUnsafeInline, Medium));
    var eval := When(T.Contains(csp, "'unsafe-eval'"), Plain(CspUnsafeEval, Medium));
    FitJoin(inline, eval);
    FitJoin(inline + eval, PermissiveFindings(csp));
  }

  lemma WhenFits(condition: bool, f: HeaderFinding)
    requires Fits(f)
    ensures AllFit(When(condition, f))
  {
  }

  lemma WeaknessesFit(p: Hsts)
    ensures AllFit(HstsWeaknesses(p))
  {
    var age := When(Short(p.maxAge), Plain(WeakHstsMaxAge, Low));
    var subdomains := When(!p.includeSubdomains, Plain(MissingHstsIncludeSubdomains, Low));
    WhenFits(!p.preload, Plain(MissingHstsPreload, Info));
    FitJoin(age, subdomains);
    FitJoin(age + subdomains, When(!p.preload, Plain(MissingHstsPreload, Info)));
  }

  lemma HstsFits(url: string, hsts: string)
    ensures AllFit(HstsFindings(url, hsts))
  {
    WeaknessesFit(ParseHsts(hsts));
  }

  lemma CookiesFit(https: bool, setCookies: seq<string>)
    ensures AllFit(CookieFindings(https, setCookies))
  {
    var reports := CookieReports(https, setCookies);
    forall i | 0 <= i < |CookieFindings(https, setCookies)| ensures Fits(CookieFindings(https, setCookies)[i]) {
      var k := Q.FlattenOrigin(reports, CookieFindings(https, setCookies)[i]);
      assert reports[k] == CookieReport(https, setCookies[k]);
      SessionCookieIff(CookieName(setCookies[k]));
    }
  }

  lemma FramesFit(r: Response)
    ensures AllFit(XFrameOptionsFindings(r.xFrameOptions, r.csp))
  {
    WhenFits(!T.Contains(T.Lower(r.csp), "frame-ancestors"), Plain(MissingXFrameOptions, Medium));
  }

  lemma ContentTypeAndCorsFit(r: Response)
    ensures AllFit(XContentTypeOptionsFindings(r.xContentTypeOptions))
    ensures AllFit(CorsFindings(r.allowOrigin, r.allowCredentials))
  {
    WhenFits(r.allowOrigin == "null", Plain(CorsNullOrigin, Medium));
  }

  lemma OthersFit(r: Response)
    ensures AllFit(OtherFindings(r.server, r.poweredBy, r.referrerPolicy))
  {
    var server, powered := ServerFindings(r.server), When(r.poweredBy != "", Plain(XPoweredByDisclosure, Info));
    WhenFits(r.poweredBy != "", Plain(XPoweredByDisclosure, Info));
    FitJoin(server, powered);
    ReferrerFits(r.referrerPolicy);
    FitJoin(server + powered, ReferrerFindings(r.referrerPolicy));
  }

  lemma ReferrerFits(referrer: string)
    ensures AllFit(ReferrerFindings(referrer))
  {
    WhenFits(T.Strip(T.Lower(referrer)) == "unsafe-url", Plain(WeakReferrerPolicy, Low));
  }

  /** Every finding of a response has the severity of its type; a cookie's depends on
      what its name speaks of. */
  lemma EverySeverityFits(url: string, r: Response)
    ensures AllFit(Analysis(url, r))
  {
    var csp, hsts := CspFindings(r.csp), HstsFindings(url, r.hsts);
    var xfo, xcto := XFrameOptionsFindings(r.xFrameOptions, r.csp), XContentTypeOptionsFindings(r.xContentTypeOptions);
    var cors, cookies := CorsFindings(r.allowOrigin, r.allowCredentials), CookieFindings(IsHttps(url), r.setCookies);
    CspFits(r.csp);
    HstsFits(url, r.hsts);
    CookiesFit(IsHttps(url), r.setCookies);
    FramesFit(r);
    ContentTypeAndCorsFit(r);
    OthersFit(r);
    FitJoin(csp, hsts);
    FitJoin(csp + hsts, xfo);
    FitJoin(csp + hsts + xfo, xcto);
    FitJoin(csp + hsts + xfo + xcto, cors);
    FitJoin(csp + hsts + xfo + xcto + cors, cookies);
    FitJoin(csp + hsts + xfo + xcto + cors + cookies, OtherFindings(r.server, r.poweredBy, r.referrerPolicy));
  }

  /* Cookies and banners. */

  lemma MentionsIff(header: string, attribute: string)
    ensures Mentions(header, attribute) <==> Within(header, attribute)
  {
    ContainsIff(T.Lower(header), attribute);
    assert |T.Lower(header)| == |header|;
  }

  /** The flags of a cookie finding name what is wrong with the cookie, each once. */
  lemma FlagsNameTheFlaws(https: bool, header: string)
    ensures var flags := CookieFlags(https, header);
            && (Secure in flags <==> https && !Within(header, "secure"))
            && (HttpOnly in flags <==> !Within(header, "httponly"))
            && (SameSite in flags <==> !Within(header, "samesite"))
            && (SameSiteNoneRequiresSecure in flags
                <==> Within(header, "samesite") && Within(header, "samesite=none") && !Within(header, "secure"))
            && forall i, j :: 0 <= i < j < |flags| ==> flags[i] != flags[j]
  {
    MentionsIff(header, "secure");
    MentionsIff(header, "httponly");
    MentionsIff(header, "samesite");
    MentionsIff(header, "samesite=none");
  }

  /** The name is what stands before the equals sign, white space aside. */
  lemma CookieNameReads(left: string, name: string, right: string, rest: string)
    requires AllSpaces(left) && AllSpaces(right) && Trimmed(name) && '=' !in left + name + right
    requires rest == "" || rest[0] == '='
    ensures CookieName(left + name + right + rest) == name
  {
    T.BeforeStops(left + name + right, '=', rest);
    StripTakesPadding(left, name, right);
  }

  /** A banner is reported exactly if it names one of these products with a slash. */
  lemma BannerIsReportedIff(server: string)
    ensures ServerFindings(server) != []
            <==> || Within(server, "nginx/") || Within(server, "apache/") || Within(server, "iis/")
                 || Within(server, "php/")
  {
    forall i | 0 <= i < |VERSION_INDICATORS|
      ensures T.Contains(T.Lower(server), VERSION_INDICATORS[i]) <==> Within(server, VERSION_INDICATORS[i])
    {
      MentionsIff(server, VERSION_INDICATORS[i]);
    }
    assert VERSION_INDICATORS[0] == "nginx/" && VERSION_INDICATORS[1] == "apache/";
    assert VERSION_INDICATORS[2] == "iis/" && VERSION_INDICATORS[3] == "php/";
  }

  /* Transport security headers. */

  ghost predicate DigitsOnly(s: string) {
    s != "" && forall i :: 0 <= i < |s| ==> T.IsDigit(s[i])
  }

  lemma {:induction false} DigitRunEnds(digits: string, rest: string)
    requires forall i :: 0 <= i < |digits| ==> T.IsDigit(digits[i])
    requires rest == "" || !T.IsDigit(rest[0])
    ensures Digits(digits + rest) == digits
  {
    if digits == "" {
      assert digits + rest == rest;
    } else {
      DigitRunEnds(digits[1..], rest);
      assert (digits + rest)[1..] == digits[1..] + rest;
    }
  }

  lemma AfterEquals(gap: string, digits: string, rest: string, s: string)
    requires AllSpaces(gap) && DigitsOnly(digits) && (rest == "" || !T.IsDigit(rest[0]))
    requires s == gap + (digits + rest)
    ensures Digits(T.StripLeft(s)) == digits
  {
    assert T.IsDigit((digits + rest)[0]);
    LeftGoes(gap, digits + rest);
    DigitRunEnds(digits, rest);
  }

  lemma AfterName(gap: string, tail: string, s: string)
    requires AllSpaces(gap) && s == gap + ("=" + tail)
    ensures T.StripLeft(s) == "=" + tail && T.StartsWith(T.StripLeft(s), "=") && T.StripLeft(s)[1..] == tail
  {
    LeftGoes(gap, "=" + tail);
  }

  lemma NameBegins(gap: string, name: string, tail: string, s: string)
    requires AllSpaces(gap) && T.Lower(name) == "max-age" && s == gap + (name + tail)
    ensures T.StripLeft(s) == name + tail && |name| == 7
    ensures T.StartsWith(T.Lower(T.StripLeft(s)), "max-age") && T.StripLeft(s)[7..] == tail
  {
    assert |T.Lower(name)| == |name|;
    assert T.Lower(name)[0] == 'm';
    assert !T.IsSpace(name[0]);
    assert (name + tail)[0] == name[0];
    LeftGoes(gap, name + tail);
    assert T.Lower(name + tail)[..7] == T.Lower(name);
  }

  /** The age is read in any letter case and with white space around its name and its
      equals sign; it ends with the digits. */
  lemma MaxAgeReads(before: string, name: string, around: string, behind: string, digits: string, rest: string,
                    s: string)
    requires AllSpaces(before) && AllSpaces(around) && AllSpaces(behind) && T.Lower(name) == "max-age"
    requires DigitsOnly(digits) && (rest == "" || !T.IsDigit(rest[0]))
    requires s == before + (name + (around + ("=" + (behind + (digits + rest)))))
    ensures MaxAgeHere(s) == Some(digits) && MaxAgeText(s) == Some(digits)
  {
    var value := behind + (digits + rest);
    var equals := around + ("=" + value);
    NameBegins(before, name, equals, s);
    AfterName(around, value, equals);
    AfterEquals(behind, digits, rest, value);
  }

  /** It may stand behind other directives: the first one there is counts. */
  lemma {:induction false} MaxAgeBehindOthers(front: string, s: string)
    requires ';' !in front && MaxAgeHere(s).Some?
    ensures MaxAgeAfterSemicolon(front + ";" + s) == MaxAgeHere(s)
  {
    var text := front + ";" + s;
    if front == "" {
      assert text == ";" + s && text[1..] == s;
    } else {
      assert text[1..] == front[1..] + ";" + s;
      MaxAgeBehindOthers(front[1..], s);
    }
  }

  lemma MaxAgeInAnyPlace(front: string, s: string)
    requires ';' !in front && MaxAgeHere(front + ";" + s).None? && MaxAgeHere(s).Some?
    ensures MaxAgeText(front + ";" + s) == MaxAgeHere(s)
  {
    MaxAgeBehindOthers(front, s);
  }

  /** A segment names the directive that stands before its equals sign, if it has one,
      in any letter case and with white space at both ends. */
  lemma SegmentNames(left: string, name: string, value: string, right: string, directive: string)
    requires AllSpaces(left) && AllSpaces(right) && name != "" && '=' !in name && !T.IsSpace(name[0])
    requires value == "" || value[0] == '='
    requires Trimmed(name + value)
    ensures Names(left + (name + value) + right, directive) <==> T.Lower(name) == directive
  {
    StripTakesPadding(left, name + value, right);
    LowerJoins(name, value);
    LowerKeepsEquals(name);
    assert value != "" ==> T.Lower(value)[0] == '=';
    T.BeforeStops(T.Lower(name), '=', T.Lower(value));
  }

  lemma LowerJoins(a: string, b: string)
    ensures T.Lower(a + b) == T.Lower(a) + T.Lower(b)
  {
  }

  lemma LowerKeepsEquals(s: string)
    requires '=' !in s
    ensures '=' !in T.Lower(s)
  {
  }

  /** Digits are a number unless there are more than 4300 of them. */
  lemma NumberIsReadIff(digits: string)
    requires DigitsOnly(digits)
    ensures ToNumber(digits) == if |digits| <= 4300 then Some(T.Value(digits)) else None
  {
  }
}
