/** The ways to write a target: what a URL with user information, in any letter
    case, with any port, path, query and fragment, or with no scheme at all,
    is validated and normalised to.
 */
module Spellings {
  import opened ScanTargets
  import opened Wrappers
  import O = Origins
  import L = TextLaws
  import T = Text

  /* User information. */

  /** Nothing, or text up to an at sign. It may hold colons and further at signs. */
  predicate IsUserInfo(user: string) {
    && (user == "" || user[|user| - 1] == '@')
    && forall i :: 0 <= i < |user| ==> user[i] !in "/?#[]\t\r\n"
  }

  lemma UserInfoChars(user: string)
    requires IsUserInfo(user)
    ensures AuthorityChars(user) && '[' !in user && ']' !in user
  {
    var ends := "/?#[]\t\r\n";
    assert ends[0] == '/' && ends[1] == '?' && ends[2] == '#' && ends[3] == '[' && ends[4] == ']';
    assert ends[5] == '\t' && ends[6] == '\r' && ends[7] == '\n';
  }

  lemma {:induction false} UserInfoGoes(user: string, info: string)
    requires user == "" || user[|user| - 1] == '@'
    requires '@' !in info
    ensures HostInfo(user + info) == info
  {
    if user == "" {
      assert user + info == info;
    } else {
      assert (user + info)[|user| - 1] == '@';
      assert (user + info)[1..] == user[1..] + info;
      UserInfoGoes(user[1..], info);
    }
  }

  /* Host and port. */

  function Colon(digits: Option<string>): string {
    if digits.None? then "" else ":" + digits.value
  }

  function Written(digits: Option<string>): string {
    if digits.None? then "" else digits.value
  }

  /** A host as it is written: an IPv6 literal in brackets. */
  function HostAsWritten(host: string): string {
    if ':' in host then "[" + host + "]" else host
  }

  lemma PlainReads(host: string, digits: Option<string>, info: string)
    requires '[' !in host && ':' !in host && info == host + Colon(digits) && '[' !in Written(digits)
    ensures HostText(info) == host && PortText(info) == Written(digits) && '[' !in info
  {
    match digits
    case None =>
      assert info == host;
      AfterStops(host, ':', "");
    case Some(d) =>
      assert info == host + ":" + d;
      assert '[' !in info;
      AfterStops(host, ':', d);
  }

  lemma LiteralReads(host: string, digits: Option<string>, info: string)
    requires ']' !in host && info == "[" + host + "]" + Colon(digits)
    ensures HostText(info) == host && PortText(info) == Written(digits)
    ensures '[' in info && ']' in info
  {
    if digits.Some? {
      assert info == "[" + host + "]" + ":" + digits.value;
      BracketsRead(host, digits.value, info);
    } else {
      var inner := host + "]";
      assert info == "" + "[" + inner;
      AfterStops("", '[', inner);
      assert inner == host + "]" + "";
      AfterStops(host, ']', "");
      AfterStops("", ':', "");
      assert info[0] == '[' && info[|host| + 1] == ']';
    }
  }

  lemma InfoReads(host: string, digits: Option<string>)
    requires ']' !in host && ('[' in host ==> ':' in host) && '[' !in Written(digits) && ']' !in Written(digits)
    ensures var info := HostAsWritten(host) + Colon(digits);
            && HostText(info) == host && PortText(info) == Written(digits)
            && ('[' in info <==> ':' in host) && (']' in info <==> ':' in host)
  {
    var info := HostAsWritten(host) + Colon(digits);
    if ':' in host {
      LiteralReads(host, digits, info);
    } else {
      PlainReads(host, digits, info);
    }
  }

  /* The host in any letter case. */

  lemma AnyCaseLowers(name: string, zone: string)
    requires '%' !in name && (zone == "" || zone[0] == '%')
    ensures LowerHost(name + zone) == T.Lower(name) + zone
  {
    T.BeforeStops(name, '%', zone);
    assert (name + zone)[|name|..] == zone;
  }

  /** Letter case aside, the written host has the characters of the good one. */
  lemma WrittenHostChars(raw: string, host: string)
    requires LowerHost(raw) == host && HostChars(host)
    ensures HostChars(raw) && (':' in raw <==> ':' in host) && ('[' in raw <==> '[' in host)
    ensures raw == "" <==> host == ""
  {
    LowerHostChars(raw);
    LowerHostKeeps(raw, ':');
    LowerHostKeeps(raw, '[');
    forall i | 0 <= i < |raw| ensures HostChar(raw[i]) {
      assert HostChar(host[i]);
    }
  }

  /* The scheme in any letter case. */

  lemma SchemeLetters(scheme: string)
    requires AllowedScheme(T.Lower(scheme))
    ensures scheme != "" && forall i :: 0 <= i < |scheme| ==> 'a' <= scheme[i] <= 'z' || 'A' <= scheme[i] <= 'Z'
  {
    assert |T.Lower(scheme)| == |scheme|;
    forall i | 0 <= i < |scheme| ensures 'a' <= scheme[i] <= 'z' || 'A' <= scheme[i] <= 'Z' {
      assert 'a' <= T.Lower(scheme)[i] <= 'z';
    }
  }

  lemma AnySchemeReads(scheme: string, rest: string)
    requires AllowedScheme(T.Lower(scheme)) && NoBreaks(rest)
    ensures var text := scheme + ":" + rest;
            && T.Before(text, ':') == scheme && IsScheme(scheme) && text[|scheme| + 1..] == rest
            && WithoutLeadingControls(text) == text && NoBreaks(text)
  {
    SchemeLetters(scheme);
    AfterStops(scheme, ':', rest);
    var text := scheme + ":" + rest;
    forall i | 0 <= i < |text| ensures !IsBreak(text[i]) {
      if i > |scheme| {
        assert text[i] == rest[i - |scheme| - 1];
      } else if i < |scheme| {
        assert text[i] == scheme[i];
      }
    }
  }

  lemma ParseAnyScheme(env: Environment, scheme: string, rest: string)
    requires AllowedScheme(T.Lower(scheme)) && NoBreaks(rest)
    ensures Parse(env, scheme + ":" + rest) == ParseRest(env, T.Lower(scheme), rest)
  {
    AnySchemeReads(scheme, rest);
    NoBreaksStay(scheme + ":" + rest);
  }

  /* The whole authority. */

  /** The parts of a URL as somebody wrote it: `name` is the host up to the zone
      index, if it has one. */
  datatype Spelling = Spelling(
    scheme: string, user: string, name: string, zone: string, digits: Option<string>, tail: string)
  {
    function Host(): string {
      T.Lower(name) + zone
    }

    function AuthorityText(): string {
      user + (HostAsWritten(name + zone) + Colon(digits))
    }

    function Rest(): string {
      AuthorityText() + tail
    }

    /** The port meant, if one is written. */
    function Number(): Option<nat>
      requires digits.Some? ==> AllDigits(digits.value)
    {
      if digits.None? || digits.value == "" then None else Some(T.Value(digits.value))
    }
  }

  ghost predicate WellSpelled(env: Environment, sp: Spelling) {
    && T.Lower(sp.scheme) in {"http", "https"} && IsUserInfo(sp.user)
    && '%' !in sp.name && (sp.zone == "" || sp.zone[0] == '%')
    && GoodHost(env, sp.Host()) && (':' in sp.Host() ==> env.literal(sp.name + sp.zone))
    && (sp.digits.Some? ==> AllDigits(sp.digits.value))
    && NoBreaks(sp.tail) && (sp.tail == "" || sp.tail[0] in "/?#")
  }

  lemma TailBegins(sp: Spelling)
    requires sp.tail == "" || sp.tail[0] in "/?#"
    ensures sp.tail == "" || EndsAuthority(sp.tail[0])
  {
  }

  lemma DigitsAreHostChars(digits: string)
    requires AllDigits(digits)
    ensures HostChars(digits) && '[' !in digits
  {
    forall i | 0 <= i < |digits| ensures HostChar(digits[i]) && digits[i] != '[' {
      assert T.IsDigit(digits[i]);
    }
  }

  lemma WrittenChars(sp: Spelling)
    requires sp.digits.Some? ==> AllDigits(sp.digits.value)
    ensures HostChars(Written(sp.digits)) && '[' !in Written(sp.digits) && HostChars(Colon(sp.digits))
  {
    if sp.digits.Some? {
      DigitsAreHostChars(sp.digits.value);
      HostCharsJoin(":", sp.digits.value);
    }
  }

  lemma InfoChars(host: string, port: string)
    requires HostChars(host) && HostChars(port)
    ensures NetlocChars(HostAsWritten(host) + port)
  {
    NetlocCharsJoin("[", host);
    NetlocCharsJoin("[" + host, "]");
    NetlocCharsJoin(HostAsWritten(host), port);
  }

  /** What is read back from the authority, its user information aside. */
  lemma AuthorityReads(env: Environment, sp: Spelling)
    requires WellSpelled(env, sp)
    ensures var a := sp.AuthorityText();
            && AuthorityChars(a) && BracketsFit(env, a)
            && LowerHost(HostText(HostInfo(a))) == sp.Host() && PortText(HostInfo(a)) == Written(sp.digits)
  {
    var raw := sp.name + sp.zone;
    var info := HostAsWritten(raw) + Colon(sp.digits);
    UserInfoChars(sp.user);
    AnyCaseLowers(sp.name, sp.zone);
    WrittenHostChars(raw, sp.Host());
    WrittenChars(sp);
    InfoChars(raw, Colon(sp.digits));
    InfoReads(raw, sp.digits);
    UserInfoGoes(sp.user, info);
    UserBefore(env, sp.user, info, raw);
  }

  lemma UserBefore(env: Environment, user: string, info: string, raw: string)
    requires AuthorityChars(user) && '[' !in user && ']' !in user
    requires NetlocChars(info) && HostInfo(user + info) == info && HostText(info) == raw
    requires ('[' in info <==> ':' in raw) && (']' in info <==> ':' in raw) && (':' in raw ==> env.literal(raw))
    ensures AuthorityChars(user + info) && BracketsFit(env, user + info)
  {
    forall i | 0 <= i < |user + info| ensures !EndsAuthority((user + info)[i]) && !IsBreak((user + info)[i]) {
      if i >= |user| {
        assert (user + info)[i] == info[i - |user|];
      }
    }
  }

  lemma WrittenPort(sp: Spelling, url: Url)
    requires sp.digits.Some? ==> AllDigits(sp.digits.value)
    requires PortText(HostInfo(url.authority)) == Written(sp.digits)
    ensures var number := sp.Number();
            Port(url) == if number.Some? && number.value > 65535 then Err(Malformed) else Ok(number)
  {
  }

  lemma SpelledParses(env: Environment, sp: Spelling, url: Url)
    requires WellSpelled(env, sp)
    requires url == Url(T.Lower(sp.scheme), sp.AuthorityText(), Path(sp.tail), Query(sp.tail))
    ensures Parse(env, sp.scheme + "://" + sp.Rest()) == Ok(url)
  {
    var rest := "//" + sp.AuthorityText() + sp.tail;
    AuthorityReads(env, sp);
    TailBegins(sp);
    assert NoBreaks(rest) by {
      RestHasNoBreaks(sp.AuthorityText(), sp.tail);
    }
    ParseAnyScheme(env, sp.scheme, rest);
    ParseRestOwn(env, T.Lower(sp.scheme), sp.AuthorityText(), sp.tail);
    Regrouped(sp.scheme, sp.AuthorityText(), sp.tail, sp.Rest());
  }

  lemma Regrouped(scheme: string, authority: string, tail: string, rest: string)
    requires rest == authority + tail
    ensures scheme + "://" + rest == scheme + ":" + ("//" + authority + tail)
  {
  }

  lemma RestHasNoBreaks(authority: string, tail: string)
    requires NoBreaks(authority) && NoBreaks(tail)
    ensures NoBreaks("//" + authority + tail)
  {
    var rest := "//" + authority + tail;
    forall i | 0 <= i < |rest| ensures !IsBreak(rest[i]) {
      if 2 <= i < 2 + |authority| {
        assert rest[i] == authority[i - 2];
      } else if i >= 2 + |authority| {
        assert rest[i] == tail[i - 2 - |authority|];
      }
    }
  }

  /* Whole texts. */

  /** The text of a URL; https is what a text without any scheme means. */
  predicate Spells(sp: Spelling, text: string) {
    || text == sp.scheme + "://" + sp.Rest()
    || (text == sp.Rest() && sp.scheme == "https" && !T.Contains(text, "://"))
  }

  lemma SchemeIsCompleted(sp: Spelling, text: string)
    requires Spells(sp, text) && sp.scheme != ""
    ensures WithScheme(text) == sp.scheme + "://" + sp.Rest()
  {
    Completed(sp.scheme, "://", sp.Rest(), text);
  }

  lemma Completed(scheme: string, mark: string, rest: string, text: string)
    requires mark == "://"
    requires text == scheme + mark + rest || (text == rest && scheme == "https" && !T.Contains(text, mark))
    ensures WithScheme(text) == scheme + mark + rest
  {
    if text == scheme + mark + rest {
      MarkIsThere(scheme, mark, rest, text);
    } else {
      assert "https://" + rest == scheme + mark + rest;
    }
  }

  lemma MarkIsThere(scheme: string, mark: string, rest: string, text: string)
    requires text == scheme + mark + rest
    ensures T.Contains(text, mark)
  {
    assert mark <= text[|scheme|..];
    T.ContainsAt(text, mark, |scheme|);
  }

  lemma TargetReads(env: Environment, target: string, text: string, full: string, url: Url, resolve: bool)
    requires T.Strip(target) == text && text != "" && WithScheme(text) == full && Parse(env, full) == Ok(url)
    ensures ValidateUrl(env, target, resolve) == Validated(env, url, resolve)
  {
  }

  lemma SpelledValidates(env: Environment, sp: Spelling, target: string, text: string, resolve: bool, url: Url)
    requires WellSpelled(env, sp) && Spells(sp, text) && T.Strip(target) == text && text != ""
    requires url == Url(T.Lower(sp.scheme), sp.AuthorityText(), Path(sp.tail), Query(sp.tail))
    ensures ValidateUrl(env, target, resolve) == Validated(env, url, resolve)
    ensures Hostname(url) == sp.Host()
    ensures var number := sp.Number();
            Port(url) == if number.Some? && number.value > 65535 then Err(Malformed) else Ok(number)
  {
    SpelledParses(env, sp, url);
    SchemeLetters(sp.scheme);
    SchemeIsCompleted(sp, text);
    TargetReads(env, target, text, sp.scheme + "://" + sp.Rest(), url, resolve);
    AuthorityReads(env, sp);
    WrittenPort(sp, url);
  }

  lemma BadPortFails(env: Environment, target: string, resolve: bool, url: Url, error: Error)
    requires ValidateUrl(env, target, resolve) == Validated(env, url, resolve)
    requires CheckParts(env, url.scheme, Hostname(url), Port(url), resolve) == Err(error)
    ensures NormalizeScanTarget(env, target, resolve) == Err(error)
  {
  }

  /** The port as the target shows it. */
  function ShownPort(number: Option<nat>): string {
    if number.None? || number.value == 80 || number.value == 443 then "" else ":" + T.Decimal(number.value)
  }

  /** The host as the target shows it: a literal keeps its brackets with a port. */
  function ShownHost(host: string, number: Option<nat>): string {
    if ':' in host && ShownPort(number) != "" then "[" + host + "]" else host
  }

  lemma NetlocShows(host: string, number: Option<nat>)
    requires !T.StartsWith(host, "[")
    ensures Netloc(host, number) == ShownHost(host, number) + ShownPort(number)
    ensures Explicit(number) <==> ShownPort(number) != ""
  {
  }

  lemma GoodHostStarts(env: Environment, host: string)
    requires GoodHost(env, host)
    ensures !T.StartsWith(host, "[")
  {
    StartIsIn(host);
  }

  lemma GoodPartsCheck(env: Environment, scheme: string, host: string, number: Option<nat>, resolve: bool)
    requires AllowedScheme(scheme) && GoodHost(env, host) && PortInRange(number)
    requires resolve ==> env.dnsError(host).None?
    ensures CheckParts(env, scheme, host, Ok(number), resolve) == Ok(number)
  {
  }

  /** Whatever the spelling: user information, path, query and fragment go, scheme
      and host lose their letter case, the scheme becomes https, and a port stays
      unless it is one of the two usual ones. An IPv6 literal needs such a port. */
  lemma EveryUrlNormalizes(env: Environment, sp: Spelling, text: string, target: string, resolve: bool)
    requires WellSpelled(env, sp) && Spells(sp, text) && T.Strip(target) == text && text != ""
    requires resolve ==> env.dnsError(sp.Host()).None?
    requires PortInRange(sp.Number())
    ensures var normalized := NormalizeScanTarget(env, target, resolve);
            if ':' in sp.Host() && ShownPort(sp.Number()) == "" then normalized.Err?
            else normalized == Ok("https://" + (ShownHost(sp.Host(), sp.Number()) + ShownPort(sp.Number())) + "/")
  {
    var url := Url(T.Lower(sp.scheme), sp.AuthorityText(), Path(sp.tail), Query(sp.tail));
    SpelledValidates(env, sp, target, text, resolve, url);
    GoodPartsCheck(env, url.scheme, sp.Host(), sp.Number(), resolve);
    TailBegins(sp);
    TailChars(url, sp.tail);
    OwnUrlNormalizes(env, target, resolve, url.scheme, sp.Host(), sp.Number(), Tail(url));
    GoodHostStarts(env, sp.Host());
    NetlocShows(sp.Host(), sp.Number());
  }

  /** A port that no connection has is refused, one beyond the range is an error. */
  lemma BadPortsFail(env: Environment, sp: Spelling, text: string, target: string, resolve: bool)
    requires WellSpelled(env, sp) && Spells(sp, text) && T.Strip(target) == text && text != ""
    requires resolve ==> env.dnsError(sp.Host()).None?
    requires !PortInRange(sp.Number())
    ensures NormalizeScanTarget(env, target, resolve) == Err(if sp.Number() == Some(0) then Refused else Malformed)
  {
    var url := Url(T.Lower(sp.scheme), sp.AuthorityText(), Path(sp.tail), Query(sp.tail));
    SpelledValidates(env, sp, target, text, resolve, url);
    BadPortFails(env, target, resolve, url, if sp.Number() == Some(0) then Refused else Malformed);
  }

  /** A host that does not resolve to allowed addresses is refused with the
      resolver's own verdict, unless nothing is resolved. */
  lemma UnresolvedIsRefused(env: Environment, sp: Spelling, text: string, target: string)
    requires WellSpelled(env, sp) && Spells(sp, text) && T.Strip(target) == text && text != ""
    requires env.dnsError(sp.Host()).Some?
    ensures NormalizeScanTarget(env, target, true) == Err(env.dnsError(sp.Host()).value)
  {
    var url := Url(T.Lower(sp.scheme), sp.AuthorityText(), Path(sp.tail), Query(sp.tail));
    SpelledValidates(env, sp, target, text, true, url);
    BadPortFails(env, target, true, url, env.dnsError(sp.Host()).value);
  }

  /** White space around a target does not matter. */
  lemma PaddedTargetIsStripped(left: string, text: string, right: string)
    requires L.AllSpaces(left) && L.AllSpaces(right) && L.Trimmed(text)
    ensures T.Strip(left + text + right) == text
  {
    L.StripTakesPadding(left, text, right);
  }

  /** For one: with user information, and on nothing but letters. */
  lemma UserInfoExample(user: string, host: string, target: string)
    requires IsUserInfo(user) && host != "" && forall i :: 0 <= i < |host| ==> 'a' <= host[i] <= 'z'
    requires target == "https://" + (user + host + "/")
    ensures NormalizeScanTarget(PLAIN_HOSTS, target, false) == Ok("https://" + host + "/")
  {
    var scheme, slash := "https", "/";
    var sp := Spelling(scheme, user, host, "", None, slash);
    AllowedIsLower(scheme);
    ExampleSpells(sp, scheme, user, host, slash);
    ExampleText(target, scheme, user + host + slash);
    EveryUrlNormalizes(PLAIN_HOSTS, sp, target, target, false);
    assert ShownHost(host, None) + ShownPort(None) == host;
  }

  lemma ExampleText(target: string, scheme: string, rest: string)
    requires scheme == "https" && target == "https://" + rest && rest != "" && rest[|rest| - 1] == '/'
    ensures target == scheme + "://" + rest && target != "" && T.Strip(target) == target
  {
    assert target[0] == 'h' && target[|target| - 1] == rest[|rest| - 1];
    StripsToItself(target);
  }

  lemma ExampleSpells(sp: Spelling, scheme: string, user: string, host: string, slash: string)
    requires sp == Spelling(scheme, user, host, "", None, slash) && slash == "/"
    requires AllowedScheme(scheme) && T.Lower(scheme) == scheme
    requires IsUserInfo(user) && host != "" && forall i :: 0 <= i < |host| ==> 'a' <= host[i] <= 'z'
    ensures WellSpelled(PLAIN_HOSTS, sp) && sp.Host() == host && ':' !in host && sp.Rest() == user + host + slash
    ensures sp.Number() == None
  {
    LetterChars(host);
    PlainHostIsGood(host);
    assert host + "" == host && T.Lower(host) + "" == host;
  }

  lemma StripsToItself(text: string)
    requires L.Trimmed(text)
    ensures T.Strip(text) == text
  {
    assert "" + text + "" == text;
    L.StripTakesPadding("", text, "");
  }

  /* What a validated URL keeps. */

  /** A path without parameters behind its last slash. */
  ghost predicate PlainPath(path: string) {
    && NoBreaks(path) && (path == "" || path[0] == '/') && '?' !in path && '#' !in path
    && ';' !in AfterLast(path, '/')
  }

  lemma {:induction false} LastStays(path: string, more: string)
    requires '/' !in more
    ensures AfterLast(path + more, '/') == AfterLast(path, '/') + more
  {
    if path == "" {
      assert path + more == more;
    } else {
      assert (path + more)[1..] == path[1..] + more;
      assert '/' in path + more <==> '/' in path by {
        assert forall c :: c in path + more <==> c in path || c in more;
      }
      LastStays(path[1..], more);
    }
  }

  /** What a query, its question mark included, is read as. */
  function Asked(query: string): string {
    if query == "" then "" else query[1..]
  }

  lemma QueryReads(front: string, query: string, fragment: string, tail: string)
    requires tail == front + query + fragment && '?' !in front && '#' !in front
    requires (query == "" || query[0] == '?') && '#' !in query && (fragment == "" || fragment[0] == '#')
    ensures T.Before(T.Before(tail, '#'), '?') == front && Query(tail) == Asked(query)
  {
    var text := front + query;
    T.BeforeStops(text, '#', fragment);
    T.BeforeStops(front, '?', query);
    if query != "" {
      assert text[|front| + 1..] == query[1..];
    }
  }

  lemma PathPart(path: string, parameters: string, front: string)
    requires ';' !in AfterLast(path, '/') && front == path + parameters
    requires (parameters == "" || parameters[0] == ';') && '/' !in parameters
    ensures front[..|front| - |AfterLast(front, '/')|] + T.Before(AfterLast(front, '/'), ';') == path
  {
    var last := AfterLast(path, '/');
    LastStays(path, parameters);
    T.BeforeStops(last, ';', parameters);
    LastPart(path, parameters, front, last);
  }

  lemma LastPart(path: string, parameters: string, front: string, last: string)
    requires front == path + parameters && |last| <= |path| && last == path[|path| - |last|..]
    ensures front[..|front| - |last + parameters|] + last == path
  {
  }

  lemma PathReads(path: string, parameters: string, query: string, fragment: string, tail: string)
    requires PlainPath(path) && tail == path + parameters + query + fragment
    requires parameters == "" || parameters[0] == ';'
    requires '/' !in parameters && '?' !in parameters && '#' !in parameters
    requires (query == "" || query[0] == '?') && '#' !in query && (fragment == "" || fragment[0] == '#')
    ensures Path(tail) == path && Query(tail) == Asked(query)
  {
    QueryReads(path + parameters, query, fragment, tail);
    PathPart(path, parameters, path + parameters);
  }

  lemma GoodPartsValidate(env: Environment, url: Url, host: string, number: Option<nat>, resolve: bool, tail: string)
    requires AllowedScheme(url.scheme) && GoodHost(env, host) && PortInRange(number)
    requires resolve ==> env.dnsError(host).None?
    requires Hostname(url) == host && Port(url) == Ok(number) && tail == Tail(url)
    ensures Validated(env, url, resolve)
            == Ok(url.scheme + "://" + (ShownHost(host, number) + ShownPort(number)) + tail)
  {
    GoodPartsCheck(env, url.scheme, host, number, resolve);
    GoodHostStarts(env, host);
    NetlocShows(host, number);
  }

  lemma SpelledValidatesTo(env: Environment, sp: Spelling, text: string, target: string, resolve: bool, rest: string)
    requires WellSpelled(env, sp) && Spells(sp, text) && T.Strip(target) == text && text != ""
    requires resolve ==> env.dnsError(sp.Host()).None?
    requires PortInRange(sp.Number())
    requires rest == Tail(Url("", "", Path(sp.tail), Query(sp.tail)))
    ensures ValidateUrl(env, target, resolve)
            == Ok(T.Lower(sp.scheme) + "://" + (ShownHost(sp.Host(), sp.Number()) + ShownPort(sp.Number())) + rest)
  {
    var url := Url(T.Lower(sp.scheme), sp.AuthorityText(), Path(sp.tail), Query(sp.tail));
    SpelledValidates(env, sp, target, text, resolve, url);
    GoodPartsValidate(env, url, sp.Host(), sp.Number(), resolve, rest);
  }

  lemma TailReads(path: string, parameters: string, query: string, fragment: string, tail: string)
    requires PlainPath(path) && tail == path + parameters + query + fragment
    requires parameters == "" || parameters[0] == ';'
    requires '/' !in parameters && '?' !in parameters && '#' !in parameters
    requires (query == "" || query[0] == '?') && '#' !in query && (fragment == "" || fragment[0] == '#')
    ensures Tail(Url("", "", Path(tail), Query(tail))) == path + if query == "?" then "" else query
  {
    PathReads(path, parameters, query, fragment, tail);
    AskedAgain(path, query, Url("", "", path, Asked(query)));
  }

  lemma AskedAgain(path: string, query: string, url: Url)
    requires query == "" || query[0] == '?'
    requires url.path == path && url.query == Asked(query)
    ensures Tail(url) == path + if query == "?" then "" else query
  {
    assert query != "" ==> query == "?" + query[1..];
  }

  /** Validation keeps path and query as they are; user information, parameters,
      fragment and the usual ports go, scheme and host lose their letter case. */
  lemma ValidatedKeepsPathAndQuery(env: Environment, sp: Spelling, text: string, target: string, resolve: bool,
                                   path: string, parameters: string, query: string, fragment: string)
    requires WellSpelled(env, sp) && Spells(sp, text) && T.Strip(target) == text && text != ""
    requires resolve ==> env.dnsError(sp.Host()).None?
    requires PortInRange(sp.Number())
    requires PlainPath(path) && sp.tail == path + parameters + query + fragment
    requires parameters == "" || parameters[0] == ';'
    requires '/' !in parameters && '?' !in parameters && '#' !in parameters
    requires (query == "" || query[0] == '?') && '#' !in query && (fragment == "" || fragment[0] == '#')
    ensures ValidateUrl(env, target, resolve)
            == Ok(T.Lower(sp.scheme) + "://" + (ShownHost(sp.Host(), sp.Number()) + ShownPort(sp.Number()))
                  + (path + if query == "?" then "" else query))
  {
    TailReads(path, parameters, query, fragment, sp.tail);
    SpelledValidatesTo(env, sp, text, target, resolve, path + if query == "?" then "" else query);
  }

  /* Origins. */

  /** The origin of a URL is its scheme and its authority as written, of a text
      without a scheme that text up to the first slash under https. */
  lemma OriginReads(env: Environment, sp: Spelling, text: string)
    requires WellSpelled(env, sp) && AllowedScheme(sp.scheme)
    requires || text == sp.scheme + "://" + sp.Rest()
             || (sp.scheme == "https" && text == sp.Rest() && !O.HasHttp(text))
    ensures O.NormalizeOrigin(env, text) == Ok(sp.scheme + "://" + sp.AuthorityText())
  {
    HttpIsCompleted(sp.scheme, sp.Rest(), text);
    SpelledOrigin(env, sp, text, sp.scheme + "://" + sp.Rest());
  }

  lemma SpelledOrigin(env: Environment, sp: Spelling, text: string, full: string)
    requires WellSpelled(env, sp) && AllowedScheme(sp.scheme)
    requires full == sp.scheme + "://" + sp.Rest() && O.WithHttp(text) == full
    ensures O.NormalizeOrigin(env, text) == Ok(sp.scheme + "://" + sp.AuthorityText())
  {
    var url := Url(sp.scheme, sp.AuthorityText(), Path(sp.tail), Query(sp.tail));
    AllowedIsLower(sp.scheme);
    SpelledParses(env, sp, url);
    TailBegins(sp);
    PathChars(sp.tail);
    OriginFollows(env, text, full, url);
  }

  lemma AllowedIsLower(scheme: string)
    requires AllowedScheme(scheme)
    ensures T.Lower(scheme) == scheme
  {
    SchemeReadsBack(scheme, "");
  }

  lemma HttpIsCompleted(scheme: string, rest: string, text: string)
    requires AllowedScheme(scheme)
    requires text == scheme + "://" + rest || (scheme == "https" && text == rest && !O.HasHttp(text))
    ensures O.WithHttp(text) == scheme + "://" + rest
  {
    if text == scheme + "://" + rest {
      O.SchemeHasHttp(scheme, rest);
    }
  }

  lemma OriginFollows(env: Environment, text: string, full: string, url: Url)
    requires O.WithHttp(text) == full && Parse(env, full) == Ok(url)
    requires AllowedScheme(url.scheme) && (url.path == "" || url.path[0] == '/')
    ensures O.NormalizeOrigin(env, text) == Ok(url.scheme + "://" + url.authority)
  {
    O.OwnOrigin(url);
  }

  /* What parsing takes away, and other schemes. */

  /** The text is the clean one with tabs and line breaks put in anywhere. */
  predicate Broken(text: string, clean: string)
    decreases |text|
  {
    if text == "" then clean == ""
    else if text[0] in "\t\r\n" then Broken(text[1..], clean)
    else clean != "" && clean[0] == text[0] && Broken(text[1..], clean[1..])
  }

  lemma {:induction false} BreaksGo(text: string, clean: string)
    requires Broken(text, clean)
    ensures WithoutBreaks(text) == clean
    decreases |text|
  {
    if text != "" {
      if text[0] in "\t\r\n" {
        BreaksGo(text[1..], clean);
      } else {
        BreaksGo(text[1..], clean[1..]);
      }
    }
  }

  lemma {:induction false} ControlsGo(controls: string, text: string)
    requires forall i :: 0 <= i < |controls| ==> controls[i] <= ' '
    requires text == "" || text[0] > ' '
    ensures WithoutLeadingControls(controls + text) == text
  {
    if controls == "" {
      assert controls + text == text;
    } else {
      assert (controls + text)[1..] == controls[1..] + text;
      ControlsGo(controls[1..], text);
    }
  }

  lemma ParsedAlike(env: Environment, text: string, clean: string)
    requires WithoutBreaks(WithoutLeadingControls(text)) == clean
    requires WithoutBreaks(WithoutLeadingControls(clean)) == clean
    ensures Parse(env, text) == Parse(env, clean)
  {
  }

  lemma BrokenKeepsItself(clean: string)
    requires NoBreaks(clean) && (clean == "" || clean[0] > ' ')
    ensures WithoutBreaks(WithoutLeadingControls(clean)) == clean
  {
    NoBreaksStay(clean);
    assert "" + clean == clean;
    ControlsGo("", clean);
  }

  /** Control characters before a URL and line breaks and tabs inside it make no
      difference to the target. */
  lemma ControlsAndBreaksGo(env: Environment, controls: string, text: string, clean: string, resolve: bool)
    requires forall i :: 0 <= i < |controls| ==> controls[i] <= ' '
    requires text != "" && text[0] > ' ' && Broken(text, clean) && NoBreaks(clean) && clean != "" && clean[0] > ' '
    requires T.Strip(controls + text) == controls + text && T.Strip(clean) == clean
    requires T.Contains(controls + text, "://") && T.Contains(clean, "://")
    ensures NormalizeScanTarget(env, controls + text, resolve) == NormalizeScanTarget(env, clean, resolve)
  {
    ControlsGo(controls, text);
    BreaksGo(text, clean);
    BrokenKeepsItself(clean);
    ParsedAlike(env, controls + text, clean);
    ValidatedAlike(env, controls + text, clean, resolve);
    NormalizedAlike(env, controls + text, clean, resolve);
  }

  lemma ValidatedAlike(env: Environment, a: string, b: string, resolve: bool)
    requires a != "" && b != "" && T.Strip(a) == a && T.Strip(b) == b && WithScheme(a) == a && WithScheme(b) == b
    requires Parse(env, a) == Parse(env, b)
    ensures ValidateUrl(env, a, resolve) == ValidateUrl(env, b, resolve)
  {
  }

  lemma NormalizedAlike(env: Environment, a: string, b: string, resolve: bool)
    requires ValidateUrl(env, a, resolve) == ValidateUrl(env, b, resolve)
    ensures NormalizeScanTarget(env, a, resolve) == NormalizeScanTarget(env, b, resolve)
  {
  }

  const SCHEME_MARKS := "0123456789+-."

  predicate IsLetter(c: char) {
    'a' <= c <= 'z' || 'A' <= c <= 'Z'
  }

  lemma MarksAreSchemeChars(c: char)
    requires IsLetter(c) || c in SCHEME_MARKS
    ensures SchemeChar(c) && !IsBreak(c) && c != ':' && c > ' '
  {
  }

  /** What stands before the first colon is the scheme if it begins with a letter and
      goes on with letters, digits, plus and minus signs and dots. */
  lemma SchemeIsRead(env: Environment, scheme: string, rest: string)
    requires scheme != "" && IsLetter(scheme[0]) && NoBreaks(rest)
    requires forall i :: 0 <= i < |scheme| ==> IsLetter(scheme[i]) || scheme[i] in SCHEME_MARKS
    ensures Parse(env, scheme + ":" + rest) == ParseRest(env, T.Lower(scheme), rest)
  {
    forall i | 0 <= i < |scheme| ensures SchemeChar(scheme[i]) && !IsBreak(scheme[i]) && scheme[i] != ':' {
      MarksAreSchemeChars(scheme[i]);
    }
    AfterStops(scheme, ':', rest);
    BrokenKeepsItself(scheme + ":" + rest);
  }

  lemma RestKeepsScheme(env: Environment, scheme: string, rest: string)
    ensures ParseRest(env, scheme, rest).Ok? ==> ParseRest(env, scheme, rest).value.scheme == scheme
  {
  }

  lemma SchemeDecides(env: Environment, target: string, text: string, resolve: bool)
    requires T.Strip(target) == text && text != "" && WithScheme(text) == text
    requires Parse(env, text).Ok? ==> Parse(env, text).value.scheme !in {"http", "https"}
    ensures ValidateUrl(env, target, resolve).Err?
  {
  }

  lemma InvalidHasNoTarget(env: Environment, target: string, resolve: bool)
    requires ValidateUrl(env, target, resolve).Err?
    ensures NormalizeScanTarget(env, target, resolve).Err?
  {
  }

  /** No URL under any other scheme is a target. */
  lemma OtherSchemesFail(env: Environment, scheme: string, rest: string, text: string, target: string, resolve: bool)
    requires scheme != "" && IsLetter(scheme[0]) && NoBreaks(rest)
    requires forall i :: 0 <= i < |scheme| ==> IsLetter(scheme[i]) || scheme[i] in SCHEME_MARKS
    requires T.Lower(scheme) !in {"http", "https"}
    requires text == scheme + "://" + rest && T.Strip(target) == text
    ensures NormalizeScanTarget(env, target, resolve).Err?
  {
    var behind := "//" + rest;
    MarkIsThere(scheme, "://", rest, text);
    assert text == scheme + ":" + behind;
    assert NoBreaks(behind) by {
      assert forall i :: 2 <= i < |behind| ==> behind[i] == rest[i - 2];
    }
    SchemeIsRead(env, scheme, behind);
    RestKeepsScheme(env, T.Lower(scheme), behind);
    SchemeDecides(env, target, text, resolve);
    InvalidHasNoTarget(env, target, resolve);
  }
}
