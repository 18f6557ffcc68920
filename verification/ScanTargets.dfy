/** Scan targets as users type them, and the canonical form every later
    comparison relies on.

    URLs are taken apart as the Python standard library does it. Which host
    names are acceptable, which are bracketed literals and which resolve are
    questions put to an environment.
 */
module ScanTargets {
  import opened Wrappers
  import opened InflightScans
  import T = Text

  /** The backend's own refusal, or a plain value error from a library. */
  datatype Error = Refused | Malformed

  /** `hostError` is the verdict on a host name, `literal` whether a text may
      stand in brackets, `dnsError` the verdict on what a name resolves to. */
  datatype Environment = Environment(
    hostError: string -> Option<Error>,
    literal: string -> bool,
    dnsError: string -> Option<Error>)

  /* Taking text apart. */

  function After(s: string, separator: char): string {
    var piece := T.Before(s, separator);
    if |piece| < |s| then s[|piece| + 1..] else ""
  }

  function AfterLast(s: string, separator: char): (rest: string)
    ensures separator !in rest && |rest| <= |s|
    ensures separator in s ==> |rest| < |s|
    ensures rest == s[|s| - |rest|..]
  {
    if separator in s then AfterLast(s[1..], separator) else s
  }

  predicate EndsAuthority(c: char) {
    c == '/' || c == '?' || c == '#'
  }

  function Authority(s: string): (authority: string)
    ensures authority <= s && forall i :: 0 <= i < |authority| ==> !EndsAuthority(authority[i])
    ensures |authority| < |s| ==> EndsAuthority(s[|authority|])
  {
    if s == "" || EndsAuthority(s[0]) then "" else [s[0]] + Authority(s[1..])
  }

  predicate IsBreak(c: char) {
    c == '\t' || c == '\r' || c == '\n'
  }

  function WithoutBreaks(s: string): (rest: string)
    ensures forall i :: 0 <= i < |rest| ==> !IsBreak(rest[i])
  {
    if s == "" then "" else (if IsBreak(s[0]) then "" else [s[0]]) + WithoutBreaks(s[1..])
  }

  function WithoutLeadingControls(s: string): string {
    if s != "" && s[0] <= ' ' then WithoutLeadingControls(s[1..]) else s
  }

  predicate SchemeChar(c: char) {
    'a' <= c <= 'z' || 'A' <= c <= 'Z' || T.IsDigit(c) || c == '+' || c == '-' || c == '.'
  }

  predicate IsScheme(s: string) {
    s != "" && ('a' <= s[0] <= 'z' || 'A' <= s[0] <= 'Z') && forall i :: 0 <= i < |s| ==> SchemeChar(s[i])
  }

  /** The path in what follows the authority, without the parameters of its
      last segment. */
  function Path(tail: string): string {
    var path := T.Before(T.Before(tail, '#'), '?');
    var last := AfterLast(path, '/');
    path[..|path| - |last|] + T.Before(last, ';')
  }

  function Query(tail: string): string {
    After(T.Before(tail, '#'), '?')
  }

  datatype Url = Url(scheme: string, authority: string, path: string, query: string)

  function HostInfo(authority: string): string {
    AfterLast(authority, '@')
  }

  function HostText(info: string): string {
    if '[' in info then T.Before(After(info, '['), ']') else T.Before(info, ':')
  }

  function PortText(info: string): string {
    if '[' in info then After(After(After(info, '['), ']'), ':') else After(info, ':')
  }

  /** Lower case up to a zone index. */
  function LowerHost(host: string): string {
    var name := T.Before(host, '%');
    T.Lower(name) + host[|name|..]
  }

  /** The host name, empty if there is none. */
  function Hostname(url: Url): string {
    LowerHost(HostText(HostInfo(url.authority)))
  }

  predicate AllDigits(s: string) {
    forall i :: 0 <= i < |s| ==> T.IsDigit(s[i])
  }

  function Port(url: Url): Result<Option<nat>, Error> {
    var text := PortText(HostInfo(url.authority));
    if text == "" then Ok(None)
    else if !AllDigits(text) || T.Value(text) > 65535 then Err(Malformed)
    else Ok(Some(T.Value(text)))
  }

  predicate BracketsFit(env: Environment, authority: string) {
    && ('[' in authority <==> ']' in authority)
    && ('[' in authority ==> env.literal(HostText(HostInfo(authority))))
  }

  /** What stands after the scheme and its colon. */
  function ParseRest(env: Environment, scheme: string, rest: string): Result<Url, Error> {
    if !T.StartsWith(rest, "//") then Ok(Url(scheme, "", Path(rest), Query(rest)))
    else
      var authority := Authority(rest[2..]);
      var tail := rest[2..][|authority|..];
      if BracketsFit(env, authority) then Ok(Url(scheme, authority, Path(tail), Query(tail))) else Err(Malformed)
  }

  function Parse(env: Environment, url: string): Result<Url, Error> {
    var text := WithoutBreaks(WithoutLeadingControls(url));
    var scheme := T.Before(text, ':');
    if |scheme| < |text| && IsScheme(scheme) then ParseRest(env, T.Lower(scheme), text[|scheme| + 1..])
    else ParseRest(env, "", text)
  }

  /* The canonical form. */

  predicate DefaultPort(port: nat) {
    port == 80 || port == 443
  }

  function Netloc(host: string, port: Option<nat>): string {
    if port.None? || DefaultPort(port.value) then host
    else (if ':' in host && !T.StartsWith(host, "[") then "[" + host + "]" else host) + ":" + T.Decimal(port.value)
  }

  function WithScheme(url: string): string {
    if T.Contains(url, "://") then url else "https://" + url
  }

  predicate AllowedScheme(scheme: string) {
    scheme == "http" || scheme == "https"
  }

  /** Whether a URL with this scheme, host name and port may be fetched; the
      port, if so. */
  function CheckParts(env: Environment, scheme: string, host: string, port: Result<Option<nat>, Error>, resolve: bool)
    : Result<Option<nat>, Error>
  {
    if !AllowedScheme(scheme) then Err(Refused)
    else if host == "" then Err(Refused)
    else if env.hostError(host).Some? then Err(env.hostError(host).value)
    else if resolve && env.dnsError(host).Some? then Err(env.dnsError(host).value)
    else if port == Ok(Some(0)) then Err(Refused)
    else port
  }

  function Tail(url: Url): string {
    url.path + (if url.query != "" then "?" + url.query else "")
  }

  function Validated(env: Environment, url: Url, resolve: bool): Result<string, Error> {
    match CheckParts(env, url.scheme, Hostname(url), Port(url), resolve)
    case Err(e) => Err(e)
    case Ok(port) => Ok(url.scheme + "://" + Netloc(Hostname(url), port) + Tail(url))
  }

  function ValidateUrl(env: Environment, url: string, resolve: bool): Result<string, Error> {
    var raw := T.Strip(url);
    if raw == "" then Err(Refused)
    else
      match Parse(env, WithScheme(raw))
      case Err(e) => Err(e)
      case Ok(parsed) => Validated(env, parsed, resolve)
  }

  /** The canonical target of a host and a port. */
  function Target(host: string, port: Option<nat>): string {
    "https://" + Netloc(host, port) + "/"
  }

  function Canonical(host: string, port: Result<Option<nat>, Error>): Result<string, Error> {
    if host == "" then Err(Refused)
    else
      match port
      case Err(e) => Err(e)
      case Ok(p) => Ok(Target(host, p))
  }

  function NormalizeScanTarget(env: Environment, target: string, resolve: bool): Result<string, Error> {
    match ValidateUrl(env, target, resolve)
    case Err(e) => Err(e)
    case Ok(validated) =>
      match Parse(env, validated)
      case Err(e) => Err(e)
      case Ok(parsed) => Canonical(Hostname(parsed), Port(parsed))
  }

  /** A refusal falls back to comparing the texts, any other error goes to the
      caller. */
  function TargetsMatch(env: Environment, stored: string, provided: string): Result<bool, Error> {
    match NormalizeScanTarget(env, stored, false)
    case Err(Malformed) => Err(Malformed)
    case Err(Refused) => Ok(stored == provided)
    case Ok(s) =>
      match NormalizeScanTarget(env, provided, false)
      case Err(Malformed) => Err(Malformed)
      case Err(Refused) => Ok(stored == provided)
      case Ok(p) => Ok(s == p)
  }

  /* Reading a canonical text back. */

  lemma AfterStops(piece: string, separator: char, rest: string)
    requires separator !in piece
    ensures T.Before(piece + [separator] + rest, separator) == piece
    ensures After(piece + [separator] + rest, separator) == rest
    ensures T.Before(piece, separator) == piece && After(piece, separator) == ""
  {
    assert piece + [separator] + rest == piece + ([separator] + rest);
    T.BeforeStops(piece, separator, [separator] + rest);
    T.BeforeStops(piece, separator, "");
    assert piece + "" == piece;
  }

  lemma {:induction false} AuthorityStops(authority: string, tail: string)
    requires forall i :: 0 <= i < |authority| ==> !EndsAuthority(authority[i])
    requires tail == "" || EndsAuthority(tail[0])
    ensures Authority(authority + tail) == authority
  {
    if authority == "" {
      assert authority + tail == tail;
    } else {
      AuthorityStops(authority[1..], tail);
      assert (authority + tail)[1..] == authority[1..] + tail;
    }
  }

  ghost predicate NoBreaks(s: string) {
    forall i :: 0 <= i < |s| ==> !IsBreak(s[i])
  }

  lemma {:induction false} NoBreaksStay(s: string)
    requires NoBreaks(s)
    ensures WithoutBreaks(s) == s
  {
    if s != "" {
      NoBreaksStay(s[1..]);
    }
  }

  lemma ParseRestOwn(env: Environment, scheme: string, authority: string, tail: string)
    requires forall i :: 0 <= i < |authority| ==> !EndsAuthority(authority[i])
    requires tail == "" || EndsAuthority(tail[0])
    ensures ParseRest(env, scheme, "//" + authority + tail)
            == if BracketsFit(env, authority) then Ok(Url(scheme, authority, Path(tail), Query(tail)))
               else Err(Malformed)
  {
    var rest := "//" + authority + tail;
    assert rest[2..] == authority + tail;
    AuthorityStops(authority, tail);
    assert (authority + tail)[|authority|..] == tail;
  }

  lemma SchemeReadsBack(scheme: string, rest: string)
    requires AllowedScheme(scheme)
    ensures var text := scheme + ":" + rest;
            && T.Before(text, ':') == scheme && IsScheme(scheme) && T.Lower(scheme) == scheme
            && text[|scheme| + 1..] == rest && WithoutLeadingControls(text) == text
  {
    AfterStops(scheme, ':', rest);
    assert T.Lower(scheme) == scheme;
  }

  lemma ParseWithScheme(env: Environment, scheme: string, rest: string)
    requires AllowedScheme(scheme)
    requires NoBreaks(rest)
    ensures Parse(env, scheme + ":" + rest) == ParseRest(env, scheme, rest)
  {
    var text := scheme + ":" + rest;
    SchemeReadsBack(scheme, rest);
    forall i | 0 <= i < |text| ensures !IsBreak(text[i]) {
      if i > |scheme| {
        assert text[i] == rest[i - |scheme| - 1];
      }
    }
    NoBreaksStay(text);
  }

  lemma ParseOwn(env: Environment, scheme: string, authority: string, tail: string)
    requires AllowedScheme(scheme)
    requires NoBreaks(authority) && NoBreaks(tail)
    requires forall i :: 0 <= i < |authority| ==> !EndsAuthority(authority[i])
    requires tail == "" || EndsAuthority(tail[0])
    ensures Parse(env, scheme + "://" + authority + tail)
            == if BracketsFit(env, authority) then Ok(Url(scheme, authority, Path(tail), Query(tail)))
               else Err(Malformed)
  {
    var rest := "//" + authority + tail;
    Regroup(scheme, authority, tail);
    assert NoBreaks(rest) by {
      forall i | 0 <= i < |rest| ensures !IsBreak(rest[i]) {
        if 2 <= i < 2 + |authority| {
          assert rest[i] == authority[i - 2];
        } else if i >= 2 + |authority| {
          assert rest[i] == tail[i - 2 - |authority|];
        }
      }
    }
    ParseWithScheme(env, scheme, rest);
    ParseRestOwn(env, scheme, authority, tail);
  }

  lemma Regroup(scheme: string, authority: string, tail: string)
    ensures scheme + "://" + authority + tail == scheme + ":" + ("//" + authority + tail)
  {
  }

  /* Host names that survive. */

  predicate HostChar(c: char) {
    !EndsAuthority(c) && !IsBreak(c) && c != '@' && c != ']'
  }

  predicate HostChars(host: string) {
    forall i :: 0 <= i < |host| ==> HostChar(host[i])
  }

  predicate TwoColons(host: string) {
    ':' in After(host, ':')
  }

  /** The port is written out. */
  predicate Explicit(port: Option<nat>) {
    port.Some? && !DefaultPort(port.value)
  }

  lemma DecimalChars(n: nat)
    ensures AllDigits(T.Decimal(n)) && T.Decimal(n) != "" && HostChars(T.Decimal(n)) && '[' !in T.Decimal(n)
  {
    T.DecimalIsDigits(n);
    forall i | 0 <= i < |T.Decimal(n)| ensures HostChar(T.Decimal(n)[i]) && T.Decimal(n)[i] != '[' {
      assert T.IsDigit(T.Decimal(n)[i]);
    }
  }

  lemma HostCharsJoin(a: string, b: string)
    requires HostChars(a) && HostChars(b)
    ensures HostChars(a + b)
  {
  }

  /** Without a colon in the host, the netloc is plain. */
  lemma PlainNetloc(host: string, port: Option<nat>)
    requires HostChars(host) && ':' !in host && '[' !in host
    ensures var n := Netloc(host, port);
            && HostChars(n) && '[' !in n
            && T.Before(n, ':') == host
            && After(n, ':') == (if Explicit(port) then T.Decimal(port.value) else "")
  {
    if Explicit(port) {
      DecimalChars(port.value);
      AfterStops(host, ':', T.Decimal(port.value));
      HostCharsJoin(host, ":");
      HostCharsJoin(host + ":", T.Decimal(port.value));
    } else {
      AfterStops(host, ':', "");
    }
  }

  predicate NetlocChars(n: string) {
    forall i :: 0 <= i < |n| ==> !EndsAuthority(n[i]) && !IsBreak(n[i]) && n[i] != '@'
  }

  lemma NetlocCharsJoin(a: string, b: string)
    requires NetlocChars(a) && NetlocChars(b)
    ensures NetlocChars(a + b)
  {
  }

  lemma BracketedChars(host: string, digits: string)
    requires HostChars(host) && HostChars(digits)
    ensures NetlocChars("[" + host + "]" + ":" + digits)
  {
    NetlocCharsJoin("[", host);
    NetlocCharsJoin("[" + host, "]");
    NetlocCharsJoin("[" + host + "]", ":");
    NetlocCharsJoin("[" + host + "]" + ":", digits);
  }

  lemma BracketedNetloc(host: string, port: Option<nat>)
    requires HostChars(host) && ':' in host && !T.StartsWith(host, "[") && Explicit(port)
    ensures var n := Netloc(host, port);
            && NetlocChars(n)
            && '[' in n && ']' in n && HostText(n) == host && PortText(n) == T.Decimal(port.value)
  {
    var digits := T.Decimal(port.value);
    DecimalChars(port.value);
    BracketedChars(host, digits);
    BracketsRead(host, digits, Netloc(host, port));
  }

  lemma BracketsRead(host: string, digits: string, n: string)
    requires ']' !in host && n == "[" + host + "]" + ":" + digits
    ensures '[' in n && ']' in n && HostText(n) == host && PortText(n) == digits
  {
    var inner := host + "]" + (":" + digits);
    assert n == "" + "[" + inner;
    AfterStops("", '[', inner);
    AfterStops(host, ']', ":" + digits);
    AfterStops("", ':', digits);
    assert ":" + digits == "" + ":" + digits;
    assert n[0] == '[' && n[|host| + 1] == ']';
  }

  lemma PortReads(url: Url, port: nat)
    requires PortText(HostInfo(url.authority)) == T.Decimal(port) && port <= 65535
    ensures Port(url) == Ok(Some(port))
  {
    T.DecimalRoundTrip(port);
    DecimalChars(port);
  }

  /** Written without brackets, the text after the first colon is no port. */
  lemma BareLiteralHasNoPort(url: Url)
    requires HostChars(url.authority) && '[' !in url.authority && TwoColons(url.authority)
    ensures Port(url) == Err(Malformed)
  {
    var info := HostInfo(url.authority);
    assert info == url.authority;
    assert '[' !in info;
    var i :| 0 <= i < |PortText(info)| && PortText(info)[i] == ':';
    assert !T.IsDigit(PortText(info)[i]);
  }

  /* Where a parsed host name comes from. */

  predicate AuthorityChars(s: string) {
    forall i :: 0 <= i < |s| ==> !EndsAuthority(s[i]) && !IsBreak(s[i])
  }

  lemma SuffixChars(s: string, from: nat)
    requires AuthorityChars(s) && from <= |s|
    ensures AuthorityChars(s[from..])
  {
  }

  /** The text of the host: no at sign, and either plain or what stood between
      brackets. */
  lemma HostTextChars(authority: string)
    requires AuthorityChars(authority)
    ensures var text := HostText(HostInfo(authority));
            && AuthorityChars(text) && '@' !in text
            && (if '[' in HostInfo(authority) then ']' !in text else '[' !in text && ':' !in text)
  {
    var info := HostInfo(authority);
    SuffixChars(authority, |authority| - |info|);
    if '[' in info {
      AfterChars(info, '[');
      PrefixChars(After(info, '['), HostText(info));
    } else {
      PrefixChars(info, HostText(info));
    }
  }

  lemma AfterChars(s: string, separator: char)
    requires AuthorityChars(s) && '@' !in s
    ensures AuthorityChars(After(s, separator)) && '@' !in After(s, separator)
  {
    var piece := T.Before(s, separator);
    if |piece| < |s| {
      SuffixChars(s, |piece| + 1);
    }
  }

  lemma PrefixChars(s: string, prefix: string)
    requires AuthorityChars(s) && '@' !in s && prefix <= s
    ensures AuthorityChars(prefix) && '@' !in prefix && ('[' !in s ==> '[' !in prefix)
  {
  }

  lemma LowerHostChars(raw: string)
    ensures |LowerHost(raw)| == |raw|
    ensures forall i :: 0 <= i < |raw| ==> LowerHost(raw)[i] == raw[i] || LowerHost(raw)[i] == T.LowerChar(raw[i])
  {
  }

  lemma LowerHostTwice(raw: string)
    ensures LowerHost(LowerHost(raw)) == LowerHost(raw)
  {
    var name := T.Before(raw, '%');
    var zone := raw[|name|..];
    assert '%' !in T.Lower(name);
    T.BeforeStops(T.Lower(name), '%', zone);
    T.LowerTwice(name);
  }

  /** Lowering touches letters only. */
  lemma LowerHostKeeps(raw: string, c: char)
    requires !('a' <= c <= 'z') && !('A' <= c <= 'Z')
    ensures c in LowerHost(raw) <==> c in raw
  {
    LowerHostChars(raw);
    if c in raw {
      var i :| 0 <= i < |raw| && raw[i] == c;
      assert LowerHost(raw)[i] == c;
    }
  }

  lemma LowerHostAuthority(raw: string)
    requires AuthorityChars(raw)
    ensures AuthorityChars(LowerHost(raw))
  {
    LowerHostChars(raw);
  }

  /** What the verdict on host names lets through: a closing bracket only behind
      an opening one, or in the zone index of an IPv6 literal; without one, an
      opening bracket only in such a zone index, not in front; a colon only in an
      IPv6 literal, which has two at least (section 2.2 of RFC 4291). */
  predicate SaneName(host: string) {
    if ']' in host then ':' in host || '[' in host
    else (':' in host ==> TwoColons(host)) && ('[' in host ==> ':' in host) && !T.StartsWith(host, "[")
  }

  /** Accepted names are of that kind, and letter case does not matter in a
      literal. */
  ghost predicate Sane(env: Environment) {
    && (forall h :: env.hostError(h).None? ==> SaneName(h))
    && (forall h :: env.literal(h) ==> env.literal(LowerHost(h)))
  }

  predicate LiteralName(host: string) {
    ':' in host && TwoColons(host) && !T.StartsWith(host, "[")
  }

  /** A plain name, or an IPv6 literal, whose zone index may hold an opening
      bracket. */
  ghost predicate GoodHost(env: Environment, host: string) {
    && host != "" && HostChars(host) && LowerHost(host) == host
    && env.hostError(host).None?
    && (if ':' in host then LiteralName(host) && env.literal(host) else '[' !in host)
  }

  lemma ParsedHostChars(authority: string)
    requires AuthorityChars(authority)
    ensures var host := LowerHost(HostText(HostInfo(authority)));
            && AuthorityChars(host) && '@' !in host && LowerHost(host) == host
            && (if '[' in HostInfo(authority) then ']' !in host else '[' !in host && ':' !in host)
  {
    var raw := HostText(HostInfo(authority));
    HostTextChars(authority);
    LowerHostAuthority(raw);
    LowerHostTwice(raw);
    LowerHostKeeps(raw, '@');
    LowerHostKeeps(raw, '[');
    LowerHostKeeps(raw, ']');
    LowerHostKeeps(raw, ':');
  }

  /** Of the names let through, a parsed URL yields the good ones. */
  lemma SaneHostIsGood(env: Environment, host: string, bracketed: bool)
    requires host != "" && env.hostError(host).None? && SaneName(host)
    requires AuthorityChars(host) && '@' !in host && LowerHost(host) == host
    requires if bracketed then ']' !in host && env.literal(host) else '[' !in host && ':' !in host
    ensures GoodHost(env, host)
  {
    assert ']' !in host;
  }

  lemma ParsedHostIsGood(env: Environment, authority: string)
    requires Sane(env) && AuthorityChars(authority) && BracketsFit(env, authority)
    requires var host := LowerHost(HostText(HostInfo(authority))); host != "" && env.hostError(host).None?
    ensures GoodHost(env, LowerHost(HostText(HostInfo(authority))))
  {
    var info := HostInfo(authority);
    ParsedHostChars(authority);
    assert '[' in info ==> '[' in authority;
    SaneHostIsGood(env, LowerHost(HostText(info)), '[' in info);
  }

  lemma PathChars(tail: string)
    requires NoBreaks(tail) && (tail == "" || EndsAuthority(tail[0]))
    ensures NoBreaks(Path(tail)) && (Path(tail) == "" || Path(tail)[0] == '/')
  {
    var path := T.Before(T.Before(tail, '#'), '?');
    assert path <= tail;
    assert path != "" ==> path[0] == '/';
    PathParts(path, |path| - |AfterLast(path, '/')|, T.Before(AfterLast(path, '/'), ';'));
  }

  lemma PathParts(path: string, cut: nat, name: string)
    requires NoBreaks(path) && (path == "" || path[0] == '/')
    requires cut <= |path| && name <= path[cut..] && (path != "" ==> cut > 0)
    ensures NoBreaks(path[..cut] + name) && (path[..cut] + name == "" || (path[..cut] + name)[0] == '/')
  {
    assert forall i :: 0 <= i < |name| ==> name[i] == path[cut + i];
  }

  lemma QueryChars(tail: string)
    requires NoBreaks(tail)
    ensures NoBreaks(Query(tail))
  {
    var text := T.Before(tail, '#');
    assert text <= tail;
  }

  /** What stands after the authority of a parsed URL, rebuilt. */
  lemma TailChars(url: Url, tail: string)
    requires NoBreaks(tail) && (tail == "" || EndsAuthority(tail[0]))
    requires url.path == Path(tail) && url.query == Query(tail)
    ensures NoBreaks(Tail(url)) && (Tail(url) == "" || EndsAuthority(Tail(url)[0]))
  {
    PathChars(tail);
    QueryChars(tail);
    TailOf(url.path, url.query, Tail(url));
  }

  lemma TailOf(path: string, query: string, tail: string)
    requires NoBreaks(path) && NoBreaks(query) && (path == "" || path[0] == '/')
    requires tail == path + (if query != "" then "?" + query else "")
    ensures NoBreaks(tail) && (tail == "" || EndsAuthority(tail[0]))
  {
  }

  lemma RestParts(env: Environment, scheme: string, rest: string)
    requires NoBreaks(rest) && ParseRest(env, scheme, rest).Ok?
    ensures var url := ParseRest(env, scheme, rest).value;
            url.authority != "" ==>
              && AuthorityChars(url.authority) && BracketsFit(env, url.authority)
              && NoBreaks(Tail(url)) && (Tail(url) == "" || EndsAuthority(Tail(url)[0]))
  {
    var url := ParseRest(env, scheme, rest).value;
    if url.authority != "" {
      var after := rest[2..];
      assert NoBreaks(after);
      assert NoBreaks(after[|url.authority|..]);
      TailChars(url, after[|url.authority|..]);
    }
  }

  lemma ParsedParts(env: Environment, text: string)
    requires Parse(env, text).Ok?
    ensures var url := Parse(env, text).value;
            url.authority != "" ==>
              && AuthorityChars(url.authority) && BracketsFit(env, url.authority)
              && NoBreaks(Tail(url)) && (Tail(url) == "" || EndsAuthority(Tail(url)[0]))
  {
    var clean := WithoutBreaks(WithoutLeadingControls(text));
    var scheme := T.Before(clean, ':');
    if |scheme| < |clean| && IsScheme(scheme) {
      RestParts(env, T.Lower(scheme), clean[|scheme| + 1..]);
    } else {
      RestParts(env, "", clean);
    }
  }

  /* Normalisation. */

  predicate PortInRange(port: Option<nat>) {
    port.Some? ==> 1 <= port.value <= 65535
  }

  lemma CheckedParts(env: Environment, scheme: string, host: string, port: Result<Option<nat>, Error>, resolve: bool)
    requires port.Ok? && port.value.Some? ==> port.value.value <= 65535
    requires CheckParts(env, scheme, host, port, resolve).Ok?
    ensures AllowedScheme(scheme) && host != "" && env.hostError(host).None? && port.Ok? && PortInRange(port.value)
    ensures CheckParts(env, scheme, host, port, resolve) == port
  {
  }

  /** A validated URL is a scheme, a good host with its port, and a tail. */
  lemma ValidatedShape(env: Environment, target: string, resolve: bool) returns (url: Url)
    requires Sane(env) && ValidateUrl(env, target, resolve).Ok?
    ensures AllowedScheme(url.scheme)
    ensures Port(url).Ok? && GoodHost(env, Hostname(url)) && PortInRange(Port(url).value)
    ensures NoBreaks(Tail(url)) && (Tail(url) == "" || EndsAuthority(Tail(url)[0]))
    ensures ValidateUrl(env, target, resolve)
            == Ok(url.scheme + "://" + Netloc(Hostname(url), Port(url).value) + Tail(url))
  {
    var text := WithScheme(T.Strip(target));
    url := Parse(env, text).value;
    ParsedParts(env, text);
    CheckedParts(env, url.scheme, Hostname(url), Port(url), resolve);
    EmptyAuthorityHasNoHost(url);
    ParsedHostIsGood(env, url.authority);
  }

  lemma EmptyAuthorityHasNoHost(url: Url)
    ensures url.authority == "" ==> Hostname(url) == ""
  {
  }

  lemma NetlocReads(env: Environment, host: string, port: Option<nat>)
    requires GoodHost(env, host) && (':' !in host || Explicit(port))
    ensures var n := Netloc(host, port);
            && NetlocChars(n) && BracketsFit(env, n) && HostInfo(n) == n
            && HostText(n) == host
            && PortText(n) == (if Explicit(port) then T.Decimal(port.value) else "")
  {
    var n := Netloc(host, port);
    if ':' in host {
      BracketedNetloc(host, port);
    } else {
      PlainNetloc(host, port);
      assert HostChars(n);
    }
  }

  /** Without a colon in the host, or with a written-out port, the host and the
      port are read back. */
  lemma GoodHostReadsBack(env: Environment, scheme: string, host: string, port: Option<nat>, tail: string)
    requires AllowedScheme(scheme)
    requires GoodHost(env, host) && PortInRange(port) && (':' !in host || Explicit(port))
    requires NoBreaks(tail) && (tail == "" || EndsAuthority(tail[0]))
    ensures var url := Url(scheme, Netloc(host, port), Path(tail), Query(tail));
            && Parse(env, scheme + "://" + Netloc(host, port) + tail) == Ok(url)
            && Hostname(url) == host
            && Port(url) == Ok(if Explicit(port) then port else None)
  {
    var n := Netloc(host, port);
    NetlocReads(env, host, port);
    assert NoBreaks(n);
    ParseOwn(env, scheme, n, tail);
    if Explicit(port) {
      PortReads(Url(scheme, n, Path(tail), Query(tail)), port.value);
    }
  }

  /** An IPv6 host without a written-out port loses its brackets, and what is
      left of it has no valid port, or a bracket without its partner. */
  lemma BareLiteralIsRefused(env: Environment, scheme: string, host: string, port: Option<nat>, tail: string)
    requires AllowedScheme(scheme)
    requires GoodHost(env, host) && ':' in host && !Explicit(port)
    requires NoBreaks(tail) && (tail == "" || EndsAuthority(tail[0]))
    ensures var url, parsed := Url(scheme, host, Path(tail), Query(tail)),
                               Parse(env, scheme + "://" + Netloc(host, port) + tail);
            if '[' in host then parsed == Err(Malformed) else parsed == Ok(url) && Port(url) == Err(Malformed)
  {
    assert HostChars(host);
    ParseOwn(env, scheme, host, tail);
    if '[' !in host {
      BareLiteralHasNoPort(Url(scheme, host, Path(tail), Query(tail)));
    }
  }

  /* One unfolding each. */

  lemma NormalizeFollows(env: Environment, target: string, resolve: bool, validated: string, url: Url)
    requires ValidateUrl(env, target, resolve) == Ok(validated) && Parse(env, validated) == Ok(url)
    ensures NormalizeScanTarget(env, target, resolve) == Canonical(Hostname(url), Port(url))
  {
  }

  lemma NormalizeFails(env: Environment, target: string, resolve: bool, validated: string, parsed: Result<Url, Error>)
    requires ValidateUrl(env, target, resolve) == Ok(validated) && Parse(env, validated) == parsed
    ensures parsed.Err? ==> NormalizeScanTarget(env, target, resolve) == Err(parsed.error)
  {
  }

  lemma ValidateFollows(env: Environment, target: string, resolve: bool, url: Url)
    requires target != "" && T.Strip(target) == target && WithScheme(target) == target && Parse(env, target) == Ok(url)
    ensures ValidateUrl(env, target, resolve) == Validated(env, url, resolve)
  {
  }

  lemma CanonicalIs(host: string, port: Option<nat>)
    requires host != ""
    ensures Canonical(host, Ok(if Explicit(port) then port else None)) == Ok(Target(host, port))
  {
  }

  lemma TargetIs(host: string, port: Option<nat>, scheme: string, tail: string)
    requires scheme == "https" && tail == "/"
    ensures Target(host, port) == scheme + "://" + Netloc(host, port) + tail
  {
  }

  /** What a target can normalise to. */
  lemma NormalizedShape(env: Environment, target: string, resolve: bool)
    returns (host: string, port: Option<nat>)
    requires Sane(env) && NormalizeScanTarget(env, target, resolve).Ok?
    ensures GoodHost(env, host) && PortInRange(port) && (':' !in host || Explicit(port))
    ensures NormalizeScanTarget(env, target, resolve) == Ok(Target(host, port))
  {
    var url := ValidatedShape(env, target, resolve);
    host, port := Hostname(url), Port(url).value;
    OwnUrlNormalizes(env, target, resolve, url.scheme, host, port, Tail(url));
  }

  lemma OwnUrlNormalizes(env: Environment, target: string, resolve: bool, scheme: string, host: string,
      port: Option<nat>, tail: string)
    requires AllowedScheme(scheme) && GoodHost(env, host) && PortInRange(port)
    requires NoBreaks(tail) && (tail == "" || EndsAuthority(tail[0]))
    requires ValidateUrl(env, target, resolve) == Ok(scheme + "://" + Netloc(host, port) + tail)
    ensures var normalized := NormalizeScanTarget(env, target, resolve);
            if ':' in host && !Explicit(port) then normalized.Err? else normalized == Ok(Target(host, port))
  {
    var validated := scheme + "://" + Netloc(host, port) + tail;
    if ':' in host && !Explicit(port) {
      BareLiteralIsRefused(env, scheme, host, port, tail);
      NormalizeRefuses(env, target, resolve, validated);
    } else {
      GoodHostReadsBack(env, scheme, host, port, tail);
      NormalizeGives(env, target, resolve, validated, Url(scheme, Netloc(host, port), Path(tail), Query(tail)), host,
          port);
    }
  }

  lemma NormalizeRefuses(env: Environment, target: string, resolve: bool, validated: string)
    requires ValidateUrl(env, target, resolve) == Ok(validated)
    requires Parse(env, validated).Err? || Port(Parse(env, validated).value) == Err(Malformed)
    ensures NormalizeScanTarget(env, target, resolve).Err?
  {
    var parsed := Parse(env, validated);
    NormalizeFails(env, target, resolve, validated, parsed);
    if parsed.Ok? {
      NormalizeFollows(env, target, resolve, validated, parsed.value);
    }
  }

  lemma NormalizeGives(env: Environment, target: string, resolve: bool, validated: string, url: Url, host: string,
      port: Option<nat>)
    requires ValidateUrl(env, target, resolve) == Ok(validated) && Parse(env, validated) == Ok(url)
    requires host != "" && Hostname(url) == host && Port(url) == Ok(if Explicit(port) then port else None)
    ensures NormalizeScanTarget(env, target, resolve) == Ok(Target(host, port))
  {
    NormalizeFollows(env, target, resolve, validated, url);
    CanonicalIs(host, port);
  }

  lemma TargetText(target: string, middle: string)
    requires target == "https://" + middle + "/"
    ensures target != "" && T.Strip(target) == target && WithScheme(target) == target
  {
    assert target[0] == 'h' && target[|target| - 1] == '/';
    assert "://" <= target[5..];
    T.ContainsAt(target, "://", 5);
  }

  lemma SlashTail(tail: string)
    requires tail == "/"
    ensures Path(tail) == tail && Query(tail) == ""
  {
    AfterStops(tail, '#', "");
    AfterStops(tail, '?', "");
    assert AfterLast(tail, '/') == "";
  }

  lemma OwnPartsCheck(env: Environment, scheme: string, host: string, port: Option<nat>)
    requires AllowedScheme(scheme) && host != "" && env.hostError(host).None? && PortInRange(port)
    ensures var port' := if Explicit(port) then port else None;
            CheckParts(env, scheme, host, Ok(port'), false) == Ok(port') && Netloc(host, port') == Netloc(host, port)
  {
  }

  lemma OwnUrlValidates(env: Environment, url: Url, host: string, port: Option<nat>)
    requires AllowedScheme(url.scheme) && host != "" && env.hostError(host).None? && PortInRange(port)
    requires Hostname(url) == host && Port(url) == Ok(if Explicit(port) then port else None)
    ensures Validated(env, url, false) == Ok(url.scheme + "://" + Netloc(host, port) + Tail(url))
  {
    OwnPartsCheck(env, url.scheme, host, port);
  }

  /** The canonical target passes validation unchanged. */
  lemma TargetValidates(env: Environment, host: string, port: Option<nat>, scheme: string, tail: string)
    requires scheme == "https" && tail == "/"
    requires GoodHost(env, host) && PortInRange(port) && (':' !in host || Explicit(port))
    ensures ValidateUrl(env, Target(host, port), false) == Ok(scheme + "://" + Netloc(host, port) + tail)
  {
    var url := Url(scheme, Netloc(host, port), Path(tail), Query(tail));
    var target := Target(host, port);
    TargetText(target, Netloc(host, port));
    TargetIs(host, port, scheme, tail);
    GoodHostReadsBack(env, scheme, host, port, tail);
    ValidateFollows(env, target, false, url);
    OwnUrlValidates(env, url, host, port);
    SlashTail(tail);
    assert Tail(url) == tail;
  }

  lemma OwnTail(scheme: string, tail: string)
    requires scheme == "https" && tail == "/"
    ensures AllowedScheme(scheme) && NoBreaks(tail) && (tail == "" || EndsAuthority(tail[0]))
  {
  }

  lemma TargetNormalizes(env: Environment, target: string, host: string, port: Option<nat>, scheme: string,
      tail: string)
    requires AllowedScheme(scheme) && NoBreaks(tail) && (tail == "" || EndsAuthority(tail[0]))
    requires GoodHost(env, host) && PortInRange(port) && (':' !in host || Explicit(port))
    requires target == Target(host, port)
             && ValidateUrl(env, target, false) == Ok(scheme + "://" + Netloc(host, port) + tail)
    ensures NormalizeScanTarget(env, target, false) == Ok(target)
  {
    OwnUrlNormalizes(env, target, false, scheme, host, port, tail);
  }

  /** Normalising is idempotent: for every accepted target, whatever its form,
      the canonical text normalises to itself. */
  lemma NormalizationIsIdempotent(env: Environment, target: string, resolve: bool, canonical: string)
    requires Sane(env) && NormalizeScanTarget(env, target, resolve) == Ok(canonical)
    ensures NormalizeScanTarget(env, canonical, false) == Ok(canonical)
  {
    var host, port := NormalizedShape(env, target, resolve);
    var scheme, tail := "https", "/";
    OwnTail(scheme, tail);
    TargetValidates(env, host, port, scheme, tail);
    TargetNormalizes(env, canonical, host, port, scheme, tail);
  }

  lemma PartsWithoutResolving(env: Environment, scheme: string, host: string, port: Result<Option<nat>, Error>,
      resolve: bool)
    requires CheckParts(env, scheme, host, port, resolve).Ok?
    ensures CheckParts(env, scheme, host, port, false) == CheckParts(env, scheme, host, port, resolve)
  {
  }

  lemma ValidatedWithoutResolving(env: Environment, url: Url, resolve: bool)
    requires Validated(env, url, resolve).Ok?
    ensures Validated(env, url, false) == Validated(env, url, resolve)
  {
    PartsWithoutResolving(env, url.scheme, Hostname(url), Port(url), resolve);
  }

  lemma ValidateWithoutResolving(env: Environment, target: string, resolve: bool)
    requires ValidateUrl(env, target, resolve).Ok?
    ensures ValidateUrl(env, target, false) == ValidateUrl(env, target, resolve)
  {
    var parsed := Parse(env, WithScheme(T.Strip(target)));
    ValidatedWithoutResolving(env, parsed.value, resolve);
  }

  lemma NormalizeDependsOnValidation(env: Environment, target: string, resolve: bool)
    requires ValidateUrl(env, target, false) == ValidateUrl(env, target, resolve)
    ensures NormalizeScanTarget(env, target, false) == NormalizeScanTarget(env, target, resolve)
  {
  }

  /** Resolving the host can refuse a target, never change its canonical form. */
  lemma ResolvingOnlyRefuses(env: Environment, target: string, resolve: bool, canonical: string)
    requires NormalizeScanTarget(env, target, resolve) == Ok(canonical)
    ensures NormalizeScanTarget(env, target, false) == Ok(canonical)
  {
    ValidateWithoutResolving(env, target, resolve);
    NormalizeDependsOnValidation(env, target, resolve);
  }

  /** A stored canonical target matches exactly the texts that normalise to it:
      the text it came from, and every other way to write it. */
  lemma MatchesIffSameNormalForm(env: Environment, target: string, resolve: bool, canonical: string, provided: string)
    requires Sane(env) && NormalizeScanTarget(env, target, resolve) == Ok(canonical)
    ensures TargetsMatch(env, canonical, provided) == Ok(true)
            <==> NormalizeScanTarget(env, provided, false) == Ok(canonical)
    ensures TargetsMatch(env, canonical, target) == Ok(true)
  {
    NormalizationIsIdempotent(env, target, resolve, canonical);
    ResolvingOnlyRefuses(env, target, resolve, canonical);
    MatchFollows(env, canonical, provided);
    MatchFollows(env, canonical, target);
  }

  lemma MatchFollows(env: Environment, canonical: string, provided: string)
    requires NormalizeScanTarget(env, canonical, false) == Ok(canonical)
    ensures TargetsMatch(env, canonical, provided) == Ok(true)
            <==> NormalizeScanTarget(env, provided, false) == Ok(canonical)
  {
  }

  /** For any two texts: they match exactly if they have one normal form, or are the
      same refused text. A value error of either, unless the first is refused, is
      the caller's. */
  lemma MatchesIff(env: Environment, stored: string, provided: string, s: Result<string, Error>,
                   p: Result<string, Error>)
    requires s == NormalizeScanTarget(env, stored, false) && p == NormalizeScanTarget(env, provided, false)
    ensures TargetsMatch(env, stored, provided) == Ok(true)
            <==> (s.Ok? && s == p) || (s == Err(Refused) && stored == provided)
    ensures TargetsMatch(env, stored, provided).Err? <==> s == Err(Malformed) || (s.Ok? && p == Err(Malformed))
  {
    SameTextSameForm(env, stored, provided, s, p);
    if s.Err? {
      FirstDecides(env, stored, provided, s);
      MatchTable(TargetsMatch(env, stored, provided), s, p, stored == provided);
    } else {
      SecondDecides(env, stored, provided, s, p);
      MatchTable(TargetsMatch(env, stored, provided), s, p, stored == provided);
    }
  }

  lemma SameTextSameForm(env: Environment, a: string, b: string, x: Result<string, Error>, y: Result<string, Error>)
    requires x == NormalizeScanTarget(env, a, false) && y == NormalizeScanTarget(env, b, false)
    ensures a == b ==> x == y
  {
  }

  lemma MatchTable(result: Result<bool, Error>, s: Result<string, Error>, p: Result<string, Error>, same: bool)
    requires same ==> s == p
    requires s == Err(Malformed) ==> result == Err(Malformed)
    requires s == Err(Refused) ==> result == Ok(same)
    requires s.Ok? ==>
               result == match p
                         case Err(Malformed) => Err(Malformed)
                         case Err(Refused) => Ok(same)
                         case Ok(canonical) => Ok(s.value == canonical)
    ensures result == Ok(true) <==> (s.Ok? && s == p) || (s == Err(Refused) && same)
    ensures result.Err? <==> s == Err(Malformed) || (s.Ok? && p == Err(Malformed))
  {
    assert s.Ok? || s.error == Refused || s.error == Malformed;
    assert p.Ok? || p.error == Refused || p.error == Malformed;
  }

  lemma FirstDecides(env: Environment, stored: string, provided: string, s: Result<string, Error>)
    requires s == NormalizeScanTarget(env, stored, false) && s.Err?
    ensures TargetsMatch(env, stored, provided)
            == if s.error == Malformed then Err(Malformed) else Ok(stored == provided)
  {
  }

  lemma SecondDecides(env: Environment, stored: string, provided: string, s: Result<string, Error>,
                      p: Result<string, Error>)
    requires s == NormalizeScanTarget(env, stored, false) && p == NormalizeScanTarget(env, provided, false) && s.Ok?
    ensures TargetsMatch(env, stored, provided)
            == match p
               case Err(Malformed) => Err(Malformed)
               case Err(Refused) => Ok(stored == provided)
               case Ok(canonical) => Ok(s.value == canonical)
  {
  }

  /** Two admitted requests share a deduplication key exactly when they come
      from the same client for matching targets, whatever the client's name. */
  lemma DedupKeysFollowTargets(env: Environment, client: string, target: string, client': string, target': string,
                               canonical: string, canonical': string)
    requires Sane(env)
    requires NormalizeScanTarget(env, target, true) == Ok(canonical)
             && NormalizeScanTarget(env, target', true) == Ok(canonical')
    ensures DedupKey(client, canonical) == DedupKey(client', canonical')
            <==> client == client' && TargetsMatch(env, canonical, target') == Ok(true)
  {
    var host, port := NormalizedShape(env, target, true);
    var host', port' := NormalizedShape(env, target', true);
    NetlocHasNoSlash(env, host, port);
    NetlocHasNoSlash(env, host', port');
    MatchesIffSameNormalForm(env, target, true, canonical, target');
    ResolvingOnlyRefuses(env, target', true, canonical');
    if DedupKey(client, canonical) == DedupKey(client', canonical') {
      DedupKeyIsInjective(client, canonical, Netloc(host, port), client', canonical', Netloc(host', port'));
    }
  }

  lemma NetlocHasNoSlash(env: Environment, host: string, port: Option<nat>)
    requires GoodHost(env, host) && (':' !in host || Explicit(port))
    ensures NormalizedTarget(Target(host, port), Netloc(host, port))
  {
    NetlocReads(env, host, port);
  }

  /* Which texts are accepted. */

  lemma SpellingText(text: string, scheme: string, rest: string)
    requires AllowedScheme(scheme) && text == scheme + "://" + rest && !T.IsSpace(text[|text| - 1])
    ensures text != "" && T.Strip(text) == text && WithScheme(text) == text
  {
    assert text[0] == 'h';
    assert "://" <= text[|scheme|..];
    T.ContainsAt(text, "://", |scheme|);
  }

  lemma SpellingValidates(env: Environment, url: Url, host: string, port: Option<nat>, tail: string, text: string)
    requires AllowedScheme(url.scheme) && GoodHost(env, host) && PortInRange(port) && (':' !in host || Explicit(port))
    requires NoBreaks(tail) && (tail == "" || EndsAuthority(tail[0]))
    requires text != "" && T.Strip(text) == text && WithScheme(text) == text
    requires text == url.scheme + "://" + Netloc(host, port) + tail
    requires url == Url(url.scheme, Netloc(host, port), Path(tail), Query(tail))
    ensures ValidateUrl(env, text, false) == Ok(url.scheme + "://" + Netloc(host, port) + Tail(url))
  {
    GoodHostReadsBack(env, url.scheme, host, port, tail);
    ValidateFollows(env, text, false, url);
    OwnUrlValidates(env, url, host, port);
  }

  /** Every way to write a good host normalises to the one target: either scheme,
      any path, query and fragment, the port written out. */
  lemma EverySpellingNormalizes(env: Environment, scheme: string, host: string, port: Option<nat>, tail: string,
      text: string)
    requires AllowedScheme(scheme) && GoodHost(env, host) && PortInRange(port) && (':' !in host || Explicit(port))
    requires NoBreaks(tail) && (tail == "" || EndsAuthority(tail[0]))
    requires text == scheme + "://" + Netloc(host, port) + tail && !T.IsSpace(text[|text| - 1])
    ensures NormalizeScanTarget(env, text, false) == Ok(Target(host, port))
  {
    var url := Url(scheme, Netloc(host, port), Path(tail), Query(tail));
    SpelledOut(text, scheme, Netloc(host, port), tail);
    SpellingValidates(env, url, host, port, tail, text);
    SpellingFollows(env, url, host, port, tail, text, Tail(url));
  }

  lemma SpelledOut(text: string, scheme: string, netloc: string, tail: string)
    requires AllowedScheme(scheme) && text == scheme + "://" + netloc + tail && !T.IsSpace(text[|text| - 1])
    ensures text != "" && T.Strip(text) == text && WithScheme(text) == text
  {
    assert text == scheme + "://" + (netloc + tail);
    SpellingText(text, scheme, netloc + tail);
  }

  lemma SpellingFollows(env: Environment, url: Url, host: string, port: Option<nat>, tail: string, text: string,
      rest: string)
    requires AllowedScheme(url.scheme) && GoodHost(env, host) && PortInRange(port) && (':' !in host || Explicit(port))
    requires NoBreaks(tail) && (tail == "" || EndsAuthority(tail[0]))
    requires url.path == Path(tail) && url.query == Query(tail) && rest == Tail(url)
    requires ValidateUrl(env, text, false) == Ok(url.scheme + "://" + Netloc(host, port) + rest)
    ensures NormalizeScanTarget(env, text, false) == Ok(Target(host, port))
  {
    TailChars(url, tail);
    OwnUrlNormalizes(env, text, false, url.scheme, host, port, rest);
  }

  /** Names only, and no literals. */
  const PLAIN_HOSTS := Environment(
    (h: string) => if ':' in h || '[' in h || ']' in h then Some(Refused) else None,
    (h: string) => false,
    (h: string) => None)

  lemma StartIsIn(host: string)
    ensures T.StartsWith(host, "[") ==> '[' in host
  {
    if T.StartsWith(host, "[") {
      assert host[0] == '[';
    }
  }

  lemma PlainHostsAreSane()
    ensures Sane(PLAIN_HOSTS)
  {
    forall h | PLAIN_HOSTS.hostError(h).None? ensures SaneName(h) {
      StartIsIn(h);
    }
  }

  lemma LetterChars(host: string)
    requires forall i :: 0 <= i < |host| ==> 'a' <= host[i] <= 'z'
    ensures HostChars(host) && T.Lower(host) == host
    ensures '%' !in host && ':' !in host && '[' !in host && ']' !in host
  {
    assert T.Lower(host) == host;
  }

  lemma PlainHostIsGood(host: string)
    requires host != "" && forall i :: 0 <= i < |host| ==> 'a' <= host[i] <= 'z'
    ensures GoodHost(PLAIN_HOSTS, host)
  {
    LetterChars(host);
    T.BeforeStops(host, '%', "");
    assert host + "" == host;
  }

  /** For one: with an environment that accepts names, a lower-case name is the
      target of every URL on it. */
  lemma PlainHostExample(scheme: string, host: string, tail: string, text: string)
    requires AllowedScheme(scheme) && host != "" && forall i :: 0 <= i < |host| ==> 'a' <= host[i] <= 'z'
    requires NoBreaks(tail) && (tail == "" || EndsAuthority(tail[0]))
    requires text == scheme + "://" + host + tail && !T.IsSpace(text[|text| - 1])
    ensures Sane(PLAIN_HOSTS) && NormalizeScanTarget(PLAIN_HOSTS, text, false) == Ok("https://" + host + "/")
  {
    PlainHostsAreSane();
    PlainHostIsGood(host);
    assert ':' !in host;
    EverySpellingNormalizes(PLAIN_HOSTS, scheme, host, None, tail, text);
  }

  /** One literal and nothing else. */
  function OneLiteral(literal: string): Environment {
    Environment((h: string) => if h == literal then None else Some(Refused), (h: string) => h == literal,
                (h: string) => None)
  }

  /** And with one that accepts an IPv6 literal, whatever its zone index, its
      port is kept and so are its brackets, even next to one in the zone. */
  lemma LiteralExample(scheme: string, name: string, zone: string, port: nat, tail: string, text: string)
    requires AllowedScheme(scheme) && name == "2606:4700::1" && HostChars(zone)
    requires 1 <= port <= 65535 && Explicit(Some(port))
    requires NoBreaks(tail) && (tail == "" || EndsAuthority(tail[0]))
    requires text == scheme + "://" + ("[" + (name + "%" + zone) + "]" + ":" + T.Decimal(port)) + tail
             && !T.IsSpace(text[|text| - 1])
    ensures var host := name + "%" + zone;
            && Sane(OneLiteral(host))
            && NormalizeScanTarget(OneLiteral(host), text, false)
               == Ok("https://" + ("[" + host + "]" + ":" + T.Decimal(port)) + "/")
  {
    var host := name + "%" + zone;
    LiteralIsGood(name, zone, host);
    EverySpellingNormalizes(OneLiteral(host), scheme, host, Some(port), tail, text);
  }

  lemma LiteralIsGood(name: string, zone: string, host: string)
    requires name == "2606:4700::1" && HostChars(zone) && host == name + "%" + zone
    ensures Sane(OneLiteral(host)) && GoodHost(OneLiteral(host), host) && ':' in host && !T.StartsWith(host, "[")
  {
    LiteralLower(name, zone, host);
    assert host == name + ("%" + zone);
    LiteralColons(name, "%" + zone, host);
    LiteralChars(name, zone, host);
    OneLiteralFits(host);
  }

  lemma LiteralChars(name: string, zone: string, host: string)
    requires name == "2606:4700::1" && HostChars(zone) && host == name + "%" + zone
    ensures HostChars(host)
  {
    assert HostChars(name + "%");
    HostCharsJoin(name + "%", zone);
  }

  lemma OneLiteralFits(host: string)
    requires LiteralName(host) && HostChars(host) && LowerHost(host) == host
    ensures Sane(OneLiteral(host)) && GoodHost(OneLiteral(host), host)
  {
    assert ']' !in host;
    assert host != "";
  }

  lemma LiteralLower(name: string, zone: string, host: string)
    requires name == "2606:4700::1" && host == name + "%" + zone
    ensures LowerHost(host) == host
  {
    AfterStops(name, '%', zone);
    assert T.Lower(name) == name;
    assert host[|name|..] == "%" + zone;
  }

  lemma LiteralColons(name: string, rest: string, host: string)
    requires name == "2606:4700::1" && host == name + rest
    ensures TwoColons(host) && ':' in host && !T.StartsWith(host, "[")
  {
    assert host == "2606" + ":" + ("4700::1" + rest);
    AfterStops("2606", ':', "4700::1" + rest);
    assert ("4700::1" + rest)[4] == ':';
    assert host[4] == ':' && host[0] == '2';
  }
}
