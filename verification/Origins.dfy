/** Origins of crawled URLs: the detector checks each origin once and remembers
    at which URLs it was seen.
 */
module Origins {
  import opened ScanTargets
  import opened Wrappers
  import T = Text

  predicate HasHttp(url: string) {
    T.StartsWith(url, "http://") || T.StartsWith(url, "https://")
  }

  function WithHttp(raw: string): string {
    if HasHttp(raw) then raw else "https://" + raw
  }

  function OriginOf(url: Url): string {
    var netloc := if url.authority == "" && url.path != "" then T.Before(url.path, '/') else url.authority;
    (if url.scheme != "" then url.scheme else "https") + "://" + netloc
  }

  function NormalizeOrigin(env: Environment, raw: string): Result<string, Error> {
    match Parse(env, WithHttp(raw))
    case Err(e) => Err(e)
    case Ok(url) => Ok(OriginOf(url))
  }

  /* Origins are their own origin. */

  lemma {:induction false} WithoutBreaksJoins(a: string, b: string)
    ensures WithoutBreaks(a + b) == WithoutBreaks(a) + WithoutBreaks(b)
  {
    if a == "" {
      assert a + b == b;
    } else {
      assert (a + b)[1..] == a[1..] + b;
      WithoutBreaksJoins(a[1..], b);
    }
  }

  lemma ParseFollows(env: Environment, text: string, scheme: string, rest: string)
    requires AllowedScheme(scheme) && WithoutBreaks(WithoutLeadingControls(text)) == scheme + ":" + rest
    ensures Parse(env, text) == ParseRest(env, scheme, rest)
  {
    SchemeReadsBack(scheme, rest);
  }

  lemma SchemeHasNoBreaks(scheme: string)
    requires AllowedScheme(scheme)
    ensures NoBreaks(scheme + ":" + "//")
  {
  }

  lemma BreaksBehindScheme(scheme: string, head: string, rest: string)
    requires AllowedScheme(scheme) && head == scheme + ":" + "//"
    ensures WithoutBreaks(scheme + ":" + ("//" + rest)) == scheme + ":" + ("//" + WithoutBreaks(rest))
  {
    assert scheme + ":" + ("//" + rest) == head + rest;
    WithoutBreaksJoins(head, rest);
    SchemeHasNoBreaks(scheme);
    NoBreaksStay(head);
    assert head + WithoutBreaks(rest) == scheme + ":" + ("//" + WithoutBreaks(rest));
  }

  /** Behind its scheme, a URL is parsed without its line breaks and tabs. */
  lemma ParseBehindScheme(env: Environment, scheme: string, rest: string)
    requires AllowedScheme(scheme)
    ensures Parse(env, scheme + ":" + ("//" + rest)) == ParseRest(env, scheme, "//" + WithoutBreaks(rest))
  {
    SchemeReadsBack(scheme, "//" + rest);
    BreaksBehindScheme(scheme, scheme + ":" + "//", rest);
    ParseFollows(env, scheme + ":" + ("//" + rest), scheme, "//" + WithoutBreaks(rest));
  }

  lemma HttpParts(url: string) returns (scheme: string, rest: string)
    requires HasHttp(url)
    ensures AllowedScheme(scheme) && url == scheme + ":" + ("//" + rest)
  {
    if T.StartsWith(url, "http://") {
      scheme, rest := "http", url[7..];
    } else {
      scheme, rest := "https", url[8..];
    }
  }

  lemma WithHttpHasHttp(raw: string)
    ensures HasHttp(WithHttp(raw))
  {
  }

  lemma SchemeHasHttp(scheme: string, rest: string)
    requires AllowedScheme(scheme)
    ensures WithHttp(scheme + "://" + rest) == scheme + "://" + rest
  {
    assert T.StartsWith(scheme + "://" + rest, scheme + "://");
  }

  /** The parts of an origin. */
  lemma OriginShape(env: Environment, raw: string) returns (scheme: string, authority: string)
    requires NormalizeOrigin(env, raw).Ok?
    ensures AllowedScheme(scheme) && AuthorityChars(authority) && BracketsFit(env, authority)
    ensures NormalizeOrigin(env, raw) == Ok(scheme + "://" + authority)
  {
    WithHttpHasHttp(raw);
    var rest;
    scheme, rest := HttpParts(WithHttp(raw));
    ParseBehindScheme(env, scheme, rest);
    authority := CleanOrigin(env, scheme, WithoutBreaks(rest));
  }

  lemma CleanOrigin(env: Environment, scheme: string, clean: string) returns (authority: string)
    requires AllowedScheme(scheme) && NoBreaks(clean) && ParseRest(env, scheme, "//" + clean).Ok?
    ensures AuthorityChars(authority) && BracketsFit(env, authority)
    ensures OriginOf(ParseRest(env, scheme, "//" + clean).value) == scheme + "://" + authority
  {
    authority := Authority(clean);
    var tail := clean[|authority|..];
    ParsedRest(env, scheme, clean, authority, tail);
    PathChars(tail);
    OwnOrigin(Url(scheme, authority, Path(tail), Query(tail)));
  }

  lemma ParsedRest(env: Environment, scheme: string, clean: string, authority: string, tail: string)
    requires NoBreaks(clean) && authority == Authority(clean) && tail == clean[|authority|..]
    requires ParseRest(env, scheme, "//" + clean).Ok?
    ensures ParseRest(env, scheme, "//" + clean) == Ok(Url(scheme, authority, Path(tail), Query(tail)))
    ensures AuthorityChars(authority) && BracketsFit(env, authority) && NoBreaks(tail)
    ensures tail == "" || EndsAuthority(tail[0])
  {
    assert ("//" + clean)[2..] == clean;
  }

  lemma OwnOrigin(url: Url)
    requires AllowedScheme(url.scheme) && (url.path == "" || url.path[0] == '/')
    ensures OriginOf(url) == url.scheme + "://" + url.authority
  {
  }

  /** Normalising an origin again changes nothing. */
  lemma OriginIsItsOwn(env: Environment, raw: string, origin: string)
    requires NormalizeOrigin(env, raw) == Ok(origin)
    ensures NormalizeOrigin(env, origin) == Ok(origin)
  {
    var scheme, authority := OriginShape(env, raw);
    assert origin == scheme + "://" + authority + "";
    ParseOwn(env, scheme, authority, "");
    PathChars("");
    OwnOrigin(Url(scheme, authority, Path(""), Query("")));
    SchemeHasHttp(scheme, authority);
  }

  /* Grouping. */

  ghost predicate Unrepeated(xs: seq<string>) {
    forall i, j :: 0 <= i < j < |xs| ==> xs[i] != xs[j]
  }

  /** A submitted URL, completed, and its origin. */
  datatype Entry = Entry(url: string, origin: string)

  function EntryOf(env: Environment, raw: string): Result<Entry, Error> {
    match NormalizeOrigin(env, WithHttp(raw))
    case Err(e) => Err(e)
    case Ok(origin) => Ok(Entry(WithHttp(raw), origin))
  }

  /** Each origin once, with exactly the URLs it was seen at, each once. */
  ghost predicate Grouped(entries: set<Entry>, order: seq<string>, groups: map<string, seq<string>>) {
    && Unrepeated(order)
    && (forall origin :: origin in groups <==> origin in order)
    && (forall origin :: origin in groups ==> groups[origin] != [] && Unrepeated(groups[origin]))
    && (forall e :: e in entries <==> e.origin in groups && e.url in groups[e.origin])
  }

  function Add(groups: map<string, seq<string>>, e: Entry): map<string, seq<string>> {
    var group := if e.origin in groups then groups[e.origin] else [];
    groups[e.origin := if e.url in group then group else group + [e.url]]
  }

  lemma GroupedOneMore(entries: set<Entry>, order: seq<string>, groups: map<string, seq<string>>, e: Entry)
    requires Grouped(entries, order, groups)
    ensures Grouped(entries + {e}, if e.origin in groups then order else order + [e.origin], Add(groups, e))
  {
  }

  lemma NothingGrouped()
    ensures Grouped({}, [], map[])
  {
  }

  function GroupsOf(entries: seq<Entry>): map<string, seq<string>> {
    if entries == [] then map[] else Add(GroupsOf(entries[..|entries| - 1]), entries[|entries| - 1])
  }

  function OrderOf(entries: seq<Entry>): seq<string> {
    if entries == [] then []
    else
      var before, e := entries[..|entries| - 1], entries[|entries| - 1];
      if e.origin in GroupsOf(before) then OrderOf(before) else OrderOf(before) + [e.origin]
  }

  lemma OneEntryMore(entries: seq<Entry>, e: Entry)
    ensures GroupsOf(entries + [e]) == Add(GroupsOf(entries), e)
    ensures OrderOf(entries + [e])
            == if e.origin in GroupsOf(entries) then OrderOf(entries) else OrderOf(entries) + [e.origin]
  {
    assert (entries + [e])[..|entries|] == entries;
  }

  /** The grouping loses no URL, repeats none and checks no origin twice. */
  lemma {:induction false} EntriesAreGrouped(entries: seq<Entry>) returns (all: set<Entry>)
    ensures forall e :: e in entries <==> e in all
    ensures Grouped(all, OrderOf(entries), GroupsOf(entries))
  {
    if entries == [] {
      NothingGrouped();
      all := {};
    } else {
      var before, e := entries[..|entries| - 1], entries[|entries| - 1];
      var some := EntriesAreGrouped(before);
      GroupedOneMore(some, OrderOf(before), GroupsOf(before), e);
      all := some + {e};
    }
  }

  function EntriesOf(env: Environment, urls: seq<string>): seq<Result<Entry, Error>> {
    seq(|urls|, i requires 0 <= i < |urls| => EntryOf(env, urls[i]))
  }

  /** All the entries, or the first error among the results. */
  function AllEntries(results: seq<Result<Entry, Error>>): Result<seq<Entry>, Error> {
    if results == [] then Ok([])
    else
      match AllEntries(results[..|results| - 1])
      case Err(e) => Err(e)
      case Ok(entries) =>
        match results[|results| - 1]
        case Err(e) => Err(e)
        case Ok(entry) => Ok(entries + [entry])
  }

  lemma {:induction false} FirstErrorStays(results: seq<Result<Entry, Error>>, n: nat)
    requires n <= |results| && AllEntries(results[..n]).Err?
    ensures AllEntries(results) == AllEntries(results[..n])
  {
    if n == |results| {
      assert results[..n] == results;
    } else {
      var before := results[..|results| - 1];
      assert before[..n] == results[..n];
      FirstErrorStays(before, n);
    }
  }

  lemma OneResultMore(results: seq<Result<Entry, Error>>, n: nat)
    requires n < |results| && AllEntries(results[..n]).Ok?
    ensures AllEntries(results[..n + 1])
            == match results[n]
               case Err(e) => Err(e)
               case Ok(entry) => Ok(AllEntries(results[..n]).value + [entry])
  {
    assert results[..n + 1][..n] == results[..n];
  }

  lemma ResultOf(env: Environment, urls: seq<string>, n: nat)
    requires n < |urls|
    ensures EntriesOf(env, urls)[n] == EntryOf(env, urls[n])
  {
  }

  datatype Groups = Groups(order: seq<string>, seenAt: map<string, seq<string>>)

  /** Collapses the URLs to their origins, unless one of them cannot be parsed:
      then the first such error goes to the caller. */
  method GroupUrlsByOrigin(env: Environment, urls: seq<string>) returns (groups: Result<Groups, Error>)
    ensures groups == match AllEntries(EntriesOf(env, urls))
                      case Err(e) => Err(e)
                      case Ok(entries) => Ok(Groups(OrderOf(entries), GroupsOf(entries)))
  {
    ghost var results := EntriesOf(env, urls);
    ghost var entries: seq<Entry> := [];
    var order: seq<string>, seenAt: map<string, seq<string>> := [], map[];
    for n := 0 to |urls|
      invariant AllEntries(results[..n]) == Ok(entries)
      invariant order == OrderOf(entries) && seenAt == GroupsOf(entries)
    {
      var entry := EntryOf(env, urls[n]);
      ResultOf(env, urls, n);
      OneResultMore(results, n);
      if entry.Err? {
        FirstErrorStays(results, n + 1);
        return Err(entry.error);
      }
      OneEntryMore(entries, entry.value);
      if entry.value.origin !in seenAt {
        order := order + [entry.value.origin];
      }
      seenAt := Add(seenAt, entry.value);
      entries := entries + [entry.value];
    }
    assert results[..|urls|] == results;
    return Ok(Groups(order, seenAt));
  }

  /** Grouped URLs are complete: as submitted if they begin with a scheme, otherwise
      with https before them. */
  lemma EntryIsComplete(env: Environment, raw: string)
    requires EntryOf(env, raw).Ok?
    ensures var e := EntryOf(env, raw).value;
            && (e.url == if "http://" <= raw || "https://" <= raw then raw else "https://" + raw)
            && NormalizeOrigin(env, e.url) == Ok(e.origin)
  {
  }
}
