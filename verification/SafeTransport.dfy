/** The transport that pins every request to a validated address, follows
    redirects itself, and caps the body.

    Host-name rules, URL parsing and the address ranges are a policy; the
    resolver and the servers answer as they like.
 */
module SafeTransport {
  import opened Sequences
  import opened Wrappers

  /** A host or URL is refused, or a library raises a plain value error. */
  datatype HostError = Refused | Malformed

  datatype Error = BadHost(why: HostError) | RedirectLimit | TooLarge

  datatype Family = Inet | Inet6 | OtherFamily

  datatype AddrInfo = AddrInfo(family: Family, address: string)

  /** `checkUrl` is everything a URL must satisfy before its host is resolved, and
      gives the host name seen by that check; `portError` is the verdict on its
      port, which comes after that. `urlHost` is the host the HTTP client connects
      to. `validHost` gives the normalised name or address. */
  datatype Policy = Policy(
    checkUrl: string -> Result<string, HostError>,
    portError: string -> Option<HostError>,
    urlHost: string -> Option<string>,
    validHost: string -> Result<string, HostError>,
    isIp: string -> bool,
    blocked: string -> bool,
    join: (string, string) -> string)

  /* Choosing an address. */

  predicate Usable(p: Policy, info: AddrInfo) {
    info.family != OtherFamily && p.isIp(info.address)
  }

  /** No usable entry of the reply is in a blocked range. */
  ghost predicate Clean(p: Policy, reply: seq<AddrInfo>) {
    forall i :: 0 <= i < |reply| && Usable(p, reply[i]) ==> !p.blocked(reply[i].address)
  }

  /** `address` is that of the first usable entry. */
  ghost predicate FirstUsable(p: Policy, reply: seq<AddrInfo>, address: string) {
    exists i :: 0 <= i < |reply| && Usable(p, reply[i]) && reply[i].address == address
                && forall k :: 0 <= k < i ==> !Usable(p, reply[k])
  }

  /** One blocked entry anywhere refuses the whole reply. */
  method PickAddress(p: Policy, reply: seq<AddrInfo>) returns (address: Option<string>)
    ensures address.Some? <==> Clean(p, reply) && exists i :: 0 <= i < |reply| && Usable(p, reply[i])
    ensures address.Some? ==> FirstUsable(p, reply, address.value)
  {
    var seen: set<string> := {};
    var firstSafe: Option<string> := None;
    for i := 0 to |reply|
      invariant forall a :: a in seen ==>
                exists k :: 0 <= k < i && reply[k].family != OtherFamily && reply[k].address == a
      invariant forall k :: 0 <= k < i && Usable(p, reply[k]) ==> !p.blocked(reply[k].address)
      invariant firstSafe.None? ==> forall k :: 0 <= k < i ==> !Usable(p, reply[k])
      invariant firstSafe.Some? ==> exists k :: 0 <= k < i && Usable(p, reply[k]) && reply[k].address == firstSafe.value
                                                && forall j :: 0 <= j < k ==> !Usable(p, reply[j])
    {
      var info := reply[i];
      if info.family == OtherFamily || info.address in seen {
        continue;
      }
      seen := seen + {info.address};
      if !p.isIp(info.address) {
        continue;
      }
      if p.blocked(info.address) {
        return None;
      }
      if firstSafe.None? {
        firstSafe := Some(info.address);
      }
    }
    return firstSafe;
  }

  /* Reading the body. */

  newtype Byte = x: int | 0 <= x < 256

  /** The body is the whole of what was sent, or it is refused: it never comes
      back cut off. */
  method ReadBody(chunks: seq<seq<Byte>>, maxBytes: int) returns (body: Result<seq<Byte>, Error>)
    ensures body == if chunks == [] || |Flatten(chunks)| <= maxBytes then Ok(Flatten(chunks)) else Err(TooLarge)
  {
    var read := [];
    for i := 0 to |chunks|
      invariant read == Flatten(chunks[..i])
      invariant i > 0 ==> |read| <= maxBytes
    {
      assert chunks[..i + 1][..i] == chunks[..i];
      read := read + chunks[i];
      if |read| > maxBytes {
        FlattenGrows(chunks, i + 1);
        return Err(TooLarge);
      }
    }
    assert chunks[..|chunks|] == chunks;
    return Ok(read);
  }

  /* The network. */

  datatype Response = Response(redirect: bool, location: string, chunks: seq<seq<Byte>>)

  /** One exchange: the URL asked for, the address connected to, and how many
      lookups had been made by then. */
  datatype Send = Send(url: string, address: string, lookups: nat)

  /** The network answers as it likes: the n-th lookup and the n-th exchange get
      an arbitrary answer each. An empty reply stands for a name that does not
      resolve. It keeps a record of the names it was asked for and of the
      exchanges. */
  class Network {
    const resolver: nat -> seq<AddrInfo>
    const servers: nat -> Response
    var asked: seq<string>
    var sends: seq<Send>

    constructor (resolver: nat -> seq<AddrInfo>, servers: nat -> Response)
      ensures this.resolver == resolver && this.servers == servers && asked == [] && sends == []
    {
      this.resolver, this.servers := resolver, servers;
      asked, sends := [], [];
    }

    method Lookup(name: string) returns (reply: seq<AddrInfo>)
      modifies this`asked
      ensures asked == old(asked) + [name] && reply == resolver(|old(asked)|)
    {
      reply := resolver(|asked|);
      asked := asked + [name];
    }

    method Exchange(url: string, address: string) returns (response: Response)
      modifies this`sends
      ensures sends == old(sends) + [Send(url, address, |asked|)] && response == servers(|old(sends)|)
    {
      response := servers(|sends|);
      sends := sends + [Send(url, address, |asked|)];
    }
  }

  /* Pinning. */

  /** The host is acceptable, given the resolver's answers from number `at` on: it
      is an address that is not blocked, or a name that lookup `at` asked for, and
      the reply to that very lookup is clean and usable. */
  ghost predicate Vetted(p: Policy, resolver: nat -> seq<AddrInfo>, asked: seq<string>, host: string, at: nat) {
    && p.validHost(host).Ok?
    && var name := p.validHost(host).value;
       if p.isIp(name) then !p.blocked(name)
       else at < |asked| && asked[at] == name && Clean(p, resolver(at)) && AnyUsable(p, resolver(at))
  }

  ghost predicate AnyUsable(p: Policy, reply: seq<AddrInfo>) {
    exists i :: 0 <= i < |reply| && Usable(p, reply[i])
  }

  /** The address is the host's own: itself, or the first usable one of the reply
      to the lookup of its name. */
  ghost predicate Pinned(
    p: Policy, resolver: nat -> seq<AddrInfo>, asked: seq<string>, host: string, at: nat, address: string)
  {
    && Vetted(p, resolver, asked, host, at)
    && var name := p.validHost(host).value;
       if p.isIp(name) then address == name else FirstUsable(p, resolver(at), address)
  }

  /** The host is no good, or the lookup made for it gave nothing that is. */
  ghost predicate Rejected(p: Policy, resolver: nat -> seq<AddrInfo>, asked: seq<string>, host: string, at: nat) {
    || p.validHost(host).Err?
    || var name := p.validHost(host).value;
       if p.isIp(name) then p.blocked(name)
       else at < |asked| && asked[at] == name && !(Clean(p, resolver(at)) && AnyUsable(p, resolver(at)))
  }

  /** The number of the next lookup, after that for the host. An address needs
      none. */
  function NextLookup(p: Policy, host: string, at: nat): nat {
    if p.validHost(host).Ok? && p.isIp(p.validHost(host).value) then at else at + 1
  }

  method ResolveAndValidateHost(p: Policy, host: string, net: Network) returns (address: Result<string, Error>)
    modifies net`asked
    ensures old(net.asked) <= net.asked
    ensures address.Ok? ==>
            && Pinned(p, net.resolver, net.asked, host, |old(net.asked)|, address.value)
              && |net.asked| == NextLookup(p, host, |old(net.asked)|)
    ensures address.Err? ==>
              address.error.BadHost? && Rejected(p, net.resolver, net.asked, host, |old(net.asked)|)
  {
    var valid := p.validHost(host);
    if valid.Err? {
      return Err(BadHost(valid.error));
    }
    if p.isIp(valid.value) {
      return if p.blocked(valid.value) then Err(BadHost(Refused)) else Ok(valid.value);
    }
    var infos := net.Lookup(valid.value);
    var picked := PickAddress(p, infos);
    address := if picked.Some? then Ok(picked.value) else Err(BadHost(Refused));
  }

  /** When the first `from` lookups were made before, an exchange is good if its
      URL is acceptable, the host of the URL was vetted by the next lookup, and the
      address is what the lookup after that gave for the host connected to. No
      earlier answer is used again. */
  ghost predicate Good(p: Policy, resolver: nat -> seq<AddrInfo>, asked: seq<string>, send: Send, from: nat) {
    && p.checkUrl(send.url).Ok? && p.portError(send.url).None?
    && p.urlHost(send.url).Some?
    && var checked, host := p.checkUrl(send.url).value, p.urlHost(send.url).value;
       var at := NextLookup(p, checked, from);
       && Vetted(p, resolver, asked, checked, from)
       && Pinned(p, resolver, asked, host, at, send.address)
       && send.lookups == NextLookup(p, host, at)
  }

  /** The URL fails validation: it is no good before the lookup, its host is not,
      or its port, which is only looked at once the host was found good. */
  ghost predicate Invalid(p: Policy, resolver: nat -> seq<AddrInfo>, asked: seq<string>, url: string, from: nat) {
    || p.checkUrl(url).Err?
    || Rejected(p, resolver, asked, p.checkUrl(url).value, from)
    || (Vetted(p, resolver, asked, p.checkUrl(url).value, from) && p.portError(url).Some?)
  }

  /** The URL fails validation, or there is no address to pin it to. */
  ghost predicate Unsendable(p: Policy, resolver: nat -> seq<AddrInfo>, asked: seq<string>, url: string, from: nat) {
    || Invalid(p, resolver, asked, url, from)
    || p.urlHost(url).None?
    || Rejected(p, resolver, asked, p.urlHost(url).value, NextLookup(p, p.checkUrl(url).value, from))
  }

  /** A bad port is found after the lookup, and costs it. */
  method ValidateUrl(p: Policy, url: string, net: Network) returns (error: Option<Error>)
    modifies net`asked
    ensures old(net.asked) <= net.asked
    ensures error.None? ==>
            && p.checkUrl(url).Ok? && p.portError(url).None?
              && Vetted(p, net.resolver, net.asked, p.checkUrl(url).value, |old(net.asked)|)
              && |net.asked| == NextLookup(p, p.checkUrl(url).value, |old(net.asked)|)
    ensures error.Some? ==>
              error.value.BadHost? && Invalid(p, net.resolver, net.asked, url, |old(net.asked)|)
  {
    var checked := p.checkUrl(url);
    if checked.Err? {
      return Some(BadHost(checked.error));
    }
    var address := ResolveAndValidateHost(p, checked.value, net);
    if address.Err? {
      return Some(address.error);
    }
    var port := p.portError(url);
    return if port.Some? then Some(BadHost(port.value)) else None;
  }

  /** Validate a URL and send its request to the address its host is pinned to. */
  method SendPinned(p: Policy, url: string, net: Network) returns (response: Result<Response, Error>)
    modifies net
    ensures old(net.asked) <= net.asked
    ensures response.Err? ==>
            && response.error.BadHost? && net.sends == old(net.sends)
              && Unsendable(p, net.resolver, net.asked, url, |old(net.asked)|)
    ensures response.Ok? ==>
            && |net.sends| == |old(net.sends)| + 1
              && net.sends[..|old(net.sends)|] == old(net.sends)
              && net.sends[|old(net.sends)|].url == url
              && net.sends[|old(net.sends)|].lookups == |net.asked|
              && Good(p, net.resolver, net.asked, net.sends[|old(net.sends)|], |old(net.asked)|)
              && response.value == net.servers(|old(net.sends)|)
  {
    var invalid := ValidateUrl(p, url, net);
    if invalid.Some? {
      return Err(invalid.value);
    }
    var host := p.urlHost(url);
    if host.None? {
      return Err(BadHost(Refused));
    }
    var address := ResolveAndValidateHost(p, host.value, net);
    if address.Err? {
      return Err(address.error);
    }
    var answer := net.Exchange(url, address.value);
    return Ok(answer);
  }

  /* Redirects. */

  /** The lookups made before exchange number `i`, the first of the request being
      number `start`. */
  function LookupsBefore(sends: seq<Send>, i: nat, start: nat, from: nat): nat
    requires i <= |sends|
  {
    if i <= start then from else sends[i - 1].lookups
  }

  ghost predicate AllGood(
    p: Policy, resolver: nat -> seq<AddrInfo>, asked: seq<string>, sends: seq<Send>, start: nat, from: nat)
  {
    forall i: nat :: start <= i < |sends| ==> GoodAt(p, resolver, asked, sends, i, start, from)
  }

  ghost predicate GoodAt(
    p: Policy, resolver: nat -> seq<AddrInfo>, asked: seq<string>, sends: seq<Send>, i: nat, start: nat, from: nat)
    requires i < |sends|
  {
    Good(p, resolver, asked, sends[i], LookupsBefore(sends, i, start, from))
  }

  /** The first exchange is for the URL, every other follows the redirect of the
      one before it. */
  ghost predicate Followed(p: Policy, url: string, servers: nat -> Response, sends: seq<Send>, start: nat) {
    && (start < |sends| ==> sends[start].url == url)
    && (forall i: nat :: start < i < |sends| ==> FollowsRedirect(p, servers, sends, i))
  }

  ghost predicate FollowsRedirect(p: Policy, servers: nat -> Response, sends: seq<Send>, i: nat)
    requires 0 < i < |sends|
  {
    Redirects(servers(i - 1)) && sends[i].url == p.join(sends[i - 1].url, servers(i - 1).location)
  }

  predicate Redirects(r: Response) {
    r.redirect && r.location != ""
  }

  function Allowance(limit: int): nat {
    if limit > 0 then limit else 0
  }

  lemma GoodKeeps(
    p: Policy, resolver: nat -> seq<AddrInfo>, asked: seq<string>, send: Send, from: nat, asked': seq<string>)
    requires Good(p, resolver, asked, send, from) && asked <= asked'
    ensures Good(p, resolver, asked', send, from)
  {
  }

  lemma AllGoodKeeps(
    p: Policy, resolver: nat -> seq<AddrInfo>, asked: seq<string>, sends: seq<Send>, start: nat, from: nat,
    asked': seq<string>)
    requires AllGood(p, resolver, asked, sends, start, from) && asked <= asked'
    ensures AllGood(p, resolver, asked', sends, start, from)
  {
    forall i: nat | start <= i < |sends| ensures GoodAt(p, resolver, asked', sends, i, start, from) {
      assert GoodAt(p, resolver, asked, sends, i, start, from);
      GoodKeeps(p, resolver, asked, sends[i], LookupsBefore(sends, i, start, from), asked');
    }
  }

  lemma SameLookupsBefore(sends: seq<Send>, more: seq<Send>, i: nat, start: nat, from: nat)
    requires i <= |sends| && sends <= more
    ensures LookupsBefore(more, i, start, from) == LookupsBefore(sends, i, start, from)
  {
  }

  lemma AllGoodGrows(
    p: Policy, resolver: nat -> seq<AddrInfo>, asked: seq<string>, before: seq<Send>, start: nat, from: nat, send: Send)
    requires AllGood(p, resolver, asked, before, start, from)
    requires Good(p, resolver, asked, send, LookupsBefore(before, |before|, start, from))
    ensures AllGood(p, resolver, asked, before + [send], start, from)
  {
    var sends := before + [send];
    forall i: nat | start <= i < |sends| ensures GoodAt(p, resolver, asked, sends, i, start, from) {
      SameLookupsBefore(before, sends, i, start, from);
      assert i < |before| ==> GoodAt(p, resolver, asked, before, i, start, from);
    }
  }

  lemma FollowedGrows(p: Policy, url: string, servers: nat -> Response, before: seq<Send>, start: nat, send: Send)
    requires start <= |before| && Followed(p, url, servers, before, start)
    requires IsNext(p, url, servers, before, start, send.url)
    ensures Followed(p, url, servers, before + [send], start)
  {
    var sends := before + [send];
    forall i: nat | start < i < |sends| ensures FollowsRedirect(p, servers, sends, i) {
      assert i < |before| ==> FollowsRedirect(p, servers, before, i);
    }
  }

  /** The URL due: the request's own at first, then where the last response
      redirects to. */
  ghost predicate IsNext(
    p: Policy, url: string, servers: nat -> Response, sends: seq<Send>, start: nat, next: string)
    requires start <= |sends|
  {
    if |sends| == start then next == url
    else
      && Redirects(servers(|sends| - 1))
      && next == p.join(sends[|sends| - 1].url, servers(|sends| - 1).location)
  }

  /** The exchanges of the request for `url` so far, the first being number
      `start` and `from` lookups having been made before. */
  ghost predicate Underway(p: Policy, url: string, net: Network, start: nat, from: nat)
    reads net
  {
    && AllGood(p, net.resolver, net.asked, net.sends, start, from)
    && Followed(p, url, net.servers, net.sends, start)
  }

  /** The request cannot go on: the URL due is not sendable. */
  ghost predicate Stuck(p: Policy, url: string, net: Network, start: nat, from: nat)
    reads net
  {
    && start <= |net.sends|
    && exists next ::
         && IsNext(p, url, net.servers, net.sends, start, next)
         && Unsendable(p, net.resolver, net.asked, next, LookupsBefore(net.sends, |net.sends|, start, from))
  }

  /** One more exchange of the request. */
  method SendNext(p: Policy, url: string, next: string, net: Network, ghost start: nat, ghost from: nat)
    returns (response: Result<Response, Error>)
    requires start <= |net.sends| && Underway(p, url, net, start, from)
    requires |net.asked| == LookupsBefore(net.sends, |net.sends|, start, from)
    requires IsNext(p, url, net.servers, net.sends, start, next)
    modifies net
    ensures old(net.asked) <= net.asked && old(net.sends) <= net.sends && Underway(p, url, net, start, from)
    ensures response.Err? ==>
              response.error.BadHost? && net.sends == old(net.sends) && Stuck(p, url, net, start, from)
    ensures response.Ok? ==>
            && |net.sends| == |old(net.sends)| + 1
              && net.sends[|net.sends| - 1].url == next
              && |net.asked| == LookupsBefore(net.sends, |net.sends|, start, from)
              && response.value == net.servers(|net.sends| - 1)
  {
    ghost var asked, before := net.asked, net.sends;
    response := SendPinned(p, next, net);
    AllGoodKeeps(p, net.resolver, asked, before, start, from, net.asked);
    if response.Ok? {
      assert net.sends == before + [net.sends[|before|]];
      AllGoodGrows(p, net.resolver, net.asked, before, start, from, net.sends[|before|]);
      FollowedGrows(p, url, net.servers, before, start, net.sends[|before|]);
    }
  }

  method FollowRedirects(p: Policy, url: string, maxRedirects: int, net: Network)
    returns (last: Result<Response, Error>)
    modifies net
    ensures old(net.asked) <= net.asked && old(net.sends) <= net.sends
    ensures |net.sends| - |old(net.sends)| <= Allowance(maxRedirects) + 1
    ensures Underway(p, url, net, |old(net.sends)|, |old(net.asked)|)
    ensures last.Ok? ==>
              |net.sends| > |old(net.sends)| && last.value == net.servers(|net.sends| - 1) && !Redirects(last.value)
    ensures last.Err? ==> last.error != TooLarge
    ensures last.Err? && last.error.BadHost? ==> Stuck(p, url, net, |old(net.sends)|, |old(net.asked)|)
    ensures last == Err(RedirectLimit) ==>
            && |net.sends| - |old(net.sends)| == Allowance(maxRedirects) + 1
              && net.servers(|net.sends| - 1).redirect
  {
    ghost var start, from := |net.sends|, |net.asked|;
    var sent := SendNext(p, url, url, net, start, from);
    if sent.Err? {
      return Err(sent.error);
    }
    var response := sent.value;
    var current := url;
    var redirects := 0;
    while response.redirect
      invariant 0 <= redirects <= Allowance(maxRedirects)
      invariant |net.sends| == start + redirects + 1
      invariant old(net.sends) <= net.sends && old(net.asked) <= net.asked
      invariant Underway(p, url, net, start, from)
      invariant current == net.sends[|net.sends| - 1].url && response == net.servers(|net.sends| - 1)
      invariant |net.asked| == LookupsBefore(net.sends, |net.sends|, start, from)
      decreases Allowance(maxRedirects) - redirects
    {
      redirects := redirects + 1;
      if redirects > maxRedirects {
        return Err(RedirectLimit);
      }
      if response.location == "" {
        break;
      }
      current := p.join(current, response.location);
      sent := SendNext(p, url, current, net, start, from);
      if sent.Err? {
        return Err(sent.error);
      }
      response := sent.value;
    }
    return Ok(response);
  }

  /** However the address was chosen, it is one, and it is not blocked. */
  lemma PinnedIsNotBlocked(p: Policy, resolver: nat -> seq<AddrInfo>, asked: seq<string>, send: Send, from: nat)
    requires Good(p, resolver, asked, send, from)
    ensures p.isIp(send.address) && !p.blocked(send.address)
  {
  }

  /** Whatever the resolver and the servers do: at most one exchange more than the
      redirect limit, every one of them to the address its own host was pinned to
      by a lookup of its own, and along the chain of redirects; and the body is all
      of the last response's, within the cap. */
  method HandleAsyncRequest(p: Policy, url: string, maxRedirects: int, maxBytes: int, net: Network)
    returns (body: Result<seq<Byte>, Error>)
    modifies net
    ensures old(net.asked) <= net.asked && old(net.sends) <= net.sends
    ensures |net.sends| - |old(net.sends)| <= Allowance(maxRedirects) + 1
    ensures Underway(p, url, net, |old(net.sends)|, |old(net.asked)|)
    ensures forall i :: |old(net.sends)| <= i < |net.sends| ==>
              p.isIp(net.sends[i].address) && !p.blocked(net.sends[i].address)
    ensures body.Ok? ==>
            && |net.sends| > |old(net.sends)|
              && !Redirects(net.servers(|net.sends| - 1))
              && body.value == Flatten(net.servers(|net.sends| - 1).chunks)
              && |body.value| <= Allowance(maxBytes)
    ensures body == Err(RedirectLimit) ==>
            && |net.sends| - |old(net.sends)| == Allowance(maxRedirects) + 1
              && net.servers(|net.sends| - 1).redirect
    ensures body.Err? && body.error.BadHost? ==> Stuck(p, url, net, |old(net.sends)|, |old(net.asked)|)
    ensures body == Err(TooLarge) ==>
              |net.sends| > 0 && |Flatten(net.servers(|net.sends| - 1).chunks)| > maxBytes
  {
    var last := FollowRedirects(p, url, maxRedirects, net);
    ghost var start, from := |old(net.sends)|, |old(net.asked)|;
    forall i: nat | start <= i < |net.sends| ensures p.isIp(net.sends[i].address) && !p.blocked(net.sends[i].address) {
      assert GoodAt(p, net.resolver, net.asked, net.sends, i, start, from);
      PinnedIsNotBlocked(p, net.resolver, net.asked, net.sends[i], LookupsBefore(net.sends, i, start, from));
    }
    if last.Err? {
      return Err(last.error);
    }
    body := ReadBody(last.value.chunks, maxBytes);
  }
}
