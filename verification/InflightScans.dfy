/** The registry that refuses a second scan of the same target by the same
    client while the first one is in flight.
 */
module InflightScans {
  import opened Wrappers

  datatype Registry = Registry(byKey: map<string, string>, scanKeys: map<string, string>)

  const EMPTY_REGISTRY := Registry(map[], map[])

  function DedupKey(client: string, target: string): string {
    client + ":" + target
  }

  function InflightScan(r: Registry, client: string, target: string): Option<string> {
    var key := DedupKey(client, target);
    if key in r.byKey then Some(r.byKey[key]) else None
  }

  function AfterRegister(r: Registry, client: string, target: string, scan: string): Registry {
    var key := DedupKey(client, target);
    Registry(r.byKey[key := scan], r.scanKeys[scan := key])
  }

  function AfterRelease(r: Registry, scan: string): Registry {
    if scan !in r.scanKeys then r
    else
      var key := r.scanKeys[scan];
      Registry(if key != "" && key in r.byKey && r.byKey[key] == scan then r.byKey - {key} else r.byKey,
               r.scanKeys - {scan})
  }

  class InflightScanRegistry {
    var byKey: map<string, string>
    var scanKeys: map<string, string>

    function State(): Registry
      reads this
    {
      Registry(byKey, scanKeys)
    }

    constructor ()
      ensures State() == EMPTY_REGISTRY
    {
      byKey, scanKeys := map[], map[];
    }

    method GetInflight(client: string, target: string) returns (scan: Option<string>)
      ensures scan == InflightScan(State(), client, target)
      ensures scan.Some? <==> DedupKey(client, target) in byKey
      ensures Coherent(State()) && scan.Some? ==>
                scan.value in scanKeys && scanKeys[scan.value] == DedupKey(client, target)
    {
      var key := DedupKey(client, target);
      scan := if key in byKey then Some(byKey[key]) else None;
    }

    method Register(client: string, target: string, scan: string)
      modifies this
      ensures State() == AfterRegister(old(State()), client, target, scan)
      ensures InflightScan(State(), client, target) == Some(scan)
      ensures forall c, t :: DedupKey(c, t) != DedupKey(client, target) ==>
                InflightScan(State(), c, t) == old(InflightScan(State(), c, t))
      ensures old(Coherent(State())) && scan !in old(scanKeys) ==> Coherent(State())
    {
      ghost var before := State();
      if Coherent(before) && scan !in before.scanKeys {
        RegisterKeepsCoherent(before, client, target, scan);
      }
      var key := DedupKey(client, target);
      byKey := byKey[key := scan];
      scanKeys := scanKeys[scan := key];
    }

    method Release(scan: string)
      modifies this
      ensures State() == AfterRelease(old(State()), scan)
      ensures old(Coherent(State())) ==>
              && Coherent(State())
                && scan !in scanKeys
                && forall key :: key in byKey <==> key in old(byKey) && old(byKey)[key] != scan
    {
      ghost var before := State();
      if Coherent(before) {
        ReleaseKeepsCoherent(before, scan);
      }
      if scan in scanKeys {
        var key := scanKeys[scan];
        scanKeys := scanKeys - {scan};
        if key != "" && key in byKey && byKey[key] == scan {
          byKey := byKey - {key};
        }
      }
    }
  }

  /** Every key in flight points at a scan that still remembers the key. */
  ghost predicate Coherent(r: Registry) {
    forall key :: key in r.byKey ==> key != "" && r.byKey[key] in r.scanKeys && r.scanKeys[r.byKey[key]] == key
  }

  /** Registering a scan id for the first time keeps the maps coherent, even
      when it supersedes an older scan of the same key. */
  lemma RegisterKeepsCoherent(r: Registry, client: string, target: string, scan: string)
    requires Coherent(r) && scan !in r.scanKeys
    ensures var r' := AfterRegister(r, client, target, scan);
            && Coherent(r')
            && InflightScan(r', client, target) == Some(scan)
  {
  }

  /** Releasing any scan keeps the maps coherent and takes away nobody else's
      entry: a superseded scan cannot drop its successor. */
  lemma ReleaseKeepsCoherent(r: Registry, scan: string)
    requires Coherent(r)
    ensures var r' := AfterRelease(r, scan);
            && Coherent(r')
            && r'.scanKeys.Keys == r.scanKeys.Keys - {scan}
            && (forall key :: key in r'.byKey <==> key in r.byKey && r.byKey[key] != scan)
            && (forall key :: key in r'.byKey ==> r'.byKey[key] == r.byKey[key])
  {
  }

  /** What target normalisation produces: one authority, no path. */
  ghost predicate NormalizedTarget(target: string, authority: string) {
    target == "https://" + authority + "/" && '/' !in authority
  }

  /** Whatever characters a client identity holds, colons and slashes included,
      two requests share a key only when client and target are both equal. */
  lemma DedupKeyIsInjective(client: string, target: string, authority: string,
                            client': string, target': string, authority': string)
    requires NormalizedTarget(target, authority) && NormalizedTarget(target', authority')
    requires DedupKey(client, target) == DedupKey(client', target')
    ensures client == client' && target == target'
  {
    if |authority| < |authority'| {
      ShorterAuthorityClashes(client, target, authority, client', target', authority');
    } else if |authority'| < |authority| {
      ShorterAuthorityClashes(client', target', authority', client, target, authority);
    } else {
      var key := DedupKey(client, target);
      assert target == key[|client| + 1..] && target' == key[|client'| + 1..];
      assert client == key[..|client|] && client' == key[..|client'|];
    }
  }

  /** The last slash but one of the key sits right before the authority, so the
      longer authority would have to contain it. */
  lemma ShorterAuthorityClashes(client: string, target: string, authority: string,
                                client': string, target': string, authority': string)
    requires NormalizedTarget(target, authority) && NormalizedTarget(target', authority')
    requires |authority| < |authority'|
    ensures DedupKey(client, target) != DedupKey(client', target')
  {
    var key, key' := DedupKey(client, target), DedupKey(client', target');
    var at := |key| - 2 - |authority|;
    assert key[at] == target[7] == '/';
    if |key| == |key'| {
      assert key'[at] == target'[|target'| - 2 - |authority|] == authority'[|authority'| - 1 - |authority|];
      assert authority'[|authority'| - 1 - |authority|] in authority';
    }
  }
}
