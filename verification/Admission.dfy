/** Admission of `POST /scan`: any number of requests in flight, interleaved at
    every await over one rate limiter and one in-flight registry.
 */
module Admission {
  import opened Wrappers
  import opened SlidingWindow
  import L = RateLimiting
  import R = InflightScans

  /** How a request ended. */
  datatype Ending = Conflict | Refused(verdict: L.Verdict) | Failed | Finished

  /** Where a request stands. A phase names the next await of the handler, or
      of the clean-up that follows an exception or the end of the scan task. */
  datatype Phase =
    | LookingUp                       // get_inflight
    | Checking(existing: string)      // get_status_summary of the scan found
    | Clearing(existing: string)      // release of that stale scan
    | Acquiring                       // limiter acquire
    | Registering                     // slot held; registry register
    | Scheduling                      // quota reservation and scheduling
    | Scanning                        // the scan task runs
    | Unregistering(ending: Ending)   // registry release
    | Returning(ending: Ending)       // limiter release
    | Ended(ending: Ending)

  /** `scan` is empty until a slot has been acquired. */
  datatype Request = Request(client: string, target: string, phase: Phase, scan: string)

  datatype Event =
    | Arrive(id: nat, client: string, target: string)
    | LookUp(id: nat)
    | Status(id: nat, inProgress: bool)
    | Clear(id: nat)
    | Acquire(id: nat, now: real, scan: string)
    | Register(id: nat)
    | Schedule(id: nat, succeeds: bool)
    | TaskEnds(id: nat)
    | Unregister(id: nat)
    | GiveBack(id: nat)

  /** `granted` and `returned` record every slot ever handed out and given
      back, `accepted` every time ever accepted, per client. */
  datatype System = System(
    limiter: L.LimiterState,
    registry: R.Registry,
    requests: map<nat, Request>,
    clock: real,
    granted: multiset<nat>,
    returned: multiset<nat>,
    accepted: map<string, seq<real>>)

  const IDLE := System(L.EMPTY_LIMITER, R.EMPTY_REGISTRY, map[], 0.0, multiset{}, multiset{}, map[])

  ghost predicate IsAt(s: System, id: nat, phase: Phase) {
    id in s.requests && s.requests[id].phase == phase
  }

  /** Scan ids are random and never repeat; a falsy id is never drawn. */
  ghost predicate FreshScan(s: System, scan: string) {
    scan != "" && forall q :: q in s.requests ==> s.requests[q].scan != scan
  }

  ghost predicate Enabled(s: System, e: Event) {
    match e
    case Arrive(id, _, _) => id !in s.requests
    case LookUp(id) => IsAt(s, id, LookingUp)
    case Status(id, _) => id in s.requests && s.requests[id].phase.Checking?
    case Clear(id) => id in s.requests && s.requests[id].phase.Clearing?
    case Acquire(id, now, scan) => IsAt(s, id, Acquiring) && s.clock <= now && FreshScan(s, scan)
    case Register(id) => IsAt(s, id, Registering)
    case Schedule(id, _) => IsAt(s, id, Scheduling)
    case TaskEnds(id) => IsAt(s, id, Scanning)
    case Unregister(id) => id in s.requests && s.requests[id].phase.Unregistering?
    case GiveBack(id) => id in s.requests && s.requests[id].phase.Returning?
  }

  ghost function Moved(s: System, id: nat, phase: Phase): System
    requires id in s.requests
  {
    s.(requests := s.requests[id := s.requests[id].(phase := phase)])
  }

  ghost function AcquireStep(cfg: L.Settings, s: System, id: nat, now: real, scan: string): System
    requires id in s.requests
  {
    var r := s.requests[id];
    var verdict := L.Decide(s.limiter, cfg, r.client, now);
    var s' := s.(limiter := L.AfterAcquire(s.limiter, cfg, r.client, now), clock := now);
    if verdict.Admitted? then
      s'.(requests := s.requests[id := r.(phase := Registering, scan := scan)],
          granted := s.granted + multiset{id},
          accepted := s.accepted[r.client := L.Live(s.accepted, r.client) + [now]])
    else
      s'.(requests := s.requests[id := r.(phase := Ended(Refused(verdict)))])
  }

  /** One step of one request; an event that is not enabled changes nothing. */
  ghost function Next(cfg: L.Settings, s: System, e: Event): System {
    if !Enabled(s, e) then s
    else
      match e
      case Arrive(id, client, target) => s.(requests := s.requests[id := Request(client, target, LookingUp, "")])
      case LookUp(id) =>
        var found := R.InflightScan(s.registry, s.requests[id].client, s.requests[id].target);
        Moved(s, id, if found.Some? then Checking(found.value) else Acquiring)
      case Status(id, inProgress) =>
        Moved(s, id, if inProgress then Ended(Conflict) else Clearing(s.requests[id].phase.existing))
      case Clear(id) =>
        Moved(s.(registry := R.AfterRelease(s.registry, s.requests[id].phase.existing)), id, Acquiring)
      case Acquire(id, now, scan) => AcquireStep(cfg, s, id, now, scan)
      case Register(id) =>
        var r := s.requests[id];
        Moved(s.(registry := R.AfterRegister(s.registry, r.client, r.target, r.scan)), id, Scheduling)
      case Schedule(id, succeeds) => Moved(s, id, if succeeds then Scanning else Unregistering(Failed))
      case TaskEnds(id) => Moved(s, id, Unregistering(Finished))
      case Unregister(id) =>
        var r := s.requests[id];
        Moved(s.(registry := R.AfterRelease(s.registry, r.scan)), id, Returning(r.phase.ending))
      case GiveBack(id) =>
        Moved(s.(limiter := L.AfterRelease(s.limiter, s.requests[id].client), returned := s.returned + multiset{id}),
              id, Ended(s.requests[id].phase.ending))
  }

  ghost function Run(cfg: L.Settings, events: seq<Event>): System {
    if events == [] then IDLE
    else Next(cfg, Run(cfg, events[..|events| - 1]), events[|events| - 1])
  }

  /* Slots. */

  /** From the limiter's acquire until its release the request holds a slot. */
  predicate HoldsSlot(phase: Phase) {
    phase.Registering? || phase.Scheduling? || phase.Scanning? || phase.Unregistering? || phase.Returning?
  }

  ghost function Holders(requests: map<nat, Request>): set<nat> {
    set id | id in requests && HoldsSlot(requests[id].phase)
  }

  ghost function HoldersOf(requests: map<nat, Request>, client: string): set<nat> {
    set id | id in requests && HoldsSlot(requests[id].phase) && requests[id].client == client
  }

  ghost function TotalOver(clients: set<string>, counts: map<string, int>): int {
    if clients == {} then 0
    else
      var client :| client in clients;
      L.Active(counts, client) + TotalOver(clients - {client}, counts)
  }

  /** The sum of the per-client counters. */
  ghost function Total(counts: map<string, int>): int {
    TotalOver(counts.Keys, counts)
  }

  lemma {:induction false} TotalOverWithout(clients: set<string>, counts: map<string, int>, client: string)
    requires client in clients
    ensures TotalOver(clients, counts) == L.Active(counts, client) + TotalOver(clients - {client}, counts)
  {
    var pick :| pick in clients && TotalOver(clients, counts)
        == L.Active(counts, pick) + TotalOver(clients - {pick}, counts);
    if pick != client {
      TotalOverWithout(clients - {pick}, counts, client);
      TotalOverWithout(clients - {client}, counts, pick);
      assert clients - {pick} - {client} == clients - {client} - {pick};
    }
  }

  lemma {:induction false} TotalOverAgrees(clients: set<string>, counts: map<string, int>, counts': map<string, int>)
    requires forall c :: c in clients ==> L.Active(counts, c) == L.Active(counts', c)
    ensures TotalOver(clients, counts) == TotalOver(clients, counts')
  {
    if clients != {} {
      var pick :| pick in clients && TotalOver(clients, counts)
          == L.Active(counts, pick) + TotalOver(clients - {pick}, counts);
      TotalOverAgrees(clients - {pick}, counts, counts');
      TotalOverWithout(clients, counts', pick);
    }
  }

  lemma TotalUpdated(counts: map<string, int>, client: string, n: int)
    ensures Total(counts[client := n]) == Total(counts) - L.Active(counts, client) + n
  {
    var counts', others := counts[client := n], counts.Keys - {client};
    TotalOverWithout(counts'.Keys, counts', client);
    assert counts'.Keys - {client} == others;
    TotalOverAgrees(others, counts, counts');
    if client in counts {
      TotalOverWithout(counts.Keys, counts, client);
    } else {
      assert others == counts.Keys;
    }
  }

  ghost predicate CountersExact(s: System) {
    && s.limiter.global == |Holders(s.requests)|
    && Total(s.limiter.perClient) == |Holders(s.requests)|
    && forall client :: L.Active(s.limiter.perClient, client) == |HoldersOf(s.requests, client)|
  }

  ghost predicate LimitsKept(cfg: L.Settings, s: System) {
    && |Holders(s.requests)| <= NonNegative(cfg.maxGlobal)
    && forall client :: |HoldersOf(s.requests, client)| <= NonNegative(cfg.maxPerClient)
  }

  /** A request was granted at most one slot, and gave back exactly what it no
      longer holds. */
  ghost predicate SlotsAccounted(s: System) {
    && (forall id :: id !in s.requests ==> s.granted[id] == 0 && s.returned[id] == 0)
    && (forall id :: id in s.requests ==> Accounted(s.requests[id], s.granted[id], s.returned[id]))
  }

  predicate BeforeSlot(phase: Phase) {
    phase.LookingUp? || phase.Checking? || phase.Clearing? || phase.Acquiring?
  }

  ghost predicate Accounted(r: Request, granted: nat, returned: nat) {
    && (BeforeSlot(r.phase) ==> r.scan == "")
    && granted == (if r.scan != "" then 1 else 0)
    && returned + (if HoldsSlot(r.phase) then 1 else 0) == granted
  }

  ghost predicate SlotInvariant(cfg: L.Settings, s: System) {
    CountersExact(s) && LimitsKept(cfg, s) && SlotsAccounted(s)
  }

  lemma SameHolders(requests: map<nat, Request>, id: nat, r: Request)
    requires HoldsSlot(r.phase) == (id in requests && HoldsSlot(requests[id].phase))
    requires id in requests ==> r.client == requests[id].client
    ensures Holders(requests[id := r]) == Holders(requests)
    ensures forall client :: HoldersOf(requests[id := r], client) == HoldersOf(requests, client)
  {
  }

  lemma HoldersGain(requests: map<nat, Request>, id: nat, r: Request)
    requires HoldsSlot(r.phase) && (id in requests ==> !HoldsSlot(requests[id].phase))
    ensures Holders(requests[id := r]) == Holders(requests) + {id} && id !in Holders(requests)
  {
  }

  lemma HoldersOfGain(requests: map<nat, Request>, id: nat, r: Request)
    requires HoldsSlot(r.phase) && (id in requests ==> !HoldsSlot(requests[id].phase))
    ensures HoldersOf(requests[id := r], r.client) == HoldersOf(requests, r.client) + {id}
            && id !in HoldersOf(requests, r.client)
  {
  }

  lemma OneMoreHolder(requests: map<nat, Request>, id: nat, r: Request)
    requires HoldsSlot(r.phase) && (id in requests ==> !HoldsSlot(requests[id].phase))
    ensures |Holders(requests[id := r])| == |Holders(requests)| + 1
    ensures |HoldersOf(requests[id := r], r.client)| == |HoldersOf(requests, r.client)| + 1
    ensures forall client :: client != r.client ==> HoldersOf(requests[id := r], client) == HoldersOf(requests, client)
  {
    HoldersGain(requests, id, r);
    HoldersOfGain(requests, id, r);
    forall client | client != r.client ensures HoldersOf(requests[id := r], client) == HoldersOf(requests, client) {
      OthersHoldAsBefore(requests, id, r, client);
    }
  }

  lemma OthersHoldAsBefore(requests: map<nat, Request>, id: nat, r: Request, client: string)
    requires client != r.client && (id in requests ==> !HoldsSlot(requests[id].phase))
    ensures HoldersOf(requests[id := r], client) == HoldersOf(requests, client)
  {
  }

  lemma OneHolderLess(requests: map<nat, Request>, id: nat, r: Request)
    requires id in requests && HoldsSlot(requests[id].phase) && !HoldsSlot(r.phase)
    ensures var client := requests[id].client;
            && |Holders(requests[id := r])| == |Holders(requests)| - 1
            && |HoldersOf(requests[id := r], client)| == |HoldersOf(requests, client)| - 1
            && forall c :: c != client ==> HoldersOf(requests[id := r], c) == HoldersOf(requests, c)
  {
    var client := requests[id].client;
    assert id in Holders(requests) && id in HoldersOf(requests, client);
    assert Holders(requests[id := r]) == Holders(requests) - {id};
    assert HoldersOf(requests[id := r], client) == HoldersOf(requests, client) - {id};
  }

  /** What a step that is neither an acquire nor a limiter release leaves alone. */
  lemma QuietStep(cfg: L.Settings, s: System, e: Event)
    requires Enabled(s, e) && !e.Acquire? && !e.GiveBack?
    ensures var s' := Next(cfg, s, e);
            && e.id in s'.requests
            && s' == s.(requests := s.requests[e.id := s'.requests[e.id]], registry := s'.registry)
            && (e.id in s.requests ==>
                  && s'.requests[e.id] == s.requests[e.id].(phase := s'.requests[e.id].phase)
                  && HoldsSlot(s'.requests[e.id].phase) == HoldsSlot(s.requests[e.id].phase)
                  && (BeforeSlot(s'.requests[e.id].phase) ==> BeforeSlot(s.requests[e.id].phase)))
            && (e.id !in s.requests ==>
                  s'.requests[e.id].phase == LookingUp && s'.requests[e.id].scan == "")
  {
  }

  lemma QuietStepKeepsSlots(cfg: L.Settings, s: System, e: Event)
    requires SlotInvariant(cfg, s) && Enabled(s, e) && !e.Acquire? && !e.GiveBack?
    ensures SlotInvariant(cfg, Next(cfg, s, e))
  {
    QuietStep(cfg, s, e);
    SameHolders(s.requests, e.id, Next(cfg, s, e).requests[e.id]);
  }

  lemma RefusedAcquireKeepsSlots(cfg: L.Settings, s: System, id: nat, now: real, scan: string)
    requires SlotInvariant(cfg, s) && Enabled(s, Acquire(id, now, scan))
    requires !L.Decide(s.limiter, cfg, s.requests[id].client, now).Admitted?
    ensures SlotInvariant(cfg, AcquireStep(cfg, s, id, now, scan))
  {
    var s', client := AcquireStep(cfg, s, id, now, scan), s.requests[id].client;
    assert Accounted(s.requests[id], s.granted[id], s.returned[id]);
    assert s'.requests == s.requests[id := s'.requests[id]];
    SameHolders(s.requests, id, s'.requests[id]);
    TotalUpdated(s.limiter.perClient, client, L.Active(s.limiter.perClient, client));
    forall c ensures L.Active(s'.limiter.perClient, c) == |HoldersOf(s'.requests, c)| == |HoldersOf(s.requests, c)| {
      assert L.Active(s.limiter.perClient, c) == |HoldersOf(s.requests, c)|;
    }
  }

  lemma GrantedAcquireKeepsCounters(cfg: L.Settings, s: System, id: nat, now: real, scan: string)
    requires SlotInvariant(cfg, s) && Enabled(s, Acquire(id, now, scan))
    requires L.Decide(s.limiter, cfg, s.requests[id].client, now).Admitted?
    ensures CountersExact(AcquireStep(cfg, s, id, now, scan)) && LimitsKept(cfg, AcquireStep(cfg, s, id, now, scan))
  {
    var s', client := AcquireStep(cfg, s, id, now, scan), s.requests[id].client;
    assert s'.requests == s.requests[id := s'.requests[id]];
    OneMoreHolder(s.requests, id, s'.requests[id]);
    TotalUpdated(s.limiter.perClient, client, L.Active(s.limiter.perClient, client) + 1);
    forall c
      ensures L.Active(s'.limiter.perClient, c) == |HoldersOf(s'.requests, c)| <= NonNegative(cfg.maxPerClient)
    {
      assert L.Active(s.limiter.perClient, c) == |HoldersOf(s.requests, c)| <= NonNegative(cfg.maxPerClient);
    }
  }

  /** Both guards of `release` are true whenever it runs, so every release
      takes exactly one slot off both counters. */
  lemma GuardsNeverBite(cfg: L.Settings, s: System, id: nat)
    requires SlotInvariant(cfg, s) && Enabled(s, GiveBack(id))
    ensures L.Active(s.limiter.perClient, s.requests[id].client) > 0 && s.limiter.global > 0
  {
    assert id in Holders(s.requests) && id in HoldersOf(s.requests, s.requests[id].client);
  }

  lemma GiveBackKeepsCounters(cfg: L.Settings, s: System, id: nat)
    requires SlotInvariant(cfg, s) && Enabled(s, GiveBack(id))
    ensures CountersExact(Next(cfg, s, GiveBack(id))) && LimitsKept(cfg, Next(cfg, s, GiveBack(id)))
  {
    var s', client := Next(cfg, s, GiveBack(id)), s.requests[id].client;
    GuardsNeverBite(cfg, s, id);
    assert s'.requests == s.requests[id := s'.requests[id]];
    OneHolderLess(s.requests, id, s'.requests[id]);
    TotalUpdated(s.limiter.perClient, client, L.Active(s.limiter.perClient, client) - 1);
    forall c
      ensures L.Active(s'.limiter.perClient, c) == |HoldersOf(s'.requests, c)| <= NonNegative(cfg.maxPerClient)
    {
      assert L.Active(s.limiter.perClient, c) == |HoldersOf(s.requests, c)| <= NonNegative(cfg.maxPerClient);
    }
  }

  /** Only an acquire grants a slot and only a limiter release returns one. */
  lemma GrantKeepsAccounts(cfg: L.Settings, s: System, id: nat, now: real, scan: string)
    requires SlotsAccounted(s) && Enabled(s, Acquire(id, now, scan))
    requires L.Decide(s.limiter, cfg, s.requests[id].client, now).Admitted?
    ensures SlotsAccounted(AcquireStep(cfg, s, id, now, scan))
  {
    assert Accounted(s.requests[id], s.granted[id], s.returned[id]);
    assert Accounted(s.requests[id].(phase := Registering, scan := scan), s.granted[id] + 1, s.returned[id]);
  }

  lemma GiveBackKeepsAccounts(cfg: L.Settings, s: System, id: nat)
    requires SlotsAccounted(s) && Enabled(s, GiveBack(id))
    ensures SlotsAccounted(Next(cfg, s, GiveBack(id)))
  {
    var ending := s.requests[id].phase.ending;
    assert Accounted(s.requests[id], s.granted[id], s.returned[id]);
    assert Accounted(s.requests[id].(phase := Ended(ending)), s.granted[id], s.returned[id] + 1);
  }

  lemma {:induction false} SlotsAlwaysRight(cfg: L.Settings, events: seq<Event>)
    ensures SlotInvariant(cfg, Run(cfg, events))
  {
    if events == [] {
      assert Holders(IDLE.requests) == {};
      assert forall client :: HoldersOf(IDLE.requests, client) == {};
    } else {
      var s, e := Run(cfg, events[..|events| - 1]), events[|events| - 1];
      SlotsAlwaysRight(cfg, events[..|events| - 1]);
      if Enabled(s, e) {
        StepKeepsSlots(cfg, s, e);
      }
    }
  }

  lemma StepKeepsSlots(cfg: L.Settings, s: System, e: Event)
    requires SlotInvariant(cfg, s) && Enabled(s, e)
    ensures SlotInvariant(cfg, Next(cfg, s, e))
  {
    match e
    case Acquire(id, now, scan) =>
      if L.Decide(s.limiter, cfg, s.requests[id].client, now).Admitted? {
        GrantedAcquireKeepsCounters(cfg, s, id, now, scan);
        GrantKeepsAccounts(cfg, s, id, now, scan);
      } else {
        RefusedAcquireKeepsSlots(cfg, s, id, now, scan);
      }
    case GiveBack(id) =>
      GiveBackKeepsCounters(cfg, s, id);
      GiveBackKeepsAccounts(cfg, s, id);
    case _ =>
      QuietStepKeepsSlots(cfg, s, e);
  }

  /* The registry. */

  /** Between its register step and its own release a request may be the owner
      of a registered scan. */
  predicate InRegistry(phase: Phase) {
    phase.Scheduling? || phase.Scanning? || phase.Unregistering?
  }

  ghost predicate Owns(requests: map<nat, Request>, id: nat, scan: string, key: string) {
    && id in requests
    && requests[id].scan == scan
    && InRegistry(requests[id].phase)
    && key == R.DedupKey(requests[id].client, requests[id].target)
  }

  ghost predicate AllOwned(registry: R.Registry, requests: map<nat, Request>) {
    forall scan :: scan in registry.scanKeys ==> exists id :: Owns(requests, id, scan, registry.scanKeys[scan])
  }

  ghost predicate DistinctScans(requests: map<nat, Request>) {
    forall p, q :: p in requests && q in requests && p != q && requests[p].scan != "" ==>
      requests[p].scan != requests[q].scan
  }

  ghost predicate RegistryInvariant(s: System) {
    && R.Coherent(s.registry)
    && AllOwned(s.registry, s.requests)
    && DistinctScans(s.requests)
    && (forall id :: id in s.requests && HoldsSlot(s.requests[id].phase) ==> s.requests[id].scan != "")
  }

  /** A step may move its request anywhere but out of the registry phases. */
  lemma MoveKeepsOwners(registry: R.Registry, requests: map<nat, Request>, id: nat, r: Request)
    requires AllOwned(registry, requests) && DistinctScans(requests)
    requires id in requests ==> r == requests[id].(phase := r.phase)
    requires id in requests && InRegistry(requests[id].phase) ==> InRegistry(r.phase) || r.scan !in registry.scanKeys
    requires id !in requests ==> r.scan == ""
    ensures AllOwned(registry, requests[id := r]) && DistinctScans(requests[id := r])
  {
    var requests' := requests[id := r];
    forall scan | scan in registry.scanKeys
      ensures exists q :: Owns(requests', q, scan, registry.scanKeys[scan])
    {
      var q :| Owns(requests, q, scan, registry.scanKeys[scan]);
      assert Owns(requests', q, scan, registry.scanKeys[scan]);
    }
  }

  lemma ReleaseKeepsOwners(registry: R.Registry, requests: map<nat, Request>, scan: string)
    requires R.Coherent(registry) && AllOwned(registry, requests)
    ensures R.Coherent(R.AfterRelease(registry, scan)) && AllOwned(R.AfterRelease(registry, scan), requests)
    ensures scan !in R.AfterRelease(registry, scan).scanKeys
  {
    R.ReleaseKeepsCoherent(registry, scan);
    var registry' := R.AfterRelease(registry, scan);
    forall x | x in registry'.scanKeys ensures exists id :: Owns(requests, id, x, registry'.scanKeys[x]) {
      var id :| Owns(requests, id, x, registry.scanKeys[x]);
      assert Owns(requests, id, x, registry'.scanKeys[x]);
    }
  }

  lemma RegisterKeepsOwners(s: System, id: nat)
    requires RegistryInvariant(s) && IsAt(s, id, Registering)
    ensures var r := s.requests[id];
            var registry' := R.AfterRegister(s.registry, r.client, r.target, r.scan);
            && R.Coherent(registry')
            && AllOwned(registry', s.requests[id := r.(phase := Scheduling)])
  {
    var r := s.requests[id];
    var registry', requests' := R.AfterRegister(s.registry, r.client, r.target, r.scan),
        s.requests[id := r.(phase := Scheduling)];
    if r.scan in s.registry.scanKeys {
      var q :| Owns(s.requests, q, r.scan, s.registry.scanKeys[r.scan]);
      assert false;
    }
    R.RegisterKeepsCoherent(s.registry, r.client, r.target, r.scan);
    forall x | x in registry'.scanKeys ensures exists q :: Owns(requests', q, x, registry'.scanKeys[x]) {
      if x == r.scan {
        assert Owns(requests', id, x, registry'.scanKeys[x]);
      } else {
        var q :| Owns(s.requests, q, x, s.registry.scanKeys[x]);
        assert Owns(requests', q, x, registry'.scanKeys[x]);
      }
    }
  }

  lemma GrantKeepsOwners(registry: R.Registry, requests: map<nat, Request>, id: nat, scan: string)
    requires AllOwned(registry, requests) && DistinctScans(requests)
    requires id in requests && requests[id].phase == Acquiring && scan != ""
    requires forall q :: q in requests ==> requests[q].scan != scan
    ensures var requests' := requests[id := requests[id].(phase := Registering, scan := scan)];
            AllOwned(registry, requests') && DistinctScans(requests')
  {
    var requests' := requests[id := requests[id].(phase := Registering, scan := scan)];
    forall x | x in registry.scanKeys ensures exists q :: Owns(requests', q, x, registry.scanKeys[x]) {
      var q :| Owns(requests, q, x, registry.scanKeys[x]);
      assert Owns(requests', q, x, registry.scanKeys[x]);
    }
  }

  /** Everything the invariant says besides the two maps' mutual coherence and
      ownership. */
  lemma StepKeepsScansNamed(cfg: L.Settings, s: System, e: Event)
    requires Enabled(s, e) && SlotsAccounted(s)
    requires forall id :: id in s.requests && HoldsSlot(s.requests[id].phase) ==> s.requests[id].scan != ""
    ensures var s' := Next(cfg, s, e);
            forall id :: id in s'.requests && HoldsSlot(s'.requests[id].phase) ==> s'.requests[id].scan != ""
  {
  }

  lemma StepKeepsRegistry(cfg: L.Settings, s: System, e: Event)
    requires RegistryInvariant(s) && SlotsAccounted(s) && Enabled(s, e)
    ensures RegistryInvariant(Next(cfg, s, e))
  {
    StepKeepsScansNamed(cfg, s, e);
    match e
    case Acquire(id, now, scan) =>
      if L.Decide(s.limiter, cfg, s.requests[id].client, now).Admitted? {
        GrantKeepsOwners(s.registry, s.requests, id, scan);
      } else {
        MoveKeepsOwners(s.registry, s.requests, id, Next(cfg, s, e).requests[id]);
      }
    case Clear(id) =>
      ReleaseKeepsOwners(s.registry, s.requests, s.requests[id].phase.existing);
      MoveKeepsOwners(R.AfterRelease(s.registry, s.requests[id].phase.existing), s.requests, id,
          Next(cfg, s, e).requests[id]);
    case Register(id) =>
      RegisterKeepsOwners(s, id);
    case Unregister(id) =>
      ReleaseKeepsOwners(s.registry, s.requests, s.requests[id].scan);
      MoveKeepsOwners(R.AfterRelease(s.registry, s.requests[id].scan), s.requests, id, Next(cfg, s, e).requests[id]);
    case _ =>
      MoveKeepsOwners(s.registry, s.requests, e.id, Next(cfg, s, e).requests[e.id]);
  }

  lemma {:induction false} RegistryAlwaysRight(cfg: L.Settings, events: seq<Event>)
    ensures RegistryInvariant(Run(cfg, events))
  {
    if events != [] {
      var s, e := Run(cfg, events[..|events| - 1]), events[|events| - 1];
      RegistryAlwaysRight(cfg, events[..|events| - 1]);
      SlotsAlwaysRight(cfg, events[..|events| - 1]);
      if Enabled(s, e) {
        StepKeepsRegistry(cfg, s, e);
      }
    }
  }

  /* What follows for whole runs. */

  ghost predicate AllEnded(s: System) {
    forall id :: id in s.requests ==> s.requests[id].phase.Ended?
  }

  /** Once every request has ended, by whichever path, both counters are back at
      zero, both registry maps are empty and every granted slot was returned
      exactly once. */
  lemma QuiescentSystemIsClean(cfg: L.Settings, events: seq<Event>)
    requires AllEnded(Run(cfg, events))
    ensures var s := Run(cfg, events);
            && s.limiter.global == 0
            && (forall client :: L.Active(s.limiter.perClient, client) == 0)
            && s.registry == R.EMPTY_REGISTRY
            && s.granted == s.returned
            && (forall id :: s.granted[id] <= 1)
  {
    var s := Run(cfg, events);
    SlotsAlwaysRight(cfg, events);
    RegistryAlwaysRight(cfg, events);
    assert Holders(s.requests) == {};
    assert forall client :: HoldersOf(s.requests, client) == {};
    assert forall id, scan, key :: !Owns(s.requests, id, scan, key);
    assert forall scan :: scan !in s.registry.scanKeys;
    assert s.registry.scanKeys == map[] && s.registry.byKey == map[];
    forall id ensures s.granted[id] == s.returned[id] <= 1 {
      if id in s.requests {
        assert Accounted(s.requests[id], s.granted[id], s.returned[id]);
      }
    }
  }

  /** The registered scans that belong to one client. */
  ghost function RegisteredFor(s: System, client: string): set<string> {
    set id | id in HoldersOf(s.requests, client) && s.requests[id].scan in s.registry.scanKeys :: s.requests[id].scan
  }

  lemma {:induction false} ImageNoLarger(ids: set<nat>, requests: map<nat, Request>)
    requires forall id :: id in ids ==> id in requests
    ensures |set id | id in ids :: requests[id].scan| <= |ids|
  {
    if ids != {} {
      var id :| id in ids;
      ImageNoLarger(ids - {id}, requests);
      assert (set q | q in ids :: requests[q].scan)
          == (set q | q in ids - {id} :: requests[q].scan) + {requests[id].scan};
    }
  }

  /** Looking up and registering are separate steps, yet a client never has
      more scans registered than it may run at once; every registered scan is
      some client's. */
  lemma RegisteredScansAreBounded(cfg: L.Settings, events: seq<Event>, client: string)
    ensures var s := Run(cfg, events);
            && |RegisteredFor(s, client)| <= NonNegative(cfg.maxPerClient)
            && (forall scan :: scan in s.registry.scanKeys ==> exists owner :: scan in RegisteredFor(s, owner))
  {
    var s := Run(cfg, events);
    SlotsAlwaysRight(cfg, events);
    RegistryAlwaysRight(cfg, events);
    var ids := HoldersOf(s.requests, client);
    var all := set id | id in ids :: s.requests[id].scan;
    ImageNoLarger(ids, s.requests);
    assert RegisteredFor(s, client) <= all;
    SubsetNoLarger(RegisteredFor(s, client), all);
    forall scan | scan in s.registry.scanKeys ensures exists owner :: scan in RegisteredFor(s, owner) {
      var id :| Owns(s.requests, id, scan, s.registry.scanKeys[scan]);
      assert id in HoldersOf(s.requests, s.requests[id].client);
      assert scan in RegisteredFor(s, s.requests[id].client);
    }
  }

  lemma {:induction false} SubsetNoLarger(a: set<string>, b: set<string>)
    requires a <= b
    ensures |a| <= |b|
  {
    if a != {} {
      var x :| x in a;
      SubsetNoLarger(a - {x}, b - {x});
    }
  }

  /** A look-up only ever finds a scan of the very client and target that asks:
      the answer 409 never reports a stranger's scan. */
  lemma LookUpFindsOwnScan(cfg: L.Settings, events: seq<Event>, client: string, target: string, scan: string,
                           authority: map<string, string>)
    requires var s := Run(cfg, events);
             && R.InflightScan(s.registry, client, target) == Some(scan)
             && (forall id :: id in s.requests ==> s.requests[id].target in authority)
             && target in authority
    requires forall t :: t in authority ==> R.NormalizedTarget(t, authority[t])
    ensures var s := Run(cfg, events);
            exists id :: && id in s.requests
                         && s.requests[id].scan == scan
                         && s.requests[id].client == client
                         && s.requests[id].target == target
                         && HoldsSlot(s.requests[id].phase)
  {
    var s := Run(cfg, events);
    RegistryAlwaysRight(cfg, events);
    var id :| Owns(s.requests, id, scan, s.registry.scanKeys[scan]);
    var r := s.requests[id];
    R.DedupKeyIsInjective(r.client, r.target, authority[r.target], client, target, authority[target]);
  }

  /* The rate of accepted requests. */

  lemma {:induction false} RunIsFaithful(cfg: L.Settings, events: seq<Event>, client: string) returns (at: real)
    requires cfg.window.length >= 0.0
    ensures var s := Run(cfg, events);
            && at <= s.clock
            && Faithful(L.Live(s.limiter.events, client), L.Live(s.accepted, client), at, cfg.window)
  {
    if events == [] {
      at := 0.0;
    } else {
      var s, e := Run(cfg, events[..|events| - 1]), events[|events| - 1];
      at := RunIsFaithful(cfg, events[..|events| - 1], client);
      if e.Acquire? && Enabled(s, e) && s.requests[e.id].client == client {
        CallIsFaithful(L.Live(s.limiter.events, client), L.Live(s.accepted, client), at, e.now, cfg.window);
        at := e.now;
      } else {
        StepKeepsOthersTimes(cfg, s, e, client);
      }
    }
  }

  lemma StepKeepsOthersTimes(cfg: L.Settings, s: System, e: Event, client: string)
    requires e.Acquire? && Enabled(s, e) ==> s.requests[e.id].client != client
    ensures var s' := Next(cfg, s, e);
            && s.clock <= s'.clock
            && L.Live(s'.limiter.events, client) == L.Live(s.limiter.events, client)
            && L.Live(s'.accepted, client) == L.Live(s.accepted, client)
  {
  }

  /** In every interleaving, no closed interval as long as the window holds
      more accepted scans of one client than the request limit. */
  lemma AcceptanceRateIsBounded(cfg: L.Settings, events: seq<Event>, client: string, lo: real)
    requires cfg.window.length >= 0.0
    ensures CountIn(L.Live(Run(cfg, events).accepted, client), lo, lo + cfg.window.length)
            <= NonNegative(cfg.window.limit)
  {
    var _ := RunIsFaithful(cfg, events, client);
    SpacedBoundsEveryInterval(L.Live(Run(cfg, events).accepted, client), cfg.window, lo);
  }

  /** A request is refused for its rate exactly when the limit of accepted
      scans already lies in the window that ends now. */
  lemma RateRefusalIsJustified(cfg: L.Settings, events: seq<Event>, client: string, now: real)
    requires cfg.window.length >= 0.0 && Run(cfg, events).clock <= now
    ensures var s := Run(cfg, events);
            L.Decide(s.limiter, cfg, client, now).RateExceeded?
            <==> CountIn(L.Live(s.accepted, client), now - cfg.window.length, now) >= cfg.window.limit
  {
    var s := Run(cfg, events);
    var at := RunIsFaithful(cfg, events, client);
    CallIsFaithful(L.Live(s.limiter.events, client), L.Live(s.accepted, client), at, now, cfg.window);
  }

  /* Two scans of one target. */

  /** Two requests of one client hold slots for the same target at once, which
      the registry exists to prevent. */
  ghost predicate Duplicated(s: System) {
    exists p, q ::
      && p in s.requests && q in s.requests && p != q
      && HoldsSlot(s.requests[p].phase) && HoldsSlot(s.requests[q].phase)
      && s.requests[p].client == s.requests[q].client
      && s.requests[p].target == s.requests[q].target
  }

  /** Whether the configured limits alone rule duplicates out. */
  predicate OneAtATime(cfg: L.Settings) {
    cfg.maxPerClient <= 1 || cfg.maxGlobal <= 1 || cfg.window.limit <= 0
  }

  lemma TwoMembers(ids: set<nat>, p: nat, q: nat)
    requires p in ids && q in ids && p != q
    ensures |ids| >= 2
  {
    assert {p, q} <= ids;
    assert ids == {p, q} + (ids - {p, q});
  }

  lemma {:induction false} NothingAdmittedWithoutRate(cfg: L.Settings, events: seq<Event>)
    requires cfg.window.limit <= 0
    ensures forall id :: id in Run(cfg, events).requests ==> !HoldsSlot(Run(cfg, events).requests[id].phase)
  {
    if events != [] {
      NothingAdmittedWithoutRate(cfg, events[..|events| - 1]);
    }
  }

  lemma OneAtATimeExcludesDuplicates(cfg: L.Settings, events: seq<Event>)
    requires OneAtATime(cfg)
    ensures !Duplicated(Run(cfg, events))
  {
    var s := Run(cfg, events);
    SlotsAlwaysRight(cfg, events);
    if Duplicated(s) {
      var p, q :| p in s.requests && q in s.requests && p != q
               && HoldsSlot(s.requests[p].phase) && HoldsSlot(s.requests[q].phase)
               && s.requests[p].client == s.requests[q].client;
      TwoMembers(Holders(s.requests), p, q);
      TwoMembers(HoldersOf(s.requests, s.requests[p].client), p, q);
      if cfg.window.limit <= 0 {
        NothingAdmittedWithoutRate(cfg, events);
      }
    }
  }

  /* The run that overlaps two scans: request 0 scans and its task has ended;
     requests 1 and 2 find the scan; its registration and slot go; both requests
     see it complete, both clear it, and both go on to scan. */

  ghost function Later(cfg: L.Settings): real {
    if cfg.window.length < 0.0 then 1.0 else cfg.window.length + 1.0
  }

  ghost predicate Stands(s: System, id: nat, phase: Phase, scan: string) {
    id in s.requests && s.requests[id] == Request("c", "t", phase, scan)
  }

  ghost predicate Counts(s: System, times: seq<real>, active: int, clock: real) {
    && L.Live(s.limiter.events, "c") == times
    && L.Active(s.limiter.perClient, "c") == active
    && s.limiter.global == active
    && s.clock == clock
  }

  ghost predicate OnlyScans(s: System, scans: set<string>) {
    forall q :: q in s.requests ==> s.requests[q].scan in scans
  }

  lemma RunThen(cfg: L.Settings, events: seq<Event>, e: Event) returns (events': seq<Event>)
    ensures Run(cfg, events') == Next(cfg, Run(cfg, events), e)
  {
    events' := events + [e];
    assert events'[..|events|] == events;
  }

  lemma FirstSlot(cfg: L.Settings) returns (events: seq<Event>)
    requires !OneAtATime(cfg)
    ensures var s := Run(cfg, events);
            && s.requests.Keys == {0} && Stands(s, 0, Registering, "x")
            && Counts(s, [0.0], 1, 0.0) && s.registry == R.EMPTY_REGISTRY
  {
    events := FirstArrival(cfg);
    assert Prune([], 0.0, cfg.window.length) + [0.0] == [0.0];
    events := RunThen(cfg, events, Acquire(0, 0.0, "x"));
  }

  lemma FirstArrival(cfg: L.Settings) returns (events: seq<Event>)
    ensures var s := Run(cfg, events);
            && s.requests == map[0 := Request("c", "t", Acquiring, "")]
            && s.limiter == L.EMPTY_LIMITER && s.registry == R.EMPTY_REGISTRY && s.clock <= 0.0
  {
    events := RunThen(cfg, [], Arrive(0, "c", "t"));
    events := RunThen(cfg, events, LookUp(0));
  }

  lemma FirstScanEnds(cfg: L.Settings, before: seq<Event>) returns (events: seq<Event>)
    requires Run(cfg, before).requests.Keys == {0} && Stands(Run(cfg, before), 0, Registering, "x")
    requires Counts(Run(cfg, before), [0.0], 1, 0.0)
    ensures var s := Run(cfg, events);
            && s.requests.Keys == {0} && Stands(s, 0, Unregistering(Finished), "x")
            && Counts(s, [0.0], 1, 0.0)
            && R.InflightScan(s.registry, "c", "t") == Some("x")
  {
    events := RunThen(cfg, before, Register(0));
    events := RunThen(cfg, events, Schedule(0, true));
    assert Stands(Run(cfg, events), 0, Scanning, "x");
    events := RunThen(cfg, events, TaskEnds(0));
  }

  lemma Finds(cfg: L.Settings, before: seq<Event>, id: nat) returns (events: seq<Event>)
    requires id !in Run(cfg, before).requests
    requires R.InflightScan(Run(cfg, before).registry, "c", "t") == Some("x")
    ensures var s, s' := Run(cfg, before), Run(cfg, events);
            && Stands(s', id, Checking("x"), "")
            && s' == s.(requests := s.requests[id := s'.requests[id]])
  {
    events := RunThen(cfg, before, Arrive(id, "c", "t"));
    events := RunThen(cfg, events, LookUp(id));
  }

  lemma FirstSlotReturned(cfg: L.Settings, before: seq<Event>) returns (events: seq<Event>)
    requires Stands(Run(cfg, before), 0, Unregistering(Finished), "x") && Counts(Run(cfg, before), [0.0], 1, 0.0)
    ensures var s, s' := Run(cfg, before), Run(cfg, events);
            && Counts(s', [0.0], 0, 0.0)
            && s'.requests == s.requests[0 := s.requests[0].(phase := Ended(Finished))]
  {
    events := RunThen(cfg, before, Unregister(0));
    events := RunThen(cfg, events, GiveBack(0));
  }

  lemma Clears(cfg: L.Settings, before: seq<Event>, id: nat) returns (events: seq<Event>)
    requires Stands(Run(cfg, before), id, Checking("x"), "")
    ensures var s, s' := Run(cfg, before), Run(cfg, events);
            && Stands(s', id, Acquiring, "")
            && s' == s.(requests := s.requests[id := s'.requests[id]], registry := s'.registry)
  {
    events := RunThen(cfg, before, Status(id, false));
    events := RunThen(cfg, events, Clear(id));
  }

  lemma TakesSlot(cfg: L.Settings, before: seq<Event>, id: nat, times: seq<real>, active: int, now: real, scan: string)
    returns (events: seq<Event>)
    requires var s := Run(cfg, before);
             && Stands(s, id, Acquiring, "") && Counts(s, times, active, s.clock) && s.clock <= now
             && Prune(times, now, cfg.window.length) == [] && FreshScan(s, scan)
    requires !OneAtATime(cfg) && active <= 1
    ensures var s, s' := Run(cfg, before), Run(cfg, events);
            && Stands(s', id, Registering, scan) && Counts(s', [now], active + 1, now)
            && s'.requests == s.requests[id := s'.requests[id]]
  {
    assert [] + [now] == [now];
    events := RunThen(cfg, before, Acquire(id, now, scan));
  }

  ghost predicate Overlap(cfg: L.Settings, events: seq<Event>) {
    Duplicated(Run(cfg, events))
  }

  ghost predicate BothAcquiring(s: System) {
    && Stands(s, 1, Acquiring, "") && Stands(s, 2, Acquiring, "")
    && Counts(s, [0.0], 0, 0.0) && OnlyScans(s, {"", "x"})
  }

  lemma BothFindAndClear(cfg: L.Settings) returns (events: seq<Event>)
    requires !OneAtATime(cfg)
    ensures BothAcquiring(Run(cfg, events))
  {
    events := FirstSlot(cfg);
    events := FirstScanEnds(cfg, events);
    events := Finds(cfg, events, 1);
    events := Finds(cfg, events, 2);
    events := FirstSlotReturned(cfg, events);
    assert OnlyScans(Run(cfg, events), {"", "x"});
    events := Clears(cfg, events, 1);
    events := Clears(cfg, events, 2);
  }

  lemma OverlapExists(cfg: L.Settings) returns (events: seq<Event>)
    requires !OneAtATime(cfg)
    ensures Overlap(cfg, events)
  {
    var soon, late := Later(cfg), 2.0 * Later(cfg);
    events := BothFindAndClear(cfg);
    events := TakesSlot(cfg, events, 1, [0.0], 0, soon, "y");
    assert OnlyScans(Run(cfg, events), {"", "x", "y"});
    events := TakesSlot(cfg, events, 2, [soon], 1, late, "z");
    assert Stands(Run(cfg, events), 1, Registering, "y");
  }

  /** Two scans of one target by one client can overlap in some run exactly
      when the limits let a client run two scans at once. The registry alone
      does not prevent it. */
  lemma OverlapImpossibleIffOneAtATime(cfg: L.Settings)
    ensures (forall events :: !Overlap(cfg, events)) <==> OneAtATime(cfg)
  {
    if OneAtATime(cfg) {
      forall events ensures !Overlap(cfg, events) {
        OneAtATimeExcludesDuplicates(cfg, events);
      }
    } else {
      var overlap := OverlapExists(cfg);
    }
  }
}
