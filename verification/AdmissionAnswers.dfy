/** Which answer a request gets: every ending, and every entry that leaves the
    registry, is traced back to the step of the run it is due to.
 */
module AdmissionAnswers {
  import opened Wrappers
  import opened Admission
  import L = RateLimiting
  import R = InflightScans

  /* What happened in a run. */

  /** The step at position `n` of the run was this one, and it was possible. */
  ghost predicate TookAt(cfg: L.Settings, events: seq<Event>, n: nat, e: Event) {
    n < |events| && events[n] == e && Enabled(Run(cfg, events[..n]), e)
  }

  ghost predicate Took(cfg: L.Settings, events: seq<Event>, e: Event) {
    exists n: nat :: TookAt(cfg, events, n, e)
  }

  ghost predicate FindsIn(s: System, id: nat, scan: Option<string>) {
    id in s.requests && R.InflightScan(s.registry, s.requests[id].client, s.requests[id].target) == scan
  }

  ghost predicate FoundAt(cfg: L.Settings, events: seq<Event>, n: nat, id: nat, scan: Option<string>) {
    TookAt(cfg, events, n, LookUp(id)) && FindsIn(Run(cfg, events[..n]), id, scan)
  }

  /** The request looked its client and target up, and this is what it found. */
  ghost predicate Found(cfg: L.Settings, events: seq<Event>, id: nat, scan: Option<string>) {
    exists n: nat :: FoundAt(cfg, events, n, id, scan)
  }

  ghost predicate JudgesIn(cfg: L.Settings, s: System, id: nat, now: real, verdict: L.Verdict) {
    id in s.requests && L.Decide(s.limiter, cfg, s.requests[id].client, now) == verdict
  }

  ghost predicate JudgedAt(cfg: L.Settings, events: seq<Event>, n: nat, id: nat, verdict: L.Verdict) {
    && n < |events| && events[n].Acquire? && events[n].id == id
    && TookAt(cfg, events, n, events[n]) && JudgesIn(cfg, Run(cfg, events[..n]), id, events[n].now, verdict)
  }

  /** The request asked for a slot, and this was the limiter's verdict. */
  ghost predicate Judged(cfg: L.Settings, events: seq<Event>, id: nat, verdict: L.Verdict) {
    exists n: nat :: JudgedAt(cfg, events, n, id, verdict)
  }

  /* A longer run has happened as before, and one step more. */

  lemma OneMore(cfg: L.Settings, before: seq<Event>, e: Event)
    ensures Run(cfg, before + [e]) == Next(cfg, Run(cfg, before), e)
    ensures Enabled(Run(cfg, before), e) ==> TookAt(cfg, before + [e], |before|, e)
  {
    assert (before + [e])[..|before|] == before;
  }

  lemma TookStays(cfg: L.Settings, before: seq<Event>, more: seq<Event>, e: Event)
    requires before <= more && Took(cfg, before, e)
    ensures Took(cfg, more, e)
  {
    var n: nat :| TookAt(cfg, before, n, e);
    assert more[..n] == before[..n];
    assert TookAt(cfg, more, n, e);
  }

  lemma FoundStays(cfg: L.Settings, before: seq<Event>, more: seq<Event>, id: nat, scan: Option<string>)
    requires before <= more && Found(cfg, before, id, scan)
    ensures Found(cfg, more, id, scan)
  {
    var n: nat :| FoundAt(cfg, before, n, id, scan);
    assert more[..n] == before[..n];
    assert FoundAt(cfg, more, n, id, scan);
  }

  lemma JudgedStays(cfg: L.Settings, before: seq<Event>, more: seq<Event>, id: nat, verdict: L.Verdict)
    requires before <= more && Judged(cfg, before, id, verdict)
    ensures Judged(cfg, more, id, verdict)
  {
    var n: nat :| JudgedAt(cfg, before, n, id, verdict);
    assert more[..n] == before[..n];
    assert JudgedAt(cfg, more, n, id, verdict);
  }

  /* Why a request stands where it stands. */

  ghost predicate Earned(cfg: L.Settings, events: seq<Event>, id: nat, ending: Ending) {
    match ending
    case Conflict => Took(cfg, events, Status(id, true))
    case Refused(verdict) => verdict != L.Admitted && Judged(cfg, events, id, verdict)
    case Failed => Took(cfg, events, Schedule(id, false))
    case Finished => Took(cfg, events, TaskEnds(id))
  }

  /** A request waits for a slot only if it found no scan, or was told that the
      one it found is over and cleared it. */
  ghost predicate WayIsClear(cfg: L.Settings, events: seq<Event>, id: nat) {
    || Found(cfg, events, id, None)
    || (Took(cfg, events, Status(id, false)) && Took(cfg, events, Clear(id)))
  }

  ghost predicate Explained(cfg: L.Settings, events: seq<Event>, id: nat, r: Request) {
    match r.phase
    case LookingUp => Took(cfg, events, Arrive(id, r.client, r.target))
    case Checking(existing) => Found(cfg, events, id, Some(existing))
    case Clearing(existing) => Found(cfg, events, id, Some(existing)) && Took(cfg, events, Status(id, false))
    case Acquiring => WayIsClear(cfg, events, id)
    case Registering => Judged(cfg, events, id, L.Admitted)
    case Scheduling => Took(cfg, events, Register(id))
    case Scanning => Took(cfg, events, Schedule(id, true))
    case Unregistering(ending) => Earned(cfg, events, id, ending) && (ending == Failed || ending == Finished)
    case Returning(ending) => Earned(cfg, events, id, ending) && (ending == Failed || ending == Finished)
    case Ended(ending) => Earned(cfg, events, id, ending)
  }

  lemma EarnedStays(cfg: L.Settings, before: seq<Event>, more: seq<Event>, id: nat, ending: Ending)
    requires before <= more && Earned(cfg, before, id, ending)
    ensures Earned(cfg, more, id, ending)
  {
    match ending
    case Conflict => TookStays(cfg, before, more, Status(id, true));
    case Refused(verdict) => JudgedStays(cfg, before, more, id, verdict);
    case Failed => TookStays(cfg, before, more, Schedule(id, false));
    case Finished => TookStays(cfg, before, more, TaskEnds(id));
  }

  lemma WayStaysClear(cfg: L.Settings, before: seq<Event>, more: seq<Event>, id: nat)
    requires before <= more && WayIsClear(cfg, before, id)
    ensures WayIsClear(cfg, more, id)
  {
    if Found(cfg, before, id, None) {
      FoundStays(cfg, before, more, id, None);
    } else {
      TookStays(cfg, before, more, Status(id, false));
      TookStays(cfg, before, more, Clear(id));
    }
  }

  lemma ExplainedStays(cfg: L.Settings, before: seq<Event>, more: seq<Event>, id: nat, r: Request)
    requires before <= more && Explained(cfg, before, id, r)
    ensures Explained(cfg, more, id, r)
  {
    match r.phase
    case LookingUp => TookStays(cfg, before, more, Arrive(id, r.client, r.target));
    case Checking(existing) => FoundStays(cfg, before, more, id, Some(existing));
    case Clearing(existing) =>
      FoundStays(cfg, before, more, id, Some(existing));
      TookStays(cfg, before, more, Status(id, false));
    case Acquiring => WayStaysClear(cfg, before, more, id);
    case Registering => JudgedStays(cfg, before, more, id, L.Admitted);
    case Scheduling => TookStays(cfg, before, more, Register(id));
    case Scanning => TookStays(cfg, before, more, Schedule(id, true));
    case Unregistering(ending) => EarnedStays(cfg, before, more, id, ending);
    case Returning(ending) => EarnedStays(cfg, before, more, id, ending);
    case Ended(ending) => EarnedStays(cfg, before, more, id, ending);
  }

  lemma LookUpExplains(cfg: L.Settings, before: seq<Event>, id: nat)
    requires Enabled(Run(cfg, before), LookUp(id))
    ensures var s, events := Run(cfg, before), before + [LookUp(id)];
            Explained(cfg, events, id, Next(cfg, s, LookUp(id)).requests[id])
  {
    var s, events := Run(cfg, before), before + [LookUp(id)];
    var found := R.InflightScan(s.registry, s.requests[id].client, s.requests[id].target);
    OneMore(cfg, before, LookUp(id));
    assert events[..|before|] == before;
    assert FoundAt(cfg, events, |before|, id, found);
  }

  lemma AcquireExplains(cfg: L.Settings, before: seq<Event>, e: Event)
    requires e.Acquire? && Enabled(Run(cfg, before), e)
    ensures Explained(cfg, before + [e], e.id, Next(cfg, Run(cfg, before), e).requests[e.id])
  {
    var s, events := Run(cfg, before), before + [e];
    OneMore(cfg, before, e);
    assert events[..|before|] == before;
    assert JudgedAt(cfg, events, |before|, e.id, L.Decide(s.limiter, cfg, s.requests[e.id].client, e.now));
  }

  lemma StepExplains(cfg: L.Settings, before: seq<Event>, e: Event)
    requires Enabled(Run(cfg, before), e) && !e.LookUp? && !e.Acquire?
    requires !e.Arrive? ==> Explained(cfg, before, e.id, Run(cfg, before).requests[e.id])
    ensures Explained(cfg, before + [e], e.id, Next(cfg, Run(cfg, before), e).requests[e.id])
  {
    var s, events := Run(cfg, before), before + [e];
    OneMore(cfg, before, e);
    assert Took(cfg, events, e);
    if !e.Arrive? {
      ExplainedStays(cfg, before, events, e.id, s.requests[e.id]);
    }
  }

  lemma {:induction false} EveryPhaseIsExplained(cfg: L.Settings, events: seq<Event>, id: nat)
    requires id in Run(cfg, events).requests
    ensures Explained(cfg, events, id, Run(cfg, events).requests[id])
  {
    var before, e := events[..|events| - 1], events[|events| - 1];
    var s := Run(cfg, before);
    assert events == before + [e];
    if id in s.requests {
      EveryPhaseIsExplained(cfg, before, id);
    }
    if Enabled(s, e) && e.id == id {
      match e
      case LookUp(_) => LookUpExplains(cfg, before, id);
      case Acquire(_, _, _) => AcquireExplains(cfg, before, e);
      case _ => StepExplains(cfg, before, e);
    } else {
      OthersStay(cfg, s, e, id);
      ExplainedStays(cfg, before, events, id, s.requests[id]);
    }
  }

  lemma OthersStay(cfg: L.Settings, s: System, e: Event, id: nat)
    requires !(Enabled(s, e) && e.id == id)
    ensures id in Next(cfg, s, e).requests <==> id in s.requests
    ensures id in s.requests ==> Next(cfg, s, e).requests[id] == s.requests[id]
  {
  }

  /* Each answer is given exactly when it is due. */

  ghost predicate EndsWith(s: System, id: nat, ending: Ending) {
    && id in s.requests
    && var phase := s.requests[id].phase;
       phase == Unregistering(ending) || phase == Returning(ending) || phase == Ended(ending)
  }

  lemma EndingStays(cfg: L.Settings, s: System, e: Event, id: nat, ending: Ending)
    requires EndsWith(s, id, ending)
    ensures EndsWith(Next(cfg, s, e), id, ending)
  {
  }

  lemma {:induction false} EndingPersists(cfg: L.Settings, events: seq<Event>, n: nat, id: nat, ending: Ending)
    requires n <= |events| && EndsWith(Run(cfg, events[..n]), id, ending)
    ensures EndsWith(Run(cfg, events), id, ending)
  {
    if n == |events| {
      assert events[..n] == events;
    } else {
      var before := events[..|events| - 1];
      assert before[..n] == events[..n];
      EndingPersists(cfg, before, n, id, ending);
      EndingStays(cfg, Run(cfg, before), events[|events| - 1], id, ending);
    }
  }

  /** The ending a step decides on, if it does. */
  ghost function EndingDue(cfg: L.Settings, s: System, e: Event): Option<Ending>
    requires Enabled(s, e)
  {
    match e
    case Status(_, true) => Some(Conflict)
    case Acquire(id, now, _) =>
      var verdict := L.Decide(s.limiter, cfg, s.requests[id].client, now);
      if verdict == L.Admitted then None else Some(Refused(verdict))
    case Schedule(_, false) => Some(Failed)
    case TaskEnds(_) => Some(Finished)
    case _ => None
  }

  lemma StepDecides(cfg: L.Settings, s: System, e: Event)
    requires Enabled(s, e) && EndingDue(cfg, s, e).Some?
    ensures EndsWith(Next(cfg, s, e), e.id, EndingDue(cfg, s, e).value)
  {
  }

  lemma TookDecides(cfg: L.Settings, events: seq<Event>, n: nat)
    requires n < |events| && TookAt(cfg, events, n, events[n])
    requires EndingDue(cfg, Run(cfg, events[..n]), events[n]).Some?
    ensures EndsWith(Run(cfg, events), events[n].id, EndingDue(cfg, Run(cfg, events[..n]), events[n]).value)
  {
    var s, e := Run(cfg, events[..n]), events[n];
    assert events[..n + 1] == events[..n] + [e];
    OneMore(cfg, events[..n], e);
    StepDecides(cfg, s, e);
    EndingPersists(cfg, events, n + 1, e.id, EndingDue(cfg, s, e).value);
  }

  lemma EarnedEnds(cfg: L.Settings, events: seq<Event>, id: nat, ending: Ending)
    requires Earned(cfg, events, id, ending)
    ensures EndsWith(Run(cfg, events), id, ending)
  {
    match ending
    case Conflict =>
      var n: nat :| TookAt(cfg, events, n, Status(id, true));
      TookDecides(cfg, events, n);
    case Refused(verdict) =>
      var n: nat :| JudgedAt(cfg, events, n, id, verdict);
      TookDecides(cfg, events, n);
    case Failed =>
      var n: nat :| TookAt(cfg, events, n, Schedule(id, false));
      TookDecides(cfg, events, n);
    case Finished =>
      var n: nat :| TookAt(cfg, events, n, TaskEnds(id));
      TookDecides(cfg, events, n);
  }

  /** Over every run: a request ends in a conflict exactly if it was told that the
      scan it found is in progress, is refused exactly with the limiter's verdict
      on it, fails exactly if scheduling did, and finishes exactly if its task
      did. */
  lemma AnsweredIffEarned(cfg: L.Settings, events: seq<Event>, id: nat, ending: Ending)
    ensures EndsWith(Run(cfg, events), id, ending) <==> Earned(cfg, events, id, ending)
  {
    if EndsWith(Run(cfg, events), id, ending) {
      EveryPhaseIsExplained(cfg, events, id);
    }
    if Earned(cfg, events, id, ending) {
      EarnedEnds(cfg, events, id, ending);
    }
  }

  ghost predicate TurnedAway(r: Request) {
    r.phase == Ended(Conflict) || (r.phase.Ended? && r.phase.ending.Refused?)
  }

  lemma {:induction false} TurnedAwayHasNoScan(cfg: L.Settings, events: seq<Event>, id: nat)
    requires id in Run(cfg, events).requests && TurnedAway(Run(cfg, events).requests[id])
    ensures Run(cfg, events).requests[id].scan == ""
  {
    var before, e := events[..|events| - 1], events[|events| - 1];
    var s := Run(cfg, before);
    assert events == before + [e];
    if Enabled(s, e) && e.id == id {
      EveryPhaseIsExplained(cfg, before, id);
      SlotsAlwaysRight(cfg, before);
      assert Accounted(s.requests[id], s.granted[id], s.returned[id]);
    } else {
      OthersStay(cfg, s, e, id);
      TurnedAwayHasNoScan(cfg, before, id);
    }
  }

  /** Told that the scan it found is in progress, a request gets the conflict at
      once, whatever happens next, and is never granted a slot; the same with a
      refusal. */
  lemma TurnedAwayTakesNoSlot(cfg: L.Settings, events: seq<Event>, id: nat, ending: Ending)
    requires ending == Conflict || ending.Refused?
    requires Earned(cfg, events, id, ending)
    ensures IsAt(Run(cfg, events), id, Ended(ending)) && Run(cfg, events).granted[id] == 0
  {
    var s := Run(cfg, events);
    EarnedEnds(cfg, events, id, ending);
    EveryPhaseIsExplained(cfg, events, id);
    TurnedAwayHasNoScan(cfg, events, id);
    SlotsAlwaysRight(cfg, events);
    assert Accounted(s.requests[id], s.granted[id], s.returned[id]);
  }

  lemma GrantIsAdmission(cfg: L.Settings, before: seq<Event>, e: Event, id: nat)
    requires Run(cfg, before + [e]).granted[id] > Run(cfg, before).granted[id]
    ensures Judged(cfg, before + [e], id, L.Admitted)
  {
    var s, events := Run(cfg, before), before + [e];
    OneMore(cfg, before, e);
    assert events[..|before|] == before;
    assert Enabled(s, e) && e.Acquire? && e.id == id;
    assert JudgedAt(cfg, events, |before|, id, L.Admitted);
  }

  lemma {:induction false} GrantedOnlyIfAdmitted(cfg: L.Settings, events: seq<Event>, id: nat)
    requires Run(cfg, events).granted[id] > 0
    ensures Judged(cfg, events, id, L.Admitted)
  {
    var before, e := events[..|events| - 1], events[|events| - 1];
    assert events == before + [e];
    if Run(cfg, before).granted[id] > 0 {
      GrantedOnlyIfAdmitted(cfg, before, id);
      JudgedStays(cfg, before, events, id, L.Admitted);
    } else {
      GrantIsAdmission(cfg, before, e, id);
    }
  }

  /** A request is granted a slot only if the limiter admitted it, and waits for one
      only if it found no scan or cleared one it was told is over. */
  lemma SlotOnlyIfAdmitted(cfg: L.Settings, events: seq<Event>, id: nat)
    ensures Run(cfg, events).granted[id] > 0 ==> Judged(cfg, events, id, L.Admitted)
    ensures IsAt(Run(cfg, events), id, Acquiring) ==> WayIsClear(cfg, events, id)
  {
    if Run(cfg, events).granted[id] > 0 {
      GrantedOnlyIfAdmitted(cfg, events, id);
    }
    if id in Run(cfg, events).requests {
      EveryPhaseIsExplained(cfg, events, id);
    }
  }

  /* Entries of the registry. */

  ghost predicate Leads(s: System, client: string, target: string, scan: string) {
    R.InflightScan(s.registry, client, target) == Some(scan)
  }

  /** The step takes the scan's entry away: its own release, a newer scan of the
      key, or a request that found it and was told it is over. */
  ghost predicate TakesAway(s: System, e: Event, client: string, target: string, scan: string) {
    && Enabled(s, e) && e.id in s.requests
    && var r := s.requests[e.id];
       match e
       case Unregister(_) => r.scan == scan
       case Register(_) => R.DedupKey(r.client, r.target) == R.DedupKey(client, target)
       case Clear(_) => r.phase == Clearing(scan)
       case _ => false
  }

  lemma NewScanDiffers(s: System, id: nat, client: string, target: string, scan: string)
    requires RegistryInvariant(s) && IsAt(s, id, Registering) && Leads(s, client, target, scan)
    ensures s.requests[id].scan != scan
  {
    var owner :| Owns(s.requests, owner, scan, s.registry.scanKeys[scan]);
  }

  lemma ReleaseTakes(registry: R.Registry, scan: string, other: string, client: string, target: string)
    requires R.Coherent(registry) && R.InflightScan(registry, client, target) == Some(scan)
    ensures R.InflightScan(R.AfterRelease(registry, other), client, target)
            == if other == scan then None else Some(scan)
  {
    R.ReleaseKeepsCoherent(registry, other);
  }

  /** In every run an entry leaves the registry by those steps exactly, and whoever
      clears it had found it and was told that it is over. */
  lemma EntryLeavesIff(cfg: L.Settings, events: seq<Event>, e: Event, client: string, target: string, scan: string)
    requires Leads(Run(cfg, events), client, target, scan)
    ensures !Leads(Run(cfg, events + [e]), client, target, scan)
            <==> TakesAway(Run(cfg, events), e, client, target, scan)
    ensures e.Clear? && TakesAway(Run(cfg, events), e, client, target, scan) ==>
              Found(cfg, events, e.id, Some(scan)) && Took(cfg, events, Status(e.id, false))
  {
    var s := Run(cfg, events);
    OneMore(cfg, events, e);
    RegistryAlwaysRight(cfg, events);
    if Enabled(s, e) {
      StepTakesIff(cfg, s, e, client, target, scan);
      if e.Clear? {
        EveryPhaseIsExplained(cfg, events, e.id);
      }
    }
  }

  lemma StepTakesIff(cfg: L.Settings, s: System, e: Event, client: string, target: string, scan: string)
    requires RegistryInvariant(s) && Enabled(s, e) && Leads(s, client, target, scan)
    ensures !Leads(Next(cfg, s, e), client, target, scan) <==> TakesAway(s, e, client, target, scan)
  {
    match e
    case Unregister(id) => ReleaseTakes(s.registry, scan, s.requests[id].scan, client, target);
    case Clear(id) => ReleaseTakes(s.registry, scan, s.requests[id].phase.existing, client, target);
    case Register(id) => NewScanDiffers(s, id, client, target, scan);
    case _ =>
  }

  /** And it comes by its own registration only. */
  lemma EntryComesByRegister(cfg: L.Settings, events: seq<Event>, e: Event, client: string, target: string,
                             scan: string)
    requires !Leads(Run(cfg, events), client, target, scan) && Leads(Run(cfg, events + [e]), client, target, scan)
    ensures var s := Run(cfg, events);
            && e.Register? && Enabled(s, e) && s.requests[e.id].scan == scan
            && R.DedupKey(s.requests[e.id].client, s.requests[e.id].target) == R.DedupKey(client, target)
  {
    OneMore(cfg, events, e);
  }

  /* Verdicts. */

  /** A request is refused for a concurrency limit exactly when it is within its
      rate and that many requests hold a slot: its client's, or all together. */
  lemma ConcurrencyRefusalIsJustified(cfg: L.Settings, events: seq<Event>, client: string, now: real)
    ensures var s := Run(cfg, events);
            var verdict := L.Decide(s.limiter, cfg, client, now);
            var busy, full := |HoldersOf(s.requests, client)| >= cfg.maxPerClient,
                              |Holders(s.requests)| >= cfg.maxGlobal;
            && (verdict == L.ClientBusy <==> verdict != L.RateExceeded && busy)
            && (verdict == L.GloballyBusy <==> verdict != L.RateExceeded && !busy && full)
            && (verdict == L.Admitted <==> verdict != L.RateExceeded && !busy && !full)
  {
    SlotsAlwaysRight(cfg, events);
  }
}
