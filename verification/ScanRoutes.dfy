/** Which way a scan takes through its graph, which tools have run at its end, and
    what its outcome is drawn from.
 */
module ScanRoutes {
  import opened Wrappers
  import opened Approval
  import opened ScanGraph

  /** The gate is entered twice: it pauses, and it resumes. */
  const FULL_ROUTE := [CheckScope, Recon, PassiveDetection, PlanActiveTests, ApprovalGate, ApprovalGate,
                       ActiveDetection, Verification, Scoring, AiSynthesis, Reporting]

  const FIRECRAWL_ROUTE := [CheckScope, Recon, PassiveDetection, PlanActiveTests,
                            ActiveDetection, Verification, Scoring, AiSynthesis, Reporting]

  const REFUSED_ROUTE := [CheckScope, Reporting]

  function Route(profile: Profile): seq<Node> {
    if profile.FullProfile? then FULL_ROUTE else FIRECRAWL_ROUTE
  }

  /** How many nodes of its way a scan has entered when it works on one. */
  function Place(profile: Profile, node: Node, decided: bool): nat {
    match node
    case CheckScope => 1
    case Recon => 2
    case PassiveDetection => 3
    case PlanActiveTests => 4
    case ApprovalGate => if decided then 6 else 5
    case ActiveDetection => if profile.FullProfile? then 7 else 5
    case Verification => if profile.FullProfile? then 8 else 6
    case Scoring => if profile.FullProfile? then 9 else 7
    case AiSynthesis => if profile.FullProfile? then 10 else 8
    case Reporting => if profile.FullProfile? then 11 else 9
  }

  /** The scan has come `n` nodes along its profile's way. */
  ghost predicate Along(profile: Profile, s: System, n: nat) {
    0 < n <= |Route(profile)| && s.visited == Route(profile)[..n]
  }

  /** Nothing has failed, and what was visited is the way up to here. */
  ghost predicate OnRoute(profile: Profile, s: System) {
    match s.position
    case At(node) =>
      && Along(profile, s, Place(profile, node, s.decision.Some?))
      && (node == ApprovalGate ==> profile.FullProfile?)
      && (BeforePlan(s.position) ==> s.decision.None?)
      && (profile.FullProfile? ==> s.decision.Some? || BeforePlan(s.position) || node == ApprovalGate)
    case Paused => profile.FullProfile? && s.decision.None? && Along(profile, s, 5)
    case Done(_) => Along(profile, s, |Route(profile)|) && (profile.FullProfile? ==> s.decision.Some?)
  }

  /** Failed, on its way to the report or there, having taken a part of its way or
      been sent straight to the report. */
  ghost predicate OffRoute(profile: Profile, s: System) {
    && s.failed && (s.position == At(Reporting) || s.position.Done?)
    && (s.visited == REFUSED_ROUTE || s.visited <= Route(profile))
  }

  ghost predicate Routed(profile: Profile, s: System) {
    if s.failed then OffRoute(profile, s) else OnRoute(profile, s)
  }

  lemma OneNodeFurther(profile: Profile, s: System, n: nat, s': System, node: Node)
    requires Along(profile, s, n) && n < |Route(profile)| && Route(profile)[n] == node
    requires s'.visited == s.visited + [node]
    ensures Along(profile, s', n + 1)
  {
    assert Route(profile)[..n] + [Route(profile)[n]] == Route(profile)[..n + 1];
  }

  lemma NextOnRoute(profile: Profile)
    ensures var r := Route(profile);
            && |r| == Place(profile, Reporting, false)
            && r[0] == CheckScope && r[1] == Recon && r[2] == PassiveDetection && r[3] == PlanActiveTests
            && (profile.FullProfile? ==> r[4] == ApprovalGate && r[5] == ApprovalGate)
            && var m := Place(profile, ActiveDetection, false);
               && r[m - 1] == ActiveDetection && r[m] == Verification && r[m + 1] == Scoring
               && r[m + 2] == AiSynthesis && r[m + 3] == Reporting
  {
  }

  lemma EarlyStepKeepsRoute(profile: Profile, s: System, e: Event)
    requires !s.failed && OnRoute(profile, s) && e.Step? && BeforePlan(s.position)
    ensures Routed(profile, Next(profile, s, e))
  {
    var s' := Next(profile, s, e);
    NextOnRoute(profile);
    var n := Place(profile, s.position.node, s.decision.Some?);
    if s.position.node == CheckScope && !e.inScope {
      assert s.visited == [CheckScope];
    } else {
      OneNodeFurther(profile, s, n, s', s'.position.node);
    }
  }

  lemma GateStepKeepsRoute(profile: Profile, s: System, e: Event)
    requires !s.failed && OnRoute(profile, s) && AtGate(s.position) && Enabled(s, e) && !e.Abort?
    ensures Routed(profile, Next(profile, s, e))
  {
    var s' := Next(profile, s, e);
    NextOnRoute(profile);
    if s'.position.At? {
      OneNodeFurther(profile, s, if s.position.Paused? then 5 else 6, s', s'.position.node);
    }
  }

  lemma LateStepKeepsRoute(profile: Profile, s: System, e: Event)
    requires !s.failed && OnRoute(profile, s) && e.Step? && s.position.At?
    requires !BeforePlan(s.position) && !AtGate(s.position)
    ensures Routed(profile, Next(profile, s, e))
  {
    var s' := Next(profile, s, e);
    NextOnRoute(profile);
    if s'.position.At? {
      OneNodeFurther(profile, s, Place(profile, s.position.node, s.decision.Some?), s', s'.position.node);
    }
  }

  lemma StepKeepsRoute(profile: Profile, s: System, e: Event)
    requires Routed(profile, s)
    ensures Routed(profile, Next(profile, s, e))
  {
    if s.failed || e.Abort? {
      FailureKeepsRoute(profile, s, e);
    } else if !Enabled(s, e) {
      assert Next(profile, s, e) == s;
    } else if AtGate(s.position) {
      GateStepKeepsRoute(profile, s, e);
    } else if BeforePlan(s.position) {
      EarlyStepKeepsRoute(profile, s, e);
    } else {
      LateStepKeepsRoute(profile, s, e);
    }
  }

  lemma FailureKeepsRoute(profile: Profile, s: System, e: Event)
    requires Routed(profile, s) && (s.failed || e.Abort?)
    ensures Routed(profile, Next(profile, s, e))
  {
  }

  lemma {:induction false} RouteAlwaysHolds(profile: Profile, events: seq<Event>)
    ensures Routed(profile, Run(profile, events))
  {
    if events == [] {
      NextOnRoute(profile);
      assert Route(profile)[..1] == [CheckScope];
    } else {
      RouteAlwaysHolds(profile, events[..|events| - 1]);
      StepKeepsRoute(profile, Run(profile, events[..|events| - 1]), events[|events| - 1]);
    }
  }

  /** A finished scan that nothing failed has entered exactly the nodes of its
      profile, in order, the gate twice in the full one. Any other has entered the
      first of them up to where it stands, or only the check and the report. */
  lemma FinishedScanTookItsRoute(profile: Profile, events: seq<Event>)
    ensures var s := Run(profile, events);
            && (s.position.Done? && !s.failed ==> s.visited == Route(profile))
            && (s.visited <= Route(profile) || s.visited == REFUSED_ROUTE)
            && (!s.failed && s.position.At? ==> s.visited != [] && s.visited[|s.visited| - 1] == s.position.node)
  {
    RouteAlwaysHolds(profile, events);
    LastVisited(profile, Run(profile, events));
  }

  lemma LastVisited(profile: Profile, s: System)
    requires !s.failed && s.position.At? ==> OnRoute(profile, s)
    ensures !s.failed && s.position.At? ==> s.visited != [] && s.visited[|s.visited| - 1] == s.position.node
  {
    NextOnRoute(profile);
  }

  /* Findings and tools. */

  /** The number of findings the node's step left, if it was completed. */
  function FoundBy(profile: Profile, events: seq<Event>, node: Node): Option<nat> {
    if events == [] then None
    else
      var before, e := events[..|events| - 1], events[|events| - 1];
      if e.Step? && Run(profile, before).position == At(node) then Some(e.found) else FoundBy(profile, before, node)
  }

  /** The tools that turned out usable in the active stage, if it was worked on. */
  function UsableInActiveStage(profile: Profile, events: seq<Event>): Option<set<string>> {
    if events == [] then None
    else
      var before, e := events[..|events| - 1], events[|events| - 1];
      if !e.Resume? && Run(profile, before).position == At(ActiveDetection) then Some(e.usable)
      else UsableInActiveStage(profile, before)
  }

  predicate BeforeActive(p: Position) {
    BeforePlan(p) || AtGate(p) || p == At(ActiveDetection)
  }

  /** The approved tools are tools of the plan, which the active stage knows. */
  lemma ApprovedAreStartable(profile: Profile, s: System)
    requires Approving(profile, s)
    ensures Startable(s.state) == Members(s.state.approvedTools)
  {
    var planned, approved := s.state.planned, s.state.approvedTools;
    var plan := if planned == [] then DEFAULT_ACTIVE_TOOLS else planned;
    AmongMembers(plan, Members(approved));
    if approved != [] {
      ResolvedArePlanned(planned, s.decision.value);
    }
  }

  /** What the stages left behind, as a function of the steps taken. */
  ghost predicate Drawn(s: System, passive: Option<nat>, active: Option<nat>, usable: Option<set<string>>) {
    && (BeforeActive(s.position) ==> active.None? && usable.None?)
    && (BeforePlan(s.position) && s.position != At(PlanActiveTests) ==> passive.None?)
    && s.state.findings == (if active.Some? && s.state.approvedTools != [] then active.value
                            else if passive.Some? then passive.value else 0)
    && s.ran == (if usable.Some? then usable.value * Members(s.state.approvedTools) else {})
    && (!s.failed && (!BeforePlan(s.position) || s.position == At(PlanActiveTests)) ==> passive.Some?)
    && (!s.failed && !BeforeActive(s.position) ==> active.Some? && usable.Some?)
  }

  ghost predicate DrawnAfter(profile: Profile, events: seq<Event>) {
    Drawn(Run(profile, events), FoundBy(profile, events, PassiveDetection), FoundBy(profile, events, ActiveDetection),
          UsableInActiveStage(profile, events))
  }

  lemma EarlyStepKeepsDrawn(profile: Profile, s: System, e: Event, passive: Option<nat>, passive': Option<nat>)
    requires Approving(profile, s) && Drawn(s, passive, None, None)
    requires e.Step? && (BeforePlan(s.position) || AtGate(s.position))
    requires passive' == if s.position == At(PassiveDetection) then Some(e.found) else passive
    ensures Drawn(Next(profile, s, e), passive', None, None)
  {
  }

  lemma ActiveStepKeepsDrawn(profile: Profile, s: System, e: Event, passive: Option<nat>)
    requires Approving(profile, s) && Drawn(s, passive, None, None) && s.position == At(ActiveDetection)
    ensures e.Step? ==> Drawn(Next(profile, s, e), passive, Some(e.found), Some(e.usable))
    ensures e.Abort? ==> Drawn(Next(profile, s, e), passive, None, Some(e.usable))
  {
    ApprovedAreStartable(profile, s);
  }

  lemma QuietStep(profile: Profile, s: System, e: Event)
    requires !e.Step? || !(BeforePlan(s.position) || AtGate(s.position))
    requires s.position != At(ActiveDetection) || e.Resume?
    ensures var s' := Next(profile, s, e);
            && s'.state.findings == s.state.findings && s'.ran == s.ran
            && s'.state.approvedTools == s.state.approvedTools && (s.failed ==> s'.failed)
            && (s'.failed || (BeforeActive(s'.position) <==> BeforeActive(s.position)))
            && (s'.failed || (BeforePlan(s'.position) <==> BeforePlan(s.position)))
            && (BeforeActive(s'.position) ==> BeforeActive(s.position))
            && (BeforePlan(s'.position) ==> s'.position == s.position)
  {
  }

  lemma QuietStepKeepsDrawn(profile: Profile, s: System, e: Event, passive: Option<nat>, active: Option<nat>,
                            usable: Option<set<string>>)
    requires Drawn(s, passive, active, usable)
    requires !e.Step? || !(BeforePlan(s.position) || AtGate(s.position))
    requires s.position != At(ActiveDetection) || e.Resume?
    ensures Drawn(Next(profile, s, e), passive, active, usable)
  {
    QuietStep(profile, s, e);
  }

  lemma StepKeepsDrawn(profile: Profile, s: System, e: Event, passive: Option<nat>, active: Option<nat>,
                       usable: Option<set<string>>)
    requires Approving(profile, s) && Drawn(s, passive, active, usable)
    ensures Drawn(Next(profile, s, e),
                  if e.Step? && s.position == At(PassiveDetection) then Some(e.found) else passive,
                  if e.Step? && s.position == At(ActiveDetection) then Some(e.found) else active,
                  if !e.Resume? && s.position == At(ActiveDetection) then Some(e.usable) else usable)
  {
    if s.position == At(ActiveDetection) && !e.Resume? {
      ActiveStepKeepsDrawn(profile, s, e, passive);
    } else if e.Step? && (BeforePlan(s.position) || AtGate(s.position)) {
      EarlyStepKeepsDrawn(profile, s, e, passive,
          if s.position == At(PassiveDetection) then Some(e.found) else passive);
    } else {
      QuietStepKeepsDrawn(profile, s, e, passive, active, usable);
    }
  }

  lemma {:induction false} DrawnAlways(profile: Profile, events: seq<Event>)
    ensures DrawnAfter(profile, events)
  {
    if events != [] {
      var before, e := events[..|events| - 1], events[|events| - 1];
      DrawnAlways(profile, before);
      ApprovalAlwaysHolds(profile, before);
      RouteAlwaysHolds(profile, before);
      StepKeepsDrawn(profile, Run(profile, before), e, FoundBy(profile, before, PassiveDetection),
          FoundBy(profile, before, ActiveDetection), UsableInActiveStage(profile, before));
    }
  }

  /** Over every run, the active tools that ran are the approved ones that were
      usable when the active stage was worked on. */
  lemma ToolsRanIfApprovedAndUsable(profile: Profile, events: seq<Event>)
    ensures var s := Run(profile, events);
            s.ran == match UsableInActiveStage(profile, events)
                     case None => {}
                     case Some(usable) => usable * Members(s.state.approvedTools)
  {
    DrawnAlways(profile, events);
  }

  /** A scan that ends neither failed nor rejected ends clean exactly if its last
      stage left no findings: the active one if tools were approved, else the
      passive one. */
  lemma CleanIffNothingFound(profile: Profile, events: seq<Event>)
    requires var s := Run(profile, events);
             s.position.Done? && !s.position.outcome.FailedReport? && !s.position.outcome.RejectedReport?
    ensures var s := Run(profile, events);
            var passive := FoundBy(profile, events, PassiveDetection);
            var active := FoundBy(profile, events, ActiveDetection);
            && passive.Some? && active.Some?
            && (s.position.outcome.CleanReport?
                <==> (if s.state.approvedTools != [] then active else passive) == Some(0))
            && (s.state.approvedTools != [] <==> profile.FullProfile?)
  {
    DrawnAlways(profile, events);
    ApprovalAlwaysHolds(profile, events);
    RouteAlwaysHolds(profile, events);
    OutcomeIsExact(profile, events);
    CleanAlwaysExact(profile, events);
  }

  lemma {:induction false} CleanAlwaysExact(profile: Profile, events: seq<Event>)
    ensures var s := Run(profile, events);
            s.position.Done? ==>
              (s.position.outcome.CleanReport?
               <==> !s.position.outcome.FailedReport? && !s.position.outcome.RejectedReport? && s.state.findings == 0)
  {
    if events != [] {
      CleanAlwaysExact(profile, events[..|events| - 1]);
    }
  }

  /* What failed, and what was decided. */

  /** The scope check failed, or a task was aborted. */
  predicate Broke(profile: Profile, events: seq<Event>) {
    && events != []
    && var before, e := events[..|events| - 1], events[|events| - 1];
       var at := Run(profile, before).position;
       || Broke(profile, before)
       || (at.At? && (e.Abort? || (at.node == CheckScope && e.Step? && !e.inScope)))
  }

  /** The answer that resumed the scan from the gate, if one has. */
  function Answer(profile: Profile, events: seq<Event>): Option<Decision> {
    if events == [] then None
    else
      var before, e := events[..|events| - 1], events[|events| - 1];
      if e.Resume? && Run(profile, before).position.Paused? then Some(e.decision) else Answer(profile, before)
  }

  /** The scan failed exactly if the scope check did or a task was aborted, and the
      decision on record is the answer that resumed it. */
  lemma {:induction false} FailureAndDecisionAreOnRecord(profile: Profile, events: seq<Event>)
    ensures Run(profile, events).failed <==> Broke(profile, events)
    ensures Run(profile, events).decision == Answer(profile, events)
  {
    if events != [] {
      FailureAndDecisionAreOnRecord(profile, events[..|events| - 1]);
    }
  }

  /** The status a poll shows, by where the scan stands. */
  ghost predicate StatusFits(s: System) {
    match s.position
    case At(CheckScope) => s.state.status == Pending
    case At(Recon) | At(PassiveDetection) => s.state.status == Running
    case At(PlanActiveTests) => s.state.status == Detecting
    case At(ApprovalGate) => s.state.status == AwaitingApproval
    case Paused => s.state.status == AwaitingApproval
    case At(ActiveDetection) =>
      s.state.status == if s.decision.Some? && s.state.approvedTools == [] then Rejected else Running
    case At(Verification) => s.state.status == Detecting
    case At(Scoring) => s.state.status == Verifying
    case At(AiSynthesis) => s.state.status == Scored
    case At(Reporting) => s.state.status == if s.failed then Failed else Scored
    case Done(_) => s.state.status == if s.failed then Failed else Completed
  }

  lemma StepKeepsStatus(profile: Profile, s: System, e: Event)
    requires StatusFits(s) && Approving(profile, s) && OutcomeInvariant(s)
    ensures StatusFits(Next(profile, s, e))
  {
  }

  /** In every run the status tells where the scan stands. */
  lemma {:induction false} StatusTellsWhere(profile: Profile, events: seq<Event>)
    ensures StatusFits(Run(profile, events))
  {
    if events != [] {
      var before := events[..|events| - 1];
      StatusTellsWhere(profile, before);
      ApprovalAlwaysHolds(profile, before);
      OutcomeAlwaysHolds(profile, before);
      StepKeepsStatus(profile, Run(profile, before), events[|events| - 1]);
    }
  }

  /** In every run the plan is empty or sqlmap and zap, in this order, and that is what a
      paused scan asks about. */
  lemma PlanIsSqlmapAndZap(profile: Profile, events: seq<Event>)
    ensures var s := Run(profile, events);
            && (s.state.planned == [] || s.state.planned == ["sqlmap", "zap"])
            && (s.position.Paused? ==> s.state.planned == ["sqlmap", "zap"])
  {
    ApprovalAlwaysHolds(profile, events);
  }
}
