/** One scan as a state machine: the nodes of the scan graph, the approval
    interrupt and its resume, and timeouts or exceptions at any moment.
 */
module ScanGraph {
  import opened Wrappers
  import opened Approval
  import T = Text

  datatype Profile = FullProfile | FirecrawlProfile

  datatype Node =
    | CheckScope | Recon | PassiveDetection | PlanActiveTests | ApprovalGate
    | ActiveDetection | Verification | Scoring | AiSynthesis | Reporting

  datatype Status =
    | Pending | Running | AwaitingApproval | Rejected | Detecting | Verifying | Scored | Failed | Completed

  /** The checkpointed state, as far as control flow and the outcome need it. */
  datatype State = State(
    authorized: bool,
    planned: seq<string>,
    approvalNeeded: bool,
    humanApproved: bool,
    approvedTools: seq<string>,
    rejectedTools: seq<string>,
    status: Status,
    findings: nat)

  const INITIAL_STATE := State(false, [], false, false, [], [], Pending, 0)

  datatype Outcome = RejectedReport | FailedReport | CleanReport | CompletedReport

  /** A task is working on a node, or waits at the interrupt, or the scan is
      over. */
  datatype Position = At(node: Node) | Paused | Done(outcome: Outcome)

  /** `ran` and `visited` record the active tools ever started and the nodes
      ever entered, `failed` whether scope, a timeout or an exception failed
      the scan. */
  datatype System = System(
    position: Position,
    state: State,
    decision: Option<Decision>,
    interrupts: nat,
    ran: set<string>,
    visited: seq<Node>,
    failed: bool)

  const START := System(At(CheckScope), INITIAL_STATE, None, 0, {}, [CheckScope], false)

  const INTRUSIVE_TOOLS := ["sqlmap", "zap"]

  /** The tools and the target are oracles: whether the scope check passes, how
      many findings a stage leaves, which active tools turn out usable. A task
      may be aborted, by its timeout or an exception, while it is at a node; at
      the interrupt no task runs. */
  datatype Event =
    | Step(inScope: bool, found: nat, usable: set<string>)
    | Resume(decision: Decision)
    | Abort(usable: set<string>)

  predicate Enabled(s: System, e: Event) {
    match e
    case Step(_, _, _) => s.position.At?
    case Resume(_) => s.position.Paused?
    case Abort(_) => s.position.At?
  }

  /** What the active stage may start. It knows two tools, whatever else the
      selection names. */
  function Startable(state: State): set<string> {
    Members(SelectActiveTools(state.planned, Some(state.approvedTools), state.humanApproved).0) * {"zap", "sqlmap"}
  }

  function OutcomeOf(state: State): Outcome {
    if state.status == Rejected || (state.approvalNeeded && !state.humanApproved && state.status != Failed)
        then RejectedReport
    else if state.status == Failed then FailedReport
    else if state.findings == 0 then CleanReport
    else CompletedReport
  }

  function Enter(s: System, node: Node): System {
    s.(position := At(node), visited := s.visited + [node])
  }

  /** The report is assembled from `state`; the scan is over. */
  function Report(s: System, state: State): System {
    s.(position := Done(OutcomeOf(state)),
       state := state.(status := if state.status == Failed then Failed else Completed))
  }

  function Next(profile: Profile, s: System, e: Event): System {
    if !Enabled(s, e) then s
    else
      match e
      case Resume(d) => Enter(s, ApprovalGate).(decision := Some(d))
      case Abort(usable) =>
        var ran := if s.position.node.ActiveDetection? then s.ran + usable * Startable(s.state) else s.ran;
        Report(s.(failed := true, ran := ran), s.state.(status := Failed))
      case Step(inScope, found, usable) =>
        match s.position.node
        case CheckScope =>
          if inScope then Enter(s.(state := s.state.(authorized := true, status := Running)), Recon)
          else Enter(s.(state := s.state.(authorized := false, status := Failed), failed := true), Reporting)
        case Recon => Enter(s, PassiveDetection)
        case PassiveDetection => Enter(s.(state := s.state.(status := Detecting, findings := found)), PlanActiveTests)
        case PlanActiveTests =>
          var planned := if profile.FullProfile? then INTRUSIVE_TOOLS else [];
          var s' := s.(state := s.state.(planned := planned, approvalNeeded := profile.FullProfile?,
                                         status := if profile.FullProfile? then AwaitingApproval else Running));
          Enter(s', if planned != [] then ApprovalGate else ActiveDetection)
        case ApprovalGate =>
          if s.decision.None? then s.(position := Paused, interrupts := s.interrupts + 1)
          else
            var approved := ResolveApprovedTools(s.state.planned, s.decision.value);
            Enter(s.(state := s.state.(humanApproved := approved != [], approvedTools := approved,
                                       rejectedTools := RejectedTools(s.state.planned, approved),
                                       status := if approved != [] then Running else Rejected)), ActiveDetection)
        case ActiveDetection =>
          var findings := if s.state.approvedTools == [] then s.state.findings else found;
          Enter(s.(state := s.state.(status := Detecting, findings := findings),
                   ran := s.ran + usable * Startable(s.state)), Verification)
        case Verification => Enter(s.(state := s.state.(status := Verifying)), Scoring)
        case Scoring => Enter(s.(state := s.state.(status := Scored)), AiSynthesis)
        case AiSynthesis => Enter(s, Reporting)
        case Reporting => Report(s, s.state)
  }

  function Run(profile: Profile, events: seq<Event>): System {
    if events == [] then START else Next(profile, Run(profile, events[..|events| - 1]), events[|events| - 1])
  }

  /* Approval. */

  predicate AtGate(p: Position) {
    p.Paused? || p == At(ApprovalGate)
  }

  /** A decision names the tool, or approves the whole plan. */
  ghost predicate Allows(d: Decision, tool: string) {
    match d.tools
    case Some(tools) => tool in Requested(tools)
    case None => d.approved
  }

  ghost predicate PlanInvariant(profile: Profile, s: System) {
    && (s.state.planned != [] ==> s.state.planned == INTRUSIVE_TOOLS && profile.FullProfile?)
    && (s.state.approvalNeeded <==> s.state.planned != [])
    && (AtGate(s.position) ==> s.state.approvalNeeded)
    && (s.state.approvalNeeded && s.decision.None? ==> AtGate(s.position) || s.failed)
  }

  /** Nothing is approved, let alone started, before a decision; afterwards the
      approved tools are what the decision resolves to. */
  ghost predicate ApprovalInvariant(s: System) {
    && (s.state.humanApproved <==> s.state.approvedTools != [])
    && (s.state.approvedTools == [] ==> s.ran == {})
    && (s.state.approvedTools != [] ==>
          s.decision.Some? && s.state.approvedTools == ResolveApprovedTools(s.state.planned, s.decision.value))
    && (s.decision.Some? ==> s.state.approvalNeeded)
    && (s.decision.Some? && !AtGate(s.position) && !s.failed ==>
          s.state.approvedTools == ResolveApprovedTools(s.state.planned, s.decision.value)
          && s.state.rejectedTools == RejectedTools(s.state.planned, s.state.approvedTools))
    && s.ran <= Members(s.state.approvedTools)
    && (AtGate(s.position) ==> s.state.approvedTools == [])
    && (s.position.Paused? ==> s.decision.None?)
  }

  lemma StartableAreApproved(state: State)
    ensures Startable(state) <= Members(state.approvedTools)
  {
    AmongMembers(if state.planned == [] then DEFAULT_ACTIVE_TOOLS else state.planned, Members(state.approvedTools));
  }

  predicate BeforePlan(p: Position) {
    p.At? && (p.node.CheckScope? || p.node.Recon? || p.node.PassiveDetection? || p.node.PlanActiveTests?)
  }

  /** What a run keeps. */
  ghost predicate Approving(profile: Profile, s: System) {
    && PlanInvariant(profile, s)
    && ApprovalInvariant(s)
    && (BeforePlan(s.position) ==> s.state.planned == [])
  }

  lemma EarlyStepKeepsApproval(profile: Profile, s: System, e: Event)
    requires Approving(profile, s) && e.Step? && BeforePlan(s.position)
    ensures Approving(profile, Next(profile, s, e))
  {
  }

  lemma GateKeepsApproval(profile: Profile, s: System, e: Event)
    requires Approving(profile, s) && AtGate(s.position) && !e.Abort?
    ensures Approving(profile, Next(profile, s, e))
  {
  }

  lemma ActiveStepKeepsApproval(profile: Profile, s: System, e: Event)
    requires Approving(profile, s) && e.Step? && s.position == At(ActiveDetection)
    ensures Approving(profile, Next(profile, s, e))
  {
    StartableAreApproved(s.state);
  }

  lemma LateStepKeepsApproval(profile: Profile, s: System, e: Event)
    requires Approving(profile, s) && e.Step? && s.position.At?
    requires !BeforePlan(s.position) && !AtGate(s.position) && s.position.node != ActiveDetection
    ensures Approving(profile, Next(profile, s, e))
  {
  }

  lemma AbortKeepsApproval(profile: Profile, s: System, e: Event)
    requires Approving(profile, s) && e.Abort?
    ensures Approving(profile, Next(profile, s, e))
  {
    StartableAreApproved(s.state);
  }

  lemma StepKeepsApproval(profile: Profile, s: System, e: Event)
    requires Approving(profile, s)
    ensures Approving(profile, Next(profile, s, e))
  {
    if !Enabled(s, e) {
      assert Next(profile, s, e) == s;
    } else if e.Abort? {
      AbortKeepsApproval(profile, s, e);
    } else if AtGate(s.position) {
      GateKeepsApproval(profile, s, e);
    } else if BeforePlan(s.position) {
      EarlyStepKeepsApproval(profile, s, e);
    } else if s.position == At(ActiveDetection) {
      ActiveStepKeepsApproval(profile, s, e);
    } else {
      LateStepKeepsApproval(profile, s, e);
    }
  }

  lemma {:induction false} ApprovalAlwaysHolds(profile: Profile, events: seq<Event>)
    ensures Approving(profile, Run(profile, events))
  {
    if events != [] {
      ApprovalAlwaysHolds(profile, events[..|events| - 1]);
      StepKeepsApproval(profile, Run(profile, events[..|events| - 1]), events[|events| - 1]);
    }
  }

  /** In every run of both profiles, aborted or not: an active tool that was
      ever started is approved, planned, and allowed by the one decision of the
      run. Without a decision, none was started. */
  lemma ActiveToolsNeedApproval(profile: Profile, events: seq<Event>, tool: string)
    requires tool in Run(profile, events).ran
    ensures var s := Run(profile, events);
            && tool in s.state.approvedTools
            && tool in s.state.planned
            && s.decision.Some? && Allows(s.decision.value, tool)
            && profile.FullProfile?
  {
    var s := Run(profile, events);
    ApprovalAlwaysHolds(profile, events);
    ResolvedArePlanned(s.state.planned, s.decision.value);
    if s.decision.value.tools.Some? {
      AmongMembers(s.state.planned, Requested(s.decision.value.tools.value));
    }
  }

  lemma IntrusiveToolsAreCanonical()
    ensures CanonicalPlan(INTRUSIVE_TOOLS)
  {
    forall t | t in INTRUSIVE_TOOLS ensures Canonical(t) {
      assert t == "sqlmap" || t == "zap";
      assert T.StripLeft(t) == t && T.StripRight(t) == t;
    }
  }

  /** What the API told the reviewer is what the scan records and runs: once the
      gate has resumed with the endpoint's payload, the state holds the approved
      and rejected lists of the endpoint's answer. */
  lemma ApiAnswerIsWhatRuns(profile: Profile, events: seq<Event>, body: Decision)
    requires var s := Run(profile, events);
             && !s.failed && !AtGate(s.position)
             && ApproveScan(s.state.planned, body).Accepted?
             && s.decision == Some(ResumePayload(ApproveScan(s.state.planned, body).approved))
    ensures var s := Run(profile, events);
            && ApproveScan(s.state.planned, body) == Accepted(s.state.approvedTools, s.state.rejectedTools)
            && Startable(s.state) == Members(s.state.approvedTools)
  {
    var s := Run(profile, events);
    ApprovalAlwaysHolds(profile, events);
    IntrusiveToolsAreCanonical();
    ThreeResolutionsAgreeIff(s.state.planned, body);
    ResolvedArePlanned(s.state.planned, body);
  }

  /* Progress. */

  /** How far a scan is from its end. */
  function Remaining(s: System): nat {
    match s.position
    case Done(_) => 0
    case Paused => 7
    case At(node) =>
      match node
      case CheckScope => 12
      case Recon => 11
      case PassiveDetection => 10
      case PlanActiveTests => 9
      case ApprovalGate => if s.decision.None? then 8 else 6
      case ActiveDetection => 5
      case Verification => 4
      case Scoring => 3
      case AiSynthesis => 2
      case Reporting => 1
  }

  /** Every enabled event brings the scan nearer to its end, and only at the
      end, or while it waits for a decision, can the scan stand still. */
  lemma EveryEventProgresses(profile: Profile, s: System, e: Event)
    ensures Enabled(s, e) ==> Remaining(Next(profile, s, e)) < Remaining(s)
    ensures Remaining(s) == 0 <==> s.position.Done?
    ensures !s.position.Done? ==> exists e' :: Enabled(s, e')
  {
    if s.position.Paused? {
      assert Enabled(s, Resume(Decision(false, None)));
    } else if s.position.At? {
      assert Enabled(s, Step(true, 0, {}));
    }
  }

  lemma {:induction false} InterruptsAtMostOnce(profile: Profile, events: seq<Event>)
    ensures var s := Run(profile, events);
            && s.interrupts <= 1
            && (s.position.At? && s.decision.None? ==> s.interrupts == 0)
  {
    if events != [] {
      InterruptsAtMostOnce(profile, events[..|events| - 1]);
    }
  }

  /* Outcome. */

  ghost predicate OutcomeInvariant(s: System) {
    match s.position
    case At(node) => (s.state.status == Failed <==> s.failed) && (s.failed ==> node.Reporting?)
                     && (s.state.status == Rejected ==> node.ActiveDetection?)
    case Paused => !s.failed && s.state.status != Failed && s.state.status != Rejected
    case Done(o) =>
      && (o.FailedReport? <==> s.failed)
      && (o.RejectedReport? <==> !s.failed && s.state.approvalNeeded && !s.state.humanApproved)
      && (o.CleanReport? ==> s.state.findings == 0)
      && (s.state.status == (if s.failed then Failed else Completed))
  }

  lemma StepKeepsOutcome(profile: Profile, s: System, e: Event)
    requires OutcomeInvariant(s)
    ensures OutcomeInvariant(Next(profile, s, e))
  {
  }

  lemma {:induction false} OutcomeAlwaysHolds(profile: Profile, events: seq<Event>)
    ensures OutcomeInvariant(Run(profile, events))
  {
    if events != [] {
      OutcomeAlwaysHolds(profile, events[..|events| - 1]);
      StepKeepsOutcome(profile, Run(profile, events[..|events| - 1]), events[|events| - 1]);
    }
  }

  /** How a scan ends: with a failed report exactly when scope, a timeout or an
      exception failed it, and with a rejected report exactly when it did not
      fail and the gate approved nothing. */
  lemma OutcomeIsExact(profile: Profile, events: seq<Event>)
    requires Run(profile, events).position.Done?
    ensures var s := Run(profile, events);
            && (s.position.outcome.FailedReport? <==> s.failed)
            && (s.position.outcome.RejectedReport?
                <==> !s.failed && s.decision.Some? && ResolveApprovedTools(s.state.planned, s.decision.value) == [])
            && (s.state.status == Failed <==> s.failed)
  {
    OutcomeAlwaysHolds(profile, events);
    ApprovalAlwaysHolds(profile, events);
  }

  /* Scope. */

  /** Out of scope, the run has seen the scope check and at most the report. */
  ghost predicate ScopeInvariant(s: System) {
    && (s.position == At(CheckScope) ==> s.visited == [CheckScope] && s.ran == {})
    && (!s.state.authorized ==>
          && s.ran == {}
          && (s.visited == [CheckScope] || s.visited == [CheckScope, Reporting])
          && (s.position.Done? || s.position == At(CheckScope) || s.position == At(Reporting)))
  }

  lemma StepKeepsScope(profile: Profile, s: System, e: Event)
    requires ScopeInvariant(s)
    ensures ScopeInvariant(Next(profile, s, e))
  {
    if s.state.authorized && s.position != At(CheckScope) {
      assert Next(profile, s, e).state.authorized && Next(profile, s, e).position != At(CheckScope);
    }
  }

  lemma {:induction false} ScopeAlwaysHolds(profile: Profile, events: seq<Event>)
    ensures ScopeInvariant(Run(profile, events))
  {
    if events != [] {
      ScopeAlwaysHolds(profile, events[..|events| - 1]);
      StepKeepsScope(profile, Run(profile, events[..|events| - 1]), events[|events| - 1]);
    }
  }

  /** A target that fails the scope check sees the check and the report, no
      other node and no active tool, and its scan ends with a failed report. */
  lemma OutOfScopeVisitsNothing(profile: Profile, events: seq<Event>)
    requires !Run(profile, events).state.authorized
    ensures var s := Run(profile, events);
            && s.ran == {}
            && (forall node :: node in s.visited ==> node == CheckScope || node == Reporting)
            && (s.position.Done? ==> s.position.outcome == FailedReport)
  {
    ScopeAlwaysHolds(profile, events);
    OutcomeAlwaysHolds(profile, events);
    UnauthorizedEndsFailed(profile, events);
  }

  lemma {:induction false} UnauthorizedEndsFailed(profile: Profile, events: seq<Event>)
    ensures var s := Run(profile, events); s.state.authorized || s.failed || s.position == At(CheckScope)
  {
    if events != [] {
      UnauthorizedEndsFailed(profile, events[..|events| - 1]);
    }
  }
}
