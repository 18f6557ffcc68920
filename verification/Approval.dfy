/** Which planned active tools a reviewer's answer lets run. The answer is
    resolved three times: by the API, by the approval gate of the graph and by
    the active detection stage.
 */
module Approval {
  import opened Wrappers
  import T = Text

  /** A reviewer's answer: a bulk flag, and possibly an explicit list. */
  datatype Decision = Decision(approved: bool, tools: Option<seq<string>>)

  function Requested(tools: seq<string>): set<string> {
    set t | t in tools && T.Strip(t) != "" :: T.Lower(T.Strip(t))
  }

  /** The members of `chosen` in the order of the plan. */
  function Among(planned: seq<string>, chosen: set<string>): seq<string> {
    if planned == [] then []
    else Among(planned[..|planned| - 1], chosen)
         + (if planned[|planned| - 1] in chosen then [planned[|planned| - 1]] else [])
  }

  function Without(planned: seq<string>, chosen: set<string>): seq<string> {
    if planned == [] then []
    else Without(planned[..|planned| - 1], chosen)
         + (if planned[|planned| - 1] in chosen then [] else [planned[|planned| - 1]])
  }

  function Members(tools: seq<string>): set<string> {
    set t | t in tools
  }

  /** An explicit list takes precedence over the bulk flag. */
  function ResolveApprovedTools(planned: seq<string>, d: Decision): seq<string> {
    match d.tools
    case Some(tools) => Among(planned, Requested(tools))
    case None => if d.approved then planned else []
  }

  function RejectedTools(planned: seq<string>, approved: seq<string>): seq<string> {
    Without(planned, Members(approved))
  }

  const DEFAULT_ACTIVE_TOOLS := ["zap", "sqlmap"]

  /** What the detection stage selects from the scan state. A state without an
      `approved_tools` entry falls back to the bulk flag, and an empty plan to
      the default tools. */
  function SelectActiveTools(planned: seq<string>, approvedTools: Option<seq<string>>, humanApproved: bool)
    : (seq<string>, seq<string>)
  {
    var plan := if planned == [] then DEFAULT_ACTIVE_TOOLS else planned;
    var chosen := match approvedTools
                  case Some(tools) => tools
                  case None => if humanApproved then plan else [];
    (Among(plan, Members(chosen)), Without(plan, Members(chosen)))
  }

  datatype ApiAnswer = UnknownTools(unknown: set<string>) | Accepted(approved: seq<string>, rejected: seq<string>)

  /** The approval endpoint. */
  function ApproveScan(planned: seq<string>, body: Decision): ApiAnswer {
    var unknown := if body.tools.Some? then Requested(body.tools.value) - Members(planned) else {};
    if unknown != {} then UnknownTools(unknown)
    else
      var approved := ResolveApprovedTools(planned, body);
      Accepted(approved, RejectedTools(planned, approved))
  }

  /** What the endpoint passes on to the paused graph. */
  function ResumePayload(approved: seq<string>): Decision {
    Decision(approved != [], Some(approved))
  }

  /** Trimmed, lower-case, non-empty names, as the planner writes them. */
  ghost predicate Canonical(tool: string) {
    tool != "" && T.Strip(tool) == tool && T.Lower(tool) == tool
  }

  ghost predicate CanonicalPlan(planned: seq<string>) {
    forall t :: t in planned ==> Canonical(t)
  }

  lemma {:induction false} AmongMembers(planned: seq<string>, chosen: set<string>)
    ensures forall t :: t in Among(planned, chosen) <==> t in planned && t in chosen
    ensures forall t :: t in Without(planned, chosen) <==> t in planned && t !in chosen
  {
    if planned != [] {
      AmongMembers(planned[..|planned| - 1], chosen);
    }
  }

  lemma {:induction false} AmongAgrees(planned: seq<string>, a: set<string>, b: set<string>)
    requires forall t :: t in planned ==> (t in a <==> t in b)
    ensures Among(planned, a) == Among(planned, b)
  {
    if planned != [] {
      AmongAgrees(planned[..|planned| - 1], a, b);
    }
  }

  lemma {:induction false} AmongNothing(planned: seq<string>, chosen: set<string>)
    requires forall t :: t in planned ==> t !in chosen
    ensures Among(planned, chosen) == []
  {
    if planned != [] {
      AmongNothing(planned[..|planned| - 1], chosen);
    }
  }

  lemma {:induction false} AmongEverything(planned: seq<string>, chosen: set<string>)
    requires forall t :: t in planned ==> t in chosen
    ensures Among(planned, chosen) == planned && Without(planned, chosen) == []
  {
    if planned != [] {
      AmongEverything(planned[..|planned| - 1], chosen);
    }
  }

  /** `picked` is the subsequence of `xs` at the strictly increasing `places`. */
  ghost predicate Picks(xs: seq<string>, places: seq<nat>, picked: seq<string>) {
    && |places| == |picked|
    && (forall i :: 0 <= i < |places| ==> places[i] < |xs| && xs[places[i]] == picked[i])
    && (forall i, j :: 0 <= i < j < |places| ==> places[i] < places[j])
  }

  function Places(planned: seq<string>, chosen: set<string>): seq<nat> {
    if planned == [] then []
    else
      var n := |planned| - 1;
      Places(planned[..n], chosen) + (if planned[n] in chosen then [n] else [])
  }

  lemma {:induction false} PlacesPick(planned: seq<string>, chosen: set<string>)
    ensures Picks(planned, Places(planned, chosen), Among(planned, chosen))
  {
    if planned != [] {
      PlacesPick(planned[..|planned| - 1], chosen);
    }
  }

  lemma {:induction false} PlacesAreChosen(planned: seq<string>, chosen: set<string>, i: nat)
    ensures i in Places(planned, chosen) <==> i < |planned| && planned[i] in chosen
  {
    if planned != [] {
      PlacesAreChosen(planned[..|planned| - 1], chosen, i);
    }
  }

  lemma {:induction false} WithoutIsAmongOthers(planned: seq<string>, chosen: set<string>, others: set<string>)
    requires forall t :: t in planned ==> (t in others <==> t !in chosen)
    ensures Without(planned, chosen) == Among(planned, others)
  {
    if planned != [] {
      WithoutIsAmongOthers(planned[..|planned| - 1], chosen, others);
    }
  }

  /** Approved and rejected tools split the plan: every place of the plan goes
      to exactly one of the two lists, and both keep the plan's order. */
  lemma ChoicePartitions(planned: seq<string>, chosen: set<string>) returns (kept: seq<nat>, dropped: seq<nat>)
    ensures Picks(planned, kept, Among(planned, chosen))
    ensures Picks(planned, dropped, Without(planned, chosen))
    ensures forall i: nat :: i < |planned| ==> (i in kept <==> i !in dropped)
  {
    var others := Members(planned) - chosen;
    kept, dropped := Places(planned, chosen), Places(planned, others);
    WithoutIsAmongOthers(planned, chosen, others);
    PlacesPick(planned, chosen);
    PlacesPick(planned, others);
    forall i: nat | i < |planned| ensures i in kept <==> i !in dropped {
      PlacesAreChosen(planned, chosen, i);
      PlacesAreChosen(planned, others, i);
    }
  }

  lemma RequestedCanonical(tools: seq<string>)
    requires CanonicalPlan(tools)
    ensures Requested(tools) == Members(tools)
  {
  }

  lemma ResolvedArePlanned(planned: seq<string>, d: Decision)
    ensures forall t :: t in ResolveApprovedTools(planned, d) ==> t in planned
  {
    if d.tools.Some? {
      AmongMembers(planned, Requested(d.tools.value));
    }
  }

  lemma RequestedAreCanonical(tools: seq<string>, tool: string)
    requires tool in Requested(tools)
    ensures Canonical(tool)
  {
    var t :| t in tools && T.Strip(t) != "" && tool == T.Lower(T.Strip(t));
    T.LowerStaysStripped(t);
    T.LowerTwice(T.Strip(t));
  }

  /** A bulk approval of a plan survives being written down as an explicit list
      exactly when the names are in the form the list is read in. */
  lemma BulkApprovalSurvivesIff(planned: seq<string>)
    ensures Among(planned, Requested(planned)) == planned <==> CanonicalPlan(planned)
  {
    AmongMembers(planned, Requested(planned));
    if Among(planned, Requested(planned)) == planned {
      forall t | t in planned ensures Canonical(t) {
        RequestedAreCanonical(planned, t);
      }
    } else if CanonicalPlan(planned) {
      RequestedCanonical(planned);
      AmongEverything(planned, Members(planned));
    }
  }

  /** An explicit list survives whatever the plan is written like: what it picks
      is in the form the list is read in. */
  lemma ExplicitChoiceSurvives(planned: seq<string>, tools: seq<string>)
    ensures var api := Among(planned, Requested(tools)); Among(planned, Requested(api)) == api
  {
    var api := Among(planned, Requested(tools));
    AmongMembers(planned, Requested(tools));
    forall t | t in api ensures Canonical(t) {
      RequestedAreCanonical(tools, t);
    }
    RequestedCanonical(api);
    AmongAgrees(planned, Requested(api), Requested(tools));
  }

  /** What the endpoint approved is what the gate approves if and only if the
      answer is an explicit list, or approves nothing, or the plan's names are
      trimmed, lower-case and not empty. */
  lemma ApprovalReachesGateIff(planned: seq<string>, body: Decision)
    requires ApproveScan(planned, body).Accepted?
    ensures var api := ApproveScan(planned, body).approved;
            ResolveApprovedTools(planned, ResumePayload(api)) == api
            <==> body.tools.Some? || !body.approved || CanonicalPlan(planned)
  {
    if body.tools.Some? {
      ExplicitChoiceSurvives(planned, body.tools.value);
    } else if body.approved {
      BulkApprovalSurvivesIff(planned);
    } else {
      AmongNothing(planned, Requested([]));
    }
  }

  /** The detection stage selects what the gate approved. */
  lemma DetectionFollowsGate(planned: seq<string>, payload: Decision)
    ensures var gate := ResolveApprovedTools(planned, payload);
            var (selected, skipped) := SelectActiveTools(planned, Some(gate), gate != []);
            && selected == gate
            && (planned != [] ==> skipped == RejectedTools(planned, gate))
  {
    var gate := ResolveApprovedTools(planned, payload);
    ResolvedArePlanned(planned, payload);
    if planned == [] {
      AmongNothing(DEFAULT_ACTIVE_TOOLS, Members(gate));
    } else if payload.tools.Some? {
      AmongMembers(planned, Requested(payload.tools.value));
      AmongAgrees(planned, Members(gate), Requested(payload.tools.value));
    } else if payload.approved {
      AmongEverything(planned, Members(planned));
    } else {
      AmongNothing(planned, Members([]));
    }
  }

  /** The API, the gate and the detection stage select the same tools in the same
      order, under exactly that condition. */
  lemma ThreeResolutionsAgreeIff(planned: seq<string>, body: Decision)
    requires ApproveScan(planned, body).Accepted?
    ensures var api := ApproveScan(planned, body).approved;
            var gate := ResolveApprovedTools(planned, ResumePayload(api));
            var (selected, skipped) := SelectActiveTools(planned, Some(gate), gate != []);
            && selected == gate
            && (planned != [] ==> skipped == RejectedTools(planned, gate))
            && (gate == api && selected == api <==> body.tools.Some? || !body.approved || CanonicalPlan(planned))
  {
    ApprovalReachesGateIff(planned, body);
    DetectionFollowsGate(planned, ResumePayload(ApproveScan(planned, body).approved));
  }

  /** An example: a bulk approval of "ZAP" comes out of the API approved and is
      dropped by the gate. */
  lemma UpperCasePlanIsLost()
    ensures var api := ApproveScan(["ZAP"], Decision(true, None)).approved;
            api == ["ZAP"] && ResolveApprovedTools(["ZAP"], ResumePayload(api)) != api
  {
    var name := "ZAP";
    assert T.Lower(name)[0] != name[0];
    assert name in ["ZAP"] && !Canonical(name);
    ApprovalReachesGateIff(["ZAP"], Decision(true, None));
  }

  /* What an answer means. */

  /** The list names the tool, white space and letter case aside. */
  ghost predicate Named(tools: seq<string>, tool: string) {
    tool != "" && exists i :: 0 <= i < |tools| && T.Lower(T.Strip(tools[i])) == tool
  }

  lemma RequestedIffNamed(tools: seq<string>, tool: string)
    ensures tool in Requested(tools) <==> Named(tools, tool)
  {
    if tool in Requested(tools) {
      var t :| t in tools && T.Strip(t) != "" && T.Lower(T.Strip(t)) == tool;
      var i :| 0 <= i < |tools| && tools[i] == t;
      assert |tool| == |T.Strip(t)|;
    }
    if Named(tools, tool) {
      var i :| 0 <= i < |tools| && T.Lower(T.Strip(tools[i])) == tool;
      assert |T.Strip(tools[i])| == |tool|;
    }
  }

  /** An answer approves the planned tools its list names; without a list, all of
      them or none, as its flag says. A list counts even against the flag. */
  lemma ApprovedIff(planned: seq<string>, d: Decision, tool: string)
    ensures tool in ResolveApprovedTools(planned, d)
            <==> tool in planned && match d.tools
                                    case Some(tools) => Named(tools, tool)
                                    case None => d.approved
    ensures tool in RejectedTools(planned, ResolveApprovedTools(planned, d))
            <==> tool in planned && tool !in ResolveApprovedTools(planned, d)
  {
    AmongMembers(planned, Members(ResolveApprovedTools(planned, d)));
    if d.tools.Some? {
      AmongMembers(planned, Requested(d.tools.value));
      RequestedIffNamed(d.tools.value, tool);
    }
  }

  /** The endpoint turns an answer down exactly if its list names a tool that is not
      planned, and says which. */
  lemma AcceptedIff(planned: seq<string>, body: Decision)
    ensures ApproveScan(planned, body).Accepted?
            <==> body.tools.Some? ==> forall tool :: Named(body.tools.value, tool) ==> tool in planned
    ensures ApproveScan(planned, body).UnknownTools? ==>
              && body.tools.Some?
              && forall tool :: tool in ApproveScan(planned, body).unknown
                                <==> Named(body.tools.value, tool) && tool !in planned
  {
    if body.tools.Some? {
      var unknown := Requested(body.tools.value) - Members(planned);
      forall tool ensures tool in unknown <==> Named(body.tools.value, tool) && tool !in planned {
        RequestedIffNamed(body.tools.value, tool);
      }
    }
  }

  /** The detection stage selects the recorded tools of the plan; without a record, the
      whole plan or nothing, as the flag says; without a plan, from its own two tools. */
  lemma SelectedIff(planned: seq<string>, approvedTools: Option<seq<string>>, humanApproved: bool, tool: string)
    ensures tool in SelectActiveTools(planned, approvedTools, humanApproved).0
            <==> && (if planned == [] then tool == "zap" || tool == "sqlmap" else tool in planned)
                 && match approvedTools
                    case Some(tools) => tool in tools
                    case None => humanApproved
  {
    var plan := if planned == [] then DEFAULT_ACTIVE_TOOLS else planned;
    var chosen := match approvedTools
                  case Some(tools) => tools
                  case None => if humanApproved then plan else [];
    AmongMembers(plan, Members(chosen));
  }
}
