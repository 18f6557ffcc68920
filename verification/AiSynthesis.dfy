/** The optional AI summary of a scan: at most so many model calls, and nothing a
    model wrote is published unless every finding it refers to was verified.

    How a JSON value is rendered as text and which ids are recognised in prose
    are questions put to a reader.
 */
module AiSynthesis {
  import opened Wrappers
  import S = Scoring
  import T = Text

  datatype Json =
    | Null
    | Bool(value: bool)
    | Number(number: real)
    | Text(text: string)
    | List(items: seq<Json>)
    | Object(fields: seq<(string, Json)>)

  /** `show` renders values other than text, `idsIn` finds ids in prose. */
  datatype Reader = Reader(show: Json -> string, idsIn: string -> set<string>)
  {
    function Str(j: Json): string {
      if j.Text? then j.text else show(j)
    }
  }

  predicate Truthy(j: Json) {
    match j
    case Null => false
    case Bool(b) => b
    case Number(x) => x != 0.0
    case Text(s) => s != ""
    case List(items) => items != []
    case Object(fields) => fields != []
  }

  /** A missing key reads as null. */
  function Get(fields: seq<(string, Json)>, key: string): Json {
    if fields == [] then Null
    else if fields[0].0 == key then fields[0].1
    else Get(fields[1..], key)
  }

  /* Which finding ids a value refers to. */

  predicate IdKey(key: string) {
    T.Lower(key) == "finding_id" || T.Lower(key) == "top_risk_finding_id" || T.Lower(key) == "id"
  }

  predicate IdListKey(key: string) {
    T.Lower(key) == "finding_ids" || T.Lower(key) == "ids"
  }

  function Shown(r: Reader, items: seq<Json>): set<string> {
    set i | 0 <= i < |items| :: r.Str(items[i])
  }

  /** The ids one entry of an object names by its key. */
  function NamedIds(r: Reader, key: string, value: Json): set<string> {
    (if IdKey(key) && value != Null then {r.Str(value)} else {})
    + (if IdListKey(key) && value.List? then Shown(r, value.items) else {})
  }

  /** The recursive walk over the whole value. */
  function ReferencedIds(r: Reader, node: Json): set<string>
    decreases node, 1, 0
  {
    match node
    case Object(fields) => IdsOfFields(r, node, |fields|)
    case List(items) => IdsOfItems(r, node, |items|)
    case Text(s) => r.idsIn(s)
    case _ => {}
  }

  function IdsOfFields(r: Reader, node: Json, n: nat): set<string>
    requires node.Object? && n <= |node.fields|
    decreases node, 0, n
  {
    if n == 0 then {}
    else
      var (key, value) := node.fields[n - 1];
      IdsOfFields(r, node, n - 1) + NamedIds(r, key, value) + ReferencedIds(r, value)
  }

  function IdsOfItems(r: Reader, node: Json, n: nat): set<string>
    requires node.List? && n <= |node.items|
    decreases node, 0, n
  {
    if n == 0 then {} else IdsOfItems(r, node, n - 1) + ReferencedIds(r, node.items[n - 1])
  }

  /** The value at the end of a path of positions. */
  function At(node: Json, path: seq<nat>): Option<Json>
    decreases |path|
  {
    if path == [] then Some(node)
    else
      match node
      case Object(fields) => if path[0] < |fields| then At(fields[path[0]].1, path[1..]) else None
      case List(items) => if path[0] < |items| then At(items[path[0]], path[1..]) else None
      case _ => None
  }

  /** The id is named by an entry of this very object, or stands in this text. */
  ghost predicate RefersHere(r: Reader, node: Json, id: string) {
    match node
    case Object(fields) => exists i :: 0 <= i < |fields| && id in NamedIds(r, fields[i].0, fields[i].1)
    case Text(s) => id in r.idsIn(s)
    case _ => false
  }

  /** The id is referred to somewhere in the value, however deep. */
  ghost predicate Refers(r: Reader, root: Json, id: string) {
    exists path :: RefersAt(r, root, path, id)
  }

  ghost predicate RefersAt(r: Reader, root: Json, path: seq<nat>, id: string) {
    At(root, path).Some? && RefersHere(r, At(root, path).value, id)
  }

  function Child(node: Json, i: nat): Option<Json> {
    match node
    case Object(fields) => if i < |fields| then Some(fields[i].1) else None
    case List(items) => if i < |items| then Some(items[i]) else None
    case _ => None
  }

  lemma AtStep(node: Json, i: nat, path: seq<nat>)
    ensures At(node, [i] + path) == (if Child(node, i).Some? then At(Child(node, i).value, path) else None)
  {
    assert ([i] + path)[1..] == path;
  }

  lemma RefersInChild(r: Reader, node: Json, i: nat, id: string)
    requires Child(node, i).Some? && Refers(r, Child(node, i).value, id)
    ensures Refers(r, node, id)
  {
    var path :| RefersAt(r, Child(node, i).value, path, id);
    AtStep(node, i, path);
    assert RefersAt(r, node, [i] + path, id);
  }

  lemma {:induction false} WalkIsSound(r: Reader, node: Json, id: string)
    requires id in ReferencedIds(r, node)
    ensures Refers(r, node, id)
    decreases node, 1, 0
  {
    match node
    case Object(fields) =>
      FieldsWalkIsSound(r, node, |fields|, id);
    case List(items) =>
      ItemsWalkIsSound(r, node, |items|, id);
    case Text(s) =>
      assert RefersAt(r, node, [], id);
    case _ =>
  }

  lemma {:induction false} FieldsWalkIsSound(r: Reader, node: Json, n: nat, id: string)
    requires node.Object? && n <= |node.fields| && id in IdsOfFields(r, node, n)
    ensures Refers(r, node, id)
    decreases node, 0, n
  {
    var (key, value) := node.fields[n - 1];
    if id in NamedIds(r, key, value) {
      assert RefersAt(r, node, [], id);
    } else if id in ReferencedIds(r, value) {
      WalkIsSound(r, value, id);
      RefersInChild(r, node, n - 1, id);
    } else {
      FieldsWalkIsSound(r, node, n - 1, id);
    }
  }

  lemma {:induction false} ItemsWalkIsSound(r: Reader, node: Json, n: nat, id: string)
    requires node.List? && n <= |node.items| && id in IdsOfItems(r, node, n)
    ensures Refers(r, node, id)
    decreases node, 0, n
  {
    if id in ReferencedIds(r, node.items[n - 1]) {
      WalkIsSound(r, node.items[n - 1], id);
      RefersInChild(r, node, n - 1, id);
    } else {
      ItemsWalkIsSound(r, node, n - 1, id);
    }
  }

  lemma {:induction false} FieldIdsAreCollected(r: Reader, node: Json, n: nat, i: nat)
    requires node.Object? && i < n <= |node.fields|
    ensures NamedIds(r, node.fields[i].0, node.fields[i].1) + ReferencedIds(r, node.fields[i].1)
            <= IdsOfFields(r, node, n)
    decreases n
  {
    if i < n - 1 {
      FieldIdsAreCollected(r, node, n - 1, i);
    }
  }

  lemma {:induction false} ItemIdsAreCollected(r: Reader, node: Json, n: nat, i: nat)
    requires node.List? && i < n <= |node.items|
    ensures ReferencedIds(r, node.items[i]) <= IdsOfItems(r, node, n)
    decreases n
  {
    if i < n - 1 {
      ItemIdsAreCollected(r, node, n - 1, i);
    }
  }

  lemma {:induction false} WalkIsComplete(r: Reader, node: Json, path: seq<nat>, id: string)
    requires RefersAt(r, node, path, id)
    ensures id in ReferencedIds(r, node)
    decreases |path|
  {
    if path == [] {
      if node.Object? {
        var i :| 0 <= i < |node.fields| && id in NamedIds(r, node.fields[i].0, node.fields[i].1);
        FieldIdsAreCollected(r, node, |node.fields|, i);
      }
    } else {
      AtStep(node, path[0], path[1..]);
      assert path == [path[0]] + path[1..];
      WalkIsComplete(r, Child(node, path[0]).value, path[1..], id);
      if node.Object? {
        FieldIdsAreCollected(r, node, |node.fields|, path[0]);
      } else {
        ItemIdsAreCollected(r, node, |node.items|, path[0]);
      }
    }
  }

  /** The walk collects exactly the ids referred to anywhere in the value. */
  lemma WalkFindsEveryReference(r: Reader, node: Json, id: string)
    ensures id in ReferencedIds(r, node) <==> Refers(r, node, id)
  {
    if id in ReferencedIds(r, node) {
      WalkIsSound(r, node, id);
    }
    if Refers(r, node, id) {
      var path :| RefersAt(r, node, path, id);
      WalkIsComplete(r, node, path, id);
    }
  }

  /* Checking the two published parts. */

  datatype Executive = Executive(summary: string, topRisk: Option<string>, impact: string)

  datatype Step = Step(findingIds: seq<string>, rationale: string, effort: string)

  /** `str(value or "").strip()` */
  function Words(r: Reader, j: Json): string {
    if Truthy(j) then T.Strip(r.Str(j)) else ""
  }

  predicate NoId(text: string) {
    text == "" || T.Lower(text) == "null" || T.Lower(text) == "none"
  }

  function NormalizeExecutive(r: Reader, raw: Json, known: set<string>): Option<Executive> {
    if !raw.Object? then None
    else
      var summary, impact := Words(r, Get(raw.fields, "summary_text")),
          Words(r, Get(raw.fields, "business_impact_one_liner"));
      var top := Get(raw.fields, "top_risk_finding_id");
      if summary == "" || impact == "" then None
      else if top == Null || NoId(T.Strip(r.Str(top))) then Some(Executive(summary, None, impact))
      else if r.Str(top) !in known then None
      else Some(Executive(summary, Some(r.Str(top)), impact))
  }

  predicate Effort(text: string) {
    text == "trivial" || text == "moderate" || text == "significant"
  }

  /** The list of ids an entry gives, under either key; a lone text counts as a
      list of one. */
  function EntryIds(fields: seq<(string, Json)>): Json {
    var first, second := Get(fields, "finding_ids"), Get(fields, "ids");
    var raw := if Truthy(first) then first else if Truthy(second) then second else List([]);
    if raw.Text? then List([raw]) else raw
  }

  function ShownList(r: Reader, items: seq<Json>): seq<string> {
    seq(|items|, i requires 0 <= i < |items| => r.Str(items[i]))
  }

  ghost predicate AllKnown(ids: seq<string>, known: set<string>) {
    forall i :: 0 <= i < |ids| ==> ids[i] in known
  }

  function NormalizeStep(r: Reader, entry: Json, known: set<string>): Option<Step> {
    if !entry.Object? then None
    else
      var raw := EntryIds(entry.fields);
      if !raw.List? || raw.items == [] then None
      else
        var ids := ShownList(r, raw.items);
        var effort := T.Lower(Words(r, Get(entry.fields, "estimated_effort")));
        var rationale := Words(r, Get(entry.fields, "rationale"));
        if exists i :: 0 <= i < |ids| && ids[i] !in known then None
        else if !Effort(effort) || rationale == "" then None
        else Some(Step(ids, rationale, effort))
  }

  function NormalizeSteps(r: Reader, items: seq<Json>, known: set<string>): Option<seq<Step>> {
    if items == [] then Some([])
    else
      var before := NormalizeSteps(r, items[..|items| - 1], known);
      var last := NormalizeStep(r, items[|items| - 1], known);
      if before.None? || last.None? then None else Some(before.value + [last.value])
  }

  function NormalizeRoadmap(r: Reader, raw: Json, known: set<string>): Option<seq<Step>> {
    if raw.List? then NormalizeSteps(r, raw.items, known) else None
  }

  lemma {:induction false} OneBadStepRefuses(r: Reader, items: seq<Json>, known: set<string>, i: nat)
    requires i < |items| && NormalizeStep(r, items[i], known).None?
    ensures NormalizeSteps(r, items, known).None?
  {
    if i < |items| - 1 {
      OneBadStepRefuses(r, items[..|items| - 1], known, i);
    }
  }

  lemma StepsAppend(r: Reader, items: seq<Json>, known: set<string>, i: nat)
    requires i < |items|
    ensures var before, step := NormalizeSteps(r, items[..i], known), NormalizeStep(r, items[i], known);
            NormalizeSteps(r, items[..i + 1], known)
            == if before.None? || step.None? then None else Some(before.value + [step.value])
  {
    assert items[..i + 1][..i] == items[..i];
  }

  method CheckRoadmap(r: Reader, raw: Json, known: set<string>) returns (roadmap: Option<seq<Step>>)
    ensures roadmap == NormalizeRoadmap(r, raw, known)
  {
    if !raw.List? {
      return None;
    }
    var steps := [];
    for i := 0 to |raw.items|
      invariant NormalizeSteps(r, raw.items[..i], known) == Some(steps)
    {
      StepsAppend(r, raw.items, known, i);
      var step := NormalizeStep(r, raw.items[i], known);
      if step.None? {
        OneBadStepRefuses(r, raw.items, known, i);
        return None;
      }
      steps := steps + [step.value];
    }
    assert raw.items[..|raw.items|] == raw.items;
    return Some(steps);
  }

  /** A step that may be published names at least one known finding. */
  ghost predicate Grounded(s: Step, known: set<string>) {
    s.findingIds != [] && AllKnown(s.findingIds, known) && Effort(s.effort) && s.rationale != ""
  }

  lemma StepIsGrounded(r: Reader, entry: Json, known: set<string>)
    requires NormalizeStep(r, entry, known).Some?
    ensures Grounded(NormalizeStep(r, entry, known).value, known)
  {
  }

  lemma {:induction false} StepsAreGrounded(r: Reader, items: seq<Json>, known: set<string>)
    requires NormalizeSteps(r, items, known).Some?
    ensures var steps := NormalizeSteps(r, items, known).value;
            |steps| == |items| && forall i :: 0 <= i < |steps| ==> Grounded(steps[i], known)
  {
    if items != [] {
      StepsAreGrounded(r, items[..|items| - 1], known);
      StepIsGrounded(r, items[|items| - 1], known);
    }
  }

  /* The run. */

  /** What asking a model gives: no response with an error, text without a JSON
      object in it, or an object. */
  datatype Reply = NoResponse(error: string) | NoObject | Answer(payload: Json)

  datatype Reason = NoApiKey | Timeout | AllProvidersFailed | SchemaFailure | IdMismatch | GraderFlag | CallBudget

  /** `Template` is the fixed text for a scan without significant risks. */
  datatype Outcome =
    | Skipped
    | Template
    | Unavailable(reason: Reason)
    | Published(executive: Executive, roadmap: seq<Step>)

  /** Every finding leaves with an id, in its place. */
  function EnsureFindingIds(rows: seq<S.Row>): seq<S.Row> {
    seq(|rows|, i requires 0 <= i < |rows| => rows[i].(id := S.ScoredId(rows[i], i)))
  }

  /** The verification verdicts that let a finding into the prompt. */
  predicate Eligible(row: S.Row) {
    var status := T.Lower(T.Strip(row.status));
    status == "confirmed" || status == "tool_attested"
  }

  function KnownIds(rows: seq<S.Row>): set<string> {
    set i | 0 <= i < |rows| && Eligible(rows[i]) :: rows[i].id
  }

  predicate Actionable(row: S.Row) {
    Eligible(row) && row.severity != "" && T.Lower(row.severity) != "info"
  }

  predicate AnyActionable(rows: seq<S.Row>) {
    exists i :: 0 <= i < |rows| && Actionable(rows[i])
  }

  function NoResponseReason(error: string): Reason {
    if error == "no_api_key" then NoApiKey
    else if T.Contains(error, "timeout") then Timeout
    else AllProvidersFailed
  }

  /** Referenced ids that belong to no finding in the prompt. */
  function ForeignIds(r: Reader, payload: Json, known: set<string>): set<string> {
    set id | id in ReferencedIds(r, payload) && id != "" && id !in known
  }

  function SeriousForeignIds(r: Reader, payload: Json, known: set<string>): set<string> {
    set id | id in ReferencedIds(r, payload) && !NoId(id) && id !in known
  }

  /** What the model's answer amounts to before it is graded. */
  function Judge(r: Reader, payload: Json, known: set<string>): Outcome
    requires payload.Object?
  {
    var executive := NormalizeExecutive(r, Get(payload.fields, "executive_summary"), known);
    var roadmap := NormalizeRoadmap(r, Get(payload.fields, "remediation_roadmap"), known);
    if executive.None? || roadmap.None? then
      Unavailable(if ForeignIds(r, payload, known) != {} then IdMismatch else SchemaFailure)
    else if SeriousForeignIds(r, payload, known) != {} then Unavailable(IdMismatch)
    else Published(executive.value, roadmap.value)
  }

  /** The second model supports the text; its silence or nonsense does not. */
  predicate Supports(r: Reader, reply: Reply) {
    && reply.Answer? && reply.payload.Object?
    && Truthy(Get(reply.payload.fields, "supported"))
    && !SaysUnavailable(r, Get(reply.payload.fields, "unsupported_claims"))
  }

  predicate SaysUnavailable(r: Reader, claims: Json) {
    Truthy(claims) && (if claims.List? then ShownList(r, claims.items) else [r.Str(claims)]) == ["grader_unavailable"]
  }

  /** The model behind the invoker: its replies are arbitrary, one per call. */
  class Model {
    const replies: nat -> Reply
    var calls: nat

    constructor (replies: nat -> Reply)
      ensures this.replies == replies && calls == 0
    {
      this.replies := replies;
      calls := 0;
    }

    method Ask() returns (reply: Reply)
      modifies this
      ensures calls == old(calls) + 1 && reply == replies(old(calls))
    {
      reply := replies(calls);
      calls := calls + 1;
    }
  }

  /** The outcome of a run whose first reply is about the summary and whose second
      is the grading one's. */
  function Synthesis(r: Reader, rows: seq<S.Row>, configured: bool, maxCalls: int, summary: Reply, grade: Reply)
    : Outcome
  {
    if !configured then Skipped
    else if !AnyActionable(rows) then Template
    else if maxCalls <= 0 then Unavailable(CallBudget)
    else
      var judged := JudgeReply(r, summary, KnownIds(rows));
      if judged.Published? && maxCalls > 1 && !Supports(r, grade) then Unavailable(GraderFlag) else judged
  }

  function JudgeReply(r: Reader, reply: Reply, known: set<string>): Outcome {
    match reply
    case NoResponse(error) => Unavailable(NoResponseReason(error))
    case NoObject => Unavailable(SchemaFailure)
    case Answer(payload) => if payload.Object? then Judge(r, payload, known) else Unavailable(SchemaFailure)
  }

  /** How many calls a run makes. */
  function CallsMade(r: Reader, rows: seq<S.Row>, configured: bool, maxCalls: int, summary: Reply): nat {
    if !configured || !AnyActionable(rows) || maxCalls <= 0 then 0
    else if maxCalls > 1 && JudgeReply(r, summary, KnownIds(rows)).Published? then 2
    else 1
  }

  method RunAiSynthesis(r: Reader, rows: seq<S.Row>, configured: bool, maxCalls: int, model: Model)
    returns (outcome: Outcome, llmCalls: nat)
    requires model.calls == 0
    modifies model
    ensures outcome == Synthesis(r, EnsureFindingIds(rows), configured, maxCalls, model.replies(0), model.replies(1))
    ensures llmCalls == model.calls == CallsMade(r, EnsureFindingIds(rows), configured, maxCalls, model.replies(0))
    ensures model.calls <= if maxCalls > 0 then maxCalls else 0
  {
    var findings := EnsureFindingIds(rows);
    llmCalls := 0;
    if !configured {
      return Skipped, llmCalls;
    }
    if !AnyActionable(findings) {
      return Template, llmCalls;
    }
    if llmCalls >= maxCalls {
      return Unavailable(CallBudget), llmCalls;
    }
    var reply := model.Ask();
    llmCalls := llmCalls + 1;
    outcome := JudgeReply(r, reply, KnownIds(findings));
    if outcome.Published? && llmCalls < maxCalls {
      var grade := model.Ask();
      llmCalls := llmCalls + 1;
      if !Supports(r, grade) {
        outcome := Unavailable(GraderFlag);
      }
    }
  }

  /* What is published. */

  lemma NormalizedExecutive(r: Reader, raw: Json, known: set<string>)
    requires NormalizeExecutive(r, raw, known).Some?
    ensures var e := NormalizeExecutive(r, raw, known).value;
            e.summary != "" && e.impact != "" && (e.topRisk.Some? ==> e.topRisk.value in known)
  {
  }

  /** The id belongs to a finding that was confirmed or tool-attested. */
  ghost predicate VerifiedId(rows: seq<S.Row>, id: string) {
    exists i :: 0 <= i < |rows| && Eligible(rows[i]) && rows[i].id == id
  }

  lemma KnownIsVerified(rows: seq<S.Row>)
    ensures forall id :: id in KnownIds(rows) <==> VerifiedId(rows, id)
  {
  }

  lemma NoSeriousForeignIff(r: Reader, payload: Json, known: set<string>)
    ensures SeriousForeignIds(r, payload, known) == {}
            <==> forall id :: Refers(r, payload, id) ==> id in known || NoId(id)
  {
    forall id ensures id in ReferencedIds(r, payload) <==> Refers(r, payload, id) {
      WalkFindsEveryReference(r, payload, id);
    }
    if SeriousForeignIds(r, payload, known) == {} {
      forall id | Refers(r, payload, id) ensures id in known || NoId(id) {
        assert id !in SeriousForeignIds(r, payload, known);
      }
    }
  }

  /** Every id the value refers to, at any depth, is a verified finding's, or no
      id at all. */
  ghost predicate OnlyVerifiedReferences(r: Reader, payload: Json, rows: seq<S.Row>) {
    forall id :: Refers(r, payload, id) ==> NoId(id) || VerifiedId(rows, id)
  }

  lemma NoSeriousForeignIsOnlyVerified(r: Reader, payload: Json, rows: seq<S.Row>)
    ensures SeriousForeignIds(r, payload, KnownIds(rows)) == {} <==> OnlyVerifiedReferences(r, payload, rows)
  {
    NoSeriousForeignIff(r, payload, KnownIds(rows));
    KnownIsVerified(rows);
  }

  /** The two parts of the answer have the required form. */
  predicate WellFormed(r: Reader, payload: Json, known: set<string>) {
    && payload.Object?
    && NormalizeExecutive(r, Get(payload.fields, "executive_summary"), known).Some?
    && NormalizeRoadmap(r, Get(payload.fields, "remediation_roadmap"), known).Some?
  }

  lemma JudgedPublishedIff(r: Reader, payload: Json, rows: seq<S.Row>)
    ensures JudgeReply(r, Answer(payload), KnownIds(rows)).Published?
            <==> WellFormed(r, payload, KnownIds(rows)) && OnlyVerifiedReferences(r, payload, rows)
  {
    NoSeriousForeignIsOnlyVerified(r, payload, rows);
  }

  /** Exactly when model text reaches the report: it is asked for, well formed,
      refers to verified findings only, and is graded as supported unless the
      budget ended with the first call. */
  lemma PublishedIff(r: Reader, rows: seq<S.Row>, configured: bool, maxCalls: int, summary: Reply, grade: Reply)
    ensures Synthesis(r, rows, configured, maxCalls, summary, grade).Published?
            <==> && configured && AnyActionable(rows) && maxCalls >= 1
                 && summary.Answer?
                 && WellFormed(r, summary.payload, KnownIds(rows))
                 && OnlyVerifiedReferences(r, summary.payload, rows)
                 && (maxCalls == 1 || Supports(r, grade))
  {
    if summary.Answer? {
      JudgedPublishedIff(r, summary.payload, rows);
    }
  }

  ghost predicate VerifiedStep(s: Step, rows: seq<S.Row>) {
    s.findingIds != [] && forall i :: 0 <= i < |s.findingIds| ==> VerifiedId(rows, s.findingIds[i])
  }

  /** What is published names verified findings: as the top risk, if any, and in
      every step of the roadmap, of which none is empty. */
  lemma PublishedIsGrounded(r: Reader, rows: seq<S.Row>, configured: bool, maxCalls: int, summary: Reply, grade: Reply)
    requires Synthesis(r, rows, configured, maxCalls, summary, grade).Published?
    ensures var o := Synthesis(r, rows, configured, maxCalls, summary, grade);
            && o.executive.summary != ""
            && (o.executive.topRisk.Some? ==> VerifiedId(rows, o.executive.topRisk.value))
            && forall i :: 0 <= i < |o.roadmap| ==> VerifiedStep(o.roadmap[i], rows)
  {
    var o := Synthesis(r, rows, configured, maxCalls, summary, grade);
    var known := KnownIds(rows);
    JudgedIsGrounded(r, summary.payload, known);
    KnownIsVerified(rows);
    forall i | 0 <= i < |o.roadmap| ensures VerifiedStep(o.roadmap[i], rows) {
      assert Grounded(o.roadmap[i], known);
    }
  }

  lemma JudgedIsGrounded(r: Reader, payload: Json, known: set<string>)
    requires payload.Object? && Judge(r, payload, known).Published?
    ensures var o := Judge(r, payload, known);
            && o.executive.summary != ""
            && (o.executive.topRisk.Some? ==> o.executive.topRisk.value in known)
            && forall i :: 0 <= i < |o.roadmap| ==> Grounded(o.roadmap[i], known)
  {
    var executive, roadmap := Get(payload.fields, "executive_summary"), Get(payload.fields, "remediation_roadmap");
    NormalizedExecutive(r, executive, known);
    StepsAreGrounded(r, roadmap.items, known);
  }
}
