/** What a published AI text consists of, told on the findings and on the model's
    own JSON, and why a text is not published.
 */
module AiPublication {
  import opened Wrappers
  import opened AiSynthesis
  import L = TextLaws
  import S = Scoring
  import T = Text

  /* The data. */

  /** Verification confirmed the finding, or its tool attests it. */
  ghost predicate Attested(row: S.Row) {
    T.Lower(T.Strip(row.status)) in {"confirmed", "tool_attested"}
  }

  ghost predicate AttestedId(rows: seq<S.Row>, id: string) {
    exists i :: 0 <= i < |rows| && Attested(rows[i]) && rows[i].id == id
  }

  ghost predicate Blank(text: string) {
    T.Lower(text) in {"", "null", "none"}
  }

  /** The values that count as false. */
  ghost predicate Falsy(j: Json) {
    j in {Null, Bool(false), Number(0.0), Text(""), List([]), Object([])}
  }

  lemma TruthyIffNotFalsy(j: Json)
    ensures Truthy(j) <==> !Falsy(j)
  {
  }

  /** Under a key stands the first value with that key, and null if there is none. */
  lemma {:induction false} GetFindsFirst(fields: seq<(string, Json)>, key: string, i: nat)
    requires i <= |fields| && (forall k :: 0 <= k < i ==> fields[k].0 != key)
    requires i < |fields| ==> fields[i].0 == key
    ensures Get(fields, key) == if i < |fields| then fields[i].1 else Null
  {
    if i > 0 {
      GetFindsFirst(fields[1..], key, i - 1);
    }
  }

  lemma LowerNothing(text: string)
    ensures T.Lower(text) == "" <==> text == ""
  {
    assert |T.Lower(text)| == |text|;
  }

  lemma BlankIsNoId(text: string)
    ensures NoId(text) <==> Blank(text)
  {
    LowerNothing(text);
  }

  lemma EligibleIsAttested(row: S.Row)
    ensures Eligible(row) <==> Attested(row)
  {
  }

  lemma KnownIsAttested(rows: seq<S.Row>, id: string)
    ensures id in KnownIds(rows) <==> AttestedId(rows, id)
  {
    KnownIsVerified(rows);
    forall i | 0 <= i < |rows| ensures Eligible(rows[i]) <==> Attested(rows[i]) {
      EligibleIsAttested(rows[i]);
    }
  }

  /* What an entry names. */

  ghost predicate EntryAt(root: Json, path: seq<nat>, i: nat, key: string, value: Json) {
    && At(root, path).Some? && At(root, path).value.Object?
    && i < |At(root, path).value.fields| && At(root, path).value.fields[i] == (key, value)
  }

  lemma SingleKeys(r: Reader, key: string, value: Json)
    requires T.Lower(key) in {"finding_id", "top_risk_finding_id", "id"} && value != Null
    ensures r.Str(value) in NamedIds(r, key, value)
  {
  }

  lemma ListKeys(r: Reader, key: string, items: seq<Json>, k: nat)
    requires T.Lower(key) in {"finding_ids", "ids"} && k < |items|
    ensures r.Str(items[k]) in NamedIds(r, key, List(items))
  {
    assert r.Str(items[k]) in Shown(r, items);
  }

  lemma EntryRefers(r: Reader, root: Json, path: seq<nat>, i: nat, key: string, value: Json, id: string)
    requires EntryAt(root, path, i, key, value) && id in NamedIds(r, key, value)
    ensures Refers(r, root, id)
  {
    var node := At(root, path).value;
    assert id in NamedIds(r, node.fields[i].0, node.fields[i].1);
    assert RefersAt(r, root, path, id);
  }

  /** In a published answer, at any depth, an entry that names a finding names an
      attested one, or says that there is none. */
  lemma PublishedNamesAttested(r: Reader, rows: seq<S.Row>, configured: bool, maxCalls: int, summary: Reply,
                               grade: Reply, path: seq<nat>, i: nat, key: string, value: Json)
    requires Synthesis(r, rows, configured, maxCalls, summary, grade).Published?
    requires summary.Answer? && EntryAt(summary.payload, path, i, key, value)
    ensures T.Lower(key) in {"finding_id", "top_risk_finding_id", "id"} && value != Null ==>
              AttestedId(rows, r.Str(value)) || Blank(r.Str(value))
    ensures T.Lower(key) in {"finding_ids", "ids"} && value.List? ==>
              forall k :: 0 <= k < |value.items| ==>
                AttestedId(rows, r.Str(value.items[k])) || Blank(r.Str(value.items[k]))
  {
    PublishedIff(r, rows, configured, maxCalls, summary, grade);
    if T.Lower(key) in {"finding_id", "top_risk_finding_id", "id"} && value != Null {
      SingleKeys(r, key, value);
      NamedIsAttested(r, rows, summary.payload, path, i, key, value, r.Str(value));
    }
    if T.Lower(key) in {"finding_ids", "ids"} && value.List? {
      forall k | 0 <= k < |value.items|
        ensures AttestedId(rows, r.Str(value.items[k])) || Blank(r.Str(value.items[k]))
      {
        ListKeys(r, key, value.items, k);
        NamedIsAttested(r, rows, summary.payload, path, i, key, value, r.Str(value.items[k]));
      }
    }
  }

  lemma NamedIsAttested(r: Reader, rows: seq<S.Row>, payload: Json, path: seq<nat>, i: nat, key: string, value: Json,
                        id: string)
    requires OnlyVerifiedReferences(r, payload, rows)
    requires EntryAt(payload, path, i, key, value) && id in NamedIds(r, key, value)
    ensures AttestedId(rows, id) || Blank(id)
  {
    EntryRefers(r, payload, path, i, key, value, id);
    ReferenceIsAttested(r, rows, payload, id);
  }

  lemma ReferenceIsAttested(r: Reader, rows: seq<S.Row>, payload: Json, id: string)
    requires OnlyVerifiedReferences(r, payload, rows) && Refers(r, payload, id)
    ensures AttestedId(rows, id) || Blank(id)
  {
    BlankIsNoId(id);
    KnownIsVerified(rows);
    KnownIsAttested(rows, id);
  }

  /** And so does every text of it, at any depth, as far as ids are seen in it. */
  lemma PublishedProseNamesAttested(r: Reader, rows: seq<S.Row>, configured: bool, maxCalls: int, summary: Reply,
                                    grade: Reply, path: seq<nat>, id: string)
    requires Synthesis(r, rows, configured, maxCalls, summary, grade).Published?
    requires summary.Answer? && At(summary.payload, path).Some? && At(summary.payload, path).value.Text?
    requires id in r.idsIn(At(summary.payload, path).value.text)
    ensures AttestedId(rows, id) || Blank(id)
  {
    PublishedIff(r, rows, configured, maxCalls, summary, grade);
    assert RefersAt(r, summary.payload, path, id);
    ReferenceIsAttested(r, rows, summary.payload, id);
  }

  /* What is published. */

  /** The text under a key, trimmed; a value that counts as false is no text. */
  ghost function Trim(r: Reader, fields: seq<(string, Json)>, key: string): string {
    if Falsy(Get(fields, key)) then "" else T.Strip(r.Str(Get(fields, key)))
  }

  ghost predicate IsExecutive(r: Reader, rows: seq<S.Row>, raw: Json, e: Executive) {
    && raw.Object?
    && e.summary == Trim(r, raw.fields, "summary_text") != ""
    && e.impact == Trim(r, raw.fields, "business_impact_one_liner") != ""
    && var top := Get(raw.fields, "top_risk_finding_id");
       if top == Null || Blank(T.Strip(r.Str(top))) then e.topRisk == None
       else e.topRisk == Some(r.Str(top)) && AttestedId(rows, r.Str(top))
  }

  /** The ids of an entry are those of its list, under the first of the two keys
      that has something; a lone text is a list of one. */
  ghost predicate IsIdList(r: Reader, fields: seq<(string, Json)>, ids: seq<string>) {
    var first, second := Get(fields, "finding_ids"), Get(fields, "ids");
    var chosen := if Falsy(first) then second else first;
    && !Falsy(chosen) && ids != []
    && match chosen
       case Text(text) => ids == [text]
       case List(items) => |ids| == |items| && forall k :: 0 <= k < |items| ==> ids[k] == r.Str(items[k])
       case _ => false
  }

  ghost predicate IsStep(r: Reader, rows: seq<S.Row>, entry: Json, s: Step) {
    && entry.Object?
    && IsIdList(r, entry.fields, s.findingIds)
    && (forall k :: 0 <= k < |s.findingIds| ==> AttestedId(rows, s.findingIds[k]))
    && s.effort == T.Lower(Trim(r, entry.fields, "estimated_effort"))
    && s.effort in {"trivial", "moderate", "significant"}
    && s.rationale == Trim(r, entry.fields, "rationale") != ""
  }

  lemma WordsAreTrimmed(r: Reader, fields: seq<(string, Json)>, key: string)
    ensures Words(r, Get(fields, key)) == Trim(r, fields, key)
  {
    TruthyIffNotFalsy(Get(fields, key));
  }

  lemma ExecutiveIs(r: Reader, rows: seq<S.Row>, raw: Json)
    requires NormalizeExecutive(r, raw, KnownIds(rows)).Some?
    ensures IsExecutive(r, rows, raw, NormalizeExecutive(r, raw, KnownIds(rows)).value)
  {
    var top := Get(raw.fields, "top_risk_finding_id");
    WordsAreTrimmed(r, raw.fields, "summary_text");
    WordsAreTrimmed(r, raw.fields, "business_impact_one_liner");
    BlankIsNoId(T.Strip(r.Str(top)));
    KnownIsAttested(rows, r.Str(top));
  }

  lemma StepIs(r: Reader, rows: seq<S.Row>, entry: Json)
    requires NormalizeStep(r, entry, KnownIds(rows)).Some?
    ensures IsStep(r, rows, entry, NormalizeStep(r, entry, KnownIds(rows)).value)
  {
    var s := NormalizeStep(r, entry, KnownIds(rows)).value;
    WordsAreTrimmed(r, entry.fields, "estimated_effort");
    WordsAreTrimmed(r, entry.fields, "rationale");
    LowerNothing(Words(r, Get(entry.fields, "estimated_effort")));
    EntryIdsAre(r, entry.fields);
    forall k | 0 <= k < |s.findingIds| ensures AttestedId(rows, s.findingIds[k]) {
      KnownIsAttested(rows, s.findingIds[k]);
    }
  }

  lemma EntryIdsAre(r: Reader, fields: seq<(string, Json)>)
    requires EntryIds(fields).List? && EntryIds(fields).items != []
    ensures IsIdList(r, fields, ShownList(r, EntryIds(fields).items))
  {
    TruthyIffNotFalsy(Get(fields, "finding_ids"));
    TruthyIffNotFalsy(Get(fields, "ids"));
  }

  ghost predicate AreSteps(r: Reader, rows: seq<S.Row>, items: seq<Json>, steps: seq<Step>) {
    |steps| == |items| && forall i :: 0 <= i < |steps| ==> IsStep(r, rows, items[i], steps[i])
  }

  lemma StepsAppended(r: Reader, rows: seq<S.Row>, items: seq<Json>, steps: seq<Step>, entry: Json, s: Step)
    ensures AreSteps(r, rows, items, steps) && IsStep(r, rows, entry, s)
            <==> AreSteps(r, rows, items + [entry], steps + [s]) && |items| == |steps|
  {
    if AreSteps(r, rows, items + [entry], steps + [s]) && |items| == |steps| {
      assert (steps + [s])[|steps|] == s && (items + [entry])[|items|] == entry;
      forall i | 0 <= i < |steps| ensures IsStep(r, rows, items[i], steps[i]) {
        assert (steps + [s])[i] == steps[i] && (items + [entry])[i] == items[i];
      }
    }
  }

  lemma {:induction false} StepsAre(r: Reader, rows: seq<S.Row>, items: seq<Json>, steps: seq<Step>)
    requires NormalizeSteps(r, items, KnownIds(rows)) == Some(steps)
    ensures AreSteps(r, rows, items, steps)
  {
    if items != [] {
      var front, last := items[..|items| - 1], items[|items| - 1];
      var frontSteps, lastStep := steps[..|steps| - 1], steps[|steps| - 1];
      assert items == front + [last] && steps == frontSteps + [lastStep];
      StepsAre(r, rows, front, frontSteps);
      StepIs(r, rows, last);
      StepsAppended(r, rows, front, frontSteps, last, lastStep);
    }
  }

  /** What is published is what the model wrote: the two texts under their keys,
      trimmed, the top risk, and one step per entry, in order; ids of attested
      findings throughout. */
  lemma PublishedIsWhatWasWritten(r: Reader, rows: seq<S.Row>, configured: bool, maxCalls: int, summary: Reply,
                                  grade: Reply)
    requires Synthesis(r, rows, configured, maxCalls, summary, grade).Published?
    ensures var o := Synthesis(r, rows, configured, maxCalls, summary, grade);
            && summary.Answer? && summary.payload.Object?
            && IsExecutive(r, rows, Get(summary.payload.fields, "executive_summary"), o.executive)
            && var roadmap := Get(summary.payload.fields, "remediation_roadmap");
               roadmap.List? && AreSteps(r, rows, roadmap.items, o.roadmap)
  {
    PublishedIff(r, rows, configured, maxCalls, summary, grade);
    var fields := summary.payload.fields;
    ExecutiveIs(r, rows, Get(fields, "executive_summary"));
    StepsAre(r, rows, Get(fields, "remediation_roadmap").items,
        Synthesis(r, rows, configured, maxCalls, summary, grade).roadmap);
  }

  /* Exactly when. */

  lemma ExecutiveOf(r: Reader, rows: seq<S.Row>, raw: Json, e: Executive)
    requires IsExecutive(r, rows, raw, e)
    ensures NormalizeExecutive(r, raw, KnownIds(rows)) == Some(e)
  {
    var top := Get(raw.fields, "top_risk_finding_id");
    WordsAreTrimmed(r, raw.fields, "summary_text");
    WordsAreTrimmed(r, raw.fields, "business_impact_one_liner");
    BlankIsNoId(T.Strip(r.Str(top)));
    KnownIsAttested(rows, r.Str(top));
  }

  lemma EntryIdsOf(r: Reader, fields: seq<(string, Json)>, ids: seq<string>)
    requires IsIdList(r, fields, ids)
    ensures EntryIds(fields).List? && EntryIds(fields).items != [] && ShownList(r, EntryIds(fields).items) == ids
  {
    TruthyIffNotFalsy(Get(fields, "finding_ids"));
    TruthyIffNotFalsy(Get(fields, "ids"));
  }

  lemma StepOf(r: Reader, rows: seq<S.Row>, entry: Json, s: Step)
    requires IsStep(r, rows, entry, s)
    ensures NormalizeStep(r, entry, KnownIds(rows)) == Some(s)
  {
    WordsAreTrimmed(r, entry.fields, "estimated_effort");
    WordsAreTrimmed(r, entry.fields, "rationale");
    EntryIdsOf(r, entry.fields, s.findingIds);
    forall k | 0 <= k < |s.findingIds| ensures s.findingIds[k] in KnownIds(rows) {
      KnownIsAttested(rows, s.findingIds[k]);
    }
  }

  lemma {:induction false} StepsOf(r: Reader, rows: seq<S.Row>, items: seq<Json>, steps: seq<Step>)
    requires AreSteps(r, rows, items, steps)
    ensures NormalizeSteps(r, items, KnownIds(rows)) == Some(steps)
  {
    if items != [] {
      var front, last := items[..|items| - 1], items[|items| - 1];
      var frontSteps, lastStep := steps[..|steps| - 1], steps[|steps| - 1];
      assert items == front + [last] && steps == frontSteps + [lastStep];
      StepsAppended(r, rows, front, frontSteps, last, lastStep);
      StepsOf(r, rows, front, frontSteps);
      StepOf(r, rows, last, lastStep);
    }
  }

  /** The answer has a summary and a roadmap of the required form. */
  ghost predicate HasForm(r: Reader, rows: seq<S.Row>, payload: Json) {
    && payload.Object?
    && (exists e :: IsExecutive(r, rows, Get(payload.fields, "executive_summary"), e))
    && var roadmap := Get(payload.fields, "remediation_roadmap");
       roadmap.List? && exists steps :: AreSteps(r, rows, roadmap.items, steps)
  }

  lemma WellFormedIff(r: Reader, rows: seq<S.Row>, payload: Json)
    ensures WellFormed(r, payload, KnownIds(rows)) <==> HasForm(r, rows, payload)
  {
    if WellFormed(r, payload, KnownIds(rows)) {
      ExecutiveIs(r, rows, Get(payload.fields, "executive_summary"));
      var items := Get(payload.fields, "remediation_roadmap").items;
      StepsAre(r, rows, items, NormalizeSteps(r, items, KnownIds(rows)).value);
    }
    if HasForm(r, rows, payload) {
      var e :| IsExecutive(r, rows, Get(payload.fields, "executive_summary"), e);
      ExecutiveOf(r, rows, Get(payload.fields, "executive_summary"), e);
      var roadmap := Get(payload.fields, "remediation_roadmap");
      var steps :| AreSteps(r, rows, roadmap.items, steps);
      StepsOf(r, rows, roadmap.items, steps);
    }
  }

  /** An id is mentioned at a path: under a key for one id, in the list under a key
      for several, or in a text. */
  ghost predicate MentionedAt(r: Reader, root: Json, path: seq<nat>, id: string) {
    At(root, path).Some? && MentionedHere(r, At(root, path).value, id)
  }

  ghost predicate MentionedHere(r: Reader, node: Json, id: string) {
    match node
    case Object(fields) => exists i :: 0 <= i < |fields| && Mentions(r, fields[i].0, fields[i].1, id)
    case Text(text) => id in r.idsIn(text)
    case _ => false
  }

  ghost predicate Mentions(r: Reader, key: string, value: Json, id: string) {
    || (T.Lower(key) in {"finding_id", "top_risk_finding_id", "id"} && value != Null && r.Str(value) == id)
    || (T.Lower(key) in {"finding_ids", "ids"} && value.List?
        && exists k :: 0 <= k < |value.items| && r.Str(value.items[k]) == id)
  }

  lemma MentionsIffNamed(r: Reader, key: string, value: Json, id: string)
    ensures Mentions(r, key, value, id) <==> id in NamedIds(r, key, value)
  {
  }

  lemma MentionedIffRefers(r: Reader, node: Json, id: string)
    ensures MentionedHere(r, node, id) <==> RefersHere(r, node, id)
  {
    if node.Object? {
      forall i | 0 <= i < |node.fields|
        ensures Mentions(r, node.fields[i].0, node.fields[i].1, id)
                <==> id in NamedIds(r, node.fields[i].0, node.fields[i].1)
      {
        MentionsIffNamed(r, node.fields[i].0, node.fields[i].1, id);
      }
    }
  }

  ghost predicate MentionsAttestedOnly(r: Reader, rows: seq<S.Row>, payload: Json) {
    forall path, id :: MentionedAt(r, payload, path, id) ==> AttestedId(rows, id) || Blank(id)
  }

  lemma OnlyVerifiedIff(r: Reader, rows: seq<S.Row>, payload: Json)
    ensures OnlyVerifiedReferences(r, payload, rows) <==> MentionsAttestedOnly(r, rows, payload)
  {
    if OnlyVerifiedReferences(r, payload, rows) {
      forall path, id | MentionedAt(r, payload, path, id) ensures AttestedId(rows, id) || Blank(id) {
        MentionedIffRefers(r, At(payload, path).value, id);
        assert RefersAt(r, payload, path, id);
        ReferenceIsAttested(r, rows, payload, id);
      }
    }
    if MentionsAttestedOnly(r, rows, payload) {
      forall id | Refers(r, payload, id) ensures NoId(id) || VerifiedId(rows, id) {
        var path :| RefersAt(r, payload, path, id);
        MentionedIffRefers(r, At(payload, path).value, id);
        assert MentionedAt(r, payload, path, id);
        BlankIsNoId(id);
        KnownIsVerified(rows);
        KnownIsAttested(rows, id);
      }
    }
  }

  /** An attested finding with a severity above informational. */
  ghost predicate WorthASummary(rows: seq<S.Row>) {
    exists i :: 0 <= i < |rows| && Attested(rows[i]) && T.Lower(rows[i].severity) !in {"", "info"}
  }

  lemma ActionableIff(rows: seq<S.Row>)
    ensures AnyActionable(rows) <==> WorthASummary(rows)
  {
    forall i | 0 <= i < |rows|
      ensures Actionable(rows[i]) <==> Attested(rows[i]) && T.Lower(rows[i].severity) !in {"", "info"}
    {
      LowerNothing(rows[i].severity);
      EligibleIsAttested(rows[i]);
    }
  }

  /** The second model's answer says so, and the one thing it calls unsupported is not
      that it was unavailable. */
  ghost predicate GradedAsSupported(r: Reader, grade: Reply) {
    && grade.Answer? && grade.payload.Object?
    && !Falsy(Get(grade.payload.fields, "supported"))
    && match Get(grade.payload.fields, "unsupported_claims")
       case List(items) => |items| == 1 ==> r.Str(items[0]) != "grader_unavailable"
       case claims => Falsy(claims) || r.Str(claims) != "grader_unavailable"
  }

  lemma SupportsIff(r: Reader, grade: Reply)
    ensures Supports(r, grade) <==> GradedAsSupported(r, grade)
  {
    if grade.Answer? && grade.payload.Object? {
      var claims := Get(grade.payload.fields, "unsupported_claims");
      TruthyIffNotFalsy(Get(grade.payload.fields, "supported"));
      TruthyIffNotFalsy(claims);
      if claims.List? {
        assert |ShownList(r, claims.items)| == |claims.items|;
        if |claims.items| == 1 {
          assert claims.items == [claims.items[0]];
          assert ShownList(r, claims.items) == [r.Str(claims.items[0])];
        }
      }
    }
  }

  /** Told on the data alone: model text is published if and only if a model is
      configured, a finding is worth it, there is budget for a call, the answer has
      the form, mentions attested findings only, and is graded as supported or the
      budget was one call. */
  lemma PublishedIffAttested(r: Reader, rows: seq<S.Row>, configured: bool, maxCalls: int, summary: Reply, grade: Reply)
    ensures Synthesis(r, rows, configured, maxCalls, summary, grade).Published?
            <==> && configured && WorthASummary(rows) && maxCalls >= 1
                 && summary.Answer?
                 && HasForm(r, rows, summary.payload)
                 && MentionsAttestedOnly(r, rows, summary.payload)
                 && (maxCalls == 1 || GradedAsSupported(r, grade))
  {
    PublishedIff(r, rows, configured, maxCalls, summary, grade);
    ActionableIff(rows);
    SupportsIff(r, grade);
    if summary.Answer? {
      WellFormedIff(r, rows, summary.payload);
      OnlyVerifiedIff(r, rows, summary.payload);
    }
  }

  /* Why not. */

  /** Some mention at any depth is of no attested finding; `strict` counts the texts
      that mean no id as well, the empty one aside. */
  ghost predicate MentionsAnother(r: Reader, rows: seq<S.Row>, payload: Json, strict: bool) {
    exists path, id ::
      MentionedAt(r, payload, path, id) && !AttestedId(rows, id) && (if strict then id != "" else !Blank(id))
  }

  lemma ForeignIff(r: Reader, rows: seq<S.Row>, payload: Json)
    ensures ForeignIds(r, payload, KnownIds(rows)) != {} <==> MentionsAnother(r, rows, payload, true)
  {
    var foreign := ForeignIds(r, payload, KnownIds(rows));
    if foreign != {} {
      var id :| id in foreign;
      WalkFindsEveryReference(r, payload, id);
      var path :| RefersAt(r, payload, path, id);
      MentionedIffRefers(r, At(payload, path).value, id);
      KnownIsAttested(rows, id);
      assert MentionedAt(r, payload, path, id);
    }
    if path, id :| MentionedAt(r, payload, path, id) && !AttestedId(rows, id) && id != "" {
      MentionedIffRefers(r, At(payload, path).value, id);
      assert RefersAt(r, payload, path, id);
      WalkFindsEveryReference(r, payload, id);
      KnownIsAttested(rows, id);
      assert id in foreign;
    }
  }

  /** The reason given for an answer that is not published before it is graded: ids
      if it mentions another finding, its form otherwise. */
  lemma AnswerIsRefusedFor(r: Reader, rows: seq<S.Row>, payload: Json)
    requires payload.Object?
    ensures var judged := JudgeReply(r, Answer(payload), KnownIds(rows));
            && (judged == Unavailable(IdMismatch)
                <==> if HasForm(r, rows, payload) then !MentionsAttestedOnly(r, rows, payload)
                     else MentionsAnother(r, rows, payload, true))
            && (judged == Unavailable(SchemaFailure)
                <==> !HasForm(r, rows, payload) && !MentionsAnother(r, rows, payload, true))
  {
    WellFormedIff(r, rows, payload);
    OnlyVerifiedIff(r, rows, payload);
    ForeignIff(r, rows, payload);
    NoSeriousForeignIsOnlyVerified(r, payload, rows);
  }

  /** And for the rest: no model, nothing to summarise, no budget, no answer, no
      object in it, no support. */
  lemma RunIsCutShortFor(r: Reader, rows: seq<S.Row>, configured: bool, maxCalls: int, summary: Reply, grade: Reply)
    ensures var o := Synthesis(r, rows, configured, maxCalls, summary, grade);
            && (o == Skipped <==> !configured)
            && (o == Template <==> configured && !WorthASummary(rows))
            && (o == Unavailable(CallBudget) <==> configured && WorthASummary(rows) && maxCalls <= 0)
            && (configured && WorthASummary(rows) && maxCalls >= 1 ==>
                  match summary
                  case NoObject => o == Unavailable(SchemaFailure)
                  case NoResponse(error) =>
                    && (o == Unavailable(NoApiKey) <==> error == "no_api_key")
                    && (o == Unavailable(Timeout) <==>
                          error != "no_api_key" && exists i :: 0 <= i <= |error| && "timeout" <= error[i..])
                    && (o == Unavailable(AllProvidersFailed) <==>
                          error != "no_api_key" && !exists i :: 0 <= i <= |error| && "timeout" <= error[i..])
                  case Answer(payload) =>
                    o == Unavailable(GraderFlag)
                    <==> && JudgeReply(r, summary, KnownIds(rows)).Published? && maxCalls > 1
                         && !GradedAsSupported(r, grade))
  {
    ActionableIff(rows);
    SupportsIff(r, grade);
    if summary.NoResponse? {
      L.ContainsIff(summary.error, "timeout");
    }
  }

  /** The stage gives every finding an id, keeps those it has, and changes nothing else. */
  lemma EveryFindingGetsAnId(rows: seq<S.Row>, i: nat)
    requires i < |rows|
    ensures var out := EnsureFindingIds(rows);
            && |out| == |rows| && out[i].id != "" && out[i] == rows[i].(id := out[i].id)
            && out[i].id == if rows[i].id != "" then rows[i].id else rows[i].tool + "-" + T.Decimal(i)
  {
    S.IdsStay(rows[i], i);
  }
}
