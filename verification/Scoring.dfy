/** Scoring: every finding gets a canonical severity, a CVSS-like score, a
    clamped confidence and an id; the scan gets one overall risk number.
 */
module Scoring {
  import opened Wrappers
  import opened Findings
  import opened Sorting
  import T = Text

  /** A finding as the scan state holds it. An empty `id` or `status` stands for
      a missing one; `cvss` is the top-level score, `scores` are the other
      places a native score is looked for, in order. */
  datatype Row = Row(
    id: string,
    tool: string,
    kind: string,
    url: string,
    severity: string,
    evidence: string,
    confidence: real,
    cvss: Option<real>,
    scores: seq<Option<real>>,
    status: string,
    falsePositive: bool)

  const SEVERITIES := {Info, Low, Medium, High, Critical}

  lemma EverySeverityListed(s: Severity)
    ensures s in SEVERITIES
  {
  }

  function SeverityName(s: Severity): string {
    match s
    case Info => "info"
    case Low => "low"
    case Medium => "medium"
    case High => "high"
    case Critical => "critical"
  }

  function NormalizeSeverity(raw: string): Severity {
    var s := T.Lower(T.Strip(raw));
    if s == "low" then Low
    else if s == "moderate" || s == "medium" || s == "med" then Medium
    else if s == "high" || s == "important" then High
    else if s == "critical" || s == "severe" then Critical
    else Info
  }

  /** Rounding to the nearest integer, halves to the even one. */
  function RoundInt(x: real): int {
    var below := x.Floor;
    var rest := x - below as real;
    if rest < 0.5 then below
    else if rest > 0.5 then below + 1
    else if below % 2 == 0 then below else below + 1
  }

  function RoundTenths(x: real): real { RoundInt(x * 10.0) as real / 10.0 }

  function RoundHundredths(x: real): real { RoundInt(x * 100.0) as real / 100.0 }

  function ClampScore(x: real): real {
    if x < 0.0 then 0.0 else if x > 10.0 then 10.0 else RoundTenths(x)
  }

  function ClampConfidence(x: real): real {
    if x < 0.0 then 0.0 else if x > 1.0 then 1.0 else RoundHundredths(x)
  }

  function TableScore(s: Severity): real {
    match s
    case Info => 1.0
    case Low => 3.0
    case Medium => 5.5
    case High => 8.0
    case Critical => 9.5
  }

  function Weight(s: Severity): real {
    match s
    case Info => 0.5
    case Low => 1.0
    case Medium => 3.0
    case High => 6.0
    case Critical => 10.0
  }

  function SeverityFromScore(score: real): Severity {
    if score >= 9.0 then Critical
    else if score >= 7.0 then High
    else if score >= 4.0 then Medium
    else if score >= 1.0 then Low
    else Info
  }

  function FirstScore(candidates: seq<Option<real>>): Option<real> {
    if candidates == [] then None
    else if candidates[0].Some? then Some(ClampScore(candidates[0].value))
    else FirstScore(candidates[1..])
  }

  function NativeScore(r: Row): Option<real> {
    FirstScore([r.cvss] + r.scores)
  }

  /** What scoring decides about one finding. */
  datatype Score = Score(severity: Severity, score: real, confidence: real)

  /** A native score decides, unless the declared severity is higher; without a
      native score the declared severity decides. */
  function SeverityAndScore(native: Option<real>, declared: Severity): (Severity, real) {
    if native.None? then (declared, TableScore(declared))
    else
      var derived := SeverityFromScore(native.value);
      if declared != Info && declared.Rank() > derived.Rank() then (declared, TableScore(declared))
      else (derived, native.value)
  }

  function ScoreOf(r: Row): Score {
    var (severity, score) := SeverityAndScore(NativeScore(r), NormalizeSeverity(r.severity));
    Score(severity, score, ClampConfidence(r.confidence))
  }

  function ScoredId(r: Row, index: nat): string {
    if r.id != "" then r.id else r.tool + "-" + T.Decimal(index)
  }

  function WithScore(r: Row, index: nat, s: Score): Row {
    r.(id := ScoredId(r, index), severity := SeverityName(s.severity), cvss := Some(s.score),
       confidence := s.confidence)
  }

  function ScoreRow(r: Row, index: nat): Row {
    WithScore(r, index, ScoreOf(r))
  }

  function ScoreRows(rows: seq<Row>): seq<Row> {
    seq(|rows|, i requires 0 <= i < |rows| => ScoreRow(rows[i], i))
  }

  function Scores(rows: seq<Row>): seq<Score> {
    seq(|rows|, i requires 0 <= i < |rows| => ScoreOf(rows[i]))
  }

  function RowKey(r: Row): SortKey {
    (NormalizeSeverity(r.severity).Rank(), if r.cvss.Some? then r.cvss.value else 0.0)
  }

  function Sorted(rows: seq<Row>): seq<Row> {
    SortDescending(rows, RowKey)
  }

  function CountOf(scores: seq<Score>, s: Severity): nat {
    if scores == [] then 0
    else CountOf(scores[..|scores| - 1], s) + (if scores[|scores| - 1].severity == s then 1 else 0)
  }

  function Risk(s: Score): real {
    Weight(s.severity) * s.confidence
  }

  /** The confidence-weighted risk of all findings. */
  function RiskSum(scores: seq<Score>): real {
    if scores == [] then 0.0 else RiskSum(scores[..|scores| - 1]) + Risk(scores[|scores| - 1])
  }

  function CoverageFloor(failedModules: nat): real {
    if 0.5 * failedModules as real < 2.0 then 0.5 * failedModules as real else 2.0
  }

  /** The overall risk from the accumulated sum and the number of findings. */
  function Overall(weightedSum: real, total: nat, failedModules: nat): real {
    var risk := if total == 0 then 0.0
                else RoundHundredths(weightedSum / (total as real * Weight(Critical)) * 10.0);
    if failedModules == 0 then risk
    else RoundHundredths(if risk >= CoverageFloor(failedModules) then risk else CoverageFloor(failedModules))
  }

  function OverallRisk(scores: seq<Score>, failedModules: nat): real {
    Overall(RiskSum(scores), |scores|, failedModules)
  }

  function ById(scored: seq<Row>): map<string, Row> {
    if scored == [] then map[] else ById(scored[..|scored| - 1])[scored[|scored| - 1].id := scored[|scored| - 1]]
  }

  ghost predicate Counted(counts: map<Severity, nat>, scores: seq<Score>) {
    counts.Keys == SEVERITIES && forall s :: s in SEVERITIES ==> counts[s] == CountOf(scores, s)
  }

  /** The loop body up to the row it produces. */
  method ScoreOne(r: Row, index: nat) returns (row: Row, s: Score)
    ensures s == ScoreOf(r) && row == ScoreRow(r, index)
  {
    var native, declared := NativeScore(r), NormalizeSeverity(r.severity);
    var severity, score := declared, TableScore(declared);
    if native.Some? {
      severity, score := SeverityFromScore(native.value), native.value;
      if declared != Info {
        if declared.Rank() > severity.Rank() {
          severity, score := declared, TableScore(declared);
        }
      }
    }
    s := Score(severity, score, ClampConfidence(r.confidence));
    row := WithScore(r, index, s);
  }

  /** The scoring loop with its accumulators, then the sort and the overall
      risk. `perFinding` maps each id to the row it describes. */
  method RunScoring(rows: seq<Row>, failedModules: nat)
    returns (findings: seq<Row>, counts: map<Severity, nat>, perFinding: map<string, Row>, overall: real)
    ensures findings == Sorted(ScoreRows(rows))
    ensures Counted(counts, Scores(rows))
    ensures perFinding == ById(ScoreRows(rows))
    ensures overall == OverallRisk(Scores(rows), failedModules)
  {
    var scored: seq<Row> := [];
    ghost var scores: seq<Score> := [];
    counts := map s | s in SEVERITIES :: 0;
    perFinding := map[];
    var weightedSum := 0.0;
    for i := 0 to |rows|
      invariant scored == ScoreRows(rows[..i]) && scores == Scores(rows[..i])
      invariant Counted(counts, scores)
      invariant perFinding == ById(scored)
      invariant weightedSum == RiskSum(scores)
    {
      var row, s := ScoreOne(rows[i], i);
      ScoringAppends(rows, i);
      CountedStep(counts, scores, s);
      RiskAppends(scores, s);
      assert (scored + [row])[..i] == scored;
      counts := counts[s.severity := counts[s.severity] + 1];
      weightedSum := weightedSum + Risk(s);
      perFinding := perFinding[row.id := row];
      scored, scores := scored + [row], scores + [s];
    }
    assert rows[..|rows|] == rows;
    findings := SortDescending(scored, RowKey);
    overall := Overall(weightedSum, |scored|, failedModules);
  }

  lemma ScoringAppends(rows: seq<Row>, i: nat)
    requires i < |rows|
    ensures ScoreRows(rows[..i + 1]) == ScoreRows(rows[..i]) + [ScoreRow(rows[i], i)]
    ensures Scores(rows[..i + 1]) == Scores(rows[..i]) + [ScoreOf(rows[i])]
  {
    assert rows[..i] + [rows[i]] == rows[..i + 1];
  }

  lemma CountedStep(counts: map<Severity, nat>, scores: seq<Score>, s: Score)
    requires Counted(counts, scores)
    ensures s.severity in counts && Counted(counts[s.severity := counts[s.severity] + 1], scores + [s])
  {
    EverySeverityListed(s.severity);
    assert (scores + [s])[..|scores|] == scores;
  }

  lemma RiskAppends(scores: seq<Score>, s: Score)
    ensures RiskSum(scores + [s]) == RiskSum(scores) + Risk(s)
  {
    assert (scores + [s])[..|scores|] == scores;
  }

  /** Canonical names survive normalisation, so later stages read the severity
      that scoring wrote. */
  lemma NamesNormalize(s: Severity)
    ensures NormalizeSeverity(SeverityName(s)) == s
  {
    var name := SeverityName(s);
    assert T.StripLeft(name) == name;
    assert T.StripRight(name) == name;
    assert T.Lower(name) == name;
  }

  /* Rounding. */

  lemma RoundMonotone(x: real, y: real)
    requires x <= y
    ensures RoundInt(x) <= RoundInt(y)
  {
  }

  lemma RoundFixesIntegers(n: int)
    ensures RoundInt(n as real) == n
  {
  }

  lemma ClampedScore(x: real)
    ensures 0.0 <= ClampScore(x) <= 10.0
    ensures ClampScore(ClampScore(x)) == ClampScore(x)
  {
    RoundFixesIntegers(0);
    RoundFixesIntegers(100);
    RoundFixesIntegers(RoundInt(x * 10.0));
    if 0.0 <= x <= 10.0 {
      RoundMonotone(0.0, x * 10.0);
      RoundMonotone(x * 10.0, 100.0);
    }
  }

  lemma ClampedConfidence(x: real)
    ensures 0.0 <= ClampConfidence(x) <= 1.0
    ensures ClampConfidence(ClampConfidence(x)) == ClampConfidence(x)
  {
    RoundFixesIntegers(0);
    RoundFixesIntegers(100);
    RoundFixesIntegers(RoundInt(x * 100.0));
    if 0.0 <= x <= 1.0 {
      RoundMonotone(0.0, x * 100.0);
      RoundMonotone(x * 100.0, 100.0);
    }
  }

  /* Severity. */

  function DerivedSeverity(r: Row): Severity {
    var native := NativeScore(r);
    if native.None? then NormalizeSeverity(r.severity) else SeverityFromScore(native.value)
  }

  /** The severity that comes out is the higher of the declared one and the one
      the native score stands for. */
  lemma SeverityIsTheHigher(r: Row)
    ensures var declared, derived, final := NormalizeSeverity(r.severity), DerivedSeverity(r), ScoreOf(r).severity;
            && final.Rank() >= declared.Rank() && final.Rank() >= derived.Rank()
            && (final == declared || final == derived)
  {
  }

  lemma {:induction false} FirstScoreClamped(candidates: seq<Option<real>>)
    ensures var found := FirstScore(candidates);
            found.Some? ==> 0.0 <= found.value <= 10.0 && ClampScore(found.value) == found.value
  {
    if candidates != [] {
      if candidates[0].Some? {
        ClampedScore(candidates[0].value);
      } else {
        FirstScoreClamped(candidates[1..]);
      }
    }
  }

  lemma TableScoresClamped(s: Severity)
    ensures ClampScore(TableScore(s)) == TableScore(s)
    ensures s != Info ==> SeverityFromScore(TableScore(s)) == s
  {
    RoundFixesIntegers(10);
    RoundFixesIntegers(30);
    RoundFixesIntegers(55);
    RoundFixesIntegers(80);
    RoundFixesIntegers(95);
  }

  /** The findings that a second scoring changes: informational, and without any
      native score. The first scoring writes 1.0, which then reads as low. */
  predicate InfoWithoutScore(r: Row) {
    NormalizeSeverity(r.severity) == Info && NativeScore(r).None?
  }

  lemma ScoreAgain(s: Score)
    requires ClampScore(s.score) == s.score
    ensures SeverityAndScore(Some(s.score), s.severity) == (s.severity, s.score)
       <==> s.severity == SeverityFromScore(s.score)
            || (s.severity != Info && s.severity.Rank() > SeverityFromScore(s.score).Rank()
                && TableScore(s.severity) == s.score)
  {
  }

  lemma ScoreSettles(r: Row)
    ensures var s := ScoreOf(r);
            && ClampScore(s.score) == s.score
            && (SeverityAndScore(Some(s.score), s.severity) == (s.severity, s.score) <==> !InfoWithoutScore(r))
            && (InfoWithoutScore(r) ==> s.severity == Info && s.score == 1.0)
  {
    FirstScoreClamped([r.cvss] + r.scores);
    TableScoresClamped(NormalizeSeverity(r.severity));
    ScoreAgain(ScoreOf(r));
  }

  /** Scoring a scored finding again, at whatever position, changes it exactly
      when it was informational and came without a native score. */
  lemma RescoringOneIsIdentityIff(r: Row, i: nat, j: nat)
    ensures ScoreRow(ScoreRow(r, i), j) == ScoreRow(r, i) <==> !InfoWithoutScore(r)
    ensures InfoWithoutScore(r) ==> ScoreRow(r, i).severity == "info" && ScoreRow(r, i).cvss == Some(1.0)
  {
    var once, s := ScoreRow(r, i), ScoreOf(r);
    ScoreSettles(r);
    NamesNormalize(s.severity);
    ClampedConfidence(r.confidence);
    assert ([once.cvss] + once.scores)[0] == once.cvss;
    assert NativeScore(once) == Some(s.score);
    IdsStay(r, i);
    NamesDiffer(s.severity, ScoreOf(once).severity);
  }

  lemma IdsStay(r: Row, i: nat)
    ensures ScoredId(r, i) != ""
  {
    assert r.id == "" ==> |ScoredId(r, i)| >= 1;
  }

  lemma NamesDiffer(a: Severity, b: Severity)
    ensures SeverityName(a) == SeverityName(b) ==> a == b
  {
    NamesNormalize(a);
    NamesNormalize(b);
  }

  ghost predicate NoneInfoWithoutScore(rows: seq<Row>) {
    forall i :: 0 <= i < |rows| ==> !InfoWithoutScore(rows[i])
  }

  /** A row of the scored and sorted list is some scored row. */
  lemma SortedRowOrigin(rows: seq<Row>, k: nat) returns (i: nat)
    requires k < |Sorted(ScoreRows(rows))|
    ensures i < |rows| && Sorted(ScoreRows(rows))[k] == ScoreRow(rows[i], i)
  {
    var scored := ScoreRows(rows);
    SortPermutes(scored, RowKey);
    assert Sorted(scored)[k] in multiset(scored);
    assert Sorted(scored)[k] in scored;
    i :| 0 <= i < |scored| && scored[i] == Sorted(scored)[k];
  }

  lemma SortDescendsByRank(rows: seq<Row>)
    ensures var out := Sorted(ScoreRows(rows));
            forall i, j :: 0 <= i < j < |out| ==>
              NormalizeSeverity(out[i].severity).Rank() >= NormalizeSeverity(out[j].severity).Rank()
  {
    var out := Sorted(ScoreRows(rows));
    SortDescends(ScoreRows(rows), RowKey);
    forall i, j | 0 <= i < j < |out| ensures RowKey(out[i]).0 >= RowKey(out[j]).0 {
      assert !Below(RowKey(out[i]), RowKey(out[j]));
    }
  }

  lemma SortedRowPlace(rows: seq<Row>, i: nat) returns (k: nat)
    requires i < |rows|
    ensures k < |Sorted(ScoreRows(rows))| && Sorted(ScoreRows(rows))[k] == ScoreRow(rows[i], i)
  {
    var scored := ScoreRows(rows);
    SortPermutes(scored, RowKey);
    assert scored[i] in multiset(scored);
    assert scored[i] in Sorted(scored);
    k :| 0 <= k < |Sorted(scored)| && Sorted(scored)[k] == scored[i];
  }

  lemma RescoringIsFixedPoint(rows: seq<Row>)
    requires NoneInfoWithoutScore(rows)
    ensures var once := Sorted(ScoreRows(rows)); Sorted(ScoreRows(once)) == once
  {
    var once := Sorted(ScoreRows(rows));
    forall k | 0 <= k < |once| ensures ScoreRow(once[k], k) == once[k] {
      var i := SortedRowOrigin(rows, k);
      RescoringOneIsIdentityIff(rows[i], i, k);
    }
    assert ScoreRows(once) == once;
    SortDescends(ScoreRows(rows), RowKey);
    SortedStays(once, RowKey);
  }

  lemma RescoringChangesInfo(rows: seq<Row>, i: nat)
    requires i < |rows| && InfoWithoutScore(rows[i])
    ensures var once := Sorted(ScoreRows(rows)); Sorted(ScoreRows(once)) != once
  {
    var once := Sorted(ScoreRows(rows));
    RescoringOneIsIdentityIff(rows[i], i, i);
    var k := SortedRowPlace(rows, i);
    forall j | 0 <= j < |once| ensures once[j].cvss.Some? {
      var origin := SortedRowOrigin(rows, j);
    }
    InfoAtOneNeverComesOut(once, once[k]);
    assert once[k] in once;
  }

  /** Scoring the scored findings again reproduces the list, order included,
      exactly when none of the findings was informational without a score. */
  lemma RescoringIsFixedPointIff(rows: seq<Row>)
    ensures var once := Sorted(ScoreRows(rows));
            Sorted(ScoreRows(once)) == once <==> NoneInfoWithoutScore(rows)
  {
    if NoneInfoWithoutScore(rows) {
      RescoringIsFixedPoint(rows);
    } else {
      var i :| 0 <= i < |rows| && InfoWithoutScore(rows[i]);
      RescoringChangesInfo(rows, i);
    }
  }

  lemma InfoAtOneNeverComesOut(rows: seq<Row>, x: Row)
    requires forall k :: 0 <= k < |rows| ==> rows[k].cvss.Some?
    requires x.severity == "info" && x.cvss == Some(1.0)
    ensures x !in Sorted(ScoreRows(rows))
  {
    var out := Sorted(ScoreRows(rows));
    forall k | 0 <= k < |out| ensures out[k] != x {
      var i := SortedRowOrigin(rows, k);
      assert ([rows[i].cvss] + rows[i].scores)[0] == rows[i].cvss;
      NamesDiffer(ScoreOf(rows[i]).severity, Info);
    }
  }

  /* Overall risk. */

  lemma RiskInRange(r: Row)
    ensures 0.0 <= Risk(ScoreOf(r)) <= 10.0
  {
    ClampedConfidence(r.confidence);
    WeightedConfidence(ScoreOf(r).severity, ClampConfidence(r.confidence));
  }

  lemma WeightedConfidence(s: Severity, confidence: real)
    requires 0.0 <= confidence <= 1.0
    ensures 0.0 <= Weight(s) * confidence <= 10.0
  {
  }

  lemma {:induction false} RiskSumBounded(rows: seq<Row>)
    ensures 0.0 <= RiskSum(Scores(rows)) <= 10.0 * |rows| as real
  {
    if rows != [] {
      var n := |rows| - 1;
      RiskSumBounded(rows[..n]);
      ScoringAppends(rows, n);
      assert rows[..n + 1] == rows;
      RiskAppends(Scores(rows[..n]), ScoreOf(rows[n]));
      RiskInRange(rows[n]);
    }
  }

  lemma ShareOfTen(sum: real, n: nat)
    requires n > 0 && 0.0 <= sum <= 10.0 * n as real
    ensures 0.0 <= sum / (n as real * 10.0) * 10.0 <= 10.0
  {
    var whole := n as real * 10.0;
    assert 0.0 <= sum / whole <= 1.0;
  }

  lemma HundredthsInRange(x: real, top: real)
    requires 0.0 <= x <= top && RoundInt(top * 100.0) as real == top * 100.0
    ensures 0.0 <= RoundHundredths(x) <= top
  {
    RoundFixesIntegers(0);
    RoundMonotone(0.0, x * 100.0);
    RoundMonotone(x * 100.0, top * 100.0);
  }

  lemma FloorIsRound(failedModules: nat)
    ensures 0.0 <= CoverageFloor(failedModules) <= 2.0
    ensures RoundHundredths(CoverageFloor(failedModules)) == CoverageFloor(failedModules)
  {
    RoundFixesIntegers(200);
    RoundFixesIntegers(50 * failedModules);
  }

  /** The overall risk lies in [0, 10], and a scan with failed modules never
      looks safer than the coverage floor, however harmless its findings. */
  lemma OverallRiskInRange(rows: seq<Row>, failedModules: nat)
    ensures var risk := OverallRisk(Scores(rows), failedModules);
            0.0 <= risk <= 10.0 && (failedModules > 0 ==> risk >= CoverageFloor(failedModules))
  {
    RiskSumBounded(rows);
    OverallInRange(RiskSum(Scores(rows)), |rows|, failedModules);
  }

  lemma RawRiskInRange(sum: real, n: nat)
    requires 0.0 <= sum <= 10.0 * n as real && n > 0
    ensures 0.0 <= RoundHundredths(sum / (n as real * Weight(Critical)) * 10.0) <= 10.0
  {
    RoundFixesIntegers(1000);
    ShareOfTen(sum, n);
    HundredthsInRange(sum / (n as real * Weight(Critical)) * 10.0, 10.0);
  }

  lemma FlooredInRange(raw: real, failedModules: nat)
    requires 0.0 <= raw <= 10.0
    ensures var base := if raw >= CoverageFloor(failedModules) then raw else CoverageFloor(failedModules);
            CoverageFloor(failedModules) <= RoundHundredths(base) <= 10.0
  {
    var base := if raw >= CoverageFloor(failedModules) then raw else CoverageFloor(failedModules);
    FloorIsRound(failedModules);
    RoundFixesIntegers(1000);
    HundredthsInRange(base, 10.0);
    RoundMonotone(CoverageFloor(failedModules) * 100.0, base * 100.0);
  }

  lemma OverallInRange(sum: real, n: nat, failedModules: nat)
    requires 0.0 <= sum <= 10.0 * n as real
    ensures var risk := Overall(sum, n, failedModules);
            0.0 <= risk <= 10.0 && (failedModules > 0 ==> risk >= CoverageFloor(failedModules))
  {
    var raw := if n == 0 then 0.0 else RoundHundredths(sum / (n as real * Weight(Critical)) * 10.0);
    if n > 0 {
      RawRiskInRange(sum, n);
    }
    FlooredInRange(raw, failedModules);
  }

  lemma {:induction false} RiskSumConcatenates(a: seq<Score>, b: seq<Score>)
    ensures RiskSum(a + b) == RiskSum(a) + RiskSum(b)
  {
    if b == [] {
      assert a + b == a;
    } else {
      assert (a + b)[..|a + b| - 1] == a + b[..|b| - 1];
      RiskSumConcatenates(a, b[..|b| - 1]);
    }
  }

  lemma RiskSumSplits(front: seq<Row>, r: Row, back: seq<Row>)
    ensures RiskSum(Scores(front + [r] + back)) == RiskSum(Scores(front + back)) + Risk(ScoreOf(r))
  {
    var a, x, b := Scores(front), [ScoreOf(r)], Scores(back);
    assert Scores(front + [r] + back) == a + x + b && Scores(front + back) == a + b;
    RiskSumConcatenates(a + x, b);
    RiskSumConcatenates(a, b);
    RiskAppends(a, ScoreOf(r));
  }

  lemma {:induction false} RiskSumIgnoresOrder(rows: seq<Row>, rows': seq<Row>)
    requires multiset(rows) == multiset(rows')
    ensures RiskSum(Scores(rows)) == RiskSum(Scores(rows'))
  {
    PermutationsHaveOneLength(rows, rows');
    if rows != [] {
      var front, last := rows[..|rows| - 1], rows[|rows| - 1];
      assert rows == front + [last] + [] && front + [] == front;
      RiskSumSplits(front, last, []);
      var left, right := TakeOutLast(rows, rows');
      RiskSumSplits(left, last, right);
      RiskSumIgnoresOrder(front, left + right);
    }
  }

  lemma OverallRiskIgnoresOrder(rows: seq<Row>, rows': seq<Row>, failedModules: nat)
    requires multiset(rows) == multiset(rows')
    ensures OverallRisk(Scores(rows), failedModules) == OverallRisk(Scores(rows'), failedModules)
  {
    PermutationsHaveOneLength(rows, rows');
    RiskSumIgnoresOrder(rows, rows');
  }

  /** The five counters add up to the number of findings. */
  lemma {:induction false} CountsAddUp(scores: seq<Score>)
    ensures CountOf(scores, Info) + CountOf(scores, Low) + CountOf(scores, Medium) + CountOf(scores, High)
            + CountOf(scores, Critical) == |scores|
  {
    if scores != [] {
      CountsAddUp(scores[..|scores| - 1]);
    }
  }

  /* Ids. */

  ghost predicate DistinctIds(rows: seq<Row>) {
    forall i, j :: 0 <= i < j < |rows| ==> rows[i].id != rows[j].id
  }

  /** Findings that arrive without ids get pairwise different ones. */
  lemma AssignedIdsAreDistinct(rows: seq<Row>)
    requires forall i :: 0 <= i < |rows| ==> rows[i].id == ""
    ensures DistinctIds(ScoreRows(rows))
  {
    forall i, j | 0 <= i < j < |rows| ensures ScoredId(rows[i], i) != ScoredId(rows[j], j) {
      if ScoredId(rows[i], i) == ScoredId(rows[j], j) {
        T.DashedDecimalInjective(rows[i].tool, i, rows[j].tool, j);
      }
    }
  }

  ghost predicate HasId(rows: seq<Row>, id: string) {
    exists i :: 0 <= i < |rows| && rows[i].id == id
  }

  lemma {:induction false} ByIdKeys(scored: seq<Row>)
    ensures forall id :: id in ById(scored) <==> HasId(scored, id)
  {
    if scored != [] {
      var before, last := scored[..|scored| - 1], scored[|scored| - 1];
      ByIdKeys(before);
      forall id ensures HasId(scored, id) <==> HasId(before, id) || id == last.id {
        if HasId(before, id) {
          var i :| 0 <= i < |before| && before[i].id == id;
          assert scored[i].id == id;
        }
      }
    }
  }

  lemma DistinctIdsStep(before: seq<Row>, last: Row)
    ensures DistinctIds(before + [last]) <==> DistinctIds(before) && !HasId(before, last.id)
  {
    var rows := before + [last];
    if DistinctIds(rows) {
      assert forall i :: 0 <= i < |before| ==> rows[i] == before[i] && rows[i].id != rows[|before|].id;
    }
  }

  lemma {:induction false} ByIdSmallerOnClash(scored: seq<Row>)
    ensures |ById(scored)| <= |scored|
    ensures |ById(scored)| == |scored| <==> DistinctIds(scored)
  {
    if scored != [] {
      var before, last := scored[..|scored| - 1], scored[|scored| - 1];
      ByIdSmallerOnClash(before);
      ByIdKeys(before);
      DistinctIdsStep(before, last);
      assert before + [last] == scored;
      assert ById(scored).Keys == ById(before).Keys + {last.id};
      assert |ById(scored)| == |ById(scored).Keys|;
    }
  }

  lemma {:induction false} ByIdFindsEach(scored: seq<Row>, i: nat)
    requires DistinctIds(scored) && i < |scored|
    ensures scored[i].id in ById(scored) && ById(scored)[scored[i].id] == scored[i]
  {
    if i < |scored| - 1 {
      ByIdFindsEach(scored[..|scored| - 1], i);
    }
  }

  /** The per-finding map loses no finding exactly when the ids are distinct. */
  lemma PerFindingLosesNoneIff(scored: seq<Row>)
    ensures (forall i :: 0 <= i < |scored| ==> scored[i].id in ById(scored))
    ensures |ById(scored)| == |scored| <==> DistinctIds(scored)
    ensures DistinctIds(scored) ==> forall i :: 0 <= i < |scored| ==>
              scored[i].id in ById(scored) && ById(scored)[scored[i].id] == scored[i]
  {
    ByIdKeys(scored);
    ByIdSmallerOnClash(scored);
    assert forall i :: 0 <= i < |scored| ==> HasId(scored, scored[i].id);
    if DistinctIds(scored) {
      forall i | 0 <= i < |scored| ensures scored[i].id in ById(scored) && ById(scored)[scored[i].id] == scored[i] {
        ByIdFindsEach(scored, i);
      }
    }
  }
}
