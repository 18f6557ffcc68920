/** The numbers behind scoring: what each spelling, score and finding is worth,
    and that a graver finding never makes a scan look safer.
 */
module RiskScale {
  import opened Wrappers
  import opened Findings
  import opened Scoring
  import S = Sorting
  import T = Text

  /* Rounding. */

  /** The nearest integer, and of two equally near ones the even one. */
  lemma RoundsToNearest(x: real)
    ensures var n := RoundInt(x);
            && -0.5 <= n as real - x <= 0.5
            && (n as real - x == 0.5 || n as real - x == -0.5 ==> n % 2 == 0)
  {
  }

  lemma ConfidenceIsNearest(x: real)
    ensures x < 0.0 ==> ClampConfidence(x) == 0.0
    ensures x > 1.0 ==> ClampConfidence(x) == 1.0
    ensures 0.0 <= x <= 1.0 ==> -0.005 <= ClampConfidence(x) - x <= 0.005
  {
    RoundsToNearest(x * 100.0);
  }

  lemma ScoreIsNearest(x: real)
    ensures x < 0.0 ==> ClampScore(x) == 0.0
    ensures x > 10.0 ==> ClampScore(x) == 10.0
    ensures 0.0 <= x <= 10.0 ==> -0.05 <= ClampScore(x) - x <= 0.05
  {
    RoundsToNearest(x * 10.0);
  }

  /* Severities. */

  lemma TenthsAtLeast(x: real, odd: int)
    requires 0.0 <= x <= 10.0 && odd % 2 == 1
    ensures ClampScore(x) >= (odd + 1) as real / 10.0 <==> x * 10.0 >= odd as real + 0.5
  {
    RoundsToNearest(x * 10.0);
  }

  /** The bands of a native score, before it is rounded to tenths. */
  lemma ScoreBands(x: real)
    requires 0.0 <= x <= 10.0
    ensures SeverityFromScore(ClampScore(x)) == if x >= 8.95 then Critical
                                                else if x >= 6.95 then High
                                                else if x >= 3.95 then Medium
                                                else if x >= 0.95 then Low
                                                else Info
  {
    TenthsAtLeast(x, 89);
    TenthsAtLeast(x, 69);
    TenthsAtLeast(x, 39);
    TenthsAtLeast(x, 9);
  }

  /** The first of the places that has a score gives it. */
  lemma {:induction false} FirstScoreIsFirst(candidates: seq<Option<real>>, i: nat)
    requires i < |candidates| && candidates[i].Some? && forall k :: 0 <= k < i ==> candidates[k].None?
    ensures FirstScore(candidates) == Some(ClampScore(candidates[i].value))
  {
    if i > 0 {
      FirstScoreIsFirst(candidates[1..], i - 1);
    }
  }

  /** What a declared severity is worth on its own: its rank, its score and the
      risk of one such finding at full confidence. */
  lemma DeclaredSeverities(r: Row, name: string)
    requires name == T.Lower(T.Strip(r.severity)) && NativeScore(r).None? && ClampConfidence(r.confidence) == 1.0
    ensures var s := ScoreOf(r);
            var worth := (SeverityName(s.severity), s.score, Risk(s));
            worth == if name in {"critical", "severe"} then ("critical", 9.5, 10.0)
                     else if name in {"high", "important"} then ("high", 8.0, 6.0)
                     else if name in {"medium", "moderate", "med"} then ("medium", 5.5, 3.0)
                     else if name == "low" then ("low", 3.0, 1.0)
                     else ("info", 1.0, 0.5)
  {
  }

  /* Counting. */

  function PlacesOf(scores: seq<Score>, s: Severity): set<nat> {
    set i | 0 <= i < |scores| && scores[i].severity == s
  }

  lemma OnePlaceMore(scores: seq<Score>, last: Score, s: Severity)
    ensures PlacesOf(scores + [last], s) == PlacesOf(scores, s) + (if last.severity == s then {|scores|} else {})
  {
  }

  /** A severity is counted as often as it occurs. */
  lemma {:induction false} CountIsCardinality(scores: seq<Score>, s: Severity)
    ensures CountOf(scores, s) == |PlacesOf(scores, s)|
  {
    if scores != [] {
      var before, last := scores[..|scores| - 1], scores[|scores| - 1];
      CountIsCardinality(before, s);
      OnePlaceMore(before, last, s);
      assert scores == before + [last];
    }
  }

  /* The overall risk. */

  /** Without failed modules, the overall risk of findings that are all alike is
      the risk of one, to hundredths. */
  lemma AlikeFindingsRiskOne(s: Score, n: nat, scores: seq<Score>)
    requires n > 0 && |scores| == n && forall i :: 0 <= i < n ==> scores[i] == s
    ensures OverallRisk(scores, 0) == RoundHundredths(Risk(s))
  {
    AlikeSum(s, scores);
    var sum := RiskSum(scores);
    ShareIsAverage(sum, n, Risk(s));
  }

  lemma {:induction false} AlikeSum(s: Score, scores: seq<Score>)
    requires forall i :: 0 <= i < |scores| ==> scores[i] == s
    ensures RiskSum(scores) == |scores| as real * Risk(s)
  {
    if scores != [] {
      AlikeSum(s, scores[..|scores| - 1]);
    }
  }

  lemma ShareIsAverage(sum: real, n: nat, one: real)
    requires n > 0 && sum == n as real * one
    ensures sum / (n as real * Weight(Critical)) * 10.0 == one
  {
    var whole := n as real * 10.0;
    assert sum == whole * (one / 10.0);
    assert sum / whole == one / 10.0;
  }

  /** Without findings there is only the floor: half a point for every failed
      module, two at most. */
  lemma NothingFoundRisk(failedModules: nat)
    ensures OverallRisk([], failedModules) == if failedModules >= 4 then 2.0 else failedModules as real / 2.0
  {
    RoundFixesIntegers(200);
    RoundFixesIntegers(50 * failedModules);
  }

  lemma WeightGrows(a: Severity, b: Severity)
    requires a.Rank() <= b.Rank()
    ensures Weight(a) <= Weight(b)
  {
  }

  lemma RiskGrows(a: Score, b: Score)
    requires a.severity.Rank() <= b.severity.Rank() && 0.0 <= a.confidence <= b.confidence
    ensures Risk(a) <= Risk(b)
  {
    WeightGrows(a.severity, b.severity);
  }

  lemma {:induction false} SumGrows(scores: seq<Score>, i: nat, s: Score)
    requires i < |scores| && Risk(scores[i]) <= Risk(s)
    ensures RiskSum(scores[i := s]) >= RiskSum(scores)
  {
    var n := |scores| - 1;
    if i < n {
      SumGrows(scores[..n], i, s);
      assert scores[i := s][..n] == scores[..n][i := s];
    } else {
      assert scores[i := s][..n] == scores[..n];
    }
  }

  lemma ShareGrows(a: real, b: real, n: nat)
    requires n > 0 && a <= b
    ensures a / (n as real * 10.0) * 10.0 <= b / (n as real * 10.0) * 10.0
  {
    var whole := n as real * 10.0;
    assert a / whole <= b / whole;
  }

  lemma HundredthsGrow(x: real, y: real)
    requires x <= y
    ensures RoundHundredths(x) <= RoundHundredths(y)
  {
    RoundMonotone(x * 100.0, y * 100.0);
  }

  lemma FlooredGrows(x: real, y: real, floor: real)
    requires x <= y
    ensures RoundHundredths(if x >= floor then x else floor) <= RoundHundredths(if y >= floor then y else floor)
  {
    HundredthsGrow(if x >= floor then x else floor, if y >= floor then y else floor);
  }

  lemma OverallGrows(a: real, b: real, n: nat, failedModules: nat)
    requires a <= b
    ensures Overall(a, n, failedModules) <= Overall(b, n, failedModules)
  {
    if n > 0 {
      ShareGrows(a, b, n);
      var x, y := a / (n as real * 10.0) * 10.0, b / (n as real * 10.0) * 10.0;
      HundredthsGrow(x, y);
      FlooredGrows(RoundHundredths(x), RoundHundredths(y), CoverageFloor(failedModules));
    }
  }

  lemma DeclaredGrows(r: Row, raised: string)
    requires NormalizeSeverity(r.severity).Rank() <= NormalizeSeverity(raised).Rank()
    ensures ScoreOf(r).severity.Rank() <= ScoreOf(r.(severity := raised)).severity.Rank()
    ensures ScoreOf(r).confidence == ScoreOf(r.(severity := raised)).confidence >= 0.0
  {
    ClampedConfidence(r.confidence);
    assert NativeScore(r) == NativeScore(r.(severity := raised));
  }

  /** Declaring a finding graver never lowers the overall risk, whatever the other
      findings and however many modules failed. */
  lemma GraverIsNeverSafer(rows: seq<Row>, i: nat, raised: string, failedModules: nat)
    requires i < |rows| && NormalizeSeverity(rows[i].severity).Rank() <= NormalizeSeverity(raised).Rank()
    ensures OverallRisk(Scores(rows[i := rows[i].(severity := raised)]), failedModules)
            >= OverallRisk(Scores(rows), failedModules)
  {
    var graver := rows[i].(severity := raised);
    DeclaredGrows(rows[i], raised);
    RiskGrows(ScoreOf(rows[i]), ScoreOf(graver));
    SumGrows(Scores(rows), i, ScoreOf(graver));
    assert Scores(rows[i := graver]) == Scores(rows)[i := ScoreOf(graver)];
    OverallGrows(RiskSum(Scores(rows)), RiskSum(Scores(rows[i := graver])), |rows|, failedModules);
  }

  /* The sorted list. */

  lemma NotBelowRows(a: Row, b: Row)
    requires a.cvss.Some? && b.cvss.Some? && !S.Below(RowKey(a), RowKey(b))
    requires a.severity == SeverityName(NormalizeSeverity(a.severity))
    requires b.severity == SeverityName(NormalizeSeverity(b.severity))
    ensures || NormalizeSeverity(a.severity).Rank() > NormalizeSeverity(b.severity).Rank()
            || (a.severity == b.severity && a.cvss.value >= b.cvss.value)
  {
  }

  lemma ScoredRowReads(r: Row, i: nat)
    ensures var row := ScoreRow(r, i);
            row.cvss.Some? && row.severity == SeverityName(NormalizeSeverity(row.severity))
  {
    NamesNormalize(ScoreOf(r).severity);
  }

  /** What scoring hands on is sorted by severity, and within a severity by score. */
  lemma ListIsSortedByScore(rows: seq<Row>, i: nat, j: nat)
    requires i < j < |Sorted(ScoreRows(rows))|
    ensures var out := Sorted(ScoreRows(rows));
            && out[i].cvss.Some? && out[j].cvss.Some?
            && (NormalizeSeverity(out[i].severity).Rank() > NormalizeSeverity(out[j].severity).Rank()
                || (out[i].severity == out[j].severity && out[i].cvss.value >= out[j].cvss.value))
  {
    var out := Sorted(ScoreRows(rows));
    S.SortDescends(ScoreRows(rows), RowKey);
    var p := SortedRowOrigin(rows, i);
    var q := SortedRowOrigin(rows, j);
    ScoredRowReads(rows[p], p);
    ScoredRowReads(rows[q], q);
    NotBelowRows(out[i], out[j]);
  }

  /* Confidence. */

  /** A finding counts in proportion to its confidence. */
  lemma RiskIsInProportion(s: Score)
    ensures Risk(s) == s.confidence * Risk(s.(confidence := 1.0))
  {
  }

  /** What scoring writes on a finding, and that it leaves the rest alone. */
  lemma ScoringWrites(r: Row, i: nat)
    ensures var row, s := ScoreRow(r, i), ScoreOf(r);
            && row.severity == SeverityName(s.severity) && row.cvss == Some(s.score)
            && row.confidence == ClampConfidence(r.confidence) && 0.0 <= row.confidence <= 1.0
            && row == r.(id := row.id, severity := row.severity, cvss := row.cvss, confidence := row.confidence)
  {
    ClampedConfidence(r.confidence);
  }

  /** Being surer of a finding never lowers the overall risk. */
  lemma SurerIsNeverSafer(rows: seq<Row>, i: nat, confidence: real, failedModules: nat)
    requires i < |rows| && rows[i].confidence <= confidence
    ensures OverallRisk(Scores(rows[i := rows[i].(confidence := confidence)]), failedModules)
            >= OverallRisk(Scores(rows), failedModules)
  {
    var surer := rows[i].(confidence := confidence);
    SurerGrows(rows[i], confidence);
    SumGrows(Scores(rows), i, ScoreOf(surer));
    assert Scores(rows[i := surer]) == Scores(rows)[i := ScoreOf(surer)];
    OverallGrows(RiskSum(Scores(rows)), RiskSum(Scores(rows[i := surer])), |rows|, failedModules);
  }

  lemma SurerGrows(r: Row, confidence: real)
    requires r.confidence <= confidence
    ensures Risk(ScoreOf(r)) <= Risk(ScoreOf(r.(confidence := confidence)))
  {
    ClampedConfidence(r.confidence);
    ClampedConfidence(confidence);
    ClampGrows(r.confidence, confidence);
    assert NativeScore(r) == NativeScore(r.(confidence := confidence));
    RiskGrows(ScoreOf(r), ScoreOf(r.(confidence := confidence)));
  }

  lemma ClampGrows(x: real, y: real)
    requires x <= y
    ensures ClampConfidence(x) <= ClampConfidence(y)
  {
    ClampedConfidence(x);
    ClampedConfidence(y);
    if 0.0 <= x && y <= 1.0 {
      HundredthsGrow(x, y);
    }
  }
}
