/** From the tools' raw findings to the report: what holds across
    deduplication, verification, scoring, synthesis and reporting.
 */
module Pipeline {
  import AiSynthesis
  import opened Sorting
  import opened Wrappers
  import opened Reporting
  import opened ReportConservation
  import F = Findings
  import S = Scoring
  import T = Text

  /** A finding as it enters the scan state. */
  function ToRow(f: F.Finding): Row {
    S.Row("", f.tool, f.kind, f.url, S.SeverityName(f.severity), f.evidence, f.confidence, None, f.scores, "", false)
  }

  function ToRows(findings: seq<F.Finding>): seq<Row> {
    seq(|findings|, i requires 0 <= i < |findings| => ToRow(findings[i]))
  }

  /** Verification annotates every finding in place: it never drops, adds or
      moves one, whatever the live target answers. */
  ghost predicate Verified(rows: seq<Row>, verified: seq<Row>) {
    && |verified| == |rows|
    && forall i :: 0 <= i < |rows| ==>
         verified[i] == rows[i].(status := verified[i].status, confidence := verified[i].confidence,
                                 falsePositive := verified[i].falsePositive)
  }

  /** The synthesis stage finds an id on every scored finding, and hands the
      list on as it is. */
  lemma ScoredRowsHaveIds(rows: seq<Row>)
    ensures AiSynthesis.EnsureFindingIds(S.Sorted(S.ScoreRows(rows))) == S.Sorted(S.ScoreRows(rows))
  {
    var out := S.Sorted(S.ScoreRows(rows));
    forall k | 0 <= k < |out| ensures out[k].id != "" {
      var i := S.SortedRowOrigin(rows, k);
      S.IdsStay(rows[i], i);
    }
  }

  /* Severity. */

  /** After scoring, the report's own reading of a severity is scoring's. */
  lemma ReportReadsScoredSeverity(s: F.Severity)
    ensures ReportSeverity(S.SeverityName(s)) == s == S.NormalizeSeverity(S.SeverityName(s))
  {
    var name := S.SeverityName(s);
    S.NamesNormalize(s);
    assert T.StripLeft(name) == name;
    assert T.StripRight(name) == name;
    assert T.Lower(name) == name;
  }

  /** The spellings only scoring knows. */
  predicate ScoringOnly(name: string) {
    name == "moderate" || name == "med" || name == "important" || name == "severe"
  }

  /** On raw texts the two readings agree exactly on all other spellings: on
      "moderate" and its like the report on its own would read "info". That is why
      it must come after scoring. */
  lemma RawSeverityIsReadAlikeIff(raw: string)
    ensures S.NormalizeSeverity(raw) == ReportSeverity(raw) <==> !ScoringOnly(T.Lower(T.Strip(raw)))
  {
    var name := T.Lower(T.Strip(raw));
    if ScoringOnly(name) {
      assert name != "critical" && name != "high" && name != "medium" && name != "low";
      assert ReportSeverity(raw) == F.Info;
    }
  }

  function Rank(r: Row): nat {
    S.NormalizeSeverity(r.severity).Rank()
  }

  ghost predicate SortedBySeverity(rows: seq<Row>) {
    forall i, j :: 0 <= i < j < |rows| ==> Rank(rows[i]) >= Rank(rows[j])
  }

  lemma ScoringSortsBySeverity(rows: seq<Row>)
    ensures SortedBySeverity(S.Sorted(S.ScoreRows(rows)))
  {
    S.SortDescendsByRank(rows);
  }

  /** A collapsed group takes its severity from its first finding. After scoring
      that is the most severe finding of the group. */
  lemma GroupCarriesHighestSeverity(rows: seq<Row>, g: nat, n: nat)
    requires SortedBySeverity(rows) && g < |Collapse(rows)| && n < |rows|
    requires KeyOf(rows[n]) == KeyOf(Collapse(rows)[g].row)
    ensures Rank(rows[n]) <= Rank(Collapse(rows)[g].row)
  {
    KeysHaveInstances(rows);
    GroupsForLength(rows, GroupKeys(rows));
    var key := GroupKeys(rows)[g];
    var at := InstancesFrom(rows, key);
    var i := InstancesHave(rows, n);
    assert Collapse(rows)[g].row == Instances(rows, key)[0];
    assert KeyOf(rows[at[0]]) == key;
    assert i > 0 ==> at[0] < at[i];
  }

  /** What the first cap leaves out is never more severe than what it keeps: no
      finding of a dropped group outranks a group that was kept. */
  lemma NothingHiddenOutranksShown(rows: seq<Row>, cap: nat) returns (dropped: seq<Group>)
    ensures var scored := S.Sorted(S.ScoreRows(rows));
            var kept := Capped(Collapse(scored), cap, GroupOrder);
            && multiset(kept) + multiset(dropped) == multiset(Collapse(scored))
            && forall k, d, n :: k in kept && d in dropped && 0 <= n < |scored| && KeyOf(scored[n]) == KeyOf(d.row) ==>
                 Rank(scored[n]) <= Rank(k.row)
  {
    var scored := S.Sorted(S.ScoreRows(rows));
    var groups := Collapse(scored);
    var kept := Capped(groups, cap, GroupOrder);
    dropped := CapDropsLeastSevere(groups, cap, GroupOrder);
    ScoringSortsBySeverity(rows);
    forall k, d, n | k in kept && d in dropped && 0 <= n < |scored| && KeyOf(scored[n]) == KeyOf(d.row)
      ensures Rank(scored[n]) <= Rank(k.row)
    {
      assert k in multiset(groups) && d in multiset(groups);
      var i :| 0 <= i < |groups| && groups[i] == k;
      var j :| 0 <= j < |groups| && groups[j] == d;
      GroupCarriesHighestSeverity(scored, j, n);
      GroupRowsAreScored(rows, i);
      GroupRowsAreScored(rows, j);
      assert GroupOrder(d).0 <= GroupOrder(k).0;
    }
  }

  lemma GroupRowsAreScored(rows: seq<Row>, g: nat)
    requires g < |Collapse(S.Sorted(S.ScoreRows(rows)))|
    ensures var r := Collapse(S.Sorted(S.ScoreRows(rows)))[g].row; ReportSeverity(r.severity).Rank() == Rank(r)
  {
    var scored := S.Sorted(S.ScoreRows(rows));
    KeysHaveInstances(scored);
    GroupsForLength(scored, GroupKeys(scored));
    var at := InstancesFrom(scored, GroupKeys(scored)[g]);
    var i := S.SortedRowOrigin(rows, at[0]);
    ReportReadsScoredSeverity(S.ScoreOf(rows[i]).severity);
  }

  /* Conservation from the tools to the report. */

  lemma DedupGivesUniqueRows(findings: seq<F.Finding>)
    ensures UniqueRows(ToRows(F.Dedup(findings)))
  {
    var kept := F.Dedup(findings);
    F.DedupKeys(findings);
    forall i, j | 0 <= i < j < |kept| ensures kept[i].Key() != kept[j].Key() {
      assert F.Keys(kept)[i] == kept[i].Key() && F.Keys(kept)[j] == kept[j].Key();
    }
  }

  lemma PlacesOfScored(rows: seq<Row>)
    ensures Places(S.ScoreRows(rows)) == Places(rows)
    ensures multiset(Places(S.Sorted(S.ScoreRows(rows)))) == multiset(Places(rows))
  {
    SortPermutes(S.ScoreRows(rows), S.RowKey);
    PlacesPermute(S.Sorted(S.ScoreRows(rows)), S.ScoreRows(rows));
  }

  lemma PlacesWithout(rows: seq<Row>, left: seq<Place>, place: Place, right: seq<Place>)
    requires Places(rows) == left + [place] + right
    ensures |left| < |rows| && PlaceOf(rows[|left|]) == place
    ensures Places(rows[..|left|] + rows[|left| + 1..]) == left + right
  {
    var at := |left|;
    assert |Places(rows)| == |rows|;
    assert Places(rows)[at] == (left + [place] + right)[at];
    assert Places(rows[..at]) == Places(rows)[..at] == left;
    assert Places(rows[at + 1..]) == Places(rows)[at + 1..] == right;
    PlacesConcatenate(rows[..at], rows[at + 1..]);
  }

  lemma {:induction false} UniqueRowsPermute(rows: seq<Row>, rows': seq<Row>)
    requires UniqueRows(rows) && multiset(Places(rows)) == multiset(Places(rows'))
    ensures UniqueRows(rows')
  {
    PermutationsHaveOneLength(Places(rows), Places(rows'));
    if rows != [] {
      var left, right := TakeOutLast(Places(rows), Places(rows'));
      var at := |left|;
      var rest := rows'[..at] + rows'[at + 1..];
      assert Places(rows)[..|rows| - 1] == Places(rows[..|rows| - 1]);
      PlacesWithout(rows', left, Places(rows)[|rows| - 1], right);
      UniqueRowsPermute(rows[..|rows| - 1], rest);
      UniqueRowsInsert(rows, rows', at, rest);
    }
  }

  lemma UniqueRowsInsert(rows: seq<Row>, rows': seq<Row>, at: nat, rest: seq<Row>)
    requires rows != [] && at < |rows'| && rest == rows'[..at] + rows'[at + 1..]
    requires UniqueRows(rows) && UniqueRows(rest)
    requires PlaceOf(rows'[at]) == PlaceOf(rows[|rows| - 1])
    requires multiset(Places(rest)) == multiset(Places(rows[..|rows| - 1]))
    ensures UniqueRows(rows')
  {
    var before := rows[..|rows| - 1];
    forall k | 0 <= k < |rest| ensures !(rest[k].url == rows'[at].url && rest[k].kind == rows'[at].kind) {
      assert Places(rest)[k] in multiset(Places(before));
      assert Places(rest)[k] in Places(before);
      var i :| 0 <= i < |before| && Places(before)[i] == PlaceOf(rest[k]);
      assert rows[i] == before[i];
    }
    forall i, j | 0 <= i < j < |rows'| ensures !(rows'[i].url == rows'[j].url && rows'[i].kind == rows'[j].kind) {
      var p := if i < at then i else i - 1;
      var q := if j < at then j else j - 1;
      if i != at && j != at {
        assert rows'[i] == rest[p] && rows'[j] == rest[q];
      } else if i == at {
        assert rows'[j] == rest[q];
      } else {
        assert rows'[i] == rest[p];
      }
    }
  }

  /** From raw findings to the report: whatever the tools found and however
      verification judged it, a report below its cap shows every (type, tool,
      URL) that deduplication kept, each exactly once and nothing else. */
  lemma ReportIsFaithful(passive: seq<F.Finding>, active: seq<F.Finding>, verified: seq<Row>, cap: nat)
    requires var kept := F.Dedup(passive + active);
             Verified(ToRows(kept), verified) && |kept| <= cap
    ensures var final := AiSynthesis.EnsureFindingIds(S.Sorted(S.ScoreRows(verified)));
            var groups := Capped(Collapse(final), cap, GroupOrder);
            && multiset(Places(Capped(ExpandAll(groups), cap, RowOrder)))
                == multiset(Places(ToRows(F.Dedup(passive + active))))
            && TotalSize(groups) == |F.Dedup(passive + active)|
  {
    var kept := F.Dedup(passive + active);
    var final := S.Sorted(S.ScoreRows(verified));
    DedupGivesUniqueRows(passive + active);
    assert Places(verified) == Places(ToRows(kept));
    PlacesOfScored(verified);
    UniqueRowsPermute(ToRows(kept), final);
    ScoredRowsHaveIds(verified);
    SortPermutes(S.ScoreRows(verified), S.RowKey);
    ReportShowsEverythingBelowCap(final, cap);
    SizesAddUp(final);
  }

  /** A finding enters the scan state as it is. */
  lemma FindingEntersAsItIs(f: F.Finding)
    ensures var r := ToRow(f);
            && PlaceOf(r) == (f.kind, f.tool, f.url) && r.evidence == f.evidence && r.confidence == f.confidence
            && S.NormalizeSeverity(r.severity) == f.severity && S.NativeScore(r) == S.FirstScore(f.scores)
  {
    S.NamesNormalize(f.severity);
    assert ([ToRow(f).cvss] + f.scores)[1..] == f.scores;
  }

  lemma VerifiedKeeps(rows: seq<Row>, verified: seq<Row>, n: nat)
    requires Verified(rows, verified) && n < |rows|
    ensures var r := S.ScoreRow(verified[n], n); PlaceOf(r) == PlaceOf(rows[n]) && r.evidence == rows[n].evidence
  {
  }

  lemma FinalIsUnique(rows: seq<Row>, verified: seq<Row>)
    requires UniqueRows(rows) && Verified(rows, verified)
    ensures var final := S.Sorted(S.ScoreRows(verified)); UniqueRows(final) && |final| == |rows|
  {
    assert Places(verified) == Places(rows);
    PlacesOfScored(verified);
    UniqueRowsPermute(rows, S.Sorted(S.ScoreRows(verified)));
    SortPermutes(S.ScoreRows(verified), S.RowKey);
  }

  lemma NothingIsCapped(rows: seq<Row>, cap: nat)
    requires UniqueRows(rows) && |rows| <= cap
    ensures Capped(ExpandAll(Capped(Collapse(rows), cap, GroupOrder)), cap, RowOrder) == ExpandAll(Collapse(rows))
  {
    GroupsNoMoreThanRows(rows);
    CollapseExpandConserves(rows);
  }

  /** Below the cap, the report has a row with its own evidence for every finding that
      deduplication kept and that has any. */
  lemma ReportShowsEvidence(passive: seq<F.Finding>, active: seq<F.Finding>, verified: seq<Row>, cap: nat, n: nat)
    returns (r: Row)
    requires var kept := F.Dedup(passive + active);
             Verified(ToRows(kept), verified) && |kept| <= cap && n < |kept| && kept[n].evidence != ""
    ensures var final := S.Sorted(S.ScoreRows(verified));
            r in Capped(ExpandAll(Capped(Collapse(final), cap, GroupOrder)), cap, RowOrder)
    ensures var f := F.Dedup(passive + active)[n]; PlaceOf(r) == (f.kind, f.tool, f.url) && r.evidence == f.evidence
  {
    var kept := F.Dedup(passive + active);
    var final := S.Sorted(S.ScoreRows(verified));
    DedupGivesUniqueRows(passive + active);
    FinalIsUnique(ToRows(kept), verified);
    NothingIsCapped(final, cap);
    FindingEntersAsItIs(kept[n]);
    VerifiedKeeps(ToRows(kept), verified, n);
    var k := S.SortedRowPlace(verified, n);
    r := EvidenceComesBack(final, k);
  }
}
