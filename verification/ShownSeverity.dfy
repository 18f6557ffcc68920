/** Whether the report hides a finding while it shows a less severe one. Behind
    the second cap every row carries the severity of its group's first finding,
    so a finding can be ranked above its own severity.
 */
module ShownSeverity {
  import opened Sorting
  import opened Wrappers
  import opened Reporting
  import opened ReportConservation
  import opened Pipeline
  import S = Scoring
  import F = Findings

  /** Findings as they reach the report: sorted by severity, with the names
      scoring writes, and deduplicated. */
  ghost predicate Reportable(rows: seq<Row>) {
    && SortedBySeverity(rows) && UniqueRows(rows)
    && forall i :: 0 <= i < |rows| ==> ReportSeverity(rows[i].severity).Rank() == Rank(rows[i])
  }

  lemma ScoringMakesReportable(rows: seq<Row>)
    requires UniqueRows(rows)
    ensures Reportable(S.Sorted(S.ScoreRows(rows)))
  {
    var scored := S.Sorted(S.ScoreRows(rows));
    ScoringSortsBySeverity(rows);
    PlacesOfScored(rows);
    UniqueRowsPermute(rows, scored);
    forall i | 0 <= i < |scored| ensures ReportSeverity(scored[i].severity).Rank() == Rank(scored[i]) {
      var j := S.SortedRowOrigin(rows, i);
      ReportReadsScoredSeverity(S.ScoreOf(rows[j]).severity);
    }
  }

  function Kept(rows: seq<Row>, cap: nat): seq<Group> {
    Capped(Collapse(rows), cap, GroupOrder)
  }

  function Rendered(rows: seq<Row>, cap: nat): seq<Row> {
    Capped(ExpandAll(Kept(rows, cap)), cap, RowOrder)
  }

  /** The report has a row for the finding. */
  predicate Shown(rows: seq<Row>, cap: nat, r: Row) {
    PlaceOf(r) in Places(Rendered(rows, cap))
  }

  /* Where groups and rows come from. */

  lemma CollapseHas(rows: seq<Row>, n: nat)
    requires n < |rows|
    ensures Instances(rows, KeyOf(rows[n])) != [] && MakeGroup(Instances(rows, KeyOf(rows[n]))) in Collapse(rows)
  {
    var key := KeyOf(rows[n]);
    var i := InstancesHave(rows, n);
    KeysHaveInstances(rows);
    EveryKeyListed(rows);
    GroupsForLength(rows, GroupKeys(rows));
    var g :| 0 <= g < |GroupKeys(rows)| && GroupKeys(rows)[g] == key;
    assert Collapse(rows)[g] == MakeGroup(Instances(rows, key));
  }

  lemma CollapseOnly(rows: seq<Row>, g: Group) returns (key: GroupKey)
    requires g in Collapse(rows)
    ensures Instances(rows, key) != [] && g == MakeGroup(Instances(rows, key))
  {
    KeysHaveInstances(rows);
    GroupsForLength(rows, GroupKeys(rows));
    var i :| 0 <= i < |Collapse(rows)| && Collapse(rows)[i] == g;
    key := GroupKeys(rows)[i];
  }

  lemma {:induction false} ExpandAllOnly(groups: seq<Group>, r: Row) returns (g: Group)
    requires r in ExpandAll(groups)
    ensures g in groups && r in Expand(g)
  {
    var front, last := groups[..|groups| - 1], groups[|groups| - 1];
    if r in Expand(last) {
      g := last;
    } else {
      g := ExpandAllOnly(front, r);
    }
  }

  /** An expanded row has its group's key and severity. */
  lemma ExpandedFrom(g: Group, r: Row)
    requires r in Expand(g)
    ensures KeyOf(r) == KeyOf(g.row) && RowOrder(r) == RowOrder(g.row) && r.severity == g.row.severity
  {
  }

  /** The group of a finding has a row for it. */
  lemma ExpandedFor(rows: seq<Row>, n: nat) returns (r: Row)
    requires UniqueRows(rows) && n < |rows|
    ensures Instances(rows, KeyOf(rows[n])) != []
    ensures r in Expand(MakeGroup(Instances(rows, KeyOf(rows[n])))) && PlaceOf(r) == PlaceOf(rows[n])
  {
    var key := KeyOf(rows[n]);
    var i := InstancesHave(rows, n);
    InstancesHaveDistinctUrls(rows, key);
    ExpandRestores(Instances(rows, key), i);
    r := Expand(MakeGroup(Instances(rows, key)))[i];
  }

  /** A group's severity is that of its first finding, and no finding of it is
      more severe. */
  lemma GroupRank(rows: seq<Row>, n: nat)
    requires Reportable(rows) && n < |rows|
    ensures var insts := Instances(rows, KeyOf(rows[n]));
            && insts != [] && GroupOrder(MakeGroup(insts)).0 == RowOrder(insts[0]).0 == Rank(insts[0])
            && Rank(rows[n]) <= Rank(insts[0])
  {
    var at := InstancesFrom(rows, KeyOf(rows[n]));
    var i := InstancesHave(rows, n);
    assert i > 0 ==> at[0] < at[i];
  }

  /* What is shown is at least as severe in name as what is hidden. */

  lemma InOneOf<X>(xs: seq<X>, kept: seq<X>, dropped: seq<X>, x: X)
    requires multiset(kept) + multiset(dropped) == multiset(xs) && x in xs
    ensures x in kept || x in dropped
  {
    assert x in multiset(xs);
  }

  lemma KeptIsFrom<X>(xs: seq<X>, kept: seq<X>, dropped: seq<X>, x: X)
    requires multiset(kept) + multiset(dropped) == multiset(xs) && x in kept
    ensures x in xs
  {
    assert x in multiset(xs);
  }

  /** A rendered row belongs to a kept group. */
  lemma RenderedRow(rows: seq<Row>, cap: nat, r: Row) returns (g: Group)
    requires r in Rendered(rows, cap)
    ensures g in Kept(rows, cap) && r in Expand(g)
  {
    var all := ExpandAll(Kept(rows, cap));
    var dropped := CapDropsLeastSevere(all, cap, RowOrder);
    KeptIsFrom(all, Rendered(rows, cap), dropped, r);
    g := ExpandAllOnly(Kept(rows, cap), r);
  }

  lemma KeptGroup(rows: seq<Row>, cap: nat, g: Group) returns (key: GroupKey)
    requires g in Kept(rows, cap)
    ensures Instances(rows, key) != [] && g == MakeGroup(Instances(rows, key))
  {
    var dropped := CapDropsLeastSevere(Collapse(rows), cap, GroupOrder);
    KeptIsFrom(Collapse(rows), Kept(rows, cap), dropped, g);
    key := CollapseOnly(rows, g);
  }

  lemma ShownRow(rows: seq<Row>, cap: nat, n: nat) returns (r: Row)
    requires n < |rows| && Shown(rows, cap, rows[n])
    ensures Instances(rows, KeyOf(rows[n])) != []
    ensures var g := MakeGroup(Instances(rows, KeyOf(rows[n])));
            r in Rendered(rows, cap) && g in Kept(rows, cap) && RowOrder(r) == RowOrder(g.row)
  {
    var rendered := Rendered(rows, cap);
    var p :| 0 <= p < |rendered| && Places(rendered)[p] == PlaceOf(rows[n]);
    r := rendered[p];
    var g := RenderedRow(rows, cap, r);
    ExpandedFrom(g, r);
    var key := KeptGroup(rows, cap, g);
    var at := InstancesFrom(rows, key);
    assert KeyOf(rows[at[0]]) == key;
    assert KeyOf(r) == KeyOf(rows[n]);
  }

  /** A finding is missing because its group was dropped, or its row. */
  lemma HiddenBehind(rows: seq<Row>, cap: nat, k: nat, r: Row, g: Group)
    requires UniqueRows(rows) && k < |rows| && !Shown(rows, cap, rows[k])
    requires r in Rendered(rows, cap) && g in Kept(rows, cap)
    ensures Instances(rows, KeyOf(rows[k])) != []
    ensures var h := MakeGroup(Instances(rows, KeyOf(rows[k])));
            GroupOrder(h).0 <= GroupOrder(g).0 || RowOrder(h.row).0 <= RowOrder(r).0
  {
    var kept := Kept(rows, cap);
    CollapseHas(rows, k);
    var h := MakeGroup(Instances(rows, KeyOf(rows[k])));
    var dropped := CapDropsLeastSevere(Collapse(rows), cap, GroupOrder);
    InOneOf(Collapse(rows), kept, dropped, h);
    if h in kept {
      HiddenRow(rows, cap, k, r, h);
    }
  }

  lemma PlaceIsListed(rows: seq<Row>, r: Row)
    ensures r in rows ==> PlaceOf(r) in Places(rows)
  {
    if r in rows {
      var p :| 0 <= p < |rows| && rows[p] == r;
      assert Places(rows)[p] == PlaceOf(r);
    }
  }

  lemma HiddenRow(rows: seq<Row>, cap: nat, k: nat, r: Row, h: Group)
    requires UniqueRows(rows) && k < |rows| && !Shown(rows, cap, rows[k])
    requires Instances(rows, KeyOf(rows[k])) != [] && h == MakeGroup(Instances(rows, KeyOf(rows[k])))
    requires r in Rendered(rows, cap) && h in Kept(rows, cap)
    ensures RowOrder(h.row).0 <= RowOrder(r).0
  {
    var kept, rendered := Kept(rows, cap), Rendered(rows, cap);
    var q := ExpandedFor(rows, k);
    var g :| 0 <= g < |kept| && kept[g] == h;
    ExpandAllHas(kept, g, q);
    var dropped := CapDropsLeastSevere(ExpandAll(kept), cap, RowOrder);
    InOneOf(ExpandAll(kept), rendered, dropped, q);
    PlaceIsListed(rendered, q);
    ExpandedFrom(h, q);
  }

  /** No finding missing from the report is more severe than the group of one
      it shows. */
  lemma HiddenIsBelowShownGroups(rows: seq<Row>, cap: nat, n: nat, k: nat)
    requires Reportable(rows) && n < |rows| && k < |rows|
    requires Shown(rows, cap, rows[n]) && !Shown(rows, cap, rows[k])
    ensures Instances(rows, KeyOf(rows[n])) != []
    ensures Rank(rows[k]) <= Rank(Instances(rows, KeyOf(rows[n]))[0])
  {
    var r := ShownRow(rows, cap, n);
    GroupRank(rows, n);
    GroupRank(rows, k);
    HiddenBehind(rows, cap, k, r, MakeGroup(Instances(rows, KeyOf(rows[n]))));
  }

  /** The report shows the finding, if at all, under its own severity. */
  predicate OwnSeverity(rows: seq<Row>, r: Row) {
    var instances := Instances(rows, KeyOf(r));
    instances != [] && Rank(r) == Rank(instances[0])
  }

  /** A finding shown under its own severity is outranked by no missing one. */
  lemma OwnSeverityIsNotOutranked(rows: seq<Row>, cap: nat, n: nat, k: nat)
    requires Reportable(rows) && n < |rows| && k < |rows|
    requires Shown(rows, cap, rows[n]) && !Shown(rows, cap, rows[k])
    requires OwnSeverity(rows, rows[n])
    ensures Rank(rows[k]) <= Rank(rows[n])
  {
    HiddenIsBelowShownGroups(rows, cap, n, k);
  }

  /** The groups of a report meet what the theorem below asks of a group. */
  lemma GroupsAreReportable(rows: seq<Row>, key: GroupKey)
    requires Reportable(rows)
    ensures var instances := Instances(rows, key);
            Reportable(instances) && OneGroup(instances) && DistinctUrls(instances)
  {
    var at := InstancesFrom(rows, key);
    var instances := Instances(rows, key);
    InstancesHaveDistinctUrls(rows, key);
    forall i, j | 0 <= i < j < |instances| ensures Rank(instances[i]) >= Rank(instances[j]) {
      assert at[i] < at[j];
    }
  }

  /* Which groups can mislead. */

  ghost predicate OneSeverity(instances: seq<Row>) {
    forall i :: 0 <= i < |instances| ==> Rank(instances[i]) == Rank(instances[0])
  }

  /** In every report the group occurs in, whatever else was found and whatever
      the cap, no missing finding outranks one of the group that is shown. */
  ghost predicate NeverOutranked(instances: seq<Row>)
    requires instances != []
  {
    forall rows, cap: nat, n, k ::
      Reportable(rows) && 0 <= n < |rows| && 0 <= k < |rows| && Instances(rows, KeyOf(instances[0])) == instances
      && KeyOf(rows[n]) == KeyOf(instances[0]) && Shown(rows, cap, rows[n]) && !Shown(rows, cap, rows[k])
      ==> Rank(rows[k]) <= Rank(rows[n])
  }

  /** A finding of another type among those of one group, behind the first. */
  function With(instances: seq<Row>, at: nat, r: Row): seq<Row>
    requires at <= |instances|
  {
    instances[..at] + [r] + instances[at..]
  }

  ghost predicate AllOfKey(rows: seq<Row>, key: GroupKey) {
    forall i :: 0 <= i < |rows| ==> KeyOf(rows[i]) == key
  }

  lemma KeysOneMore(rows: seq<Row>, r: Row)
    ensures var keys := GroupKeys(rows);
            GroupKeys(rows + [r]) == if KeyOf(r) in keys then keys else keys + [KeyOf(r)]
  {
    assert (rows + [r])[..|rows|] == rows;
  }

  lemma OneMoreOfKey(rows: seq<Row>, r: Row, other: GroupKey)
    requires KeyOf(r) in GroupKeys(rows) && KeyOf(r) != other
    ensures GroupKeys(rows + [r]) == GroupKeys(rows)
    ensures Instances(rows + [r], KeyOf(r)) == Instances(rows, KeyOf(r)) + [r]
    ensures Instances(rows + [r], other) == Instances(rows, other)
  {
    KeysOneMore(rows, r);
    InstancesOneMore(rows, r, KeyOf(r));
    InstancesOneMore(rows, r, other);
  }

  /** More findings of a key that is listed already. */
  lemma {:induction false} MoreOfKey(rows: seq<Row>, more: seq<Row>, all: seq<Row>, key: GroupKey, other: GroupKey)
    requires AllOfKey(more, key) && key != other && key in GroupKeys(rows) && all == rows + more
    ensures GroupKeys(all) == GroupKeys(rows)
    ensures Instances(all, key) == Instances(rows, key) + more
    ensures Instances(all, other) == Instances(rows, other)
    decreases |more|
  {
    if more == [] {
      assert all == rows;
    } else {
      var next := rows + [more[0]];
      OneMoreOfKey(rows, more[0], other);
      assert all == next + more[1..];
      MoreOfKey(next, more[1..], all, key, other);
    }
  }

  lemma OneAlone(r: Row, other: GroupKey)
    requires KeyOf(r) != other
    ensures GroupKeys([r]) == [KeyOf(r)] && Instances([r], KeyOf(r)) == [r] && Instances([r], other) == []
  {
    assert [r][..0] == [];
    assert GroupKeys([]) == [] && Instances([], KeyOf(r)) == [] && Instances([], other) == [];
  }

  lemma GroupAlone(first: Row, more: seq<Row>, other: GroupKey)
    requires AllOfKey(more, KeyOf(first)) && other != KeyOf(first)
    ensures GroupKeys([first] + more) == [KeyOf(first)]
    ensures Instances([first] + more, KeyOf(first)) == [first] + more && Instances([first] + more, other) == []
  {
    OneAlone(first, other);
    MoreOfKey([first], more, [first] + more, KeyOf(first), other);
  }

  lemma AnotherKey(group: seq<Row>, r: Row, key: GroupKey)
    requires GroupKeys(group) == [key] && Instances(group, key) == group && Instances(group, KeyOf(r)) == []
    requires key != KeyOf(r)
    ensures GroupKeys(group + [r]) == [key, KeyOf(r)]
    ensures Instances(group + [r], key) == group && Instances(group + [r], KeyOf(r)) == [r]
  {
    KeysOneMore(group, r);
    InstancesOneMore(group, r, key);
    InstancesOneMore(group, r, KeyOf(r));
  }

  lemma WithKeys(first: Row, more: seq<Row>, r: Row, back: seq<Row>, group: seq<Row>, some: seq<Row>, rows: seq<Row>)
    requires AllOfKey(more, KeyOf(first)) && AllOfKey(back, KeyOf(first)) && KeyOf(r) != KeyOf(first)
    requires group == [first] + more && some == group + [r] && rows == some + back
    ensures GroupKeys(rows) == [KeyOf(first), KeyOf(r)]
    ensures Instances(rows, KeyOf(first)) == group + back && Instances(rows, KeyOf(r)) == [r]
  {
    GroupAlone(first, more, KeyOf(r));
    AnotherKey(group, r, KeyOf(first));
    MoreOfKey(some, back, rows, KeyOf(first), KeyOf(r));
  }

  lemma WithGroups(instances: seq<Row>, at: nat, r: Row)
    requires OneGroup(instances) && 0 < at <= |instances| && KeyOf(r) != KeyOf(instances[0])
    ensures var rows := With(instances, at, r);
            && GroupKeys(rows) == [KeyOf(instances[0]), KeyOf(r)]
            && Instances(rows, KeyOf(instances[0])) == instances && Instances(rows, KeyOf(r)) == [r]
  {
    var first, more, back := instances[0], instances[1..at], instances[at..];
    assert [first] + more == instances[..at];
    assert instances[..at] + back == instances;
    WithKeys(first, more, r, back, instances[..at], instances[..at] + [r], With(instances, at, r));
  }

  lemma TwoGroups(instances: seq<Row>, rows: seq<Row>, r: Row, key: GroupKey)
    requires instances != [] && GroupKeys(rows) == [key, KeyOf(r)]
    requires Instances(rows, key) == instances && Instances(rows, KeyOf(r)) == [r]
    ensures Collapse(rows) == [MakeGroup(instances), Single(r)]
    ensures ExpandAll(Collapse(rows)) == Expand(MakeGroup(instances)) + [r]
  {
    KeysHaveInstances(rows);
    GroupsForLength(rows, GroupKeys(rows));
    var groups := Collapse(rows);
    assert groups == [MakeGroup(instances), Single(r)];
    assert groups[..1] == [MakeGroup(instances)] && groups[..1][..0] == [];
    assert ExpandAll([]) == [];
    assert ExpandAll(groups[..1]) == Expand(MakeGroup(instances));
  }

  lemma EqualsFirst(group: seq<Row>, r: Row, k: SortKey)
    requires (forall i :: 0 <= i < |group| ==> RowOrder(group[i]) == k) && !Below(k, RowOrder(r))
    ensures SortDescending(group + [r], RowOrder) == group + [r]
  {
    var all := group + [r];
    forall i, j | 0 <= i < j < |all| ensures !Below(RowOrder(all[i]), RowOrder(all[j])) {
      assert all[i] == group[i];
      assert j < |group| ==> all[j] == group[j];
    }
    SortedStays(all, RowOrder);
  }

  lemma GroupOrdersAlike(g: Group)
    ensures forall i :: 0 <= i < |Expand(g)| ==> RowOrder(Expand(g)[i]) == RowOrder(g.row)
  {
  }

  /** At a cap of its size, the group pushes out whatever comes behind it. */
  lemma GroupPushesOut(instances: seq<Row>, at: nat, r: Row)
    requires OneGroup(instances) && DistinctUrls(instances) && 0 < at <= |instances| && |instances| > 1
    requires KeyOf(r) != KeyOf(instances[0]) && !Below(RowOrder(instances[0]), RowOrder(r))
    ensures Rendered(With(instances, at, r), |instances|) == Expand(MakeGroup(instances))
  {
    var rows, cap, g := With(instances, at, r), |instances|, MakeGroup(instances);
    WithGroups(instances, at, r);
    TwoGroups(instances, rows, r, KeyOf(instances[0]));
    assert Kept(rows, cap) == Collapse(rows);
    ExpandRestores(instances, 0);
    GroupOrdersAlike(g);
    EqualsFirst(Expand(g), r, RowOrder(g.row));
    assert (Expand(g) + [r])[..cap] == Expand(g);
  }

  lemma GroupShownRestHidden(instances: seq<Row>, at: nat, r: Row, n: nat)
    requires OneGroup(instances) && DistinctUrls(instances) && 0 < at <= |instances| && |instances| > 1
    requires KeyOf(r) != KeyOf(instances[0]) && !Below(RowOrder(instances[0]), RowOrder(r)) && n < |instances|
    ensures var rows := With(instances, at, r);
            Shown(rows, |instances|, instances[n]) && !Shown(rows, |instances|, r)
  {
    GroupPushesOut(instances, at, r);
    ExpandKeepsPlaces(instances);
    assert Places(instances)[n] == PlaceOf(instances[n]);
    forall i | 0 <= i < |instances| ensures Places(instances)[i] != PlaceOf(r) {
      assert KeyOf(instances[i]) == KeyOf(instances[0]);
    }
  }

  /** The first finding again, under another type: as severe, and pushed out. */
  function Rival(r: Row): Row {
    r.(kind := r.kind + "'")
  }

  /** Behind the first, each row is the rival or one of the instances. */
  lemma WithRivalAt(instances: seq<Row>, i: nat) returns (p: nat)
    requires instances != [] && i <= |instances|
    ensures var rows := With(instances, 1, Rival(instances[0]));
            && p == (if i <= 1 then 0 else i - 1) && p < |instances|
            && rows[i] == if i == 1 then Rival(instances[0]) else instances[p]
  {
    p := if i <= 1 then 0 else i - 1;
  }

  lemma WithRivalIsReportable(instances: seq<Row>)
    requires Reportable(instances) && OneGroup(instances) && instances != []
    ensures Reportable(With(instances, 1, Rival(instances[0])))
  {
    var rows := With(instances, 1, Rival(instances[0]));
    forall i, j | 0 <= i < j < |rows|
      ensures Rank(rows[i]) >= Rank(rows[j]) && !(rows[i].url == rows[j].url && rows[i].kind == rows[j].kind)
    {
      var p := WithRivalAt(instances, i);
      var q := WithRivalAt(instances, j);
      RivalDiffers(instances, p);
      RivalDiffers(instances, q);
    }
    forall i | 0 <= i < |rows| ensures ReportSeverity(rows[i].severity).Rank() == Rank(rows[i]) {
      var p := WithRivalAt(instances, i);
    }
  }

  lemma RivalDiffers(instances: seq<Row>, p: nat)
    requires OneGroup(instances) && p < |instances|
    ensures instances[p].kind != Rival(instances[0]).kind && Rank(Rival(instances[0])) == Rank(instances[0])
  {
    assert KeyOf(instances[p]) == KeyOf(instances[0]);
    assert |Rival(instances[0]).kind| > |instances[0].kind|;
  }

  lemma MixedGroupIsOutranked(instances: seq<Row>, n: nat)
    requires Reportable(instances) && OneGroup(instances) && DistinctUrls(instances)
    requires n < |instances| && Rank(instances[n]) != Rank(instances[0])
    ensures !NeverOutranked(instances)
  {
    var rival := Rival(instances[0]);
    var rows := With(instances, 1, rival);
    RivalDiffers(instances, 0);
    WithRivalIsReportable(instances);
    WithGroups(instances, 1, rival);
    GroupShownRestHidden(instances, 1, rival, n);
    assert rows[1] == rival && rows[n + 1] == instances[n];
    assert Rank(instances[n]) < Rank(rival);
    assert KeyOf(rows[n + 1]) == KeyOf(instances[0]);
  }

  /** The findings of a group never outlast more severe ones, whatever the report,
      exactly if they are all of one severity. */
  lemma NeverOutrankedIffOneSeverity(instances: seq<Row>)
    requires Reportable(instances) && OneGroup(instances) && DistinctUrls(instances) && instances != []
    ensures NeverOutranked(instances) <==> OneSeverity(instances)
  {
    if OneSeverity(instances) {
      forall rows, cap: nat, n, k |
        Reportable(rows) && 0 <= n < |rows| && 0 <= k < |rows| && Instances(rows, KeyOf(instances[0])) == instances
        && KeyOf(rows[n]) == KeyOf(instances[0]) && Shown(rows, cap, rows[n]) && !Shown(rows, cap, rows[k])
        ensures Rank(rows[k]) <= Rank(rows[n])
      {
        var i := InstancesHave(rows, n);
        OwnSeverityIsNotOutranked(rows, cap, n, k);
      }
    } else {
      var n :| 0 <= n < |instances| && Rank(instances[n]) != Rank(instances[0]);
      MixedGroupIsOutranked(instances, n);
    }
  }

  lemma NameRanks(r: Row, severity: F.Severity)
    requires r.severity == S.SeverityName(severity)
    ensures Rank(r) == ReportSeverity(r.severity).Rank() == severity.Rank()
  {
    ReportReadsScoredSeverity(severity);
  }

  /** For one: of a high and a low finding of one type and a medium one of another,
      a report of two shows both of the first, as high, and hides the medium one. */
  lemma MediumHiddenBehindLow(high: Row, medium: Row, low: Row, rows: seq<Row>, cap: nat)
    requires KeyOf(high) == KeyOf(low) != KeyOf(medium) && high.url != low.url
    requires high.severity == S.SeverityName(F.High) && medium.severity == S.SeverityName(F.Medium)
             && low.severity == S.SeverityName(F.Low)
    requires rows == [high, medium, low] && cap == 2
    ensures Rank(low) < Rank(medium) && Shown(rows, cap, low) && !Shown(rows, cap, medium)
    ensures forall r :: r in Rendered(rows, cap) ==> r.severity == high.severity
  {
    var instances := [high, low];
    NameRanks(high, F.High);
    NameRanks(medium, F.Medium);
    NameRanks(low, F.Low);
    assert rows == With(instances, 1, medium);
    GroupPushesOut(instances, 1, medium);
    GroupShownRestHidden(instances, 1, medium, 1);
    forall r | r in Rendered(rows, cap) ensures r.severity == high.severity {
      ExpandedFrom(MakeGroup(instances), r);
    }
  }

  /* Which entries of one severity stay. */

  lemma SizeOfGroup(instances: seq<Row>)
    requires instances != []
    ensures Size(MakeGroup(instances)) == |instances| && MakeGroup(instances).row == instances[0]
  {
  }

  lemma KeptOverDropped<X>(xs: seq<X>, cap: nat, key: X -> SortKey, kept: X, dropped: X)
    requires kept in Capped(xs, cap, key) && dropped in xs && dropped !in Capped(xs, cap, key)
    ensures !Below(key(kept), key(dropped))
  {
    var rest := CapDropsLeastSevere(xs, cap, key);
    InOneOf(xs, Capped(xs, cap, key), rest, dropped);
  }

  /** Among groups of one severity, the first cap keeps those with more findings. */
  lemma CapPrefersLargerGroups(rows: seq<Row>, cap: nat, kept: GroupKey, dropped: GroupKey)
    requires Reportable(rows) && Instances(rows, kept) != [] && Instances(rows, dropped) != []
    requires MakeGroup(Instances(rows, kept)) in Kept(rows, cap)
    requires MakeGroup(Instances(rows, dropped)) in Collapse(rows)
    requires MakeGroup(Instances(rows, dropped)) !in Kept(rows, cap)
    requires Rank(Instances(rows, kept)[0]) == Rank(Instances(rows, dropped)[0])
    ensures |Instances(rows, dropped)| <= |Instances(rows, kept)|
  {
    KeptOverDropped(Collapse(rows), cap, GroupOrder, MakeGroup(Instances(rows, kept)),
        MakeGroup(Instances(rows, dropped)));
    FirstReadsAlike(rows, kept);
    FirstReadsAlike(rows, dropped);
    LargerFirst(Instances(rows, kept), Instances(rows, dropped));
  }

  lemma LargerFirst(kept: seq<Row>, dropped: seq<Row>)
    requires kept != [] && dropped != [] && !Below(GroupOrder(MakeGroup(kept)), GroupOrder(MakeGroup(dropped)))
    requires ReportSeverity(kept[0].severity).Rank() == ReportSeverity(dropped[0].severity).Rank()
    ensures |dropped| <= |kept|
  {
    SizeOfGroup(kept);
    SizeOfGroup(dropped);
  }

  lemma FirstReadsAlike(rows: seq<Row>, key: GroupKey)
    requires Reportable(rows) && Instances(rows, key) != []
    ensures var first := Instances(rows, key)[0]; ReportSeverity(first.severity).Rank() == Rank(first)
  {
    var at := InstancesFrom(rows, key);
  }

  /** Among rows of one severity, the second cap keeps those with the higher scores. */
  lemma CapPrefersHigherScores(rows: seq<Row>, cap: nat, kept: Row, dropped: Row)
    requires kept in Rendered(rows, cap) && dropped in ExpandAll(Kept(rows, cap)) && dropped !in Rendered(rows, cap)
    requires kept.severity == dropped.severity && kept.cvss.Some? && dropped.cvss.Some?
    ensures dropped.cvss.value <= kept.cvss.value
  {
    KeptOverDropped(ExpandAll(Kept(rows, cap)), cap, RowOrder, kept, dropped);
    HigherFirst(kept, dropped);
  }

  lemma HigherFirst(kept: Row, dropped: Row)
    requires !Below(RowOrder(kept), RowOrder(dropped))
    requires kept.severity == dropped.severity && kept.cvss.Some? && dropped.cvss.Some?
    ensures dropped.cvss.value <= kept.cvss.value
  {
  }
}
