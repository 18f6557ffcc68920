/** How the report collapses findings into groups, caps the groups, expands
    them back into one row per URL and caps the rows.
 */
module Reporting {
  import opened Wrappers
  import opened Sorting
  import F = Findings
  import T = Text
  import S = Scoring

  type Row = S.Row

  type GroupKey = (string, string)

  /** A finding alone of its (type, tool), or the first of several with what
      differs between them. `urlEvidence` is empty unless evidence varies;
      `evidence` is empty if it does. */
  datatype Group =
    | Single(row: Row)
    | Collapsed(row: Row, count: nat, urls: seq<string>, urlEvidence: map<string, string>, evidence: string)

  function KeyOf(r: Row): GroupKey {
    (r.kind, r.tool)
  }

  function Instances(rows: seq<Row>, key: GroupKey): seq<Row> {
    if rows == [] then []
    else Instances(rows[..|rows| - 1], key) + (if KeyOf(rows[|rows| - 1]) == key then [rows[|rows| - 1]] else [])
  }

  /** The group keys in the order of their first finding. */
  function GroupKeys(rows: seq<Row>): seq<GroupKey> {
    if rows == [] then []
    else
      var before, key := GroupKeys(rows[..|rows| - 1]), KeyOf(rows[|rows| - 1]);
      if key in before then before else before + [key]
  }

  function AffectedUrls(instances: seq<Row>): seq<string> {
    if instances == [] then []
    else
      var before, url := AffectedUrls(instances[..|instances| - 1]), instances[|instances| - 1].url;
      if url in before then before else before + [url]
  }

  function UrlEvidence(instances: seq<Row>): map<string, string> {
    if instances == [] then map[]
    else
      var before, last := UrlEvidence(instances[..|instances| - 1]), instances[|instances| - 1];
      if last.evidence != "" then before[last.url := last.evidence] else before
  }

  predicate Varies(instances: seq<Row>) {
    && instances != []
    && exists i ::
         0 <= i < |instances| && instances[i].evidence != "" && instances[i].evidence != instances[0].evidence
  }

  function MakeGroup(instances: seq<Row>): Group
    requires instances != []
  {
    if |instances| == 1 then Single(instances[0])
    else Collapsed(instances[0], |instances|, AffectedUrls(instances),
                   if Varies(instances) then UrlEvidence(instances) else map[],
                   if Varies(instances) then "" else instances[0].evidence)
  }

  function GroupsFor(rows: seq<Row>, keys: seq<GroupKey>): seq<Group>
    requires forall i :: 0 <= i < |keys| ==> Instances(rows, keys[i]) != []
  {
    if keys == [] then []
    else GroupsFor(rows, keys[..|keys| - 1]) + [MakeGroup(Instances(rows, keys[|keys| - 1]))]
  }

  lemma {:induction false} KeysHaveInstances(rows: seq<Row>)
    ensures forall i :: 0 <= i < |GroupKeys(rows)| ==> Instances(rows, GroupKeys(rows)[i]) != []
    ensures forall i, j :: 0 <= i < j < |GroupKeys(rows)| ==> GroupKeys(rows)[i] != GroupKeys(rows)[j]
    ensures forall key :: key !in GroupKeys(rows) ==> Instances(rows, key) == []
  {
    if rows != [] {
      KeysHaveInstances(rows[..|rows| - 1]);
    }
  }

  function Collapse(rows: seq<Row>): seq<Group> {
    KeysHaveInstances(rows);
    GroupsFor(rows, GroupKeys(rows))
  }

  /** The inner loop: one pass over the findings of a group. */
  method CollapseGroup(instances: seq<Row>) returns (group: Group)
    requires instances != []
    ensures group == MakeGroup(instances)
  {
    if |instances| == 1 {
      return Single(instances[0]);
    }
    var urls: seq<string>, urlEvidence: map<string, string>, varying := [], map[], false;
    for i := 0 to |instances|
      invariant urls == AffectedUrls(instances[..i])
      invariant urlEvidence == UrlEvidence(instances[..i])
      invariant varying <==>
                exists k :: 0 <= k < i && instances[k].evidence != "" && instances[k].evidence != instances[0].evidence
    {
      var inst := instances[i];
      assert instances[..i + 1][..i] == instances[..i];
      if inst.url !in urls {
        urls := urls + [inst.url];
      }
      if inst.evidence != "" {
        urlEvidence := urlEvidence[inst.url := inst.evidence];
        if inst.evidence != instances[0].evidence {
          varying := true;
        }
      }
    }
    assert instances[..|instances|] == instances;
    group := Collapsed(instances[0], |instances|, urls,
                       if varying then urlEvidence else map[], if varying then "" else instances[0].evidence);
  }

  /** The grouping loop: a dict of lists, whose insertion order is `order`. */
  method GroupByTypeAndTool(rows: seq<Row>) returns (order: seq<GroupKey>, lists: map<GroupKey, seq<Row>>)
    ensures order == GroupKeys(rows)
    ensures forall key :: key in lists <==> key in order
    ensures forall key :: key in lists ==> lists[key] == Instances(rows, key)
  {
    order, lists := [], map[];
    for i := 0 to |rows|
      invariant order == GroupKeys(rows[..i])
      invariant forall key :: key in lists <==> key in order
      invariant forall key :: key in lists ==> lists[key] == Instances(rows[..i], key)
    {
      var key := KeyOf(rows[i]);
      assert rows[..i + 1][..i] == rows[..i];
      KeysHaveInstances(rows[..i]);
      if key !in lists {
        order := order + [key];
        lists := lists[key := []];
      }
      lists := lists[key := lists[key] + [rows[i]]];
    }
    assert rows[..|rows|] == rows;
  }

  /** One collapsed entry per (type, tool), in the order of first occurrence. */
  method DeduplicateFindings(rows: seq<Row>) returns (groups: seq<Group>)
    ensures groups == Collapse(rows)
  {
    var order, lists := GroupByTypeAndTool(rows);
    KeysHaveInstances(rows);
    groups := [];
    for i := 0 to |order|
      invariant groups == GroupsFor(rows, order[..i])
    {
      assert order[..i + 1][..i] == order[..i];
      var group := CollapseGroup(lists[order[i]]);
      groups := groups + [group];
    }
    assert order[..|order|] == order;
  }

  /* Expansion. */

  function EvidenceFor(urlEvidence: map<string, string>, url: string, shared: string): string {
    if url in urlEvidence then urlEvidence[url] else shared
  }

  /** One row per affected URL; all of them carry the first finding's fields. */
  function ExpandUrls(r: Row, urls: seq<string>, urlEvidence: map<string, string>, shared: string): seq<Row> {
    seq(|urls|, i requires 0 <= i < |urls| => r.(url := urls[i], evidence := EvidenceFor(urlEvidence, urls[i], shared)))
  }

  function Expand(g: Group): seq<Row> {
    match g
    case Single(r) => [r]
    case Collapsed(r, _, urls, urlEvidence, shared) => ExpandUrls(r, urls, urlEvidence, shared)
  }

  function ExpandAll(groups: seq<Group>): seq<Row> {
    if groups == [] then [] else ExpandAll(groups[..|groups| - 1]) + Expand(groups[|groups| - 1])
  }

  method ExpandGroups(groups: seq<Group>) returns (rows: seq<Row>)
    ensures rows == ExpandAll(groups)
  {
    rows := [];
    for g := 0 to |groups|
      invariant rows == ExpandAll(groups[..g])
    {
      assert groups[..g + 1][..g] == groups[..g];
      ghost var before := rows;
      match groups[g] {
        case Single(r) =>
          rows := rows + [r];
        case Collapsed(r, _, urls, urlEvidence, shared) =>
          for u := 0 to |urls|
            invariant rows == before + ExpandUrls(r, urls, urlEvidence, shared)[..u]
          {
            rows := rows + [r.(url := urls[u], evidence := EvidenceFor(urlEvidence, urls[u], shared))];
          }
      }
    }
    assert groups[..|groups|] == groups;
  }

  /* Caps. */

  /** The report's own normalisation knows fewer spellings than scoring's. */
  function ReportSeverity(raw: string): F.Severity {
    var s := T.Lower(T.Strip(raw));
    if s == "critical" then F.Critical
    else if s == "high" then F.High
    else if s == "medium" then F.Medium
    else if s == "low" then F.Low
    else F.Info
  }

  /** Python's `xs[:n]`, where a negative `n` counts from the end. */
  function Prefix<X>(xs: seq<X>, n: int): seq<X> {
    if n >= |xs| then xs
    else if n >= 0 then xs[..n]
    else if |xs| + n >= 0 then xs[..|xs| + n]
    else []
  }

  function Capped<X>(xs: seq<X>, cap: int, key: X -> SortKey): seq<X> {
    if |xs| <= cap then xs else Prefix(SortDescending(xs, key), cap)
  }

  function Size(g: Group): nat {
    if g.Single? then 1 else g.count
  }

  function GroupOrder(g: Group): SortKey {
    (ReportSeverity(g.row.severity).Rank(), Size(g) as real)
  }

  function RowOrder(r: Row): SortKey {
    (ReportSeverity(r.severity).Rank(), if r.cvss.Some? then r.cvss.value else 0.0)
  }

  /** The groups and the rows of the report. */
  method RunReporting(rows: seq<Row>, maxFindings: int) returns (groups: seq<Group>, rendered: seq<Row>)
    ensures groups == Capped(Collapse(rows), maxFindings, GroupOrder)
    ensures rendered == Capped(ExpandAll(groups), maxFindings, RowOrder)
  {
    var all := DeduplicateFindings(rows);
    groups := Capped(all, maxFindings, GroupOrder);
    var expanded := ExpandGroups(groups);
    rendered := Capped(expanded, maxFindings, RowOrder);
  }
}
