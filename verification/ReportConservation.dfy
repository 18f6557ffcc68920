/** What the report keeps: collapsing and expanding loses no finding and no
    evidence, and each cap drops the least severe of its own entries only. The
    entries behind the second cap carry their group's severity;
    `ShownSeverity` says what that means for the findings.
 */
module ReportConservation {
  import opened Sorting
  import opened Reporting

  /** What identifies a finding in the report. */
  type Place = (string, string, string)

  function PlaceOf(r: Row): Place {
    (r.kind, r.tool, r.url)
  }

  function Places(rows: seq<Row>): seq<Place> {
    seq(|rows|, i requires 0 <= i < |rows| => PlaceOf(rows[i]))
  }

  /** No two rows share URL and type, which deduplication guarantees. */
  ghost predicate UniqueRows(rows: seq<Row>) {
    forall i, j :: 0 <= i < j < |rows| ==> !(rows[i].url == rows[j].url && rows[i].kind == rows[j].kind)
  }

  ghost predicate DistinctUrls(rows: seq<Row>) {
    forall i, j :: 0 <= i < j < |rows| ==> rows[i].url != rows[j].url
  }

  ghost predicate OneGroup(rows: seq<Row>) {
    forall i :: 0 <= i < |rows| ==> KeyOf(rows[i]) == KeyOf(rows[0])
  }

  /** The rows of a group, listed group by group. */
  function Regrouped(rows: seq<Row>, keys: seq<GroupKey>): seq<Row> {
    if keys == [] then [] else Regrouped(rows, keys[..|keys| - 1]) + Instances(rows, keys[|keys| - 1])
  }

  /* Instances of one key. */

  /** The instances are rows of the list, in the list's order. */
  lemma {:induction false} InstancesFrom(rows: seq<Row>, key: GroupKey) returns (at: seq<nat>)
    ensures |at| == |Instances(rows, key)|
    ensures forall i :: 0 <= i < |at| ==>
              at[i] < |rows| && Instances(rows, key)[i] == rows[at[i]] && KeyOf(rows[at[i]]) == key
    ensures forall i, j :: 0 <= i < j < |at| ==> at[i] < at[j]
  {
    if rows == [] {
      at := [];
    } else {
      at := InstancesFrom(rows[..|rows| - 1], key);
      if KeyOf(rows[|rows| - 1]) == key {
        at := at + [|rows| - 1];
      }
    }
  }

  lemma InstancesHaveDistinctUrls(rows: seq<Row>, key: GroupKey)
    requires UniqueRows(rows)
    ensures DistinctUrls(Instances(rows, key)) && OneGroup(Instances(rows, key))
    ensures forall i :: 0 <= i < |Instances(rows, key)| ==> KeyOf(Instances(rows, key)[i]) == key
  {
    var at := InstancesFrom(rows, key);
    var insts := Instances(rows, key);
    forall i, j | 0 <= i < j < |insts| ensures insts[i].url != insts[j].url {
      assert at[i] < at[j];
    }
  }

  lemma {:induction false} AllUrlsListed(instances: seq<Row>)
    requires DistinctUrls(instances)
    ensures |AffectedUrls(instances)| == |instances|
    ensures forall i :: 0 <= i < |instances| ==> AffectedUrls(instances)[i] == instances[i].url
  {
    if instances != [] {
      var before := instances[..|instances| - 1];
      AllUrlsListed(before);
      assert forall u :: u in AffectedUrls(before) ==> exists i :: 0 <= i < |before| && instances[i].url == u;
    }
  }

  lemma {:induction false} UrlEvidenceIsOwn(instances: seq<Row>, i: nat)
    requires DistinctUrls(instances) && i < |instances|
    ensures var url := instances[i].url;
            && (url in UrlEvidence(instances) <==> instances[i].evidence != "")
            && (url in UrlEvidence(instances) ==> UrlEvidence(instances)[url] == instances[i].evidence)
  {
    var before := instances[..|instances| - 1];
    if i < |instances| - 1 {
      assert DistinctUrls(before) && before[i] == instances[i];
      UrlEvidenceIsOwn(before, i);
    } else {
      UrlNotYetThere(before, instances[i].url);
    }
  }

  lemma {:induction false} UrlNotYetThere(instances: seq<Row>, url: string)
    requires forall i :: 0 <= i < |instances| ==> instances[i].url != url
    ensures url !in UrlEvidence(instances)
  {
    if instances != [] {
      UrlNotYetThere(instances[..|instances| - 1], url);
    }
  }

  /** A group expands to one row per instance, in order and in place. A row has
      its instance's own evidence except where an instance without evidence
      takes over the evidence that all the others share, and its own severity
      exactly if that is the first instance's. */
  lemma ExpandRestores(instances: seq<Row>, i: nat)
    requires DistinctUrls(instances) && OneGroup(instances) && i < |instances|
    ensures |Expand(MakeGroup(instances))| == |instances|
    ensures PlaceOf(Expand(MakeGroup(instances))[i]) == PlaceOf(instances[i])
    ensures Expand(MakeGroup(instances))[i].evidence == instances[i].evidence
       <==> instances[i].evidence != "" || instances[0].evidence == "" || |instances| == 1 || Varies(instances)
    ensures Expand(MakeGroup(instances))[i].severity == instances[i].severity
       <==> instances[i].severity == instances[0].severity
  {
    if |instances| > 1 {
      AllUrlsListed(instances);
      UrlEvidenceIsOwn(instances, i);
      assert KeyOf(instances[i]) == KeyOf(instances[0]);
    }
  }

  lemma ExpandKeepsPlaces(instances: seq<Row>)
    requires instances != [] && DistinctUrls(instances) && OneGroup(instances)
    ensures Places(Expand(MakeGroup(instances))) == Places(instances)
  {
    forall i | 0 <= i < |instances|
      ensures |Expand(MakeGroup(instances))| == |instances|
              && PlaceOf(Expand(MakeGroup(instances))[i]) == PlaceOf(instances[i])
    {
      ExpandRestores(instances, i);
    }
    ExpandRestores(instances, 0);
  }

  /* All groups together. */

  lemma PlacesConcatenate(a: seq<Row>, b: seq<Row>)
    ensures Places(a + b) == Places(a) + Places(b)
  {
  }

  lemma {:induction false} ExpandAllRegroups(rows: seq<Row>, keys: seq<GroupKey>)
    requires UniqueRows(rows)
    requires forall i :: 0 <= i < |keys| ==> Instances(rows, keys[i]) != []
    ensures Places(ExpandAll(GroupsFor(rows, keys))) == Places(Regrouped(rows, keys))
  {
    if keys != [] {
      var front, key := keys[..|keys| - 1], keys[|keys| - 1];
      ExpandAllRegroups(rows, front);
      InstancesHaveDistinctUrls(rows, key);
      ExpandKeepsPlaces(Instances(rows, key));
      PlacesConcatenate(ExpandAll(GroupsFor(rows, front)), Expand(MakeGroup(Instances(rows, key))));
      PlacesConcatenate(Regrouped(rows, front), Instances(rows, key));
      assert GroupsFor(rows, keys)[..|keys| - 1] == GroupsFor(rows, front) by {
        GroupsForLength(rows, front);
      }
      GroupsForLength(rows, keys);
    }
  }

  lemma {:induction false} GroupsForLength(rows: seq<Row>, keys: seq<GroupKey>)
    requires forall i :: 0 <= i < |keys| ==> Instances(rows, keys[i]) != []
    ensures |GroupsFor(rows, keys)| == |keys|
    ensures forall i :: 0 <= i < |keys| ==> GroupsFor(rows, keys)[i] == MakeGroup(Instances(rows, keys[i]))
  {
    if keys != [] {
      var n := |keys| - 1;
      var front, groups := keys[..n], GroupsFor(rows, keys[..n]);
      assert forall i :: 0 <= i < n ==> front[i] == keys[i];
      GroupsForLength(rows, front);
      assert GroupsFor(rows, keys) == groups + [MakeGroup(Instances(rows, keys[n]))];
      forall i | 0 <= i < n ensures groups[i] == MakeGroup(Instances(rows, keys[i])) {
        assert front[i] == keys[i];
      }
    }
  }

  ghost predicate DistinctKeys(keys: seq<GroupKey>) {
    forall i, j :: 0 <= i < j < |keys| ==> keys[i] != keys[j]
  }

  /** One more row shows up once in the regrouped list, in its own group. */
  lemma {:induction false} RegroupOneMore(rows: seq<Row>, r: Row, keys: seq<GroupKey>)
    requires DistinctKeys(keys)
    ensures multiset(Regrouped(rows + [r], keys))
         == multiset(Regrouped(rows, keys)) + (if KeyOf(r) in keys then multiset{r} else multiset{})
  {
    if keys != [] {
      var front, key := keys[..|keys| - 1], keys[|keys| - 1];
      RegroupOneMore(rows, r, front);
      assert KeyOf(r) in keys <==> KeyOf(r) in front || KeyOf(r) == key;
      assert key !in front;
      InstancesOneMore(rows, r, key);
    }
  }

  lemma InstancesOneMore(rows: seq<Row>, r: Row, key: GroupKey)
    ensures Instances(rows + [r], key) == Instances(rows, key) + (if KeyOf(r) == key then [r] else [])
  {
    assert (rows + [r])[..|rows|] == rows;
  }

  lemma {:induction false} RegroupNone(keys: seq<GroupKey>)
    ensures Regrouped([], keys) == []
  {
    if keys != [] {
      RegroupNone(keys[..|keys| - 1]);
    }
  }

  lemma {:induction false} RegroupPermutes(rows: seq<Row>, keys: seq<GroupKey>)
    requires DistinctKeys(keys) && forall i :: 0 <= i < |rows| ==> KeyOf(rows[i]) in keys
    ensures multiset(Regrouped(rows, keys)) == multiset(rows)
  {
    if rows == [] {
      RegroupNone(keys);
    } else {
      var before, last := rows[..|rows| - 1], rows[|rows| - 1];
      RegroupPermutes(before, keys);
      RegroupOneMore(before, last, keys);
      assert rows == before + [last];
    }
  }

  lemma {:induction false} EveryKeyListed(rows: seq<Row>)
    ensures forall i :: 0 <= i < |rows| ==> KeyOf(rows[i]) in GroupKeys(rows)
  {
    if rows != [] {
      EveryKeyListed(rows[..|rows| - 1]);
    }
  }

  lemma {:induction false} PlacesPermute(a: seq<Row>, b: seq<Row>)
    requires multiset(a) == multiset(b)
    ensures multiset(Places(a)) == multiset(Places(b))
  {
    PermutationsHaveOneLength(a, b);
    if a != [] {
      var front, last := a[..|a| - 1], a[|a| - 1];
      var left, right := TakeOutLast(a, b);
      PlacesPermute(front, left + right);
      PlacesInsert(front, last, []);
      PlacesInsert(left, last, right);
      assert a == front + [last] + [] && front + [] == front;
    }
  }

  lemma PlacesInsert(front: seq<Row>, r: Row, back: seq<Row>)
    ensures multiset(Places(front + [r] + back)) == multiset(Places(front + back)) + multiset{PlaceOf(r)}
  {
    assert Places(front + [r] + back) == Places(front) + [PlaceOf(r)] + Places(back);
    assert Places(front + back) == Places(front) + Places(back);
  }

  /** Collapsing and expanding gives back exactly one row for the type, tool and
      URL of every finding, and no other row. */
  lemma CollapseExpandConserves(rows: seq<Row>)
    requires UniqueRows(rows)
    ensures multiset(Places(ExpandAll(Collapse(rows)))) == multiset(Places(rows))
    ensures |ExpandAll(Collapse(rows))| == |rows|
  {
    KeysHaveInstances(rows);
    EveryKeyListed(rows);
    ExpandAllRegroups(rows, GroupKeys(rows));
    RegroupPermutes(rows, GroupKeys(rows));
    PlacesPermute(Regrouped(rows, GroupKeys(rows)), rows);
    assert |multiset(Places(ExpandAll(Collapse(rows))))| == |multiset(Places(rows))|;
  }

  function TotalSize(groups: seq<Group>): nat {
    if groups == [] then 0 else TotalSize(groups[..|groups| - 1]) + Size(groups[|groups| - 1])
  }

  lemma {:induction false} SizesMatchRegrouped(rows: seq<Row>, keys: seq<GroupKey>)
    requires forall i :: 0 <= i < |keys| ==> Instances(rows, keys[i]) != []
    ensures TotalSize(GroupsFor(rows, keys)) == |Regrouped(rows, keys)|
  {
    if keys != [] {
      SizesMatchRegrouped(rows, keys[..|keys| - 1]);
    }
  }

  /** The instance counts of the groups add up to the number of findings. */
  lemma SizesAddUp(rows: seq<Row>)
    ensures TotalSize(Collapse(rows)) == |rows|
  {
    KeysHaveInstances(rows);
    EveryKeyListed(rows);
    SizesMatchRegrouped(rows, GroupKeys(rows));
    RegroupPermutes(rows, GroupKeys(rows));
    assert |multiset(Regrouped(rows, GroupKeys(rows)))| == |multiset(rows)|;
  }

  lemma {:induction false} ExpandAllHas(groups: seq<Group>, g: nat, r: Row)
    requires g < |groups| && r in Expand(groups[g])
    ensures r in ExpandAll(groups)
  {
    if g < |groups| - 1 {
      ExpandAllHas(groups[..|groups| - 1], g, r);
    }
  }

  lemma {:induction false} InstancesHave(rows: seq<Row>, n: nat) returns (i: nat)
    requires n < |rows|
    ensures i < |Instances(rows, KeyOf(rows[n]))| && Instances(rows, KeyOf(rows[n]))[i] == rows[n]
  {
    if n == |rows| - 1 {
      i := |Instances(rows[..n], KeyOf(rows[n]))|;
    } else {
      i := InstancesHave(rows[..|rows| - 1], n);
    }
  }

  /** Every finding that had evidence gets its own evidence back, in its own
      place. */
  lemma EvidenceComesBack(rows: seq<Row>, n: nat) returns (r: Row)
    requires UniqueRows(rows) && n < |rows| && rows[n].evidence != ""
    ensures r in ExpandAll(Collapse(rows)) && PlaceOf(r) == PlaceOf(rows[n]) && r.evidence == rows[n].evidence
  {
    var key := KeyOf(rows[n]);
    var insts := Instances(rows, key);
    var i := InstancesHave(rows, n);
    InstancesHaveDistinctUrls(rows, key);
    ExpandRestores(insts, i);
    r := Expand(MakeGroup(insts))[i];
    KeysHaveInstances(rows);
    EveryKeyListed(rows);
    GroupsForLength(rows, GroupKeys(rows));
    var g :| 0 <= g < |GroupKeys(rows)| && GroupKeys(rows)[g] == key;
    ExpandAllHas(Collapse(rows), g, r);
  }

  /* The caps. */

  lemma DescendingPrefix<X>(xs: seq<X>, key: X -> SortKey, n: nat)
    requires Descending(xs, key) && n <= |xs|
    ensures forall kept, dropped :: kept in xs[..n] && dropped in xs[n..] ==>
              key(dropped).0 <= key(kept).0 && !Below(key(kept), key(dropped))
  {
  }

  /** A cap keeps as many entries as it allows, and nothing it drops outranks
      anything it keeps, by severity or, within one, by its number. */
  lemma CapDropsLeastSevere<X>(xs: seq<X>, cap: nat, key: X -> SortKey) returns (dropped: seq<X>)
    ensures var kept := Capped(xs, cap, key);
            && |kept| == (if |xs| <= cap then |xs| else cap)
            && multiset(kept) + multiset(dropped) == multiset(xs)
            && forall k, d :: k in kept && d in dropped ==> key(d).0 <= key(k).0 && !Below(key(k), key(d))
  {
    if |xs| <= cap {
      return [];
    }
    var sorted := SortDescending(xs, key);
    SortPermutes(xs, key);
    SortDescends(xs, key);
    DescendingPrefix(sorted, key, cap);
    dropped := sorted[cap..];
    assert sorted == sorted[..cap] + sorted[cap..];
  }

  /** Collapsing first means the cap on groups can only drop a (type, tool) as a
      whole: below the cap, the report shows every finding. */
  lemma ReportShowsEverythingBelowCap(rows: seq<Row>, cap: nat)
    requires UniqueRows(rows) && |rows| <= cap
    ensures var groups := Capped(Collapse(rows), cap, GroupOrder);
            && groups == Collapse(rows)
            && multiset(Places(Capped(ExpandAll(groups), cap, RowOrder))) == multiset(Places(rows))
  {
    CollapseExpandConserves(rows);
    GroupsNoMoreThanRows(rows);
  }

  lemma {:induction false} GroupsNoMoreThanRows(rows: seq<Row>)
    ensures |Collapse(rows)| == |GroupKeys(rows)| <= |rows|
  {
    KeysHaveInstances(rows);
    GroupsForLength(rows, GroupKeys(rows));
    if rows != [] {
      GroupsNoMoreThanRows(rows[..|rows| - 1]);
    }
  }

  /** A negative cap takes so many entries off the end of the sorted list instead, all of
      them if there are no more. */
  lemma NegativeCapTakesOff<X>(xs: seq<X>, cap: int, key: X -> SortKey)
    requires cap < 0
    ensures var sorted := SortDescending(xs, key);
            && |sorted| == |xs|
            && Capped(xs, cap, key) == if |xs| + cap <= 0 then [] else sorted[..|xs| + cap]
  {
    SortPermutes(xs, key);
  }
}
