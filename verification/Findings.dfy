/** Findings as the tools report them, and their deduplication by (url, type).
 */
module Findings {
  import opened Wrappers

  datatype Severity = Info | Low | Medium | High | Critical {
    /** Position in the order from least to most severe. */
    function Rank(): nat {
      match this
      case Info => 0
      case Low => 1
      case Medium => 2
      case High => 3
      case Critical => 4
    }
  }

  type Key = (string, string)

  /** `scores` are the CVSS numbers found in the tool's raw data, if any. */
  datatype Finding = Finding(
    tool: string,
    kind: string,
    url: string,
    severity: Severity,
    evidence: string,
    confidence: real,
    scores: seq<Option<real>>)
  {
    function Key(): Key {
      (url, kind)
    }
  }

  function Keys(findings: seq<Finding>): seq<Key> {
    seq(|findings|, i requires 0 <= i < |findings| => findings[i].Key())
  }

  function Position(keys: seq<Key>, key: Key): (at: Option<nat>)
    ensures at.Some? ==> at.value < |keys| && keys[at.value] == key
    ensures at.None? ==> key !in keys
  {
    if keys == [] then None
    else if keys[0] == key then Some(0)
    else
      var rest := Position(keys[1..], key);
      if rest.Some? then Some(rest.value + 1) else None
  }

  ghost predicate Distinct(keys: seq<Key>) {
    forall i, j :: 0 <= i < j < |keys| ==> keys[i] != keys[j]
  }

  /** The survivors after one more finding: a new key goes to the end, a known
      key keeps its place and takes the finding only if it is more severe. */
  function Keep(kept: seq<Finding>, f: Finding): seq<Finding> {
    var at := Position(Keys(kept), f.Key());
    if at.None? then kept + [f]
    else if f.severity.Rank() > kept[at.value].severity.Rank() then kept[at.value := f]
    else kept
  }

  function KeepAll(kept: seq<Finding>, findings: seq<Finding>): seq<Finding> {
    if findings == [] then kept
    else Keep(KeepAll(kept, findings[..|findings| - 1]), findings[|findings| - 1])
  }

  function Dedup(findings: seq<Finding>): seq<Finding> {
    KeepAll([], findings)
  }

  /** The loop over a dict of the best finding per key; `order` is the dict's
      insertion order. */
  method DeduplicateFindings(findings: seq<Finding>) returns (unique: seq<Finding>)
    ensures unique == Dedup(findings)
  {
    var order: seq<Key> := [];
    var seen: map<Key, Finding> := map[];
    for n := 0 to |findings|
      invariant Tracked(order, seen)
      invariant Listed(order, seen) == Dedup(findings[..n])
    {
      assert findings[..n + 1][..n] == findings[..n];
      var f := findings[n];
      var key := f.Key();
      if key !in seen {
        ListedAdds(order, seen, f);
        order := order + [key];
        seen := seen[key := f];
      } else if f.severity.Rank() > seen[key].severity.Rank() {
        ListedReplaces(order, seen, f);
        seen := seen[key := f];
      } else {
        ListedStays(order, seen, f);
      }
    }
    assert findings[..|findings|] == findings;
    unique := Listed(order, seen);
  }

  function Listed(order: seq<Key>, seen: map<Key, Finding>): seq<Finding>
    requires forall i :: 0 <= i < |order| ==> order[i] in seen
  {
    seq(|order|, i requires 0 <= i < |order| => seen[order[i]])
  }

  /** The dict holds a finding of each key, under that key. */
  ghost predicate Tracked(order: seq<Key>, seen: map<Key, Finding>) {
    && Distinct(order)
    && (forall i :: 0 <= i < |order| ==> order[i] in seen)
    && (forall key :: key in seen ==> key in order && seen[key].Key() == key)
  }

  lemma ListedKeys(order: seq<Key>, seen: map<Key, Finding>)
    requires Tracked(order, seen)
    ensures Keys(Listed(order, seen)) == order
  {
  }

  lemma ListedAdds(order: seq<Key>, seen: map<Key, Finding>, f: Finding)
    requires Tracked(order, seen) && f.Key() !in seen
    ensures var (order', seen') := (order + [f.Key()], seen[f.Key() := f]);
            Tracked(order', seen') && Listed(order', seen') == Keep(Listed(order, seen), f)
  {
    ListedKeys(order, seen);
    assert f.Key() !in order;
  }

  lemma ListedReplaces(order: seq<Key>, seen: map<Key, Finding>, f: Finding)
    requires Tracked(order, seen) && f.Key() in seen && f.severity.Rank() > seen[f.Key()].severity.Rank()
    ensures Tracked(order, seen[f.Key() := f]) && Listed(order, seen[f.Key() := f]) == Keep(Listed(order, seen), f)
  {
    ListedKeys(order, seen);
    var at := Position(order, f.Key()).value;
    assert Listed(order, seen[f.Key() := f]) == Listed(order, seen)[at := f];
  }

  lemma ListedStays(order: seq<Key>, seen: map<Key, Finding>, f: Finding)
    requires Tracked(order, seen) && f.Key() in seen && f.severity.Rank() <= seen[f.Key()].severity.Rank()
    ensures Keep(Listed(order, seen), f) == Listed(order, seen)
  {
    ListedKeys(order, seen);
  }

  /* What the survivors are. */

  /** The keys in the order of their first occurrence. */
  function FirstKeys(findings: seq<Finding>): seq<Key> {
    if findings == [] then []
    else
      var before, key := FirstKeys(findings[..|findings| - 1]), findings[|findings| - 1].Key();
      if key in before then before else before + [key]
  }

  /** `i` is the earliest of the most severe findings of its key. */
  ghost predicate Best(findings: seq<Finding>, i: nat) {
    && i < |findings|
    && forall j :: 0 <= j < |findings| && findings[j].Key() == findings[i].Key() ==>
         && findings[j].severity.Rank() <= findings[i].severity.Rank()
         && (j < i ==> findings[j].severity.Rank() < findings[i].severity.Rank())
  }

  lemma KeepKeys(kept: seq<Finding>, f: Finding)
    ensures Keys(Keep(kept, f)) == (if f.Key() in Keys(kept) then Keys(kept) else Keys(kept) + [f.Key()])
  {
    var at := Position(Keys(kept), f.Key());
    if at.None? {
      assert Keys(kept + [f]) == Keys(kept) + [f.Key()];
    } else {
      assert Keys(kept)[at.value] == f.Key();
      assert Keys(kept[at.value := f]) == Keys(kept);
    }
  }

  lemma {:induction false} DedupHasFirstKeys(findings: seq<Finding>)
    ensures Keys(Dedup(findings)) == FirstKeys(findings)
  {
    if findings != [] {
      var before := findings[..|findings| - 1];
      DedupHasFirstKeys(before);
      KeepKeys(Dedup(before), findings[|findings| - 1]);
    }
  }

  lemma {:induction false} FirstKeysAreDistinct(findings: seq<Finding>)
    ensures Distinct(FirstKeys(findings))
  {
    if findings != [] {
      FirstKeysAreDistinct(findings[..|findings| - 1]);
    }
  }

  lemma {:induction false} FirstKeysMissNone(findings: seq<Finding>, i: nat)
    requires i < |findings|
    ensures findings[i].Key() in FirstKeys(findings)
  {
    var before := findings[..|findings| - 1];
    if i < |before| {
      FirstKeysMissNone(before, i);
      assert before[i] == findings[i];
    }
  }

  /** The survivors have one finding for every key, in the order of the keys'
      first occurrence. */
  lemma DedupKeys(findings: seq<Finding>)
    ensures Keys(Dedup(findings)) == FirstKeys(findings)
    ensures Distinct(FirstKeys(findings))
    ensures forall i :: 0 <= i < |findings| ==> findings[i].Key() in FirstKeys(findings)
  {
    DedupHasFirstKeys(findings);
    FirstKeysAreDistinct(findings);
    forall i | 0 <= i < |findings| ensures findings[i].Key() in FirstKeys(findings) {
      FirstKeysMissNone(findings, i);
    }
  }

  lemma BestRemains(before: seq<Finding>, f: Finding, i: nat)
    requires Best(before, i)
    requires f.Key() == before[i].Key() ==> f.severity.Rank() <= before[i].severity.Rank()
    ensures Best(before + [f], i)
  {
  }

  lemma NewIsBest(before: seq<Finding>, f: Finding)
    requires forall j :: 0 <= j < |before| && before[j].Key() == f.Key() ==>
              before[j].severity.Rank() < f.severity.Rank()
    ensures Best(before + [f], |before|)
  {
  }

  /** Every survivor is the earliest of the most severe findings of its key. */
  lemma {:induction false} SurvivorIsBest(findings: seq<Finding>, k: nat) returns (i: nat)
    requires k < |Dedup(findings)|
    ensures Best(findings, i) && Dedup(findings)[k] == findings[i]
  {
    var before, f := findings[..|findings| - 1], findings[|findings| - 1];
    var kept := Dedup(before);
    var at := Position(Keys(kept), f.Key());
    DedupKeys(before);
    assert before + [f] == findings;
    if k == |kept| {
      NewIsBest(before, f);
      return |before|;
    }
    i := SurvivorIsBest(before, k);
    if at == Some(k) && f.severity.Rank() > kept[k].severity.Rank() {
      NewIsBest(before, f);
      i := |before|;
    } else {
      assert kept[k].Key() == f.Key() && at.Some? ==> Keys(kept)[k] == Keys(kept)[at.value];
      assert Keys(kept)[k] == kept[k].Key();
      BestRemains(before, f, i);
    }
  }

  lemma BestIsUnique(findings: seq<Finding>, i: nat, j: nat)
    requires Best(findings, i) && Best(findings, j) && findings[i].Key() == findings[j].Key()
    ensures i == j
  {
  }

  ghost predicate AmongBest(findings: seq<Finding>, f: Finding) {
    exists i: nat :: Best(findings, i) && f == findings[i]
  }

  lemma OneBestPerKey(findings: seq<Finding>, f: Finding, g: Finding)
    requires AmongBest(findings, f) && AmongBest(findings, g) && f.Key() == g.Key()
    ensures f == g
  {
    var i: nat :| Best(findings, i) && f == findings[i];
    var j: nat :| Best(findings, j) && g == findings[j];
    BestIsUnique(findings, i, j);
  }

  /** The two properties leave no choice: any list with these keys and these
      survivors is the result. */
  lemma SurvivorsDetermineResult(findings: seq<Finding>, result: seq<Finding>)
    requires Keys(result) == FirstKeys(findings)
    requires forall k :: 0 <= k < |result| ==> AmongBest(findings, result[k])
    ensures result == Dedup(findings)
  {
    var deduped := Dedup(findings);
    DedupKeys(findings);
    assert |result| == |Keys(result)| == |Keys(deduped)| == |deduped|;
    forall k | 0 <= k < |result| ensures result[k] == deduped[k] {
      assert Keys(result)[k] == result[k].Key() && Keys(deduped)[k] == deduped[k].Key();
      var j := SurvivorIsBest(findings, k);
      OneBestPerKey(findings, result[k], deduped[k]);
    }
  }

  /* The same, told on URLs, types and severities. */

  const FROM_LEAST := [Info, Low, Medium, High, Critical]

  ghost predicate Graver(a: Severity, b: Severity) {
    exists i, j :: 0 <= i < j < |FROM_LEAST| && FROM_LEAST[i] == b && FROM_LEAST[j] == a
  }

  lemma SeverityPlace(s: Severity)
    ensures s.Rank() < |FROM_LEAST| && FROM_LEAST[s.Rank()] == s
    ensures forall i :: 0 <= i < |FROM_LEAST| && FROM_LEAST[i] == s ==> i == s.Rank()
  {
  }

  lemma GraverIffHigherRank(a: Severity, b: Severity)
    ensures Graver(a, b) <==> a.Rank() > b.Rank()
  {
    SeverityPlace(a);
    SeverityPlace(b);
  }

  ghost predicate OneSpot(f: Finding, g: Finding) {
    f.url == g.url && f.kind == g.kind
  }

  /** Every finding has exactly one survivor of its URL and type, and none it is
      graver than. */
  lemma OneSurvivorPerUrlAndType(findings: seq<Finding>, n: nat) returns (k: nat)
    requires n < |findings|
    ensures var kept := Dedup(findings);
            && k < |kept| && OneSpot(kept[k], findings[n]) && !Graver(findings[n].severity, kept[k].severity)
            && forall j :: 0 <= j < |kept| && j != k ==> !OneSpot(kept[j], findings[n])
  {
    var kept := Dedup(findings);
    DedupKeys(findings);
    assert findings[n].Key() in Keys(kept);
    k :| 0 <= k < |Keys(kept)| && Keys(kept)[k] == findings[n].Key();
    assert kept[k].Key() == Keys(kept)[k];
    var i := SurvivorIsBest(findings, k);
    GraverIffHigherRank(findings[n].severity, kept[k].severity);
    forall j | 0 <= j < |kept| && j != k ensures !OneSpot(kept[j], findings[n]) {
      assert Keys(kept)[j] == kept[j].Key();
      assert Keys(kept)[j] != Keys(kept)[k];
    }
  }

  /* Deduplicating in pieces. */

  lemma {:induction false} KeepAllInTurn(kept: seq<Finding>, xs: seq<Finding>, ys: seq<Finding>)
    ensures KeepAll(kept, xs + ys) == KeepAll(KeepAll(kept, xs), ys)
  {
    if ys == [] {
      assert xs + ys == xs;
    } else {
      assert (xs + ys)[..|xs + ys| - 1] == xs + ys[..|ys| - 1];
      KeepAllInTurn(kept, xs, ys[..|ys| - 1]);
    }
  }

  lemma {:induction false} DedupOfDistinct(xs: seq<Finding>)
    requires Distinct(Keys(xs))
    ensures Dedup(xs) == xs
  {
    if xs != [] {
      var before := xs[..|xs| - 1];
      assert forall i :: 0 <= i < |before| ==> Keys(before)[i] == Keys(xs)[i];
      DedupOfDistinct(before);
      assert Keys(xs)[|xs| - 1] == xs[|xs| - 1].Key();
      assert xs[|xs| - 1].Key() !in Keys(before);
      assert before + [xs[|xs| - 1]] == xs;
    }
  }

  /** Deduplicating what was already deduplicated together with new findings is
      deduplicating everything at once. */
  lemma DedupIncrementally(xs: seq<Finding>, ys: seq<Finding>)
    ensures Dedup(Dedup(xs) + ys) == Dedup(xs + ys)
  {
    DedupKeys(xs);
    DedupOfDistinct(Dedup(xs));
    KeepAllInTurn([], Dedup(xs), ys);
    KeepAllInTurn([], xs, ys);
  }

  lemma KeepTwiceSameKey(kept: seq<Finding>, d: Finding, f: Finding)
    requires d.Key() == f.Key() && d.severity.Rank() < f.severity.Rank()
    ensures Keep(Keep(kept, d), f) == Keep(kept, f)
  {
    KeepKeys(kept, d);
    var at := Position(Keys(kept), f.Key());
    if at.None? {
      FirstAtEnd(Keys(kept), f.Key());
      assert (kept + [d])[|kept| := f] == kept + [f];
    }
  }

  lemma {:induction false} FirstAtEnd(keys: seq<Key>, key: Key)
    requires key !in keys
    ensures Position(keys + [key], key) == Some(|keys|)
  {
    if keys != [] {
      assert (keys + [key])[1..] == keys[1..] + [key];
      FirstAtEnd(keys[1..], key);
    }
  }

  lemma {:induction false} PositionInFront(keys: seq<Key>, more: seq<Key>, key: Key)
    requires key in keys
    ensures Position(keys + more, key) == Position(keys, key)
  {
    if keys[0] != key {
      assert (keys + more)[1..] == keys[1..] + more;
      PositionInFront(keys[1..], more, key);
    }
  }

  lemma KeepsCommute(kept: seq<Finding>, e: Finding, f: Finding)
    requires e.Key() != f.Key() && f.Key() in Keys(kept)
    ensures Keep(Keep(kept, e), f) == Keep(Keep(kept, f), e)
  {
    KeepKeys(kept, e);
    KeepKeys(kept, f);
    PositionInFront(Keys(kept), [e.Key()], f.Key());
    var p, q := Position(Keys(kept), f.Key()), Position(Keys(kept), e.Key());
    assert Keys(kept)[p.value] == f.Key();
    if q.None? {
      UpdateThenAppend(kept, p.value, f, e);
    } else {
      assert Keys(kept)[q.value] == e.Key();
      UpdatesCommute(kept, p.value, f, q.value, e);
    }
  }

  lemma UpdateThenAppend(kept: seq<Finding>, p: nat, f: Finding, e: Finding)
    requires p < |kept|
    ensures (kept + [e])[p := f] == kept[p := f] + [e]
  {
  }

  lemma UpdatesCommute(kept: seq<Finding>, p: nat, f: Finding, q: nat, e: Finding)
    requires p < |kept| && q < |kept| && p != q
    ensures kept[p := f][q := e] == kept[q := e][p := f]
  {
  }

  lemma KeepKnowsOwn(kept: seq<Finding>, d: Finding) returns (at: nat)
    ensures Position(Keys(Keep(kept, d)), d.Key()) == Some(at)
    ensures Keep(kept, d)[at].severity.Rank() >= d.severity.Rank()
  {
    KeepKeys(kept, d);
    if d.Key() !in Keys(kept) {
      FirstAtEnd(Keys(kept), d.Key());
    }
    at := Position(Keys(Keep(kept, d)), d.Key()).value;
  }

  lemma KeepStillKnows(kept: seq<Finding>, d: Finding, key: Key, at: nat)
    requires Position(Keys(kept), key) == Some(at)
    ensures Position(Keys(Keep(kept, d)), key) == Some(at)
    ensures Keep(kept, d)[at].severity.Rank() >= kept[at].severity.Rank()
  {
    KeepKeys(kept, d);
    PositionInFront(Keys(kept), [d.Key()], key);
  }

  /** Keys of the second list are known after keeping it, at least as severe. */
  lemma {:induction false} KeepAllKnows(kept: seq<Finding>, ds: seq<Finding>, i: nat) returns (at: nat)
    requires i < |ds|
    ensures Position(Keys(KeepAll(kept, ds)), ds[i].Key()) == Some(at)
    ensures KeepAll(kept, ds)[at].severity.Rank() >= ds[i].severity.Rank()
  {
    var before, d := ds[..|ds| - 1], ds[|ds| - 1];
    if i == |ds| - 1 {
      at := KeepKnowsOwn(KeepAll(kept, before), d);
    } else {
      at := KeepAllKnows(kept, before, i);
      assert before[i] == ds[i];
      KeepStillKnows(KeepAll(kept, before), d, ds[i].Key(), at);
    }
  }

  lemma DistinctFront(ds: seq<Finding>, i: nat)
    requires i < |ds| - 1 && Distinct(Keys(ds))
    ensures Distinct(Keys(ds[..|ds| - 1])) && ds[i].Key() != ds[|ds| - 1].Key()
  {
    assert Keys(ds[..|ds| - 1]) == Keys(ds)[..|ds| - 1];
    assert Keys(ds)[i] == ds[i].Key() && Keys(ds)[|ds| - 1] == ds[|ds| - 1].Key();
  }

  lemma {:induction false} KeepAllReplaced(kept: seq<Finding>, ds: seq<Finding>, i: nat, f: Finding)
    requires i < |ds| && Distinct(Keys(ds)) && ds[i].Key() == f.Key() && ds[i].severity.Rank() < f.severity.Rank()
    ensures KeepAll(kept, ds[i := f]) == Keep(KeepAll(kept, ds), f)
  {
    var before, d := ds[..|ds| - 1], ds[|ds| - 1];
    var k := KeepAll(kept, before);
    if i == |ds| - 1 {
      assert ds[i := f][..|ds| - 1] == before;
      KeepTwiceSameKey(k, d, f);
    } else {
      assert ds[i := f][..|ds| - 1] == before[i := f] && ds[i := f][|ds| - 1] == d;
      DistinctFront(ds, i);
      KeepAllReplaced(kept, before, i, f);
      var at := KeepAllKnows(kept, before, i);
      KeepsCommute(k, d, f);
      assert KeepAll(kept, ds[i := f]) == Keep(Keep(k, f), d);
    }
  }

  lemma KeepAllOfKeep(kept: seq<Finding>, ds: seq<Finding>, f: Finding)
    requires Distinct(Keys(ds))
    ensures KeepAll(kept, Keep(ds, f)) == Keep(KeepAll(kept, ds), f)
  {
    var at := Position(Keys(ds), f.Key());
    if at.None? {
      assert (ds + [f])[..|ds|] == ds;
    } else {
      assert Keys(ds)[at.value] == f.Key();
      if f.severity.Rank() > ds[at.value].severity.Rank() {
        KeepAllReplaced(kept, ds, at.value, f);
      } else {
        var p := KeepAllKnows(kept, ds, at.value);
      }
    }
  }

  /** Deduplicating the new findings first makes no difference either. */
  lemma {:induction false} DedupNewFirst(xs: seq<Finding>, ys: seq<Finding>)
    ensures KeepAll(xs, Dedup(ys)) == KeepAll(xs, ys)
  {
    if ys != [] {
      DedupNewFirst(xs, ys[..|ys| - 1]);
      DedupKeys(ys[..|ys| - 1]);
      KeepAllOfKeep(xs, Dedup(ys[..|ys| - 1]), ys[|ys| - 1]);
    }
  }
}
