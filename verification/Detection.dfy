/** How the passive and the active detection stages merge new findings into
    the findings a scan already has.
 */
module Detection {
  import opened Findings

  /** The new findings whose key the scan does not have yet, in order. */
  function Unseen(existing: seq<Finding>, found: seq<Finding>): seq<Finding> {
    if found == [] then []
    else
      var f := found[|found| - 1];
      Unseen(existing, found[..|found| - 1]) + (if f.Key() in Keys(existing) then [] else [f])
  }

  function PassiveMerge(existing: seq<Finding>, passive: seq<Finding>): seq<Finding> {
    existing + Unseen(existing, Dedup(passive))
  }

  /** Existing findings stay as they are; a new one is appended when its key is
      not among the existing keys. */
  method MergePassive(existing: seq<Finding>, passive: seq<Finding>) returns (merged: seq<Finding>)
    ensures merged == PassiveMerge(existing, passive)
  {
    var deduplicated := DeduplicateFindings(passive);
    var existingKeys := set i | 0 <= i < |existing| :: existing[i].Key();
    var added := [];
    for n := 0 to |deduplicated|
      invariant added == Unseen(existing, deduplicated[..n])
    {
      assert deduplicated[..n + 1][..n] == deduplicated[..n];
      var f := deduplicated[n];
      KeysAreMembers(existing, f.Key());
      if f.Key() !in existingKeys {
        added := added + [f];
      }
    }
    assert deduplicated[..|deduplicated|] == deduplicated;
    merged := existing + added;
  }

  lemma KeysAreMembers(findings: seq<Finding>, key: Key)
    ensures key in Keys(findings) <==> exists i :: 0 <= i < |findings| && findings[i].Key() == key
  {
    if key in Keys(findings) {
      var i :| 0 <= i < |findings| && Keys(findings)[i] == key;
      assert findings[i].Key() == key;
    } else {
      assert forall i :: 0 <= i < |findings| ==> Keys(findings)[i] == findings[i].Key();
    }
  }

  /** Everything is deduplicated together, and then filtered once more by key.
      The second pass never drops anything. */
  method MergeActive(existing: seq<Finding>, active: seq<Finding>) returns (merged: seq<Finding>)
    ensures merged == Dedup(existing + active)
  {
    var deduplicated := DeduplicateFindings(existing + active);
    DedupKeys(existing + active);
    var existingKeys: set<Key> := {};
    merged := [];
    for n := 0 to |deduplicated|
      invariant merged == deduplicated[..n]
      invariant forall key :: key in existingKeys <==> key in Keys(deduplicated)[..n]
    {
      var key := deduplicated[n].Key();
      assert Keys(deduplicated)[n] == key;
      if key !in existingKeys {
        existingKeys := existingKeys + {key};
        merged := merged + [deduplicated[n]];
      }
    }
  }

  /** No new finding is more severe than the existing finding of its key. */
  ghost predicate NothingOutranked(existing: seq<Finding>, passive: seq<Finding>) {
    forall i, j :: 0 <= i < |existing| && 0 <= j < |passive| && existing[i].Key() == passive[j].Key() ==>
      passive[j].severity.Rank() <= existing[i].severity.Rank()
  }

  /** The passive stage lets an existing finding win over a more severe new one
      of the same key, which deduplication would not: the two agree exactly
      when no new finding outranks an existing one. */
  lemma PassiveMergeIsDedupIffNothingOutranked(existing: seq<Finding>, passive: seq<Finding>)
    requires Distinct(Keys(existing))
    ensures PassiveMerge(existing, passive) == Dedup(existing + passive) <==> NothingOutranked(existing, passive)
  {
    DedupOfDistinct(existing);
    KeepAllInTurn([], existing, passive);
    DedupNewFirst(existing, passive);
    if NothingOutranked(existing, passive) {
      NothingOutrankedByDedup(existing, passive);
      DedupKeys(passive);
      KeepAllAppendsUnseen(existing, Dedup(passive));
    } else {
      var i, j :| 0 <= i < |existing| && 0 <= j < |passive| && existing[i].Key() == passive[j].Key()
               && passive[j].severity.Rank() > existing[i].severity.Rank();
      OutrankedIsReplaced(existing, passive, i, j);
      assert PassiveMerge(existing, passive)[i] == existing[i];
    }
  }

  lemma OutrankedIsReplaced(existing: seq<Finding>, passive: seq<Finding>, i: nat, j: nat)
    requires Distinct(Keys(existing)) && i < |existing| && j < |passive| && existing[i].Key() == passive[j].Key()
    requires passive[j].severity.Rank() > existing[i].severity.Rank()
    ensures i < |KeepAll(existing, passive)| && KeepAll(existing, passive)[i] != existing[i]
  {
    var merged := KeepAll(existing, passive);
    var at := KeepAllKnows(existing, passive, j);
    KeepAllKeepsPlaces(existing, passive);
    PositionOfDistinct(Keys(existing), i);
    assert Keys(merged) == Keys(existing) + Keys(merged)[|existing|..];
    PositionInFront(Keys(existing), Keys(merged)[|existing|..], Keys(existing)[i]);
  }

  lemma {:induction false} PositionOfDistinct(keys: seq<Key>, i: nat)
    requires Distinct(keys) && i < |keys|
    ensures Position(keys, keys[i]).Some? && Position(keys, keys[i]).value == i
  {
    var at := Position(keys, keys[i]);
    assert at.Some? && keys[at.value] == keys[i];
  }

  lemma {:induction false} KeepAllKeepsPlaces(kept: seq<Finding>, findings: seq<Finding>)
    ensures Keys(kept) <= Keys(KeepAll(kept, findings))
  {
    if findings != [] {
      KeepAllKeepsPlaces(kept, findings[..|findings| - 1]);
      KeepKeys(KeepAll(kept, findings[..|findings| - 1]), findings[|findings| - 1]);
    }
  }

  lemma NothingOutrankedByDedup(existing: seq<Finding>, passive: seq<Finding>)
    requires NothingOutranked(existing, passive)
    ensures NothingOutranked(existing, Dedup(passive))
  {
    forall i, k | 0 <= i < |existing| && 0 <= k < |Dedup(passive)| && existing[i].Key() == Dedup(passive)[k].Key()
      ensures Dedup(passive)[k].severity.Rank() <= existing[i].severity.Rank()
    {
      var j := SurvivorIsBest(passive, k);
    }
  }

  /** A finding that outranks nothing it meets is kept only under a new key. */
  lemma KeepAppendsNew(existing: seq<Finding>, unseen: seq<Finding>, f: Finding)
    requires f.Key() in Keys(existing) || f.Key() !in Keys(unseen)
    requires forall i :: 0 <= i < |existing| && existing[i].Key() == f.Key() ==>
              f.severity.Rank() <= existing[i].severity.Rank()
    ensures Keep(existing + unseen, f) == existing + (if f.Key() in Keys(existing) then unseen else unseen + [f])
  {
    var kept := existing + unseen;
    assert Keys(kept) == Keys(existing) + Keys(unseen);
    if f.Key() in Keys(existing) {
      PositionInFront(Keys(existing), Keys(unseen), f.Key());
      var at := Position(Keys(existing), f.Key()).value;
      assert existing[at].Key() == Keys(existing)[at] && kept[at] == existing[at];
    }
  }

  lemma {:induction false} KeepAllAppendsUnseen(existing: seq<Finding>, found: seq<Finding>)
    requires Distinct(Keys(existing)) && Distinct(Keys(found)) && NothingOutranked(existing, found)
    ensures KeepAll(existing, found) == existing + Unseen(existing, found)
  {
    if found != [] {
      var before, f := found[..|found| - 1], found[|found| - 1];
      assert forall j :: 0 <= j < |before| ==> Keys(before)[j] == Keys(found)[j];
      KeepAllAppendsUnseen(existing, before);
      UnseenKeys(existing, before);
      assert Keys(found)[|found| - 1] == f.Key();
      assert f.Key() !in Keys(before);
      KeepAppendsNew(existing, Unseen(existing, before), f);
    }
  }

  lemma {:induction false} UnseenKeys(existing: seq<Finding>, found: seq<Finding>)
    ensures forall key :: key in Keys(Unseen(existing, found)) ==> key in Keys(found) && key !in Keys(existing)
  {
    if found != [] {
      var before, f := found[..|found| - 1], found[|found| - 1];
      UnseenKeys(existing, before);
      assert Keys(found) == Keys(before) + [f.Key()];
      if f.Key() in Keys(existing) {
        assert Unseen(existing, found) == Unseen(existing, before);
      } else {
        assert Keys(Unseen(existing, found)) == Keys(Unseen(existing, before)) + [f.Key()];
      }
    }
  }

  /** A scan starts without findings, so its two detection stages together
      deduplicate everything both of them found, as if at once. */
  lemma StagesDeduplicateEverything(passive: seq<Finding>, active: seq<Finding>)
    ensures Dedup(PassiveMerge([], passive) + active) == Dedup(passive + active)
  {
    UnseenByNobody(Dedup(passive));
    assert PassiveMerge([], passive) == Dedup(passive);
    DedupIncrementally(passive, active);
  }

  lemma {:induction false} UnseenByNobody(found: seq<Finding>)
    ensures Unseen([], found) == found
  {
    if found != [] {
      UnseenByNobody(found[..|found| - 1]);
    }
  }
}
