/** The sliding-window bookkeeping shared by both in-memory rate limiters: a
    deque of accepted times per key, pruned from the front on every call.
 */
module SlidingWindow {

  /** `limit` accepted calls per `length` seconds. */
  datatype Window = Window(length: real, limit: int)

  /** The `while events and (now - events[0]) > window: popleft()` loop. */
  function Prune(events: seq<real>, now: real, length: real): seq<real> {
    if events != [] && now - events[0] > length then Prune(events[1..], now, length) else events
  }

  ghost predicate Sorted(times: seq<real>) {
    forall i, j :: 0 <= i < j < |times| ==> times[i] <= times[j]
  }

  ghost predicate UpTo(times: seq<real>, now: real) {
    forall i :: 0 <= i < |times| ==> times[i] <= now
  }

  /** How many of the times lie in the closed interval [lo, hi]. */
  ghost function CountIn(times: seq<real>, lo: real, hi: real): nat {
    if times == [] then 0
    else (if lo <= times[0] <= hi then 1 else 0) + CountIn(times[1..], lo, hi)
  }

  /** Any `limit + 1` consecutive accepted times span more than the window, and
      a limit below one accepts nothing. */
  ghost predicate Spaced(accepted: seq<real>, w: Window) {
    && (accepted != [] ==> w.limit > 0)
    && forall i, j :: 0 <= i < j < |accepted| && j - i == w.limit ==> accepted[j] - accepted[i] > w.length
  }

  /** The deque of a key that was last called at `at` holds exactly those of
      all the accepted times that were still inside the window then. */
  ghost predicate Faithful(live: seq<real>, accepted: seq<real>, at: real, w: Window) {
    Sorted(accepted) && UpTo(accepted, at) && Spaced(accepted, w) && live == Prune(accepted, at, w.length)
  }

  function NonNegative(n: int): nat {
    if n < 0 then 0 else n
  }

  lemma {:induction false} PruneDropsFront(times: seq<real>, now: real, length: real) returns (gone: seq<real>)
    ensures times == gone + Prune(times, now, length)
    ensures forall i :: 0 <= i < |gone| ==> now - gone[i] > length
    ensures |gone| < |times| ==> now - times[|gone|] <= length
  {
    gone := [];
    if times != [] && now - times[0] > length {
      var rest := PruneDropsFront(times[1..], now, length);
      gone := [times[0]] + rest;
    }
  }

  lemma PruneSplits(times: seq<real>, now: real, length: real) returns (gone: seq<real>)
    requires Sorted(times)
    ensures times == gone + Prune(times, now, length)
    ensures forall i :: 0 <= i < |gone| ==> now - gone[i] > length
    ensures forall i :: |gone| <= i < |times| ==> now - times[i] <= length
  {
    gone := PruneDropsFront(times, now, length);
  }

  /** Pruning at a later time forgets nothing that matters: it gives what
      pruning the whole history at that time gives. */
  lemma {:induction false} PruneTwice(times: seq<real>, at: real, now: real, length: real)
    requires at <= now
    ensures Prune(Prune(times, at, length), now, length) == Prune(times, now, length)
  {
    if times != [] && at - times[0] > length {
      PruneTwice(times[1..], at, now, length);
    }
  }

  lemma {:induction false} PruneKeepsNewest(times: seq<real>, now: real, length: real)
    requires length >= 0.0
    ensures Prune(times + [now], now, length) == Prune(times, now, length) + [now]
  {
    if times == [] {
      assert Prune([now], now, length) == [now];
    } else {
      assert (times + [now])[1..] == times[1..] + [now];
      if now - times[0] > length {
        PruneKeepsNewest(times[1..], now, length);
      }
    }
  }

  /** A call that finds room keeps the spacing of the whole history. */
  lemma AcceptKeepsSpacing(accepted: seq<real>, now: real, w: Window)
    requires Sorted(accepted) && Spaced(accepted, w) && |Prune(accepted, now, w.length)| < w.limit
    ensures Spaced(accepted + [now], w)
  {
    var gone := PruneSplits(accepted, now, w.length);
    forall i, j | 0 <= i < j < |accepted| + 1 && j - i == w.limit
      ensures (accepted + [now])[j] - (accepted + [now])[i] > w.length
    {
      if j == |accepted| {
        assert i < |gone| && accepted[i] == gone[i];
      }
    }
  }

  /** One call of a key, accepted or refused, keeps the deque faithful to the
      history, and the length test is a test on the history: how many accepted
      calls lie in the window that ends now. */
  lemma CallIsFaithful(live: seq<real>, accepted: seq<real>, at: real, now: real, w: Window)
    requires Faithful(live, accepted, at, w) && at <= now && w.length >= 0.0
    ensures var kept := Prune(live, now, w.length);
            && Faithful(kept, accepted, now, w)
            && (|kept| < w.limit ==> Faithful(kept + [now], accepted + [now], now, w))
            && |kept| == CountIn(accepted, now - w.length, now)
  {
    PruneTwice(accepted, at, now, w.length);
    PruneKeepsNewest(accepted, now, w.length);
    if |Prune(accepted, now, w.length)| < w.limit {
      AcceptKeepsSpacing(accepted, now, w);
    }
    PrunedLengthIsCount(accepted, now, w.length);
  }

  lemma {:induction false} PrunedLengthIsCount(times: seq<real>, now: real, length: real)
    requires Sorted(times) && UpTo(times, now)
    ensures |Prune(times, now, length)| == CountIn(times, now - length, now)
  {
    if times != [] && now - times[0] > length {
      assert forall i :: 0 <= i < |times| - 1 ==> times[1..][i] == times[i + 1];
      PrunedLengthIsCount(times[1..], now, length);
    } else {
      CountInBounds(times, now - length, now);
    }
  }

  lemma {:induction false} CountInAppends(front: seq<real>, back: seq<real>, lo: real, hi: real)
    ensures CountIn(front + back, lo, hi) == CountIn(front, lo, hi) + CountIn(back, lo, hi)
  {
    if front == [] {
      assert front + back == back;
    } else {
      assert (front + back)[1..] == front[1..] + back;
      CountInAppends(front[1..], back, lo, hi);
    }
  }

  lemma {:induction false} CountInBounds(times: seq<real>, lo: real, hi: real)
    ensures CountIn(times, lo, hi) <= |times|
    ensures (forall i :: 0 <= i < |times| ==> !(lo <= times[i] <= hi)) ==> CountIn(times, lo, hi) == 0
    ensures (forall i :: 0 <= i < |times| ==> lo <= times[i] <= hi) ==> CountIn(times, lo, hi) == |times|
  {
    if times != [] {
      CountInBounds(times[1..], lo, hi);
      assert forall i :: 0 <= i < |times| - 1 ==> times[1..][i] == times[i + 1];
    }
  }

  /** When no accepted time lies before `lo`, everything from index `limit` on
      lies beyond the interval. */
  lemma SpacedBoundsFirstInterval(accepted: seq<real>, w: Window, lo: real)
    requires Sorted(accepted) && Spaced(accepted, w) && accepted != [] && lo <= accepted[0]
    ensures CountIn(accepted, lo, lo + w.length) <= w.limit
  {
    if |accepted| <= w.limit {
      CountInBounds(accepted, lo, lo + w.length);
    } else {
      assert accepted[w.limit] - accepted[0] > w.length;
      LateTimesDoNotCount(accepted, w.limit, lo, lo + w.length);
    }
  }

  lemma LateTimesDoNotCount(times: seq<real>, n: nat, lo: real, hi: real)
    requires Sorted(times) && n < |times| && times[n] > hi
    ensures CountIn(times, lo, hi) <= n
  {
    var head, tail := times[..n], times[n..];
    assert forall i :: 0 <= i < |tail| ==> tail[i] >= times[n];
    assert times == head + tail;
    CountInAppends(head, tail, lo, hi);
    CountInBounds(tail, lo, hi);
    CountInBounds(head, lo, hi);
  }

  /** Spacing means that no closed interval as long as the window, wherever it
      lies, holds more than `limit` accepted calls. */
  lemma {:induction false} SpacedBoundsEveryInterval(accepted: seq<real>, w: Window, lo: real)
    requires Sorted(accepted) && Spaced(accepted, w)
    ensures CountIn(accepted, lo, lo + w.length) <= NonNegative(w.limit)
  {
    if accepted != [] && accepted[0] < lo {
      var rest := accepted[1..];
      assert forall i :: 0 <= i < |rest| ==> rest[i] == accepted[i + 1];
      SpacedBoundsEveryInterval(rest, w, lo);
    } else if accepted != [] {
      SpacedBoundsFirstInterval(accepted, w, lo);
    }
  }
}
