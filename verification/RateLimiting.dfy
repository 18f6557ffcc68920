/** The two in-memory rate limiters of the API process. Each class is the
    imperative form; the functions before it say what one call does, and the
    theorems about whole runs are stated about those functions.
 */
module RateLimiting {
  import opened SlidingWindow

  datatype Settings = Settings(window: Window, maxPerClient: int, maxGlobal: int)

  /** Why a call was let through or answered with status 429. */
  datatype Verdict = Admitted | RateExceeded | ClientBusy | GloballyBusy

  datatype LimiterState = LimiterState(
    events: map<string, seq<real>>,
    perClient: map<string, int>,
    global: int)

  const EMPTY_LIMITER := LimiterState(map[], map[], 0)

  function Live(events: map<string, seq<real>>, key: string): seq<real> {
    if key in events then events[key] else []
  }

  function Active(perClient: map<string, int>, client: string): int {
    if client in perClient then perClient[client] else 0
  }

  function Decide(s: LimiterState, cfg: Settings, client: string, now: real): Verdict {
    if |Prune(Live(s.events, client), now, cfg.window.length)| >= cfg.window.limit then RateExceeded
    else if Active(s.perClient, client) >= cfg.maxPerClient then ClientBusy
    else if s.global >= cfg.maxGlobal then GloballyBusy
    else Admitted
  }

  /** The state after `acquire`. Reading a missing client's counter inserts a
      zero for it, as a defaultdict does. */
  function AfterAcquire(s: LimiterState, cfg: Settings, client: string, now: real): LimiterState {
    var kept := Prune(Live(s.events, client), now, cfg.window.length);
    match Decide(s, cfg, client, now)
    case RateExceeded => s.(events := s.events[client := kept])
    case Admitted =>
      LimiterState(s.events[client := kept + [now]],
                   s.perClient[client := Active(s.perClient, client) + 1],
                   s.global + 1)
    case _ => s.(events := s.events[client := kept],
                 perClient := s.perClient[client := Active(s.perClient, client)])
  }

  /** The state after `release`, with both guards against going below zero. */
  function AfterRelease(s: LimiterState, client: string): LimiterState {
    LimiterState(
      s.events,
      if Active(s.perClient, client) > 0 then s.perClient[client := Active(s.perClient, client) - 1] else s.perClient,
      if s.global > 0 then s.global - 1 else s.global)
  }

  /** The loop that both limiters open their critical section with. */
  method PopExpired(events: seq<real>, now: real, length: real) returns (queue: seq<real>)
    ensures queue == Prune(events, now, length)
  {
    queue := events;
    while queue != [] && now - queue[0] > length
      invariant Prune(queue, now, length) == Prune(events, now, length)
      decreases |queue|
    {
      queue := queue[1..];
    }
  }

  lemma LastWriteCounts<V>(m: map<string, V>, key: string, first: V, second: V)
    ensures m[key := first][key := second] == m[key := second]
  {
  }

  /** Limits requests and running scans per client, and running scans overall. */
  class ScanRateLimiter {
    const settings: Settings
    var events: map<string, seq<real>>
    var activePerClient: map<string, int>
    var activeGlobal: int

    function State(): LimiterState
      reads this
    {
      LimiterState(events, activePerClient, activeGlobal)
    }

    constructor (settings: Settings)
      ensures this.settings == settings
      ensures State() == EMPTY_LIMITER
    {
      this.settings := settings;
      events, activePerClient, activeGlobal := map[], map[], 0;
    }

    method Acquire(client: string, now: real) returns (verdict: Verdict)
      modifies this
      ensures verdict == Decide(old(State()), settings, client, now)
      ensures State() == AfterAcquire(old(State()), settings, client, now)
    {
      var queue := PopExpired(Live(events, client), now, settings.window.length);
      events := events[client := queue];
      if |queue| >= settings.window.limit {
        return RateExceeded;
      }
      var active := Active(activePerClient, client);
      activePerClient := activePerClient[client := active];
      if active >= settings.maxPerClient {
        return ClientBusy;
      }
      if activeGlobal >= settings.maxGlobal {
        return GloballyBusy;
      }
      LastWriteCounts(old(events), client, queue, queue + [now]);
      LastWriteCounts(old(activePerClient), client, active, active + 1);
      events := events[client := queue + [now]];
      activePerClient := activePerClient[client := active + 1];
      activeGlobal := activeGlobal + 1;
      return Admitted;
    }

    method Release(client: string)
      modifies this
      ensures State() == AfterRelease(old(State()), client)
    {
      if client in activePerClient && activePerClient[client] > 0 {
        activePerClient := activePerClient[client := activePerClient[client] - 1];
      }
      if activeGlobal > 0 {
        activeGlobal := activeGlobal - 1;
      }
    }
  }

  function Lets(events: map<string, seq<real>>, key: string, w: Window, now: real): bool {
    |Prune(Live(events, key), now, w.length)| < w.limit
  }

  function AfterCall(events: map<string, seq<real>>, key: string, w: Window, now: real): map<string, seq<real>> {
    var kept := Prune(Live(events, key), now, w.length);
    events[key := if Lets(events, key, w, now) then kept + [now] else kept]
  }

  /** Limits calls per key; used for the sign-in and session endpoints. */
  class SlidingWindowRateLimiter {
    var events: map<string, seq<real>>

    constructor ()
      ensures events == map[]
    {
      events := map[];
    }

    method Acquire(key: string, maxRequests: int, windowSeconds: int, now: real) returns (admitted: bool)
      modifies this
      ensures admitted == Lets(old(events), key, Window(windowSeconds as real, maxRequests), now)
      ensures events == AfterCall(old(events), key, Window(windowSeconds as real, maxRequests), now)
    {
      var queue := PopExpired(Live(events, key), now, windowSeconds as real);
      events := events[key := queue];
      if |queue| >= maxRequests {
        return false;
      }
      events := events[key := events[key] + [now]];
      return true;
    }
  }

  /* Whole runs of the sliding-window limiter. */

  /** A run of calls, the latest outermost. Calls of different keys interleave
      freely. */
  datatype Run = Start | Then(before: Run, key: string, now: real)

  ghost predicate NoLaterThan(run: Run, now: real) {
    run.Then? ==> run.now <= now
  }

  /** The clock never runs backwards. */
  ghost predicate Chronological(run: Run) {
    run.Then? ==> Chronological(run.before) && NoLaterThan(run.before, run.now)
  }

  /** The deques after a run. Each key has one configured window. */
  ghost function EventsAfter(windows: string -> Window, run: Run): map<string, seq<real>> {
    match run
    case Start => map[]
    case Then(before, key, now) => AfterCall(EventsAfter(windows, before), key, windows(key), now)
  }

  /** The times at which a run let the key through. */
  ghost function AcceptedIn(windows: string -> Window, run: Run, key: string): seq<real> {
    match run
    case Start => []
    case Then(before, k, now) =>
      var accepted := AcceptedIn(windows, before, key);
      if k == key && Lets(EventsAfter(windows, before), key, windows(key), now) then accepted + [now] else accepted
  }

  lemma {:induction false} RunIsFaithful(windows: string -> Window, run: Run, key: string, now: real) returns (at: real)
    requires Chronological(run) && NoLaterThan(run, now) && windows(key).length >= 0.0
    ensures at <= now
    ensures Faithful(Live(EventsAfter(windows, run), key), AcceptedIn(windows, run, key), at, windows(key))
  {
    if run.Start? {
      return now;
    }
    at := RunIsFaithful(windows, run.before, key, run.now);
    if run.key == key {
      CallIsFaithful(Live(EventsAfter(windows, run.before), key), AcceptedIn(windows, run.before, key),
                     at, run.now, windows(key));
      at := run.now;
    }
  }

  /** In every run, no closed interval as long as a key's window holds more
      accepted calls of that key than its limit. */
  lemma EveryIntervalIsBounded(windows: string -> Window, run: Run, key: string, lo: real)
    requires Chronological(run) && windows(key).length >= 0.0
    ensures CountIn(AcceptedIn(windows, run, key), lo, lo + windows(key).length) <= NonNegative(windows(key).limit)
  {
    var _ := RunIsFaithful(windows, run, key, if run.Then? then run.now else 0.0);
    SpacedBoundsEveryInterval(AcceptedIn(windows, run, key), windows(key), lo);
  }

  /** After any run, a further call is refused exactly when the key's limit of
      accepted calls already lies in the window that ends with that call. */
  lemma RefusedExactlyWhenWindowIsFull(windows: string -> Window, run: Run, key: string, now: real)
    requires Chronological(run) && NoLaterThan(run, now) && windows(key).length >= 0.0
    ensures Lets(EventsAfter(windows, run), key, windows(key), now)
       <==> CountIn(AcceptedIn(windows, run, key), now - windows(key).length, now) < windows(key).limit
  {
    var at := RunIsFaithful(windows, run, key, now);
    FaithfulDequeDecides(EventsAfter(windows, run), key, AcceptedIn(windows, run, key), at, now, windows(key));
  }

  lemma FaithfulDequeDecides(events: map<string, seq<real>>, key: string, accepted: seq<real>, at: real, now: real,
      w: Window)
    requires Faithful(Live(events, key), accepted, at, w) && at <= now && w.length >= 0.0
    ensures Lets(events, key, w, now) <==> CountIn(accepted, now - w.length, now) < w.limit
  {
    CallIsFaithful(Live(events, key), accepted, at, now, w);
  }
}
