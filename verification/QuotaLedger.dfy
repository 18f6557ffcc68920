/** The plan quotas: a monthly number of full scans and a number of distinct
    targets per organisation, kept in the `scans` and `sites` tables.
 */
module QuotaLedger {
  import opened Wrappers
  import opened Timestamps

  datatype Kind = Full | Watch

  datatype ScanRow = ScanRow(id: string, org: string, target: string, kind: Kind, created: Instant)

  datatype SiteRow = SiteRow(id: string, org: string, target: string, active: bool)

  datatype Tables = Tables(scans: seq<ScanRow>, sites: seq<SiteRow>)

  const EMPTY_TABLES := Tables([], [])

  /** None stands for an unlimited plan. */
  datatype Limits = Limits(maxTargets: Option<int>, scansPerMonth: Option<int>)

  /** One call of the reservation. The two clock readings are taken before the
      database lock: `now` first, then the one the month start comes from. */
  datatype Request = Request(scanId: string, siteId: string, org: string, target: string, now: Instant,
      monthRead: Instant)

  datatype Outcome = Reserved | TargetQuotaExceeded | ScanQuotaExceeded | IntegrityError

  function MonthStart(t: Instant): Instant {
    Instant(t.year, t.month, 1, 0, 0, 0, 0)
  }

  function ScanTargets(scans: seq<ScanRow>, org: string): set<string> {
    set row | row in scans && row.org == org :: row.target
  }

  function SiteTargets(sites: seq<SiteRow>, org: string): set<string> {
    set row | row in sites && row.org == org && row.active :: row.target
  }

  /** The targets an organisation is charged for. */
  function Targets(t: Tables, org: string): set<string> {
    ScanTargets(t.scans, org) + SiteTargets(t.sites, org)
  }

  /** `COUNT(*) ... AND created_at >= ?`, a comparison of strings. */
  function ScansSince(scans: seq<ScanRow>, org: string, since: string): nat {
    if scans == [] then 0
    else
      var row := scans[|scans| - 1];
      ScansSince(scans[..|scans| - 1], org, since)
      + (if row.org == org && row.kind == Full && TextAtLeast(IsoFormat(row.created), since) then 1 else 0)
  }

  function AtLimit(count: int, limit: Option<int>): bool {
    limit.Some? && count >= limit.value
  }

  function SiteIndex(sites: seq<SiteRow>, org: string, target: string): (at: Option<nat>)
    ensures at.Some? ==> at.value < |sites| && sites[at.value].org == org && sites[at.value].target == target
    ensures at.None? ==> forall i :: 0 <= i < |sites| ==> !(sites[i].org == org && sites[i].target == target)
  {
    if sites == [] then None
    else if sites[0].org == org && sites[0].target == target then Some(0)
    else
      var rest := SiteIndex(sites[1..], org, target);
      if rest.Some? then Some(rest.value + 1) else None
  }

  predicate ScanIdTaken(scans: seq<ScanRow>, id: string) {
    exists i :: 0 <= i < |scans| && scans[i].id == id
  }

  predicate SiteIdTaken(sites: seq<SiteRow>, id: string) {
    exists i :: 0 <= i < |sites| && sites[i].id == id
  }

  function NewScan(q: Request): ScanRow {
    ScanRow(q.scanId, q.org, q.target, Full, q.now)
  }

  function Decide(t: Tables, limits: Limits, q: Request): Outcome {
    if q.target !in Targets(t, q.org) && AtLimit(|Targets(t, q.org)|, limits.maxTargets) then TargetQuotaExceeded
    else if AtLimit(ScansSince(t.scans, q.org, IsoFormat(MonthStart(q.monthRead))), limits.scansPerMonth)
        then ScanQuotaExceeded
    else if ScanIdTaken(t.scans, q.scanId) then IntegrityError
    else if SiteIndex(t.sites, q.org, q.target).None? && SiteIdTaken(t.sites, q.siteId) then IntegrityError
    else Reserved
  }

  function SitesWith(sites: seq<SiteRow>, q: Request): seq<SiteRow> {
    var at := SiteIndex(sites, q.org, q.target);
    if at.Some? then sites[at.value := sites[at.value].(active := true)]
    else sites + [SiteRow(q.siteId, q.org, q.target, true)]
  }

  function AfterReserve(t: Tables, limits: Limits, q: Request): Tables {
    if Decide(t, limits, q).Reserved? then Tables(t.scans + [NewScan(q)], SitesWith(t.sites, q)) else t
  }

  function Deactivated(sites: seq<SiteRow>, id: string): seq<SiteRow> {
    seq(|sites|, i requires 0 <= i < |sites| => if sites[i].id == id then sites[i].(active := false) else sites[i])
  }

  function SiteById(sites: seq<SiteRow>, id: string): (site: Option<SiteRow>)
    ensures site.Some? ==> site.value in sites && site.value.id == id
    ensures site.None? <==> !SiteIdTaken(sites, id)
  {
    if sites == [] then None
    else if sites[0].id == id then Some(sites[0])
    else SiteById(sites[1..], id)
  }

  /** A record is refused when its id is taken. */
  function AfterWatch(t: Tables, row: ScanRow): Tables {
    if ScanIdTaken(t.scans, row.id) then t else t.(scans := t.scans + [row])
  }

  /** The accounts database, as far as the quota is concerned. */
  class AccountsStore {
    var scans: seq<ScanRow>
    var sites: seq<SiteRow>

    function State(): Tables
      reads this
    {
      Tables(scans, sites)
    }

    constructor ()
      ensures State() == EMPTY_TABLES
    {
      scans, sites := [], [];
    }

    /** One `BEGIN IMMEDIATE` transaction. Whatever goes wrong after it has
        begun, both tables are left as they were. */
    method ReserveScanQuota(limits: Limits, q: Request) returns (outcome: Outcome)
      modifies this
      ensures outcome == Decide(old(State()), limits, q)
      ensures State() == AfterReserve(old(State()), limits, q)
      ensures !outcome.Reserved? ==> State() == old(State())
    {
      var savedScans, savedSites := scans, sites;
      var targets := Targets(State(), q.org);
      var monthly := ScansSince(scans, q.org, IsoFormat(MonthStart(q.monthRead)));
      if q.target !in targets && AtLimit(|targets|, limits.maxTargets) {
        return TargetQuotaExceeded;
      }
      if AtLimit(monthly, limits.scansPerMonth) {
        return ScanQuotaExceeded;
      }
      if ScanIdTaken(scans, q.scanId) {
        return IntegrityError;
      }
      scans := scans + [NewScan(q)];
      var existing := SiteIndex(sites, q.org, q.target);
      if existing.Some? {
        sites := sites[existing.value := sites[existing.value].(active := true)];
      } else if SiteIdTaken(sites, q.siteId) {
        scans, sites := savedScans, savedSites;
        return IntegrityError;
      } else {
        sites := sites + [SiteRow(q.siteId, q.org, q.target, true)];
      }
      return Reserved;
    }

    /** What the dashboard shows: distinct targets, and full scans this month. */
    method GetOrgScanUsage(org: string, now: Instant) returns (targets: nat, monthlyScans: nat)
      ensures targets == |Targets(State(), org)|
      ensures SitesWereScanned(State()) ==> targets == |ScanTargets(scans, org)|
      ensures monthlyScans == ScansSince(scans, org, IsoFormat(MonthStart(now)))
      ensures ValidTimes(scans) && Valid(now) ==> monthlyScans == FullScansFrom(scans, org, now)
      ensures ValidTimes(scans) && Valid(now) && NoLaterMonth(scans, now) ==>
                monthlyScans == FullScansIn(scans, org, now)
    {
      if SitesWereScanned(State()) {
        TargetsAreScanTargets(State(), org);
      }
      if ValidTimes(scans) && Valid(now) {
        SinceIsFromMonth(scans, org, now);
      }
      targets := |Targets(State(), org)|;
      monthlyScans := ScansSince(scans, org, IsoFormat(MonthStart(now)));
    }

    /** The site with the id goes inactive and is handed back; nothing else
        changes, and no target slot is freed. */
    method DeactivateSite(id: string) returns (site: Option<SiteRow>)
      modifies this`sites
      ensures |sites| == |old(sites)|
      ensures forall i :: 0 <= i < |sites| ==>
                sites[i] == if old(sites)[i].id == id then old(sites)[i].(active := false) else old(sites)[i]
      ensures site.None? <==> !SiteIdTaken(old(sites), id)
      ensures site.Some? ==> site.value in sites && site.value.id == id && !site.value.active
      ensures old(SitesWereScanned(State())) ==>
                SitesWereScanned(State()) && forall org :: Targets(State(), org) == old(Targets(State(), org))
    {
      ghost var before := State();
      sites := Deactivated(sites, id);
      site := SiteById(sites, id);
      if SitesWereScanned(before) {
        forall org ensures SitesWereScanned(State()) && Targets(State(), org) == Targets(before, org) {
          DeactivateFreesNothing(before, id, org);
        }
      }
    }

    /** A record of the watch agent, which spends no quota. */
    method CreateWatchRecord(id: string, org: string, target: string, now: Instant) returns (stored: bool)
      modifies this`scans
      ensures stored == !ScanIdTaken(old(scans), id)
      ensures State() == AfterWatch(old(State()), ScanRow(id, org, target, Watch, now))
    {
      stored := !ScanIdTaken(scans, id);
      if stored {
        scans := scans + [ScanRow(id, org, target, Watch, now)];
      }
    }
  }

  /* The monthly quota. */

  predicate SameMonth(a: Instant, b: Instant) {
    a.year == b.year && a.month == b.month
  }

  /** Full scans of the organisation whose timestamp lies in the month. */
  function FullScansIn(scans: seq<ScanRow>, org: string, month: Instant): nat {
    if scans == [] then 0
    else
      var row := scans[|scans| - 1];
      FullScansIn(scans[..|scans| - 1], org, month)
      + (if row.org == org && row.kind == Full && SameMonth(row.created, month) then 1 else 0)
  }

  ghost predicate ValidTimes(scans: seq<ScanRow>) {
    forall i :: 0 <= i < |scans| ==> Valid(scans[i].created)
  }

  /** The query's string comparison selects the month of the reading and every
      later month, whatever the fractions of the stored timestamps. */
  lemma SinceMonthStart(created: Instant, reading: Instant)
    requires Valid(created) && Valid(reading)
    ensures TextAtLeast(IsoFormat(created), IsoFormat(MonthStart(reading)))
       <==> created.year > reading.year || (created.year == reading.year && created.month >= reading.month)
  {
    var start := MonthStart(reading);
    DateTextOrder(created, start);
  }

  predicate NotBefore(created: Instant, month: Instant) {
    created.year > month.year || (created.year == month.year && created.month >= month.month)
  }

  /** Full scans of the organisation in the month and all later ones. */
  function FullScansFrom(scans: seq<ScanRow>, org: string, month: Instant): nat {
    if scans == [] then 0
    else
      var row := scans[|scans| - 1];
      FullScansFrom(scans[..|scans| - 1], org, month)
      + (if row.org == org && row.kind == Full && NotBefore(row.created, month) then 1 else 0)
  }

  predicate NoLaterMonth(scans: seq<ScanRow>, month: Instant) {
    forall i :: 0 <= i < |scans| && NotBefore(scans[i].created, month) ==> SameMonth(scans[i].created, month)
  }

  /** The query counts the month of the reading and later ones; without rows of
      later months, the month alone. */
  lemma {:induction false} SinceIsFromMonth(scans: seq<ScanRow>, org: string, reading: Instant)
    requires ValidTimes(scans) && Valid(reading)
    ensures ScansSince(scans, org, IsoFormat(MonthStart(reading))) == FullScansFrom(scans, org, reading)
    ensures NoLaterMonth(scans, reading) ==> FullScansFrom(scans, org, reading) == FullScansIn(scans, org, reading)
  {
    if scans != [] {
      var before := scans[..|scans| - 1];
      SinceIsFromMonth(before, org, reading);
      SinceMonthStart(scans[|scans| - 1].created, reading);
      assert forall i :: 0 <= i < |before| ==> before[i] == scans[i];
    }
  }

  lemma {:induction false} MonthIsCounted(scans: seq<ScanRow>, org: string, reading: Instant)
    requires ValidTimes(scans) && Valid(reading)
    ensures FullScansIn(scans, org, reading) <= ScansSince(scans, org, IsoFormat(MonthStart(reading)))
  {
    if scans != [] {
      MonthIsCounted(scans[..|scans| - 1], org, reading);
      SinceMonthStart(scans[|scans| - 1].created, reading);
    }
  }

  ghost predicate MonthsWithin(t: Tables, org: string, limit: int) {
    forall month :: FullScansIn(t.scans, org, month) <= (if limit < 0 then 0 else limit)
  }

  lemma AppendCounts(scans: seq<ScanRow>, row: ScanRow, org: string, month: Instant)
    ensures FullScansIn(scans + [row], org, month)
         == FullScansIn(scans, org, month)
             + (if row.org == org && row.kind == Full && SameMonth(row.created, month) then 1 else 0)
  {
    assert (scans + [row])[..|scans|] == scans;
  }

  /** Rows of later months may already be there, and they only make the count
      larger: a reservation never takes its month over the limit. */
  lemma ReserveKeepsMonths(t: Tables, limits: Limits, q: Request, org: string, limit: int)
    requires ValidTimes(t.scans) && Valid(q.now) && Valid(q.monthRead) && SameMonth(q.now, q.monthRead)
    requires q.org == org ==> limits.scansPerMonth == Some(limit)
    requires MonthsWithin(t, org, limit)
    ensures MonthsWithin(AfterReserve(t, limits, q), org, limit)
  {
    if Decide(t, limits, q).Reserved? {
      forall month ensures FullScansIn(t.scans + [NewScan(q)], org, month) <= (if limit < 0 then 0 else limit) {
        AppendCounts(t.scans, NewScan(q), org, month);
        assert FullScansIn(t.scans, org, month) <= (if limit < 0 then 0 else limit);
        if q.org == org && SameMonth(q.now, month) {
          MonthIsCounted(t.scans, org, q.monthRead);
          SameMonthSameCount(t.scans, org, month, q.monthRead);
        }
      }
    }
  }

  lemma {:induction false} SameMonthSameCount(scans: seq<ScanRow>, org: string, a: Instant, b: Instant)
    requires SameMonth(a, b)
    ensures FullScansIn(scans, org, a) == FullScansIn(scans, org, b)
  {
    if scans != [] {
      SameMonthSameCount(scans[..|scans| - 1], org, a, b);
    }
  }

  /* Consistency of the tables: the keys the schema declares. */

  ghost predicate DistinctScanIds(scans: seq<ScanRow>) {
    forall i, j :: 0 <= i < j < |scans| ==> scans[i].id != scans[j].id
  }

  ghost predicate DistinctSites(sites: seq<SiteRow>) {
    && (forall i, j :: 0 <= i < j < |sites| ==> sites[i].id != sites[j].id)
    && (forall i, j :: 0 <= i < j < |sites| ==> !(sites[i].org == sites[j].org && sites[i].target == sites[j].target))
  }

  /** Sites come from reservations, so their targets are scan targets too. */
  ghost predicate SitesWereScanned(t: Tables) {
    forall i :: 0 <= i < |t.sites| ==> t.sites[i].target in ScanTargets(t.scans, t.sites[i].org)
  }

  ghost predicate Consistent(t: Tables) {
    ValidTimes(t.scans) && DistinctScanIds(t.scans) && DistinctSites(t.sites) && SitesWereScanned(t)
  }

  lemma AppendTargets(scans: seq<ScanRow>, row: ScanRow, org: string)
    ensures ScanTargets(scans + [row], org) == ScanTargets(scans, org) + (if row.org == org then {row.target} else {})
  {
    assert forall r :: r in scans + [row] <==> r in scans || r == row;
  }

  lemma ReserveKeepsDistinctSites(sites: seq<SiteRow>, q: Request)
    requires DistinctSites(sites)
    requires SiteIndex(sites, q.org, q.target).None? ==> !SiteIdTaken(sites, q.siteId)
    ensures DistinctSites(SitesWith(sites, q))
  {
  }

  lemma ReserveKeepsScanned(t: Tables, limits: Limits, q: Request)
    requires SitesWereScanned(t)
    ensures SitesWereScanned(AfterReserve(t, limits, q))
  {
    var t' := AfterReserve(t, limits, q);
    if t' != t {
      forall i | 0 <= i < |t'.sites| ensures t'.sites[i].target in ScanTargets(t'.scans, t'.sites[i].org) {
        AppendTargets(t.scans, NewScan(q), t'.sites[i].org);
        assert i < |t.sites| ==> t.sites[i].target in ScanTargets(t.scans, t.sites[i].org);
      }
    }
  }

  lemma ReserveKeepsConsistent(t: Tables, limits: Limits, q: Request)
    requires Consistent(t) && Valid(q.now)
    ensures Consistent(AfterReserve(t, limits, q))
  {
    ReserveKeepsScanned(t, limits, q);
    if Decide(t, limits, q).Reserved? {
      ReserveKeepsDistinctSites(t.sites, q);
    }
  }

  /* The two clock readings. */

  function Copies(n: nat): string {
    if n == 0 then "" else Copies(n - 1) + "+"
  }

  lemma {:induction false} CopiesLength(n: nat)
    ensures |Copies(n)| == n
  {
    if n > 0 {
      CopiesLength(n - 1);
    }
  }

  /** `n` earlier scans at the moment the reservation reads the clock. */
  function Filled(n: nat, q: Request): seq<ScanRow> {
    if n == 0 then [] else Filled(n - 1, q) + [ScanRow(q.scanId + Copies(n), q.org, q.target, Full, q.now)]
  }

  lemma {:induction false} FilledRows(n: nat, q: Request)
    ensures |Filled(n, q)| == n
    ensures forall i :: 0 <= i < n ==>
              Filled(n, q)[i] == ScanRow(q.scanId + Copies(i + 1), q.org, q.target, Full, q.now)
  {
    if n > 0 {
      FilledRows(n - 1, q);
    }
  }

  lemma FilledIsConsistent(n: nat, q: Request)
    requires Valid(q.now)
    ensures Consistent(Tables(Filled(n, q), [])) && !ScanIdTaken(Filled(n, q), q.scanId)
  {
    FilledRows(n, q);
    forall i | 0 <= i < n ensures |Filled(n, q)[i].id| == |q.scanId| + i + 1 {
      CopiesLength(i + 1);
    }
  }

  lemma {:induction false} FilledInMonth(n: nat, q: Request, month: Instant)
    ensures FullScansIn(Filled(n, q), q.org, month) == (if SameMonth(q.now, month) then n else 0)
  {
    if n > 0 {
      FilledInMonth(n - 1, q, month);
      AppendCounts(Filled(n - 1, q), ScanRow(q.scanId + Copies(n), q.org, q.target, Full, q.now), q.org, month);
    }
  }

  lemma {:induction false} FilledFrom(n: nat, q: Request, month: Instant)
    ensures FullScansFrom(Filled(n, q), q.org, month) == (if NotBefore(q.now, month) then n else 0)
  {
    if n > 0 {
      FilledFrom(n - 1, q, month);
      assert Filled(n, q)[..|Filled(n, q)| - 1] == Filled(n - 1, q);
    }
  }

  /** The plan has room for the target: it is counted already, or one more is
      allowed. */
  predicate TargetFits(t: Tables, limits: Limits, q: Request) {
    q.target in Targets(t, q.org) || !AtLimit(|Targets(t, q.org)|, limits.maxTargets)
  }

  lemma ReservedWhen(t: Tables, limits: Limits, q: Request, since: string)
    requires since == IsoFormat(MonthStart(q.monthRead))
    requires TargetFits(t, limits, q) && !AtLimit(ScansSince(t.scans, q.org, since), limits.scansPerMonth)
    requires !ScanIdTaken(t.scans, q.scanId)
    requires SiteIndex(t.sites, q.org, q.target).Some? || !SiteIdTaken(t.sites, q.siteId)
    ensures Decide(t, limits, q).Reserved?
  {
  }

  lemma EarlierMonth(a: Instant, b: Instant)
    requires Valid(a) && Valid(b) && !SameMonth(a, b) && Elapsed(a) <= Elapsed(b)
    ensures a.year < b.year || (a.year == b.year && a.month < b.month)
  {
    if DateLess(b, a) {
      EarlierElapsed(b, a);
    }
  }

  ghost predicate TargetsWithin(t: Tables, org: string, maxTargets: Option<int>) {
    maxTargets.Some? ==> |Targets(t, org)| <= (if maxTargets.value < 0 then 0 else maxTargets.value)
  }

  /** Whatever consistent tables the reservation meets, under a plan with these
      two limits, it leaves every month of the organisation within the limit. */
  ghost predicate NeverExceeds(q: Request, maxTargets: Option<int>, limit: int) {
    forall t :: Consistent(t) && MonthsWithin(t, q.org, limit) ==>
      MonthsWithin(AfterReserve(t, Limits(maxTargets, Some(limit)), q), q.org, limit)
  }

  /** The same, only for tables that keep the plan's target quota as well. */
  ghost predicate NeverExceedsWithinTargets(q: Request, maxTargets: Option<int>, limit: int) {
    forall t :: Consistent(t) && MonthsWithin(t, q.org, limit) && TargetsWithin(t, q.org, maxTargets) ==>
      MonthsWithin(AfterReserve(t, Limits(maxTargets, Some(limit)), q), q.org, limit)
  }

  /** The reservation reads the clock twice before it takes the lock, once for
      the row and once for the month. Under every plan it is safe against every
      state of the tables exactly when both readings fall in the same month or the
      limit lets nothing through: at a month's turn a full month can take one more
      scan. For a plan that admits any target, looking only at tables within its
      target quota makes no difference. */
  lemma NeverExceedsIffReadsAgree(q: Request, maxTargets: Option<int>, limit: int)
    requires Valid(q.now) && Valid(q.monthRead) && Elapsed(q.now) <= Elapsed(q.monthRead)
    ensures NeverExceeds(q, maxTargets, limit) <==> limit <= 0 || SameMonth(q.now, q.monthRead)
    ensures maxTargets.None? || maxTargets.value >= 1 ==>
              (NeverExceedsWithinTargets(q, maxTargets, limit) <==> limit <= 0 || SameMonth(q.now, q.monthRead))
  {
    var limits := Limits(maxTargets, Some(limit));
    if limit <= 0 {
      forall t: Tables ensures AfterReserve(t, limits, q) == t {
      }
    } else if SameMonth(q.now, q.monthRead) {
      forall t | Consistent(t) && MonthsWithin(t, q.org, limit)
        ensures MonthsWithin(AfterReserve(t, limits, q), q.org, limit)
      {
        ReserveKeepsMonths(t, limits, q, q.org, limit);
      }
    } else {
      var t := Tables(Filled(limit, q), []);
      FilledIsWithin(limit, q);
      FilledTargets(limit, q);
      FilledTakesOneMore(limit, q, limits);
      assert !MonthsWithin(AfterReserve(t, limits, q), q.org, limit);
    }
  }

  lemma FilledIsWithin(limit: int, q: Request)
    requires limit >= 1 && Valid(q.now)
    ensures var t := Tables(Filled(limit, q), []); Consistent(t) && MonthsWithin(t, q.org, limit)
  {
    var t := Tables(Filled(limit, q), []);
    FilledIsConsistent(limit, q);
    forall month ensures FullScansIn(t.scans, q.org, month) <= limit {
      FilledInMonth(limit, q, month);
    }
  }

  /** Those scans are all of one target. */
  lemma FilledTargets(n: nat, q: Request)
    requires n >= 1
    ensures Targets(Tables(Filled(n, q), []), q.org) == {q.target}
  {
    var t := Tables(Filled(n, q), []);
    FilledRows(n, q);
    assert SiteTargets(t.sites, q.org) == {};
    assert Filled(n, q)[0] in Filled(n, q);
    assert q.target in ScanTargets(t.scans, q.org);
    forall target | target in ScanTargets(t.scans, q.org) ensures target == q.target {
    }
  }

  /** A reservation that dates its row in one month and counts a later one is not
      held back by its own month at all, and it leaves the count it went by as it
      was and its target counted: the next one like it goes through as well, and so
      on. */
  lemma StraddlerAlwaysFits(t: Tables, limits: Limits, q: Request, limit: int)
    requires ValidTimes(t.scans) && Valid(q.now) && Valid(q.monthRead) && !NotBefore(q.now, q.monthRead)
    requires limits.scansPerMonth == Some(limit) && FullScansFrom(t.scans, q.org, q.monthRead) < limit
    requires TargetFits(t, limits, q) && !ScanIdTaken(t.scans, q.scanId)
    requires SiteIndex(t.sites, q.org, q.target).Some? || !SiteIdTaken(t.sites, q.siteId)
    ensures var t' := AfterReserve(t, limits, q);
            && FullScansIn(t'.scans, q.org, q.now) == FullScansIn(t.scans, q.org, q.now) + 1
            && FullScansFrom(t'.scans, q.org, q.monthRead) == FullScansFrom(t.scans, q.org, q.monthRead)
            && TargetFits(t', limits, q)
  {
    SinceIsFromMonth(t.scans, q.org, q.monthRead);
    ReservedWhen(t, limits, q, IsoFormat(MonthStart(q.monthRead)));
    AppendCounts(t.scans, NewScan(q), q.org, q.now);
    AppendTargets(t.scans, NewScan(q), q.org);
    assert (t.scans + [NewScan(q)])[..|t.scans|] == t.scans;
  }

  lemma FilledTakesOneMore(limit: int, q: Request, limits: Limits)
    requires limit >= 1 && Valid(q.now) && Valid(q.monthRead) && Elapsed(q.now) <= Elapsed(q.monthRead)
    requires !SameMonth(q.now, q.monthRead) && limits.scansPerMonth == Some(limit)
    ensures FullScansIn(AfterReserve(Tables(Filled(limit, q), []), limits, q).scans, q.org, q.now) == limit + 1
  {
    EarlierMonth(q.now, q.monthRead);
    FilledInMonth(limit, q, q.now);
    FilledFrom(limit, q, q.monthRead);
    FilledIsConsistent(limit, q);
    FilledTargets(limit, q);
    StraddlerAlwaysFits(Tables(Filled(limit, q), []), limits, q, limit);
  }

  /* The target quota. */

  /** In consistent tables the sites add no target of their own. */
  lemma TargetsAreScanTargets(t: Tables, org: string)
    requires SitesWereScanned(t)
    ensures Targets(t, org) == ScanTargets(t.scans, org)
  {
    forall target | target in SiteTargets(t.sites, org) ensures target in ScanTargets(t.scans, org) {
      var row :| row in t.sites && row.org == org && row.active && row.target == target;
      var i :| 0 <= i < |t.sites| && t.sites[i] == row;
    }
  }

  lemma ReserveAddsItsTarget(t: Tables, limits: Limits, q: Request, org: string)
    requires SitesWereScanned(t)
    ensures Targets(AfterReserve(t, limits, q), org)
         == Targets(t, org) + (if q.org == org && Decide(t, limits, q).Reserved? then {q.target} else {})
  {
    ReserveKeepsScanned(t, limits, q);
    TargetsAreScanTargets(t, org);
    TargetsAreScanTargets(AfterReserve(t, limits, q), org);
    AppendTargets(t.scans, NewScan(q), org);
  }

  lemma AddOne(targets: set<string>, target: string)
    ensures |targets + {target}| == |targets| + (if target in targets then 0 else 1)
  {
    if target in targets {
      assert targets + {target} == targets;
    }
  }

  /** A reservation raises the number of charged targets by one exactly when it
      succeeds for a new target, and never past the larger of the previous
      number and the limit. */
  lemma ReserveChargesOneTarget(t: Tables, limits: Limits, q: Request, org: string)
    requires SitesWereScanned(t)
    ensures var before, after := |Targets(t, org)|, |Targets(AfterReserve(t, limits, q), org)|;
            && after == before
               + (if q.org == org && Decide(t, limits, q).Reserved? && q.target !in Targets(t, org) then 1 else 0)
            && (q.org == org && limits.maxTargets.Some? ==> after <= before || after <= limits.maxTargets.value)
  {
    ReserveAddsItsTarget(t, limits, q, org);
    AddOne(Targets(t, org), q.target);
  }

  lemma AfterReserved(t: Tables, limits: Limits, q: Request)
    requires Decide(t, limits, q).Reserved?
    ensures AfterReserve(t, limits, q) == Tables(t.scans + [NewScan(q)], SitesWith(t.sites, q))
  {
  }

  /** A success leaves exactly one site for the organisation and target, and it
      is active; every other site keeps its place and its state. */
  lemma ReserveActivatesOneSite(t: Tables, limits: Limits, q: Request)
    requires DistinctSites(t.sites) && Decide(t, limits, q).Reserved?
    ensures var sites := AfterReserve(t, limits, q).sites;
            exists at :: && 0 <= at < |sites|
                         && sites[at].org == q.org && sites[at].target == q.target && sites[at].active
                         && (forall i :: 0 <= i < |sites| && i != at ==>
                               && i < |t.sites| && sites[i] == t.sites[i]
                               && !(sites[i].org == q.org && sites[i].target == q.target))
  {
    AfterReserved(t, limits, q);
    SitesHaveOne(t.sites, q);
  }

  lemma SitesHaveOne(before: seq<SiteRow>, q: Request)
    requires DistinctSites(before)
    ensures var sites := SitesWith(before, q);
            exists at :: && 0 <= at < |sites|
                         && sites[at].org == q.org && sites[at].target == q.target && sites[at].active
                         && (forall i :: 0 <= i < |sites| && i != at ==>
                               && i < |before| && sites[i] == before[i]
                               && !(sites[i].org == q.org && sites[i].target == q.target))
  {
    var sites := SitesWith(before, q);
    var found := SiteIndex(before, q.org, q.target);
    var at := if found.Some? then found.value else |before|;
    assert sites[at].org == q.org && sites[at].target == q.target && sites[at].active;
  }

  /** Taking a site off the list never frees a target slot. */
  lemma DeactivateFreesNothing(t: Tables, id: string, org: string)
    requires SitesWereScanned(t)
    ensures var t' := t.(sites := Deactivated(t.sites, id));
            SitesWereScanned(t') && Targets(t', org) == Targets(t, org)
  {
    var t' := t.(sites := Deactivated(t.sites, id));
    forall i | 0 <= i < |t'.sites| ensures t'.sites[i].target in ScanTargets(t'.scans, t'.sites[i].org) {
      assert t.sites[i].target in ScanTargets(t.scans, t.sites[i].org);
    }
    TargetsAreScanTargets(t, org);
    TargetsAreScanTargets(t', org);
  }

  /* Whole runs: reservations of any organisations, the watch agent's records
     and removals of sites, in any order of commit. */

  datatype Op =
    | Reserve(q: Request)
    | WatchScan(id: string, site: nat, now: Instant)
    | RemoveSite(id: string)

  function WatchRow(t: Tables, id: string, site: nat, now: Instant): ScanRow
    requires site < |t.sites|
  {
    ScanRow(id, t.sites[site].org, t.sites[site].target, Watch, now)
  }

  /** The watch agent scans a site that is in the table. */
  function AfterOp(limits: string -> Limits, t: Tables, op: Op): Tables {
    match op
    case Reserve(q) => AfterReserve(t, limits(q.org), q)
    case WatchScan(id, site, now) => if site < |t.sites| then AfterWatch(t, WatchRow(t, id, site, now)) else t
    case RemoveSite(id) => t.(sites := Deactivated(t.sites, id))
  }

  /** The clock reads proper instants. Commits need not follow the order of the
      readings, and the two readings of a reservation may lie in two months. */
  predicate Timed(op: Op) {
    match op
    case Reserve(q) => Valid(q.now) && Valid(q.monthRead)
    case WatchScan(_, _, now) => Valid(now)
    case RemoveSite(_) => true
  }

  function Run(limits: string -> Limits, ops: seq<Op>): Tables {
    if ops == [] then EMPTY_TABLES else AfterOp(limits, Run(limits, ops[..|ops| - 1]), ops[|ops| - 1])
  }

  ghost predicate AllTimed(ops: seq<Op>) {
    forall i :: 0 <= i < |ops| ==> Timed(ops[i])
  }

  /** A reservation that dates its row in the month but counts another one. */
  predicate Straddles(op: Op, org: string, month: Instant) {
    op.Reserve? && op.q.org == org && SameMonth(op.q.now, month) && !SameMonth(op.q.now, op.q.monthRead)
  }

  function Straddlers(ops: seq<Op>, org: string, month: Instant): nat {
    if ops == [] then 0
    else Straddlers(ops[..|ops| - 1], org, month) + (if Straddles(ops[|ops| - 1], org, month) then 1 else 0)
  }

  lemma OneMoreScanKeepsSites(t: Tables, row: ScanRow)
    requires SitesWereScanned(t)
    ensures SitesWereScanned(t.(scans := t.scans + [row]))
  {
    var t' := t.(scans := t.scans + [row]);
    forall i | 0 <= i < |t.sites| ensures t.sites[i].target in ScanTargets(t'.scans, t.sites[i].org) {
      AppendTargets(t.scans, row, t.sites[i].org);
      assert t.sites[i].target in ScanTargets(t.scans, t.sites[i].org);
    }
  }

  lemma OneMoreScanKeepsIds(scans: seq<ScanRow>, row: ScanRow)
    requires ValidTimes(scans) && DistinctScanIds(scans) && Valid(row.created) && !ScanIdTaken(scans, row.id)
    ensures ValidTimes(scans + [row]) && DistinctScanIds(scans + [row])
  {
  }

  lemma WatchKeepsTargets(t: Tables, id: string, site: nat, now: Instant, org: string)
    requires SitesWereScanned(t) && site < |t.sites|
    ensures Targets(t.(scans := t.scans + [WatchRow(t, id, site, now)]), org) == Targets(t, org)
  {
    var row := WatchRow(t, id, site, now);
    OneMoreScanKeepsSites(t, row);
    AppendTargets(t.scans, row, org);
    assert t.sites[site].target in ScanTargets(t.scans, t.sites[site].org);
    TargetsAreScanTargets(t, org);
    TargetsAreScanTargets(t.(scans := t.scans + [row]), org);
  }

  lemma StepKeepsConsistent(limits: string -> Limits, t: Tables, op: Op)
    requires Consistent(t) && Timed(op)
    ensures Consistent(AfterOp(limits, t, op))
  {
    match op
    case Reserve(q) =>
      ReserveKeepsConsistent(t, limits(q.org), q);
    case WatchScan(id, site, now) =>
      if site < |t.sites| && !ScanIdTaken(t.scans, id) {
        OneMoreScanKeepsSites(t, WatchRow(t, id, site, now));
        OneMoreScanKeepsIds(t.scans, WatchRow(t, id, site, now));
      }
    case RemoveSite(id) =>
      DeactivateFreesNothing(t, id, "");
  }

  lemma {:induction false} RunIsConsistent(limits: string -> Limits, ops: seq<Op>)
    requires AllTimed(ops)
    ensures Consistent(Run(limits, ops))
  {
    if ops != [] {
      RunIsConsistent(limits, ops[..|ops| - 1]);
      assert Timed(ops[|ops| - 1]);
      StepKeepsConsistent(limits, Run(limits, ops[..|ops| - 1]), ops[|ops| - 1]);
    }
  }

  /** A step leaves a month's count as it was, or raises it to no more than the
      limit, or is one of the month's straddling reservations and raises it by
      one. */
  lemma StepRaisesMonth(limits: string -> Limits, t: Tables, op: Op, org: string, month: Instant, limit: int)
    requires Consistent(t) && Timed(op) && limits(org).scansPerMonth == Some(limit)
    ensures var before, after := FullScansIn(t.scans, org, month),
              FullScansIn(AfterOp(limits, t, op).scans, org, month);
            after == before || after <= limit || (after == before + 1 && Straddles(op, org, month))
  {
    match op
    case Reserve(q) =>
      ReserveRaisesMonth(t, limits(q.org), q, org, month, limit);
    case WatchScan(id, site, now) =>
      if site < |t.sites| && !ScanIdTaken(t.scans, id) {
        AppendCounts(t.scans, WatchRow(t, id, site, now), org, month);
      }
    case RemoveSite(id) =>
  }

  lemma ReserveRaisesMonth(t: Tables, limits: Limits, q: Request, org: string, month: Instant, limit: int)
    requires ValidTimes(t.scans) && Valid(q.now) && Valid(q.monthRead)
    requires q.org == org ==> limits.scansPerMonth == Some(limit)
    ensures var before, after := FullScansIn(t.scans, org, month),
              FullScansIn(AfterReserve(t, limits, q).scans, org, month);
            after == before || after <= limit || (after == before + 1 && Straddles(Reserve(q), org, month))
  {
    if Decide(t, limits, q).Reserved? {
      AppendCounts(t.scans, NewScan(q), org, month);
      if q.org == org && SameMonth(q.now, month) && SameMonth(q.now, q.monthRead) {
        MonthIsCounted(t.scans, org, q.monthRead);
        SameMonthSameCount(t.scans, org, month, q.monthRead);
      }
    }
  }

  /** With fixed limits, in every run of interleaved reservations, watch scans and
      removals, a month never holds more full scans than its limit and one for
      every reservation whose two readings straddle the month's turn. Without
      such reservations the limit holds. */
  lemma {:induction false} MonthlyQuotaOvershoot(
    limits: string -> Limits, ops: seq<Op>, org: string, month: Instant, limit: int)
    requires AllTimed(ops) && limits(org).scansPerMonth == Some(limit)
    ensures FullScansIn(Run(limits, ops).scans, org, month)
            <= (if limit < 0 then 0 else limit) + Straddlers(ops, org, month)
  {
    if ops != [] {
      var before, op := ops[..|ops| - 1], ops[|ops| - 1];
      assert Timed(op);
      MonthlyQuotaOvershoot(limits, before, org, month, limit);
      RunIsConsistent(limits, before);
      StepRaisesMonth(limits, Run(limits, before), op, org, month, limit);
    }
  }

  lemma StepKeepsTargets(limits: string -> Limits, t: Tables, op: Op, org: string)
    requires SitesWereScanned(t)
    ensures var before, after := |Targets(t, org)|, |Targets(AfterOp(limits, t, op), org)|;
            limits(org).maxTargets.Some? ==> after <= before || after <= limits(org).maxTargets.value
  {
    match op
    case Reserve(q) =>
      ReserveChargesOneTarget(t, limits(q.org), q, org);
    case WatchScan(id, site, now) =>
      if site < |t.sites| && !ScanIdTaken(t.scans, id) {
        WatchKeepsTargets(t, id, site, now, org);
      }
    case RemoveSite(id) =>
      DeactivateFreesNothing(t, id, org);
  }

  /** With fixed limits, no run takes an organisation over its target quota,
      whatever the clock readings. */
  lemma {:induction false} TargetQuotaNeverExceeded(limits: string -> Limits, ops: seq<Op>, org: string, limit: int)
    requires AllTimed(ops) && limits(org).maxTargets == Some(limit)
    ensures |Targets(Run(limits, ops), org)| <= (if limit < 0 then 0 else limit)
  {
    if ops == [] {
      assert Targets(EMPTY_TABLES, org) == {};
    } else {
      var before := ops[..|ops| - 1];
      TargetQuotaNeverExceeded(limits, before, org, limit);
      RunIsConsistent(limits, before);
      StepKeepsTargets(limits, Run(limits, before), ops[|ops| - 1], org);
    }
  }

  /** A success shows up once in the usage its month reading asks for, unless its
      row is dated in an earlier month; a refusal not at all. */
  lemma ReserveSpendsOneScan(t: Tables, limits: Limits, q: Request, org: string)
    requires Valid(q.now) && Valid(q.monthRead)
    ensures var since := IsoFormat(MonthStart(q.monthRead));
            ScansSince(AfterReserve(t, limits, q).scans, org, since)
            == ScansSince(t.scans, org, since)
               + if org == q.org && Decide(t, limits, q).Reserved? && NotBefore(q.now, q.monthRead) then 1 else 0
  {
    SinceMonthStart(q.now, q.monthRead);
    assert (t.scans + [NewScan(q)])[..|t.scans|] == t.scans;
  }

  /* What an outcome means. */

  /** An organisation is charged for the targets of its scans and of its active
      sites, each once. */
  lemma ChargedIff(t: Tables, org: string, target: string)
    ensures target in Targets(t, org)
            <==> || (exists i :: 0 <= i < |t.scans| && t.scans[i].org == org && t.scans[i].target == target)
                 || (exists i :: 0 <= i < |t.sites| && t.sites[i].org == org && t.sites[i].active
                                 && t.sites[i].target == target)
  {
    if i :| 0 <= i < |t.scans| && t.scans[i].org == org && t.scans[i].target == target {
      assert t.scans[i] in t.scans;
    }
    if i :| 0 <= i < |t.sites| && t.sites[i].org == org && t.sites[i].active && t.sites[i].target == target {
      assert t.sites[i] in t.sites;
    }
  }

  /** The organisation has room for one more target, or is charged for this one. */
  ghost predicate TargetAllowed(t: Tables, limits: Limits, q: Request) {
    || limits.maxTargets == None
    || q.target in Targets(t, q.org)
    || |Targets(t, q.org)| < limits.maxTargets.value
  }

  ghost predicate ScanAllowed(t: Tables, limits: Limits, q: Request) {
    limits.scansPerMonth == None || FullScansFrom(t.scans, q.org, q.monthRead) < limits.scansPerMonth.value
  }

  /** The ids the transaction would write are free. */
  ghost predicate IdsFree(t: Tables, q: Request) {
    && (forall i :: 0 <= i < |t.scans| ==> t.scans[i].id != q.scanId)
    && ((exists i :: 0 <= i < |t.sites| && t.sites[i].org == q.org && t.sites[i].target == q.target)
        || forall i :: 0 <= i < |t.sites| ==> t.sites[i].id != q.siteId)
  }

  /** Each outcome has its reason, the target quota before the monthly one and both
      before the ids; afterwards the scan's id is taken. */
  lemma OutcomesAreJustified(t: Tables, limits: Limits, q: Request)
    requires ValidTimes(t.scans) && Valid(q.monthRead)
    ensures var outcome := Decide(t, limits, q);
            && (outcome == TargetQuotaExceeded <==> !TargetAllowed(t, limits, q))
            && (outcome == ScanQuotaExceeded <==> TargetAllowed(t, limits, q) && !ScanAllowed(t, limits, q))
            && (outcome == IntegrityError
                <==> TargetAllowed(t, limits, q) && ScanAllowed(t, limits, q) && !IdsFree(t, q))
            && (outcome == Reserved
                <==> TargetAllowed(t, limits, q) && ScanAllowed(t, limits, q) && IdsFree(t, q))
    ensures Decide(t, limits, q) == Reserved ==>
              var scans := AfterReserve(t, limits, q).scans;
              && |scans| == |t.scans| + 1 && scans[..|t.scans|] == t.scans
              && scans[|t.scans|].id == q.scanId && scans[|t.scans|].created == q.now
              && scans[|t.scans|].org == q.org && scans[|t.scans|].target == q.target && scans[|t.scans|].kind == Full
  {
    SinceIsFromMonth(t.scans, q.org, q.monthRead);
  }
}
