# A verified model of the scanner backend

The backend admits, runs and reports security scans of web sites. This project
models its decision logic in Dafny and proves what it promises.

- **Admission** (`SlidingWindow`, `RateLimiting`, `InflightScans`, `Admission`,
  `AdmissionAnswers`): concurrent scan requests over a rate limiter and an
  in-flight registry. The two in-memory objects are classes proved against
  specification functions; a step machine in which every `await` is an
  interleaving point uses the same functions, and the theorems hold of every
  sequence of its steps. Each answer is traced back to the step it is due to.
- **Quota ledger** (`Timestamps`, `QuotaLedger`): the reservation transaction
  over the scans and sites tables, with timestamps compared as text.
- **Finding pipeline** (`Findings`, `Detection`, `Sorting`, `Scoring`,
  `RiskScale`, `Reporting`, `ReportConservation`, `Pipeline`, `ShownSeverity`):
  deduplicate, score, sort, collapse, cap, expand, cap. Most theorems cross
  several of these functions.
- **Scan state machine** (`Approval`, `ScanGraph`, `ScanRoutes`): the nodes of the
  graph, the approval interrupt and its resume, timeouts and exceptions at any
  moment; the way every run takes, what has run and what its outcome is drawn
  from.
- **Header findings** (`HeaderChecks`, `HeaderLaws`, `CspPolicies`, `HstsAdvice`,
  `Origins`, `HeaderVerification`, `VerifyFix`): the detector, told again on the
  header texts, the separately written re-check, and what "Verify Fix" may
  conclude from it.
- **Targets and transport** (`ScanTargets`, `Spellings`, `SafeTransport`): URL
  normalisation of every way to write a target, and the transport that pins
  addresses and follows redirects.
- **AI summary** (`AiSynthesis`, `AiPublication`): which model text may be
  published, after how many calls, told on the findings and the model's JSON.

`Text`, `Sequences` and `Wrappers` hold the string operations, list joining and
optional values the other modules share; `TextLaws` says what the string
operations mean without them. Tools, DNS, servers, language models
and the clock are arbitrary: parameters, functions or events about which nothing
is assumed beyond what a contract's `requires` says. Where the backend loops,
the model has a method with a loop, proved against a function; the lemmas are
about that function.

Some properties one might expect do not hold of the code. For each of them the
project proves exactly when the code has it:

- a month's scan quota can be exceeded when the two clock readings of a
  reservation fall on both sides of a month's turn: under every plan, one such
  reservation is safe in every state exactly when its readings agree or the limit
  lets nothing through (`QuotaLedger.NeverExceedsIffReadsAgree`), a whole run
  overshoots by at most one for each of them
  (`QuotaLedger.MonthlyQuotaOvershoot`), and any number of them can go through
  one after the other (`QuotaLedger.StraddlerAlwaysFits`);
- the in-flight registry alone does not keep two scans of one target apart: a
  client allowed two scans at once can have both
  (`Admission.OverlapImpossibleIffOneAtATime`);
- re-scoring is not a fixed point: an informational finding without a native
  score comes back higher (`Scoring.RescoringIsFixedPointIff`);
- the merge of the passive stage is not a deduplication when a new finding
  outranks an existing one (`Detection.PassiveMergeIsDedupIffNothingOutranked`);
- a report can hide a finding and show a less severe one: behind the second cap
  every row carries the severity of its group's first finding. A finding shown
  under its own severity is outranked by no hidden one
  (`ShownSeverity.OwnSeverityIsNotOutranked`), and the findings of a group are
  safe from that in every report exactly when they are all of one severity
  (`ShownSeverity.NeverOutrankedIffOneSeverity`, with
  `ShownSeverity.MediumHiddenBehindLow` as an example);
- in a collapsed group whose instances share their evidence, an instance without
  evidence takes over the others' (`ReportConservation.ExpandRestores`);
- what the approval endpoint approved does not always reach the gate: it does
  exactly for an explicit list, for an answer that approves nothing, and for a
  plan of trimmed, lower-case names (`Approval.ApprovalReachesGateIff`, with
  `Approval.UpperCasePlanIsLost` as an example). The backend's own plan is always
  sqlmap and zap or empty, so in a run nothing is lost
  (`ScanGraph.ApiAnswerIsWhatRuns`);
- the report on its own reads a severity as scoring does exactly for texts other
  than four spellings only scoring knows (`Pipeline.RawSeverityIsReadAlikeIff`);
- the header detector and the re-check agree on every type but cookies except for
  a wildcard origin under credentials, where the detector reports a graver type,
  and except for the HSTS types away from https, which the detector never reports
  and the re-check may confirm (`HeaderVerification.DetectorAndRecheckAgree`); on
  cookies they agree over https, and over plain http exactly when a cookie whose
  one flaw is `SameSite=None` without `Secure` comes with one of its name that
  lacks `HttpOnly` or `SameSite`
  (`HeaderVerification.HttpDetectorAndRecheckAgreeIff`; for an https URL not in
  lower case see `HeaderVerification.UpperCaseDetectorAndRecheckAgreeIff`). From
  that follows when "fixed" over plain http means "no longer reported"
  (`VerifyFix.HttpFixedMeansNoLongerReportedIff`);
- an IPv6 target without a written-out port is refused
  (`ScanTargets.OwnUrlNormalizes`).

The comment on the collapse in `backend/agents/reporting.py` says that per-URL
evidence is kept where it differs; the code drops the difference between some
evidence and none, and the model follows the code.

## Model

| member | source | states |
|---|---|---|
| RateLimiting.PopExpired | backend/app/main.py:342-343 | the shared popleft loop leaves exactly the pruned deque |
| SlidingWindow.CallIsFaithful | backend/app/main.py:341-355 | one call keeps the deque equal to the accepted history inside the window, and its length test is a count of that history |
| SlidingWindow.SpacedBoundsEveryInterval | backend/app/main.py:345-355 | spaced acceptances put at most the limit into any closed interval of the window's length, wherever it lies |
| RateLimiting.ScanRateLimiter.Acquire | backend/app/main.py:332-383 | the verdict in the code's order of checks and the whole new state: a refusal for rate counts nothing, an admission takes one slot per client and globally |
| RateLimiting.ScanRateLimiter.Release | backend/app/main.py:385-390 | both counters go down by one unless already at zero |
| RateLimiting.SlidingWindowRateLimiter.Acquire | backend/app/main.py:401-426 | admits exactly when fewer calls than the maximum remain in the pruned deque, which then gains this call |
| RateLimiting.EveryIntervalIsBounded | backend/app/main.py:401-426 | over every run of interleaved keys, no closed interval of a key's window holds more accepted calls than its maximum |
| RateLimiting.RefusedExactlyWhenWindowIsFull | backend/app/main.py:413-426 | after every run, a call is refused if and only if the maximum of accepted calls already lies in the window ending now |
| InflightScans.InflightScanRegistry.GetInflight | backend/app/main.py:675-682 | a scan is returned exactly for a registered client and target, and in a coherent registry it names that key back |
| InflightScans.InflightScanRegistry.Register | backend/app/main.py:684-693 | the key now leads to the scan, every other key to what it led to, and a fresh scan keeps the registry coherent |
| InflightScans.InflightScanRegistry.Release | backend/app/main.py:695-699 | the scan leaves; exactly the keys that led to it are freed, and the registry stays coherent |
| InflightScans.RegisterKeepsCoherent | backend/app/main.py:684-693 | registering a fresh scan keeps every registered key naming a scan that names the key back |
| InflightScans.ReleaseKeepsCoherent | backend/app/main.py:695-699 | releasing keeps that coherence, and releasing a superseded scan leaves its successor's entry alone |
| InflightScans.DedupKeyIsInjective | backend/app/main.py:671-673 | for arbitrary client names and normalised targets, equal keys mean equal client and equal target |
| Admission.SlotsAlwaysRight | backend/app/main.py:1638-1705 | in every interleaving the global counter, the sum of the per-client counters and the number of requests holding a slot are equal, no limit is exceeded, and each granted slot is given back at most once |
| Admission.GuardsNeverBite | backend/app/main.py:385-390 | in every reachable state a release finds both counters positive, so the guards never save a bad decrement |
| Admission.RegistryAlwaysRight | backend/app/main.py:1638-1705 | in every interleaving each registered key names a scan of a live request with that key, and the two maps agree |
| Admission.QuiescentSystemIsClean | backend/app/main.py:1693-1705 | when all requests have ended, by success or exception, counters are zero, both maps empty, and every granted slot returned exactly once |
| Admission.RegisteredScansAreBounded | backend/app/main.py:1638-1660 | a client never has more registered scans than its concurrency limit, one for a limit of one |
| Admission.LookUpFindsOwnScan | backend/app/main.py:1638-1653 | a scan reported as already in progress belongs to a live request of the same client and the same target |
| AdmissionAnswers.EveryPhaseIsExplained | backend/app/main.py:1638-1691 | in every run each request stands where it stands because of its own steps: checking because its look-up found that scan, clearing because it was told in addition that the scan is over, waiting for a slot because it found none or cleared one |
| AdmissionAnswers.AnsweredIffEarned | backend/app/main.py:1638-1691 | over every run a request ends in the 409 if and only if it was told that the scan it found is in progress, in a refusal if and only if that was the limiter's verdict on it, in a failure if and only if scheduling failed, and finished if and only if its task ended |
| AdmissionAnswers.TurnedAwayTakesNoSlot | backend/app/main.py:1641-1656 | a request told that its scan is in progress has the 409 from then on, whatever happens next, and is never granted a slot; the same with a refusal |
| AdmissionAnswers.SlotOnlyIfAdmitted | backend/app/main.py:1641-1656 | a slot is granted only on the limiter's admission, and waited for only after finding no scan or clearing one told to be over |
| AdmissionAnswers.EntryLeavesIff | backend/app/main.py:684-699 | in every run a scan's entry leaves the registry if and only if the step is its own release, the registration of a newer scan of its key, or the clearing by a request that found it and was told that it is over |
| AdmissionAnswers.EntryComesByRegister | backend/app/main.py:684-693 | an entry appears only by the registration of that very scan for that key |
| AdmissionAnswers.ConcurrencyRefusalIsJustified | backend/app/main.py:357-383 | in every reachable state the verdicts on concurrency follow from the numbers of requests holding a slot, the client's before the global one |
| Admission.AcceptanceRateIsBounded | backend/app/main.py:341-355 | in every interleaving no window-long interval holds more accepted scans of a client than its request limit |
| Admission.RateRefusalIsJustified | backend/app/main.py:345-355 | in every reachable state a request is refused for its rate if and only if that many accepted scans of the client lie in the window |
| Admission.OverlapImpossibleIffOneAtATime | backend/app/main.py:1638-1660 | two scans of one target by one client can overlap in some run if and only if the limits allow a client two scans |
| Timestamps.TextOrderIsChronological | backend/core/accounts.py:167-168 | comparing two valid `isoformat()` texts character by character is comparing the instants, optional fraction included |
| Timestamps.DateTextOrder | backend/core/accounts.py:167-168 | an earlier date gives a smaller text whatever the time of day |
| Timestamps.IsoReads | backend/core/accounts.py:167-168 | the text of an instant says its numbers, zero-padded, each in its place between its marks, with a fraction only if there is one |
| QuotaLedger.AccountsStore.ReserveScanQuota | backend/core/accounts.py:511-612 | the outcome and the whole of both tables after one transaction; a refusal or integrity error changes nothing |
| QuotaLedger.AccountsStore.GetOrgScanUsage | backend/core/accounts.py:714-754 | the string query counts the full scans of the calendar month of the reading and later ones, the month alone when there are no later rows; inactive sites do not change the target count |
| QuotaLedger.AccountsStore.DeactivateSite | backend/core/accounts.py:1254-1273 | exactly the sites with the id change, to inactive; the site comes back if there is one; no organisation's counted targets change |
| QuotaLedger.AccountsStore.CreateWatchRecord | backend/core/accounts.py:461-486 | one row of the watch kind, unless the id is taken; the step the run theorems use |
| QuotaLedger.SinceMonthStart | backend/core/accounts.py:504-506 | a creation text is at or above the month-start text if and only if the row is of that month or later |
| QuotaLedger.ReserveKeepsMonths | backend/core/accounts.py:539-585 | when both readings are of one month, no reservation takes any month over the limit, rows out of time order included |
| QuotaLedger.NeverExceedsIffReadsAgree | backend/core/accounts.py:503-506 | for every pair of a target limit and a monthly limit, a reservation is safe against every consistent state of the tables if and only if the monthly limit is zero or less or its two clock readings fall in one month; for a plan that admits a target the same holds over the states within its target quota |
| QuotaLedger.MonthlyQuotaOvershoot | backend/core/accounts.py:488-612 | with fixed limits, in every run of interleaved reservations, watch scans and removals, each (organisation, month) holds at most the limit and one full scan for every reservation whose readings straddle that month's end |
| QuotaLedger.StraddlerAlwaysFits | backend/core/accounts.py:503-577 | under every plan with a monthly limit and room for the target, a straddling reservation goes through however full its own month is, and leaves the count it went by and the room for its target as they were, so the next one goes through too |
| QuotaLedger.TargetQuotaNeverExceeded | backend/core/accounts.py:514-569 | no run takes an organisation over its target quota, whatever the clock readings |
| QuotaLedger.ReserveChargesOneTarget | backend/core/accounts.py:514-569 | a reservation raises the target count by zero or one, and to at most the larger of the old count and the limit |
| QuotaLedger.ReserveActivatesOneSite | backend/core/accounts.py:579-594 | a success leaves exactly one site of the organisation and target, and it is active |
| QuotaLedger.DeactivateFreesNothing | backend/core/accounts.py:1254-1273 | removing a site leaves the organisation's set of counted targets as it was |
| QuotaLedger.ReserveSpendsOneScan | backend/core/accounts.py:714-760 | the month's usage of the organisation grows by one if and only if the reservation succeeds and its row is not dated before the month counted, and of no other organisation at all |
| QuotaLedger.OutcomesAreJustified | backend/core/accounts.py:514-585 | each of the four outcomes if and only if its reason holds, told on the rows: the target quota before the monthly one, both before the ids; a success adds exactly the row asked for |
| QuotaLedger.ChargedIff | backend/core/accounts.py:514-538 | an organisation is charged for a target if and only if one of its scans or of its active sites has it |
| Findings.DeduplicateFindings | backend/tools/schemas.py:88-122 | the dict loop computes the deduplication function |
| Findings.SurvivorIsBest | backend/tools/schemas.py:104-120 | every survivor is the earliest of the most severe findings of its key |
| Findings.DedupKeys | backend/tools/schemas.py:112-122 | one survivor for every key that occurs, in order of first occurrence |
| Findings.OneSurvivorPerUrlAndType | backend/tools/schemas.py:88-122 | every finding has exactly one survivor of its URL and type, and none it is graver than |
| Findings.SurvivorsDetermineResult | backend/tools/schemas.py:88-122 | the two previous properties determine the result: any other list with them is the same list |
| Findings.DedupIncrementally | backend/agents/detection.py:462-467 | deduplicating a deduplicated list with new findings is deduplicating everything at once |
| Findings.DedupNewFirst | backend/agents/detection.py:406-424 | folding a list's own survivors into others is folding the list itself into them |
| Detection.MergePassive | backend/agents/detection.py:415-424 | existing findings followed by the survivors whose key is new |
| Detection.MergeActive | backend/agents/detection.py:462-475 | the second filter by key never drops anything: the result is the deduplication of old and new together |
| Detection.PassiveMergeIsDedupIffNothingOutranked | backend/agents/detection.py:404-426 | the passive merge is deduplication if and only if no new finding outranks an existing one of its key |
| Detection.StagesDeduplicateEverything | backend/agents/detection.py:404-475 | on a scan without earlier findings the two stages deduplicate the union of what both found |
| Sorting.SortIsStable | backend/agents/scoring.py:161-167 | elements with equal keys keep their order |
| Sorting.SortDescends | backend/agents/scoring.py:161-167 | no later element has a greater key than an earlier one |
| Scoring.RunScoring | backend/agents/scoring.py:109-167 | the loop's four accumulators and the sorted list equal their specifications: rows, severity counts, id map and overall risk |
| Scoring.SeverityIsTheHigher | backend/agents/scoring.py:118-138 | the severity that comes out is the more severe of the declared and the score-derived one |
| Scoring.RescoringOneIsIdentityIff | backend/agents/scoring.py:113-138 | scoring a scored finding again changes nothing if and only if it did not arrive as informational without a native score |
| Scoring.RescoringIsFixedPointIff | backend/agents/scoring.py:113-167 | the same for whole lists, their order included |
| Scoring.OverallRiskInRange | backend/agents/scoring.py:229-240 | the overall risk lies in [0, 10] and, with failed modules, at or above the coverage floor |
| Scoring.OverallRiskIgnoresOrder | backend/agents/scoring.py:140-160 | permuting the findings leaves the overall risk unchanged |
| Scoring.CountsAddUp | backend/agents/scoring.py:143-143 | the five severity counts sum to the number of findings |
| Scoring.AssignedIdsAreDistinct | backend/agents/scoring.py:113-120 | findings without ids get pairwise different ones |
| Scoring.PerFindingLosesNoneIff | backend/agents/scoring.py:144-160 | the map by id has an entry per finding if and only if ids are distinct, and then each id leads to its finding |
| RiskScale.GraverIsNeverSafer | backend/agents/scoring.py:113-240 | declaring a finding graver never lowers the overall risk, whatever the other findings and failed modules |
| RiskScale.SurerIsNeverSafer | backend/agents/scoring.py:61-160 | being surer of a finding never lowers the overall risk |
| RiskScale.ScoringWrites | backend/agents/scoring.py:118-146 | a scored finding carries the final severity, score, clamped confidence and an id, and is otherwise unchanged |
| RiskScale.DeclaredSeverities | backend/agents/scoring.py:18-60 | what every declared spelling is worth without a native score: name, score, and risk at full confidence |
| RiskScale.ScoreBands | backend/agents/scoring.py:26-91 | the bands of a native score before rounding to tenths: critical from 8.95, high from 6.95, medium from 3.95, low from 0.95 |
| RiskScale.AlikeFindingsRiskOne | backend/agents/scoring.py:229-234 | the overall risk of any number of findings alike is the risk of one, to hundredths |
| RiskScale.NothingFoundRisk | backend/agents/scoring.py:229-240 | without findings only the floor is left: half a point for every failed module, two at most |
| RiskScale.ListIsSortedByScore | backend/agents/scoring.py:161-167 | the list scoring hands on is sorted by severity and within a severity by score |
| Reporting.CollapseGroup | backend/agents/reporting.py:843-897 | the loop over a group's instances builds the collapsed group: template fields, URL list without repeats, evidence per URL only where it varies |
| Reporting.DeduplicateFindings | backend/agents/reporting.py:829-899 | one group per (type, tool) in order of first occurrence, over all instances |
| Reporting.ExpandGroups | backend/agents/reporting.py:2442-2461 | the rows each group expands to, one per affected URL with the URL's evidence where there is any |
| Reporting.RunReporting | backend/agents/reporting.py:2428-2465 | collapse, cap the groups, expand, cap the rows |
| ReportConservation.ExpandRestores | backend/agents/reporting.py:849-897 | a group expands to one row per instance in order and in place; the evidence is the instance's own if and only if the instance has some, the first has none, it is alone, or evidence varies; the severity is its own if and only if it is the first instance's |
| ReportConservation.CollapseExpandConserves | backend/agents/reporting.py:2434-2461 | on (url, type)-unique findings, collapsing and expanding yields each (type, tool, url) exactly as often as it came |
| ReportConservation.SizesAddUp | backend/agents/reporting.py:829-899 | instance counts sum to the number of findings |
| ReportConservation.EvidenceComesBack | backend/agents/reporting.py:2442-2461 | every finding with evidence gets a row of its place with exactly that evidence |
| ReportConservation.CapDropsLeastSevere | backend/agents/reporting.py:735-762 | a cap keeps min(n, cap) entries, loses none but the dropped, and drops no entry that outranks a kept one |
| ReportConservation.NegativeCapTakesOff | backend/agents/reporting.py:735-762 | a negative cap takes that many entries off the end of the sorted list |
| ReportConservation.ReportShowsEverythingBelowCap | backend/agents/reporting.py:2428-2465 | up to the cap, the report has one row for every finding and nothing else |
| Pipeline.ReportReadsScoredSeverity | backend/agents/reporting.py:765-771 | the report's own reading of a severity scoring wrote is scoring's reading |
| Pipeline.RawSeverityIsReadAlikeIff | backend/agents/reporting.py:765-771 | for every raw text the two readings agree if and only if, trimmed and lowered, it is none of "moderate", "med", "important", "severe" |
| Pipeline.GroupCarriesHighestSeverity | backend/agents/reporting.py:839-872 | after scoring, a collapsed group has the highest severity among its instances |
| Pipeline.NothingHiddenOutranksShown | backend/agents/reporting.py:735-762 | no finding of a group the first cap drops outranks a group it keeps |
| ShownSeverity.HiddenIsBelowShownGroups | backend/agents/reporting.py:2428-2465 | through both caps, no finding missing from the rendered rows is more severe than the first finding of the group of one that is there |
| ShownSeverity.OwnSeverityIsNotOutranked | backend/agents/reporting.py:2442-2465 | a rendered finding as severe as its group's first finding is outranked by no missing one |
| ShownSeverity.NeverOutrankedIffOneSeverity | backend/agents/reporting.py:2442-2465 | for every group: in every report it occurs in, at every cap, no missing finding outranks a rendered one of the group, if and only if the group is of one severity |
| ShownSeverity.ScoringMakesReportable | backend/agents/scoring.py:161-167 | what scoring makes of deduplicated findings meets the assumption of the three theorems above |
| ShownSeverity.GroupsAreReportable | backend/agents/reporting.py:829-836 | so do the instances of every group of it |
| ShownSeverity.MediumHiddenBehindLow | backend/agents/reporting.py:2442-2465 | an example: with a cap of two, a high and a low finding of one type push out a medium one, the low one shown as high |
| ShownSeverity.CapPrefersLargerGroups | backend/agents/reporting.py:735-762 | among groups of one severity the first cap keeps those with more findings |
| ShownSeverity.CapPrefersHigherScores | backend/agents/reporting.py:2462-2465 | among rows of one severity the second cap keeps those with the higher scores |
| Pipeline.ReportIsFaithful | backend/agents/reporting.py:2428-2465 | from raw tool output to a report below its cap: each (type, tool, url) that deduplication keeps is shown exactly once, and sizes add up |
| Pipeline.ReportShowsEvidence | backend/agents/reporting.py:2428-2465 | from raw tool output to a report below its cap: every finding that deduplication keeps and that has evidence has a row of its type, tool and URL with exactly that evidence |
| Approval.ChoicePartitions | backend/agents/orchestrator.py:196-202 | approved and rejected tools take every place of the plan exactly once, both in the plan's order |
| Approval.ApprovedIff | backend/agents/orchestrator.py:76-94 | a planned tool is approved if and only if the list names it, white space and letter case aside, whatever the flag; without a list if and only if the flag is set; the others are rejected |
| Approval.AcceptedIff | backend/app/main.py:1799-1815 | the endpoint turns an answer down if and only if its list names a tool that is not planned, and says exactly which |
| Approval.SelectedIff | backend/agents/detection.py:56-71 | the detection stage selects the recorded tools of the plan, without a record all or none by the flag, without a plan from its two default tools |
| Approval.ApprovalReachesGateIff | backend/app/main.py:1801-1835 | for every accepted answer, the gate approves what the API approved if and only if the answer is a list, or approves nothing, or the plan's names are trimmed, lower-case and not empty |
| Approval.ThreeResolutionsAgreeIff | backend/agents/detection.py:56-71 | the detection stage always follows the gate, and all three select the same tools in the same order under exactly that condition |
| Approval.UpperCasePlanIsLost | backend/agents/orchestrator.py:91-94 | an example outside the condition: a bulk approval of "ZAP" passes the API and is dropped by the gate |
| ScanGraph.ActiveToolsNeedApproval | backend/agents/orchestrator.py:156-221 | in every run of both profiles, a started active tool is planned, approved, and named or bulk-approved by the one decision |
| ScanGraph.ApprovalAlwaysHolds | backend/agents/orchestrator.py:139-346 | the invariant behind it: nothing approved or started before a decision, afterwards exactly what the decision resolves to |
| ScanGraph.ApiAnswerIsWhatRuns | backend/app/main.py:1795-1835 | the approved and rejected lists the endpoint answered are the ones recorded in the state and startable |
| ScanGraph.EveryEventProgresses | backend/agents/orchestrator.py:304-346 | every step, resume or abort strictly decreases a node rank, and until the end some event is possible |
| ScanGraph.InterruptsAtMostOnce | backend/agents/orchestrator.py:156-191 | no run interrupts for approval twice |
| ScanGraph.OutcomeIsExact | backend/agents/reporting.py:2520-2538 | a finished scan is "failed" if and only if scope, timeout or exception failed it, and "rejected" if and only if it did not fail and the gate approved nothing |
| ScanGraph.OutOfScopeVisitsNothing | backend/agents/orchestrator.py:97-131 | a target that fails the scope check sees no node but the check and the report, runs no tool, and ends failed |
| ScanRoutes.FinishedScanTookItsRoute | backend/agents/orchestrator.py:290-346 | in every run of both profiles a finished scan that nothing failed has entered exactly the nodes of its profile in order, the gate twice in the full one and never in the other; any other has entered the first of them, or only the check and the report |
| ScanRoutes.ToolsRanIfApprovedAndUsable | backend/agents/detection.py:434-520 | over every run the active tools that ran are the approved ones that were usable when the active stage was worked on |
| ScanRoutes.CleanIffNothingFound | backend/agents/reporting.py:2520-2538 | a scan neither failed nor rejected ends clean if and only if its last stage left no findings, the active one if tools were approved, else the passive one |
| ScanRoutes.FailureAndDecisionAreOnRecord | backend/agents/orchestrator.py:97-191 | a scan failed if and only if the scope check did or a task was aborted, and the decision on record is the answer that resumed it |
| ScanRoutes.StatusTellsWhere | backend/agents/orchestrator.py:97-221 | in every run the status a poll shows is the one that belongs to where the scan stands |
| ScanRoutes.PlanIsSqlmapAndZap | backend/agents/orchestrator.py:139-153 | in every run the plan is empty or sqlmap and zap in this order, which is what a paused scan asks about |
| HeaderChecks.CheckCsp | backend/tools/header_checks.py:383-482 | the detector's CSP findings, the first permissive directive and no other included; what makes a directive permissive is stated by CspPolicies.PolicyIsPermissiveIff |
| CspPolicies.PolicyIsPermissiveIff | backend/tools/header_checks.py:450-480 | for every policy written from directives of words: it is reported as overly permissive, naming the first such directive, if and only if some source is "*", "https:" or "http:", and the re-check finds the same directive |
| TextLaws.WordsTakeFirst | backend/tools/header_checks.py:455-458 | splitting at white space gives the words between it: white space, a word, and white space or the end make that word the first |
| HeaderChecks.CheckHsts | backend/tools/header_checks.py:484-632 | the HSTS findings for https URLs, none otherwise |
| HeaderChecks.CheckCookies | backend/tools/header_checks.py:832-881 | one finding per flawed cookie, in order, with its flags and severity |
| HeaderChecks.CheckServer | backend/tools/header_checks.py:892-915 | at most one finding, exactly when some version indicator occurs |
| HeaderLaws.EverySeverityFits | backend/tools/header_checks.py:383-960 | every finding of a response has the severity of its type, a cookie's medium if and only if its name speaks of a session |
| HeaderLaws.FlagsNameTheFlaws | backend/tools/header_checks.py:849-859 | the flags of a cookie finding name exactly what the cookie lacks, each once |
| HeaderLaws.CookieNameReads | backend/tools/header_checks.py:839-839 | the name is what stands before the equals sign, white space aside |
| HeaderLaws.BannerIsReportedIff | backend/tools/header_checks.py:895-899 | a banner is reported if and only if it names one of the four products with a slash, in any letter case |
| HeaderLaws.MaxAgeReads | backend/tools/header_checks.py:47-47 | the age is read in any letter case, with white space around its name and its equals sign, up to its last digit |
| HeaderLaws.MaxAgeInAnyPlace | backend/tools/header_checks.py:47-47 | behind other directives the age is read as it would be alone |
| HeaderLaws.SegmentNames | backend/tools/header_checks.py:75-77 | a segment names the directive before its equals sign, in any letter case and with white space at both ends |
| HeaderLaws.NumberIsReadIff | backend/tools/header_checks.py:68-72 | digits are a number unless there are more than 4300 of them |
| HeaderChecks.AnalyzeResponse | backend/tools/header_checks.py:365-381 | all groups of findings in the code's order |
| HstsAdvice.PolicyRoundTrip | backend/tools/header_checks.py:63-83 | a rendered policy is parsed back: its age, and each directive if and only if it was given in some letter case |
| HstsAdvice.AdvisedPolicyIsCleanIff | backend/tools/header_checks.py:484-632 | the detector accepts a rendered policy if and only if it lasts a year, covers subdomains and asks for preloading |
| Origins.OriginIsItsOwn | backend/tools/header_checks.py:50-60 | normalising an origin again changes nothing, for every URL that parses at all |
| Spellings.OriginReads | backend/tools/header_checks.py:50-60 | the origin of a URL is its scheme and its authority as written, https for a text without a scheme |
| Origins.GroupUrlsByOrigin | backend/tools/header_checks.py:138-147 | the dict loop groups the completed URLs by their normalised origins, or fails with the error of the first URL that cannot be parsed |
| Origins.EntriesAreGrouped | backend/tools/header_checks.py:138-147 | each origin occurs once, with exactly the URLs submitted for it, none repeated and none lost |
| Origins.EntryIsComplete | backend/tools/header_checks.py:138-147 | a grouped URL is the submitted one with https before it where it has no scheme, under its own origin |
| HeaderVerification.RecheckCookies | backend/agents/verification.py:240-258 | the loop matches if and only if some cookie of the finding's name, in any letter case, lacks an attribute |
| HeaderVerification.CspHasPermissiveSource | backend/agents/verification.py:141-151 | the re-check's own loop over the policy, proved against its own conditions |
| HeaderVerification.ScansAgree | backend/agents/verification.py:141-151 | for every policy that loop and the detector stop at the same directive, or both at none |
| HeaderChecks.PermissiveSegment | backend/tools/header_checks.py:450-480 | the detector's loop finds the first permissive directive, trimmed, if any |
| HeaderVerification.DetectorAndRecheckAgree | backend/agents/verification.py:154-271 | for every response and type but cookies, the detector emits the type if and only if the re-check confirms it, the URL is https for HSTS, and no graver CORS finding replaces it |
| HeaderVerification.EmittedIsConfirmed | backend/agents/verification.py:154-271 | at an https origin whatever the detector reports is confirmed on the same response; elsewhere all but cookie findings |
| HeaderVerification.CookiesAgree | backend/agents/verification.py:240-258 | over https a cookie finding is confirmed if and only if the detector reports a cookie of that name |
| HeaderVerification.HttpDetectorAndRecheckAgreeIff | backend/agents/verification.py:240-258 | for every http response and cookie finding, detector and re-check agree if and only if a concerned cookie with `SameSite=None` without `Secure` as its only flaw comes with a concerned one lacking HttpOnly or SameSite |
| HeaderVerification.UpperCaseDetectorAndRecheckAgreeIff | backend/agents/verification.py:274-275 | for an https URL not in lower case, which only the re-check takes for https, they agree on a cookie finding if and only if a concerned cookie without `Secure` comes with a concerned one flawed over http already |
| HeaderVerification.HttpCookieExample | backend/tools/header_checks.py:851-859 | an http response whose one cookie the detector reports and the re-check refutes |
| VerifyFix.ResolveFinding | backend/core/verify_fix.py:105-113 | the first finding whose identity is the id |
| VerifyFix.FixIsExact | backend/agents/verification.py:473-575 | "fixed" if and only if the target was reached and the condition looked for and not found, "still present" if and only if found; an unreachable target, an attested finding and one with nothing to look for are "changed" |
| VerifyFix.EveryIdResolvesIff | backend/core/verify_fix.py:96-113 | every finding is found by its id if and only if different findings never share one |
| VerifyFix.AssignedIdsResolve | backend/core/verify_fix.py:96-113 | ids scoring assigned lead back to their finding in the sorted list |
| VerifyFix.PlacesResolve | backend/core/verify_fix.py:96-113 | findings without ids are found by their tool and their place in the list |
| VerifyFix.FixedMeansNoLongerReported | backend/core/verify_fix.py:62-93 | on a live https response "fixed" holds if and only if a new analysis would not report the finding (and no wildcard origin remains), "still present" otherwise, "changed" never |
| VerifyFix.HttpFixedMeansNoLongerReportedIff | backend/core/verify_fix.py:62-93 | on a live response over plain http, "fixed" is the same as "not reported by a new analysis" if and only if the cookie condition above holds, the HSTS header would pass over https, and no wildcard origin comes with credentials; "changed" never |
| ScanTargets.NormalizationIsIdempotent | backend/core/ssrf.py:434-455 | for every accepted target, IPv6 with any zone index included, the canonical text normalises to itself |
| ScanTargets.NormalizedShape | backend/core/ssrf.py:218-259 | an accepted target becomes https, a validated host, a non-default port and a slash; which host and port, and that user information goes, is stated by Spellings.EveryUrlNormalizes |
| ScanTargets.OwnUrlNormalizes | backend/core/ssrf.py:247-259 | a validated host with a colon and no written-out port is refused, every other one normalises |
| ScanTargets.EverySpellingNormalizes | backend/core/ssrf.py:434-455 | a good host under either scheme, with any path, query and fragment, normalises to its one target |
| Spellings.EveryUrlNormalizes | backend/core/ssrf.py:434-455 | for every URL with any user information, letter case, port, path, query and fragment, or with no scheme, the target is that host under https, with the port unless it is 80 or 443; an IPv6 literal without such a port is refused |
| Spellings.BadPortsFail | backend/core/ssrf.py:247-249 | port zero is refused, one beyond 65535 is an error |
| Spellings.UnresolvedIsRefused | backend/core/ssrf.py:241-244 | a host that resolves to nothing allowed is refused with the resolver's verdict |
| Spellings.ControlsAndBreaksGo | backend/core/ssrf.py:218-235 | control characters before a URL, and tabs and line breaks inside it, make no difference to the target |
| Spellings.SchemeIsRead | backend/core/ssrf.py:227-235 | what stands before the first colon is read as the scheme, in lower case, if it begins with a letter and goes on with letters, digits, plus and minus signs and dots |
| Spellings.OtherSchemesFail | backend/core/ssrf.py:229-234 | no URL under a scheme other than http and https, in any letter case, is a target |
| Spellings.ValidatedKeepsPathAndQuery | backend/core/ssrf.py:218-259 | a validated URL keeps its path and query as they are; user information, parameters, fragment and the usual ports go |
| Spellings.UserInfoExample | backend/core/ssrf.py:434-455 | an example: any user information before a host of letters is gone from the target |
| ScanTargets.PlainHostExample | backend/core/ssrf.py:434-455 | an environment that meets the assumptions, in which every URL on a lower-case name normalises |
| ScanTargets.LiteralExample | backend/core/ssrf.py:247-259 | another, in which an IPv6 literal with an arbitrary zone index keeps its brackets and port, even next to a bracket in the zone |
| ScanTargets.ResolvingOnlyRefuses | backend/core/ssrf.py:241-244 | DNS can refuse a target but never changes its canonical form |
| ScanTargets.MatchesIffSameNormalForm | backend/app/main.py:1549-1556 | a stored target matches a text if and only if the text normalises to it; it matches the text it came from |
| ScanTargets.MatchesIff | backend/app/main.py:1549-1556 | for any two texts: they match if and only if they have one normal form or are the same refused text; a value error reaches the caller if and only if the first has one, or the first is accepted and the second has one |
| ScanTargets.DedupKeysFollowTargets | backend/app/main.py:671-673 | two accepted requests share a key if and only if clients are equal and the targets match |
| SafeTransport.PickAddress | backend/core/ssrf.py:190-215 | the first usable address, if and only if there is one and no usable entry of the reply is blocked |
| SafeTransport.ReadBody | backend/core/ssrf.py:390-400 | the whole body within the limit, or an error; never a part of it |
| SafeTransport.ResolveAndValidateHost | backend/core/ssrf.py:165-215 | a literal is returned as itself if it is not blocked; a name is looked up once, by that very name, and the first usable address of a clean reply returned; every refusal is due to the host or to that reply |
| SafeTransport.ValidateUrl | backend/core/ssrf.py:218-249 | a URL passes if and only if its parts, its host and, after the lookup for the host, its port do; a bad port costs that lookup |
| SafeTransport.SendPinned | backend/core/ssrf.py:316-362 | validation and pinning each resolve anew, in that order, and the exchange goes to the address of the second lookup, for the host the client connects to; a refusal is due to the URL, its port or one of those replies |
| SafeTransport.HandleAsyncRequest | backend/core/ssrf.py:357-411 | for every resolver and server: at most the redirect limit plus one exchanges, each along the previous redirect and to the unblocked address its own host was pinned to by a lookup made for it; a returned body is all of the last response's and within the cap; every failure has its cause in a rejected URL, the redirect limit or the size |
| AiSynthesis.WalkFindsEveryReference | backend/agents/ai_synthesis.py:80-108 | the recursive walk collects an id if and only if some path in the JSON value leads to a reference to it |
| AiSynthesis.CheckRoadmap | backend/agents/ai_synthesis.py:350-381 | the loop accepts the list if and only if every entry is acceptable, and then gives all of them in order |
| AiSynthesis.StepsAreGrounded | backend/agents/ai_synthesis.py:350-381 | an accepted roadmap has one step per entry, each with a known effort, a reason, and at least one id, all known |
| AiSynthesis.RunAiSynthesis | backend/agents/ai_synthesis.py:568-840 | the outcome, the reported number of calls equal to the calls made, and never more than the budget |
| AiSynthesis.PublishedIff | backend/agents/ai_synthesis.py:735-840 | model text is published if and only if it was due, is well formed, refers at any depth to verified findings only, and is graded as supported or the budget was one |
| AiSynthesis.PublishedIsGrounded | backend/agents/ai_synthesis.py:350-405 | the published top risk and every roadmap step name confirmed or tool-attested findings |
| AiPublication.PublishedIffAttested | backend/agents/ai_synthesis.py:29-155 | told on the data alone: text is published if and only if a model is configured, some confirmed or tool-attested finding is above informational, there is budget, the answer has the form, every id mentioned at any depth is such a finding's or none, and it is graded as supported or the budget was one call |
| AiPublication.PublishedNamesAttested | backend/agents/ai_synthesis.py:80-108 | in a published answer every value under an id key and every element under an id-list key, at any path, is the id of a confirmed or tool-attested finding or says that there is none |
| AiPublication.PublishedProseNamesAttested | backend/agents/ai_synthesis.py:54-76 | and so is every id seen in a text of it |
| AiPublication.PublishedIsWhatWasWritten | backend/agents/ai_synthesis.py:350-406 | the published summary and impact are the trimmed texts under their own keys, the top risk is the value under its key, and each step has the ids, effort and reason of the entry at its place |
| AiPublication.AnswerIsRefusedFor | backend/agents/ai_synthesis.py:747-785 | an answer not published is refused for ids if and only if it mentions another finding, for its form otherwise |
| AiPublication.RunIsCutShortFor | backend/agents/ai_synthesis.py:640-840 | each remaining outcome if and only if its reason holds: no model, nothing worth a summary, no budget, no answer by its kind of error, no support |
| AiPublication.EveryFindingGetsAnId | backend/agents/ai_synthesis.py:134-144 | every finding leaves with an id, its own or its tool and place, and is otherwise unchanged |

## Left out

- Subprocesses, tool wrappers, crawling, HTTP and LLM clients, webhooks, authentication, middleware: oracles or absent.
- Report rendering, branding, plain-language and OWASP tables, configuration snippets, plan tables: no state, only easy claims.
- LangGraph, SQLite and Alembic internals: node steps are sequential and checkpointed, transactions serialized, and writing the failed report succeeds.
- Two approvals racing on one interrupt, cancellation of asyncio tasks, and the recovery of stale scans after a restart.
- The scan's status lookup is an arbitrary answer; that a paused scan's task has ended, and its slot with it, is modelled, what the client then sees is not.
- Changing limits or plans between steps, and negative window lengths: settings are fixed, the window is at least zero where a theorem needs it.
- Foreign keys, the organisations table, site upserts outside a reservation, and updates of a scan's status and counters: no effect on the quotas.
- QuotaLedger.AccountsStore.ReserveScanQuota: a reservation that fails after its commit leaves its row, as in the code; only the admission side of that failure is modelled.
- Rounding and infinities of floating point: scores, confidences and times are reals; the rounding to tenths and hundredths is written out, NaN is not represented.
- Findings with absent keys or null fields beyond those the model names: an empty text or an empty option stands for them.
- Full Unicode in case folding, white space and digits: the string operations are those of ASCII text.
- Header names and combining of repeated headers: the response is given by the headers the detector reads, an absent one being empty, with Set-Cookie as a list.
- The verifier's response cache and URL budget, and the re-checks for other tools: their outcome is a parameter of the verdict.
- Descriptions, CWE numbers and remediation texts of findings: constants next to the modelled type, severity and flags.
- Alternate spellings of IPv4 addresses and the host-name pattern: host-name verdicts are an environment, of which only this is assumed: without a closing bracket, an accepted name has an opening one only inside an IPv6 literal and a colon only with a second; with one, it has a colon or an opening bracket too; and literals are case-insensitive; a value error from `int()` is one of its answers.
- NFKC checks on non-ASCII authorities, and percent-decoding in the destructive-action filter.
- How JSON values are shown as text and which ids prose contains: an arbitrary reader.
- The providers behind one model call: a call is one invocation, whatever it tries inside.
