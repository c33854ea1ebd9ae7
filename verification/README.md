# Verified model of the document gateway

This project models the trusted and untrusted halves of a fail-closed document gateway in Dafny and
proves what its operators rely on. Three layers carry the main results.

**Hostile-input traversal in the worker.** `ArchiveModel`, `ArchiveAnalyzer` and `ArchiveReport` hold the
recursive, budgeted ZIP inspection: one mutable state shared by every nesting level, digest
deduplication, byte and member budgets, bounded name records. Containment is a graph, since a ZIP can
contain itself, and a COMPLETE status is proved to mean that exactly the reachable archives were
inspected, all of them fully readable, with every observation reported exactly when some reachable
archive shows it. `ArchiveBudget` and `ArchiveCauses` are the other direction: what nested archives cost is
counted on the archives alone, every reason for a partial result has its cause in them, and an input that
is readable and within every limit is COMPLETE. `PdfModel` and `PdfWalk` do both for chained actions, the
holders of additional actions and the form-field tree of a PDF, and `PdfFallback` proves the name-escape decoder and token counter (section 7.3.5 of ISO 32000-1).
`NameSecurity` holds the member-name predicates, `YaraScan` the construction of match metadata against
its trusted validator, and `WorkerMain` the routing.

**The policy engine.** `PolicyEngine` is generic over a registry of findings and compound rules;
`PolicyProperties` proves monotonicity, honoured minimums, neutrality and the exact meaning of ALLOW for
every registry that validation accepts, `ShippedPolicy` instantiates the shipped table and proves
totality, and `ShippedDecisions` says by name which findings release, review, quarantine and block. The names are an enumeration whose constructors stand in string order. `WorkerMain.Decide`
composes routing, archive analysis and policy: an ALLOW on a ZIP says that no reachable archive has a
member the policy would not release, and a ZIP within the limits with an unsafe path is blocked.

**The scan, recovery and CDR protocol.** `ScanRecords` is one persisted scan row with every transaction
that writes it; `CdrProtocol` is the interleaved transition system of uploads, CDR requests, recovery,
failures, crashes and outside damage, over the scan, artifact and audit tables and the two file areas.
`CdrSafety` and `CdrRuns` prove the invariant step by step, `CdrHistory` what a step may change, and
`CdrTheorems` and `Downloads` the theorems over whole runs, and `CdrProgress` where undisturbed requests end.

Around these: `Storage` (atomic file commit under any combination of failing system calls), `Capture` and
`Orchestrator` (bounded process output and its interpretation), `RateLimits` (both limiters against the full
logs they forget), and `Sessions` with `SessionHistory` (the session service, and what holds over every
history of logins, uses, logouts, cleanups and operator changes). `Reachability`, `Ordering`, `Sums` and
`Wrappers` are shared helpers.

SHA-256, HMAC, Unicode normalisation and case folding, ZIP parsing, YARA matching and the JSON parser are
parameters; where a proof needs it, the digest is assumed free of collisions, and no more. A member of
an archive that fails to decompress fails at a read of its choice, at the latest at the read at its end.
Times in `RateLimits` and `Sessions` are real numbers of seconds, under a clock that never goes back.

Three places where the code and its promises part are kept as the code has them.

- `validate_policy_registry` accepts REVIEW minimums that the engine never reads:
  `PolicyProperties.ReviewMinimumIgnored` shows one that is not honoured, and
  `ReviewMinimumHonouredExactly` says exactly when one is.
- It also accepts a finding without points, minimum or rule whose name marks incomplete analysis; such a
  finding can turn ALLOW into QUARANTINE (`PolicyProperties.NeutralCodeQuarantines`), exactly under the
  condition of `NeutralCodeExactly`. Both this and the first need a table edited together with its
  fingerprint. The shipped table has neither: `ShippedPolicy.ShippedMinimumsHonoured` and
  `ExplanatoryChangesNothing` prove the promises for it without exception.
- Storing is not all or nothing. A store whose descriptor fails to close leaves its temporary file behind,
  because the cleanup closes the freed descriptor again before it unlinks; a failed sync of the directory
  together with a failed unlink leaves the final file of a call that raised; and a copy whose source fails
  to close is stranded after success. The contracts of `Storage.Disk.StoreUpload` and `StoreCopy` say
  exactly, for every combination of failing calls, what is returned and which of the two names remain.

Verify with `dafny verify dfyconfig.toml`.

## Model

| member | source | states |
|---|---|---|
| `Reachability.ClosedIsClosure` | worker/analyzers/archive.py:116-195 | a closed set of reachable nodes holding the roots is exactly what the roots reach: the partner of every traversal |
| `Ordering.SortUniqueCorrect` | app/policies/engine.py:75-104 | `sorted(set(...))` is ascending and keeps exactly the elements |
| `Ordering.AscendingUnique` | app/policies/models.py:64-67 | an ascending sequence is determined by its elements, so the sorted-unique validator admits one form only |
| `ArchiveModel.ReachableScopeClosed` | worker/analyzers/archive.py:116-195 | what is reachable from the input, and what it shows, is closed under entering nested archives |
| `ArchiveAnalyzer.State.constructor` | worker/analyzers/archive.py:44-80 | a fresh state satisfies the bookkeeping invariant with every counter at zero |
| `ArchiveAnalyzer.ShownName` | worker/analyzers/archive.py:390-405 | a shown name is the start of the represented name, cut at the shorter of two limits, or the 14-character placeholder when nothing of it remains |
| `ArchiveAnalyzer.State.SafeMemberName` | worker/analyzers/archive.py:390-405 | shows that name, and counts a truncation exactly when the represented name is longer than the limit |
| `ArchiveAnalyzer.State.CanRetainName` | worker/analyzers/archive.py:383-387 | a name is retained exactly while the shared budget lasts |
| `ArchiveAnalyzer.State.RetainRecord` | worker/analyzers/archive.py:362-380 | one record is appended exactly while its category and the shared budget have room; the nine lists together keep holding exactly the retained-name count |
| `ArchiveAnalyzer.State.Observe` | worker/analyzers/archive.py:198-272 | an observation adds one to its own counter and to no other |
| `ArchiveAnalyzer.State.InspectName` | worker/analyzers/archive.py:198-272 | each name counter grows by one exactly when this entry, or a colliding earlier one, shows it |
| `ArchiveAnalyzer.State.ObservePlacement` | worker/analyzers/archive.py:206-242 | traversal, rooted and duplicate names are counted, and the collision key is remembered |
| `ArchiveAnalyzer.State.ObserveDeception` | worker/analyzers/archive.py:244-272 | dangerous, double-extension and bidi names are counted |
| `ArchiveAnalyzer.State.NextReadSize` | worker/analyzers/archive.py:302-319 | a read asks for at least one byte, at most one beyond the remaining total, and is shortened only when finishing it would exceed a budget |
| `ArchiveAnalyzer.State.AccountActualBytes` | worker/analyzers/archive.py:322-331 | bytes are charged, and the stop is raised exactly when a member or total limit is passed, with the reason of the first that is |
| `ArchiveAnalyzer.State.AppendNested` | worker/analyzers/archive.py:334-341 | nested bytes are kept and charged, or the stop is raised exactly when they would pass the materialization budget |
| `ArchiveAnalyzer.State.Consume` | worker/analyzers/archive.py:275-299 | a chunk is charged and appended to the nested data, or the read stops with exactly the reason whose limit it would pass |
| `ArchiveAnalyzer.State.ReadMember` | worker/analyzers/archive.py:275-299 | an unstopped read returns exactly the member's bytes as nested data when they are a ZIP; a stopped one overshoots by at most a byte and records a limit that the member or the budget offered passes |
| `ArchiveAnalyzer.State.ReadRest` | worker/analyzers/archive.py:275-299 | the read loop terminates with the whole content or a recorded limit |
| `ArchiveAnalyzer.State.InspectMember` | worker/analyzers/archive.py:152-178 | symlink and encrypted are counted in the loop's order; an opaque member leaves a reason, and every reason added is the member's own or the budget's |
| `ArchiveAnalyzer.State.OpenContainer` | worker/analyzers/archive.py:123-143 | its entries are listed exactly when the container is affordable and has a directory; every reason recorded is one this container or the budget gives |
| `ArchiveAnalyzer.State.Reject` | worker/analyzers/archive.py:127-139 | a malformed container leaves a malformed reason that it gives itself |
| `ArchiveAnalyzer.State.InspectArchive` | worker/analyzers/archive.py:116-195 | the recursion terminates; while nothing is partial, everything entered is finished or on the stack; every reason recorded has its cause in scope; and what may be spent grows only by this archive's own cost and that of the new ones it holds |
| `ArchiveAnalyzer.State.InspectEntries` | worker/analyzers/archive.py:145-195 | after the loop, with nothing partial, every entry was observed and every nested archive's digest seen; the budget grew by no more than the listing and the new archives cost |
| `ArchiveAnalyzer.State.TakeTurns` | worker/analyzers/archive.py:145-195 | the loop stops early only with a reason, otherwise at the entry limit; its standing before each turn is kept |
| `ArchiveAnalyzer.State.TakeTurn` | worker/analyzers/archive.py:145-195 | one turn of the loop: the member budget stops it, only when passed, otherwise one more entry was observed in full |
| `ArchiveAnalyzer.State.VisitEntry` | worker/analyzers/archive.py:150-195 | a member's observations are counted and a nested archive is entered, which keeps the evidence |
| `ArchiveAnalyzer.State.InspectEntry` | worker/analyzers/archive.py:150-178 | each of the nine counters grows by one exactly when this entry has its observation |
| `ArchiveAnalyzer.State.EnterNested` | worker/analyzers/archive.py:179-195 | with nothing partial, the nested archive's digest was seen and its inspection finished or is active |
| `ArchiveAnalyzer.State.AdmitNested` | worker/analyzers/archive.py:179-189 | a nested archive is entered exactly when not too deep and new; otherwise it is partial, because it lies beyond the deepest level, or repeated |
| `ArchiveAnalyzer.State.RefuseNested` | worker/analyzers/archive.py:180-184 | the nesting limit is recorded for an archive one level beyond the deepest allowed |
| `ArchiveBudget.OneMorePriced` | worker/analyzers/archive.py:185-195 | since a digest is entered once, the archives entered cost no more than any set that holds them |
| `ArchiveBudget.StopCaused` | worker/analyzers/archive.py:322-341 | a read of a member stops only for a limit that the member or the budget passes |
| `ArchiveBudget.CausedByMember` | worker/analyzers/archive.py:146-178 | the reasons a member adds are given by the archives in scope |
| `ArchiveCauses.NothingGiven` | worker/analyzers/archive.py:116-195 | within every limit, and with everything readable, there is no reason for a partial result |
| `ArchiveCauses.ResourceGiven` | worker/analyzers/archive.py:123-143 | a resource reason means that a budget, a listing or a member passes its limit |
| `ArchiveCauses.MalformedGiven` | worker/analyzers/archive.py:127-139 | a malformed reason means a container or member in reach that is broken |
| `ArchiveCauses.FlatWithinLimits` | worker/analyzers/archive.py:145-195 | a readable archive without nested ones is within the limits when its entries, its members, the sum of their bytes and its own size are |
| `ArchiveModel.SymlinkMode` | worker/analyzers/archive.py:350-352 | a symlink is the file kind octal 120000 above twelve permission bits, made on Unix |
| `ArchiveReport.Observed` | worker/analyzers/archive.py:471-505 | an observation code is listed exactly when its counter is positive |
| `ArchiveReport.LimitFindings` | worker/analyzers/archive.py:506-540 | each limit finding is listed exactly when its reasons were recorded |
| `ArchiveReport.Truncate` | worker/analyzers/archive.py:423-436 | cutting to the maximum keeps every mandatory finding, invents none, and drops no optional one while there is room |
| `ArchiveReport.Report` | worker/analyzers/archive.py:421-443 | COMPLETE and MALFORMED exactly from the reasons; the findings limit is recorded exactly when there are too many findings; a COMPLETE report was never cut |
| `ArchiveReport.Inspect` | worker/analyzers/archive.py:96-113 | the run over all levels, within a byte overshoot of at most `max_nesting_depth + 1`, and every reason given by the archives in reach or by what they cost together |
| `ArchiveReport.AnalyzeArchive` | worker/analyzers/archive.py:96-113 | a COMPLETE report inspected exactly the archives reachable from the input, all readable, with each observation reported exactly when shown; reported observations are always real; all budgets hold; and an input that is readable and within every limit is COMPLETE, while a nesting, resource or malformed finding means an archive too deep, a limit passed, or something broken |
| `ArchiveReport.Conclude` | worker/analyzers/archive.py:421-540 | from counters and reasons to the meaning of the report |
| `ArchiveReport.EvidenceIsClosure` | worker/analyzers/archive.py:185-195 | despite digest deduplication, the finished archives are the containment closure of the input |
| `ArchiveReport.AllPaid` | worker/analyzers/archive.py:116-195 | what a run may spend is no more than the input and each archive below it, once, cost |
| `ArchiveReport.ReasonsConclude` | worker/analyzers/archive.py:421-443 | from the reasons of a run to what its limit findings mean |
| `ArchiveReport.FindingsSound` | worker/analyzers/archive.py:471-505 | every reported observation is shown by some reachable archive |
| `ArchiveReport.FindingsComplete` | worker/analyzers/archive.py:471-505 | every observation some reachable archive shows is reported |
| `NameSecurity.SplitRoundTrip` | worker/analyzers/archive.py:355-359 | splitting a path and joining it loses nothing, and no piece holds the separator |
| `NameSecurity.SplitUnique` | worker/analyzers/name_security.py:55-57 | the pieces of a path are determined by it |
| `NameSecurity.TraversalMeaning` | worker/analyzers/archive.py:205-207 | a name traverses exactly when two dots stand alone in it, between slashes of either kind or an end |
| `WorkerMain.AnalyzeSample` | worker/main.py:98-146 | SUCCESS exactly when the type is supported and every analyzer that ran was complete, an archive within the limits among them; the name, PDF, Office, archive and YARA findings of what ran are never lost |
| `WorkerMain.Decide` | worker/main.py:80-194 | end to end: ALLOW on a ZIP means every reachable archive is readable and free of all eight observations; ALLOW on anything means harmless findings only, none of YARA, and a type that may be released; BLOCK exactly for a blocking finding, and always for a ZIP within the limits with an unsafe path or symlink |
| `WorkerMain.AllowedArchiveIsClean` | app/policies/engine.py:104-132 | findings that permit ALLOW exclude every archive observation |
| `WorkerMain.PartialNeverReleased` | worker/analyzers/archive.py:421-443 | a cut or otherwise partial report is always QUARANTINE or BLOCK |
| `WorkerMain.CleanFacts` | worker/analyzers/archive.py:198-272 | a clean archive in terms of the facts of any two of its names |
| `WorkerMain.CleanNames` | worker/analyzers/name_security.py:55-77 | a clean archive in terms of the analyzer's own name predicates |
| `PolicyEngine.RiskBandForScore` | app/policies/engine.py:55-64 | the band boundaries 20, 40 and 70, each in both directions |
| `PolicyEngine.TriggeredCorrect` | app/policies/engine.py:88-91 | exactly the compounds whose required codes are all present fire |
| `PolicyEngine.TotalOfSort` | app/policies/engine.py:92-101 | sorting the contributions never changes the score |
| `PolicyProperties.AssessMeaning` | app/policies/engine.py:67-153 | score, completeness, hard blocks and decision in terms of the code set |
| `PolicyProperties.AssessNames` | app/policies/engine.py:86-153 | the band, and the hard blocks, mandatory reasons, compound rules and decision reasons as sets of names |
| `PolicyProperties.CompletenessMeaning` | app/policies/engine.py:175-206 | the analysis is complete exactly under these conditions |
| `PolicyProperties.OutcomeDependsOnCodeSet` | app/policies/engine.py:75-132 | order and repetition of findings never matter |
| `PolicyProperties.AddingFindingsNeverLowers` | app/policies/engine.py:75-132 | more findings never lower score or decision |
| `PolicyProperties.MinimumsHonoured` | app/policies/engine.py:104-132 | every triggered QUARANTINE or BLOCK minimum is honoured |
| `PolicyProperties.ReviewMinimumHonouredExactly` | app/policies/engine.py:104-132 | when a triggered REVIEW minimum is honoured, as an if-and-only-if |
| `PolicyProperties.ReviewMinimumIgnored` | app/policies/registry.py:341-369 | a table, edited together with its fingerprint, whose REVIEW minimum is ignored |
| `PolicyProperties.NeutralCodeExactly` | app/policies/engine.py:75-132 | a code without points, minimum or compound never changes the score; it changes the decision exactly when it marks incompleteness in an otherwise complete analysis that nothing else blocks or quarantines |
| `PolicyProperties.NeutralCodeQuarantines` | app/policies/engine.py:175-206 | a table with such a code, which turns ALLOW into QUARANTINE |
| `PolicyProperties.AllowExactly` | app/policies/engine.py:104-153 | ALLOW, completely characterised |
| `PolicyProperties.IncompleteNeverReleased` | app/policies/models.py:70-77 | an incomplete analysis is never released; ALLOW carries no hard block or mandatory reason |
| `PolicyProperties.FailClosedIsValid` | app/policies/engine.py:156-172 | the fail-closed evaluation passes every validator and quarantines |
| `ShippedPolicy.ShippedValid` | app/policies/registry.py:341-369 | the shipped table passes its own validation |
| `ShippedPolicy.ShippedMinimumsHonoured` | app/policies/engine.py:104-132 | with the shipped table every triggered minimum is honoured, without exception |
| `ShippedPolicy.ExplanatoryIsNeutral` | app/policies/registry.py:88-118 | the two explanatory findings carry no points, minimum, rule or mark of incompleteness |
| `ShippedPolicy.ExplanatoryChangesNothing` | app/policies/registry.py:88-118 | adding PDF_EXTERNAL_SUBMISSION or PDF_FALLBACK_INDICATOR never changes score, decision, release or completeness |
| `ShippedPolicy.ShippedOrdered` | app/policies/registry.py:306-338 | the enumeration of names is totally ordered, as the string sort requires |
| `ShippedPolicy.ShippedTotal` | app/policies/engine.py:67-153 | an evaluation passing every validator exists exactly when all findings are registered |
| `ShippedPolicy.ShippedAssessmentValid` | app/policies/models.py:36-77 | the tuples never exceed their lengths and are sorted and unique |
| `ShippedPolicy.ShippedAllow` | app/policies/engine.py:104-153 | ALLOW implies score below 20, SUCCESS, a supported type, no failure, a valid state, and findings without minimum that contribute less than 20 points |
| `ShippedPolicy.PointsAtLeast` | app/policies/engine.py:80-101 | a single finding already contributes its points to the score |
| `ShippedDecisions.HarmlessPolicy` | app/policies/registry.py:51-255 | by name, the findings without a minimum that contribute less than 20 points |
| `ShippedDecisions.SuspiciousPolicy` | app/policies/registry.py:51-255 | by name, the findings without a minimum that contribute from 20 to 39 points |
| `ShippedDecisions.QuarantiningPolicy` | app/policies/registry.py:51-255 | by name, the findings that ask for QUARANTINE |
| `ShippedDecisions.BlockingPolicy` | app/policies/registry.py:51-255 | by name, the six hard blocks |
| `ShippedDecisions.FindingKinds` | app/policies/registry.py:51-255 | every registered finding is harmless, suspicious, quarantining or blocking |
| `ShippedDecisions.RulesNamedTogether` | app/policies/registry.py:258-300 | by name, the five combinations of findings that fire a rule |
| `ShippedDecisions.BlocksExactly` | app/policies/engine.py:104-132 | BLOCK exactly when one of the six named findings is there |
| `ShippedDecisions.QuarantinesAtLeast` | app/policies/engine.py:104-132 | each named quarantine finding, and each named combination, gives at least QUARANTINE |
| `ShippedDecisions.ReviewsAtLeast` | app/policies/engine.py:104-132 | each named suspicious finding gives at least REVIEW |
| `ShippedDecisions.TwoQuarantine` | app/policies/engine.py:92-132 | two different suspicious findings give at least QUARANTINE |
| `ShippedDecisions.AllowsHarmlessOnly` | app/policies/engine.py:104-132 | ALLOW holds only the thirteen named harmless findings |
| `ShippedDecisions.HarmlessAllowedExactly` | app/policies/engine.py:104-132 | which harmless findings together are allowed, by their points |
| `Orchestrator.AcceptedMeansClean` | app/orchestrator/service.py:64-117 | a result is accepted exactly from a clean exit with untruncated, parseable output, unchanged |
| `Orchestrator.FailureCauses` | app/orchestrator/service.py:64-117 | each failure code exactly for its own cause, the earlier ones hiding the later |
| `Capture.Pipe.constructor` | app/orchestrator/isolation.py:615-626 | an empty buffer over an unread stream |
| `Capture.Pipe.Consume` | app/orchestrator/isolation.py:637-648 | the buffer stays the stream's prefix within the limit, and a dropped byte is flagged |
| `Capture.Handle` | app/orchestrator/isolation.py:634-649 | one round of events: the flag is set exactly when a read byte was dropped |
| `Capture.Collect` | app/orchestrator/isolation.py:628-654 | under every schedule: limit flag exactly on a dropped byte, timeout exactly on an expired round, and no flag means both whole streams |
| `Capture.Execute` | app/orchestrator/isolation.py:581-670 | a run whose streams end is judged by the deadline, both streams, the limits and the exit code alone: a result exactly when in time, within the limits, with exit code 0 and parseable output, parsed from every byte of standard output; each failure code exactly for its cause |
| `ScanRecords.ScanRecord.constructor` | app/orchestrator/scan_service.py:54-81 | a registered row is unjudged and quarantined by default |
| `ScanRecords.ScanRecord.MarkAnalyzing` | app/orchestrator/scan_service.py:207-217 | the start of analysis changes state and worker status only |
| `ScanRecords.ScanRecord.QuarantineStale` | app/operations/reconciliation.py:180-205 | recovery acts exactly on a stale row still being analyzed |
| `ScanRecords.ScanRecord.RecordReport` | app/orchestrator/scan_service.py:101-144 | what the worker reported, before policy |
| `ScanRecords.ScanRecord.RecordEvaluation` | app/orchestrator/scan_service.py:166-174 | the policy columns are copied from the evaluation, and QUARANTINE or BLOCK forces the state |
| `ScanRecords.ScanRecord.RecordOutcome` | app/orchestrator/scan_service.py:97-174 | the assignments in order produce the finished row, whose columns are its evaluation's |
| `ScanRecords.FinishedInSteps` | app/orchestrator/scan_service.py:97-174 | COMPLETED survives the assignments only for ALLOW and REVIEW |
| `ScanRecords.IncompleteIsHeld` | app/policies/engine.py:204-205 | an outcome for a row that is not ANALYZING or COMPLETED is never released |
| `ScanRecords.FinishedRowJudged` | app/orchestrator/scan_service.py:97-174 | recording any outcome leaves a judged row with the worker's status, type and findings, and a recovered row stays recovered |
| `ScanRecords.NeverRejected` | app/api/scans.py:270-298 | the API accepts every row the system writes |
| `CdrSafety.DeployedFinishSound` | app/orchestrator/scan_service.py:97-174 | the deployed row writer meets what the protocol needs of it |
| `CdrSafety.EligibleExactly` | app/cdr/service.py:113-138 | a row is eligible exactly when it is remediable, in row fields, with a valid evaluation, a page count within range and an intact file |
| `CdrSafety.CopiedIsCandidate` | app/cdr/service.py:306-320 | a copy with the expected digest is the candidate, so the later hash and size check never fails |
| `CdrSafety.NewArtifactValid` | app/cdr/service.py:322-334 | the artifact built from an approved candidate has valid lineage |
| `CdrSafety.RegisterKeeps` | app/orchestrator/scan_service.py:54-87 | registration keeps the invariant |
| `CdrSafety.BeginKeeps` | app/orchestrator/scan_service.py:207-217 | the start of analysis keeps the invariant, whatever recovery did before |
| `CdrSafety.FinishKeeps` | app/orchestrator/scan_service.py:97-174 | a late or timely outcome keeps the invariant |
| `CdrSafety.RecoverKeeps` | app/operations/reconciliation.py:180-205 | recovery keeps the invariant, with the worker's request still under way |
| `CdrSafety.StoreDerivedKeeps` | app/cdr/service.py:227-233 | storing the candidate in quarantine keeps the invariant |
| `CdrSafety.RenderKeeps` | app/cdr/service.py:193-215 | rendering within the output limit keeps the invariant |
| `CdrSafety.ReadDerivedKeeps` | app/cdr/service.py:259-277 | the approval check on the derived row keeps the invariant |
| `CdrSafety.PromoteKeeps` | app/cdr/service.py:305-320 | promotion keeps the invariant: the new file is held by its request |
| `CdrSafety.ApproveKeeps` | app/cdr/service.py:335-377 | inserting row and audit event together, or losing the race, keeps the invariant |
| `CdrSafety.FailKeeps` | app/cdr/service.py:243-289 | every failure path keeps the invariant |
| `CdrSafety.CrashKeeps` | app/cdr/service.py:158-377 | a crash between any two steps keeps the invariant |
| `CdrHistory.RowsWritten` | app/orchestrator/scan_service.py:54-217 | only registration, start, outcome and recovery write rows, one each, and nothing recorded is taken back; which steps strand a file |
| `CdrHistory.RunAccumulates` | app/models/database.py:129-135 | recoveries, artifact rows and approved answers are never taken back in any continuation |
| `CdrRuns.StepKeeps` | app/cdr/service.py:158-377 | every step of the transition system keeps the invariant |
| `CdrRuns.RunInv` | app/cdr/service.py:158-377 | the invariant holds after every run |
| `CdrTheorems.RecoveryIsFinal` | app/operations/reconciliation.py:180-205 | once recovered, a scan is quarantined, unreleased and never CDR-eligible in every later state, even if its worker then reports SUCCESS |
| `CdrTheorems.RecoveredIneligible` | app/cdr/service.py:113-131 | a recovered row always fails the completeness requirement |
| `CdrTheorems.JudgedIsFinal` | app/orchestrator/scan_service.py:97-174 | a row with a recorded evaluation is never written again |
| `CdrTheorems.LineageHolds` | app/artifacts/service.py:151-181 | in every run every artifact row passes the download-time lineage check |
| `CdrTheorems.SourceUntouched` | app/cdr/service.py:158-377 | no step of a CDR request writes its source row |
| `CdrTheorems.RequestsAreRemediable` | app/cdr/service.py:158-195 | over runs: every request past its eligibility check has a remediable source whose row is final |
| `CdrTheorems.ArtifactsAreRemediable` | app/cdr/service.py:113-138 | over runs: every artifact has such a source, in every continuation |
| `CdrTheorems.AnswersAreRemediable` | app/cdr/service.py:158-175 | over runs: so has every approved answer |
| `CdrTheorems.EligibilityDecides` | app/cdr/service.py:113-166 | the check accepts exactly a remediable source with a page count in range and an intact file, and ends the request otherwise |
| `CdrTheorems.PersistedAgreement` | app/api/scans.py:270-298 | in every run each row is unjudged and held, or its six columns are its evaluation's, released exactly for ALLOW, COMPLETED exactly for ALLOW or REVIEW |
| `CdrTheorems.OneRowOneEvent` | app/cdr/service.py:335-352 | artifact rows and CDR_APPROVED events are one-to-one, with at most one row for a source and sanitizer |
| `CdrTheorems.RowsHaveFiles` | app/cdr/service.py:306-377 | every artifact row's file is in the sanitized area in every run |
| `CdrTheorems.OrderlyExactly` | app/cdr/service.py:306-377 | the history flag of the store invariant holds exactly when no step of the run strands a sanitized file: a crash or failed unlink of a request that holds a file, or a copy that fails after its rename and is not cleaned up |
| `CdrTheorems.StoreAgreesWithDatabase` | app/cdr/service.py:306-377 | with nothing in flight and no step of the run having stranded a file, the sanitized keys are exactly the rows' keys |
| `CdrTheorems.AnswersAgree` | app/cdr/service.py:166-174 | all approved answers ever given for a source and sanitizer name the same lasting row |
| `CdrProgress.CleanIsApprovable` | app/cdr/service.py:432-453 | a candidate that policy allows has a row that may be approved |
| `CdrProgress.CleanRequestIsApproved` | app/cdr/service.py:158-377 | after any run, an undisturbed request of a remediable source ends in exactly one more artifact, file, audit event and answer, and nothing else changes |
| `CdrProgress.LaterRequestReuses` | app/cdr/service.py:165-174 | a later request for the same pair is answered with the artifact that is there, and nothing else changes |
| `CdrProgress.CleanUploadIsJudged` | app/orchestrator/scan_service.py:97-174 | after any run, an undisturbed upload leaves its file and the row its outcome judges, and nothing else changes |
| `Downloads.OpenVerified` | app/artifacts/service.py:184-220 | the descriptor is handed out exactly when metadata, size, digest and file identity all agree |
| `Downloads.OnlyApprovedBytesServed` | app/artifacts/service.py:73-127 | what is served has the digest and size of a derived scan that policy allowed; only damage or a failing audit refuses |
| `Downloads.ServedBytesNeverChange` | app/artifacts/service.py:73-127 | the bytes served for an artifact are the same in every later state |
| `PdfWalk.InspectionState.constructor` | worker/analyzers/pdf.py:89-137 | a fresh state satisfies the invariants |
| `PdfWalk.InspectionState.Visit` | worker/analyzers/pdf.py:471-488 | visiting adds one to exactly the counters of the action's type, within the node and name limits |
| `PdfWalk.InspectionState.CountType` | worker/analyzers/pdf.py:478-488 | the per-type counters and the URI limit |
| `PdfWalk.InspectionState.RecordUri` | worker/analyzers/pdf.py:529-539 | the URI metadata list stays within its limit, and the limit reason is recorded |
| `PdfWalk.InspectionState.WalkAction` | worker/analyzers/pdf.py:454-494 | terminates on cyclic graphs; with no limit reason every target is visited and every visited action off the stack has its successors visited; a limit is recorded only for a chain as deep as allowed with more behind it, or at the full number of nodes with more actions in the document |
| `PdfWalk.InspectionState.WalkItems` | worker/analyzers/pdf.py:458-461 | array items are walked at the array's depth |
| `PdfWalk.InspectionState.WalkReference` | worker/analyzers/pdf.py:465-494 | one action and what follows it |
| `PdfWalk.InspectionState.WalkNext` | worker/analyzers/pdf.py:492-494 | what follows an action is walked one level deeper |
| `PdfModel.DepthRecorded` | worker/analyzers/pdf.py:455-457 | the depth limit is recorded only under an action reached in that many steps that has more behind it |
| `PdfModel.NodesRecorded` | worker/analyzers/pdf.py:468-470 | the node limit is recorded only before one more action than allowed |
| `PdfWalk.InspectionState.NameFits` | worker/analyzers/pdf.py:497-507 | a new unknown type name stays within the cap |
| `PdfWalk.InspectionState.CoveredIsClosure` | worker/analyzers/pdf.py:454-494 | without a limit reason the visited set is exactly the closure of the walked roots under /Next |
| `PdfWalk.InspectionState.RecordTrigger` | worker/analyzers/pdf.py:446-450 | trigger names are kept up to their cap |
| `PdfWalk.InspectionState.InspectAdditionalActions` | worker/analyzers/pdf.py:433-451 | each holder once; without the trigger limit all its additional actions are walked |
| `PdfWalk.InspectionState.InspectActionHolder` | worker/analyzers/pdf.py:426-430 | a holder's own and additional actions |
| `PdfWalk.InspectionState.ConsumeCustomObject` | worker/analyzers/pdf.py:142-147 | the object budget is charged, or its limit recorded; with something left to look at the limit was passed |
| `PdfWalk.InspectionState.InspectFormFields` | worker/analyzers/pdf.py:349-369 | terminates; without depth or budget reason the field count is the number of distinct fields reachable through /Kids; what was walked is what the counted fields hold, and what was looked at is no more than the values they list |
| `PdfWalk.InspectionState.NextField` | worker/analyzers/pdf.py:352-369 | one turn of the worklist: budget spent, or the stack shorter |
| `PdfWalk.InspectionState.InspectField` | worker/analyzers/pdf.py:359-369 | a new field is counted once and its children queued |
| `PdfWalk.InspectionState.DropField` | worker/analyzers/pdf.py:354-356 | a value too deep is dropped, and the fields above it are nested too deeply |
| `PdfWalk.InspectionState.TakeField` | worker/analyzers/pdf.py:357-369 | a value within depth is looked at while the object budget lasts |
| `PdfModel.SearchTooDeep` | worker/analyzers/pdf.py:353-356 | a stack entry stands at the depth it says, below fields that have children |
| `PdfModel.SearchExpands` | worker/analyzers/pdf.py:361-369 | a new field is visited and its children are queued: the search stays on course |
| `PdfWalk.InspectionState.InspectObject` | worker/analyzers/pdf.py:409-416 | an indirect object's held and additional actions are walked, and itself when it is an action, and nothing else |
| `PdfWalk.InspectionState.Enter` | worker/analyzers/pdf.py:471-475 | visited set, node count, type tally and unknown-name cap stay in agreement |
| `PdfWalk.InspectionState.InspectCatalog` | worker/analyzers/pdf.py:302-327 | the open action, the additional actions of catalog and form, and what the form fields hold are walked, and nothing else; the field count is the number of these fields; a missing catalog is recorded |
| `PdfWalk.InspectionState.InspectForm` | worker/analyzers/pdf.py:320-327 | the form's additional actions, its fields, and their count |
| `PdfWalk.InspectionState.InspectOpenAction` | worker/analyzers/pdf.py:307-315 | the open action is walked exactly when it is an action and no array or destination |
| `PdfWalk.InspectionState.InspectPages` | worker/analyzers/pdf.py:330-346 | what pages and their annotations hold is walked, all of it unless the object budget or trigger limit was recorded, and nothing else |
| `PdfWalk.InspectionState.InspectAnnotations` | worker/analyzers/pdf.py:339-344 | the same for the annotations of one page |
| `PdfWalk.InspectionState.InspectDocument` | worker/analyzers/pdf.py:284-299 | what is walked is exactly what catalog, form, fields, pages, annotations and indirect objects hold, less what the trigger limit or object budget cut; without an action limit the visited actions are the closure of that; with no partial reason they are all the document's actions, counted by type; the field count is that of the reachable fields; and every reason recorded from a fresh state is given by the document: a limit it passes, or the catalog it lacks |
| `PdfWalk.InspectionState.ReasonsGiven` | worker/analyzers/pdf.py:284-299 | after a traversal from a fresh state the document gives every reason recorded |
| `PdfModel.WalkReasonsGiven` | worker/analyzers/pdf.py:433-494 | the URI, node, depth and trigger limits were passed by the document as a whole |
| `PdfWalk.InspectionState.ReadyMeaning` | worker/analyzers/pdf.py:454-507 | from the invariants to closure and exact counters |
| `PdfFallback.DecodeSplitsAtSlash` | worker/analyzers/pdf_fallback.py:80-86 | a literal slash is never part of an escape |
| `PdfFallback.HexRoundTrip` | worker/analyzers/pdf_fallback.py:80-86 | reading a hex digit inverts writing it, in either case, and only digits are read |
| `PdfFallback.EscapeRoundTrip` | worker/analyzers/pdf_fallback.py:80-86 | every byte written as an escape means itself |
| `PdfFallback.DecodeEncoded` | worker/analyzers/pdf_fallback.py:80-86 | every mix of literal and `#XX` spelling decodes to what it spells |
| `PdfFallback.DecodeRecoversName` | worker/analyzers/pdf_fallback.py:80-86 | the round trip in any context: prefix, slash, spelled token, suffix |
| `PdfFallback.CountsEveryOccurrence` | worker/analyzers/pdf_fallback.py:104-112 | the greedy non-overlapping count is the number of occurrence positions |
| `PdfFallback.ScanForIndicators` | worker/analyzers/pdf_fallback.py:89-113 | a token is reported exactly when it occurs in the decoded window, with its capped true count |
| `PdfFallback.SpelledTokenIsHit` | worker/analyzers/pdf_fallback.py:89-113 | however a token is spelled, if it lies in the window it is reported |
| `YaraScan.Describe` | worker/yara_engine.py:214-244 | a match's loop collects the first offsets and all reasons for loss |
| `YaraScan.Report` | worker/yara_engine.py:209-255 | the result loop: the findings are those of the longest run of matches that fits, and the reasons exactly what was lost in it |
| `YaraScan.Conclude` | worker/yara_engine.py:260-293 | a partial finding always passes its trusted validator |
| `YaraScan.ScanTopLevelFile` | worker/yara_engine.py:164-257 | emitted metadata passes the validators; the findings are those of as many matches, in rule order, as fit, and the reasons name exactly what was lost; COMPLETE exactly when nothing was dropped, with one full finding for each match |
| `YaraScan.ReportedIsValid` | app/models/domain.py:220-280 | the metadata of any well-formed match passes the match validator |
| `YaraScan.LosslessIsFull` | worker/yara_engine.py:214-244 | without a loss reason a match is reported in full |
| `YaraScan.ListedValid` | app/models/domain.py:283-312 | any non-empty set of reasons, sorted, passes the partial validator |
| `YaraScan.NothingDropped` | worker/yara_engine.py:201-257 | no reason at all is the same as nothing left out, and then everything is reported in full |
| `YaraScan.NothingShort` | worker/yara_engine.py:209-255 | nothing was lost in the longest fitting run exactly when all fits without loss |
| `Storage.Disk.WriteAll` | app/storage/ingestion.py:225-231 | short writes are continued until all bytes are written or one fails, and what is written is a prefix |
| `Storage.StopsExactly` | app/storage/ingestion.py:178-191 | a body is received exactly when it is empty or fits and every write succeeds; too large is reported only for one that does not fit |
| `Storage.WholeExactly` | app/storage/ingestion.py:178-191 | what it takes for an upload to be written whole |
| `Storage.CopiedWholeExactly` | app/storage/ingestion.py:97-112 | what it takes for a copy to be written whole |
| `Storage.LeftCleaned` | app/storage/ingestion.py:207-215 | from what the protected part left and what the cleanup removed to what remains under both names |
| `Storage.Disk.ReceiveChunk` | app/storage/ingestion.py:181-189 | one received chunk in pieces of at most 64 KiB, each counted before it is written |
| `Storage.Disk.Receive` | app/storage/ingestion.py:178-189 | the body is written exactly, or a prefix of it and the precise reason is returned |
| `Storage.Disk.Commit` | app/storage/ingestion.py:193-199 | sync, close, chmod, rename, sync: where it stops, and exactly what is on disk then |
| `Storage.Disk.CleanUp` | app/storage/ingestion.py:210-215 | which of the two names it removes, and exactly when it succeeds |
| `Storage.Disk.TryUpload` | app/storage/ingestion.py:168-209 | the outcome of the protected part and what it leaves for the cleanup |
| `Storage.Disk.StoreUpload` | app/storage/ingestion.py:157-215 | for every combination of failing calls: the result, whether a temporary file remains and with what, whether a raised call leaves the final file, each as an if-and-only-if; never an incomplete final file at any moment |
| `Storage.Disk.CopyChunk` | app/storage/ingestion.py:100-110 | one chunk read, counted and written |
| `Storage.Disk.Copy` | app/storage/ingestion.py:100-110 | the source is copied exactly when every read and write succeeds and it fits |
| `Storage.Disk.TryCopy` | app/storage/ingestion.py:91-123 | the outcome of the protected part of a copy and what it leaves |
| `Storage.Disk.StoreCopy` | app/storage/ingestion.py:74-131 | like an upload, kept only under the expected digest; the same if-and-only-if statements, with the source's close, whose failure skips the cleanup and strands the finished file |
| `Storage.HashDescriptor` | app/storage/ingestion.py:242-253 | the digest of the whole file unless too long or unreadable |
| `Storage.FinalizeOutput` | app/storage/ingestion.py:58-71 | the renderer's output becomes read-only and verifiable under the returned digest and size |
| `Storage.VerifyPrivate` | app/storage/ingestion.py:141-154 | accepts exactly a read-only file of the expected digest and size within the maximum, or empty when that is expected |
| `RateLimits.AbuseRateLimiter.constructor` | app/core/abuse.py:13-15 | a limiter without buckets |
| `RateLimits.AbuseRateLimiter.Consume` | app/core/abuse.py:17-32 | granted exactly when the key has or gets a bucket and the full log holds fewer than the limit within the window |
| `RateLimits.ServeBucket` | app/core/abuse.py:27-32 | the decision on the pruned deque is the decision on the full log |
| `RateLimits.NeverOverLimit` | app/core/abuse.py:17-32 | no window of a key's length ever holds more grants than its limit |
| `RateLimits.RecentOfKept` | app/core/abuse.py:27-28 | pruning what was kept equals pruning the full log |
| `RateLimits.CountIsRecent` | app/auth/rate_limit.py:47-50 | counting recent moments is counting what pruning would leave |
| `RateLimits.LoginRateLimiter.Prune` | app/auth/rate_limit.py:52-59 | afterwards the deques are exactly the failures of the last hour |
| `RateLimits.LoginRateLimiter.Check` | app/auth/rate_limit.py:26-32 | allowed exactly when the full logs of both keys admit another attempt |
| `RateLimits.LoginRateLimiter.RecordFailure` | app/auth/rate_limit.py:34-41 | a failure is recorded under each key that is tracked or has room |
| `RateLimits.LoginRateLimiter.ClearUsername` | app/auth/rate_limit.py:43-45 | the username's failures are forgotten, the source's are not |
| `Sessions.SessionService.constructor` | app/auth/service.py:53-65 | a service without sessions |
| `Sessions.SessionService.Revoke` | app/auth/service.py:218-221 | a stored session ends for good |
| `Sessions.SessionService.Login` | app/auth/service.py:129-163 | a session for an active operator under a fresh token; the previous session ends; no other row changes |
| `Sessions.SessionService.Authenticate` | app/auth/service.py:187-234 | accepted exactly while unrevoked, unexpired, recently used and the user an active operator; an accepted row changes only its last use, a refused one only its revocation, and no other row changes |
| `Sessions.SessionService.Touch` | app/auth/service.py:222-225 | the last use is written down within a refresh interval |
| `Sessions.SessionService.Logout` | app/auth/service.py:236-261 | the logged-out session has ended, and no other row changes |
| `Sessions.SessionService.CleanupSessions` | app/auth/service.py:263-284 | deletes only expired or revoked sessions, up to the limit, and changes no other |
| `SessionHistory.StaysAccepted` | app/auth/service.py:187-234 | over any history: if every use comes within the inactivity lifetime less the refresh interval after the last, and nobody ends the session or takes its user's rights, every use before the absolute expiry is accepted, whatever other sessions do |
| `SessionHistory.TooOldRefused` | app/auth/service.py:199-215 | over any history: a use at or after the absolute expiry, or an inactivity lifetime after the last use, is refused |
| `SessionHistory.EndedForever` | app/auth/service.py:187-261 | over any history: once refused, logged out or replaced, a session is never accepted again |
| `SessionHistory.NoRightsRefused` | app/auth/service.py:205-222 | over any history: from the moment a user's rights are taken until they are given back every use of that user's sessions is refused, and a session refused so is never accepted again |

## Left out

- FastAPI routes, templates, cookies, host and origin checks, logging, scripts and schema migrations: plumbing.
- libmagic, pikepdf, PyMuPDF, oletools, YARA and `zipfile` internals, and the PDF, Office and YARA analyzers' effect on `WorkerMain`, which sees their findings and completeness only.
- Bubblewrap and systemd command building, the sandbox self-test and production qualification: operating-system facts.
- The fingerprint of the policy registry, explanations, titles, timestamps and MITRE strings: carried unchanged, never read by a decision.
- JSON encoding of stored evaluations and worker results: the round trip is taken as the identity, and byte limits on metadata are kept for YARA only.
- Reconciliation's report of orphans, temporary files and other issues: it changes no scan row apart from the stale-scan step that is modelled; the staleness clock is abstracted, so recovery may take any row still being analyzed.
- The order of writes inside one transaction is kept for the scan row (`ScanRecords`) and the file store (`Storage`); in `CdrProtocol` each transaction is one atomic step on values, with the process lock left out so that any two requests may interleave.
- Audit rows other than CDR_APPROVED and recoveries: they gate progress only through failure steps.
- Page counts and the source file's integrity at the eligibility check enter `CdrProtocol` as step parameters; SOURCE_STORAGE_INVALID coincides with a failed integrity check there.
- "Every scan row has its quarantine file" is not claimed: a failed registration removes the derived file even when its row was committed, and the model's failure step does the same.
- ArchiveReport.AnalyzeArchive: the numbers of retained records and truncated names in the metadata are bounded but not otherwise specified, because only the budget is promised of them; the inputs are ZIPs whose size could be read.
- WorkerMain.AnalyzeSample: the analyzer metadata dictionary and worker exit codes are not modelled.
- PdfWalk.InspectionState.WalkAction: indirect objects only, since a direct object is keyed by its address; arrays nest finitely, since the depth limit does not count them; JavaScript text, submit-form targets and attachments are not modelled.
- PdfWalk.InspectionState.InspectDocument: the JavaScript name tree, file attachments and parser exceptions are not modelled; the fields of the source's inspection state are grouped into one record for the action search and one for the holders of additional actions.
- Capture.Collect: a finite schedule; a run that has not finished within it is reported as unfinished, so the loop's own termination, which rests on the killed process closing its pipes, is not claimed.
- YaraScan.ScanTopLevelFile: rule titles, versions and hashes, which both sides copy from the same registry, are not compared.
- Storage.Disk.StoreUpload: names are fresh, as random keys are; power loss and the durability that fsync buys are not modelled.
- Sessions.SessionService.Login: password verification and hashing come before the modelled part; the deletion order of the cleanup is not modelled.
- RateLimits.AbuseRateLimiter.Consume: limit and window are fixed for each key, as the callers have them; the clock is read before the lock is taken (app/core/abuse.py:18), so two threads could take the lock against the order of their clock readings, which the model's clock excludes; the deployed callers are all `async` routes on one event loop, where calls run in the order of their readings.
- RateLimits.LoginRateLimiter.Check: likewise reads the clock before the lock (app/auth/rate_limit.py:27), and is called from `async` routes only.
- RateLimits.LoginRateLimiter.RecordFailure: likewise (app/auth/rate_limit.py:35).
- ShippedPolicy.ShippedValid: the version's format, the length of explanations and the fingerprint comparison of app/policies/registry.py:341-369 are not compared, since no decision reads them.
- PolicyProperties.ReviewMinimumIgnored: the table of the example would need its own fingerprint, which the model does not compare.
- The rendering worker, the OOXML, OLE and VBA analyzers and the evaluation corpus: their budget loops repeat the archive argument in an easier form.
