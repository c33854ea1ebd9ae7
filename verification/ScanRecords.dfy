/**
 One persisted scan row and every transaction that writes it: registration, the start and
 end of analysis (app/orchestrator/scan_service.py) and stale-scan recovery
 (app/operations/reconciliation.py).
 */
module ScanRecords {
  import opened Wrappers
  import opened PolicyEngine
  import opened PolicyProperties
  import opened ShippedPolicy
  import Orchestrator

  type ScanId = nat
  type StorageKey = nat
  type Digest = int
  type Outcome = Orchestrator.Outcome<Code>

  datatype Origin = UPLOAD | CDR_DERIVED

  datatype WorkerStatus = PENDING | RUNNING | Reported(status: AnalysisStatus)

  datatype ErrorCode =
    | Failure(code: FailureCode) | UnknownFailure | StatusName(status: AnalysisStatus)
    | PolicyEvaluationFailed | RecoveryStaleAnalysis

  /** The columns of a scan row that the lifecycle, policy and CDR code read or write. */
  datatype ScanRow = ScanRow(
    origin: Origin,
    parent: Option<ScanId>,
    storageKey: StorageKey,
    sha256: Digest,
    size: nat,
    state: ScanState,
    workerStatus: WorkerStatus,
    errorCode: Option<ErrorCode>,
    detectedType: Option<string>,
    findings: seq<Code>,
    decision: Decision,
    riskScore: Option<int>,
    severity: Option<RiskBand>,
    policyVersion: Option<string>,
    policyFingerprint: Option<string>,
    releaseEligible: bool,
    evaluation: Option<Evaluation<Code>>)

  function RegisteredRow(
    origin: Origin, parent: Option<ScanId>, key: StorageKey, sha256: Digest, size: nat): ScanRow
  {
    ScanRow(origin, parent, key, sha256, size, STORED, PENDING, None, None, [],
            QUARANTINE, None, None, None, None, false, None)
  }

  function AnalyzingRow(row: ScanRow): ScanRow {
    row.(state := ANALYZING, workerStatus := RUNNING)
  }

  function RecoveredRow(row: ScanRow): ScanRow {
    row.(state := QUARANTINED, workerStatus := Reported(AnalysisStatus.FAILED), errorCode := Some(RecoveryStaleAnalysis),
         releaseEligible := false, decision := QUARANTINE)
  }

  /** The evaluation stored with an outcome: fail-closed when the engine raises. */
  function StoredEvaluation(outcome: Outcome, state: ScanState): Evaluation<Code> {
    match Evaluate(SHIPPED, outcome.result, outcome.failure, state)
    case Some(e) => e
    case None => FailClosed(SHIPPED)
  }

  function ReportError(outcome: Outcome): Option<ErrorCode> {
    if outcome.result.None? then
      Some(if outcome.failure.Some? then Failure(outcome.failure.value) else UnknownFailure)
    else if outcome.result.value.status == SUCCESS then None
    else Some(if outcome.failure.Some? then Failure(outcome.failure.value)
              else StatusName(outcome.result.value.status))
  }

  function OutcomeError(outcome: Outcome, state: ScanState): Option<ErrorCode> {
    if Evaluate(SHIPPED, outcome.result, outcome.failure, state).None? then Some(PolicyEvaluationFailed)
    else ReportError(outcome)
  }

  /** The row after an analysis outcome is recorded: its policy columns are the evaluation's. */
  function FinishedRow(row: ScanRow, outcome: Outcome): ScanRow {
    var e := StoredEvaluation(outcome, row.state);
    var errorCode := OutcomeError(outcome, row.state);
    var judged := row.(
      errorCode := errorCode, decision := e.decision, riskScore := Some(e.score), severity := Some(e.band),
      policyVersion := Some(e.version), policyFingerprint := Some(e.fingerprint),
      releaseEligible := e.release, evaluation := Some(e),
      state := if e.decision == QUARANTINE || e.decision == BLOCK then QUARANTINED else COMPLETED);
    match outcome.result
    case None => judged.(workerStatus := Reported(AnalysisStatus.FAILED))
    case Some(r) =>
      judged.(workerStatus := Reported(r.status), detectedType := r.detectedType,
              findings := row.findings + r.findings)
  }

  // ---------------------------------------------------------------- the record, assigned field by field

  class ScanRecord {
    const origin: Origin
    const parent: Option<ScanId>
    const storageKey: StorageKey
    const sha256: Digest
    const size: nat
    var state: ScanState
    var workerStatus: WorkerStatus
    var errorCode: Option<ErrorCode>
    var detectedType: Option<string>
    var findings: seq<Code>
    var decision: Decision
    var riskScore: Option<int>
    var severity: Option<RiskBand>
    var policyVersion: Option<string>
    var policyFingerprint: Option<string>
    var releaseEligible: bool
    var evaluation: Option<Evaluation<Code>>

    ghost function Row(): ScanRow
      reads this
    {
      ScanRow(origin, parent, storageKey, sha256, size, state, workerStatus, errorCode, detectedType,
              findings, decision, riskScore, severity, policyVersion, policyFingerprint,
              releaseEligible, evaluation)
    }

    constructor (origin: Origin, parent: Option<ScanId>, key: StorageKey, sha256: Digest, size: nat)
      ensures Row() == RegisteredRow(origin, parent, key, sha256, size)
    {
      this.origin, this.parent, this.storageKey, this.sha256, this.size := origin, parent, key, sha256, size;
      state, workerStatus, errorCode, detectedType, findings := STORED, PENDING, None, None, [];
      decision, riskScore, severity := QUARANTINE, None, None;
      policyVersion, policyFingerprint, releaseEligible, evaluation := None, None, false, None;
    }

    method MarkAnalyzing()
      modifies this
      ensures Row() == AnalyzingRow(old(Row()))
    {
      state := ANALYZING;
      workerStatus := RUNNING;
    }

    /** Recovery acts only on a row still being analyzed. */
    method QuarantineStale(stale: bool) returns (applied: bool)
      modifies this
      ensures applied == (old(state) == ANALYZING && stale)
      ensures Row() == if applied then RecoveredRow(old(Row())) else old(Row())
    {
      if state != ANALYZING || !stale {
        return false;
      }
      state := QUARANTINED;
      workerStatus := Reported(AnalysisStatus.FAILED);
      errorCode := Some(RecoveryStaleAnalysis);
      releaseEligible := false;
      decision := QUARANTINE;
      return true;
    }

    /** Record an outcome; the state read before any assignment is what policy evaluates. */
    method RecordOutcome(outcome: Outcome)
      modifies this
      ensures Row() == FinishedRow(old(Row()), outcome)
    {
      var policyInputState := state;
      RecordReport(outcome);
      var attempt := Evaluate(SHIPPED, outcome.result, outcome.failure, policyInputState);
      if attempt.None? {
        errorCode := Some(PolicyEvaluationFailed);
      }
      RecordEvaluation(if attempt.Some? then attempt.value else FailClosed(SHIPPED));
      FinishedInSteps(old(Row()), outcome, attempt);
    }

    /** What the worker reported, before policy is applied. */
    method RecordReport(outcome: Outcome)
      modifies this
      ensures Row() == ReportedRow(old(Row()), outcome)
    {
      decision := QUARANTINE;
      if outcome.result.None? {
        state := QUARANTINED;
        workerStatus := Reported(AnalysisStatus.FAILED);
        errorCode := Some(if outcome.failure.Some? then Failure(outcome.failure.value) else UnknownFailure);
      } else {
        var result := outcome.result.value;
        workerStatus := Reported(result.status);
        detectedType := result.detectedType;
        if result.status == SUCCESS {
          state := COMPLETED;
          errorCode := None;
        } else {
          state := QUARANTINED;
          errorCode := Some(if outcome.failure.Some? then Failure(outcome.failure.value)
                            else StatusName(result.status));
        }
        findings := findings + result.findings;
      }
    }

    method RecordEvaluation(evaluated: Evaluation<Code>)
      modifies this
      ensures Row() == EvaluatedRow(old(Row()), evaluated)
    {
      riskScore := Some(evaluated.score);
      severity := Some(evaluated.band);
      decision := evaluated.decision;
      policyVersion := Some(evaluated.version);
      policyFingerprint := Some(evaluated.fingerprint);
      releaseEligible := evaluated.release;
      evaluation := Some(evaluated);
      state := if evaluated.decision == QUARANTINE || evaluated.decision == BLOCK then QUARANTINED else state;
    }
  }

  function ReportedRow(row: ScanRow, outcome: Outcome): ScanRow {
    var held := row.(decision := QUARANTINE, errorCode := ReportError(outcome));
    match outcome.result
    case None => held.(state := QUARANTINED, workerStatus := Reported(AnalysisStatus.FAILED))
    case Some(r) =>
      held.(state := if r.status == SUCCESS then COMPLETED else QUARANTINED,
            workerStatus := Reported(r.status), detectedType := r.detectedType,
            findings := row.findings + r.findings)
  }

  function EvaluatedRow(row: ScanRow, e: Evaluation<Code>): ScanRow {
    row.(decision := e.decision, riskScore := Some(e.score), severity := Some(e.band),
         policyVersion := Some(e.version), policyFingerprint := Some(e.fingerprint),
         releaseEligible := e.release, evaluation := Some(e),
         state := if e.decision == QUARANTINE || e.decision == BLOCK then QUARANTINED else row.state)
  }

  /** The assignments in order end in the finished row: COMPLETED survives only ALLOW and REVIEW. */
  lemma FinishedInSteps(row: ScanRow, outcome: Outcome, attempt: Option<Evaluation<Code>>)
    requires attempt == Evaluate(SHIPPED, outcome.result, outcome.failure, row.state)
    ensures
      var reported := ReportedRow(row, outcome);
      var noted := if attempt.None? then reported.(errorCode := Some(PolicyEvaluationFailed)) else reported;
      var e := if attempt.Some? then attempt.value else FailClosed(SHIPPED);
      EvaluatedRow(noted, e) == FinishedRow(row, outcome)
  {
    IncompleteIsHeld(outcome, row.state);
  }

  // ---------------------------------------------------------------- properties of a row

  /** A failed or unsuccessful analysis is never left COMPLETED by the status assignment alone. */
  lemma IncompleteIsHeld(outcome: Outcome, state: ScanState)
    ensures var e := StoredEvaluation(outcome, state);
            && ValidEvaluation(SHIPPED, e)
            && (e.decision == ALLOW || e.decision == REVIEW ==>
                  e.complete && outcome.result.Some? && outcome.result.value.status == SUCCESS
                  && (state == ANALYZING || state == COMPLETED))
            && (e.decision == ALLOW ==> e.hardBlocks == [] && e.mandatory == [])
            && (!e.complete ==> e.decision == QUARANTINE || e.decision == BLOCK)
            && (state != ANALYZING && state != COMPLETED ==> !e.complete)
  {
    ShippedOrdered();
    match Evaluate(SHIPPED, outcome.result, outcome.failure, state) {
      case None => FailClosedIsValid(SHIPPED);
      case Some(e) =>
        IncompleteNeverReleased(SHIPPED, outcome.result, outcome.failure, state, e);
        AssessMeaning(SHIPPED, outcome.result, outcome.failure, state);
        CompletenessMeaning(SHIPPED, outcome.result, outcome.failure, state);
    }
  }

  /** A row not yet judged: quarantined by default and not released. */
  predicate Unjudged(row: ScanRow) {
    && row.evaluation == None && row.decision == QUARANTINE && !row.releaseEligible
    && (row.state == STORED || row.state == ANALYZING || row.state == QUARANTINED)
  }

  /** A row whose policy columns are its stored evaluation's, as `_persisted_evaluation` checks. */
  predicate Judged(row: ScanRow) {
    && row.evaluation.Some?
    && var e := row.evaluation.value;
    && row.policyVersion == Some(e.version) && row.policyFingerprint == Some(e.fingerprint)
    && row.riskScore == Some(e.score) && row.severity == Some(e.band)
    && row.decision == e.decision && row.releaseEligible == e.release
    && (row.releaseEligible <==> row.decision == ALLOW)
    && (row.state == COMPLETED <==> row.decision == ALLOW || row.decision == REVIEW)
    && (row.state == COMPLETED || row.state == QUARANTINED)
    && (row.decision == ALLOW ==> e.complete && e.hardBlocks == [] && e.mandatory == [])
    && (row.state == COMPLETED ==> row.workerStatus == Reported(SUCCESS))
  }

  predicate RowValid(row: ScanRow) { Unjudged(row) || Judged(row) }

  /** The stored evaluation still passes the validators of the result model. */
  predicate EvaluationValid(row: ScanRow) {
    match row.evaluation case None => true case Some(e) => ValidEvaluation(SHIPPED, e)
  }

  /** The API's reading of a row: its evaluation, rejected when it is invalid or disagrees. */
  function PersistedEvaluation(row: ScanRow): Option<Evaluation<Code>> {
    match row.evaluation
    case None => None
    case Some(e) =>
      if && ValidEvaluation(SHIPPED, e)
         && row.policyVersion == Some(e.version) && row.policyFingerprint == Some(e.fingerprint)
         && row.riskScore == Some(e.score) && row.severity == Some(e.band)
         && row.decision == e.decision && row.releaseEligible == e.release
      then Some(e) else None
  }

  /** Quarantined by recovery, with or without a late worker's result on top. */
  predicate Recovered(row: ScanRow) {
    && row.state == QUARANTINED && !row.releaseEligible
    && (row.decision == QUARANTINE || row.decision == BLOCK)
    && (if row.evaluation.Some? then !row.evaluation.value.complete
        else row.workerStatus == Reported(AnalysisStatus.FAILED))
  }

  /** Recording an outcome always leaves a judged row, and a recovered one stays recovered. */
  lemma FinishedRowJudged(row: ScanRow, outcome: Outcome)
    ensures Judged(FinishedRow(row, outcome)) && EvaluationValid(FinishedRow(row, outcome))
    ensures row.state == QUARANTINED ==> Recovered(FinishedRow(row, outcome))
    ensures FinishedRow(row, outcome).decision == ALLOW ==>
              outcome.result.Some? && outcome.result.value.status == SUCCESS
              && FinishedRow(row, outcome).workerStatus == Reported(SUCCESS)
    ensures match outcome.result
            case None => FinishedRow(row, outcome).workerStatus == Reported(AnalysisStatus.FAILED)
            case Some(r) =>
              && FinishedRow(row, outcome).workerStatus == Reported(r.status)
              && FinishedRow(row, outcome).detectedType == r.detectedType
              && (forall code :: code in r.findings ==> code in FinishedRow(row, outcome).findings)
              && (forall code :: code in FinishedRow(row, outcome).findings ==> code in row.findings || code in r.findings)
  {
    IncompleteIsHeld(outcome, row.state);
    RowOfEvaluation(row, outcome, StoredEvaluation(outcome, row.state));
  }

  lemma RowOfEvaluation(row: ScanRow, outcome: Outcome, e: Evaluation<Code>)
    requires e == StoredEvaluation(outcome, row.state) && e.release == (e.decision == ALLOW)
    requires e.decision == ALLOW ==> e.complete && e.hardBlocks == [] && e.mandatory == []
    requires e.decision == ALLOW || e.decision == REVIEW ==>
               outcome.result.Some? && outcome.result.value.status == SUCCESS
    ensures FinishedRow(row, outcome).evaluation == Some(e)
    ensures Judged(FinishedRow(row, outcome))
    ensures FinishedRow(row, outcome).workerStatus ==
            Reported(if outcome.result.Some? then outcome.result.value.status else AnalysisStatus.FAILED)
  {
  }

  /** `_persisted_evaluation` never rejects a row the system wrote. */
  lemma NeverRejected(row: ScanRow)
    requires RowValid(row) && EvaluationValid(row)
    ensures PersistedEvaluation(row) == row.evaluation
  {
  }
}
