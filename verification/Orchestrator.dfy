/**
 From a worker execution to an analysis outcome (app/orchestrator/service.py). Parsing and
 validating the worker's JSON output is a parameter.
 */
module Orchestrator {
  import opened Wrappers
  import opened PolicyEngine

  datatype Execution<B> = Execution(stdout: B, exitCode: int, timedOut: bool, outputLimitExceeded: bool)

  datatype Outcome<C> = Outcome(result: Option<AnalysisResult<C>>, failure: Option<FailureCode>)

  /** `None` as execution stands for an unavailable isolation backend. */
  function Analyze<B, C>(execution: Option<Execution<B>>, parse: B -> Option<AnalysisResult<C>>): Outcome<C> {
    match execution
    case None => Outcome(None, Some(IsolationUnavailable))
    case Some(e) =>
      if e.timedOut then Outcome(None, Some(Timeout))
      else if e.outputLimitExceeded then Outcome(None, Some(OutputLimitExceeded))
      else if e.exitCode != 0 then Outcome(None, Some(NonZeroExit))
      else match parse(e.stdout)
           case None => Outcome(None, Some(MalformedOutput))
           case Some(r) => Outcome(Some(r), FailureOf(r.status))
  }

  function FailureOf(status: AnalysisStatus): Option<FailureCode> {
    match status
    case SUCCESS => None
    case UNSUPPORTED => Some(Unsupported)
    case _ => Some(WorkerFailed)
  }

  /** A result is accepted only from a clean exit with untruncated output, and exactly as parsed. */
  lemma AcceptedMeansClean<B, C>(execution: Option<Execution<B>>, parse: B -> Option<AnalysisResult<C>>)
    ensures
      var outcome := Analyze(execution, parse);
      && (outcome.result.Some? <==>
          execution.Some? && !execution.value.timedOut && !execution.value.outputLimitExceeded
          && execution.value.exitCode == 0 && parse(execution.value.stdout).Some?)
      && (outcome.result.Some? ==> outcome.result == parse(execution.value.stdout))
      && (outcome.failure == None <==> outcome.result.Some? && outcome.result.value.status == SUCCESS)
  {
    match execution {
      case None =>
      case Some(e) => assert parse(e.stdout).Some? ==> FailureOf(parse(e.stdout).value.status) != Some(Timeout);
    }
  }

  /** Each failure code has its own cause, the earlier ones hiding the later. */
  lemma FailureCauses<B, C>(execution: Option<Execution<B>>, parse: B -> Option<AnalysisResult<C>>)
    ensures var failure := Analyze(execution, parse).failure;
      && (failure == Some(IsolationUnavailable) <==> execution.None?)
      && (failure == Some(Timeout) <==> execution.Some? && execution.value.timedOut)
      && (failure == Some(OutputLimitExceeded) <==>
          execution.Some? && !execution.value.timedOut && execution.value.outputLimitExceeded)
      && (failure == Some(NonZeroExit) <==>
          execution.Some? && !execution.value.timedOut && !execution.value.outputLimitExceeded
          && execution.value.exitCode != 0)
      && (failure == Some(MalformedOutput) <==>
          execution.Some? && CleanExit(execution.value) && parse(execution.value.stdout).None?)
      && (failure == Some(Unsupported) <==>
          execution.Some? && CleanExit(execution.value) && parse(execution.value.stdout).Some?
          && parse(execution.value.stdout).value.status == UNSUPPORTED)
      && (failure == Some(WorkerFailed) <==>
          execution.Some? && CleanExit(execution.value) && parse(execution.value.stdout).Some?
          && parse(execution.value.stdout).value.status !in {SUCCESS, UNSUPPORTED})
  {
    match execution {
      case None =>
      case Some(e) =>
        if CleanExit(e) && parse(e.stdout).Some? {
          var status := parse(e.stdout).value.status;
          assert status == SUCCESS || status == UNSUPPORTED || FailureOf(status) == Some(WorkerFailed);
        }
    }
  }

  /** The process ended by itself, with exit code 0 and all its output captured. */
  predicate CleanExit<B>(e: Execution<B>) { !e.timedOut && !e.outputLimitExceeded && e.exitCode == 0 }
}
