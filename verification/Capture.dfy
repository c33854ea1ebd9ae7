/**
 Bounded capture of a worker's output (app/orchestrator/isolation.py), for every schedule of
 readiness, read sizes, deadline checks and process exits.
 */
module Capture {
  import opened Wrappers
  import opened PolicyEngine
  import Orchestrator

  const READ_BYTES: nat := 65_536

  datatype Stream = STDOUT | STDERR

  /** One ready stream: the read would block, or transfers up to `size` bytes. */
  datatype Event = Event(stream: Stream, blocked: bool, size: nat)

  /** One turn of the event loop: the deadline has passed, what is ready, the process has exited. */
  datatype Round = Round(expired: bool, events: seq<Event>, exited: bool)

  function Bound(limit: int): nat { if limit > 0 then limit else 0 }

  function Smaller(a: int, b: int): int { if a <= b then a else b }

  lemma TakeMore(content: Bytes, position: nat, n: nat, taken: nat)
    requires position + n <= |content| && taken <= n
    ensures content[..position] + content[position..position + n][..taken] == content[..position + taken]
  {
    assert content[position..position + n][..taken] == content[position..position + taken];
  }

  /** One output stream of the worker and the buffer it is captured in. */
  class Pipe {
    const content: Bytes
    const limit: int
    var position: nat
    var buffer: Bytes
    var registered: bool

    ghost predicate Valid()
      reads this
    {
      position <= |content| && buffer == content[..Smaller(position, Bound(limit))]
    }

    /** Some byte was read and dropped. */
    ghost predicate Dropped()
      reads this
    {
      position > Bound(limit)
    }

    constructor (content: Bytes, limit: int)
      ensures Valid() && registered && position == 0 && this.content == content && this.limit == limit
    {
      this.content, this.limit := content, limit;
      position, buffer, registered := 0, [], true;
    }

    /** `os.read` and its handling; `exceeded` tells that bytes beyond the limit were read. */
    method Consume(size: nat) returns (exceeded: bool)
      requires Valid() && registered
      modifies this
      ensures Valid() && position >= old(position)
      ensures exceeded ==> Dropped()
      ensures Dropped() ==> exceeded || old(Dropped())
      ensures !registered ==> position == |content|
    {
      var wanted := Smaller(if size > 0 then size else 1, READ_BYTES);
      var n := Smaller(wanted, |content| - position);
      var chunk := content[position..position + n];
      if chunk == [] {
        registered := false;
        return false;
      }
      var remaining := Bound(limit - |buffer|);
      var taken := Smaller(remaining, |chunk|);
      if position < Bound(limit) {
        TakeMore(content, position, n, taken);
      }
      buffer := buffer + chunk[..taken];
      position := position + n;
      exceeded := |chunk| > remaining;
    }
  }

  /**
   The event loop. `finished` tells that both streams were unregistered within the schedule and
   `rounds` how much of it was used.
   */
  method Collect(stdout: Pipe, stderr: Pipe, schedule: seq<Round>)
    returns (timedOut: bool, exceeded: bool, finished: bool, rounds: nat)
    requires stdout != stderr && stdout.Valid() && stderr.Valid() && stdout.registered && stderr.registered
    requires stdout.position == 0 && stderr.position == 0
    modifies stdout, stderr
    ensures stdout.Valid() && stderr.Valid()
    ensures exceeded <==> stdout.Dropped() || stderr.Dropped()
    ensures rounds <= |schedule| && (finished <==> !stdout.registered && !stderr.registered)
    ensures timedOut <==> exists i :: 0 <= i < rounds && schedule[i].expired
    ensures finished && !timedOut && !exceeded ==>
              stdout.buffer == stdout.content && stderr.buffer == stderr.content
    ensures !finished ==> rounds == |schedule|
  {
    timedOut, exceeded, rounds := false, false, 0;
    while (stdout.registered || stderr.registered) && rounds < |schedule|
      invariant stdout.Valid() && stderr.Valid() && rounds <= |schedule|
      invariant exceeded <==> stdout.Dropped() || stderr.Dropped()
      invariant timedOut <==> exists i :: 0 <= i < rounds && schedule[i].expired
      invariant !timedOut && !exceeded ==> Drained(stdout) && Drained(stderr)
    {
      var round := schedule[rounds];
      rounds := rounds + 1;
      if round.expired { timedOut := true; }
      exceeded := Handle(stdout, stderr, round.events, exceeded);
      if (timedOut || exceeded) && round.exited && round.events == [] {
        stdout.registered := false;
        stderr.registered := false;
      }
    }
    finished := !stdout.registered && !stderr.registered;
  }

  /** An unregistered stream was read to its end. */
  ghost predicate Drained(pipe: Pipe)
    reads pipe
  {
    pipe.registered || pipe.position == |pipe.content|
  }

  /** The ready streams of one round; a stream unregistered earlier is no longer reported. */
  method Handle(stdout: Pipe, stderr: Pipe, events: seq<Event>, before: bool) returns (exceeded: bool)
    requires stdout != stderr && stdout.Valid() && stderr.Valid()
    requires before <==> stdout.Dropped() || stderr.Dropped()
    modifies stdout, stderr
    ensures stdout.Valid() && stderr.Valid()
    ensures (exceeded <==> stdout.Dropped() || stderr.Dropped()) && (before ==> exceeded)
    ensures old(Drained(stdout)) ==> Drained(stdout)
    ensures old(Drained(stderr)) ==> Drained(stderr)
  {
    exceeded := before;
    for i := 0 to |events|
      invariant stdout.Valid() && stderr.Valid()
      invariant (exceeded <==> stdout.Dropped() || stderr.Dropped()) && (before ==> exceeded)
      invariant old(Drained(stdout)) ==> Drained(stdout)
      invariant old(Drained(stderr)) ==> Drained(stderr)
    {
      var pipe := if events[i].stream == STDOUT then stdout else stderr;
      if pipe.registered && !events[i].blocked {
        var dropped := pipe.Consume(events[i].size);
        if dropped { exceeded := true; }
      }
    }
  }

  /**
   A worker run, captured and interpreted. When both streams ended within the schedule, what
   comes out depends on the deadline in the `used` rounds, the streams and the exit code alone:
   in particular a result is parsed from every byte of standard output, and a run in time,
   within both limits and with exit code 0 yields the result its output says.
   */
  method Execute<C>(
    stdout: Bytes, stderr: Bytes, stdoutLimit: int, stderrLimit: int, schedule: seq<Round>, exitCode: int,
    parse: Bytes -> Option<AnalysisResult<C>>)
    returns (finished: bool, outcome: Orchestrator.Outcome<C>, used: nat)
    ensures used <= |schedule|
    ensures finished ==>
              var late := exists i :: 0 <= i < used && schedule[i].expired;
              var fits := |stdout| <= Bound(stdoutLimit) && |stderr| <= Bound(stderrLimit);
              && (outcome.result.Some? <==> !late && fits && exitCode == 0 && parse(stdout).Some?)
              && (outcome.result.Some? ==>
                    outcome.result == parse(stdout)
                    && outcome.failure == Orchestrator.FailureOf(outcome.result.value.status))
              && (outcome.failure == Some(Timeout) <==> late)
              && (outcome.failure == Some(OutputLimitExceeded) <==> !late && !fits)
              && (outcome.failure == Some(NonZeroExit) <==> !late && fits && exitCode != 0)
              && (outcome.failure == Some(MalformedOutput) <==>
                    !late && fits && exitCode == 0 && parse(stdout).None?)
  {
    var out := new Pipe(stdout, stdoutLimit);
    var err := new Pipe(stderr, stderrLimit);
    var timedOut, exceeded, rounds;
    timedOut, exceeded, finished, rounds := Collect(out, err, schedule);
    var execution := Orchestrator.Execution(out.buffer, exitCode, timedOut, exceeded);
    outcome := Orchestrator.Analyze(Some(execution), parse);
    used := rounds;
    Orchestrator.AcceptedMeansClean(Some(execution), parse);
    Orchestrator.FailureCauses(Some(execution), parse);
  }
}
