// The elastic agent's run loop, for every stream of observations of its worker group.

module ElasticAgent {
  import opened Outcomes

  datatype WorkerState = UNKNOWN | INIT | HEALTHY | UNHEALTHY | STOPPED | SUCCEEDED | FAILED

  /** One round of the loop: the monitored state, how many nodes wait to join, and whether the
      rendezvous of a restart in this round succeeds. */
  datatype Observation = Observation(state: WorkerState, nodesWaiting: int, joins: bool)

  datatype Outcome = Success | WorkerGroupFailure | UnexpectedState(state: WorkerState) | RendezvousFailed

  /** What the agent does to its local workers. */
  datatype Event = Start | Stop

  type Stream = nat -> Observation

  predicate IsFailing(o: Observation) { o.state.UNHEALTHY? || o.state.FAILED? }

  /** The observation makes the agent stop and start its workers if it has a restart left. */
  predicate AsksForRestart(o: Observation)
  {
    IsFailing(o) || (o.state.HEALTHY? && o.nodesWaiting > 0)
  }

  /** How many of the first `n` observations are failing. */
  function Failures(stream: Stream, n: nat): nat
  {
    if n == 0 then 0 else Failures(stream, n - 1) + if IsFailing(stream(n - 1)) then 1 else 0
  }

  function Restarts(stream: Stream, n: nat): nat
  {
    if n == 0 then 0 else Restarts(stream, n - 1) + if AsksForRestart(stream(n - 1)) then 1 else 0
  }

  /** Starts and stops alternate, beginning with a start: no incarnation is started before the
      previous one was stopped. */
  ghost predicate StopsBeforeStarts(log: seq<Event>)
  {
    forall i :: 0 <= i < |log| ==> (log[i].Start? <==> i % 2 == 0)
  }

  /** The workers run: the last thing that was done is to start them. */
  ghost predicate Up(log: seq<Event>)
  {
    log != [] && log[|log| - 1].Start? && StopsBeforeStarts(log)
  }

  /** The workers do not run: they were stopped last. */
  ghost predicate Down(log: seq<Event>)
  {
    log != [] && log[|log| - 1].Stop? && StopsBeforeStarts(log)
  }

  function Starts(log: seq<Event>): nat
  {
    if log == [] then 0 else Starts(log[..|log| - 1]) + if log[|log| - 1].Start? then 1 else 0
  }

  /** A failing observation that comes after `maxRestarts` others. */
  predicate OutOfRestarts(stream: Stream, maxRestarts: nat, n: nat)
  {
    IsFailing(stream(n)) && Failures(stream, n) >= maxRestarts
  }

  /** Where the run ends: at the first success, the first unexpected state, the first restart whose
      rendezvous raises, or the failing observation that comes after `maxRestarts` others. */
  predicate Ends(stream: Stream, maxRestarts: nat, n: nat)
  {
    var o := stream(n);
    OutOfRestarts(stream, maxRestarts, n) || !(IsFailing(o) || o.state.HEALTHY?) || (AsksForRestart(o) && !o.joins)
  }

  function OutcomeOf(stream: Stream, maxRestarts: nat, n: nat): Outcome
  {
    var o := stream(n);
    if o.state.SUCCEEDED? then Success
    else if OutOfRestarts(stream, maxRestarts, n) then WorkerGroupFailure
    else if AsksForRestart(o) then RendezvousFailed
    else UnexpectedState(o.state)
  }

  class SimpleElasticAgent {
    const maxRestarts: nat
    var remainingRestarts: int
    var state: WorkerState
    ghost var log: seq<Event>

    constructor (maxRestarts: nat)
      ensures this.maxRestarts == remainingRestarts == maxRestarts && state == INIT && log == []
    {
      this.maxRestarts, remainingRestarts, state, log := maxRestarts, maxRestarts, INIT, [];
    }

    method StopWorkers()
      modifies this`log
      ensures log == old(log) + [Stop]
    {
      log := log + [Stop];
    }

    /** Rendezvous and start; a rendezvous that raises leaves everything as it was. */
    method InitializeWorkers(joins: bool)
      modifies this`state, this`log
      ensures if joins then state == HEALTHY && log == old(log) + [Start] else state == old(state) && log == old(log)
    {
      if joins {
        log := log + [Start];
        state := HEALTHY;
      }
    }

    /** Stop, rendezvous, start. */
    method RestartWorkers(joins: bool)
      requires Up(log)
      modifies this`state, this`log
      ensures state == if joins then HEALTHY else STOPPED
      ensures log == old(log) + if joins then [Stop, Start] else [Stop]
      ensures if joins then Up(log) && Starts(log) == Starts(old(log)) + 1 else Down(log) && Starts(log) == Starts(old(log))
    {
      StopGrows(log);
      RestartGrows(log);
      StopWorkers();
      state := STOPPED;
      InitializeWorkers(joins);
    }

    /** What holds after `n` observations that did not end the run. */
    ghost predicate Running(stream: Stream, n: nat)
      reads this
    {
      && remainingRestarts == maxRestarts - Failures(stream, n) && 0 <= remainingRestarts <= maxRestarts
      && state != INIT
      && Up(log) && Starts(log) == 1 + Restarts(stream, n)
      && forall k :: 0 <= k < n ==> !Ends(stream, maxRestarts, k)
    }

    /** What holds when observation `n`, the first that can end the run, has ended it. */
    ghost predicate Ended(stream: Stream, n: nat, outcome: Outcome)
      reads this
    {
      && Ends(stream, maxRestarts, n) && (forall k :: 0 <= k < n ==> !Ends(stream, maxRestarts, k))
      && outcome == OutcomeOf(stream, maxRestarts, n)
      && (outcome.WorkerGroupFailure? <==> Failures(stream, n + 1) == maxRestarts + 1)
      && remainingRestarts == (if outcome.WorkerGroupFailure? then 0 else maxRestarts - Failures(stream, n + 1))
      && 0 <= remainingRestarts <= maxRestarts
      && (match outcome
          case Success => stream(n).state == SUCCEEDED
          case WorkerGroupFailure => stream(n).state in {UNHEALTHY, FAILED}
          case UnexpectedState(unexpected) => unexpected == stream(n).state && unexpected in {UNKNOWN, INIT, STOPPED}
          case RendezvousFailed =>
            && !stream(n).joins
            && (stream(n).state in {UNHEALTHY, FAILED} || (stream(n).state == HEALTHY && stream(n).nodesWaiting >= 1)))
      && Starts(log) == 1 + Restarts(stream, n)
      && (if outcome.WorkerGroupFailure? || outcome.RendezvousFailed? then Down(log) else Up(log))
      && (outcome.WorkerGroupFailure? ==> state == FAILED) && (outcome.RendezvousFailed? ==> state == STOPPED)
    }

    /** The first start. */
    method Launch(stream: Stream, joins: bool)
      requires remainingRestarts == maxRestarts && state == INIT && log == []
      modifies this
      ensures if joins then Running(stream, 0) else log == [] && remainingRestarts == maxRestarts
    {
      InitializeWorkers(joins);
    }

    /** One round of the loop. */
    method Round(stream: Stream, n: nat) returns (outcome: Option<Outcome>)
      requires Running(stream, n)
      modifies this
      ensures outcome.None? ==> Running(stream, n + 1)
      ensures outcome.Some? ==> Ended(stream, n, outcome.value)
      ensures outcome.None? && !stream(n).state.HEALTHY? ==> remainingRestarts < old(remainingRestarts)
      ensures outcome.None? ==>
                if stream(n).state in {UNHEALTHY, FAILED}
                then remainingRestarts == old(remainingRestarts) - 1 && log == old(log) + [Stop, Start]
                else stream(n).state == HEALTHY && remainingRestarts == old(remainingRestarts)
                     && log == old(log) + if stream(n).nodesWaiting >= 1 then [Stop, Start] else []
      ensures stream(n).state == SUCCEEDED ==> outcome == Some(Success)
    {
      var observed := stream(n);
      state := observed.state;
      if state.SUCCEEDED? {
        return Some(Success);
      } else if state.UNHEALTHY? || state.FAILED? {
        if remainingRestarts > 0 {
          remainingRestarts := remainingRestarts - 1;
          RestartWorkers(observed.joins);
          return if observed.joins then None else Some(RendezvousFailed);
        } else {
          StopGrows(log);
          StopWorkers();
          state := FAILED;
          return Some(WorkerGroupFailure);
        }
      } else if state.HEALTHY? {
        if observed.nodesWaiting > 0 {
          RestartWorkers(observed.joins);
          return if observed.joins then None else Some(RendezvousFailed);
        }
        return None;
      } else {
        return Some(UnexpectedState(state));
      }
    }

    /** The run, watched for any number of rounds: it has ended at the first observation that can
        end it, or is still running.  Restarts are consumed by failing observations only, one by
        one, and every incarnation is stopped before the next is started. */
    method RunFor(stream: Stream, joins: bool, bound: nat) returns (outcome: Option<Outcome>, n: nat)
      requires remainingRestarts == maxRestarts && state == INIT && log == []
      modifies this
      ensures !joins ==> outcome == Some(RendezvousFailed) && n == 0 && log == [] && remainingRestarts == maxRestarts
      ensures joins && outcome.None? ==> n == bound && Running(stream, n)
      ensures joins && outcome.Some? ==> n < bound && Ended(stream, n, outcome.value)
    {
      Launch(stream, joins);
      if !joins { return Some(RendezvousFailed), 0; }
      n := 0;
      while n < bound
        invariant n <= bound && Running(stream, n)
      {
        var ended := Round(stream, n);
        if ended.Some? { return ended, n; }
        n := n + 1;
      }
      return None, n;
    }

    /** The whole run: it ends for every stream with finitely many healthy observations. */
    method InvokeRun(stream: Stream, joins: bool, ghost lastHealthy: nat) returns (outcome: Outcome, n: nat)
      requires remainingRestarts == maxRestarts && state == INIT && log == []
      requires forall k :: k >= lastHealthy ==> !stream(k).state.HEALTHY?
      modifies this
      ensures !joins ==> outcome == RendezvousFailed && n == 0 && log == [] && remainingRestarts == maxRestarts
      ensures joins ==> Ended(stream, n, outcome)
    {
      Launch(stream, joins);
      if !joins { return RendezvousFailed, 0; }
      n := 0;
      while true
        invariant Running(stream, n)
        decreases if n < lastHealthy then lastHealthy - n else 0, remainingRestarts
      {
        var ended := Round(stream, n);
        if ended.Some? { return ended.value, n; }
        n := n + 1;
      }
    }

    /** The flakiness put by the `finally` clause of `run`.  The failure branch tests whether a
        boolean is an exception, so a failed run never puts one. */
    method RecordFlakinessMetric(isFailed: bool) returns (put: int, recorded: bool)
      requires 0 <= remainingRestarts <= maxRestarts
      ensures recorded == !isFailed
      ensures recorded ==> 0 <= put < 100 && (remainingRestarts == maxRestarts ==> put == 0)
      ensures recorded ==> put == (100.0 - 100.0 * (remainingRestarts as real + 1.0) / (maxRestarts as real + 1.0)).Floor
    {
      if isFailed { return 0, false; }
      FlakinessRange(remainingRestarts, maxRestarts);
      return Flakiness(remainingRestarts, maxRestarts).Floor, true;
    }
  }

  lemma StopGrows(log: seq<Event>)
    requires Up(log)
    ensures Down(log + [Stop]) && Starts(log + [Stop]) == Starts(log)
  {
    assert (log + [Stop])[..|log|] == log;
  }

  lemma RestartGrows(log: seq<Event>)
    requires Up(log)
    ensures Up(log + [Stop, Start]) && Starts(log + [Stop, Start]) == Starts(log) + 1
  {
    StopGrows(log);
    assert (log + [Stop, Start])[..|log| + 1] == log + [Stop];
  }

  function Flakiness(remaining: int, maxRestarts: nat): real
  {
    100.0 - 100.0 * (remaining as real + 1.0) / (maxRestarts as real + 1.0)
  }

  /** A successful run is never fully flaky, and not flaky at all without restarts. */
  lemma FlakinessRange(remaining: int, maxRestarts: nat)
    requires 0 <= remaining <= maxRestarts
    ensures 0.0 <= Flakiness(remaining, maxRestarts) < 100.0
    ensures remaining == maxRestarts ==> Flakiness(remaining, maxRestarts) == 0.0
  {
    var used, all := remaining as real + 1.0, maxRestarts as real + 1.0;
    var share := 100.0 * used / all;
    assert share * all == 100.0 * used;
    Share(share, used, all);
  }

  lemma Scale(a: real, b: real, c: real)
    requires c > 0.0
    ensures a < b <==> a * c < b * c
  {
  }

  lemma Share(share: real, used: real, all: real)
    requires 1.0 <= used <= all && share * all == 100.0 * used
    ensures 0.0 < share <= 100.0
    ensures used == all ==> share == 100.0
  {
    Scale(100.0, share, all);
    Scale(share, 100.0, all);
    Scale(0.0, share, all);
  }
}
