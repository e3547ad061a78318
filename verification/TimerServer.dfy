// The timer server: a map from (worker, scope) to the timer in force, kept up to date by
// watchdog passes that register requests and reap workers with expired timers.

module TimerServer {
  import opened Outcomes
  import C = Counting

  /** Workers are identified by the pid of their process. */
  datatype Pid = Pid(number: int)

  /** A negative expiration time releases the timer. */
  datatype TimerRequest = TimerRequest(workerId: Pid, scopeId: string, expirationTime: real)

  type Timers = map<(Pid, string), TimerRequest>

  // --- The log that the map must agree with -------------------------------------------------------

  datatype LogItem = Requested(request: TimerRequest) | Reaped(workerIds: set<Pid>)

  /** The timer in force for (pid, scope): its last request since `pid` was last reaped, if that
      was an acquire. */
  function InForce(log: seq<LogItem>, pid: Pid, scope: string): Option<TimerRequest>
  {
    if log == [] then None
    else
      match log[|log| - 1]
      case Reaped(workerIds) => if pid in workerIds then None else InForce(log[..|log| - 1], pid, scope)
      case Requested(request) =>
        if request.workerId == pid && request.scopeId == scope then
          if request.expirationTime < 0.0 then None else Some(request)
        else InForce(log[..|log| - 1], pid, scope)
  }

  ghost predicate Agrees(timers: Timers, log: seq<LogItem>)
  {
    forall pid, scope ::
      InForce(log, pid, scope) == if (pid, scope) in timers then Some(timers[(pid, scope)]) else None
  }

  // --- Registration ----------------------------------------------------------------------------------

  function RegisterOne(timers: Timers, request: TimerRequest): Timers
  {
    var key := (request.workerId, request.scopeId);
    if request.expirationTime < 0.0 then timers - {key} else timers[key := request]
  }

  function RegisterAll(timers: Timers, requests: seq<TimerRequest>): Timers
  {
    if requests == [] then timers
    else RegisterOne(RegisterAll(timers, requests[..|requests| - 1]), requests[|requests| - 1])
  }

  function Requests(requests: seq<TimerRequest>): seq<LogItem>
  {
    seq(|requests|, i requires 0 <= i < |requests| => Requested(requests[i]))
  }

  lemma RegisterOneAgrees(timers: Timers, log: seq<LogItem>, request: TimerRequest)
    requires Agrees(timers, log)
    ensures Agrees(RegisterOne(timers, request), log + [Requested(request)])
  {
    assert (log + [Requested(request)])[..|log|] == log;
  }

  lemma {:induction false} RegisterAllAgrees(timers: Timers, log: seq<LogItem>, requests: seq<TimerRequest>)
    requires Agrees(timers, log)
    ensures Agrees(RegisterAll(timers, requests), log + Requests(requests))
  {
    if requests == [] {
      assert log + Requests(requests) == log;
    } else {
      var front, last := requests[..|requests| - 1], requests[|requests| - 1];
      RegisterAllAgrees(timers, log, front);
      RegisterOneAgrees(RegisterAll(timers, front), log + Requests(front), last);
      assert log + Requests(requests) == (log + Requests(front)) + [Requested(last)];
    }
  }

  /** The last request for a worker and scope decides: a release leaves no timer, an acquire its own. */
  lemma LastRequestDecides(timers: Timers, requests: seq<TimerRequest>, request: TimerRequest)
    ensures
      var after, key := RegisterAll(timers, requests + [request]), (request.workerId, request.scopeId);
      && (request.expirationTime < 0.0 ==> key !in after)
      && (request.expirationTime >= 0.0 ==> key in after && after[key] == request)
      && forall other :: other != key ==>
           (other in after <==> other in RegisterAll(timers, requests))
           && (other in after ==> after[other] == RegisterAll(timers, requests)[other])
  {
    assert (requests + [request])[..|requests|] == requests;
  }

  /** How requests are split into batches makes no difference. */
  lemma {:induction false} BatchingIrrelevant(timers: Timers, first: seq<TimerRequest>, second: seq<TimerRequest>)
    ensures RegisterAll(timers, first + second) == RegisterAll(RegisterAll(timers, first), second)
  {
    if second == [] {
      assert first + second == first;
    } else {
      var k := |second| - 1;
      assert (first + second)[..|first| + k] == first + second[..k];
      BatchingIrrelevant(timers, first, second[..k]);
    }
  }

  // --- Clearing and expiry ------------------------------------------------------------------------------

  function Cleared(timers: Timers, workerIds: set<Pid>): Timers
  {
    map key | key in timers && key.0 !in workerIds :: timers[key]
  }

  lemma ClearedAgrees(timers: Timers, log: seq<LogItem>, workerIds: set<Pid>)
    requires Agrees(timers, log)
    ensures Agrees(Cleared(timers, workerIds), log + [Reaped(workerIds)])
  {
    assert (log + [Reaped(workerIds)])[..|log|] == log;
  }

  ghost predicate Expired(timers: Timers, key: (Pid, string), deadline: real)
  {
    key in timers && timers[key].expirationTime <= deadline
  }

  /** Every timer is filed under its own worker and scope. */
  ghost predicate Filed(timers: Timers)
  {
    forall key :: key in timers ==> key == (timers[key].workerId, timers[key].scopeId)
  }

  /** The workers with a live timer that has expired by the deadline. */
  ghost function ExpiredWorkers(timers: Timers, deadline: real): set<Pid>
  {
    set key | key in timers && timers[key].expirationTime <= deadline :: key.0
  }

  /** The timer in force for (pid, scope) expires at `now` or before. */
  ghost predicate DueInLog(log: seq<LogItem>, pid: Pid, scope: string, now: real)
  {
    InForce(log, pid, scope).Some? && InForce(log, pid, scope).value.expirationTime <= now
  }

  lemma ExpiredInLog(timers: Timers, log: seq<LogItem>, now: real)
    requires Agrees(timers, log)
    ensures forall pid :: pid in ExpiredWorkers(timers, now) <==> exists scope :: DueInLog(log, pid, scope, now)
  {
    forall pid
      ensures pid in ExpiredWorkers(timers, now) <==> exists scope :: DueInLog(log, pid, scope, now)
    {
      if scope :| DueInLog(log, pid, scope, now) {
        assert (pid, scope) in timers && timers[(pid, scope)].expirationTime <= now;
      }
      if key :| key in timers && timers[key].expirationTime <= now && key.0 == pid {
        assert key == (pid, key.1);
        assert DueInLog(log, pid, key.1, now);
      }
    }
  }

  /** Is `request` one of the timers under `keys`, and expired? */
  ghost predicate ExpiredUnder(timers: Timers, keys: set<(Pid, string)>, request: TimerRequest, deadline: real)
  {
    var key := (request.workerId, request.scopeId);
    key in keys && key in timers && timers[key] == request && request.expirationTime <= deadline
  }

  /** `expired` maps exactly the workers that have an expired timer under `keys` to exactly these
      timers, each of them once. */
  ghost predicate Groups(timers: Timers, keys: set<(Pid, string)>, deadline: real, expired: map<Pid, seq<TimerRequest>>)
  {
    && (forall pid :: pid in expired ==> expired[pid] != [] && C.Distinct(expired[pid]))
    && (forall pid, request :: pid in expired && request in expired[pid] ==>
          pid == request.workerId && ExpiredUnder(timers, keys, request, deadline))
    && (forall request :: ExpiredUnder(timers, keys, request, deadline) ==>
          request.workerId in expired && request in expired[request.workerId])
  }

  /** `setdefault(worker, []).append(request)`. */
  function Appended(expired: map<Pid, seq<TimerRequest>>, request: TimerRequest): map<Pid, seq<TimerRequest>>
  {
    var pid := request.workerId;
    expired[pid := (if pid in expired then expired[pid] else []) + [request]]
  }

  lemma GroupsMore(timers: Timers, keys: set<(Pid, string)>, deadline: real, expired: map<Pid, seq<TimerRequest>>, key: (Pid, string))
    requires Filed(timers) && key in timers && key !in keys && Groups(timers, keys, deadline, expired)
    ensures Groups(timers, keys + {key}, deadline,
                   if timers[key].expirationTime <= deadline then Appended(expired, timers[key]) else expired)
  {
    var more := keys + {key};
    var next := if timers[key].expirationTime <= deadline then Appended(expired, timers[key]) else expired;
    assert timers[key].workerId in expired ==> timers[key] !in expired[timers[key].workerId];
    forall pid: Pid, request: TimerRequest | pid in next && request in next[pid]
      ensures pid == request.workerId && ExpiredUnder(timers, more, request, deadline)
    {
      if !(pid in expired && request in expired[pid]) {
        assert request == timers[key];
      }
    }
    forall request: TimerRequest | ExpiredUnder(timers, more, request, deadline)
      ensures request.workerId in next && request in next[request.workerId]
    {
      if !ExpiredUnder(timers, keys, request, deadline) {
        assert request == timers[key];
      }
    }
  }

  /** One of the keys that are left moves to those that are done. */
  lemma GroupsNext(timers: Timers, left: set<(Pid, string)>, deadline: real, expired: map<Pid, seq<TimerRequest>>, key: (Pid, string))
    requires Filed(timers) && left <= timers.Keys && key in left && Groups(timers, timers.Keys - left, deadline, expired)
    ensures Groups(timers, timers.Keys - (left - {key}), deadline,
                   if timers[key].expirationTime <= deadline then Appended(expired, timers[key]) else expired)
  {
    GroupsMore(timers, timers.Keys - left, deadline, expired, key);
    assert timers.Keys - left + {key} == timers.Keys - (left - {key});
  }

  lemma GroupsDone(timers: Timers, deadline: real, expired: map<Pid, seq<TimerRequest>>)
    requires Filed(timers) && Groups(timers, timers.Keys - {}, deadline, expired)
    ensures Groups(timers, timers.Keys, deadline, expired) && expired.Keys == ExpiredWorkers(timers, deadline)
  {
    assert timers.Keys - {} == timers.Keys;
    WorkersOfExpired(timers, deadline, expired);
  }

  lemma WorkersOfExpired(timers: Timers, deadline: real, expired: map<Pid, seq<TimerRequest>>)
    requires Filed(timers) && Groups(timers, timers.Keys, deadline, expired)
    ensures expired.Keys == ExpiredWorkers(timers, deadline)
  {
    forall pid | pid in expired
      ensures pid in ExpiredWorkers(timers, deadline)
    {
      var request := expired[pid][0];
      assert request in expired[pid];
      assert Expired(timers, (pid, request.scopeId), deadline);
    }
    forall key | key in timers && timers[key].expirationTime <= deadline
      ensures key.0 in expired
    {
      assert ExpiredUnder(timers, timers.Keys, timers[key], deadline);
    }
  }

  // --- The request queue -----------------------------------------------------------------------------------

  /** The time that the first `n` gets take. */
  function Elapsed(durations: nat -> real, n: nat): real
  {
    if n == 0 then 0.0 else Elapsed(durations, n - 1) + durations(n - 1)
  }

  /** All but the last of `n` gets end before the time is up. */
  ghost predicate InTime(durations: nat -> real, n: nat, timeout: real)
  {
    forall k: nat :: 1 <= k < n ==> Elapsed(durations, k) < timeout
  }

  /** How many requests `get(size, timeout)` returns: it stops when it has `size` requests, when
      the queue stays empty, or right after a request that used up the waiting time. */
  ghost predicate TakenInTime(n: nat, available: nat, size: nat, timeout: real, durations: nat -> real)
  {
    && n <= available && n <= size
    && InTime(durations, n, timeout)
    && (n == available || n == size || (n >= 1 && Elapsed(durations, n) >= timeout))
  }

  class MultiprocessingRequestQueue {
    var items: seq<TimerRequest>   // what is in the queue

    constructor (items: seq<TimerRequest>)
      ensures this.items == items
    {
      this.items := items;
    }

    method Size() returns (n: nat)
      ensures n == |items|
    {
      n := |items|;
    }

    /** Requests come out in the order in which they were put; `arriving` are those that are put
        after the caller asked for the size. */
    method Get(size: nat, timeout: real, durations: nat -> real, arriving: seq<TimerRequest>) returns (requests: seq<TimerRequest>)
      modifies this
      ensures requests + items == old(items) + arriving
      ensures TakenInTime(|requests|, |old(items)| + |arriving|, size, timeout, durations)
    {
      items := items + arriving;
      requests := [];
      var wait := timeout;
      for i := 0 to size
        invariant |requests| == i && requests + items == old(items) + arriving
        invariant wait == timeout - Elapsed(durations, i)
        invariant forall k :: 1 <= k <= i ==> Elapsed(durations, k) < timeout
      {
        if items == [] { break; }
        var r := items[0];
        items := items[1..];
        requests := requests + [r];
        wait := wait - durations(i);
        if wait <= 0.0 { break; }
      }
    }
  }

  /** A get that asks for `asked` of what is available yields at least `size` requests exactly if
      the first `size` gets, but for the last, end before the time is up. */
  lemma EnoughTaken(n: nat, available: nat, asked: nat, size: nat, timeout: real, durations: nat -> real)
    requires size <= asked && size <= available && TakenInTime(n, available, asked, timeout, durations)
    ensures size <= n <==> InTime(durations, size, timeout)
  {
    assert n < size ==> n >= 1 && Elapsed(durations, n) >= timeout;
  }

  /** The queue interface promises that a get of the queue's size with timeout 0 returns that many
      requests, and that a get of twice the size with timeout 1 returns between one and two times as
      many.  What more arrives in between does not matter; what matters is the time. */
  lemma FullGetCondition(n: nat, size: nat, arriving: nat, timeout: real, durations: nat -> real)
    requires TakenInTime(n, size + arriving, size, timeout, durations)
    ensures n == size <==> InTime(durations, size, timeout)
  {
    EnoughTaken(n, size + arriving, size, size, timeout, durations);
  }

  lemma DoubleGetCondition(n: nat, size: nat, arriving: nat, durations: nat -> real)
    requires TakenInTime(n, size + arriving, 2 * size, 1.0, durations)
    ensures size <= n <= 2 * size <==> InTime(durations, size, 1.0)
  {
    EnoughTaken(n, size + arriving, 2 * size, size, 1.0, durations);
  }

  /** With timeout 0 a get of two or more requests returns a single one. */
  lemma ZeroTimeoutReturnsOne(n: nat, size: nat, arriving: nat, durations: nat -> real)
    requires size >= 2 && durations(0) >= 0.0 && TakenInTime(n, size + arriving, size, 0.0, durations)
    ensures n == 1
  {
    assert Elapsed(durations, 1) == Elapsed(durations, 0) + durations(0);
  }

  // --- The server --------------------------------------------------------------------------------------------

  datatype ReapOutcome = Killed | NoSuchProcess | OtherError | Uncaught

  /** Try to reap each of the given workers, as `_reap_worker_no_throw` does: a process that does not
      exist counts as reaped, and so does one whose reaping raised an uncaught exception. */
  method ReapAll(pids: set<Pid>, reap: Pid -> ReapOutcome) returns (reaped: set<Pid>)
    ensures reaped == set pid | pid in pids && reap(pid) in {Killed, NoSuchProcess, Uncaught}
  {
    reaped := {};
    var rest := pids;
    while rest != {}
      invariant rest <= pids
      invariant forall pid :: pid in reaped <==> pid in pids && pid !in rest && reap(pid) in {Killed, NoSuchProcess, Uncaught}
      decreases |rest|
    {
      var pid :| pid in rest;
      rest := rest - {pid};
      if !reap(pid).OtherError? {
        reaped := reaped + {pid};
      }
    }
  }

  class LocalTimerServer {
    var timers: Timers
    const queue: MultiprocessingRequestQueue
    const maxInterval: real
    ghost var log: seq<LogItem>

    /** The map agrees with the log. */
    ghost predicate Valid()
      reads this
    {
      Agrees(timers, log) && Filed(timers)
    }

    constructor (queue: MultiprocessingRequestQueue, maxInterval: real)
      ensures Valid() && timers == map[] && log == [] && this.queue == queue
    {
      this.queue, this.maxInterval := queue, maxInterval;
      timers, log := map[], [];
    }

    method RegisterTimers(requests: seq<TimerRequest>)
      requires Valid()
      modifies this
      ensures Valid() && timers == RegisterAll(old(timers), requests) && log == old(log) + Requests(requests)
    {
      for i := 0 to |requests|
        invariant timers == RegisterAll(old(timers), requests[..i])
        invariant Filed(timers) && log == old(log)
      {
        var request := requests[i];
        var key := (request.workerId, request.scopeId);
        assert requests[..i + 1][..i] == requests[..i];
        if request.expirationTime < 0.0 {
          timers := timers - {key};
        } else {
          timers := timers[key := request];
        }
      }
      assert requests[..|requests|] == requests;
      RegisterAllAgrees(old(timers), old(log), requests);
      log := log + Requests(requests);
    }

    method ClearTimers(workerIds: set<Pid>)
      requires Valid()
      modifies this
      ensures Valid() && timers == Cleared(old(timers), workerIds) && log == old(log) + [Reaped(workerIds)]
    {
      var keys := timers.Keys;
      while keys != {}
        invariant keys <= timers.Keys && timers.Keys <= old(timers).Keys && log == old(log)
        invariant forall key :: key in timers ==> timers[key] == old(timers)[key]
        invariant forall key :: key in old(timers) && key !in keys ==> (key in timers <==> key.0 !in workerIds)
        decreases |keys|
      {
        var key :| key in keys;
        keys := keys - {key};
        if key.0 in workerIds {
          timers := timers - {key};
        }
      }
      assert timers == Cleared(old(timers), workerIds);
      ClearedAgrees(old(timers), old(log), workerIds);
      log := log + [Reaped(workerIds)];
    }

    /** Worker -> its expired timers, for exactly the workers that have some. */
    method GetExpiredTimers(deadline: real) returns (expired: map<Pid, seq<TimerRequest>>)
      requires Valid()
      ensures expired.Keys == ExpiredWorkers(timers, deadline)
      ensures Groups(timers, timers.Keys, deadline, expired)
    {
      expired := map[];
      var keys := timers.Keys;
      while keys != {}
        invariant keys <= timers.Keys && Groups(timers, timers.Keys - keys, deadline, expired)
        decreases |keys|
      {
        var key :| key in keys;
        var request := timers[key];
        GroupsNext(timers, keys, deadline, expired, key);
        keys := keys - {key};
        if request.expirationTime <= deadline {
          expired := Appended(expired, request);
        }
      }
      GroupsDone(timers, deadline, expired);
    }

    /** One pass: register a batch of requests, then try to reap exactly the workers that have an
        expired timer, and drop the timers of those that were reaped. */
    method RunWatchdog(now: real, reap: Pid -> ReapOutcome, durations: nat -> real, arriving: seq<TimerRequest>)
      returns (ghost requests: seq<TimerRequest>, attempted: set<Pid>, reaped: set<Pid>)
      requires Valid()
      modifies this, queue
      ensures Valid() && requests + queue.items == old(queue.items) + arriving
      ensures TakenInTime(|requests|, |old(queue.items)| + |arriving|, if old(queue.items) == [] then 1 else |old(queue.items)|, maxInterval, durations)
      ensures log == old(log) + Requests(requests) + [Reaped(reaped)]
      ensures attempted == ExpiredWorkers(RegisterAll(old(timers), requests), now)
      ensures forall pid :: pid in attempted <==> exists scope :: DueInLog(old(log) + Requests(requests), pid, scope, now)
      ensures reaped == set pid | pid in attempted && reap(pid) in {Killed, NoSuchProcess, Uncaught}
      ensures timers == Cleared(RegisterAll(old(timers), requests), reaped)
      ensures forall key :: Expired(timers, key, now) ==> key.0 in attempted && reap(key.0) == OtherError
      ensures old(queue.items) + arriving != [] ==> requests != []
    {
      var n := queue.Size();
      var batch := queue.Get(if n > 1 then n else 1, maxInterval, durations, arriving);
      requests := batch;
      RegisterTimers(batch);
      var expired := GetExpiredTimers(now);
      attempted := expired.Keys;
      ExpiredInLog(timers, log, now);
      reaped := ReapAll(attempted, reap);
      LeftOver(timers, reaped, now, reap);
      ClearTimers(reaped);
    }
  }

  /** Expired timers that a pass leaves over belong to workers whose reaping failed. */
  lemma LeftOver(timers: Timers, reaped: set<Pid>, now: real, reap: Pid -> ReapOutcome)
    requires reaped == set pid | pid in ExpiredWorkers(timers, now) && reap(pid) in {Killed, NoSuchProcess, Uncaught}
    ensures forall key :: Expired(Cleared(timers, reaped), key, now) ==> key.0 in ExpiredWorkers(timers, now) && reap(key.0) == OtherError
  {
  }
}
