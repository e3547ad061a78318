// The rendezvous code itself, as one worker executes it, with its loops and early exits, against
// a cluster that all other workers and the clock keep changing in between.  A method that verifies
// is a run of the step system, so every guarantee about runs applies to it.  Beyond that, each
// method says exactly what comes out when nobody else moves during the call.

module RendezvousBarrier {
  import opened Outcomes
  import opened RendezvousState
  import opened RendezvousProtocol
  import opened RendezvousGuarantees
  import opened RendezvousCluster
  import R = RoleRanks
  import E = EndToEnd

  /** Exceptions, by how `rendezvous_barrier` reacts to them. */
  datatype Signal =
    | RetryImmediately
    | RetryableFailure
    | OtherError            // e.g. key not found, compare failed; retried after a delay
    | RendezvousClosed
    | RendezvousTimeout
    | NonRetryable

  datatype Membership = Membership(v: Version, rank: nat, size: nat)

  // --- What happened in a trace --------------------------------------------------------------------

  /** The key is joinable at `v` after the given actions. */
  ghost predicate JoinableAfter(cfg: Config, workers: nat, trace: seq<Action>, v: Version)
  {
    var active := Exec(cfg, Init(workers), trace).server.active;
    active.Some? && active.value.value.Joinable? && active.value.value.version == v
  }

  /** Action `k` confirms the membership `seat` of worker `me`. */
  ghost predicate ConfirmsAt(cfg: Config, workers: nat, me: WorkerId, trace: seq<Action>, k: nat, seat: Seat)
    requires me < workers && k < |trace|
  {
    && trace[k].Step? && trace[k].w == me
    && (match Exec(cfg, Init(workers), trace[..k]).pcs[me]
        case ConfirmCas(v, rank, _) => seat == Seat(v, rank)
        case _ => false)
    && Exec(cfg, Init(workers), trace[..k + 1]).pcs[me] == FinalRead(seat.version, seat.rank)
  }

  ghost predicate ConfirmedSince(cfg: Config, workers: nat, me: WorkerId, trace: seq<Action>, from: nat, seat: Seat)
    requires me < workers
  {
    exists k :: from <= k < |trace| && ConfirmsAt(cfg, workers, me, trace, k, seat)
  }

  /** The last action of a trace is a confirmation. */
  lemma JustConfirmed(cfg: Config, workers: nat, me: WorkerId, trace: seq<Action>, from: nat, v: Version, rank: nat, snap: Value)
    requires me < workers && from < |trace| && trace[|trace| - 1].Step? && trace[|trace| - 1].w == me
    requires Exec(cfg, Init(workers), trace[..|trace| - 1]).pcs[me] == ConfirmCas(v, rank, snap)
    requires Exec(cfg, Init(workers), trace).pcs[me] == FinalRead(v, rank)
    ensures ConfirmedSince(cfg, workers, me, trace, from, Seat(v, rank))
  {
    var k := |trace| - 1;
    assert trace[..k + 1] == trace;
    assert ConfirmsAt(cfg, workers, me, trace, k, Seat(v, rank));
  }

  lemma StillConfirmed(cfg: Config, workers: nat, me: WorkerId, trace: seq<Action>, more: seq<Action>, from: nat, seat: Seat)
    requires me < workers && trace <= more && ConfirmedSince(cfg, workers, me, trace, from, seat)
    ensures ConfirmedSince(cfg, workers, me, more, from, seat)
  {
    var k :| from <= k < |trace| && ConfirmsAt(cfg, workers, me, trace, k, seat);
    assert more[..k] == trace[..k] && more[..k + 1] == trace[..k + 1];
    assert ConfirmsAt(cfg, workers, me, more, k, seat);
  }

  /** Action `k` of worker `me` raises the waiting count of the final version `v` by one. */
  ghost predicate AnnouncesAt(cfg: Config, workers: nat, me: WorkerId, trace: seq<Action>, k: nat, v: Version)
    requires k < |trace|
  {
    && trace[k].Step? && trace[k].w == me
    && match Exec(cfg, Init(workers), trace[..k]).server.active
       case Some(Node(Final(v', ps, ka, n), _)) =>
         v' == v && Exec(cfg, Init(workers), trace[..k + 1]).server.active == Some(Node(Final(v, ps, ka, n + 1), false))
       case _ => false
  }

  ghost predicate AnnouncedSince(cfg: Config, workers: nat, me: WorkerId, trace: seq<Action>, from: nat, v: Version)
  {
    exists k :: from <= k < |trace| && AnnouncesAt(cfg, workers, me, trace, k, v)
  }

  lemma JustAnnounced(cfg: Config, workers: nat, me: WorkerId, trace: seq<Action>, from: nat, state: Value)
    requires from < |trace| && trace[|trace| - 1].Step? && trace[|trace| - 1].w == me && state.Final?
    requires
      var active := Exec(cfg, Init(workers), trace[..|trace| - 1]).server.active;
      active.Some? && active.value.value == state
    requires Exec(cfg, Init(workers), trace).server.active == Some(Node(state.(waiting := state.waiting + 1), false))
    ensures AnnouncedSince(cfg, workers, me, trace, from, state.version)
  {
    var k := |trace| - 1;
    assert trace[..k + 1] == trace;
    assert AnnouncesAt(cfg, workers, me, trace, k, state.version);
  }

  lemma StillAnnounced(cfg: Config, workers: nat, me: WorkerId, trace: seq<Action>, more: seq<Action>, from: nat, v: Version)
    requires trace <= more && AnnouncedSince(cfg, workers, me, trace, from, v)
    ensures AnnouncedSince(cfg, workers, me, more, from, v)
  {
    var k :| from <= k < |trace| && AnnouncesAt(cfg, workers, me, trace, k, v);
    assert more[..k] == trace[..k] && more[..k + 1] == trace[..k + 1];
    assert AnnouncesAt(cfg, workers, me, more, k, v);
  }

  /** The document lists the keep-alive of a member. */
  predicate Listed(value: Value, seat: Seat)
  {
    (value.Frozen? || value.Final?) && seat in value.keepAlives
  }

  // --- What comes of a call when nobody else moves -----------------------------------------------------

  /** Does a version freeze when its `n`-th participant joins?  It does if it is full, or if that
      participant has last-call duty and time for it. */
  predicate FreezesAlone(cfg: Config, lastCall: nat, n: nat, ticks: nat)
  {
    n == cfg.max || (n == cfg.min && lastCall <= ticks)
  }

  /** Confirming in a version where `confirmed` members have done so: it becomes final if this is the
      last one. */
  function ConfirmsAlone(v: Version, rank: nat, members: nat, confirmed: nat): Result<Membership, Signal>
  {
    if confirmed + 1 == members then Ok(Membership(v, rank, members)) else Raise(RendezvousTimeout)
  }

  /** Joining a version that has `n` participants: the membership of a version of one, or a timeout. */
  function JoinsAlone(cfg: Config, lastCall: nat, v: Version, n: nat, ticks: nat): Result<Membership, Signal>
  {
    if n == 0 && FreezesAlone(cfg, lastCall, 1, ticks) then Ok(Membership(v, 0, 1)) else Raise(RendezvousTimeout)
  }

  ghost predicate Waits(server: Server)
  {
    server.active.Some? && (server.active.value.value.Setup? || server.active.value.value.Frozen?)
  }

  /** The final version of `was` is still there, with one more worker waiting. */
  ghost predicate OneMoreWaits(was: Server, now: Server)
    requires was.active.Some? && was.active.value.value.Final?
  {
    var value := was.active.value.value;
    now.active.Some? && now.active.value.value == value.(waiting := value.waiting + 1)
  }

  /** Nothing but the waiting count has changed. */
  ghost predicate Announces(was: Server, now: Server)
    requires was.active.Some? && was.active.value.value.Final?
  {
    OneMoreWaits(was, now) && now.leases == was.leases && now.counter == was.counter
  }

  /** One attempt: a missing key is created and joined, a closed one reported, a joinable version
      joined, an abandoned one destroyed after announcing to wait, one that is alive waited for, and
      anything else left alone. */
  ghost predicate AttemptsAlone(cfg: Config, lastCall: nat, was: Server, ticks: nat, now: Server, left: nat, r: Result<Membership, Signal>)
  {
    match was.active
    case None => r == JoinsAlone(cfg, lastCall, was.counter + 1, 0, ticks)
    case Some(Node(Closed(_), _)) => r == Raise(RendezvousClosed)
    case Some(Node(Joinable(v, ps), _)) => r == JoinsAlone(cfg, lastCall, v, |ps|, ticks)
    case Some(Node(Final(_, _, _, _), _)) =>
      if IsAbandoned(was) then r == Raise(RetryImmediately) && now.active == None && left == ticks && now.counter == was.counter
      else r == Raise(RendezvousTimeout) && OneMoreWaits(was, now)
    case _ => now == was && r == Raise(if ticks == 0 then RendezvousTimeout else RetryableFailure)
  }

  /** The whole barrier call. */
  ghost predicate ReturnsAlone(cfg: Config, lastCall: nat, timeout: nat, was: Server, now: Server, r: Result<Membership, Signal>)
  {
    match was.active
    case None => r == JoinsAlone(cfg, lastCall, was.counter + 1, 0, timeout)
    case Some(Node(Closed(_), _)) => r == Raise(RendezvousClosed)
    case Some(Node(Joinable(v, ps), _)) => r == JoinsAlone(cfg, lastCall, v, |ps|, timeout)
    case Some(Node(Final(_, _, _, _), _)) =>
      if !IsAbandoned(was) then r == Raise(RendezvousTimeout) && OneMoreWaits(was, now)
      else if timeout == 0 then r == Raise(RendezvousTimeout) && now.active == None
      else r == JoinsAlone(cfg, lastCall, was.counter + 1, 0, timeout - 1)
    case _ => now == was && r == Raise(RendezvousTimeout)
  }

  /** Where the loop of the barrier stands: at its first round, waiting for a setup or a frozen
      version to go away, or after destroying an abandoned one. */
  ghost predicate RetriesAlone(timeout: nat, was: Server, now: Server, left: nat)
  {
    || (now == was && (left == timeout || Waits(was)))
    || (IsAbandoned(was) && now.active == None && now.counter == was.counter && left == timeout - 1)
  }

  predicate IsRetry(r: Result<Membership, Signal>)
  {
    r.Raise? && (r.error.RetryImmediately? || r.error.RetryableFailure? || r.error.OtherError?)
  }

  /** One round of the loop, from `before` with `ticks` to `after` with `left`. */
  lemma RoundAlone(cfg: Config, lastCall: nat, timeout: nat, was: Server, before: Server, ticks: nat, after: Server, left: nat,
                   r: Result<Membership, Signal>)
    requires RetriesAlone(timeout, was, before, ticks) && AttemptsAlone(cfg, lastCall, before, ticks, after, left, r)
    ensures !IsRetry(r) ==> ReturnsAlone(cfg, lastCall, timeout, was, after, r)
    ensures IsRetry(r) && left == 0 ==> ReturnsAlone(cfg, lastCall, timeout, was, after, Raise(RendezvousTimeout))
    ensures IsRetry(r) && left > 0 ==> RetriesAlone(timeout, was, after, left - 1)
  {
  }

  class EtcdRendezvous {
    const cluster: Cluster
    const me: WorkerId
    const timeout: nat                // clock ticks that one barrier call may take
    const lastCallTimeout: nat        // clock ticks that the last-call window takes
    var leaseThisRank: Option<Seat>   // the lease that a background thread renews

    constructor (cluster: Cluster, me: WorkerId, timeout: nat, lastCallTimeout: nat)
      ensures this.cluster == cluster && this.me == me && leaseThisRank == None
      ensures this.timeout == timeout && this.lastCallTimeout == lastCallTimeout
    {
      this.cluster, this.me, this.timeout, this.lastCallTimeout := cluster, me, timeout, lastCallTimeout;
      leaseThisRank := None;
    }

    // --- Where the worker stands, and what the key says ----------------------------------------------

    ghost predicate At(pc: Pc)
      reads this, cluster
    {
      cluster.Valid(me) && cluster.pcs[me] == pc
    }

    predicate Missing()
      reads cluster
    {
      cluster.server.active.None?
    }

    /** The document under the key, if there is one. */
    function Status(): Option<Value>
      reads cluster
    {
      if Missing() then None else Some(Key())
    }

    function Key(): Value
      reads cluster
      requires !Missing()
    {
      cluster.server.active.value.value
    }

    predicate JoinableAt(v: Version)
      reads cluster
    {
      !Missing() && Key().Joinable? && Key().version == v
    }

    predicate FrozenAt(v: Version)
      reads cluster
    {
      !Missing() && Key().Frozen? && Key().version == v
    }

    predicate FinalAt(v: Version)
      reads cluster
    {
      !Missing() && Key().Final? && Key().version == v
    }

    /** The number of participants that the key lists. */
    function Members(): nat
      reads cluster
      requires !Missing() && (Key().Joinable? || Key().Frozen? || Key().Final?)
    {
      |Key().participants|
    }

    /** A later moment of the same call. */
    twostate predicate Later()
      reads cluster
    {
      && old(cluster.trace) <= cluster.trace && |cluster.pending| <= |old(cluster.pending)|
      && cluster.ticks <= old(cluster.ticks)
    }

    /** Nobody else moved in between. */
    twostate predicate Undisturbed()
      reads cluster
    {
      |cluster.pending| == |old(cluster.pending)|
    }

    /** The key was joinable at `v` at some moment since the trace had length `from`. */
    ghost predicate SawJoinable(from: nat, v: Version)
      reads cluster
    {
      exists k :: from <= k <= |cluster.trace| && JoinableAfter(cluster.cfg, cluster.workers, cluster.trace[..k], v)
    }

    lemma Remember(from: nat, seen: seq<Action>, v: Version)
      requires from <= |seen| && seen <= cluster.trace && JoinableAfter(cluster.cfg, cluster.workers, seen, v)
      ensures SawJoinable(from, v)
    {
      assert cluster.trace[..|seen|] == seen;
    }

    ghost predicate Confirmed(from: nat, seat: Seat)
      reads this, cluster
    {
      me < cluster.workers && ConfirmedSince(cluster.cfg, cluster.workers, me, cluster.trace, from, seat)
    }

    ghost predicate Announced(from: nat, v: Version)
      reads this, cluster
    {
      AnnouncedSince(cluster.cfg, cluster.workers, me, cluster.trace, from, v)
    }

    /** The lease that is renewed, if any, was confirmed since the trace had length `from`. */
    ghost predicate LeaseIsNew(from: nat)
      reads this, cluster
    {
      leaseThisRank.Some? ==> Confirmed(from, leaseThisRank.value)
    }

    /** An exception that takes the worker back to the head of the barrier's loop. */
    ghost predicate Retried(signal: Signal)
      reads this, cluster
    {
      At(Enter) && (signal.RetryImmediately? || signal.RetryableFailure? || signal.OtherError?)
    }

    /** A timeout, which happens only when the time is up. */
    ghost predicate TimedOut(signal: Signal)
      reads this, cluster
    {
      signal.RendezvousTimeout? && At(Idle) && cluster.ticks == 0
    }

    ghost predicate FoundClosed(signal: Signal)
      reads this, cluster
    {
      signal.RendezvousClosed? && At(Idle) && IsClosed(System(cluster.server, cluster.pcs))
    }

    /** Wait for a change; a timeout takes the worker out of its call. */
    method TryWaitForStateChange() returns (expired: bool)
      requires cluster.Valid(me) && MayTimeOut(cluster.pcs[me])
      modifies cluster
      ensures Later() && At(if expired then Idle else old(cluster.pcs[me])) && (expired ==> cluster.ticks == 0)
      ensures !expired ==> |cluster.pending| + cluster.ticks < |old(cluster.pending)| + old(cluster.ticks)
      ensures Undisturbed() ==> cluster.server == old(cluster.server)
      ensures if expired then old(cluster.ticks) == 0 else cluster.ticks == old(cluster.ticks) - 1
    {
      expired := cluster.Watch(me);
      if expired {
        cluster.Leave(me);
      }
    }

    // --- Creating a version ----------------------------------------------------------------------------

    /** Increment the version counter; `None`: another worker's increment came in between. */
    method CountUp() returns (v: Option<Version>)
      requires At(ReadCounter)
      modifies cluster
      ensures Later() && cluster.ticks == old(cluster.ticks) && At(if v.Some? then MakeDir(v.value) else Idle)
      ensures v.None? ==> !Undisturbed()
      ensures v.Some? ==> cluster.server.counter == v.value
      ensures Undisturbed() ==> cluster.server == old(cluster.server).(counter := old(cluster.server.counter) + 1)
    {
      var counter := cluster.GetCounter(me);
      var updated := cluster.UpdateCounter(me, counter);
      v := if updated then Some(counter + 1) else None;
    }

    /** Create the key, draw a version number and make its directory, which is always new.
        `Ok(None)`: the key exists already. */
    method DrawVersion() returns (r: Result<Option<Version>, Signal>)
      requires At(Enter)
      modifies cluster
      ensures Later() && cluster.ticks == old(cluster.ticks)
      ensures match r
              case Ok(Some(v)) => At(Publish(v))
              case Ok(None) => At(Inspect)
              case Raise(signal) => signal.NonRetryable? && At(Idle) && !Undisturbed()
      ensures Undisturbed() && !old(Missing()) ==> r == Ok(None) && cluster.server == old(cluster.server)
      ensures Undisturbed() && old(Missing()) ==>
                && r == Ok(Some(old(cluster.server.counter) + 1)) && !Missing() && Key() == Setup
                && cluster.server.leases == old(cluster.server.leases)
    {
      var created := cluster.CreateActive(me);
      if !created { return Ok(None); }
      var v := CountUp();
      if v.None? { return Raise(NonRetryable); }
      var dir := cluster.MakeDir(me, v.value);
      return Ok(if dir then v else None);
    }

    /** Create new rendezvous state.  `Ok(None)`: it exists already. */
    method TryCreateRendezvous() returns (r: Result<Option<Version>, Signal>)
      requires At(Enter)
      modifies cluster
      ensures Later() && cluster.ticks == old(cluster.ticks)
      ensures match r
              case Ok(Some(v)) => At(JoinRead(v)) && JoinableAt(v) && Members() == 0
              case Ok(None) => At(Inspect)
              case Raise(OtherError) => At(Enter) && (Missing() || !Key().Setup?) && !Undisturbed()
              case Raise(signal) => signal.NonRetryable? && At(Idle) && !Undisturbed()
      ensures Undisturbed() && !old(Missing()) ==> r == Ok(None) && cluster.server == old(cluster.server)
      ensures Undisturbed() && old(Missing()) ==> r == Ok(Some(old(cluster.server.counter) + 1))
    {
      r := DrawVersion();
      if r.Ok? && r.value.Some? {
        var outcome := cluster.TestAndSet(me, Setup, Joinable(r.value.value, []), false);
        if outcome != Swapped { return Raise(OtherError); }
      }
    }

    // --- Joining ---------------------------------------------------------------------------------------

    /** A joinable version always has room. */
    lemma HasRoom(v: Version)
      requires cluster.Valid(me) && JoinableAt(v)
      ensures Members() < cluster.cfg.max
    {
      assert cluster.trace[..|cluster.trace|] == cluster.trace;
      MembershipShape(cluster.cfg, cluster.workers, cluster.trace, |cluster.trace|);
    }

    /** One attempt: append the next rank to the participants that were read. */
    method TryJoin(v: Version, state: Value) returns (outcome: SwapOutcome, rank: nat, joinable: bool)
      requires At(JoinCas(v, state)) && state.Joinable? && state.version == v && |state.participants| < cluster.cfg.max
      modifies cluster
      ensures Later() && cluster.ticks == old(cluster.ticks)
      ensures rank == |state.participants| && (joinable <==> rank + 1 != cluster.cfg.max)
      ensures match outcome
              case Swapped =>
                && At(if rank + 1 == cluster.cfg.min && joinable then LastCallRead(v, rank) else PeersRead(v, rank))
                && Status() == Some(if joinable then Joinable(v, state.participants + [rank]) else Frozen(v, state.participants + [rank], []))
              case CompareFailed => At(JoinRead(v))
              case KeyNotFound => At(Enter) && Missing()
      ensures Undisturbed() && old(Status()) == Some(state) ==> outcome == Swapped
    {
      rank := |state.participants|;
      var participants := state.participants + [rank];
      var next, ttl;
      if |participants| == cluster.cfg.max {
        next, ttl := Frozen(v, participants, []), true;
      } else if |participants| >= cluster.cfg.min {
        next, ttl := Joinable(v, participants), true;
      } else {
        next, ttl := Joinable(v, participants), false;
      }
      joinable := next.Joinable?;
      outcome := cluster.TestAndSet(me, state, next, ttl);
    }

    /** Join the expected version by compare-and-swap; returns the rank and whether it is still joinable. */
    method JoinRendezvous(v: Version) returns (r: Result<(nat, bool), Signal>)
      requires At(JoinRead(v))
      modifies cluster
      ensures Later() && cluster.ticks == old(cluster.ticks)
      ensures match r
              case Ok((rank, joinable)) =>
                && At(if rank + 1 == cluster.cfg.min && joinable then LastCallRead(v, rank) else PeersRead(v, rank))
                && (if joinable then JoinableAt(v) else FrozenAt(v) && Key().keepAlives == [])
                && Members() == rank + 1 && (joinable <==> rank + 1 != cluster.cfg.max)
              case Raise(RetryableFailure) => Retried(RetryableFailure) && !Missing() && !Key().Joinable?
              case Raise(RetryImmediately) => Retried(RetryImmediately) && !Missing() && Key().Joinable? && !JoinableAt(v)
              case Raise(signal) => Retried(signal) && Missing()
      ensures Undisturbed() ==> if r.Ok? then old(JoinableAt(v)) && r.value.0 == old(Members())
                                else cluster.server.active == old(cluster.server.active)
    {
      while true
        invariant At(JoinRead(v)) && Later() && cluster.ticks == old(cluster.ticks)
        invariant Undisturbed() ==> cluster.server.active == old(cluster.server.active)
        decreases |cluster.pending|
      {
        var node := cluster.Get(me);
        if node.None? { return Raise(OtherError); }
        var state := node.value.value;
        if !state.Joinable? { return Raise(RetryableFailure); }
        if state.version != v { return Raise(RetryImmediately); }
        HasRoom(v);
        assert |state.participants| < cluster.cfg.max;
        var outcome, rank, joinable := TryJoin(v, state);
        if outcome == Swapped { return Ok((rank, joinable)); }
        if outcome == KeyNotFound { return Raise(OtherError); }
      }
    }

    /** The window is over: freeze, if the version is still what was read. */
    method FreezeNow(v: Version, rank: nat, state: Value) returns (outcome: SwapOutcome)
      requires At(LastCallCas(v, rank, state)) && state.Joinable? && state.version == v && !Missing() && Key() == state
      modifies cluster
      ensures Later() && cluster.ticks == old(cluster.ticks)
      ensures At(AfterSwap(outcome, PeersRead(v, rank), LastCallRead(v, rank), Enter))
      ensures match outcome
              case Swapped => !Missing() && Key() == Frozen(v, state.participants, [])
              case CompareFailed => !Undisturbed()
              case KeyNotFound => Missing() && !Undisturbed()
    {
      outcome := cluster.TestAndSet(me, state, Frozen(v, state.participants, []), true, true);
    }

    /** The window is not over: refresh the TTL, and wait for a change. */
    method RefreshAndWait(v: Version, rank: nat, state: Value) returns (signal: Option<Signal>)
      requires At(LastCallCas(v, rank, state)) && state.Joinable? && state.version == v && !Missing() && Key() == state
      modifies cluster
      ensures Later()
      ensures match signal
              case None =>
                && At(LastCallRead(v, rank)) && |cluster.pending| + cluster.ticks < |old(cluster.pending)| + old(cluster.ticks)
                && cluster.ticks >= old(cluster.ticks) - 1
              case Some(OtherError) => At(Enter) && Missing() && !Undisturbed()
              case Some(signal) => TimedOut(signal) && old(cluster.ticks) == 0
      ensures Undisturbed() ==> !Missing() && Key() == state
    {
      var outcome := cluster.TestAndSet(me, state, state, true);
      if outcome == KeyNotFound { return Some(OtherError); }
      if outcome == Swapped {
        var expired := TryWaitForStateChange();
        if expired { return Some(RendezvousTimeout); }
      }
      return None;
    }

    /** One round of the last call: `None` if the version is still joinable and the window not over. */
    method LastCallRound(v: Version, rank: nat, deadline: int) returns (r: Option<Result<(), Signal>>)
      requires At(LastCallRead(v, rank))
      modifies cluster
      ensures Later()
      ensures match r
              case None => At(LastCallRead(v, rank)) && |cluster.pending| + cluster.ticks < |old(cluster.pending)| + old(cluster.ticks)
              case Some(Ok(_)) => At(PeersRead(v, rank)) && FrozenAt(v) && cluster.ticks == old(cluster.ticks)
              case Some(Raise(RetryableFailure)) => At(Enter) && !Missing() && !FrozenAt(v) && !JoinableAt(v)
              case Some(Raise(OtherError)) => At(Enter) && Missing()
              case Some(Raise(signal)) => TimedOut(signal) && deadline < 0
      ensures Undisturbed() ==>
                && (r == Some(Ok(())) <==> old(FrozenAt(v)) || (old(JoinableAt(v)) && old(cluster.ticks) <= deadline))
                && (r in {None, Some(Raise(RendezvousTimeout))} ==> old(JoinableAt(v)))
                && (r == None ==> cluster.ticks == old(cluster.ticks) - 1 >= deadline)
                && Status() == if r == Some(Ok(())) && old(JoinableAt(v)) then Some(Frozen(v, old(Key()).participants, []))
                               else old(Status())
    {
      var node := cluster.Get(me);
      if node.None? { return Some(Raise(OtherError)); }
      var state := node.value.value;
      if state.Frozen? && state.version == v { return Some(Ok(())); }
      if !state.Joinable? || state.version != v { return Some(Raise(RetryableFailure)); }
      if cluster.ticks <= deadline {
        var outcome := FreezeNow(v, rank, state);
        return match outcome case Swapped => Some(Ok(())) case CompareFailed => None case KeyNotFound => Some(Raise(OtherError));
      }
      var signal := RefreshAndWait(v, rank, state);
      return if signal.Some? then Some(Raise(signal.value)) else None;
    }

    /** Wait out the last-call window, refreshing the TTL, and freeze at its deadline (in ticks left
        on the clock), not before it and not later. */
    method HandleJoinLastCall(v: Version, rank: nat, deadline: int) returns (r: Result<(), Signal>)
      requires At(LastCallRead(v, rank))
      modifies cluster
      ensures Later()
      ensures match r
              case Ok(_) =>
                && At(PeersRead(v, rank)) && FrozenAt(v)
                && (cluster.ticks <= deadline || !Undisturbed() || old(FrozenAt(v)))
              case Raise(RetryableFailure) => At(Enter) && !Missing() && !FrozenAt(v) && !JoinableAt(v)
              case Raise(OtherError) => At(Enter) && Missing()
              case Raise(signal) => TimedOut(signal) && deadline < 0 && (Undisturbed() ==> old(JoinableAt(v)))
      ensures Undisturbed() && old(FrozenAt(v)) ==> r.Ok? && Status() == old(Status()) && cluster.ticks == old(cluster.ticks)
      ensures Undisturbed() && old(JoinableAt(v)) ==>
                if deadline < 0 then r == Raise(RendezvousTimeout) && Status() == old(Status())
                else r.Ok? && Status() == Some(Frozen(v, old(Key()).participants, []))
                     && cluster.ticks == if old(cluster.ticks) <= deadline then old(cluster.ticks) else deadline
    {
      while true
        invariant At(LastCallRead(v, rank)) && Later()
        invariant Undisturbed() ==> Status() == old(Status())
        invariant Undisturbed() ==> cluster.ticks == old(cluster.ticks) || (old(JoinableAt(v)) && cluster.ticks >= deadline)
        decreases |cluster.pending| + cluster.ticks
      {
        var round := LastCallRound(v, rank, deadline);
        if round.Some? { return round.value; }
      }
    }

    /** Wait until the expected version is frozen. */
    method WaitForPeers(v: Version, rank: nat) returns (r: Result<(), Signal>)
      requires At(PeersRead(v, rank))
      modifies cluster
      ensures Later()
      ensures match r
              case Ok(_) => At(ConfirmRead(v, rank)) && FrozenAt(v)
              case Raise(RetryableFailure) => Retried(RetryableFailure) && !Missing() && !FrozenAt(v) && !JoinableAt(v)
              case Raise(OtherError) => At(Enter) && Missing()
              case Raise(signal) => TimedOut(signal) && (Undisturbed() ==> old(JoinableAt(v)))
      ensures Undisturbed() ==> cluster.server == old(cluster.server)
      ensures Undisturbed() && old(FrozenAt(v)) ==> r.Ok? && cluster.ticks == old(cluster.ticks)
      ensures Undisturbed() && old(JoinableAt(v)) ==> r == Raise(RendezvousTimeout)
    {
      while true
        invariant At(PeersRead(v, rank)) && Later()
        invariant Undisturbed() ==> cluster.server == old(cluster.server)
        invariant Undisturbed() && old(FrozenAt(v)) ==> cluster.ticks == old(cluster.ticks)
        decreases |cluster.pending| + cluster.ticks
      {
        var node := cluster.Get(me);
        if node.None? { return Raise(OtherError); }
        var state := node.value.value;
        if state.Frozen? && state.version == v { return Ok(()); }
        if !state.Joinable? || state.version != v { return Raise(RetryableFailure); }
        var expired := TryWaitForStateChange();
        if expired { return Raise(RendezvousTimeout); }
      }
    }

    /** Wait out the last call if that is this worker's duty, and wait for the freeze. */
    method WaitForFreeze(v: Version, rank: nat, joinable: bool) returns (r: Result<(), Signal>)
      requires At(if rank + 1 == cluster.cfg.min && joinable then LastCallRead(v, rank) else PeersRead(v, rank))
      modifies cluster
      ensures Later()
      ensures match r
              case Ok(_) => At(ConfirmRead(v, rank)) && FrozenAt(v)
              case Raise(RetryableFailure) => Retried(RetryableFailure) && !Missing() && !FrozenAt(v) && !JoinableAt(v)
              case Raise(OtherError) => At(Enter) && Missing()
              case Raise(signal) => TimedOut(signal)
      ensures Undisturbed() && old(FrozenAt(v)) ==> r.Ok? && Status() == old(Status()) && cluster.ticks == old(cluster.ticks)
      ensures Undisturbed() && old(JoinableAt(v)) ==>
                if rank + 1 == cluster.cfg.min && joinable && lastCallTimeout <= old(cluster.ticks)
                then r.Ok? && Status() == Some(Frozen(v, old(Key()).participants, []))
                     && cluster.ticks == old(cluster.ticks) - lastCallTimeout
                else r == Raise(RendezvousTimeout)
    {
      if rank + 1 == cluster.cfg.min && joinable {
        r := HandleJoinLastCall(v, rank, cluster.ticks - lastCallTimeout);
        if r.Raise? { return; }
      }
      r := WaitForPeers(v, rank);
    }

    method JoinAndFreeze(v: Version) returns (r: Result<nat, Signal>)
      requires At(JoinRead(v))
      modifies cluster
      ensures Later()
      ensures match r
              case Ok(rank) => At(ConfirmRead(v, rank)) && FrozenAt(v)
              case Raise(OtherError) => At(Enter) && Missing()
              case Raise(signal) => TimedOut(signal) || (Retried(signal) && !Missing() && !JoinableAt(v))
      ensures Undisturbed() && old(JoinableAt(v)) ==>
                if FreezesAlone(cluster.cfg, lastCallTimeout, old(Members()) + 1, old(cluster.ticks))
                then r == Ok(old(Members())) && Members() == old(Members()) + 1 && Key().keepAlives == []
                else r == Raise(RendezvousTimeout)
    {
      var joined := JoinRendezvous(v);
      if joined.Raise? { return Raise(joined.error); }
      var rank := joined.value.0;
      var frozen := WaitForFreeze(v, rank, joined.value.1);
      return if frozen.Raise? then Raise(frozen.error) else Ok(rank);
    }

    // --- Confirming ------------------------------------------------------------------------------------

    /** Append the own keep-alive to those that were read, finalizing if it is the last one. */
    method SwapConfirmation(v: Version, rank: nat, state: Value, ghost from: nat) returns (outcome: SwapOutcome)
      requires from <= |cluster.trace| && state.Frozen? && state.version == v && At(ConfirmCas(v, rank, state))
      modifies cluster
      ensures Later() && cluster.ticks == old(cluster.ticks)
      ensures At(AfterSwap(outcome, FinalRead(v, rank), ConfirmRead(v, rank), Enter))
      ensures Undisturbed() && old(Status()) == Some(state) ==> outcome == Swapped
      ensures outcome == Swapped ==>
                Status() == Some(ConfirmValue(state, Seat(v, rank)).value) && Confirmed(from, Seat(v, rank))
      ensures outcome == KeyNotFound ==> Missing()
    {
      var keepAlives := state.keepAlives + [Seat(v, rank)];
      var finalize := |keepAlives| == |state.participants|;
      var next := if finalize then Final(v, state.participants, keepAlives, 0) else Frozen(v, state.participants, keepAlives);
      outcome := cluster.TestAndSet(me, state, next, !finalize);
      if outcome == Swapped {
        JustConfirmed(cluster.cfg, cluster.workers, me, cluster.trace, from, v, rank, state);
      }
    }

    /** One attempt: lease the own key, then confirm. */
    method TryConfirm(v: Version, rank: nat, state: Value, ghost from: nat) returns (outcome: SwapOutcome)
      requires from <= |cluster.trace| && state.Frozen? && state.version == v && At(ConfirmLease(v, rank, state))
      requires !Missing() && Key() == state
      modifies cluster
      ensures Later() && cluster.ticks == old(cluster.ticks)
      ensures At(AfterSwap(outcome, FinalRead(v, rank), ConfirmRead(v, rank), Enter))
      ensures match outcome
              case Swapped => Status() == Some(ConfirmValue(state, Seat(v, rank)).value) && Confirmed(from, Seat(v, rank))
              case CompareFailed => !Undisturbed()
              case KeyNotFound => Missing() && !Undisturbed()
      ensures outcome == Swapped ==> (FrozenAt(v) || FinalAt(v)) && Listed(Key(), Seat(v, rank))
    {
      cluster.SetLease(me, Seat(v, rank));
      outcome := SwapConfirmation(v, rank, state, from);
    }

    /** Add this rank's keep-alive by compare-and-swap, and start renewing its lease. */
    method ConfirmMembership(v: Version, rank: nat, ghost from: nat) returns (r: Result<(), Signal>)
      requires At(ConfirmRead(v, rank)) && from <= |cluster.trace|
      modifies cluster, this`leaseThisRank
      ensures Later() && cluster.ticks == old(cluster.ticks)
      ensures match r
              case Ok(_) =>
                && At(FinalRead(v, rank)) && leaseThisRank == Some(Seat(v, rank)) && LeaseIsNew(from)
                && (FrozenAt(v) || FinalAt(v)) && Listed(Key(), Seat(v, rank))
              case Raise(RetryImmediately) => Retried(RetryImmediately) && !Missing() && !FrozenAt(v)
              case Raise(signal) => At(Enter) && signal.OtherError? && Missing()
      ensures r.Raise? ==> leaseThisRank == old(leaseThisRank)
      ensures Undisturbed() ==> (r.Ok? <==> old(FrozenAt(v)))
      ensures Undisturbed() && r.Raise? ==> cluster.server.active == old(cluster.server.active)
      ensures Undisturbed() && old(FrozenAt(v)) ==> Status() == Some(ConfirmValue(old(Key()), Seat(v, rank)).value)
    {
      while true
        invariant At(ConfirmRead(v, rank)) && leaseThisRank == old(leaseThisRank)
        invariant Later() && cluster.ticks == old(cluster.ticks)
        invariant Undisturbed() ==> cluster.server == old(cluster.server)
        decreases |cluster.pending|
      {
        var node := cluster.Get(me);
        if node.None? { return Raise(OtherError); }
        var state := node.value.value;
        if !state.Frozen? || state.version != v { return Raise(RetryImmediately); }
        var outcome := TryConfirm(v, rank, state, from);
        if outcome == Swapped {
          leaseThisRank := Some(Seat(v, rank));
          return Ok(());
        }
        if outcome == KeyNotFound { return Raise(OtherError); }
      }
    }

    /** Wait until the expected version is final; returns the number of participants. */
    method WaitForFinal(v: Version, rank: nat) returns (r: Result<nat, Signal>)
      requires At(FinalRead(v, rank))
      modifies cluster
      ensures Later()
      ensures match r
              case Ok(size) => At(Returned(v, rank, size)) && FinalAt(v) && Members() == size
              case Raise(RetryableFailure) => Retried(RetryableFailure) && !Missing() && !FinalAt(v) && !FrozenAt(v)
              case Raise(OtherError) => At(Enter) && Missing()
              case Raise(signal) => TimedOut(signal) && (Undisturbed() ==> old(FrozenAt(v)))
      ensures Undisturbed() ==> cluster.server == old(cluster.server)
      ensures Undisturbed() && old(FinalAt(v)) ==> r.Ok?
      ensures Undisturbed() && old(FrozenAt(v)) ==> r == Raise(RendezvousTimeout)
    {
      while true
        invariant At(FinalRead(v, rank)) && Later()
        invariant Undisturbed() ==> cluster.server == old(cluster.server)
        decreases |cluster.pending| + cluster.ticks
      {
        var node := cluster.Get(me);
        if node.None? { return Raise(OtherError); }
        var state := node.value.value;
        if state.Final? && state.version == v { return Ok(|state.participants|); }
        if !state.Frozen? || state.version != v { return Raise(RetryableFailure); }
        var expired := TryWaitForStateChange();
        if expired { return Raise(RendezvousTimeout); }
      }
    }

    method ConfirmPhase(v: Version, rank: nat, ghost from: nat) returns (r: Result<Membership, Signal>)
      requires At(ConfirmRead(v, rank)) && leaseThisRank == None && from <= |cluster.trace|
      modifies cluster, this`leaseThisRank
      ensures Later() && LeaseIsNew(from)
      ensures match r
              case Ok(m) =>
                && At(Returned(v, rank, m.size)) && m.v == v && m.rank == rank && leaseThisRank == Some(Seat(v, rank))
                && FinalAt(v) && Members() == m.size
              case Raise(OtherError) => At(Enter) && Missing()
              case Raise(signal) => TimedOut(signal) || (Retried(signal) && !Missing() && !FrozenAt(v))
      ensures Undisturbed() && old(FrozenAt(v)) ==>
                r == ConfirmsAlone(v, rank, old(Members()), |old(Key()).keepAlives|)
    {
      var confirmed := ConfirmMembership(v, rank, from);
      if confirmed.Raise? { return Raise(confirmed.error); }
      ghost var trace := cluster.trace;
      var final := WaitForFinal(v, rank);
      StillConfirmed(cluster.cfg, cluster.workers, me, trace, cluster.trace, from, Seat(v, rank));
      return if final.Raise? then Raise(final.error) else Ok(Membership(v, rank, final.value));
    }

    method JoinPhase(v: Version, ghost from: nat) returns (r: Result<Membership, Signal>)
      requires At(JoinRead(v)) && leaseThisRank == None && from <= |cluster.trace|
      modifies cluster, this`leaseThisRank
      ensures Later() && LeaseIsNew(from)
      ensures match r
              case Ok(m) =>
                && At(Returned(v, m.rank, m.size)) && m.v == v && leaseThisRank == Some(Seat(v, m.rank))
                && FinalAt(v) && Members() == m.size
              case Raise(OtherError) => At(Enter) && Missing()
              case Raise(signal) => TimedOut(signal) || (Retried(signal) && !Missing())
      ensures Undisturbed() && old(JoinableAt(v)) ==>
                r == JoinsAlone(cluster.cfg, lastCallTimeout, v, old(Members()), old(cluster.ticks))
    {
      var frozen := JoinAndFreeze(v);
      if frozen.Raise? { return Raise(frozen.error); }
      r := ConfirmPhase(v, frozen.value, from);
    }

    // --- An existing rendezvous --------------------------------------------------------------------------

    /** One attempt: raise the waiting count that was read by one. */
    method TryAnnounce(v: Version, state: Value, ghost from: nat) returns (outcome: SwapOutcome)
      requires from <= |cluster.trace| && state.Final? && state.version == v && At(AnnounceCas(v, state))
      modifies cluster
      ensures Later() && cluster.ticks == old(cluster.ticks)
      ensures At(AfterSwap(outcome, FreeRead(v), AnnounceRead(v), Enter))
      ensures outcome == Swapped ==>
                && Status() == Some(Final(v, state.participants, state.keepAlives, state.waiting + 1)) && Announced(from, v)
      ensures outcome == KeyNotFound ==> Missing()
      ensures Undisturbed() && old(Status()) == Some(state) ==> outcome == Swapped && Announces(old(cluster.server), cluster.server)
    {
      outcome := cluster.TestAndSet(me, state, state.(waiting := state.waiting + 1), false);
      if outcome == Swapped {
        JustAnnounced(cluster.cfg, cluster.workers, me, cluster.trace, from, state);
      }
    }

    /** Count this worker as waiting, by compare-and-swap. */
    method AnnounceSelfWaiting(v: Version, ghost from: nat) returns (r: Result<(), Signal>)
      requires At(AnnounceRead(v)) && from <= |cluster.trace|
      modifies cluster
      ensures Later() && cluster.ticks == old(cluster.ticks)
      ensures match r
              case Ok(_) => At(FreeRead(v)) && FinalAt(v) && Announced(from, v)
              case Raise(RetryImmediately) => Retried(RetryImmediately) && !Missing() && !FinalAt(v)
              case Raise(signal) => At(Enter) && signal.OtherError? && Missing()
      ensures Undisturbed() && old(FinalAt(v)) ==> r.Ok? && Announces(old(cluster.server), cluster.server)
    {
      while true
        invariant At(AnnounceRead(v)) && Later() && cluster.ticks == old(cluster.ticks)
        invariant Undisturbed() && old(FinalAt(v)) ==> cluster.server == old(cluster.server)
        decreases |cluster.pending|
      {
        var node := cluster.Get(me);
        if node.None? { return Raise(OtherError); }
        var state := node.value.value;
        if !state.Final? || state.version != v { return Raise(RetryImmediately); }
        var outcome := TryAnnounce(v, state, from);
        if outcome == Swapped { return Ok(()); }
        if outcome == KeyNotFound { return Raise(OtherError); }
      }
    }

    /** Destroy the rendezvous that was read if a member's lease is gone, and if it has not changed. */
    method DestroyIfAbandoned(v: Version, state: Value) returns (missing: bool, deleted: bool)
      requires At(FreeList(v, state)) && state.Final?
      modifies cluster
      ensures Later() && cluster.ticks == old(cluster.ticks)
      ensures At(if missing then Enter else FreeRead(v)) && (missing && deleted ==> Missing())
      ensures Undisturbed() && old(Status()) == Some(state) ==> if IsAbandoned(old(cluster.server)) then missing && deleted else !missing
      ensures Undisturbed() ==>
                cluster.server == old(cluster.server).(active := if missing && deleted then None else old(cluster.server.active))
    {
      deleted := false;
      missing := cluster.AnyLeaseMissing(me, v, state);
      if missing {
        deleted := cluster.DeleteActive(me, state);
      }
    }

    /** One round of watching: `None` if the version is still there and complete. */
    method WatchRound(v: Version) returns (r: Option<Result<(), Signal>>)
      requires At(FreeRead(v))
      modifies cluster
      ensures Later()
      ensures match r
              case None => At(FreeRead(v)) && (Undisturbed() ==> old(FinalAt(v))) && |cluster.pending| + cluster.ticks < |old(cluster.pending)| + old(cluster.ticks)
              case Some(Ok(_)) => At(Enter) && !FinalAt(v)
              case Some(Raise(OtherError)) => At(Enter) && !(Undisturbed() && old(FinalAt(v)))
              case Some(Raise(signal)) => TimedOut(signal) && (Undisturbed() ==> old(FinalAt(v)))
      ensures Undisturbed() && old(FinalAt(v)) ==>
                if IsAbandoned(old(cluster.server))
                then r == Some(Ok(())) && cluster.ticks == old(cluster.ticks) && cluster.server == old(cluster.server).(active := None)
                else r in {None, Some(Raise(RendezvousTimeout))} && cluster.server == old(cluster.server)
    {
      var node := cluster.Get(me);
      if node.None? { return Some(Raise(OtherError)); }
      var state := node.value.value;
      if !state.Final? || state.version != v { return Some(Ok(())); }
      var missing, deleted := DestroyIfAbandoned(v, state);
      if missing { return Some(if deleted then Ok(()) else Raise(OtherError)); }
      var expired := TryWaitForStateChange();
      return if expired then Some(Raise(RendezvousTimeout)) else None;
    }

    /** Watch an existing rendezvous until it changes, destroying it if a member's lease is gone. */
    method WaitForRendezvousToFree(v: Version) returns (r: Result<(), Signal>)
      requires At(FreeRead(v))
      modifies cluster
      ensures Later()
      ensures match r
              case Ok(_) => At(Enter) && !FinalAt(v)
              case Raise(OtherError) => At(Enter) && !(Undisturbed() && old(FinalAt(v)))
              case Raise(signal) => TimedOut(signal) && (Undisturbed() ==> old(FinalAt(v)))
      ensures Undisturbed() && old(FinalAt(v)) ==>
                if IsAbandoned(old(cluster.server))
                then r.Ok? && cluster.ticks == old(cluster.ticks) && cluster.server == old(cluster.server).(active := None)
                else r == Raise(RendezvousTimeout) && cluster.server == old(cluster.server)
    {
      while true
        invariant At(FreeRead(v)) && Later()
        invariant Undisturbed() ==> cluster.server == old(cluster.server)
        invariant Undisturbed() && old(FinalAt(v)) && IsAbandoned(old(cluster.server)) ==> cluster.ticks == old(cluster.ticks)
        decreases |cluster.pending| + cluster.ticks
      {
        var round := WatchRound(v);
        if round.Some? { return round.value; }
      }
    }

    /** An existing rendezvous: announce this worker, and wait until it is gone.  It never returns a
        membership. */
    method HandleExistingRendezvous(v: Version, ghost from: nat) returns (r: Result<(), Signal>)
      requires At(AnnounceRead(v)) && from <= |cluster.trace|
      modifies cluster
      ensures Later()
      ensures match r
              case Ok(_) => At(Enter) && !FinalAt(v) && Announced(from, v)
              case Raise(signal) => TimedOut(signal) || Retried(signal)
      ensures r == Raise(RetryImmediately) ==> !(Undisturbed() && old(FinalAt(v)))
      ensures Undisturbed() && old(FinalAt(v)) && IsAbandoned(old(cluster.server)) ==>
                r.Ok? && Missing() && cluster.ticks == old(cluster.ticks) && cluster.server.counter == old(cluster.server.counter)
      ensures Undisturbed() && old(FinalAt(v)) && !IsAbandoned(old(cluster.server)) ==>
                r == Raise(RendezvousTimeout) && OneMoreWaits(old(cluster.server), cluster.server)
    {
      var announced := AnnounceSelfWaiting(v, from);
      if announced.Raise? { return Raise(announced.error); }
      ghost var trace := cluster.trace;
      r := WaitForRendezvousToFree(v);
      StillAnnounced(cluster.cfg, cluster.workers, me, trace, cluster.trace, from, v);
    }

    // --- The barrier -------------------------------------------------------------------------------------

    /** Join a version that was just seen joinable. */
    method JoinSeen(v: Version, ghost from: nat) returns (r: Result<Membership, Signal>)
      requires At(JoinRead(v)) && JoinableAt(v) && leaseThisRank == None && from <= |cluster.trace|
      modifies cluster, this`leaseThisRank
      ensures Later() && LeaseIsNew(from)
      ensures match r
              case Ok(m) =>
                && At(Returned(m.v, m.rank, m.size)) && leaseThisRank == Some(Seat(m.v, m.rank))
                && FinalAt(m.v) && Members() == m.size && SawJoinable(from, m.v)
              case Raise(signal) => TimedOut(signal) || Retried(signal)
      ensures Undisturbed() ==> r == JoinsAlone(cluster.cfg, lastCallTimeout, v, old(Members()), old(cluster.ticks))
    {
      ghost var seen := cluster.trace;
      r := JoinPhase(v, from);
      Remember(from, seen, v);
    }

    /** Wait for an existing version to go away, and retry at once. */
    method RetryWhenFree(v: Version, ghost from: nat) returns (signal: Signal)
      requires At(AnnounceRead(v)) && FinalAt(v) && from <= |cluster.trace|
      modifies cluster
      ensures Later() && (TimedOut(signal) || Retried(signal))
      ensures signal.RetryImmediately? ==> !Undisturbed() || Announced(from, v)
      ensures Undisturbed() ==>
                AttemptsAlone(cluster.cfg, lastCallTimeout, old(cluster.server), old(cluster.ticks), cluster.server, cluster.ticks, Raise(signal))
    {
      var freed := HandleExistingRendezvous(v, from);
      signal := if freed.Raise? then freed.error else RetryImmediately;
    }

    /** Neither joinable nor final: wait for a change, and retry. */
    method RetryWhenChanged() returns (signal: Signal)
      requires At(Enter)
      modifies cluster
      ensures Later() && (TimedOut(signal) || (Retried(signal) && signal.RetryableFailure?))
      ensures Undisturbed() ==>
                cluster.server == old(cluster.server) && signal == if old(cluster.ticks) == 0 then RendezvousTimeout else RetryableFailure
    {
      var expired := TryWaitForStateChange();
      signal := if expired then RendezvousTimeout else RetryableFailure;
    }

    /** The key exists: act on what it says. */
    method ObserveExisting(ghost from: nat) returns (r: Result<Membership, Signal>)
      requires At(Inspect) && leaseThisRank == None && from <= |cluster.trace|
      modifies cluster, this`leaseThisRank
      ensures Later() && LeaseIsNew(from)
      ensures match r
              case Ok(m) =>
                && At(Returned(m.v, m.rank, m.size)) && leaseThisRank == Some(Seat(m.v, m.rank))
                && FinalAt(m.v) && Members() == m.size && SawJoinable(from, m.v)
              case Raise(signal) => TimedOut(signal) || Retried(signal) || FoundClosed(signal)
      ensures r == Raise(RetryImmediately) ==> !Undisturbed() || exists v :: Announced(from, v)
      ensures Undisturbed() && !old(Missing()) ==>
                AttemptsAlone(cluster.cfg, lastCallTimeout, old(cluster.server), old(cluster.ticks), cluster.server, cluster.ticks, r)
    {
      var node := cluster.Get(me);
      if node.None? { return Raise(OtherError); }
      match node.value.value
      case Closed(_) =>
        return Raise(RendezvousClosed);
      case Joinable(v, _) =>
        r := JoinSeen(v, from);
      case Final(v, _, _, _) =>
        var signal := RetryWhenFree(v, from);
        return Raise(signal);
      case _ =>
        var signal := RetryWhenChanged();
        return Raise(signal);
    }

    /** One attempt: create a version and join it, or act on the one that exists. */
    method InitPhase(ghost from: nat) returns (r: Result<Membership, Signal>)
      requires At(Enter) && leaseThisRank == None && from <= |cluster.trace|
      modifies cluster, this`leaseThisRank
      ensures Later() && LeaseIsNew(from)
      ensures match r
              case Ok(m) =>
                && At(Returned(m.v, m.rank, m.size)) && leaseThisRank == Some(Seat(m.v, m.rank))
                && FinalAt(m.v) && Members() == m.size && SawJoinable(from, m.v)
              case Raise(signal) =>
                TimedOut(signal) || Retried(signal) || FoundClosed(signal) || (signal.NonRetryable? && At(Idle) && !Undisturbed())
      ensures r == Raise(RetryImmediately) ==> !Undisturbed() || exists v :: Announced(from, v)
      ensures Undisturbed() ==>
                AttemptsAlone(cluster.cfg, lastCallTimeout, old(cluster.server), old(cluster.ticks), cluster.server, cluster.ticks, r)
    {
      var created := TryCreateRendezvous();
      if created.Raise? { return Raise(created.error); }
      if created.value.Some? {
        r := JoinSeen(created.value.value, from);
      } else {
        r := ObserveExisting(from);
      }
    }

    /** What agreement says about this worker's own result. */
    lemma SizeInBounds(m: Membership)
      requires At(Returned(m.v, m.rank, m.size))
      ensures cluster.cfg.min <= m.size <= cluster.cfg.max && m.rank < m.size
    {
      var trace := cluster.trace;
      assert trace[..|trace|] == trace;
      Agreement(cluster.cfg, cluster.workers, trace, |trace|, |trace|, m.v, me, m.rank, m.size, me, m.rank, m.size);
    }

    /** The deadline has passed at the loop's head. */
    method GiveUp(ghost from: nat)
      requires At(Enter) && cluster.ticks == 0 && LeaseIsNew(from)
      modifies cluster
      ensures Later() && At(Idle) && cluster.ticks == 0 && LeaseIsNew(from)
      ensures Undisturbed() && cluster.server == old(cluster.server)
    {
      ghost var trace := cluster.trace;
      cluster.Leave(me);
      if leaseThisRank.Some? {
        StillConfirmed(cluster.cfg, cluster.workers, me, trace, cluster.trace, from, leaseThisRank.value);
      }
    }

    /** The barrier.  It returns a membership of a final version whose size is between min and max, or
        one of the three exceptions that its documentation lists.  The lease that is renewed
        afterwards, if any, is not one from before the call. */
    method RendezvousBarrier() returns (r: Result<Membership, Signal>)
      requires cluster.Valid(me) && AtRest(cluster.pcs[me])
      modifies cluster, this`leaseThisRank
      ensures old(cluster.trace) <= cluster.trace && LeaseIsNew(|old(cluster.trace)|)
      ensures match r
              case Ok(m) =>
                && At(Returned(m.v, m.rank, m.size)) && leaseThisRank == Some(Seat(m.v, m.rank))
                && FinalAt(m.v) && Members() == m.size
                && cluster.cfg.min <= m.size <= cluster.cfg.max && m.rank < m.size
              case Raise(signal) =>
                TimedOut(signal) || FoundClosed(signal) || (signal.NonRetryable? && At(Idle) && !Undisturbed())
      ensures Undisturbed() ==> ReturnsAlone(cluster.cfg, lastCallTimeout, timeout, old(cluster.server), cluster.server, r)
    {
      ghost var from := |cluster.trace|;
      cluster.ticks := timeout;
      cluster.Begin(me, false);
      while true
        invariant At(Enter) && old(cluster.trace) <= cluster.trace && |cluster.pending| <= |old(cluster.pending)|
        invariant Undisturbed() ==> RetriesAlone(timeout, old(cluster.server), cluster.server, cluster.ticks)
        decreases cluster.ticks
      {
        leaseThisRank := None;
        ghost var server, ticks := cluster.server, cluster.ticks;
        r := InitPhase(from);
        if |cluster.pending| == |old(cluster.pending)| {
          RoundAlone(cluster.cfg, lastCallTimeout, timeout, old(cluster.server), server, ticks, cluster.server, cluster.ticks, r);
        }
        if r.Ok? {
          SizeInBounds(r.value);
          return;
        }
        if r.error.RendezvousClosed? || r.error.RendezvousTimeout? || r.error.NonRetryable? {
          return;
        }
        // time passes; the loop's head checks the deadline
        if cluster.ticks == 0 {
          GiveUp(from);
          return Raise(RendezvousTimeout);
        }
        cluster.ticks := cluster.ticks - 1;
      }
    }

    // --- Closing -------------------------------------------------------------------------------------------

    /** The retry loop of `set_closed`. */
    method MarkClosed() returns (closed: bool)
      requires At(CloseRead)
      modifies cluster
      ensures At(Idle) && Later()
      ensures if closed then !Missing() && Key().Closed? else Missing()
      ensures Undisturbed() ==> Status() == match old(Status())
                                            case None => None
                                            case Some(Closed(was)) => Some(Closed(was))
                                            case Some(value) => Some(Closed(value))
    {
      while true
        invariant At(CloseRead) && Later()
        invariant Undisturbed() ==> Status() == old(Status())
        decreases |cluster.pending|
      {
        var node := cluster.Get(me);
        if node.None? { return false; }
        var state := node.value.value;
        if state.Closed? { return true; }
        var outcome := cluster.TestAndSet(me, state, Closed(state), false);
        if outcome == Swapped { return true; }
        if outcome == KeyNotFound { return false; }
      }
    }

    /** Mark the rendezvous closed.  Afterwards it is, unless there was none. */
    method SetClosed() returns (closed: bool)
      requires cluster.Valid(me) && AtRest(cluster.pcs[me])
      modifies cluster
      ensures At(Idle) && Later()
      ensures if closed then IsClosed(System(cluster.server, cluster.pcs)) else Missing()
      ensures Undisturbed() ==> (closed <==> !old(Missing()))
    {
      cluster.Begin(me, true);
      closed := MarkClosed();
    }

    // --- The agent's exchange over the version's own store -----------------------------------------

    /** Has the member with the given rank put its role info? */
    predicate InStore(v: Version, rank: nat)
      reads cluster
    {
      Seat(v, rank) in cluster.server.store
    }

    /** Blocking `get` of role_info{idx}: waits until the key is there or the time is up. */
    method StoreGet(idx: nat, ghost at: Pc) returns (r: Result<RoleInfo, Signal>)
      requires at.Gather? && At(at) && idx == |at.got| < at.size
      modifies cluster
      ensures Later()
      ensures match r
              case Ok(info) => At(Gather(at.v, at.rank, at.size, at.got + [info]))
              case Raise(signal) => signal.OtherError? && At(Idle) && cluster.ticks == 0
      ensures Undisturbed() ==> (r.Ok? <==> old(InStore(at.v, idx))) && cluster.server == old(cluster.server)
    {
      while true
        invariant At(at) && Later()
        invariant Undisturbed() ==> cluster.server == old(cluster.server)
        decreases |cluster.pending| + cluster.ticks
      {
        var info := cluster.StoreTryGet(me, idx);
        if info.Some? { return Ok(info.value); }
        var expired := TryWaitForStateChange();
        if expired { return Raise(OtherError); }   // LookupError, which nobody catches
      }
    }

    /** `synchronize`: publish the own role info, then collect everybody's in rank order. */
    method ShareAndGather(m: Membership) returns (r: Result<seq<RoleInfo>, Signal>)
      requires At(Returned(m.v, m.rank, m.size))
      modifies cluster
      ensures Later()
      ensures match r
              case Ok(infos) => At(Ranked(m.v, m.rank, m.size, infos))
              case Raise(signal) => signal.OtherError? && At(Idle) && cluster.ticks == 0
      ensures Undisturbed() && (forall idx :: 0 <= idx < m.size && idx != m.rank ==> old(InStore(m.v, idx))) ==> r.Ok?
    {
      var spec := cluster.cfg.spec(me);
      cluster.StoreSet(me, RoleInfo(spec.role, m.rank, spec.localWorldSize));
      ghost var server, pending := cluster.server, |cluster.pending|;
      var dataArr := [];
      for idx := 0 to m.size
        invariant At(Gather(m.v, m.rank, m.size, dataArr)) && |dataArr| == idx && Later()
        invariant |cluster.pending| <= pending && (Undisturbed() ==> cluster.server == server)
      {
        var data := StoreGet(idx, Gather(m.v, m.rank, m.size, dataArr));
        if data.Raise? {
          assert Undisturbed() ==> idx != m.rank && !old(InStore(m.v, idx));
          return Raise(data.error);
        }
        dataArr := dataArr + [data.value];
      }
      cluster.Synchronized(me);
      return Ok(dataArr);
    }

    /** Rank assignment after the barrier: what the agent tells its local workers. */
    method AssignWorkerRanks(m: Membership) returns (r: Result<seq<R.Worker>, Signal>, ghost infos: seq<RoleInfo>)
      requires At(Returned(m.v, m.rank, m.size))
      modifies cluster
      ensures Later()
      ensures match r
              case Ok(ranked) =>
                && At(Ranked(m.v, m.rank, m.size, infos)) && |infos| == m.size > m.rank
                && |ranked| == cluster.cfg.spec(me).localWorldSize && R.Ranks(infos, m.rank, ranked)
              case Raise(signal) => signal.OtherError? && At(Idle) && cluster.ticks == 0
      ensures Undisturbed() && (forall idx :: 0 <= idx < m.size && idx != m.rank ==> old(InStore(m.v, idx))) ==> r.Ok?
    {
      infos := [];
      var gathered := ShareAndGather(m);
      if gathered.Raise? { return Raise(gathered.error), []; }
      infos := gathered.value;
      ghost var trace := cluster.trace;
      assert trace[..|trace|] == trace;
      E.GatheredInfos(cluster.cfg, cluster.workers, trace, |trace|, me, m.v, m.rank, infos);
      var ranked := R.AssignWorkerRanks(gathered.value, m.rank);
      return Ok(ranked), infos;
    }
  }
}
