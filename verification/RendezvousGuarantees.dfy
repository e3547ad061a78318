// What the rendezvous promises, for every number of workers, every schedule and every time.

module RendezvousGuarantees {
  import opened Outcomes
  import opened RendezvousState
  import opened RendezvousProtocol
  import opened RendezvousRefinement
  import L = RendezvousLedger
  import C = Counting

  /** The barrier of worker `w` has returned `(v, rank, size)`, and it still works under it. */
  predicate HasResult(s: System, w: WorkerId, v: Version, rank: nat, size: nat)
  {
    w < |s.pcs| &&
    match s.pcs[w]
    case Returned(v', rank', size') => v' == v && rank' == rank && size' == size
    case Gather(v', rank', size', _) => v' == v && rank' == rank && size' == size
    case Ranked(v', rank', size', _) => v' == v && rank' == rank && size' == size
    case _ => false
  }

  function ActiveVersion(s: System): Option<Version>
  {
    match s.server.active
    case Some(Node(Joinable(v, _), _)) => Some(v)
    case Some(Node(Frozen(v, _, _), _)) => Some(v)
    case Some(Node(Final(v, _, _, _), _)) => Some(v)
    case _ => None
  }

  predicate IsFinal(s: System, v: Version)
  {
    s.server.active.Some? && s.server.active.value.value.Final? && s.server.active.value.value.version == v
  }

  predicate IsClosed(s: System)
  {
    s.server.active.Some? && s.server.active.value.value.Closed?
  }

  /** The key is final, and the lease of one of its members is gone. */
  ghost predicate IsAbandoned(server: Server)
  {
    && server.active.Some? && server.active.value.value.Final?
    && exists i :: 0 <= i < |server.active.value.value.keepAlives| && server.active.value.value.keepAlives[i] !in server.leases
  }

  function Participants(s: System): seq<nat>
    requires ActiveVersion(s).Some?
  {
    s.server.active.value.value.participants
  }

  // --- Consistency ------------------------------------------------------------------------

  lemma ResultInLedger(cfg: Config, s: System, a: L.Ledger, w: WorkerId, v: Version, rank: nat, size: nat)
    requires Simulates(cfg, s, a) && HasResult(s, w, v, rank, size)
    ensures MemberOf(a, w, Seat(v, rank), size)
  {
    assert PcOk(cfg, a, w, s.pcs[w]);
  }

  /** All workers that ever return version `v` agree on its size, which is between min and
      max, and hold different ranks below that size. */
  lemma Agreement(cfg: Config, workers: nat, schedule: seq<Action>, i: nat, j: nat, v: Version,
                  w1: WorkerId, rank1: nat, size1: nat, w2: WorkerId, rank2: nat, size2: nat)
    requires cfg.Valid() && i <= |schedule| && j <= |schedule|
    requires HasResult(StateAt(cfg, workers, schedule, i), w1, v, rank1, size1)
    requires HasResult(StateAt(cfg, workers, schedule, j), w2, v, rank2, size2)
    ensures size1 == size2 && cfg.min <= size1 <= cfg.max
    ensures rank1 < size1 && rank2 < size1
    ensures rank1 == rank2 <==> w1 == w2
  {
    var a := LedgerAt(cfg, workers, schedule, i);
    var b := LedgerAt(cfg, workers, schedule, j);
    RunSimulates(cfg, workers, schedule, i);
    RunSimulates(cfg, workers, schedule, j);
    ResultInLedger(cfg, StateAt(cfg, workers, schedule, i), a, w1, v, rank1, size1);
    ResultInLedger(cfg, StateAt(cfg, workers, schedule, j), b, w2, v, rank2, size2);
    if i <= j { LedgerExtends(cfg, workers, schedule, i, j); } else { LedgerExtends(cfg, workers, schedule, j, i); }
    assert a.rosters[v] == b.rosters[v];
    assert L.RosterOk(cfg, a, v);
    assert Seat(v, rank1) in a.confirmed && Seat(v, rank2) in a.confirmed;
  }

  /** The barrier of worker `w` returns at action `i`. */
  predicate ReturnsAt(cfg: Config, workers: nat, schedule: seq<Action>, i: nat, w: WorkerId, v: Version)
    requires i < |schedule| && w < workers
  {
    && !StateAt(cfg, workers, schedule, i).pcs[w].Returned?
    && StateAt(cfg, workers, schedule, i + 1).pcs[w].Returned?
    && StateAt(cfg, workers, schedule, i + 1).pcs[w].v == v
  }

  lemma OnlyFinalReadReturns(cfg: Config, server: Server, w: WorkerId, pc: Pc, deadline: bool)
    requires !pc.Returned? && StepWorker(cfg, server, w, pc, deadline).1.Returned?
    ensures
      var next := StepWorker(cfg, server, w, pc, deadline).1;
      pc.FinalRead? && next.v == pc.v && EventOfStep(server, w, pc, next, deadline) == Some(L.Return(w))
  {
  }

  lemma ReturnStep(cfg: Config, s: System, a: L.Ledger, act: Action, w: WorkerId)
    requires w < |s.pcs| && PcOk(cfg, a, w, s.pcs[w])
    requires !s.pcs[w].Returned? && Apply(cfg, s, act).pcs[w].Returned?
    ensures EventOf(cfg, s, a, act) == Some(L.Return(w))
    ensures w in a.held && a.held[w].version == Apply(cfg, s, act).pcs[w].v
  {
    assert act.Step? && act.w == w;
    OnlyFinalReadReturns(cfg, s.server, w, s.pcs[w], act.deadline);
  }

  lemma PcAt(cfg: Config, workers: nat, schedule: seq<Action>, i: nat, w: WorkerId)
    requires cfg.Valid() && i <= |schedule| && w < workers
    ensures PcOk(cfg, LedgerAt(cfg, workers, schedule, i), w, StateAt(cfg, workers, schedule, i).pcs[w])
  {
    RunSimulates(cfg, workers, schedule, i);
  }

  lemma ReturnAt(cfg: Config, workers: nat, schedule: seq<Action>, i: nat, w: WorkerId, v: Version)
    requires cfg.Valid() && i < |schedule| && w < workers && ReturnsAt(cfg, workers, schedule, i, w, v)
    ensures
      var a, b := LedgerAt(cfg, workers, schedule, i), LedgerAt(cfg, workers, schedule, i + 1);
      w in a.held && a.held[w].version == v && a.held[w] in b.returned
  {
    PcAt(cfg, workers, schedule, i, w);
    RunInv(cfg, workers, schedule, i);
    NextState(cfg, workers, schedule, i);
    ReturnStep(cfg, StateAt(cfg, workers, schedule, i), LedgerAt(cfg, workers, schedule, i), schedule[i], w);
  }

  /** A worker that returned from a completed version holds no second seat of it. */
  lemma OneSeatOfCompleted(cfg: Config, a: L.Ledger, w: WorkerId, first: Seat)
    requires L.Inv(cfg, a) && first in a.returned && L.Holder(a, first) == w && w in a.held
    ensures a.held[w].version != first.version
  {
    assert L.RosterOk(cfg, a, first.version);
  }

  /** No worker is handed the same version twice, even if it left and joined it again. */
  lemma ReturnedOnce(cfg: Config, workers: nat, schedule: seq<Action>, i: nat, j: nat, w: WorkerId, v: Version)
    requires cfg.Valid() && i <= j < |schedule| && w < workers
    requires ReturnsAt(cfg, workers, schedule, i, w, v) && ReturnsAt(cfg, workers, schedule, j, w, v)
    ensures i == j
  {
    if i < j {
      ReturnAt(cfg, workers, schedule, i, w, v);
      ReturnAt(cfg, workers, schedule, j, w, v);
      RunInv(cfg, workers, schedule, i);
      RunInv(cfg, workers, schedule, j);
      LedgerExtends(cfg, workers, schedule, i, j);
      LedgerExtends(cfg, workers, schedule, i + 1, j);
      OneSeatOfCompleted(cfg, LedgerAt(cfg, workers, schedule, j), w, LedgerAt(cfg, workers, schedule, i).held[w]);
    }
  }

  // --- Barrier ------------------------------------------------------------------------------

  /** A final document lists every rank's keep-alive exactly once, and no worker that joined
      this version is still unconfirmed. */
  lemma NoMemberLeftBehind(cfg: Config, workers: nat, schedule: seq<Action>, i: nat, v: Version)
    requires cfg.Valid() && i <= |schedule| && IsFinal(StateAt(cfg, workers, schedule, i), v)
    ensures
      var s := StateAt(cfg, workers, schedule, i);
      var value := s.server.active.value.value;
      && cfg.min <= |value.participants| <= cfg.max
      && |value.keepAlives| == |value.participants| && C.Distinct(value.keepAlives)
      && (forall r :: 0 <= r < |value.participants| ==> Seat(v, r) in value.keepAlives)
      && (forall w :: 0 <= w < workers && PendingSeat(s.pcs[w]).Some? ==> PendingSeat(s.pcs[w]).value.version != v)
  {
    var s := StateAt(cfg, workers, schedule, i);
    var a := LedgerAt(cfg, workers, schedule, i);
    var value := s.server.active.value.value;
    RunSimulates(cfg, workers, schedule, i);
    assert L.RosterOk(cfg, a, v);
    var ranks := seq(|value.keepAlives|, k requires 0 <= k < |value.keepAlives| => value.keepAlives[k].rank);
    forall r | 0 <= r < |value.participants|
      ensures r in ranks
    {
      assert Seat(v, r) in a.confirmed;
      var k :| 0 <= k < |value.keepAlives| && value.keepAlives[k] == Seat(v, r);
      assert ranks[k] == r;
    }
    C.DistinctFill(ranks, |value.participants|);
    forall w | 0 <= w < workers && PendingSeat(s.pcs[w]).Some?
      ensures PendingSeat(s.pcs[w]).value.version != v
    {
      assert PcOk(cfg, a, w, s.pcs[w]);
    }
  }

  /** Worker `w` has joined under `seat` at time `i` and no longer acts for it at time `i + 1`,
      without having confirmed. */
  predicate DepartsAt(cfg: Config, workers: nat, schedule: seq<Action>, i: nat, w: WorkerId, seat: Seat)
    requires i < |schedule| && w < workers
  {
    && PendingSeat(StateAt(cfg, workers, schedule, i).pcs[w]) == Some(seat)
    && SeatOf(StateAt(cfg, workers, schedule, i + 1).pcs[w]) == None
  }

  lemma PendingLeavesByQuit(cfg: Config, server: Server, w: WorkerId, pc: Pc, deadline: bool)
    requires PendingSeat(pc).Some? && SeatOf(StepWorker(cfg, server, w, pc, deadline).1) == None
    ensures EventOfStep(server, w, pc, StepWorker(cfg, server, w, pc, deadline).1, deadline) == Some(L.Quit(w))
  {
  }

  lemma DepartureAbandons(cfg: Config, s: System, a: L.Ledger, act: Action, w: WorkerId, seat: Seat)
    requires L.Inv(cfg, a) && w < |s.pcs| && PcOk(cfg, a, w, s.pcs[w])
    requires PendingSeat(s.pcs[w]) == Some(seat) && SeatOf(Apply(cfg, s, act).pcs[w]) == None
    ensures L.Allowed(cfg, a, L.Quit(w)) && EventOf(cfg, s, a, act) == Some(L.Quit(w))
    ensures L.Abandoned(L.Perform(cfg, a, L.Quit(w)), seat)
  {
    if act.Step? {
      assert act.w == w;
      PendingLeavesByQuit(cfg, s.server, w, s.pcs[w], act.deadline);
    }
  }

  lemma {:induction false} StaysAbandoned(cfg: Config, workers: nat, schedule: seq<Action>, i: nat, j: nat, seat: Seat)
    requires cfg.Valid() && i <= j <= |schedule| && L.Abandoned(LedgerAt(cfg, workers, schedule, i), seat)
    ensures L.Abandoned(LedgerAt(cfg, workers, schedule, j), seat)
  {
    if i < j {
      StaysAbandoned(cfg, workers, schedule, i, j - 1, seat);
      RunInv(cfg, workers, schedule, j - 1);
      var e := EventAt(cfg, workers, schedule, j - 1);
      if e.Some? {
        L.AbandonedForever(cfg, LedgerAt(cfg, workers, schedule, j - 1), e.value, seat);
      }
    }
  }

  /** A version that one participant left before confirming never becomes final. */
  lemma DepartedNeverFinal(cfg: Config, workers: nat, schedule: seq<Action>, i: nat, j: nat, w: WorkerId, seat: Seat)
    requires cfg.Valid() && i < j <= |schedule| && w < workers && DepartsAt(cfg, workers, schedule, i, w, seat)
    ensures !IsFinal(StateAt(cfg, workers, schedule, j), seat.version)
  {
    PcAt(cfg, workers, schedule, i, w);
    RunInv(cfg, workers, schedule, i);
    NextState(cfg, workers, schedule, i);
    DepartureAbandons(cfg, StateAt(cfg, workers, schedule, i), LedgerAt(cfg, workers, schedule, i), schedule[i], w, seat);
    StaysAbandoned(cfg, workers, schedule, i + 1, j, seat);
    RunSimulates(cfg, workers, schedule, j);
    L.AbandonedBlocks(cfg, LedgerAt(cfg, workers, schedule, j), seat);
  }

  // --- Version numbers ------------------------------------------------------------------------

  predicate ActivatedAt(cfg: Config, workers: nat, schedule: seq<Action>, i: nat, v: Version)
    requires i < |schedule|
  {
    && ActiveVersion(StateAt(cfg, workers, schedule, i)) != Some(v)
    && ActiveVersion(StateAt(cfg, workers, schedule, i + 1)) == Some(v)
  }

  lemma VersionIsPhase(cfg: Config, s: System, a: L.Ledger)
    requires Simulates(cfg, s, a)
    ensures ActiveVersion(s) == L.PhaseVersion(a.phase)
  {
  }

  lemma ActivationOpens(cfg: Config, workers: nat, schedule: seq<Action>, i: nat, v: Version)
    requires cfg.Valid() && i < |schedule| && ActivatedAt(cfg, workers, schedule, i, v)
    ensures v !in LedgerAt(cfg, workers, schedule, i).rosters && v in LedgerAt(cfg, workers, schedule, i + 1).rosters
  {
    var a := LedgerAt(cfg, workers, schedule, i);
    PhaseAt(cfg, workers, schedule, i);
    PhaseAt(cfg, workers, schedule, i + 1);
    RunInv(cfg, workers, schedule, i);
    var e := EventAt(cfg, workers, schedule, i);
    if e.Some? {
      L.OnlyOpenActivates(cfg, a, e.value, v);
    }
  }

  lemma PhaseAt(cfg: Config, workers: nat, schedule: seq<Action>, i: nat)
    requires cfg.Valid() && i <= |schedule|
    ensures ActiveVersion(StateAt(cfg, workers, schedule, i)) == L.PhaseVersion(LedgerAt(cfg, workers, schedule, i).phase)
  {
    RunSimulates(cfg, workers, schedule, i);
    VersionIsPhase(cfg, StateAt(cfg, workers, schedule, i), LedgerAt(cfg, workers, schedule, i));
  }

  lemma RosterStays(cfg: Config, workers: nat, schedule: seq<Action>, i: nat, j: nat, v: Version)
    requires cfg.Valid() && i <= j <= |schedule| && v in LedgerAt(cfg, workers, schedule, i).rosters
    ensures v in LedgerAt(cfg, workers, schedule, j).rosters
  {
    LedgerExtends(cfg, workers, schedule, i, j);
  }

  /** Each version becomes the active one at most once in a run, whatever setup keys expire
      and whoever's publication lands on whose "setup". */
  lemma VersionActivatedOnce(cfg: Config, workers: nat, schedule: seq<Action>, i: nat, j: nat, v: Version)
    requires cfg.Valid() && i <= j < |schedule|
    requires ActivatedAt(cfg, workers, schedule, i, v) && ActivatedAt(cfg, workers, schedule, j, v)
    ensures i == j
  {
    if i < j {
      ActivationOpens(cfg, workers, schedule, i, v);
      ActivationOpens(cfg, workers, schedule, j, v);
      RosterStays(cfg, workers, schedule, i + 1, j, v);
    }
  }

  /** The directory of a drawn version number is always new. */
  lemma DirectoryIsNew(cfg: Config, workers: nat, schedule: seq<Action>, i: nat, w: WorkerId)
    requires cfg.Valid() && i <= |schedule| && w < workers && StateAt(cfg, workers, schedule, i).pcs[w].MakeDir?
    ensures StateAt(cfg, workers, schedule, i).pcs[w].v !in StateAt(cfg, workers, schedule, i).server.dirs
  {
    RunSimulates(cfg, workers, schedule, i);
    assert DrawOk(StateAt(cfg, workers, schedule, i).server, LedgerAt(cfg, workers, schedule, i), StateAt(cfg, workers, schedule, i).pcs[w]);
  }

  // --- Exclusivity ------------------------------------------------------------------------------

  lemma {:induction false} StaysHeld(cfg: Config, workers: nat, schedule: seq<Action>, i: nat, j: nat, v: Version)
    requires cfg.Valid() && i <= j <= |schedule| && L.HoldsOn(LedgerAt(cfg, workers, schedule, i), v)
    ensures L.HoldsOn(LedgerAt(cfg, workers, schedule, j), v)
  {
    if i < j {
      StaysHeld(cfg, workers, schedule, i, j - 1, v);
      RunInv(cfg, workers, schedule, j - 1);
      var e := EventAt(cfg, workers, schedule, j - 1);
      if e.Some? {
        L.CompleteHoldsOn(cfg, LedgerAt(cfg, workers, schedule, j - 1), e.value, v);
      }
    }
  }

  lemma FinalHolds(cfg: Config, s: System, a: L.Ledger, v: Version)
    requires Simulates(cfg, s, a) && IsFinal(s, v)
    ensures L.HoldsOn(a, v) && v in a.rosters && Participants(s) == Upto(|a.rosters[v]|)
  {
  }

  lemma HoldsUnlessLapsed(cfg: Config, t: System, b: L.Ledger, v: Version)
    requires Simulates(cfg, t, b) && L.HoldsOn(b, v) && v in b.rosters
    requires forall seat :: seat in b.lapsed ==> seat.version != v
    ensures IsClosed(t) || (IsFinal(t, v) && Participants(t) == Upto(|b.rosters[v]|))
  {
  }

  /** Once version `v` is final, it stays final until the run is closed, as long as the leases
      of all its members are alive.  It is enough that they are alive in the end: a lapsed
      lease of a confirmed member never reappears. */
  lemma Exclusivity(cfg: Config, workers: nat, schedule: seq<Action>, i: nat, j: nat, v: Version)
    requires cfg.Valid() && i <= j <= |schedule| && IsFinal(StateAt(cfg, workers, schedule, i), v)
    requires forall r :: 0 <= r < |Participants(StateAt(cfg, workers, schedule, i))| ==>
               Seat(v, r) in StateAt(cfg, workers, schedule, j).server.leases
    ensures
      var t := StateAt(cfg, workers, schedule, j);
      IsClosed(t) || (IsFinal(t, v) && Participants(t) == Participants(StateAt(cfg, workers, schedule, i)))
  {
    var s, t := StateAt(cfg, workers, schedule, i), StateAt(cfg, workers, schedule, j);
    var a, b := LedgerAt(cfg, workers, schedule, i), LedgerAt(cfg, workers, schedule, j);
    RunSimulates(cfg, workers, schedule, i);
    FinalHolds(cfg, s, a, v);
    StaysHeld(cfg, workers, schedule, i, j, v);
    LedgerExtends(cfg, workers, schedule, i, j);
    RunSimulates(cfg, workers, schedule, j);
    LiveMeansHeld(cfg, t, b, v, |Participants(s)|);
    HoldsUnlessLapsed(cfg, t, b, v);
  }

  lemma LiveMeansHeld(cfg: Config, t: System, b: L.Ledger, v: Version, n: nat)
    requires Simulates(cfg, t, b) && v in b.rosters && n == |b.rosters[v]|
    requires forall r :: 0 <= r < n ==> Seat(v, r) in t.server.leases
    ensures forall seat :: seat in b.lapsed ==> seat.version != v
  {
    forall seat | seat in b.lapsed
      ensures seat.version != v
    {
      assert L.HasSeat(b, seat) && seat == Seat(seat.version, seat.rank);
    }
  }

  /** A lease that a confirmed member lost stays lost. */
  lemma LostLeaseStaysLost(cfg: Config, workers: nat, schedule: seq<Action>, i: nat, j: nat, v: Version, seat: Seat)
    requires cfg.Valid() && i <= j <= |schedule| && IsFinal(StateAt(cfg, workers, schedule, i), v)
    requires seat in StateAt(cfg, workers, schedule, i).server.active.value.value.keepAlives
    requires seat !in StateAt(cfg, workers, schedule, i).server.leases
    ensures seat !in StateAt(cfg, workers, schedule, j).server.leases
  {
    RunSimulates(cfg, workers, schedule, i);
    RunSimulates(cfg, workers, schedule, j);
    LedgerExtends(cfg, workers, schedule, i, j);
  }

  // --- The shape of the key, and its TTL ----------------------------------------------------------

  /** Participants are always numbered in join order; a joinable version has room, and a frozen
      or final one has between min and max members. */
  lemma MembershipShape(cfg: Config, workers: nat, schedule: seq<Action>, i: nat)
    requires cfg.Valid() && i <= |schedule| && ActiveVersion(StateAt(cfg, workers, schedule, i)).Some?
    ensures
      var s := StateAt(cfg, workers, schedule, i);
      var n := |Participants(s)|;
      && Participants(s) == Upto(n)
      && (s.server.active.value.value.Joinable? ==> n < cfg.max)
      && (!s.server.active.value.value.Joinable? ==> cfg.min <= n <= cfg.max)
      && (s.server.active.value.value.Frozen? ==> |s.server.active.value.value.keepAlives| < n)
  {
    var a := LedgerAt(cfg, workers, schedule, i);
    var s := StateAt(cfg, workers, schedule, i);
    RunSimulates(cfg, workers, schedule, i);
    var v := ActiveVersion(s).value;
    assert L.RosterOk(cfg, a, v);
    if s.server.active.value.value.Frozen? {
      var r :| 0 <= r < |a.rosters[v]| && Seat(v, r) !in a.confirmed;
      FillsWhenLast(cfg, a, Seat(v, r), s.server.active.value.value.keepAlives);
    }
  }

  /** The key can expire exactly in the states that wait for one particular worker: the creator,
      the last-call worker, or an unconfirmed member. */
  predicate WaitsForOne(cfg: Config, value: Value)
  {
    value.Setup? || value.Frozen? || (value.Joinable? && |value.participants| >= cfg.min)
  }

  lemma Ephemerality(cfg: Config, workers: nat, schedule: seq<Action>, i: nat)
    requires cfg.Valid() && i <= |schedule| && StateAt(cfg, workers, schedule, i).server.active.Some?
    ensures
      var node := StateAt(cfg, workers, schedule, i).server.active.value;
      node.ephemeral <==> WaitsForOne(cfg, node.value)
  {
    RunSimulates(cfg, workers, schedule, i);
  }

  lemma {:induction false} StaysSettled(cfg: Config, workers: nat, schedule: seq<Action>, i: nat, j: nat, v: Version)
    requires cfg.Valid() && i <= j <= |schedule| && L.Settled(LedgerAt(cfg, workers, schedule, i), v)
    ensures L.Settled(LedgerAt(cfg, workers, schedule, j), v)
    ensures LedgerAt(cfg, workers, schedule, j).rosters[v] == LedgerAt(cfg, workers, schedule, i).rosters[v]
  {
    if i < j {
      StaysSettled(cfg, workers, schedule, i, j - 1, v);
      RunInv(cfg, workers, schedule, j - 1);
      var e := EventAt(cfg, workers, schedule, j - 1);
      if e.Some? {
        L.SettledForever(cfg, LedgerAt(cfg, workers, schedule, j - 1), e.value, v);
      }
    }
  }

  /** The members of a version only grow, and not at all once it is frozen; a final version
      is never frozen again. */
  lemma MembershipSettles(cfg: Config, workers: nat, schedule: seq<Action>, i: nat, j: nat, v: Version)
    requires cfg.Valid() && i <= j <= |schedule|
    requires ActiveVersion(StateAt(cfg, workers, schedule, i)) == Some(v) == ActiveVersion(StateAt(cfg, workers, schedule, j))
    ensures
      var s, t := StateAt(cfg, workers, schedule, i), StateAt(cfg, workers, schedule, j);
      && Participants(s) <= Participants(t)
      && (!s.server.active.value.value.Joinable? ==> Participants(s) == Participants(t) && !t.server.active.value.value.Joinable?)
      && (s.server.active.value.value.Final? ==> t.server.active.value.value.Final?)
  {
    var s, t := StateAt(cfg, workers, schedule, i), StateAt(cfg, workers, schedule, j);
    var a, b := LedgerAt(cfg, workers, schedule, i), LedgerAt(cfg, workers, schedule, j);
    RunSimulates(cfg, workers, schedule, i);
    RunSimulates(cfg, workers, schedule, j);
    LedgerExtends(cfg, workers, schedule, i, j);
    assert a.rosters[v] <= b.rosters[v];
    assert Upto(|a.rosters[v]|) <= Upto(|b.rosters[v]|);
    if !s.server.active.value.value.Joinable? {
      StaysSettled(cfg, workers, schedule, i, j, v);
    }
  }

  // --- Progress of one version ------------------------------------------------------------------

  /** How many more times the document of the active version can change before it is final. */
  function Work(cfg: Config, s: System): int
  {
    match s.server.active
    case Some(Node(Joinable(_, ps), _)) => 2 * cfg.max - |ps|
    case Some(Node(Frozen(_, ps, ka), _)) => |ps| - |ka|
    case _ => 0
  }

  predicate SameDocument(s: System, t: System)
  {
    s.server.active.Some? == t.server.active.Some? &&
    (s.server.active.Some? ==> s.server.active.value.value == t.server.active.value.value)
  }

  /** The only writers of a version's document are its swap sites. */
  lemma ChangeIsSwap(cfg: Config, s: System, a: L.Ledger, act: Action, v: Version)
    requires Simulates(cfg, s, a)
    requires ActiveVersion(s) == Some(v) == ActiveVersion(Apply(cfg, s, act))
    requires !SameDocument(s, Apply(cfg, s, act))
    ensures act.Step? && act.w < |s.pcs| && SwapHits(cfg, s, act.w, act.deadline)
    ensures Apply(cfg, s, act).server.active == Some(SwapOf(cfg, s.pcs[act.w], act.deadline).value.next)
    ensures PcOk(cfg, a, act.w, s.pcs[act.w])
  {
  }

  /** Every change on the way to final leaves less work. */
  lemma ChangeWorks(cfg: Config, s: System, a: L.Ledger, act: Action, v: Version)
    requires Simulates(cfg, s, a) && !IsFinal(s, v)
    requires ActiveVersion(s) == Some(v) == ActiveVersion(Apply(cfg, s, act))
    ensures SameDocument(s, Apply(cfg, s, act)) || Work(cfg, Apply(cfg, s, act)) < Work(cfg, s)
  {
    if !SameDocument(s, Apply(cfg, s, act)) {
      ChangeIsSwap(cfg, s, a, act, v);
    }
  }

  lemma ChangeWorksAt(cfg: Config, workers: nat, schedule: seq<Action>, k: nat, v: Version)
    requires cfg.Valid() && k < |schedule|
    requires ActiveVersion(StateAt(cfg, workers, schedule, k)) == Some(v) == ActiveVersion(StateAt(cfg, workers, schedule, k + 1))
    ensures
      var s, t := StateAt(cfg, workers, schedule, k), StateAt(cfg, workers, schedule, k + 1);
      && 0 <= Work(cfg, s) <= 2 * cfg.max
      && (IsFinal(s, v) ==> IsFinal(t, v))
      && (!IsFinal(s, v) ==> SameDocument(s, t) || Work(cfg, t) < Work(cfg, s))
  {
    MembershipShape(cfg, workers, schedule, k);
    MembershipSettles(cfg, workers, schedule, k, k + 1, v);
    if !IsFinal(StateAt(cfg, workers, schedule, k), v) {
      RunSimulates(cfg, workers, schedule, k);
      NextState(cfg, workers, schedule, k);
      ChangeWorks(cfg, StateAt(cfg, workers, schedule, k), LedgerAt(cfg, workers, schedule, k), schedule[k], v);
    }
  }

  /** Between two times, how often the document changed while it was not final. */
  function Changes(cfg: Config, workers: nat, schedule: seq<Action>, i: nat, j: nat): nat
    requires i <= j <= |schedule|
    decreases j
  {
    if i == j then 0
    else
      var s, t := StateAt(cfg, workers, schedule, j - 1), StateAt(cfg, workers, schedule, j);
      var final := s.server.active.Some? && s.server.active.value.value.Final?;
      Changes(cfg, workers, schedule, i, j - 1) + if final || SameDocument(s, t) then 0 else 1
  }

  lemma ChangesStep(cfg: Config, workers: nat, schedule: seq<Action>, i: nat, j: nat)
    requires i < j <= |schedule|
    ensures Changes(cfg, workers, schedule, i, j) == Changes(cfg, workers, schedule, i, j - 1) + Changes(cfg, workers, schedule, j - 1, j)
  {
    assert Changes(cfg, workers, schedule, j - 1, j - 1) == 0;
  }

  /** One step: the last summand of `Changes` is paid for by `Work`. */
  lemma ChangePays(cfg: Config, workers: nat, schedule: seq<Action>, k: nat, v: Version)
    requires cfg.Valid() && k < |schedule|
    requires ActiveVersion(StateAt(cfg, workers, schedule, k)) == Some(v) == ActiveVersion(StateAt(cfg, workers, schedule, k + 1))
    ensures Changes(cfg, workers, schedule, k, k + 1) <=
            Work(cfg, StateAt(cfg, workers, schedule, k)) - Work(cfg, StateAt(cfg, workers, schedule, k + 1))
  {
    ChangeWorksAt(cfg, workers, schedule, k, v);
    MembershipShape(cfg, workers, schedule, k + 1);
  }

  ghost predicate ActiveThroughout(cfg: Config, workers: nat, schedule: seq<Action>, i: nat, j: nat, v: Version)
    requires i <= j <= |schedule|
  {
    forall k :: i <= k <= j ==> ActiveVersion(StateAt(cfg, workers, schedule, k)) == Some(v)
  }

  lemma {:induction false} WorkPays(cfg: Config, workers: nat, schedule: seq<Action>, i: nat, j: nat, v: Version)
    requires cfg.Valid() && i <= j <= |schedule| && ActiveThroughout(cfg, workers, schedule, i, j, v)
    ensures Changes(cfg, workers, schedule, i, j) <=
            Work(cfg, StateAt(cfg, workers, schedule, i)) - Work(cfg, StateAt(cfg, workers, schedule, j))
    decreases j
  {
    if i < j {
      WorkPays(cfg, workers, schedule, i, j - 1, v);
      ChangesStep(cfg, workers, schedule, i, j);
      ChangePays(cfg, workers, schedule, j - 1, v);
    }
  }

  /** While a version is active, its document changes at most `2 * max` times before it is
      final: joins, at most one freeze, and confirmations. */
  lemma BoundedWrites(cfg: Config, workers: nat, schedule: seq<Action>, i: nat, j: nat, v: Version)
    requires cfg.Valid() && i <= j <= |schedule| && ActiveThroughout(cfg, workers, schedule, i, j, v)
    ensures Changes(cfg, workers, schedule, i, j) <= 2 * cfg.max
  {
    WorkPays(cfg, workers, schedule, i, j, v);
    MembershipShape(cfg, workers, schedule, i);
    MembershipShape(cfg, workers, schedule, j);
  }

  // --- Closing ------------------------------------------------------------------------------------

  /** No compare-and-swap and no delete succeeds on a closed key. */
  lemma ClosedWorkerStep(cfg: Config, s: System, a: L.Ledger, w: WorkerId, deadline: bool)
    requires Simulates(cfg, s, a) && IsClosed(s) && w < |s.pcs|
    ensures
      var r := StepWorker(cfg, s.server, w, s.pcs[w], deadline);
      && r.0.active == s.server.active
      && (r.1.Returned? ==> s.pcs[w].Returned?)
      && (SeatOf(s.pcs[w]) == None ==> SeatOf(r.1) == None)
  {
    var pc := s.pcs[w];
    assert PcOk(cfg, a, w, pc);
    if !IsRead(pc) && SwapOf(cfg, pc, deadline).Some? {
      MissedResult(cfg, s.server, w, pc, deadline);
    }
  }

  lemma ClosedStep(cfg: Config, s: System, a: L.Ledger, act: Action)
    requires Simulates(cfg, s, a) && IsClosed(s)
    ensures Apply(cfg, s, act).server.active == s.server.active
    ensures forall w :: 0 <= w < |s.pcs| && !s.pcs[w].Returned? ==> !Apply(cfg, s, act).pcs[w].Returned?
    ensures forall w :: 0 <= w < |s.pcs| && SeatOf(s.pcs[w]) == None ==> SeatOf(Apply(cfg, s, act).pcs[w]) == None
  {
    if act.Step? && act.w < |s.pcs| {
      ClosedWorkerStep(cfg, s, a, act.w, act.deadline);
    }
  }

  /** After a close the key never changes again, nobody joins and no barrier returns. */
  lemma ClosedNext(cfg: Config, workers: nat, schedule: seq<Action>, j: nat)
    requires cfg.Valid() && j < |schedule| && IsClosed(StateAt(cfg, workers, schedule, j))
    ensures
      var s, t := StateAt(cfg, workers, schedule, j), StateAt(cfg, workers, schedule, j + 1);
      && t.server.active == s.server.active
      && (forall w :: 0 <= w < workers && !s.pcs[w].Returned? ==> !t.pcs[w].Returned?)
      && (forall w :: 0 <= w < workers && SeatOf(s.pcs[w]) == None ==> SeatOf(t.pcs[w]) == None)
  {
    RunSimulates(cfg, workers, schedule, j);
    NextState(cfg, workers, schedule, j);
    ClosedStep(cfg, StateAt(cfg, workers, schedule, j), LedgerAt(cfg, workers, schedule, j), schedule[j]);
  }

  lemma {:induction false} ClosedIsAbsorbing(cfg: Config, workers: nat, schedule: seq<Action>, i: nat, j: nat)
    requires cfg.Valid() && i <= j <= |schedule| && IsClosed(StateAt(cfg, workers, schedule, i))
    ensures StateAt(cfg, workers, schedule, j).server.active == StateAt(cfg, workers, schedule, i).server.active
    ensures forall w :: 0 <= w < workers && SeatOf(StateAt(cfg, workers, schedule, i).pcs[w]) == None ==>
              SeatOf(StateAt(cfg, workers, schedule, j).pcs[w]) == None
    ensures forall w, v :: j < |schedule| && 0 <= w < workers ==> !ReturnsAt(cfg, workers, schedule, j, w, v)
  {
    if i < j {
      ClosedIsAbsorbing(cfg, workers, schedule, i, j - 1);
      ClosedNext(cfg, workers, schedule, j - 1);
    }
    if j < |schedule| {
      ClosedNext(cfg, workers, schedule, j);
    }
  }
}
