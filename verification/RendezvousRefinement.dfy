// The step system refines the atomic rendezvous.  `Simulates` ties a system state to a
// ledger; every action of the system either leaves the ledger alone or performs exactly
// one event that the ledger allows.  In particular a compare-and-swap that succeeds only
// because two documents are equal still meets the guard of its event, however old the
// snapshot is and whatever expired or was re-created in between.

module RendezvousRefinement {
  import opened Outcomes
  import opened RendezvousState
  import opened RendezvousProtocol
  import L = RendezvousLedger
  import C = Counting

  // --- The simulation relation ----------------------------------------------------------

  /** The seats of version `v` among the first `n` ranks are exactly the keep-alives. */
  ghost predicate ConfirmedExactly(a: L.Ledger, v: Version, n: nat, keepAlives: seq<Seat>)
  {
    && (forall i :: 0 <= i < |keepAlives| ==> keepAlives[i].version == v && keepAlives[i].rank < n && keepAlives[i] in a.confirmed)
    && (forall r :: 0 <= r < n && Seat(v, r) in a.confirmed ==> Seat(v, r) in keepAlives)
    && (forall i, j :: 0 <= i < j < |keepAlives| ==> keepAlives[i] != keepAlives[j])
  }

  ghost predicate KeyMatches(cfg: Config, active: Option<Node>, a: L.Ledger)
  {
    match active
    case None => a.phase.Vacant?
    case Some(Node(Setup, ephemeral)) => a.phase.Starting? && ephemeral
    case Some(Node(Joinable(v, ps), ephemeral)) =>
      a.phase == L.Gathering(v) && v in a.rosters && ps == Upto(|a.rosters[v]|) && ephemeral == (|ps| >= cfg.min)
    case Some(Node(Frozen(v, ps, ka), ephemeral)) =>
      a.phase == L.Sealed(v) && v in a.rosters && ps == Upto(|a.rosters[v]|) && ephemeral && ConfirmedExactly(a, v, |ps|, ka)
    case Some(Node(Final(v, ps, ka, n), ephemeral)) =>
      a.phase == L.Complete(v, n) && v in a.rosters && ps == Upto(|a.rosters[v]|) && !ephemeral && ConfirmedExactly(a, v, |ps|, ka)
    case Some(Node(Closed(was), ephemeral)) => a.phase.Shut? && !ephemeral && !was.Closed?
  }

  /** The membership a program counter acts for, before and after its confirmation. */
  function PendingSeat(pc: Pc): Option<Seat>
  {
    match pc
    case LastCallRead(v, rank) => Some(Seat(v, rank))
    case LastCallCas(v, rank, _) => Some(Seat(v, rank))
    case PeersRead(v, rank) => Some(Seat(v, rank))
    case ConfirmRead(v, rank) => Some(Seat(v, rank))
    case ConfirmLease(v, rank, _) => Some(Seat(v, rank))
    case ConfirmCas(v, rank, _) => Some(Seat(v, rank))
    case _ => None
  }

  function SeatOf(pc: Pc): Option<Seat>
  {
    match pc
    case FinalRead(v, rank) => Some(Seat(v, rank))
    case _ => PendingSeat(pc)
  }

  ghost predicate SeatMatches(a: L.Ledger, w: WorkerId, pc: Pc)
  {
    match SeatOf(pc)
    case None => w !in a.held
    case Some(seat) => w in a.held && a.held[w] == seat && (seat in a.confirmed <==> pc.FinalRead?)
  }

  function InfoOf(cfg: Config, w: WorkerId, rank: nat): RoleInfo
  {
    RoleInfo(cfg.spec(w).role, rank, cfg.spec(w).localWorldSize)
  }

  /** `seat` was returned to `w`, in a completed version of `size` members. */
  ghost predicate MemberOf(a: L.Ledger, w: WorkerId, seat: Seat, size: nat)
  {
    && seat.version in a.completed && seat in a.returned
    && L.HasSeat(a, seat) && L.Holder(a, seat) == w && size == |a.rosters[seat.version]|
  }

  ghost predicate GatheredFrom(cfg: Config, a: L.Ledger, v: Version, got: seq<RoleInfo>)
  {
    && v in a.rosters && |got| <= |a.rosters[v]|
    && forall i :: 0 <= i < |got| ==> got[i] == InfoOf(cfg, a.rosters[v][i], i)
  }

  /** What a worker's locals and snapshot still tell about the ledger.  Stable under every
      event of the other workers. */
  ghost predicate PcOk(cfg: Config, a: L.Ledger, w: WorkerId, pc: Pc)
  {
    && SeatMatches(a, w, pc)
    && match pc
       case JoinCas(v, snap) => snap.Joinable? && snap.version == v && |snap.participants| < cfg.max
       case LastCallRead(_, rank) => rank + 1 == cfg.min
       case LastCallCas(v, rank, snap) =>
         rank + 1 == cfg.min && snap.Joinable? && snap.version == v && |snap.participants| >= cfg.min
       case ConfirmLease(v, _, snap) => snap.Frozen? && snap.version == v
       case ConfirmCas(v, _, snap) => snap.Frozen? && snap.version == v
       case AnnounceCas(v, snap) => snap.Final? && snap.version == v
       case FreeList(v, snap) =>
         snap.Final? && snap.version == v
         && forall i :: 0 <= i < |snap.keepAlives| ==> snap.keepAlives[i] in a.confirmed && snap.keepAlives[i].version == v
       case Destroy(v, snap) =>
         snap.Final? && snap.version == v && exists seat :: seat in a.lapsed && seat.version == v
       case CloseCas(snap) => !snap.Closed?
       case Returned(v, rank, size) => MemberOf(a, w, Seat(v, rank), size)
       case Gather(v, rank, size, got) => MemberOf(a, w, Seat(v, rank), size) && GatheredFrom(cfg, a, v, got)
       case Ranked(v, rank, size, got) =>
         MemberOf(a, w, Seat(v, rank), size) && GatheredFrom(cfg, a, v, got) && |got| == size
       case _ => true
  }

  /** A version number that a creator drew and has not published yet. */
  function DrawnBy(pc: Pc): Option<Version>
  {
    match pc
    case MakeDir(v) => Some(v)
    case Publish(v) => Some(v)
    case _ => None
  }

  ghost predicate DrawOk(server: Server, a: L.Ledger, pc: Pc)
  {
    match pc
    case MakeDir(v) => v <= server.counter && v !in a.rosters && v !in server.dirs
    case Publish(v) => v <= server.counter && v !in a.rosters && v in server.dirs
    case _ => true
  }

  ghost predicate NumbersOk(s: System, a: L.Ledger)
  {
    && (forall v :: v in a.rosters ==> v in s.server.dirs)
    && (forall v :: v in s.server.dirs ==> v <= s.server.counter)
    && (forall w :: 0 <= w < |s.pcs| ==> DrawOk(s.server, a, s.pcs[w]))
    && (forall w1, w2 :: 0 <= w1 < w2 < |s.pcs| && DrawnBy(s.pcs[w1]).Some? ==> DrawnBy(s.pcs[w1]) != DrawnBy(s.pcs[w2]))
  }

  ghost predicate StoreOk(cfg: Config, server: Server, a: L.Ledger)
  {
    forall seat :: seat in server.store ==>
      seat.version in a.completed && L.HasSeat(a, seat) && server.store[seat] == InfoOf(cfg, L.Holder(a, seat), seat.rank)
  }

  ghost predicate LeasesOk(server: Server, a: L.Ledger)
  {
    forall seat :: seat in a.confirmed ==> (seat in a.lapsed <==> seat !in server.leases)
  }

  ghost predicate Simulates(cfg: Config, s: System, a: L.Ledger)
  {
    && L.Inv(cfg, a)
    && KeyMatches(cfg, s.server.active, a)
    && NumbersOk(s, a)
    && StoreOk(cfg, s.server, a)
    && LeasesOk(s.server, a)
    && (forall w :: 0 <= w < |s.pcs| ==> PcOk(cfg, a, w, s.pcs[w]))
    && (forall w :: w in a.held ==> w < |s.pcs|)
  }

  // --- The event of an action -----------------------------------------------------------

  function EventOfStep(server: Server, w: WorkerId, pc: Pc, next: Pc, deadline: bool): Option<L.Event>
  {
    match pc
    case Enter => if next.ReadCounter? then Some(L.Claim) else None
    case Publish(v) => if next.JoinRead? then Some(L.Open(v)) else None
    case JoinCas(_, _) => if SeatOf(next).Some? then Some(L.Join(w)) else None
    case LastCallCas(_, _, _) =>
      if next.PeersRead? then Some(L.Seal) else if next.Enter? then Some(L.Quit(w)) else None
    case ConfirmCas(v, rank, _) =>
      if next.FinalRead? then Some(L.Confirm(w, Seat(v, rank) in server.leases))
      else if next.Enter? then Some(L.Quit(w)) else None
    case FinalRead(_, _) =>
      if next.Returned? then Some(L.Return(w)) else if next.Enter? then Some(L.Quit(w)) else None
    case AnnounceCas(_, _) => if next.FreeRead? then Some(L.Announce) else None
    case Destroy(_, snap) => if server.active.Some? && server.active.value.value == snap then Some(L.Dissolve) else None
    case CloseCas(snap) => if server.active.Some? && server.active.value.value == snap then Some(L.Close) else None
    case _ => if SeatOf(pc).Some? && next.Enter? then Some(L.Quit(w)) else None
  }

  ghost function EventOf(cfg: Config, s: System, a: L.Ledger, act: Action): Option<L.Event>
  {
    match act
    case Step(w, deadline) =>
      if w < |s.pcs| then EventOfStep(s.server, w, s.pcs[w], StepWorker(cfg, s.server, w, s.pcs[w], deadline).1, deadline) else None
    case Begin(_) => None
    case BeginClose(_) => None
    case Retry(w) => if w in a.held then Some(L.Quit(w)) else None
    case Leave(w) => if w in a.held then Some(L.Quit(w)) else None
    case ExpireActive => if s.server.active.Some? && s.server.active.value.ephemeral then Some(L.Expire) else None
    case LapseLease(seat) => if seat in a.confirmed then Some(L.Lapse(seat)) else None
  }

  ghost predicate MirrorAllowed(cfg: Config, a: L.Ledger, e: Option<L.Event>)
  {
    e.Some? ==> L.Allowed(cfg, a, e.value)
  }

  ghost function Mirror(cfg: Config, a: L.Ledger, e: Option<L.Event>): L.Ledger
  {
    if e.Some? && L.Allowed(cfg, a, e.value) then L.Perform(cfg, a, e.value) else a
  }

  /** The worker an event belongs to, if any. */
  function ActorOf(e: L.Event): Option<WorkerId>
  {
    match e
    case Join(w) => Some(w)
    case Confirm(w, _) => Some(w)
    case Quit(w) => Some(w)
    case Return(w) => Some(w)
    case _ => None
  }

  // --- Stability: other workers' knowledge survives ----------------------------------------

  lemma PcStable(cfg: Config, a: L.Ledger, e: L.Event, w: WorkerId, pc: Pc)
    requires L.Inv(cfg, a) && L.Allowed(cfg, a, e) && ActorOf(e) != Some(w)
    requires PcOk(cfg, a, w, pc)
    ensures PcOk(cfg, L.Perform(cfg, a, e), w, pc)
  {
  }

  // --- One worker moves -----------------------------------------------------------------

  /** The parts of `Simulates` that concern only the moving worker and the server. */
  ghost predicate MoveOk(cfg: Config, s: System, a: L.Ledger, w: WorkerId, server: Server, pc: Pc, e: Option<L.Event>)
    requires w < |s.pcs|
  {
    && MirrorAllowed(cfg, a, e)
    && (e.Some? ==> ActorOf(e.value) == None || ActorOf(e.value) == Some(w))
    && var b := Mirror(cfg, a, e);
    && KeyMatches(cfg, server.active, b) && StoreOk(cfg, server, b) && LeasesOk(server, b)
    && NumbersOk(System(server, s.pcs[w := pc]), b)
    && PcOk(cfg, b, w, pc)
  }

  lemma MoveSimulates(cfg: Config, s: System, a: L.Ledger, w: WorkerId, server: Server, pc: Pc, e: Option<L.Event>)
    requires Simulates(cfg, s, a) && w < |s.pcs| && MoveOk(cfg, s, a, w, server, pc, e)
    ensures Simulates(cfg, System(server, s.pcs[w := pc]), Mirror(cfg, a, e))
  {
    var pcs := s.pcs[w := pc];
    var b := Mirror(cfg, a, e);
    if e.Some? {
      L.PerformKeepsInv(cfg, a, e.value);
    }
    forall u | 0 <= u < |pcs|
      ensures PcOk(cfg, b, u, pcs[u])
    {
      if u != w && e.Some? {
        PcStable(cfg, a, e.value, u, s.pcs[u]);
      }
    }
  }

  /** A move that draws no version number and opens no version. */
  lemma NumbersKept(s: System, a: L.Ledger, w: WorkerId, server: Server, pc: Pc, b: L.Ledger)
    requires NumbersOk(s, a) && w < |s.pcs| && DrawnBy(pc) == None
    requires server.dirs == s.server.dirs && server.counter == s.server.counter && b.rosters.Keys == a.rosters.Keys
    ensures NumbersOk(System(server, s.pcs[w := pc]), b)
  {
    var pcs := s.pcs[w := pc];
    forall u | 0 <= u < |pcs|
      ensures DrawOk(server, b, pcs[u])
    {
      if u != w { assert DrawOk(s.server, a, s.pcs[u]); }
    }
  }

  /** A worker whose read tells it to give up, or to go on without any event. */
  lemma SameServerSimulates(cfg: Config, s: System, a: L.Ledger, w: WorkerId, pc: Pc, e: Option<L.Event>)
    requires Simulates(cfg, s, a) && w < |s.pcs| && DrawnBy(pc) == None
    requires e == None || (e == Some(L.Quit(w)) && w in a.held) || (e == Some(L.Return(w)) && L.Allowed(cfg, a, L.Return(w)))
    requires PcOk(cfg, Mirror(cfg, a, e), w, pc)
    ensures MoveOk(cfg, s, a, w, s.server, pc, e)
  {
    NumbersKept(s, a, w, s.server, pc, Mirror(cfg, a, e));
  }

  /** A worker without a membership reads the key. */
  lemma FreeReadSimulates(cfg: Config, s: System, a: L.Ledger, w: WorkerId)
    requires Simulates(cfg, s, a) && w < |s.pcs| && IsRead(s.pcs[w]) && SeatOf(s.pcs[w]).None?
    ensures PcOk(cfg, a, w, StepRead(cfg, s.server.active, s.pcs[w]))
  {
    assert PcOk(cfg, a, w, s.pcs[w]);
  }

  /** A joined worker reads the key: it goes on, returns, or gives its membership up. */
  lemma SeatReadSimulates(cfg: Config, s: System, a: L.Ledger, w: WorkerId)
    requires Simulates(cfg, s, a) && w < |s.pcs| && IsRead(s.pcs[w]) && SeatOf(s.pcs[w]).Some?
    ensures
      var next := StepRead(cfg, s.server.active, s.pcs[w]);
      && w in a.held
      && (next.Enter? ==> PcOk(cfg, Mirror(cfg, a, Some(L.Quit(w))), w, next))
      && (next.Returned? ==> L.Allowed(cfg, a, L.Return(w)) && PcOk(cfg, Mirror(cfg, a, Some(L.Return(w))), w, next))
      && (!next.Enter? && !next.Returned? ==> PcOk(cfg, a, w, next))
  {
    assert PcOk(cfg, a, w, s.pcs[w]);
  }

  /** The event of a read: giving a membership up, returning one, or none. */
  lemma ReadEvent(cfg: Config, server: Server, w: WorkerId, pc: Pc, deadline: bool)
    requires IsRead(pc)
    ensures
      var next := StepRead(cfg, server.active, pc);
      && StepWorker(cfg, server, w, pc, deadline) == (server, next) && DrawnBy(next) == None
      && (next.Returned? ==> SeatOf(pc).Some?)
      && EventOfStep(server, w, pc, next, deadline)
         == (if next.Returned? then Some(L.Return(w)) else if SeatOf(pc).Some? && next.Enter? then Some(L.Quit(w)) else None)
  {
  }

  lemma ReadSimulates(cfg: Config, s: System, a: L.Ledger, w: WorkerId, deadline: bool)
    requires Simulates(cfg, s, a) && w < |s.pcs| && IsRead(s.pcs[w])
    ensures MoveOk(cfg, s, a, w, s.server, StepRead(cfg, s.server.active, s.pcs[w]), EventOf(cfg, s, a, Step(w, deadline)))
  {
    var next, e := StepRead(cfg, s.server.active, s.pcs[w]), EventOf(cfg, s, a, Step(w, deadline));
    ReadEvent(cfg, s.server, w, s.pcs[w], deadline);
    if SeatOf(s.pcs[w]).None? { FreeReadSimulates(cfg, s, a, w); } else { SeatReadSimulates(cfg, s, a, w); }
    SameServerSimulates(cfg, s, a, w, next, e);
  }

  // --- Compare-and-swap sites -------------------------------------------------------------

  lemma MissedPcOk(cfg: Config, a: L.Ledger, w: WorkerId, pc: Pc, deadline: bool)
    requires PcOk(cfg, a, w, pc) && SwapOf(cfg, pc, deadline).Some?
    ensures
      var swap := SwapOf(cfg, pc, deadline).value;
      && PcOk(cfg, a, w, swap.failed)
      && PcOk(cfg, Mirror(cfg, a, if w in a.held then Some(L.Quit(w)) else None), w, swap.missing)
  {
  }

  /** A swap that did not succeed leaves the server untouched; the worker retries or re-enters. */
  lemma MissedResult(cfg: Config, server: Server, w: WorkerId, pc: Pc, deadline: bool)
    requires SwapOf(cfg, pc, deadline).Some?
    requires !(server.active.Some? && server.active.value.value == SwapOf(cfg, pc, deadline).value.prev)
    ensures
      var swap := SwapOf(cfg, pc, deadline).value;
      StepWorker(cfg, server, w, pc, deadline) == (server, if server.active.None? then swap.missing else swap.failed)
  {
    assert server.(active := server.active) == server;
  }

  lemma MissedSwapSimulates(cfg: Config, s: System, a: L.Ledger, w: WorkerId, deadline: bool)
    requires Simulates(cfg, s, a) && w < |s.pcs| && SwapOf(cfg, s.pcs[w], deadline).Some?
    requires !(s.server.active.Some? && s.server.active.value.value == SwapOf(cfg, s.pcs[w], deadline).value.prev)
    ensures
      var r := StepWorker(cfg, s.server, w, s.pcs[w], deadline);
      MoveOk(cfg, s, a, w, r.0, r.1, EventOf(cfg, s, a, Step(w, deadline)))
  {
    var pc := s.pcs[w];
    var next := if s.server.active.None? then SwapOf(cfg, pc, deadline).value.missing else SwapOf(cfg, pc, deadline).value.failed;
    assert PcOk(cfg, a, w, pc);
    MissedResult(cfg, s.server, w, pc, deadline);
    MissedPcOk(cfg, a, w, pc, deadline);
    var e := if SeatOf(pc).Some? && next.Enter? then Some(L.Quit(w)) else None;
    assert EventOf(cfg, s, a, Step(w, deadline)) == e;
    SameServerSimulates(cfg, s, a, w, next, e);
  }

  /** The comparison succeeds: the document is what the snapshot says. */
  ghost predicate SwapHits(cfg: Config, s: System, w: WorkerId, deadline: bool)
  {
    && w < |s.pcs| && SwapOf(cfg, s.pcs[w], deadline).Some?
    && s.server.active.Some? && s.server.active.value.value == SwapOf(cfg, s.pcs[w], deadline).value.prev
  }

  lemma PublishSimulates(cfg: Config, s: System, a: L.Ledger, w: WorkerId, deadline: bool)
    requires Simulates(cfg, s, a) && SwapHits(cfg, s, w, deadline) && s.pcs[w].Publish?
    ensures
      var r := StepWorker(cfg, s.server, w, s.pcs[w], deadline);
      MoveOk(cfg, s, a, w, r.0, r.1, EventOf(cfg, s, a, Step(w, deadline)))
  {
    var pc := s.pcs[w];
    assert PcOk(cfg, a, w, pc) && DrawOk(s.server, a, pc);
    var r := StepWorker(cfg, s.server, w, pc, deadline);
    var b := Mirror(cfg, a, Some(L.Open(pc.v)));
    var pcs := s.pcs[w := r.1];
    forall u | 0 <= u < |pcs|
      ensures DrawOk(r.0, b, pcs[u])
    {
      if u != w { assert DrawOk(s.server, a, s.pcs[u]) && DrawnBy(s.pcs[u]) != DrawnBy(pc); }
    }
  }

  lemma JoinSimulates(cfg: Config, s: System, a: L.Ledger, w: WorkerId, deadline: bool)
    requires Simulates(cfg, s, a) && SwapHits(cfg, s, w, deadline) && s.pcs[w].JoinCas?
    ensures
      var r := StepWorker(cfg, s.server, w, s.pcs[w], deadline);
      MoveOk(cfg, s, a, w, r.0, r.1, EventOf(cfg, s, a, Step(w, deadline)))
  {
    var pc := s.pcs[w];
    assert PcOk(cfg, a, w, pc);
    var r := StepWorker(cfg, s.server, w, pc, deadline);
    var b := Mirror(cfg, a, Some(L.Join(w)));
    NumbersKept(s, a, w, r.0, r.1, b);
    assert b.rosters[pc.v] == a.rosters[pc.v] + [w];
    assert pc.snap.participants + [|pc.snap.participants|] == Upto(|b.rosters[pc.v]|);
  }

  lemma LastCallSimulates(cfg: Config, s: System, a: L.Ledger, w: WorkerId, deadline: bool)
    requires Simulates(cfg, s, a) && SwapHits(cfg, s, w, deadline) && s.pcs[w].LastCallCas?
    ensures
      var r := StepWorker(cfg, s.server, w, s.pcs[w], deadline);
      MoveOk(cfg, s, a, w, r.0, r.1, EventOf(cfg, s, a, Step(w, deadline)))
  {
    var pc := s.pcs[w];
    assert PcOk(cfg, a, w, pc);
    var r := StepWorker(cfg, s.server, w, pc, deadline);
    var e := EventOf(cfg, s, a, Step(w, deadline));
    NumbersKept(s, a, w, r.0, r.1, Mirror(cfg, a, e));
  }

  /** The length test of the confirming worker is a pigeonhole: its keep-alive fills the
      list exactly when every other rank has confirmed. */
  lemma FillsWhenLast(cfg: Config, a: L.Ledger, seat: Seat, keepAlives: seq<Seat>)
    requires L.Inv(cfg, a) && L.HasSeat(a, seat) && seat !in a.confirmed
    requires ConfirmedExactly(a, seat.version, |a.rosters[seat.version]|, keepAlives)
    ensures |keepAlives| + 1 == |a.rosters[seat.version]| <==> L.LastToConfirm(a, seat)
    ensures |keepAlives| + 1 <= |a.rosters[seat.version]|
  {
    var v, n := seat.version, |a.rosters[seat.version]|;
    var next := keepAlives + [seat];
    var ranks := seq(|next|, i requires 0 <= i < |next| => next[i].rank);
    C.DistinctFill(ranks, n);
    forall r | 0 <= r < n
      ensures r in ranks <==> Seat(v, r) in next
    {
      if Seat(v, r) in next {
        var i :| 0 <= i < |next| && next[i] == Seat(v, r);
        assert ranks[i] == r;
      }
    }
  }

  /** The document after a confirmation lists exactly the confirmed seats. */
  lemma ConfirmKeyMatches(cfg: Config, a: L.Ledger, w: WorkerId, v: Version, snap: Value, ephemeral: bool, leased: bool)
    requires L.Inv(cfg, a) && w in a.held && a.held[w].version == v && a.held[w] !in a.confirmed
    requires KeyMatches(cfg, Some(Node(snap, ephemeral)), a) && snap.Frozen? && snap.version == v
    ensures L.Allowed(cfg, a, L.Confirm(w, leased))
    ensures KeyMatches(cfg, Some(ConfirmValue(snap, a.held[w])), L.Perform(cfg, a, L.Confirm(w, leased)))
  {
    var seat := a.held[w];
    var b := L.Perform(cfg, a, L.Confirm(w, leased));
    FillsWhenLast(cfg, a, seat, snap.keepAlives);
    assert ConfirmedExactly(b, v, |a.rosters[v]|, snap.keepAlives + [seat]);
  }

  lemma ConfirmSimulates(cfg: Config, s: System, a: L.Ledger, w: WorkerId, deadline: bool)
    requires Simulates(cfg, s, a) && SwapHits(cfg, s, w, deadline) && s.pcs[w].ConfirmCas?
    ensures
      var r := StepWorker(cfg, s.server, w, s.pcs[w], deadline);
      MoveOk(cfg, s, a, w, r.0, r.1, EventOf(cfg, s, a, Step(w, deadline)))
  {
    var pc := s.pcs[w];
    assert PcOk(cfg, a, w, pc);
    var leased := Seat(pc.v, pc.rank) in s.server.leases;
    var server := s.server.(active := Some(ConfirmValue(pc.snap, Seat(pc.v, pc.rank))));
    assert StepWorker(cfg, s.server, w, pc, deadline) == (server, FinalRead(pc.v, pc.rank));
    ConfirmKeyMatches(cfg, a, w, pc.v, pc.snap, s.server.active.value.ephemeral, leased);
    NumbersKept(s, a, w, server, FinalRead(pc.v, pc.rank), L.Perform(cfg, a, L.Confirm(w, leased)));
  }

  lemma AnnounceSimulates(cfg: Config, s: System, a: L.Ledger, w: WorkerId, deadline: bool)
    requires Simulates(cfg, s, a) && SwapHits(cfg, s, w, deadline) && s.pcs[w].AnnounceCas?
    ensures
      var r := StepWorker(cfg, s.server, w, s.pcs[w], deadline);
      MoveOk(cfg, s, a, w, r.0, r.1, EventOf(cfg, s, a, Step(w, deadline)))
  {
    assert PcOk(cfg, a, w, s.pcs[w]);
    var r := StepWorker(cfg, s.server, w, s.pcs[w], deadline);
    NumbersKept(s, a, w, r.0, r.1, Mirror(cfg, a, Some(L.Announce)));
  }

  lemma CloseSimulates(cfg: Config, s: System, a: L.Ledger, w: WorkerId, deadline: bool)
    requires Simulates(cfg, s, a) && SwapHits(cfg, s, w, deadline) && s.pcs[w].CloseCas?
    ensures
      var r := StepWorker(cfg, s.server, w, s.pcs[w], deadline);
      MoveOk(cfg, s, a, w, r.0, r.1, EventOf(cfg, s, a, Step(w, deadline)))
  {
    assert PcOk(cfg, a, w, s.pcs[w]);
    var r := StepWorker(cfg, s.server, w, s.pcs[w], deadline);
    NumbersKept(s, a, w, r.0, r.1, Mirror(cfg, a, Some(L.Close)));
  }

  // --- The remaining calls ----------------------------------------------------------------

  lemma DrawSimulates(cfg: Config, s: System, a: L.Ledger, w: WorkerId, deadline: bool)
    requires Simulates(cfg, s, a) && w < |s.pcs| && (s.pcs[w].UpdateCounter? || s.pcs[w].MakeDir?)
    ensures
      var r := StepWorker(cfg, s.server, w, s.pcs[w], deadline);
      MoveOk(cfg, s, a, w, r.0, r.1, EventOf(cfg, s, a, Step(w, deadline)))
  {
    var pc := s.pcs[w];
    assert PcOk(cfg, a, w, pc) && DrawOk(s.server, a, pc);
    var r := StepWorker(cfg, s.server, w, pc, deadline);
    var pcs := s.pcs[w := r.1];
    forall u | 0 <= u < |pcs|
      ensures DrawOk(r.0, a, pcs[u])
      ensures u != w && DrawnBy(pcs[u]).Some? ==> DrawnBy(pcs[u]) != DrawnBy(r.1)
    {
      if u != w { assert DrawOk(s.server, a, s.pcs[u]); }
    }
  }

  lemma EnterSimulates(cfg: Config, s: System, a: L.Ledger, w: WorkerId, deadline: bool)
    requires Simulates(cfg, s, a) && w < |s.pcs| && (s.pcs[w].Enter? || s.pcs[w].Destroy?)
    ensures
      var r := StepWorker(cfg, s.server, w, s.pcs[w], deadline);
      MoveOk(cfg, s, a, w, r.0, r.1, EventOf(cfg, s, a, Step(w, deadline)))
  {
    assert PcOk(cfg, a, w, s.pcs[w]);
    var r := StepWorker(cfg, s.server, w, s.pcs[w], deadline);
    var e := EventOf(cfg, s, a, Step(w, deadline));
    assert MirrorAllowed(cfg, a, e);
    NumbersKept(s, a, w, r.0, r.1, Mirror(cfg, a, e));
  }

  lemma LeaseSimulates(cfg: Config, s: System, a: L.Ledger, w: WorkerId, deadline: bool)
    requires Simulates(cfg, s, a) && w < |s.pcs| && s.pcs[w].ConfirmLease?
    ensures
      var r := StepWorker(cfg, s.server, w, s.pcs[w], deadline);
      MoveOk(cfg, s, a, w, r.0, r.1, EventOf(cfg, s, a, Step(w, deadline)))
  {
    assert PcOk(cfg, a, w, s.pcs[w]);
    var r := StepWorker(cfg, s.server, w, s.pcs[w], deadline);
    NumbersKept(s, a, w, r.0, r.1, a);
  }

  lemma PutInfoSimulates(cfg: Config, s: System, a: L.Ledger, w: WorkerId, deadline: bool)
    requires Simulates(cfg, s, a) && w < |s.pcs| && s.pcs[w].Returned?
    ensures
      var r := StepWorker(cfg, s.server, w, s.pcs[w], deadline);
      MoveOk(cfg, s, a, w, r.0, r.1, EventOf(cfg, s, a, Step(w, deadline)))
  {
    assert PcOk(cfg, a, w, s.pcs[w]);
    var r := StepWorker(cfg, s.server, w, s.pcs[w], deadline);
    NumbersKept(s, a, w, r.0, r.1, a);
  }

  lemma GatherSimulates(cfg: Config, s: System, a: L.Ledger, w: WorkerId, deadline: bool)
    requires Simulates(cfg, s, a) && w < |s.pcs| && s.pcs[w].Gather?
    ensures
      var r := StepWorker(cfg, s.server, w, s.pcs[w], deadline);
      MoveOk(cfg, s, a, w, r.0, r.1, EventOf(cfg, s, a, Step(w, deadline)))
  {
    assert PcOk(cfg, a, w, s.pcs[w]);
    var r := StepWorker(cfg, s.server, w, s.pcs[w], deadline);
    NumbersKept(s, a, w, r.0, r.1, a);
  }

  lemma OtherSimulates(cfg: Config, s: System, a: L.Ledger, w: WorkerId, deadline: bool)
    requires Simulates(cfg, s, a) && w < |s.pcs|
    requires s.pcs[w].Idle? || s.pcs[w].ReadCounter? || s.pcs[w].FreeList? || s.pcs[w].Ranked?
    ensures
      var r := StepWorker(cfg, s.server, w, s.pcs[w], deadline);
      MoveOk(cfg, s, a, w, r.0, r.1, EventOf(cfg, s, a, Step(w, deadline)))
  {
    assert PcOk(cfg, a, w, s.pcs[w]);
    var r := StepWorker(cfg, s.server, w, s.pcs[w], deadline);
    SameServerSimulates(cfg, s, a, w, r.1, None);
  }

  lemma StepSimulates(cfg: Config, s: System, a: L.Ledger, w: WorkerId, deadline: bool)
    requires Simulates(cfg, s, a) && w < |s.pcs|
    ensures
      var r := StepWorker(cfg, s.server, w, s.pcs[w], deadline);
      MoveOk(cfg, s, a, w, r.0, r.1, EventOf(cfg, s, a, Step(w, deadline)))
  {
    var pc := s.pcs[w];
    assert PcOk(cfg, a, w, pc);
    if IsRead(pc) {
      ReadSimulates(cfg, s, a, w, deadline);
    } else if SwapOf(cfg, pc, deadline).Some? {
      if !SwapHits(cfg, s, w, deadline) {
        MissedSwapSimulates(cfg, s, a, w, deadline);
      } else {
        match pc
        case Publish(_) => PublishSimulates(cfg, s, a, w, deadline);
        case JoinCas(_, _) => JoinSimulates(cfg, s, a, w, deadline);
        case LastCallCas(_, _, _) => LastCallSimulates(cfg, s, a, w, deadline);
        case ConfirmCas(_, _, _) => ConfirmSimulates(cfg, s, a, w, deadline);
        case AnnounceCas(_, _) => AnnounceSimulates(cfg, s, a, w, deadline);
        case _ => CloseSimulates(cfg, s, a, w, deadline);
      }
    } else if pc.UpdateCounter? || pc.MakeDir? {
      DrawSimulates(cfg, s, a, w, deadline);
    } else if pc.Enter? || pc.Destroy? {
      EnterSimulates(cfg, s, a, w, deadline);
    } else if pc.ConfirmLease? {
      LeaseSimulates(cfg, s, a, w, deadline);
    } else if pc.Returned? {
      PutInfoSimulates(cfg, s, a, w, deadline);
    } else if pc.Gather? {
      GatherSimulates(cfg, s, a, w, deadline);
    } else {
      OtherSimulates(cfg, s, a, w, deadline);
    }
  }

  // --- The environment ----------------------------------------------------------------------

  lemma OthersStable(cfg: Config, s: System, a: L.Ledger, e: L.Event)
    requires Simulates(cfg, s, a) && L.Allowed(cfg, a, e) && ActorOf(e) == None
    ensures forall w :: 0 <= w < |s.pcs| ==> PcOk(cfg, L.Perform(cfg, a, e), w, s.pcs[w])
    ensures L.Inv(cfg, L.Perform(cfg, a, e))
  {
    L.PerformKeepsInv(cfg, a, e);
    forall w | 0 <= w < |s.pcs|
      ensures PcOk(cfg, L.Perform(cfg, a, e), w, s.pcs[w])
    {
      PcStable(cfg, a, e, w, s.pcs[w]);
    }
  }

  lemma ExpireSimulates(cfg: Config, s: System, a: L.Ledger)
    requires Simulates(cfg, s, a) && s.server.active.Some? && s.server.active.value.ephemeral
    ensures L.Allowed(cfg, a, L.Expire)
    ensures Simulates(cfg, Apply(cfg, s, ExpireActive), L.Perform(cfg, a, L.Expire))
  {
    OthersStable(cfg, s, a, L.Expire);
  }

  lemma LapseSimulates(cfg: Config, s: System, a: L.Ledger, seat: Seat)
    requires Simulates(cfg, s, a)
    ensures Simulates(cfg, Apply(cfg, s, LapseLease(seat)), Mirror(cfg, a, if seat in a.confirmed then Some(L.Lapse(seat)) else None))
  {
    if seat in a.confirmed { OthersStable(cfg, s, a, L.Lapse(seat)); }
  }

  /** A worker's control is moved from outside: out of a call, into one, or back to the loop's head. */
  lemma MoveToSimulates(cfg: Config, s: System, a: L.Ledger, w: WorkerId, pc: Pc)
    requires Simulates(cfg, s, a) && w < |s.pcs| && (pc.Idle? || pc.Enter? || (pc.CloseRead? && w !in a.held))
    ensures
      var e := if w in a.held then Some(L.Quit(w)) else None;
      MirrorAllowed(cfg, a, e) && Simulates(cfg, MoveTo(s, w, pc), Mirror(cfg, a, e))
  {
    assert PcOk(cfg, a, w, s.pcs[w]);
    var e := if w in a.held then Some(L.Quit(w)) else None;
    SameServerSimulates(cfg, s, a, w, pc, e);
    MoveSimulates(cfg, s, a, w, s.server, pc, e);
  }

  lemma OutsideHoldsNothing(cfg: Config, s: System, a: L.Ledger, w: WorkerId)
    requires Simulates(cfg, s, a)
    ensures w < |s.pcs| && !InBarrier(s.pcs[w]) ==> w !in a.held
    ensures w >= |s.pcs| ==> w !in a.held
  {
    if w < |s.pcs| { assert PcOk(cfg, a, w, s.pcs[w]); }
  }

  lemma ControlSimulates(cfg: Config, s: System, a: L.Ledger, act: Action)
    requires Simulates(cfg, s, a) && (act.Begin? || act.BeginClose? || act.Retry? || act.Leave?)
    ensures MirrorAllowed(cfg, a, EventOf(cfg, s, a, act))
    ensures Simulates(cfg, Apply(cfg, s, act), Mirror(cfg, a, EventOf(cfg, s, a, act)))
  {
    OutsideHoldsNothing(cfg, s, a, act.w);
    var next := Apply(cfg, s, act);
    if act.w < |s.pcs| && (act.Leave? || (act.Retry? && InBarrier(s.pcs[act.w])) || (!act.Retry? && AtRest(s.pcs[act.w]))) {
      MoveToSimulates(cfg, s, a, act.w, next.pcs[act.w]);
    }
  }

  /** Every action is a stutter or exactly one allowed event. */
  lemma ApplySimulates(cfg: Config, s: System, a: L.Ledger, act: Action)
    requires Simulates(cfg, s, a)
    ensures MirrorAllowed(cfg, a, EventOf(cfg, s, a, act))
    ensures Simulates(cfg, Apply(cfg, s, act), Mirror(cfg, a, EventOf(cfg, s, a, act)))
  {
    match act
    case Step(w, deadline) =>
      if w < |s.pcs| {
        var r := StepWorker(cfg, s.server, w, s.pcs[w], deadline);
        var e := EventOf(cfg, s, a, act);
        StepSimulates(cfg, s, a, w, deadline);
        MoveSimulates(cfg, s, a, w, r.0, r.1, e);
      }
    case ExpireActive =>
      if s.server.active.Some? && s.server.active.value.ephemeral { ExpireSimulates(cfg, s, a); }
    case LapseLease(seat) =>
      LapseSimulates(cfg, s, a, seat);
    case _ =>
      ControlSimulates(cfg, s, a, act);
  }

  // --- Runs ---------------------------------------------------------------------------------

  lemma InitSimulates(cfg: Config, workers: nat)
    requires cfg.Valid()
    ensures Simulates(cfg, Init(workers), L.EMPTY)
  {
    L.EmptyInv(cfg);
  }

  /** The ledger that a run has reached after its first `i` actions. */
  ghost function LedgerAt(cfg: Config, workers: nat, schedule: seq<Action>, i: nat): (a: L.Ledger)
    requires i <= |schedule|
    decreases i, 0
  {
    if i == 0 then L.EMPTY
    else Mirror(cfg, LedgerAt(cfg, workers, schedule, i - 1), EventAt(cfg, workers, schedule, i - 1))
  }

  ghost function EventAt(cfg: Config, workers: nat, schedule: seq<Action>, i: nat): (e: Option<L.Event>)
    requires i < |schedule|
    decreases i, 1
  {
    EventOf(cfg, StateAt(cfg, workers, schedule, i), LedgerAt(cfg, workers, schedule, i), schedule[i])
  }

  lemma {:induction false} RunSimulates(cfg: Config, workers: nat, schedule: seq<Action>, i: nat)
    requires cfg.Valid() && i <= |schedule|
    ensures Simulates(cfg, StateAt(cfg, workers, schedule, i), LedgerAt(cfg, workers, schedule, i))
  {
    if i == 0 {
      InitSimulates(cfg, workers);
    } else {
      RunSimulates(cfg, workers, schedule, i - 1);
      NextState(cfg, workers, schedule, i - 1);
      ApplySimulates(cfg, StateAt(cfg, workers, schedule, i - 1), LedgerAt(cfg, workers, schedule, i - 1), schedule[i - 1]);
    }
  }

  /** What the ledger of a run satisfies at every action. */
  lemma RunInv(cfg: Config, workers: nat, schedule: seq<Action>, i: nat)
    requires cfg.Valid() && i <= |schedule|
    ensures L.Inv(cfg, LedgerAt(cfg, workers, schedule, i))
    ensures i < |schedule| ==> MirrorAllowed(cfg, LedgerAt(cfg, workers, schedule, i), EventAt(cfg, workers, schedule, i))
  {
    RunSimulates(cfg, workers, schedule, i);
    if i < |schedule| {
      ApplySimulates(cfg, StateAt(cfg, workers, schedule, i), LedgerAt(cfg, workers, schedule, i), schedule[i]);
    }
  }

  /** The refinement theorem: any run of the step system is, action by action, a run of the
      atomic machine with stutters. */
  lemma {:induction false} RunRefines(cfg: Config, workers: nat, schedule: seq<Action>, i: nat)
    returns (events: seq<L.Event>)
    requires cfg.Valid() && i <= |schedule|
    ensures |events| <= i && L.Legal(cfg, L.EMPTY, events)
    ensures Simulates(cfg, StateAt(cfg, workers, schedule, i), L.Play(cfg, L.EMPTY, events))
  {
    RunSimulates(cfg, workers, schedule, i);
    events := RunEvents(cfg, workers, schedule, i);
  }

  lemma {:induction false} RunEvents(cfg: Config, workers: nat, schedule: seq<Action>, i: nat)
    returns (events: seq<L.Event>)
    requires cfg.Valid() && i <= |schedule|
    ensures |events| <= i && L.Legal(cfg, L.EMPTY, events)
    ensures L.Play(cfg, L.EMPTY, events) == LedgerAt(cfg, workers, schedule, i)
  {
    if i == 0 {
      events := [];
    } else {
      events := RunEvents(cfg, workers, schedule, i - 1);
      RunInv(cfg, workers, schedule, i - 1);
      var e := EventAt(cfg, workers, schedule, i - 1);
      if e.Some? {
        L.PlayOneMore(cfg, L.EMPTY, events, e.value);
        events := events + [e.value];
      }
    }
  }

  lemma {:induction false} LedgerExtends(cfg: Config, workers: nat, schedule: seq<Action>, i: nat, j: nat)
    requires cfg.Valid() && i <= j <= |schedule|
    ensures L.Extends(LedgerAt(cfg, workers, schedule, i), LedgerAt(cfg, workers, schedule, j))
  {
    RunInv(cfg, workers, schedule, i);
    if i < j {
      LedgerExtends(cfg, workers, schedule, i, j - 1);
      RunInv(cfg, workers, schedule, j - 1);
      var a := LedgerAt(cfg, workers, schedule, j - 1);
      var e := EventAt(cfg, workers, schedule, j - 1);
      if e.Some? {
        L.PerformExtends(cfg, a, e.value);
        L.ExtendsTransitive(LedgerAt(cfg, workers, schedule, i), a, L.Perform(cfg, a, e.value));
      }
    }
  }
}
