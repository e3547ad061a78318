// The atomic rendezvous: what the protocol means, without snapshots, participant lists,
// keep-alive lists or compare-and-swap.  A ledger remembers who joined each version, which
// memberships were confirmed, and which versions were completed; every event is one
// indivisible decision whose guard speaks about that history.

module RendezvousLedger {
  import opened Outcomes
  import opened RendezvousState

  datatype Phase =
    | Vacant
    | Starting
    | Gathering(v: Version)
    | Sealed(v: Version)
    | Complete(v: Version, waiting: nat)
    | Shut

  datatype Ledger = Ledger(
    phase: Phase,
    rosters: map<Version, seq<WorkerId>>,   // of every version ever opened: who took rank 0, 1, ...
    confirmed: set<Seat>,
    completed: set<Version>,
    held: map<WorkerId, Seat>,              // the membership a worker is acting for
    returned: set<Seat>,                    // memberships handed out by the barrier
    lapsed: set<Seat>)                      // confirmed memberships whose lease was lost

  datatype Event =
    | Claim
    | Open(v: Version)
    | Join(w: WorkerId)
    | Seal
    | Confirm(w: WorkerId, leased: bool)
    | Announce
    | Dissolve
    | Close
    | Expire
    | Lapse(seat: Seat)
    | Quit(w: WorkerId)
    | Return(w: WorkerId)

  const EMPTY := Ledger(Vacant, map[], {}, {}, map[], {}, {})

  predicate HasSeat(a: Ledger, seat: Seat)
  {
    seat.version in a.rosters && seat.rank < |a.rosters[seat.version]|
  }

  function Holder(a: Ledger, seat: Seat): WorkerId
    requires HasSeat(a, seat)
  {
    a.rosters[seat.version][seat.rank]
  }

  ghost predicate AllConfirmed(a: Ledger, v: Version)
    requires v in a.rosters
  {
    forall r :: 0 <= r < |a.rosters[v]| ==> Seat(v, r) in a.confirmed
  }

  ghost predicate Allowed(cfg: Config, a: Ledger, e: Event)
  {
    match e
    case Claim => a.phase.Vacant?
    case Open(v) => a.phase.Starting? && v !in a.rosters
    case Join(w) => a.phase.Gathering? && a.phase.v in a.rosters && |a.rosters[a.phase.v]| < cfg.max && w !in a.held
    case Seal => a.phase.Gathering? && a.phase.v in a.rosters && |a.rosters[a.phase.v]| >= cfg.min
    case Confirm(w, _) =>
      && w in a.held && HasSeat(a, a.held[w]) && Holder(a, a.held[w]) == w
      && a.phase == Sealed(a.held[w].version) && a.held[w] !in a.confirmed
    case Announce => a.phase.Complete?
    case Dissolve => a.phase.Complete? && exists seat :: seat in a.lapsed && seat.version == a.phase.v
    case Close => !a.phase.Vacant? && !a.phase.Shut?
    case Expire =>
      || a.phase.Starting? || a.phase.Sealed?
      || (a.phase.Gathering? && a.phase.v in a.rosters && |a.rosters[a.phase.v]| >= cfg.min)
    case Lapse(seat) => seat in a.confirmed
    case Quit(w) => w in a.held
    case Return(w) => w in a.held && a.phase.Complete? && a.phase.v == a.held[w].version && a.held[w] in a.confirmed
  }

  /** Does confirming `seat` leave nobody of its version unconfirmed? */
  ghost predicate LastToConfirm(a: Ledger, seat: Seat)
    requires HasSeat(a, seat)
  {
    forall r :: 0 <= r < |a.rosters[seat.version]| && r != seat.rank ==> Seat(seat.version, r) in a.confirmed
  }

  ghost function Perform(cfg: Config, a: Ledger, e: Event): Ledger
    requires Allowed(cfg, a, e)
  {
    match e
    case Claim => a.(phase := Starting)
    case Open(v) => a.(phase := Gathering(v), rosters := a.rosters[v := []])
    case Join(w) =>
      var v := a.phase.v;
      var roster := a.rosters[v] + [w];
      a.(phase := if |roster| == cfg.max then Sealed(v) else a.phase,
         rosters := a.rosters[v := roster],
         held := a.held[w := Seat(v, |roster| - 1)])
    case Seal => a.(phase := Sealed(a.phase.v))
    case Confirm(w, leased) =>
      var seat := a.held[w];
      var last := LastToConfirm(a, seat);
      a.(phase := if last then Complete(seat.version, 0) else a.phase,
         confirmed := a.confirmed + {seat},
         completed := if last then a.completed + {seat.version} else a.completed,
         lapsed := if leased then a.lapsed else a.lapsed + {seat})
    case Announce => a.(phase := Complete(a.phase.v, a.phase.waiting + 1))
    case Dissolve => a.(phase := Vacant)
    case Close => a.(phase := Shut)
    case Expire => a.(phase := Vacant)
    case Lapse(seat) => a.(lapsed := a.lapsed + {seat})
    case Quit(w) => a.(held := a.held - {w})
    case Return(w) => a.(held := a.held - {w}, returned := a.returned + {a.held[w]})
  }

  // --- What every event keeps -----------------------------------------------------------

  ghost predicate RosterOk(cfg: Config, a: Ledger, v: Version)
    requires v in a.rosters
  {
    && |a.rosters[v]| <= cfg.max
    && (v in a.completed ==> cfg.min <= |a.rosters[v]| && AllConfirmed(a, v))
  }

  ghost predicate PhaseOk(cfg: Config, a: Ledger)
  {
    match a.phase
    case Gathering(v) =>
      && v in a.rosters && v !in a.completed && |a.rosters[v]| < cfg.max
      && (forall r :: 0 <= r < |a.rosters[v]| ==> Seat(v, r) !in a.confirmed)
    case Sealed(v) =>
      && v in a.rosters && v !in a.completed && cfg.min <= |a.rosters[v]| && !AllConfirmed(a, v)
    case Complete(v, _) => v in a.rosters && v in a.completed
    case _ => true
  }

  /** A membership its holder walked away from unconfirmed stays unconfirmed forever, so a
      worker that joined a version twice never sees it completed. */
  ghost predicate NoSecondSeat(a: Ledger)
  {
    forall v, r0, r1 :: v in a.rosters && 0 <= r0 < r1 < |a.rosters[v]| && a.rosters[v][r0] == a.rosters[v][r1] ==>
      && Seat(v, r0) !in a.confirmed
      && !(a.rosters[v][r0] in a.held && a.held[a.rosters[v][r0]] == Seat(v, r0))
  }

  ghost predicate Inv(cfg: Config, a: Ledger)
  {
    && cfg.Valid()
    && PhaseOk(cfg, a)
    && (forall v :: v in a.rosters ==> RosterOk(cfg, a, v))
    && a.completed <= a.rosters.Keys
    && (forall s :: s in a.confirmed ==> HasSeat(a, s))
    && (forall w :: w in a.held ==> HasSeat(a, a.held[w]) && Holder(a, a.held[w]) == w && a.held[w] !in a.returned)
    && (forall s :: s in a.returned ==> s in a.confirmed && s.version in a.completed)
    && a.lapsed <= a.confirmed
    && NoSecondSeat(a)
  }

  lemma EmptyInv(cfg: Config)
    requires cfg.Valid()
    ensures Inv(cfg, EMPTY)
  {
  }

  lemma JoinKeepsInv(cfg: Config, a: Ledger, w: WorkerId)
    requires Inv(cfg, a) && Allowed(cfg, a, Join(w))
    ensures Inv(cfg, Perform(cfg, a, Join(w)))
  {
    var b := Perform(cfg, a, Join(w));
    var v := a.phase.v;
    assert Seat(v, |a.rosters[v]|) !in b.confirmed;
    assert NoSecondSeat(b);
  }

  lemma ConfirmKeepsInv(cfg: Config, a: Ledger, w: WorkerId, leased: bool)
    requires Inv(cfg, a) && Allowed(cfg, a, Confirm(w, leased))
    ensures Inv(cfg, Perform(cfg, a, Confirm(w, leased)))
  {
    var b := Perform(cfg, a, Confirm(w, leased));
    var seat := a.held[w];
    if !LastToConfirm(a, seat) {
      var r :| 0 <= r < |a.rosters[seat.version]| && r != seat.rank && Seat(seat.version, r) !in a.confirmed;
      assert Seat(seat.version, r) !in b.confirmed;
    }
    assert NoSecondSeat(b);
  }

  lemma PerformKeepsInv(cfg: Config, a: Ledger, e: Event)
    requires Inv(cfg, a) && Allowed(cfg, a, e)
    ensures Inv(cfg, Perform(cfg, a, e))
  {
    match e
    case Join(w) => JoinKeepsInv(cfg, a, w);
    case Confirm(w, leased) => ConfirmKeepsInv(cfg, a, w, leased);
    case Seal => assert Seat(a.phase.v, 0) !in a.confirmed;
    case _ =>
  }

  // --- What never changes back ----------------------------------------------------------

  /** History only grows, and the roster of a completed version is settled. */
  ghost predicate Extends(a: Ledger, b: Ledger)
  {
    && (forall v :: v in a.rosters ==> v in b.rosters && a.rosters[v] <= b.rosters[v])
    && (forall v :: v in a.completed ==> v in a.rosters && v in b.rosters && v in b.completed && a.rosters[v] == b.rosters[v])
    && a.confirmed <= b.confirmed
    && a.returned <= b.returned
    && a.lapsed <= b.lapsed
  }

  lemma PerformExtends(cfg: Config, a: Ledger, e: Event)
    requires Inv(cfg, a) && Allowed(cfg, a, e)
    ensures Extends(a, Perform(cfg, a, e))
  {
  }

  lemma {:induction false} ExtendsTransitive(a: Ledger, b: Ledger, c: Ledger)
    requires Extends(a, b) && Extends(b, c)
    ensures Extends(a, c)
  {
  }

  // --- Consequences of single events ------------------------------------------------------

  /** The holder of this membership walked away before confirming it. */
  ghost predicate Abandoned(a: Ledger, seat: Seat)
  {
    && HasSeat(a, seat) && seat !in a.confirmed
    && forall w :: w in a.held ==> a.held[w] != seat
  }

  lemma AbandonedForever(cfg: Config, a: Ledger, e: Event, seat: Seat)
    requires Inv(cfg, a) && Allowed(cfg, a, e) && Abandoned(a, seat)
    ensures Abandoned(Perform(cfg, a, e), seat)
  {
  }

  lemma AbandonedBlocks(cfg: Config, a: Ledger, seat: Seat)
    requires Inv(cfg, a) && Abandoned(a, seat)
    ensures seat.version !in a.completed
  {
    assert RosterOk(cfg, a, seat.version);
  }

  /** Version `v` no longer admits anyone. */
  ghost predicate Settled(a: Ledger, v: Version)
  {
    v in a.rosters && a.phase != Gathering(v)
  }

  lemma SettledForever(cfg: Config, a: Ledger, e: Event, v: Version)
    requires Inv(cfg, a) && Allowed(cfg, a, e) && Settled(a, v)
    ensures Settled(Perform(cfg, a, e), v) && Perform(cfg, a, e).rosters[v] == a.rosters[v]
  {
  }

  function PhaseVersion(phase: Phase): Option<Version>
  {
    match phase
    case Gathering(v) => Some(v)
    case Sealed(v) => Some(v)
    case Complete(v, _) => Some(v)
    case _ => None
  }

  /** A version becomes the active one only by being opened. */
  lemma OnlyOpenActivates(cfg: Config, a: Ledger, e: Event, v: Version)
    requires Inv(cfg, a) && Allowed(cfg, a, e)
    requires PhaseVersion(a.phase) != Some(v) && PhaseVersion(Perform(cfg, a, e).phase) == Some(v)
    ensures e == Open(v) && v !in a.rosters && v in Perform(cfg, a, e).rosters
  {
  }

  /** A completed version gives way only to a close, or after a member lost its lease. */
  ghost predicate HoldsOn(a: Ledger, v: Version)
  {
    a.phase.Shut? || (a.phase.Complete? && a.phase.v == v) || exists seat :: seat in a.lapsed && seat.version == v
  }

  lemma CompleteHoldsOn(cfg: Config, a: Ledger, e: Event, v: Version)
    requires Inv(cfg, a) && Allowed(cfg, a, e) && HoldsOn(a, v)
    ensures HoldsOn(Perform(cfg, a, e), v)
  {
    if exists seat :: seat in a.lapsed && seat.version == v {
      var seat :| seat in a.lapsed && seat.version == v;
      assert seat in Perform(cfg, a, e).lapsed;
    }
  }

  // --- Runs of the atomic machine -------------------------------------------------------

  ghost predicate Legal(cfg: Config, a: Ledger, events: seq<Event>)
    decreases |events|
  {
    events == [] || (Allowed(cfg, a, events[0]) && Legal(cfg, Perform(cfg, a, events[0]), events[1..]))
  }

  ghost function Play(cfg: Config, a: Ledger, events: seq<Event>): Ledger
    requires Legal(cfg, a, events)
    decreases |events|
  {
    if events == [] then a else Play(cfg, Perform(cfg, a, events[0]), events[1..])
  }

  lemma {:induction false} PlayOneMore(cfg: Config, a: Ledger, events: seq<Event>, e: Event)
    requires Legal(cfg, a, events) && Allowed(cfg, Play(cfg, a, events), e)
    ensures Legal(cfg, a, events + [e])
    ensures Play(cfg, a, events + [e]) == Perform(cfg, Play(cfg, a, events), e)
    decreases |events|
  {
    var more := events + [e];
    if events == [] {
      assert more[1..] == [];
    } else {
      assert more[1..] == events[1..] + [e];
      PlayOneMore(cfg, Perform(cfg, a, events[0]), events[1..], e);
    }
  }
}
