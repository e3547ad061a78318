// The rendezvous is never stuck: from every state that a run can reach, short of a closed one, any
// number of workers between min and max can complete a new version.

module RendezvousFeasibility {
  import opened Outcomes
  import opened RendezvousState
  import opened RendezvousProtocol
  import opened RendezvousRefinement
  import opened RendezvousGuarantees

  // --- Continuing a run ----------------------------------------------------------------------

  /** Some schedule leads from `s` to `t`. */
  ghost predicate Leads(cfg: Config, s: System, t: System)
  {
    exists schedule :: Exec(cfg, s, schedule) == t
  }

  lemma LeadsNowhere(cfg: Config, s: System)
    ensures Leads(cfg, s, s)
  {
    assert Exec(cfg, s, []) == s;
  }

  lemma LeadsOn(cfg: Config, s: System, t: System, a: Action) returns (u: System)
    requires Leads(cfg, s, t)
    ensures u == Apply(cfg, t, a) && Leads(cfg, s, u)
  {
    var schedule :| Exec(cfg, s, schedule) == t;
    u := Apply(cfg, t, a);
    assert (schedule + [a])[..|schedule|] == schedule;
    assert Exec(cfg, s, schedule + [a]) == u;
  }

  lemma {:induction false} ExecConcat(cfg: Config, s: System, first: seq<Action>, second: seq<Action>)
    ensures Exec(cfg, s, first + second) == Exec(cfg, Exec(cfg, s, first), second)
    decreases |second|
  {
    if second == [] {
      assert first + second == first;
    } else {
      var k := |second| - 1;
      assert (first + second)[..|first| + k] == first + second[..k];
      ExecConcat(cfg, s, first, second[..k]);
    }
  }

  lemma LeadsTransitively(cfg: Config, s: System, t: System, u: System)
    requires Leads(cfg, s, t) && Leads(cfg, t, u)
    ensures Leads(cfg, s, u)
  {
    var first :| Exec(cfg, s, first) == t;
    var second :| Exec(cfg, t, second) == u;
    ExecConcat(cfg, s, first, second);
    assert Exec(cfg, s, first + second) == u;
  }

  /** In a state that a run can reach, the next version number has no directory yet. */
  lemma NextIsFresh(cfg: Config, workers: nat, t: System)
    requires cfg.Valid() && Leads(cfg, Init(workers), t)
    ensures t.server.counter + 1 !in t.server.dirs
  {
    var schedule :| Exec(cfg, Init(workers), schedule) == t;
    assert schedule[..|schedule|] == schedule;
    RunSimulates(cfg, workers, schedule, |schedule|);
    assert NumbersOk(t, LedgerAt(cfg, workers, schedule, |schedule|));
  }

  lemma {:induction false} CounterGrows(cfg: Config, s: System, schedule: seq<Action>)
    ensures s.server.counter <= Exec(cfg, s, schedule).server.counter
    decreases |schedule|
  {
    if schedule != [] {
      CounterGrows(cfg, s, schedule[..|schedule| - 1]);
    }
  }

  lemma CounterOnlyGrows(cfg: Config, s: System, t: System)
    requires Leads(cfg, s, t)
    ensures s.server.counter <= t.server.counter
  {
    var schedule :| Exec(cfg, s, schedule) == t;
    CounterGrows(cfg, s, schedule);
  }

  /** A worker makes its next etcd call. */
  lemma Onward(cfg: Config, s: System, t: System, w: WorkerId, deadline: bool, server: Server, pc: Pc) returns (u: System)
    requires Leads(cfg, s, t) && w < |t.pcs| && StepWorker(cfg, t.server, w, t.pcs[w], deadline) == (server, pc)
    ensures u == System(server, t.pcs[w := pc]) && Leads(cfg, s, u)
  {
    u := LeadsOn(cfg, s, t, Step(w, deadline));
  }

  /** A call that reads the key. */
  lemma OnwardRead(cfg: Config, s: System, t: System, w: WorkerId, pc: Pc) returns (u: System)
    requires Leads(cfg, s, t) && w < |t.pcs| && IsRead(t.pcs[w]) && StepRead(cfg, t.server.active, t.pcs[w]) == pc
    ensures u == System(t.server, t.pcs[w := pc]) && Leads(cfg, s, u)
  {
    u := Onward(cfg, s, t, w, false, t.server, pc);
  }

  /** A worker that enters the barrier finds the key. */
  lemma OnwardFinds(cfg: Config, s: System, t: System, w: WorkerId) returns (u: System)
    requires Leads(cfg, s, t) && w < |t.pcs| && t.pcs[w].Enter? && t.server.active.Some?
    ensures u == System(t.server, t.pcs[w := Inspect]) && Leads(cfg, s, u)
  {
    u := Onward(cfg, s, t, w, false, t.server, Inspect);
  }

  /** A compare-and-swap that succeeds. */
  lemma OnwardSwap(cfg: Config, s: System, t: System, w: WorkerId, deadline: bool, next: Node, pc: Pc) returns (u: System)
    requires Leads(cfg, s, t) && w < |t.pcs| && !IsRead(t.pcs[w]) && SwapOf(cfg, t.pcs[w], deadline).Some?
    requires t.server.active.Some? && t.server.active.value.value == SwapOf(cfg, t.pcs[w], deadline).value.prev
    requires SwapOf(cfg, t.pcs[w], deadline).value.next == next && SwapOf(cfg, t.pcs[w], deadline).value.swapped == pc
    ensures u == System(t.server.(active := Some(next)), t.pcs[w := pc]) && Leads(cfg, s, u)
  {
    u := Onward(cfg, s, t, w, deadline, t.server.(active := Some(next)), pc);
  }

  // --- A new version ---------------------------------------------------------------------------

  lemma Count(cfg: Config, s: System, t: System, w: WorkerId) returns (u: System)
    requires Leads(cfg, s, t) && w < |t.pcs| && t.pcs[w].Enter? && t.server.active.None?
    ensures Leads(cfg, s, u)
    ensures u.server == t.server.(active := Some(Node(Setup, true)), counter := t.server.counter + 1)
    ensures u.pcs == t.pcs[w := MakeDir(u.server.counter)]
  {
    var setup := t.server.(active := Some(Node(Setup, true)));
    u := Onward(cfg, s, t, w, false, setup, ReadCounter);
    u := Onward(cfg, s, u, w, false, setup, UpdateCounter(t.server.counter));
    u := Onward(cfg, s, u, w, false, setup.(counter := t.server.counter + 1), MakeDir(t.server.counter + 1));
  }

  /** A worker that finds no key draws the next version number and gets ready to publish it. */
  lemma Draw(cfg: Config, s: System, t: System, w: WorkerId) returns (u: System)
    requires Leads(cfg, s, t) && w < |t.pcs| && t.pcs[w].Enter?
    requires t.server.active.None? && t.server.counter + 1 !in t.server.dirs
    ensures Leads(cfg, s, u) && u.pcs == t.pcs[w := Publish(t.server.counter + 1)]
    ensures u.server.active == Some(Node(Setup, true)) && u.server.counter == t.server.counter + 1
    ensures u.server.dirs == t.server.dirs + {t.server.counter + 1}
  {
    u := Count(cfg, s, t, w);
    var v := u.server.counter;
    u := Onward(cfg, s, u, w, false, u.server.(dirs := u.server.dirs + {v}), Publish(v));
  }

  /** A worker in the barrier, or outside any call, joins a joinable version. */
  lemma JoinNow(cfg: Config, s: System, t: System, w: WorkerId, v: Version, ps: seq<nat>) returns (u: System)
    requires Leads(cfg, s, t) && w < |t.pcs| && t.pcs[w].Enter? && |ps| < cfg.max
    requires t.server.active.Some? && t.server.active.value.value == Joinable(v, ps)
    ensures Leads(cfg, s, u) && u.server == t.server.(active := Some(JoinValue(cfg, Joinable(v, ps))))
    ensures u.pcs == t.pcs[w := if |ps| + 1 == cfg.min && |ps| + 1 != cfg.max then LastCallRead(v, |ps|) else PeersRead(v, |ps|)]
  {
    u := OnwardFinds(cfg, s, t, w);
    u := OnwardRead(cfg, s, u, w, JoinRead(v));
    u := OnwardRead(cfg, s, u, w, JoinCas(v, Joinable(v, ps)));
    u := OnwardSwap(cfg, s, u, w, false, JoinValue(cfg, Joinable(v, ps)), SwapOf(cfg, u.pcs[w], false).value.swapped);
  }

  // --- Out of any state: the key can go away -------------------------------------------------------------

  /** The first `k` workers are outside any call. */
  ghost predicate FirstIdle(t: System, k: nat)
  {
    k <= |t.pcs| && forall w :: 0 <= w < k ==> t.pcs[w].Idle?
  }

  lemma {:induction false} LeaveAll(cfg: Config, s: System, k: nat) returns (t: System)
    requires k <= |s.pcs|
    ensures Leads(cfg, s, t) && t.server == s.server && |t.pcs| == |s.pcs| && FirstIdle(t, k)
  {
    if k == 0 {
      t := s;
      LeadsNowhere(cfg, s);
    } else {
      t := LeaveAll(cfg, s, k - 1);
      t := LeadsOn(cfg, s, t, Leave(k - 1));
    }
  }

  /** One worker joins, leaves and joins again, until the version can expire, which it does. */
  lemma {:induction false} JoinAndExpire(cfg: Config, s: System, t: System, n: nat, v: Version, ps: seq<nat>) returns (u: System)
    requires cfg.Valid() && Leads(cfg, s, t) && FirstIdle(t, n) && n > 0 && |ps| < cfg.min
    requires t.server.active == Some(Node(Joinable(v, ps), false))
    ensures Leads(cfg, s, u) && |u.pcs| == |t.pcs| && FirstIdle(u, n) && u.server.active.None?
    decreases cfg.min - |ps|
  {
    u := LeadsOn(cfg, s, t, Begin(0));
    u := JoinNow(cfg, s, u, 0, v, ps);
    u := LeadsOn(cfg, s, u, Leave(0));
    if u.server.active.value.ephemeral {
      u := LeadsOn(cfg, s, u, ExpireActive);
    } else {
      u := JoinAndExpire(cfg, s, u, n, v, ps + [|ps|]);
    }
  }

  /** One worker more waits for a final version. */
  function OneMore(value: Value): Value
    requires value.Final?
  {
    value.(waiting := value.waiting + 1)
  }

  /** A worker that finds a final version announces itself: the waiting count rises by one. */
  lemma AnnounceNow(cfg: Config, s: System, t: System, w: WorkerId) returns (u: System)
    requires Leads(cfg, s, t) && w < |t.pcs| && t.pcs[w].Enter?
    requires t.server.active.Some? && t.server.active.value.value.Final?
    ensures
      var was := t.server.active.value.value;
      && Leads(cfg, s, u) && u.pcs == t.pcs[w := FreeRead(was.version)]
      && u.server == t.server.(active := Some(Node(OneMore(was), false)))
  {
    var was := t.server.active.value.value;
    u := OnwardFinds(cfg, s, t, w);
    u := OnwardRead(cfg, s, u, w, AnnounceRead(was.version));
    u := OnwardRead(cfg, s, u, w, AnnounceCas(was.version, was));
    u := OnwardSwap(cfg, s, u, w, false, Node(OneMore(was), false), FreeRead(was.version));
  }

  /** A worker that watches an abandoned version destroys it. */
  lemma DestroyNow(cfg: Config, s: System, t: System, w: WorkerId, v: Version) returns (u: System)
    requires Leads(cfg, s, t) && w < |t.pcs| && t.pcs[w] == FreeRead(v) && IsAbandoned(t.server) && IsFinal(t, v)
    ensures Leads(cfg, s, u) && u == System(t.server.(active := None), t.pcs[w := Enter])
  {
    var was := t.server.active.value.value;
    u := OnwardRead(cfg, s, t, w, FreeList(v, was));
    u := Onward(cfg, s, u, w, false, u.server, Destroy(v, was));
    u := Onward(cfg, s, u, w, false, u.server.(active := None), Enter);
  }

  /** A member loses its lease, and a worker destroys the version. */
  lemma LapseAndDestroy(cfg: Config, s: System, t: System, n: nat) returns (u: System)
    requires Leads(cfg, s, t) && FirstIdle(t, n) && n > 0
    requires t.server.active.Some? && t.server.active.value.value.Final? && t.server.active.value.value.keepAlives != []
    ensures Leads(cfg, s, u) && |u.pcs| == |t.pcs| && FirstIdle(u, n) && u.server.active.None?
  {
    var was := t.server.active.value.value;
    u := LeadsOn(cfg, s, t, LapseLease(was.keepAlives[0]));
    u := LeadsOn(cfg, s, u, Begin(0));
    u := AnnounceNow(cfg, s, u, 0);
    assert u.server.active.value.value.keepAlives[0] !in u.server.leases;
    u := DestroyNow(cfg, s, u, 0, was.version);
    u := LeadsOn(cfg, s, u, Leave(0));
  }

  /** From any state that a run can reach, unless it is closed, the key can go away. */
  lemma KeyCanGo(cfg: Config, workers: nat, s: System, n: nat) returns (t: System)
    requires cfg.Valid() && Leads(cfg, Init(workers), s) && 0 < n <= workers && !IsClosed(s)
    ensures Leads(cfg, s, t) && |t.pcs| == |s.pcs| == workers && FirstIdle(t, n) && t.server.active.None?
  {
    var schedule :| Exec(cfg, Init(workers), schedule) == s;
    assert schedule[..|schedule|] == schedule;
    t := LeaveAll(cfg, s, n);
    if s.server.active.Some? {
      Ephemerality(cfg, workers, schedule, |schedule|);
      match s.server.active.value.value
      case Joinable(v, ps) =>
        if |ps| < cfg.min { t := JoinAndExpire(cfg, s, t, n, v, ps); } else { t := LeadsOn(cfg, s, t, ExpireActive); }
      case Final(v, ps, ka, waiting) =>
        NoMemberLeftBehind(cfg, workers, schedule, |schedule|, v);
        t := LapseAndDestroy(cfg, s, t, n);
      case _ =>
        t := LeadsOn(cfg, s, t, ExpireActive);
    }
  }

  // --- A complete rendezvous of n workers -------------------------------------------------------------

  /** Version `v` is joinable, or already frozen, with the first `k` workers as its participants. */
  ghost predicate Joined(cfg: Config, t: System, v: Version, n: nat, k: nat)
  {
    && |t.pcs| >= n && t.server.active.Some?
    && t.server.active.value.value == (if k == cfg.max then Frozen(v, Upto(k), []) else Joinable(v, Upto(k)))
    && (forall w :: 0 <= w < n && w < k ==>
          t.pcs[w] == if w + 1 == cfg.min && w + 1 != cfg.max then LastCallRead(v, w) else PeersRead(v, w))
    && (forall w :: k <= w < n ==> t.pcs[w].Idle?)
  }

  /** The first `n` workers are idle, there is no key, and `v` is the next version number. */
  ghost predicate Ready(base: System, v: Version, n: nat)
  {
    && FirstIdle(base, n) && n > 0 && base.server.active.None?
    && v == base.server.counter + 1 && v !in base.server.dirs
  }

  lemma Published(cfg: Config, s: System, base: System, v: Version, n: nat) returns (t: System)
    requires cfg.Valid() && Leads(cfg, s, base) && Ready(base, v, n)
    ensures Leads(cfg, s, t) && Joined(cfg, t, v, n, 0)
  {
    t := LeadsOn(cfg, s, base, Begin(0));
    t := Draw(cfg, s, t, 0);
    t := OnwardSwap(cfg, s, t, 0, false, Node(Joinable(v, []), false), JoinRead(v));
    t := LeadsOn(cfg, s, t, Leave(0));
    assert Upto(0) == [];
  }

  lemma NextJoin(cfg: Config, v: Version, k: nat)
    requires k < cfg.max
    ensures JoinValue(cfg, Joinable(v, Upto(k))).value == if k + 1 == cfg.max then Frozen(v, Upto(k + 1), []) else Joinable(v, Upto(k + 1))
  {
    assert Upto(k + 1) == Upto(k) + [k];
  }

  lemma JoinNext(cfg: Config, s: System, v: Version, n: nat, k: nat, t: System) returns (u: System)
    requires Leads(cfg, s, t) && k < n <= cfg.max && Joined(cfg, t, v, n, k)
    ensures Leads(cfg, s, u) && Joined(cfg, u, v, n, k + 1)
  {
    u := LeadsOn(cfg, s, t, Begin(k));
    u := JoinNow(cfg, s, u, k, v, Upto(k));
    NextJoin(cfg, v, k);
  }

  lemma {:induction false} AllJoin(cfg: Config, s: System, base: System, v: Version, n: nat, k: nat) returns (t: System)
    requires cfg.Valid() && Leads(cfg, s, base) && Ready(base, v, n) && k <= n <= cfg.max
    ensures Leads(cfg, s, t) && Joined(cfg, t, v, n, k)
  {
    if k == 0 {
      t := Published(cfg, s, base, v, n);
    } else {
      t := AllJoin(cfg, s, base, v, n, k - 1);
      t := JoinNext(cfg, s, v, n, k - 1, t);
    }
  }

  function Seats(v: Version, k: nat): (s: seq<Seat>)
    ensures |s| == k
  {
    seq(k, i requires 0 <= i < k => Seat(v, i))
  }

  /** The first `k` workers have confirmed, the others still wait for the freeze that has happened. */
  ghost predicate Confirmed(t: System, v: Version, n: nat, k: nat)
  {
    && |t.pcs| >= n && t.server.active.Some?
    && t.server.active.value.value == (if k == n then Final(v, Upto(n), Seats(v, n), 0) else Frozen(v, Upto(n), Seats(v, k)))
    && (forall w :: 0 <= w < n && w < k ==> t.pcs[w] == FinalRead(v, w))
    && (forall w :: k <= w < n ==> t.pcs[w] == PeersRead(v, w))
  }

  /** The worker on last-call duty freezes the version, or finds it full. */
  lemma Freeze(cfg: Config, s: System, base: System, v: Version, n: nat) returns (t: System)
    requires cfg.Valid() && Leads(cfg, s, base) && Ready(base, v, n) && cfg.min <= n <= cfg.max
    ensures Leads(cfg, s, t) && Confirmed(t, v, n, 0)
  {
    t := AllJoin(cfg, s, base, v, n, n);
    var w := cfg.min - 1;
    assert Seats(v, 0) == [];
    if n < cfg.max {
      t := OnwardRead(cfg, s, t, w, LastCallCas(v, w, Joinable(v, Upto(n))));
      t := OnwardSwap(cfg, s, t, w, true, Node(Frozen(v, Upto(n), []), true), PeersRead(v, w));
    } else if cfg.min < cfg.max {
      t := OnwardRead(cfg, s, t, w, PeersRead(v, w));
    }
  }

  lemma NextConfirmation(v: Version, n: nat, k: nat)
    requires k < n
    ensures ConfirmValue(Frozen(v, Upto(n), Seats(v, k)), Seat(v, k)).value
            == if k + 1 == n then Final(v, Upto(n), Seats(v, n), 0) else Frozen(v, Upto(n), Seats(v, k + 1))
  {
    assert Seats(v, k + 1) == Seats(v, k) + [Seat(v, k)];
  }

  lemma ConfirmNow(cfg: Config, s: System, v: Version, n: nat, k: nat, t: System) returns (u: System)
    requires Leads(cfg, s, t) && k < n && Confirmed(t, v, n, k)
    ensures Leads(cfg, s, u) && Confirmed(u, v, n, k + 1)
  {
    var snap := Frozen(v, Upto(n), Seats(v, k));
    u := OnwardRead(cfg, s, t, k, ConfirmRead(v, k));
    u := OnwardRead(cfg, s, u, k, ConfirmLease(v, k, snap));
    u := Onward(cfg, s, u, k, false, u.server.(leases := u.server.leases + {Seat(v, k)}), ConfirmCas(v, k, snap));
    u := OnwardSwap(cfg, s, u, k, false, ConfirmValue(snap, Seat(v, k)), FinalRead(v, k));
    NextConfirmation(v, n, k);
  }

  lemma {:induction false} AllConfirm(cfg: Config, s: System, base: System, v: Version, n: nat, k: nat) returns (t: System)
    requires cfg.Valid() && Leads(cfg, s, base) && Ready(base, v, n) && cfg.min <= n <= cfg.max && k <= n
    ensures Leads(cfg, s, t) && Confirmed(t, v, n, k)
  {
    if k == 0 {
      t := Freeze(cfg, s, base, v, n);
    } else {
      t := AllConfirm(cfg, s, base, v, n, k - 1);
      t := ConfirmNow(cfg, s, v, n, k - 1, t);
    }
  }

  /** The barrier has returned for the first `k` workers, and they have put their role infos. */
  ghost predicate Shared(t: System, v: Version, n: nat, k: nat)
  {
    && |t.pcs| >= n && t.server.active.Some? && t.server.active.value.value == Final(v, Upto(n), Seats(v, n), 0)
    && (forall w :: 0 <= w < n && w < k ==> t.pcs[w] == Gather(v, w, n, []) && Seat(v, w) in t.server.store)
    && (forall w :: k <= w < n ==> t.pcs[w] == FinalRead(v, w))
  }

  lemma ShareNow(cfg: Config, s: System, v: Version, n: nat, k: nat, t: System) returns (u: System)
    requires Leads(cfg, s, t) && k < n && Shared(t, v, n, k)
    ensures Leads(cfg, s, u) && Shared(u, v, n, k + 1)
  {
    u := OnwardRead(cfg, s, t, k, Returned(v, k, n));
    var info := RoleInfo(cfg.spec(k).role, k, cfg.spec(k).localWorldSize);
    u := Onward(cfg, s, u, k, false, u.server.(store := u.server.store[Seat(v, k) := info]), Gather(v, k, n, []));
  }

  lemma {:induction false} AllShare(cfg: Config, s: System, base: System, v: Version, n: nat, k: nat) returns (t: System)
    requires cfg.Valid() && Leads(cfg, s, base) && Ready(base, v, n) && cfg.min <= n <= cfg.max && k <= n
    ensures Leads(cfg, s, t) && Shared(t, v, n, k)
  {
    if k == 0 {
      t := AllConfirm(cfg, s, base, v, n, n);
    } else {
      t := AllShare(cfg, s, base, v, n, k - 1);
      t := ShareNow(cfg, s, v, n, k - 1, t);
    }
  }

  /** A worker that gathers `got` gets the next info, and the one after that, up to the last. */
  lemma {:induction false} GatherOn(cfg: Config, s: System, t: System, w: WorkerId, v: Version, n: nat, got: seq<RoleInfo>) returns (u: System)
    requires Leads(cfg, s, t) && w < |t.pcs| && t.pcs[w] == Gather(v, w, n, got) && |got| <= n
    requires forall i :: 0 <= i < n ==> Seat(v, i) in t.server.store
    ensures Leads(cfg, s, u) && |u.pcs| == |t.pcs| && u.server == t.server
    ensures u.pcs[w].Ranked? && u.pcs[w].v == v && u.pcs[w].rank == w && u.pcs[w].size == n
    ensures forall x :: 0 <= x < |t.pcs| && x != w ==> u.pcs[x] == t.pcs[x]
    decreases n - |got|
  {
    if |got| == n {
      u := Onward(cfg, s, t, w, false, t.server, Ranked(v, w, n, got));
    } else {
      var more := got + [t.server.store[Seat(v, |got|)]];
      u := Onward(cfg, s, t, w, false, t.server, Gather(v, w, n, more));
      u := GatherOn(cfg, s, u, w, v, n, more);
    }
  }

  /** The first `k` workers have gathered everything. */
  ghost predicate Finished(t: System, v: Version, n: nat, k: nat)
  {
    && |t.pcs| >= n
    && (forall w :: 0 <= w < n && w < k ==> t.pcs[w].Ranked? && t.pcs[w].v == v && t.pcs[w].rank == w && t.pcs[w].size == n)
    && (forall w :: k <= w < n ==> t.pcs[w] == Gather(v, w, n, []))
    && (forall i :: 0 <= i < n ==> Seat(v, i) in t.server.store)
  }

  lemma {:induction false} AllFinish(cfg: Config, s: System, base: System, v: Version, n: nat, k: nat) returns (t: System)
    requires cfg.Valid() && Leads(cfg, s, base) && Ready(base, v, n) && cfg.min <= n <= cfg.max && k <= n
    ensures Leads(cfg, s, t) && Finished(t, v, n, k)
  {
    if k == 0 {
      t := AllShare(cfg, s, base, v, n, n);
    } else {
      t := AllFinish(cfg, s, base, v, n, k - 1);
      t := GatherOn(cfg, s, t, k - 1, v, n, []);
    }
  }

  /** The first `n` workers have returned from version `v` and are ready to hand out ranks. */
  ghost predicate Completed(t: System, v: Version, n: nat)
  {
    n <= |t.pcs| && forall w :: 0 <= w < n ==> t.pcs[w].Ranked? && t.pcs[w].v == v && t.pcs[w].rank == w && t.pcs[w].size == n
  }

  /** After any run, whatever crashed, expired or was left half done, and unless it was closed, any
      number of workers between min and max can complete a new version. */
  lemma Recoverable(cfg: Config, workers: nat, schedule: seq<Action>, n: nat) returns (more: seq<Action>, v: Version)
    requires cfg.Valid() && cfg.min <= n <= cfg.max && n <= workers
    requires !IsClosed(StateAt(cfg, workers, schedule, |schedule|))
    ensures v > StateAt(cfg, workers, schedule, |schedule|).server.counter
    ensures Completed(StateAt(cfg, workers, schedule + more, |schedule + more|), v, n)
  {
    var init, s := Init(workers), StateAt(cfg, workers, schedule, |schedule|);
    assert schedule[..|schedule|] == schedule;
    assert Exec(cfg, init, schedule) == s;
    var base := KeyCanGo(cfg, workers, s, n);
    LeadsTransitively(cfg, init, s, base);
    NextIsFresh(cfg, workers, base);
    v := base.server.counter + 1;
    var t := AllFinish(cfg, s, base, v, n, n);
    more :| Exec(cfg, s, more) == t;
    ExecConcat(cfg, init, schedule, more);
    assert (schedule + more)[..|schedule + more|] == schedule + more;
    CounterOnlyGrows(cfg, s, base);
  }
}
