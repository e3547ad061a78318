// When version numbers become active in increasing order.

module RendezvousVersions {
  import opened Outcomes
  import opened RendezvousState
  import opened RendezvousProtocol
  import opened RendezvousRefinement
  import opened RendezvousGuarantees
  import opened RendezvousFeasibility
  import L = RendezvousLedger

  /** Between creating the key and publishing a version. */
  predicate InCreation(pc: Pc)
  {
    pc.ReadCounter? || pc.UpdateCounter? || pc.MakeDir? || pc.Publish?
  }

  predicate SetupIsActive(s: System)
  {
    s.server.active.Some? && s.server.active.value.value.Setup?
  }

  /** There is at most one creator; it drew the latest number, and among several workers its setup
      is still there, or closed. */
  ghost predicate Orderly(s: System)
  {
    && (forall w1, w2 :: 0 <= w1 < w2 < |s.pcs| && InCreation(s.pcs[w1]) ==> !InCreation(s.pcs[w2]))
    && (forall w :: 0 <= w < |s.pcs| && DrawnBy(s.pcs[w]).Some? ==> DrawnBy(s.pcs[w]).value == s.server.counter)
    && (|s.pcs| >= 2 ==> forall w :: 0 <= w < |s.pcs| && InCreation(s.pcs[w]) ==> SetupIsActive(s) || IsClosed(s))
  }

  /** How a call bears on creation: only a creator's own calls go on with it, and only creating a
      missing key starts it. */
  lemma CreationStep(cfg: Config, server: Server, w: WorkerId, pc: Pc, deadline: bool)
    ensures
      var (after, next) := StepWorker(cfg, server, w, pc, deadline);
      && (InCreation(next) ==>
            if InCreation(pc) then after.active == server.active
            else server.active.None? && after.active == Some(Node(Setup, true)))
      && (DrawnBy(next).Some? ==> DrawnBy(next).value == after.counter || (DrawnBy(next) == DrawnBy(pc) && after.counter == server.counter))
      && (!InCreation(pc) ==> after.counter == server.counter)
  {
  }

  /** Nobody but a creator takes a setup key away, and nobody at all a closed one. */
  lemma SetupStays(cfg: Config, a: L.Ledger, s: System, w: WorkerId, deadline: bool)
    requires w < |s.pcs| && PcOk(cfg, a, w, s.pcs[w]) && !s.pcs[w].Publish? && (SetupIsActive(s) || IsClosed(s))
    ensures
      var t := System(StepWorker(cfg, s.server, w, s.pcs[w], deadline).0, s.pcs);
      SetupIsActive(t) || IsClosed(t)
  {
  }

  lemma StepKeepsOrder(cfg: Config, s: System, a: L.Ledger, w: WorkerId, deadline: bool)
    requires Simulates(cfg, s, a) && Orderly(s) && w < |s.pcs|
    ensures Orderly(Apply(cfg, s, Step(w, deadline)))
  {
    CreationStep(cfg, s.server, w, s.pcs[w], deadline);
    if !s.pcs[w].Publish? && (SetupIsActive(s) || IsClosed(s)) {
      SetupStays(cfg, a, s, w, deadline);
    }
  }

  lemma ActionKeepsOrder(cfg: Config, s: System, a: L.Ledger, act: Action)
    requires Simulates(cfg, s, a) && Orderly(s)
    requires |s.pcs| >= 2 ==> !(act.ExpireActive? && SetupIsActive(s))
    ensures Orderly(Apply(cfg, s, act))
  {
    match act
    case Step(w, deadline) => if w < |s.pcs| { StepKeepsOrder(cfg, s, a, w, deadline); }
    case ExpireActive => assert KeyMatches(cfg, s.server.active, a);
    case _ =>
  }

  /** At some moment before `i` a setup key expired. */
  ghost predicate SetupExpired(cfg: Config, workers: nat, schedule: seq<Action>, i: nat)
    requires i <= |schedule|
  {
    exists k :: 0 <= k < i && schedule[k].ExpireActive? && SetupIsActive(StateAt(cfg, workers, schedule, k))
  }

  lemma {:induction false} RunIsOrderly(cfg: Config, workers: nat, schedule: seq<Action>, i: nat)
    requires cfg.Valid() && i <= |schedule|
    requires workers >= 2 ==> !SetupExpired(cfg, workers, schedule, i)
    ensures Orderly(StateAt(cfg, workers, schedule, i))
  {
    if i > 0 {
      RunIsOrderly(cfg, workers, schedule, i - 1);
      RunSimulates(cfg, workers, schedule, i - 1);
      NextState(cfg, workers, schedule, i - 1);
      ActionKeepsOrder(cfg, StateAt(cfg, workers, schedule, i - 1), LedgerAt(cfg, workers, schedule, i - 1), schedule[i - 1]);
    }
  }

  /** A version becomes active by its creator's publication. */
  lemma ActivationIsPublication(cfg: Config, workers: nat, schedule: seq<Action>, i: nat, v: Version)
    requires cfg.Valid() && i < |schedule| && ActivatedAt(cfg, workers, schedule, i, v)
    ensures schedule[i].Step? && schedule[i].w < workers && StateAt(cfg, workers, schedule, i).pcs[schedule[i].w] == Publish(v)
  {
    PhaseAt(cfg, workers, schedule, i);
    PhaseAt(cfg, workers, schedule, i + 1);
    RunInv(cfg, workers, schedule, i);
    L.OnlyOpenActivates(cfg, LedgerAt(cfg, workers, schedule, i), EventAt(cfg, workers, schedule, i).value, v);
  }

  /** What was active before has been counted. */
  lemma ActivatedIsCounted(cfg: Config, workers: nat, schedule: seq<Action>, i: nat, j: nat, v: Version)
    requires cfg.Valid() && i < j <= |schedule| && ActivatedAt(cfg, workers, schedule, i, v)
    ensures v in LedgerAt(cfg, workers, schedule, j).rosters && v <= StateAt(cfg, workers, schedule, j).server.counter
  {
    ActivationOpens(cfg, workers, schedule, i, v);
    RosterStays(cfg, workers, schedule, i + 1, j, v);
    RunSimulates(cfg, workers, schedule, j);
    assert NumbersOk(StateAt(cfg, workers, schedule, j), LedgerAt(cfg, workers, schedule, j));
  }

  /** In an orderly run the version that becomes active is the last one that was counted. */
  lemma ActivatedIsLast(cfg: Config, workers: nat, schedule: seq<Action>, j: nat, v: Version)
    requires cfg.Valid() && j < |schedule| && ActivatedAt(cfg, workers, schedule, j, v)
    requires Orderly(StateAt(cfg, workers, schedule, j))
    ensures v == StateAt(cfg, workers, schedule, j).server.counter && v !in LedgerAt(cfg, workers, schedule, j).rosters
  {
    ActivationIsPublication(cfg, workers, schedule, j, v);
    assert DrawnBy(StateAt(cfg, workers, schedule, j).pcs[schedule[j].w]) == Some(v);
    ActivationOpens(cfg, workers, schedule, j, v);
  }

  /** With a single worker, or as long as no setup key has expired, versions become active in
      increasing order. */
  lemma VersionsIncrease(cfg: Config, workers: nat, schedule: seq<Action>, i: nat, j: nat, v1: Version, v2: Version)
    requires cfg.Valid() && i < j < |schedule|
    requires ActivatedAt(cfg, workers, schedule, i, v1) && ActivatedAt(cfg, workers, schedule, j, v2)
    requires workers >= 2 ==> !SetupExpired(cfg, workers, schedule, j)
    ensures v1 < v2
  {
    RunIsOrderly(cfg, workers, schedule, j);
    ActivatedIsLast(cfg, workers, schedule, j, v2);
    ActivatedIsCounted(cfg, workers, schedule, i, j, v1);
  }

  // --- Two workers and an expired setup are enough to break the order ------------------------------

  /** Worker 0 stalls before publishing version 1, and version 2 waits for more participants. */
  ghost predicate Overtaken(cfg: Config, s: System, ps: seq<nat>)
  {
    && |s.pcs| >= 2 && s.pcs[0] == Publish(1) && (InBarrier(s.pcs[1])) && |ps| < cfg.min
    && s.server.active == Some(Node(Joinable(2, ps), false))
  }

  lemma Overtake(cfg: Config, workers: nat) returns (s: System)
    requires cfg.Valid() && workers >= 2
    ensures Leads(cfg, Init(workers), s) && Overtaken(cfg, s, [])
  {
    var init := Init(workers);
    LeadsNowhere(cfg, init);
    s := LeadsOn(cfg, init, init, Begin(0));
    s := Draw(cfg, init, s, 0);
    s := LeadsOn(cfg, init, s, ExpireActive);
    s := LeadsOn(cfg, init, s, Begin(1));
    s := Draw(cfg, init, s, 1);
    s := OnwardSwap(cfg, init, s, 1, false, Node(Joinable(2, []), false), JoinRead(2));
  }

  /** Worker 0 still stalls, and the key is gone. */
  ghost predicate Vacated(s: System)
  {
    |s.pcs| >= 2 && s.pcs[0] == Publish(1) && InBarrier(s.pcs[1]) && s.server.active.None?
  }

  /** Worker 1 joins, gives up and joins again, until the version can expire, which it does. */
  lemma {:induction false} JoinAndExpire(cfg: Config, s: System, t: System, ps: seq<nat>) returns (u: System)
    requires cfg.Valid() && Leads(cfg, s, t) && Overtaken(cfg, t, ps)
    ensures Leads(cfg, s, u) && Vacated(u)
    decreases cfg.min - |ps|
  {
    u := LeadsOn(cfg, s, t, Retry(1));
    u := JoinNow(cfg, s, u, 1, 2, ps);
    if u.server.active.value.ephemeral {
      u := LeadsOn(cfg, s, u, ExpireActive);
    } else {
      u := JoinAndExpire(cfg, s, u, ps + [|ps|]);
    }
  }

  lemma LandLate(cfg: Config, s: System, t: System) returns (u: System)
    requires Leads(cfg, s, t) && Vacated(t)
    ensures Leads(cfg, s, u) && ActiveVersion(u) == Some(1)
  {
    u := LeadsOn(cfg, s, t, Retry(1));
    u := Onward(cfg, s, u, 1, false, u.server.(active := Some(Node(Setup, true))), ReadCounter);
    u := OnwardSwap(cfg, s, u, 0, false, Node(Joinable(1, []), false), JoinRead(1));
  }

  /** Between a moment when `v` is not active and one when it is, it becomes active. */
  lemma {:induction false} BecomesActive(cfg: Config, workers: nat, schedule: seq<Action>, i: nat, j: nat, v: Version) returns (k: nat)
    requires i <= j <= |schedule|
    requires ActiveVersion(StateAt(cfg, workers, schedule, i)) != Some(v) && ActiveVersion(StateAt(cfg, workers, schedule, j)) == Some(v)
    ensures i <= k < j && ActivatedAt(cfg, workers, schedule, k, v)
  {
    if ActiveVersion(StateAt(cfg, workers, schedule, j - 1)) == Some(v) {
      k := BecomesActive(cfg, workers, schedule, i, j - 1, v);
    } else {
      k := j - 1;
    }
  }

  /** A later version becomes active before an earlier one. */
  ghost predicate OutOfOrder(cfg: Config, workers: nat, schedule: seq<Action>)
  {
    exists i, j, v1, v2 :: 0 <= i < j < |schedule| && ActivatedAt(cfg, workers, schedule, i, v1)
                           && ActivatedAt(cfg, workers, schedule, j, v2) && v2 < v1
  }

  /** The run: worker 0 draws 1 and is overtaken by the expiry of its setup key; worker 1 publishes
      2; when that expires too, and worker 1 sets up anew, worker 0's publication lands on that. */
  lemma DisorderedRun(cfg: Config, workers: nat) returns (schedule: seq<Action>)
    requires cfg.Valid() && workers >= 2
    ensures OutOfOrder(cfg, workers, schedule)
  {
    var s := Overtake(cfg, workers);
    LeadsNowhere(cfg, s);
    var t := JoinAndExpire(cfg, s, s, []);
    t := LandLate(cfg, s, t);
    var first :| Exec(cfg, Init(workers), first) == s;
    var second :| Exec(cfg, s, second) == t;
    schedule := first + second;
    ExecConcat(cfg, Init(workers), first, second);
    assert schedule[..0] == [] && schedule[..|first|] == first && schedule[..|schedule|] == schedule;
    var i := BecomesActive(cfg, workers, schedule, 0, |first|, 2);
    var j := BecomesActive(cfg, workers, schedule, |first|, |schedule|, 1);
    assert ActivatedAt(cfg, workers, schedule, i, 2) && ActivatedAt(cfg, workers, schedule, j, 1);
  }

  /** A run out of order has at least two workers, and a setup key expired in it. */
  lemma DisorderNeedsExpiry(cfg: Config, workers: nat, schedule: seq<Action>)
    requires cfg.Valid() && OutOfOrder(cfg, workers, schedule)
    ensures workers >= 2 && SetupExpired(cfg, workers, schedule, |schedule|)
  {
    var i, j, v1, v2 :| 0 <= i < j < |schedule| && ActivatedAt(cfg, workers, schedule, i, v1)
                        && ActivatedAt(cfg, workers, schedule, j, v2) && v2 < v1;
    if workers < 2 || !SetupExpired(cfg, workers, schedule, j) {
      VersionsIncrease(cfg, workers, schedule, i, j, v1, v2);
    }
  }

  /** Version numbers are unique, but there are runs in which they do not increase, for every
      configuration, exactly if there are at least two workers. */
  lemma DisorderIff(cfg: Config, workers: nat)
    requires cfg.Valid()
    ensures (exists schedule :: OutOfOrder(cfg, workers, schedule)) <==> workers >= 2
  {
    if workers >= 2 {
      var schedule := DisorderedRun(cfg, workers);
    }
    forall schedule | OutOfOrder(cfg, workers, schedule)
      ensures workers >= 2
    {
      DisorderNeedsExpiry(cfg, workers, schedule);
    }
  }
}
