// Rendezvous, store and rank assignment together: in every run, the agents that finish rank
// assignment under one version hand out disjoint ranks of one and the same world.

module EndToEnd {
  import opened Outcomes
  import opened RendezvousState
  import opened RendezvousProtocol
  import opened RendezvousRefinement
  import opened RendezvousGuarantees
  import opened RendezvousFeasibility
  import opened RoleRanks
  import L = RendezvousLedger

  /** Worker `w` has gathered the role infos of its version. */
  predicate HasInfos(s: System, w: WorkerId, v: Version, rank: nat, infos: seq<RoleInfo>)
  {
    w < |s.pcs| && s.pcs[w].Ranked? && s.pcs[w].v == v && s.pcs[w].rank == rank && s.pcs[w].got == infos
  }

  /** What is gathered comes from the members' own specs, in rank order, one info per member. */
  lemma GatheredInfos(cfg: Config, workers: nat, schedule: seq<Action>, i: nat, w: WorkerId, v: Version, rank: nat, infos: seq<RoleInfo>)
    requires cfg.Valid() && i <= |schedule| && HasInfos(StateAt(cfg, workers, schedule, i), w, v, rank, infos)
    ensures HasResult(StateAt(cfg, workers, schedule, i), w, v, rank, |infos|)
    ensures rank < |infos| && infos[rank] == InfoOf(cfg, w, rank)
    ensures forall k :: 0 <= k < |infos| ==> infos[k].rank == k
    ensures GatheredFrom(cfg, LedgerAt(cfg, workers, schedule, i), v, infos)
    ensures v in LedgerAt(cfg, workers, schedule, i).completed && |infos| == |LedgerAt(cfg, workers, schedule, i).rosters[v]|
  {
    var s := StateAt(cfg, workers, schedule, i);
    RunSimulates(cfg, workers, schedule, i);
    assert PcOk(cfg, LedgerAt(cfg, workers, schedule, i), w, s.pcs[w]);
  }

  /** Members of one version gather the same infos, whenever they do it. */
  lemma SameInfos(cfg: Config, workers: nat, schedule: seq<Action>, i: nat, j: nat, v: Version,
                  w1: WorkerId, rank1: nat, infos1: seq<RoleInfo>, w2: WorkerId, rank2: nat, infos2: seq<RoleInfo>)
    requires cfg.Valid() && i <= |schedule| && j <= |schedule|
    requires HasInfos(StateAt(cfg, workers, schedule, i), w1, v, rank1, infos1)
    requires HasInfos(StateAt(cfg, workers, schedule, j), w2, v, rank2, infos2)
    ensures infos1 == infos2
  {
    GatheredInfos(cfg, workers, schedule, i, w1, v, rank1, infos1);
    GatheredInfos(cfg, workers, schedule, j, w2, v, rank2, infos2);
    if i <= j { LedgerExtends(cfg, workers, schedule, i, j); } else { LedgerExtends(cfg, workers, schedule, j, i); }
  }

  /** Two different agents of one version: the same world size, different global ranks for all
      their workers, and different role ranks if they share a role. */
  lemma DisjointRanks(cfg: Config, workers: nat, schedule: seq<Action>, i: nat, j: nat, v: Version,
                      w1: WorkerId, rank1: nat, infos1: seq<RoleInfo>, w2: WorkerId, rank2: nat, infos2: seq<RoleInfo>,
                      local1: nat, local2: nat)
    requires cfg.Valid() && i <= |schedule| && j <= |schedule| && w1 != w2
    requires HasInfos(StateAt(cfg, workers, schedule, i), w1, v, rank1, infos1)
    requires HasInfos(StateAt(cfg, workers, schedule, j), w2, v, rank2, infos2)
    requires local1 < cfg.spec(w1).localWorldSize && local2 < cfg.spec(w2).localWorldSize
    ensures rank1 < |infos1| && rank2 < |infos2|
    ensures
      var p, q := AssignedWorker(infos1, rank1, local1), AssignedWorker(infos2, rank2, local2);
      && p.worldSize == q.worldSize && p.globalRank < p.worldSize && q.globalRank < q.worldSize
      && p.globalRank != q.globalRank
      && (cfg.spec(w1).role == cfg.spec(w2).role ==>
            p.roleWorldSize == q.roleWorldSize && p.roleRank != q.roleRank && p.roleRank < p.roleWorldSize)
  {
    GatheredInfos(cfg, workers, schedule, i, w1, v, rank1, infos1);
    GatheredInfos(cfg, workers, schedule, j, w2, v, rank2, infos2);
    SameInfos(cfg, workers, schedule, i, j, v, w1, rank1, infos1, w2, rank2, infos2);
    Agreement(cfg, workers, schedule, i, j, v, w1, rank1, |infos1|, w2, rank2, |infos2|);
    var p, q := AssignedWorker(infos1, rank1, local1), AssignedWorker(infos2, rank2, local2);
    var role := Some(cfg.spec(w1).role);
    BlocksTile(infos1, None, p.globalRank);
    BlocksTile(infos1, None, q.globalRank);
    BlocksTile(infos1, role, p.roleRank);
    assert InBlock(infos1, None, rank1, p.globalRank) && InBlock(infos1, None, rank2, q.globalRank);
    assert InBlock(infos1, role, rank1, p.roleRank);
    assert cfg.spec(w1).role == cfg.spec(w2).role ==> InBlock(infos1, role, rank2, q.roleRank);
  }

  /** Two workers of one agent differ in their local, global and role ranks, by as much, and are told
      the same totals. */
  lemma SameAgentRanks(infos: seq<RoleInfo>, groupRank: nat, workers: seq<Worker>, k1: nat, k2: nat)
    requires groupRank < |infos| && Ranks(infos, groupRank, workers) && k1 < |workers| && k2 < |workers|
    ensures
      var p, q := workers[k1], workers[k2];
      && p.localRank - q.localRank == p.globalRank - q.globalRank == p.roleRank - q.roleRank == k1 - k2
      && p.worldSize == q.worldSize && p.roleWorldSize == q.roleWorldSize
  {
  }

  /** What the members' own agents tell their workers: the totals are the sums over all members. */
  lemma TotalsAreSums(cfg: Config, workers: nat, schedule: seq<Action>, i: nat, w: WorkerId, v: Version, rank: nat, infos: seq<RoleInfo>, local: nat)
    requires cfg.Valid() && i <= |schedule| && HasInfos(StateAt(cfg, workers, schedule, i), w, v, rank, infos)
    ensures rank < |infos|
    ensures
      var p := AssignedWorker(infos, rank, local);
      && p.localRank == local && p.worldSize == SumSizes(infos) && p.roleWorldSize == SumSizes(OfRole(infos, cfg.spec(w).role))
  {
    GatheredInfos(cfg, workers, schedule, i, w, v, rank, infos);
    SumIsBefore(infos, cfg.spec(w).role, |infos|);
    assert infos[..|infos|] == infos;
  }

  /** All members of a version have finished, each at its own time and with the infos that it
      gathered itself; `agents[r]` has rank `r`. */
  ghost predicate AllFinished(cfg: Config, workers: nat, schedule: seq<Action>, v: Version,
                              times: seq<nat>, agents: seq<WorkerId>, infos: seq<seq<RoleInfo>>)
  {
    && |times| == |agents| == |infos| > 0 && |infos[0]| == |agents|
    && forall r :: 0 <= r < |agents| ==>
         times[r] <= |schedule| && HasInfos(StateAt(cfg, workers, schedule, times[r]), agents[r], v, r, infos[r])
  }

  /** After any run that was not closed, and for every number of members between min and max, there is
      a continuation in which so many of them finish under a new version. */
  lemma AllCanFinish(cfg: Config, workers: nat, schedule: seq<Action>, n: nat)
    returns (more: seq<Action>, v: Version, times: seq<nat>, agents: seq<WorkerId>, infos: seq<seq<RoleInfo>>)
    requires cfg.Valid() && cfg.min <= n <= cfg.max && n <= workers
    requires !IsClosed(StateAt(cfg, workers, schedule, |schedule|))
    ensures |agents| == n && AllFinished(cfg, workers, schedule + more, v, times, agents, infos)
    ensures v > StateAt(cfg, workers, schedule, |schedule|).server.counter
  {
    more, v := Recoverable(cfg, workers, schedule, n);
    var run := schedule + more;
    var t := StateAt(cfg, workers, run, |run|);
    times, agents := seq(n, _ => |run|), Upto(n);
    infos := seq(n, r requires 0 <= r < n => t.pcs[r].got);
    forall r | 0 <= r < n
      ensures HasInfos(t, r, v, r, infos[r]) && |infos[r]| == n
    {
      RunSimulates(cfg, workers, run, |run|);
      assert PcOk(cfg, LedgerAt(cfg, workers, run, |run|), r, t.pcs[r]);
    }
  }

  /** They all gathered the same, namely what their own specs say. */
  lemma AllGatherSame(cfg: Config, workers: nat, schedule: seq<Action>, v: Version,
                      times: seq<nat>, agents: seq<WorkerId>, infos: seq<seq<RoleInfo>>)
    requires cfg.Valid() && AllFinished(cfg, workers, schedule, v, times, agents, infos)
    ensures forall r :: 0 <= r < |agents| ==> infos[r] == infos[0] && infos[0][r] == InfoOf(cfg, agents[r], r)
  {
    forall r | 0 <= r < |agents|
      ensures infos[r] == infos[0] && infos[0][r] == InfoOf(cfg, agents[r], r)
    {
      SameInfos(cfg, workers, schedule, times[r], times[0], v, agents[r], r, infos[r], agents[0], 0, infos[0]);
      GatheredInfos(cfg, workers, schedule, times[r], agents[r], v, r, infos[r]);
    }
  }

  /** The rank of a worker among all workers, or among those of its role. */
  function RankAmong(worker: Worker, role: Option<string>): nat
  {
    if role.None? then worker.globalRank else worker.roleRank
  }

  /** Local worker `k` of the agent with rank `r`, which has the role if one is given, was told rank `g`. */
  ghost predicate Takes(cfg: Config, agents: seq<WorkerId>, infos: seq<seq<RoleInfo>>, role: Option<string>, r: nat, k: nat, g: nat)
    requires |agents| == |infos|
  {
    && r < |agents| && r < |infos[r]| && k < cfg.spec(agents[r]).localWorldSize
    && (role.None? || cfg.spec(agents[r]).role == role.value)
    && RankAmong(AssignedWorker(infos[r], r, k), role) == g
  }

  lemma TakesIsInBlock(cfg: Config, agents: seq<WorkerId>, infos: seq<seq<RoleInfo>>, role: Option<string>, r: nat, k: nat, g: nat)
    requires |agents| == |infos| && r < |agents| && r < |infos[r]| && infos[r][r] == InfoOf(cfg, agents[r], r)
    ensures Takes(cfg, agents, infos, role, r, k, g) ==> InBlock(infos[r], role, r, g) && k == g - Before(infos[r], role, r)
    ensures InBlock(infos[r], role, r, g) ==> Takes(cfg, agents, infos, role, r, g - Before(infos[r], role, r), g)
  {
  }

  /** When all members have finished, their workers hold every rank below the world size, each
      exactly once: over all workers, and over the workers of every role. */
  lemma RanksTileWorld(cfg: Config, workers: nat, schedule: seq<Action>, v: Version,
                       times: seq<nat>, agents: seq<WorkerId>, infos: seq<seq<RoleInfo>>, role: Option<string>, g: nat)
    requires cfg.Valid() && AllFinished(cfg, workers, schedule, v, times, agents, infos)
    ensures g < WorldSize(infos[0], role) <==> exists r, k :: Takes(cfg, agents, infos, role, r, k, g)
    ensures forall r1, k1, r2, k2 ::
              Takes(cfg, agents, infos, role, r1, k1, g) && Takes(cfg, agents, infos, role, r2, k2, g) ==> r1 == r2 && k1 == k2
  {
    AllGatherSame(cfg, workers, schedule, v, times, agents, infos);
    BlocksTile(infos[0], role, g);
    forall r: nat, k: nat | Takes(cfg, agents, infos, role, r, k, g)
      ensures InBlock(infos[0], role, r, g) && k == g - Before(infos[0], role, r)
    {
      TakesIsInBlock(cfg, agents, infos, role, r, k, g);
    }
    if g < WorldSize(infos[0], role) {
      var r :| 0 <= r < |infos[0]| && InBlock(infos[0], role, r, g);
      TakesIsInBlock(cfg, agents, infos, role, r, 0, g);
    }
  }
}
