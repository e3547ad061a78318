// The server together with everybody else, as one worker meets them: before each etcd call an
// arbitrary part of what the others still have to do happens.  The calls accept exactly the
// arguments that the step system prescribes at the worker's program counter, and `Valid` says
// that the cluster is in the state reached by the schedule `trace`.

module RendezvousCluster {
  import opened Outcomes
  import opened RendezvousState
  import opened RendezvousProtocol
  import opened RendezvousGuarantees

  function ActionOf(a: Action): Option<WorkerId>
  {
    match a
    case ExpireActive => None
    case LapseLease(_) => None
    case _ => Some(a.w)
  }

  /** Where the code checks the time: at the head of the barrier's loop, and after a watch. */
  predicate MayTimeOut(pc: Pc)
  {
    pc.Enter? || pc.LastCallRead? || pc.PeersRead? || pc.FinalRead? || pc.FreeRead? || pc.Gather?
  }

  class Cluster {
    const cfg: Config
    const workers: nat
    var server: Server
    var pcs: seq<Pc>                 // where every worker stands
    var pending: seq<Action>         // what the others and the TTLs will still do
    var ticks: nat                   // clock ticks until the deadline of the barrier call
    ghost var trace: seq<Action>     // everything that has happened

    ghost predicate Valid(me: WorkerId)
      reads this
    {
      && cfg.Valid() && me < workers == |pcs|
      && System(server, pcs) == Exec(cfg, Init(workers), trace)
      && forall i :: 0 <= i < |pending| ==> ActionOf(pending[i]) != Some(me)
    }

    constructor (cfg: Config, workers: nat, pending: seq<Action>, ticks: nat, ghost me: WorkerId)
      requires cfg.Valid() && me < workers && forall i :: 0 <= i < |pending| ==> ActionOf(pending[i]) != Some(me)
      ensures Valid(me) && pcs[me].Idle? && trace == [] && this.cfg == cfg && this.workers == workers
      ensures this.pending == pending && this.ticks == ticks
    {
      var s := Init(workers);
      this.cfg, this.workers, this.pending, this.ticks := cfg, workers, pending, ticks;
      server, pcs := s.server, s.pcs;
      trace := [];
    }

    /** The others move: any number of their next actions take effect.  If as much is pending as
        before, nobody moved. */
    method Interfere(ghost me: WorkerId)
      requires Valid(me)
      modifies this`server, this`pcs, this`pending, this`trace
      ensures Valid(me) && pcs[me] == old(pcs[me]) && old(trace) <= trace && |pending| <= |old(pending)|
      ensures |pending| == |old(pending)| ==> server == old(server) && pcs == old(pcs)
    {
      var steps: nat :| steps <= |pending|;
      while steps > 0
        invariant steps <= |pending| <= |old(pending)|
        invariant Valid(me) && pcs[me] == old(pcs[me]) && old(trace) <= trace
        invariant |pending| == |old(pending)| ==> server == old(server) && pcs == old(pcs)
      {
        var a := pending[0];
        var s := Apply(cfg, System(server, pcs), a);
        server, pcs, pending := s.server, s.pcs, pending[1..];
        assert (trace + [a])[..|trace|] == trace;
        trace := trace + [a];
        steps := steps - 1;
      }
    }

    /** Bookkeeping of the worker's own action. */
    ghost method Record(me: WorkerId, a: Action, next: Server, pc: Pc)
      requires |pcs| == workers && me < workers && System(server, pcs) == Exec(cfg, Init(workers), trace)
      requires Apply(cfg, System(server, pcs), a) == System(next, pcs[me := pc])
      modifies this`trace
      ensures trace == old(trace) + [a] && Exec(cfg, Init(workers), trace) == System(next, pcs[me := pc])
    {
      assert (trace + [a])[..|trace|] == trace;
      trace := trace + [a];
    }

    // --- etcd calls --------------------------------------------------------------------------

    /** `get` of active_version. */
    method Get(me: WorkerId) returns (node: Option<Node>)
      requires Valid(me) && IsRead(pcs[me])
      modifies this`server, this`pcs, this`pending, this`trace
      ensures Valid(me) && old(trace) <= trace && |pending| <= |old(pending)|
      ensures node == server.active && pcs[me] == StepRead(cfg, node, old(pcs[me]))
      ensures |pending| == |old(pending)| ==> server == old(server)
    {
      Interfere(me);
      node := server.active;
      var pc := StepRead(cfg, node, pcs[me]);
      Record(me, Step(me, false), server, pc);
      pcs := pcs[me := pc];
    }

    /** `test_and_set` of active_version.  Without anybody else moving it succeeds exactly if the key
        has the expected value; it is the last action of the trace. */
    method TestAndSet(me: WorkerId, prev: Value, next: Value, ttl: bool, deadline: bool := false) returns (outcome: SwapOutcome)
      requires Valid(me) && !IsRead(pcs[me]) && SwapOf(cfg, pcs[me], deadline).Some?
      requires SwapOf(cfg, pcs[me], deadline).value.prev == prev && SwapOf(cfg, pcs[me], deadline).value.next == Node(next, ttl)
      modifies this`server, this`pcs, this`pending, this`trace
      ensures Valid(me) && old(trace) <= trace && |pending| <= |old(pending)|
      ensures
        var swap := SwapOf(cfg, old(pcs[me]), deadline).value;
        pcs[me] == AfterSwap(outcome, swap.swapped, swap.failed, swap.missing)
      ensures match outcome
              case Swapped => server.active == Some(Node(next, ttl))
              case KeyNotFound => server.active == None
              case CompareFailed => server.active.Some? && server.active.value.value != prev
      ensures |pending| == |old(pending)| ==>
                && (outcome == Swapped <==> old(server.active).Some? && old(server.active).value.value == prev)
                && server == old(server).(active := if outcome == Swapped then Some(Node(next, ttl)) else old(server.active))
      ensures |trace| > |old(trace)| && trace[|trace| - 1] == Step(me, deadline)
      ensures
        var before := Exec(cfg, Init(workers), trace[..|trace| - 1]);
        && before.pcs[me] == old(pcs[me])
        && (outcome == Swapped ==> before.server.active.Some? && before.server.active.value.value == prev)
    {
      Interfere(me);
      var swap := SwapOf(cfg, pcs[me], deadline).value;
      var r := RendezvousState.TestAndSet(server.active, prev, next, ttl);
      outcome := r.0;
      var server' := server.(active := r.1);
      var pc := AfterSwap(outcome, swap.swapped, swap.failed, swap.missing);
      ghost var before := trace;
      Record(me, Step(me, deadline), server', pc);
      assert trace[..|trace| - 1] == before;
      server, pcs := server', pcs[me := pc];
    }

    /** `write` of active_version with prevExist=False: true if created. */
    method CreateActive(me: WorkerId) returns (created: bool)
      requires Valid(me) && pcs[me].Enter?
      modifies this`server, this`pcs, this`pending, this`trace
      ensures Valid(me) && old(trace) <= trace && |pending| <= |old(pending)|
      ensures pcs[me] == if created then ReadCounter else Inspect
      ensures created ==> server.active == Some(Node(Setup, true))
      ensures !created ==> server.active.Some?
      ensures |pending| == |old(pending)| ==>
                && (created <==> old(server.active).None?)
                && server == old(server).(active := if created then Some(Node(Setup, true)) else old(server.active))
    {
      Interfere(me);
      created := server.active.None?;
      var server' := if created then server.(active := Some(Node(Setup, true))) else server;
      var pc := if created then ReadCounter else Inspect;
      Record(me, Step(me, false), server', pc);
      server, pcs := server', pcs[me := pc];
    }

    /** `get` of version_counter. */
    method GetCounter(me: WorkerId) returns (value: nat)
      requires Valid(me) && pcs[me].ReadCounter?
      modifies this`server, this`pcs, this`pending, this`trace
      ensures Valid(me) && old(trace) <= trace && |pending| <= |old(pending)|
      ensures value == server.counter && pcs[me] == Pc.UpdateCounter(value)
      ensures |pending| == |old(pending)| ==> server == old(server)
    {
      Interfere(me);
      value := server.counter;
      Record(me, Step(me, false), server, Pc.UpdateCounter(value));
      pcs := pcs[me := Pc.UpdateCounter(value)];
    }

    /** `update` of version_counter: succeeds if it is still the one that was read. */
    method UpdateCounter(me: WorkerId, read: nat) returns (updated: bool)
      requires Valid(me) && pcs[me] == Pc.UpdateCounter(read)
      modifies this`server, this`pcs, this`pending, this`trace
      ensures Valid(me) && old(trace) <= trace && |pending| <= |old(pending)|
      ensures pcs[me] == if updated then Pc.MakeDir(read + 1) else Idle
      ensures if updated then server.counter == read + 1 else server.counter != read
      ensures |pending| == |old(pending)| ==>
                && (updated <==> old(server.counter) == read)
                && server == old(server).(counter := if updated then read + 1 else old(server.counter))
    {
      Interfere(me);
      updated := server.counter == read;
      var server' := if updated then server.(counter := read + 1) else server;
      var pc := if updated then Pc.MakeDir(read + 1) else Idle;
      Record(me, Step(me, false), server', pc);
      server, pcs := server', pcs[me := pc];
    }

    /** `write` of the directory v_{v} with prevExist=False: true if created, which it always is. */
    method MakeDir(me: WorkerId, v: Version) returns (created: bool)
      requires Valid(me) && pcs[me] == Pc.MakeDir(v)
      modifies this`server, this`pcs, this`pending, this`trace
      ensures Valid(me) && old(trace) <= trace && |pending| <= |old(pending)|
      ensures created && pcs[me] == Publish(v)
      ensures |pending| == |old(pending)| ==> server == old(server).(dirs := old(server.dirs) + {v})
    {
      Interfere(me);
      assert trace[..|trace|] == trace;
      DirectoryIsNew(cfg, workers, trace, |trace|, me);
      created := v !in server.dirs;
      var server' := if created then server.(dirs := server.dirs + {v}) else server;
      var pc := if created then Publish(v) else Inspect;
      Record(me, Step(me, false), server', pc);
      server, pcs := server', pcs[me := pc];
    }

    /** `set` of a lease key, with a TTL. */
    method SetLease(me: WorkerId, seat: Seat)
      requires Valid(me) && pcs[me].ConfirmLease? && seat == Seat(pcs[me].v, pcs[me].rank)
      modifies this`server, this`pcs, this`pending, this`trace
      ensures Valid(me) && old(trace) <= trace && |pending| <= |old(pending)|
      ensures |pending| == |old(pending)| ==> server == old(server).(leases := old(server.leases) + {seat})
      ensures seat in server.leases && pcs[me] == ConfirmCas(seat.version, seat.rank, old(pcs[me]).snap)
    {
      Interfere(me);
      var pc := ConfirmCas(seat.version, seat.rank, pcs[me].snap);
      var server' := server.(leases := server.leases + {seat});
      Record(me, Step(me, false), server', pc);
      server, pcs := server', pcs[me := pc];
    }

    /** `get` of the directory v_{v}: is any of the given lease keys missing from it? */
    method AnyLeaseMissing(me: WorkerId, v: Version, snap: Value) returns (missing: bool)
      requires Valid(me) && pcs[me] == FreeList(v, snap) && snap.Final?
      modifies this`server, this`pcs, this`pending, this`trace
      ensures Valid(me) && old(trace) <= trace && |pending| <= |old(pending)|
      ensures missing <==> exists i :: 0 <= i < |snap.keepAlives| && snap.keepAlives[i] !in server.leases
      ensures |pending| == |old(pending)| ==> server == old(server)
      ensures pcs[me] == if missing then Destroy(v, snap) else FreeRead(v)
    {
      Interfere(me);
      missing := false;
      for i := 0 to |snap.keepAlives|
        invariant missing <==> exists k :: 0 <= k < i && snap.keepAlives[k] !in server.leases
      {
        if snap.keepAlives[i] !in server.leases {
          missing := true;
        }
      }
      var pc := if missing then Destroy(v, snap) else FreeRead(v);
      Record(me, Step(me, false), server, pc);
      pcs := pcs[me := pc];
    }

    /** `delete` of active_version with prevValue: true if deleted. */
    method DeleteActive(me: WorkerId, prev: Value) returns (deleted: bool)
      requires Valid(me) && pcs[me].Destroy? && pcs[me].snap == prev
      modifies this`server, this`pcs, this`pending, this`trace
      ensures Valid(me) && old(trace) <= trace && |pending| <= |old(pending)|
      ensures pcs[me].Enter? && (deleted ==> server.active == None)
      ensures |pending| == |old(pending)| ==>
                && (deleted <==> old(server.active).Some? && old(server.active).value.value == prev)
                && server == old(server).(active := if deleted then None else old(server.active))
    {
      Interfere(me);
      deleted := server.active.Some? && server.active.value.value == prev;
      var server' := if deleted then server.(active := None) else server;
      Record(me, Step(me, false), server', Enter);
      server, pcs := server', pcs[me := Enter];
    }

    /** `set` of the agent's own role info in the store of its version. */
    method StoreSet(me: WorkerId, info: RoleInfo)
      requires Valid(me) && pcs[me].Returned?
      requires info == RoleInfo(cfg.spec(me).role, pcs[me].rank, cfg.spec(me).localWorldSize)
      modifies this`server, this`pcs, this`pending, this`trace
      ensures Valid(me) && old(trace) <= trace && |pending| <= |old(pending)|
      ensures var was := old(pcs[me]); pcs[me] == Gather(was.v, was.rank, was.size, []) && Seat(was.v, was.rank) in server.store
      ensures |pending| == |old(pending)| ==> old(server.store).Keys <= server.store.Keys
    {
      Interfere(me);
      var at := pcs[me];
      var pc := Gather(at.v, at.rank, at.size, []);
      var server' := server.(store := server.store[Seat(at.v, at.rank) := info]);
      Record(me, Step(me, false), server', pc);
      server, pcs := server', pcs[me := pc];
    }

    /** One attempt of the store's blocking `get` of role_info{idx}. */
    method StoreTryGet(me: WorkerId, idx: nat) returns (info: Option<RoleInfo>)
      requires Valid(me) && pcs[me].Gather? && idx == |pcs[me].got| < pcs[me].size
      modifies this`server, this`pcs, this`pending, this`trace
      ensures Valid(me) && old(trace) <= trace && |pending| <= |old(pending)|
      ensures
        var was := old(pcs[me]);
        && pcs[me] == (if info.Some? then Gather(was.v, was.rank, was.size, was.got + [info.value]) else was)
        && (if Seat(was.v, idx) in server.store then info == Some(server.store[Seat(was.v, idx)]) else info == None)
      ensures |pending| == |old(pending)| ==> server == old(server)
    {
      Interfere(me);
      var at := pcs[me];
      info := if Seat(at.v, idx) in server.store then Some(server.store[Seat(at.v, idx)]) else None;
      var pc := if info.Some? then Gather(at.v, at.rank, at.size, at.got + [info.value]) else at;
      Record(me, Step(me, false), server, pc);
      pcs := pcs[me := pc];
    }

    /** All infos are there: `synchronize` returns. */
    method Synchronized(me: WorkerId)
      requires Valid(me) && pcs[me].Gather? && |pcs[me].got| >= pcs[me].size
      modifies this`pcs, this`trace
      ensures Valid(me) && old(trace) <= trace
      ensures var was := old(pcs[me]); pcs[me] == Ranked(was.v, was.rank, was.size, was.got)
    {
      var at := pcs[me];
      var pc := Ranked(at.v, at.rank, at.size, at.got);
      Record(me, Step(me, false), server, pc);
      pcs := pcs[me := pc];
    }

    /** `watch` with a timeout: others move or the clock does. */
    method Watch(ghost me: WorkerId) returns (expired: bool)
      requires Valid(me)
      modifies this`server, this`pcs, this`pending, this`trace, this`ticks
      ensures Valid(me) && pcs[me] == old(pcs[me]) && old(trace) <= trace
      ensures |pending| <= |old(pending)| && ticks <= old(ticks)
      ensures !expired ==> |pending| + ticks < |old(pending)| + old(ticks)
      ensures if old(ticks) == 0 then expired && ticks == 0 else !expired && ticks == old(ticks) - 1
      ensures |pending| == |old(pending)| ==> server == old(server)
    {
      Interfere(me);
      expired := ticks == 0;
      if ticks > 0 {
        ticks := ticks - 1;
      }
    }

    /** The worker leaves its call by a timeout, from a place where it waits, when the time is up. */
    method Leave(me: WorkerId)
      requires Valid(me) && ticks == 0 && MayTimeOut(pcs[me])
      modifies this`pcs, this`trace
      ensures Valid(me) && old(trace) <= trace && pcs[me].Idle?
    {
      Record(me, Action.Leave(me), server, Idle);
      pcs := pcs[me := Idle];
    }

    /** The worker starts a call of the barrier, or of `set_closed`. */
    method Begin(me: WorkerId, closing: bool)
      requires Valid(me) && AtRest(pcs[me])
      modifies this`pcs, this`trace
      ensures Valid(me) && old(trace) <= trace && pcs[me] == if closing then CloseRead else Enter
    {
      Record(me, if closing then BeginClose(me) else Action.Begin(me), server, if closing then CloseRead else Enter);
      pcs := pcs[me := if closing then CloseRead else Enter];
    }
  }
}
