// What one worker achieves by its own etcd calls, while nobody else moves: how it gets away from a
// version that is gone, and what it makes of every state of the key that it can find.

module RendezvousRecovery {
  import opened Outcomes
  import opened RendezvousState
  import opened RendezvousProtocol
  import opened RendezvousRefinement
  import opened RendezvousGuarantees
  import opened RendezvousFeasibility

  /** Nothing but `n` etcd calls of worker `w` leads from `s` to `t`. */
  ghost predicate ByItself(cfg: Config, s: System, w: WorkerId, n: nat, t: System)
  {
    exists schedule :: |schedule| == n && (forall i :: 0 <= i < n ==> schedule[i] == Step(w, false)) && Exec(cfg, s, schedule) == t
  }

  /** After `n` calls by itself, worker `w` stands at `pc`, the server is `server`, and nobody else has moved. */
  ghost predicate Stands(cfg: Config, s: System, w: WorkerId, n: nat, server: Server, pc: Pc)
  {
    w < |s.pcs| && ByItself(cfg, s, w, n, System(server, s.pcs[w := pc]))
  }

  lemma OneMoreCall(cfg: Config, s: System, w: WorkerId, n: nat, t: System)
    requires ByItself(cfg, s, w, n, t)
    ensures ByItself(cfg, s, w, n + 1, Apply(cfg, t, Step(w, false)))
  {
    var schedule :| |schedule| == n && (forall i :: 0 <= i < n ==> schedule[i] == Step(w, false)) && Exec(cfg, s, schedule) == t;
    var more := schedule + [Step(w, false)];
    assert more[..n] == schedule;
    assert Exec(cfg, s, more) == Apply(cfg, t, Step(w, false));
  }

  lemma Move(cfg: Config, s: System, w: WorkerId, n: nat, server: Server, pc: Pc, after: Server, next: Pc)
    requires Stands(cfg, s, w, n, server, pc) && StepWorker(cfg, server, w, pc, false) == (after, next)
    ensures Stands(cfg, s, w, n + 1, after, next)
  {
    OneMoreCall(cfg, s, w, n, System(server, s.pcs[w := pc]));
    assert s.pcs[w := pc][w := next] == s.pcs[w := next];
  }

  lemma MoveRead(cfg: Config, s: System, w: WorkerId, n: nat, server: Server, pc: Pc, next: Pc)
    requires Stands(cfg, s, w, n, server, pc) && IsRead(pc) && StepRead(cfg, server.active, pc) == next
    ensures Stands(cfg, s, w, n + 1, server, next)
  {
    Move(cfg, s, w, n, server, pc, server, next);
  }

  /** A compare-and-swap that succeeds. */
  lemma MoveSwap(cfg: Config, s: System, w: WorkerId, n: nat, server: Server, pc: Pc, next: Node, swapped: Pc)
    requires Stands(cfg, s, w, n, server, pc) && !IsRead(pc) && SwapOf(cfg, pc, false).Some?
    requires server.active.Some? && server.active.value.value == SwapOf(cfg, pc, false).value.prev
    requires SwapOf(cfg, pc, false).value.next == next && SwapOf(cfg, pc, false).value.swapped == swapped
    ensures Stands(cfg, s, w, n + 1, server.(active := Some(next)), swapped)
  {
    Move(cfg, s, w, n, server, pc, server.(active := Some(next)), swapped);
  }

  lemma StandsFirst(cfg: Config, s: System, w: WorkerId)
    requires w < |s.pcs|
    ensures Stands(cfg, s, w, 0, s.server, s.pcs[w])
  {
    assert Exec(cfg, s, []) == s;
    assert s.pcs == s.pcs[w := s.pcs[w]];
  }

  // --- What an attempt makes of the key ------------------------------------------------------------

  /** The first two calls of an attempt that finds the key. */
  lemma Finds(cfg: Config, s: System, w: WorkerId, n: nat, server: Server)
    requires Stands(cfg, s, w, n, server, Enter) && server.active.Some?
    ensures Stands(cfg, s, w, n + 2, server, StepRead(cfg, server.active, Inspect))
  {
    Move(cfg, s, w, n, server, Enter, server, Inspect);
    MoveRead(cfg, s, w, n + 1, server, Inspect, StepRead(cfg, server.active, Inspect));
  }

  /** A closed rendezvous ends the call at once. */
  lemma ClosedIsReported(cfg: Config, s: System, w: WorkerId, n: nat, server: Server)
    requires Stands(cfg, s, w, n, server, Enter) && server.active.Some? && server.active.value.value.Closed?
    ensures Stands(cfg, s, w, n + 2, server, Idle)
  {
    Finds(cfg, s, w, n, server);
  }

  /** A setup or a frozen version is left alone; the worker is back at the head of the loop. */
  lemma TransitionIsLeftAlone(cfg: Config, s: System, w: WorkerId, n: nat, server: Server)
    requires Stands(cfg, s, w, n, server, Enter) && server.active.Some?
    requires server.active.value.value.Setup? || server.active.value.value.Frozen?
    ensures Stands(cfg, s, w, n + 2, server, Enter)
  {
    Finds(cfg, s, w, n, server);
  }

  /** The document after one more participant joined: it lists the next rank, and is frozen if it is full. */
  ghost predicate OneJoined(cfg: Config, was: Value, now: Value)
  {
    && was.Joinable? && (now.Joinable? || now.Frozen?) && now.version == was.version
    && now.participants == was.participants + [|was.participants|]
    && (now.Frozen? <==> |now.participants| == cfg.max)
  }

  lemma Joins(cfg: Config, s: System, w: WorkerId, n: nat, server: Server, v: Version, ps: seq<nat>)
    requires Stands(cfg, s, w, n, server, JoinRead(v)) && |ps| < cfg.max
    requires server.active.Some? && server.active.value.value == Joinable(v, ps)
    ensures
      var next := JoinValue(cfg, Joinable(v, ps));
      Stands(cfg, s, w, n + 2, server.(active := Some(next)),
             if |ps| + 1 == cfg.min && next.value.Joinable? then LastCallRead(v, |ps|) else PeersRead(v, |ps|))
  {
    var snap := Joinable(v, ps);
    var swap := SwapOf(cfg, JoinCas(v, snap), false).value;
    MoveRead(cfg, s, w, n, server, JoinRead(v), JoinCas(v, snap));
    MoveSwap(cfg, s, w, n + 1, server, JoinCas(v, snap), swap.next, swap.swapped);
  }

  /** A joinable version with room gets one participant more. */
  lemma JoinableIsJoined(cfg: Config, s: System, w: WorkerId, n: nat, server: Server, v: Version, ps: seq<nat>) returns (after: Server, pc: Pc)
    requires Stands(cfg, s, w, n, server, Enter) && |ps| < cfg.max
    requires server.active.Some? && server.active.value.value == Joinable(v, ps)
    ensures Stands(cfg, s, w, n + 4, after, pc)
    ensures after.active.Some? && OneJoined(cfg, Joinable(v, ps), after.active.value.value)
    ensures pc == if |ps| + 1 == cfg.min && after.active.value.value.Joinable? then LastCallRead(v, |ps|) else PeersRead(v, |ps|)
  {
    var next := JoinValue(cfg, Joinable(v, ps));
    after := server.(active := Some(next));
    pc := if |ps| + 1 == cfg.min && next.value.Joinable? then LastCallRead(v, |ps|) else PeersRead(v, |ps|);
    Finds(cfg, s, w, n, server);
    Joins(cfg, s, w, n + 2, server, v, ps);
  }

  /** The server after one worker more announced itself. */
  function Announced(server: Server): Server
    requires server.active.Some? && server.active.value.value.Final?
  {
    server.(active := Some(Node(OneMore(server.active.value.value), false)))
  }

  lemma Announces(cfg: Config, s: System, w: WorkerId, n: nat, server: Server, v: Version)
    requires Stands(cfg, s, w, n, server, AnnounceRead(v))
    requires server.active.Some? && server.active.value.value.Final? && server.active.value.value.version == v
    ensures Stands(cfg, s, w, n + 2, Announced(server), FreeRead(v))
  {
    var snap := server.active.value.value;
    MoveRead(cfg, s, w, n, server, AnnounceRead(v), AnnounceCas(v, snap));
    MoveSwap(cfg, s, w, n + 1, server, AnnounceCas(v, snap), Node(OneMore(snap), false), FreeRead(v));
  }

  /** A final version gets one worker more that waits for it. */
  lemma FinalIsAnnounced(cfg: Config, s: System, w: WorkerId, n: nat, server: Server)
    requires Stands(cfg, s, w, n, server, Enter) && server.active.Some? && server.active.value.value.Final?
    ensures Stands(cfg, s, w, n + 4, Announced(server), FreeRead(server.active.value.value.version))
  {
    Finds(cfg, s, w, n, server);
    Announces(cfg, s, w, n + 2, server, server.active.value.value.version);
  }

  /** While all members' leases live, a round of watching changes nothing. */
  lemma LiveIsWatched(cfg: Config, s: System, w: WorkerId, n: nat, server: Server, v: Version)
    requires Stands(cfg, s, w, n, server, FreeRead(v)) && !IsAbandoned(server)
    requires server.active.Some? && server.active.value.value.Final? && server.active.value.value.version == v
    ensures Stands(cfg, s, w, n + 2, server, FreeRead(v))
  {
    var snap := server.active.value.value;
    MoveRead(cfg, s, w, n, server, FreeRead(v), FreeList(v, snap));
    Move(cfg, s, w, n + 1, server, FreeList(v, snap), server, FreeRead(v));
  }

  lemma Destroys(cfg: Config, s: System, w: WorkerId, n: nat, server: Server, v: Version)
    requires IsAbandoned(server) && Stands(cfg, s, w, n, server, FreeList(v, server.active.value.value))
    ensures Stands(cfg, s, w, n + 2, server.(active := None), Enter)
  {
    var snap := server.active.value.value;
    Move(cfg, s, w, n, server, FreeList(v, snap), server, Destroy(v, snap));
    Move(cfg, s, w, n + 1, server, Destroy(v, snap), server.(active := None), Enter);
  }

  /** Once a member has lost its lease, the round destroys the version. */
  lemma AbandonedIsDestroyed(cfg: Config, s: System, w: WorkerId, n: nat, server: Server, v: Version)
    requires Stands(cfg, s, w, n, server, FreeRead(v)) && IsAbandoned(server) && server.active.value.value.version == v
    ensures Stands(cfg, s, w, n + 3, server.(active := None), Enter)
  {
    MoveRead(cfg, s, w, n, server, FreeRead(v), FreeList(v, server.active.value.value));
    Destroys(cfg, s, w, n + 1, server, v);
  }

  /** The server while a worker creates a version, and when it has published it. */
  function SettingUp(server: Server): Server
  {
    server.(active := Some(Node(Setup, true)), counter := server.counter + 1)
  }

  function Created(server: Server): Server
  {
    var v := server.counter + 1;
    server.(active := Some(Node(Joinable(v, []), false)), counter := v, dirs := server.dirs + {v})
  }

  lemma Counts(cfg: Config, s: System, w: WorkerId, n: nat, server: Server)
    requires Stands(cfg, s, w, n, server, Enter) && server.active.None?
    ensures Stands(cfg, s, w, n + 3, SettingUp(server), MakeDir(server.counter + 1))
  {
    var setup := server.(active := Some(Node(Setup, true)));
    Move(cfg, s, w, n, server, Enter, setup, ReadCounter);
    Move(cfg, s, w, n + 1, setup, ReadCounter, setup, UpdateCounter(server.counter));
    Move(cfg, s, w, n + 2, setup, UpdateCounter(server.counter), SettingUp(server), MakeDir(server.counter + 1));
  }

  lemma Publishes(cfg: Config, s: System, w: WorkerId, n: nat, server: Server, v: Version)
    requires Stands(cfg, s, w, n, server, MakeDir(v)) && v !in server.dirs
    requires server.active.Some? && server.active.value.value.Setup?
    ensures Stands(cfg, s, w, n + 2, server.(active := Some(Node(Joinable(v, []), false)), dirs := server.dirs + {v}), JoinRead(v))
  {
    var made := server.(dirs := server.dirs + {v});
    Move(cfg, s, w, n, server, MakeDir(v), made, Publish(v));
    MoveSwap(cfg, s, w, n + 1, made, Publish(v), Node(Joinable(v, []), false), JoinRead(v));
  }

  /** A missing key is created: after five calls the next version number is joinable. */
  lemma MissingIsCreated(cfg: Config, s: System, w: WorkerId, n: nat, server: Server)
    requires Stands(cfg, s, w, n, server, Enter) && server.active.None? && server.counter + 1 !in server.dirs
    ensures Stands(cfg, s, w, n + 5, Created(server), JoinRead(server.counter + 1))
  {
    Counts(cfg, s, w, n, server);
    Publishes(cfg, s, w, n + 3, SettingUp(server), server.counter + 1);
  }

  lemma CounterIsFresh(cfg: Config, workers: nat, schedule: seq<Action>)
    requires cfg.Valid()
    ensures
      var s := StateAt(cfg, workers, schedule, |schedule|);
      s.server.counter + 1 !in s.server.dirs
  {
    RunSimulates(cfg, workers, schedule, |schedule|);
    assert NumbersOk(StateAt(cfg, workers, schedule, |schedule|), LedgerAt(cfg, workers, schedule, |schedule|));
  }

  lemma ReplacesAbandoned(cfg: Config, s: System, w: WorkerId)
    requires w < |s.pcs| && s.pcs[w].Enter? && IsAbandoned(s.server) && s.server.counter + 1 !in s.server.dirs
    ensures Stands(cfg, s, w, 4, Announced(s.server), FreeRead(s.server.active.value.value.version))
    ensures Stands(cfg, s, w, 7, s.server.(active := None), Enter)
    ensures Stands(cfg, s, w, 12, Created(s.server.(active := None)), JoinRead(s.server.counter + 1))
  {
    StandsFirst(cfg, s, w);
    FinalIsAnnounced(cfg, s, w, 0, s.server);
    AbandonedIsDestroyed(cfg, s, w, 4, Announced(s.server), s.server.active.value.value.version);
    MissingIsCreated(cfg, s, w, 7, s.server.(active := None));
  }

  /** Recovery: after any run that left a final version with a member's lease gone, one worker that
      enters the barrier raises the waiting count by one with its fourth call, destroys the version
      with its seventh, and has published a new one with its twelfth, all by itself. */
  lemma AbandonedIsReplaced(cfg: Config, workers: nat, schedule: seq<Action>, w: WorkerId) returns (t4: System, t7: System, t12: System)
    requires cfg.Valid() && w < workers
    requires
      var s := StateAt(cfg, workers, schedule, |schedule|);
      s.pcs[w].Enter? && IsAbandoned(s.server)
    ensures
      var s := StateAt(cfg, workers, schedule, |schedule|);
      var was := s.server.active.value.value;
      && ByItself(cfg, s, w, 4, t4) && ByItself(cfg, s, w, 7, t7) && ByItself(cfg, s, w, 12, t12)
      && t4.server.active == Some(Node(Final(was.version, was.participants, was.keepAlives, was.waiting + 1), false))
      && t7.server.active == None
      && t12.server.active == Some(Node(Joinable(s.server.counter + 1, []), false)) && t12.pcs[w] == JoinRead(s.server.counter + 1)
  {
    var s := StateAt(cfg, workers, schedule, |schedule|);
    CounterIsFresh(cfg, workers, schedule);
    ReplacesAbandoned(cfg, s, w);
    t4 := System(Announced(s.server), s.pcs[w := FreeRead(s.server.active.value.value.version)]);
    t7 := System(s.server.(active := None), s.pcs[w := Enter]);
    t12 := System(Created(s.server.(active := None)), s.pcs[w := JoinRead(s.server.counter + 1)]);
  }

  // --- Getting away from a version that is gone ----------------------------------------------------

  /** The version that a worker joins, waits in, or waits for. */
  function VersionOf(pc: Pc): Option<Version>
  {
    match pc
    case JoinRead(v) => Some(v)
    case JoinCas(v, _) => Some(v)
    case LastCallRead(v, _) => Some(v)
    case LastCallCas(v, _, _) => Some(v)
    case PeersRead(v, _) => Some(v)
    case ConfirmRead(v, _) => Some(v)
    case ConfirmLease(v, _, _) => Some(v)
    case ConfirmCas(v, _, _) => Some(v)
    case FinalRead(v, _) => Some(v)
    case AnnounceRead(v) => Some(v)
    case AnnounceCas(v, _) => Some(v)
    case FreeRead(v) => Some(v)
    case FreeList(v, _) => Some(v)
    case Destroy(v, _) => Some(v)
    case _ => None
  }

  /** Its snapshot, if it has one, is of that version. */
  predicate SnapshotOk(pc: Pc)
  {
    match pc
    case JoinCas(v, snap) => snap.Joinable? && snap.version == v
    case LastCallCas(v, _, snap) => snap.Joinable? && snap.version == v
    case ConfirmLease(v, _, snap) => snap.Frozen? && snap.version == v
    case ConfirmCas(v, _, snap) => snap.Frozen? && snap.version == v
    case AnnounceCas(v, snap) => snap.Final? && snap.version == v
    case FreeList(v, snap) => snap.Final? && snap.version == v
    case Destroy(v, snap) => snap.Final? && snap.version == v
    case _ => true
  }

  /** The version that the key is about, if any. */
  function VersionAt(active: Option<Node>): Option<Version>
  {
    match active
    case Some(Node(Joinable(v, _), _)) => Some(v)
    case Some(Node(Frozen(v, _, _), _)) => Some(v)
    case Some(Node(Final(v, _, _, _), _)) => Some(v)
    case _ => None
  }

  /** How far a worker is from noticing that its version is gone. */
  function Distance(pc: Pc): nat
  {
    match pc
    case JoinCas(_, _) => 2
    case LastCallCas(_, _, _) => 2
    case ConfirmLease(_, _, _) => 3
    case ConfirmCas(_, _, _) => 2
    case AnnounceCas(_, _) => 2
    case FreeList(_, _) => 2
    case _ => 1
  }

  /** One call brings it nearer, or back to the head of the loop, and leaves the key as it is. */
  lemma StaleMoves(cfg: Config, server: Server, w: WorkerId, pc: Pc)
    requires VersionOf(pc).Some? && SnapshotOk(pc) && VersionAt(server.active) != VersionOf(pc)
    ensures
      var (after, next) := StepWorker(cfg, server, w, pc, false);
      && after.active == server.active
      && (next.Enter? || (VersionOf(next) == VersionOf(pc) && SnapshotOk(next) && Distance(next) < Distance(pc)))
  {
  }

  lemma {:induction false} StaleGoesBack(cfg: Config, s: System, w: WorkerId, n: nat, server: Server, pc: Pc) returns (m: nat, after: Server)
    requires Stands(cfg, s, w, n, server, pc)
    requires VersionOf(pc).Some? && SnapshotOk(pc) && VersionAt(server.active) != VersionOf(pc)
    ensures n < m <= n + Distance(pc) && Stands(cfg, s, w, m, after, Enter) && after.active == server.active
    decreases Distance(pc)
  {
    var (next, pc') := StepWorker(cfg, server, w, pc, false);
    StaleMoves(cfg, server, w, pc);
    Move(cfg, s, w, n, server, pc, next, pc');
    if pc'.Enter? {
      m, after := n + 1, next;
    } else {
      m, after := StaleGoesBack(cfg, s, w, n + 1, next, pc');
    }
  }

  lemma SnapshotAt(cfg: Config, workers: nat, schedule: seq<Action>, w: WorkerId)
    requires cfg.Valid() && w < workers
    ensures SnapshotOk(StateAt(cfg, workers, schedule, |schedule|).pcs[w])
  {
    PcAt(cfg, workers, schedule, |schedule|, w);
  }

  /** Fault tolerance: a worker whose version is not the active one any more, in whatever phase it
      is, is back at the head of the barrier's loop after at most three calls of its own. */
  lemma StaleReenters(cfg: Config, workers: nat, schedule: seq<Action>, w: WorkerId) returns (n: nat, t: System)
    requires cfg.Valid() && w < workers
    requires
      var s := StateAt(cfg, workers, schedule, |schedule|);
      VersionOf(s.pcs[w]).Some? && VersionAt(s.server.active) != VersionOf(s.pcs[w])
    ensures
      var s := StateAt(cfg, workers, schedule, |schedule|);
      1 <= n <= 3 && ByItself(cfg, s, w, n, t) && t.pcs == s.pcs[w := Enter] && t.server.active == s.server.active
  {
    var s := StateAt(cfg, workers, schedule, |schedule|);
    SnapshotAt(cfg, workers, schedule, w);
    StandsFirst(cfg, s, w);
    var after;
    n, after := StaleGoesBack(cfg, s, w, 0, s.server, s.pcs[w]);
    t := System(after, s.pcs[w := Enter]);
  }
}
