// The etcd rendezvous as a step system: one server, any number of workers, and every
// interleaving of their etcd calls with key expiry, lease loss, crashes and retries.
//
// A worker's position in the code is a program counter together with the locals that the
// code still needs there, above all the (possibly stale) snapshot that its next
// compare-and-swap will compare against.  One action performs one etcd call and the local
// code up to the next call.

module RendezvousState {
  import opened Outcomes

  type Version = nat
  type WorkerId = nat

  /** The path `/rdzv/v_{version}/rank_{rank}`, both the name of a lease and of a membership. */
  datatype Seat = Seat(version: Version, rank: nat)

  /** What one agent writes to the shared store about itself. */
  datatype RoleInfo = RoleInfo(role: string, rank: nat, localWorldSize: nat)

  datatype WorkerSpec = WorkerSpec(role: string, localWorldSize: nat)

  /** The JSON document under `/rdzv/active_version`.  Documents are compared as a whole,
      as the server compares their serialized form.  Closing keeps the other fields. */
  datatype Value =
    | Setup
    | Joinable(version: Version, participants: seq<nat>)
    | Frozen(version: Version, participants: seq<nat>, keepAlives: seq<Seat>)
    | Final(version: Version, participants: seq<nat>, keepAlives: seq<Seat>, waiting: nat)
    | Closed(was: Value)

  /** A key of the server: its value, and whether it carries a TTL. */
  datatype Node = Node(value: Value, ephemeral: bool)

  datatype Server = Server(
    active: Option<Node>,          // /rdzv/active_version
    counter: nat,                  // /rdzv/version_counter
    dirs: set<Version>,            // the directories /rdzv/v_{version}
    leases: set<Seat>,             // the live keys /rdzv/v_{version}/rank_{rank}
    store: map<Seat, RoleInfo>)    // role_info{rank} in the key-value store of each version

  datatype Config = Config(min: nat, max: nat, spec: WorkerId -> WorkerSpec)
  {
    /** What `create_rdzv_handler` asserts. */
    predicate Valid() { 1 <= min <= max }
  }

  datatype SwapOutcome = Swapped | CompareFailed | KeyNotFound

  /** `test_and_set`: compare by value, and on success replace value and TTL. */
  function TestAndSet(active: Option<Node>, prev: Value, next: Value, ephemeral: bool): (r: (SwapOutcome, Option<Node>))
    ensures r.0 == Swapped <==> active.Some? && active.value.value == prev
    ensures r.0 == KeyNotFound <==> active.None?
    ensures r.0 == Swapped ==> r.1 == Some(Node(next, ephemeral))
    ensures r.0 != Swapped ==> r.1 == active
  {
    if active.None? then (KeyNotFound, active)
    else if active.value.value != prev then (CompareFailed, active)
    else (Swapped, Some(Node(next, ephemeral)))
  }
}

module RendezvousProtocol {
  import opened Outcomes
  import opened RendezvousState

  /** Where a worker stands; the comment names the etcd call it performs next. */
  datatype Pc =
    | Idle
    // rendezvous_barrier, init_phase, try_create_rendezvous
    | Enter                                                   // write active_version, prevExist=False
    | ReadCounter                                             // get version_counter
    | UpdateCounter(read: nat)                                // update version_counter
    | MakeDir(v: Version)                                     // write v_{v}, prevExist=False
    | Publish(v: Version)                                     // test_and_set setup -> joinable
    | Inspect                                                 // get active_version
    // join_phase
    | JoinRead(v: Version)
    | JoinCas(v: Version, snap: Value)
    | LastCallRead(v: Version, rank: nat)
    | LastCallCas(v: Version, rank: nat, snap: Value)         // freeze, or refresh the TTL
    | PeersRead(v: Version, rank: nat)
    // confirm_phase
    | ConfirmRead(v: Version, rank: nat)
    | ConfirmLease(v: Version, rank: nat, snap: Value)        // set rank_{rank} with a TTL
    | ConfirmCas(v: Version, rank: nat, snap: Value)
    | FinalRead(v: Version, rank: nat)
    // the barrier has returned; _share_and_gather over the version's own store
    | Returned(v: Version, rank: nat, size: nat)              // set role_info{rank}
    | Gather(v: Version, rank: nat, size: nat, got: seq<RoleInfo>)   // get role_info{|got|}
    | Ranked(v: Version, rank: nat, size: nat, got: seq<RoleInfo>)
    // handle_existing_rendezvous
    | AnnounceRead(v: Version)
    | AnnounceCas(v: Version, snap: Value)
    | FreeRead(v: Version)
    | FreeList(v: Version, snap: Value)                       // list the directory v_{v}
    | Destroy(v: Version, snap: Value)                        // compare-and-delete
    // set_closed
    | CloseRead
    | CloseCas(snap: Value)

  datatype System = System(server: Server, pcs: seq<Pc>)

  datatype Action =
    | Step(w: WorkerId, deadline: bool)   // next etcd call; `deadline`: the last-call window is over
    | Begin(w: WorkerId)                  // call rendezvous_barrier
    | BeginClose(w: WorkerId)             // call set_closed
    | Retry(w: WorkerId)                  // an exception that the barrier loop catches
    | Leave(w: WorkerId)                  // a timeout, an exception that escapes, or a crash
    | ExpireActive                        // the TTL of active_version runs out
    | LapseLease(seat: Seat)              // the TTL of a lease runs out

  function Upto(n: nat): (s: seq<nat>)
    ensures |s| == n && forall i :: 0 <= i < n ==> s[i] == i
  {
    seq(n, i => i)
  }

  // --- The values that each call site writes -------------------------------------------

  function JoinValue(cfg: Config, snap: Value): Node
    requires snap.Joinable?
  {
    var participants := snap.participants + [|snap.participants|];
    if |participants| == cfg.max then Node(Frozen(snap.version, participants, []), true)
    else Node(Joinable(snap.version, participants), |participants| >= cfg.min)
  }

  function ConfirmValue(snap: Value, seat: Seat): Node
    requires snap.Frozen?
  {
    var keepAlives := snap.keepAlives + [seat];
    if |keepAlives| == |snap.participants| then Node(Final(snap.version, snap.participants, keepAlives, 0), false)
    else Node(Frozen(snap.version, snap.participants, keepAlives), true)
  }

  // --- One etcd call of one worker -----------------------------------------------------

  /** Phases that read the key and act on what they see. */
  function StepRead(cfg: Config, active: Option<Node>, pc: Pc): (next: Pc)
  {
    if active.None? then (if pc.CloseRead? then Idle else Enter)
    else
      var value := active.value.value;
      match pc
      case Inspect =>
        (match value
         case Closed(_) => Idle
         case Joinable(v, _) => JoinRead(v)
         case Final(v, _, _, _) => AnnounceRead(v)
         case _ => Enter)
      case JoinRead(v) =>
        if value.Joinable? && value.version == v && |value.participants| < cfg.max then JoinCas(v, value) else Enter
      case LastCallRead(v, rank) =>
        if value.Frozen? && value.version == v then PeersRead(v, rank)
        else if value.Joinable? && value.version == v then LastCallCas(v, rank, value)
        else Enter
      case PeersRead(v, rank) =>
        if value.Frozen? && value.version == v then ConfirmRead(v, rank)
        else if value.Joinable? && value.version == v then pc
        else Enter
      case ConfirmRead(v, rank) =>
        if value.Frozen? && value.version == v then ConfirmLease(v, rank, value) else Enter
      case FinalRead(v, rank) =>
        if value.Final? && value.version == v then Returned(v, rank, |value.participants|)
        else if value.Frozen? && value.version == v then pc
        else Enter
      case AnnounceRead(v) =>
        if value.Final? && value.version == v then AnnounceCas(v, value) else Enter
      case FreeRead(v) =>
        if value.Final? && value.version == v then FreeList(v, value) else Enter
      case CloseRead =>
        if value.Closed? then Idle else CloseCas(value)
      case _ => pc
  }

  predicate IsRead(pc: Pc)
  {
    pc.Inspect? || pc.JoinRead? || pc.LastCallRead? || pc.PeersRead? || pc.ConfirmRead? || pc.FinalRead? ||
    pc.AnnounceRead? || pc.FreeRead? || pc.CloseRead?
  }

  /** Where a compare-and-swap site continues: after success, after a failed comparison,
      and after "key not found", which the barrier loop catches. */
  function AfterSwap(outcome: SwapOutcome, swapped: Pc, failed: Pc, missing: Pc): Pc
  {
    match outcome
    case Swapped => swapped
    case CompareFailed => failed
    case KeyNotFound => missing
  }

  /** The compare-and-swap a program counter stands for: expected value, new node, and the
      three continuations.  `None` for every other program counter. */
  datatype Swap = Swap(prev: Value, next: Node, swapped: Pc, failed: Pc, missing: Pc)

  function SwapOf(cfg: Config, pc: Pc, deadline: bool): (r: Option<Swap>)
  {
    match pc
    case Publish(v) =>
      Some(Swap(Setup, Node(Joinable(v, []), false), JoinRead(v), Enter, Enter))
    case JoinCas(v, snap) =>
      if !snap.Joinable? then None else
      var rank := |snap.participants|;
      var next := JoinValue(cfg, snap);
      var joined := if rank + 1 == cfg.min && next.value.Joinable? then LastCallRead(v, rank) else PeersRead(v, rank);
      Some(Swap(snap, next, joined, JoinRead(v), Enter))
    case LastCallCas(v, rank, snap) =>
      if !snap.Joinable? then None
      else if deadline then
        Some(Swap(snap, Node(Frozen(snap.version, snap.participants, []), true), PeersRead(v, rank), LastCallRead(v, rank), Enter))
      else
        Some(Swap(snap, Node(snap, true), LastCallRead(v, rank), LastCallRead(v, rank), Enter))
    case ConfirmCas(v, rank, snap) =>
      if !snap.Frozen? then None else
      Some(Swap(snap, ConfirmValue(snap, Seat(v, rank)), FinalRead(v, rank), ConfirmRead(v, rank), Enter))
    case AnnounceCas(v, snap) =>
      if !snap.Final? then None else
      Some(Swap(snap, Node(snap.(waiting := snap.waiting + 1), false), FreeRead(v), AnnounceRead(v), Enter))
    case CloseCas(snap) =>
      Some(Swap(snap, Node(Closed(snap), false), Idle, CloseRead, Idle))
    case _ => None
  }

  /** The remaining calls: creation, leases, listing, deletion and the shared store. */
  function StepOther(cfg: Config, server: Server, w: WorkerId, pc: Pc): (Server, Pc)
  {
    match pc
    case Enter =>
      if server.active.None? then (server.(active := Some(Node(Setup, true))), ReadCounter)
      else (server, Inspect)
    case ReadCounter => (server, UpdateCounter(server.counter))
    case UpdateCounter(read) =>
      if server.counter == read then (server.(counter := read + 1), MakeDir(read + 1))
      else (server, Idle)
    case MakeDir(v) =>
      if v in server.dirs then (server, Inspect)
      else (server.(dirs := server.dirs + {v}), Publish(v))
    case ConfirmLease(v, rank, snap) =>
      (server.(leases := server.leases + {Seat(v, rank)}), ConfirmCas(v, rank, snap))
    case FreeList(v, snap) =>
      if snap.Final? && exists i :: 0 <= i < |snap.keepAlives| && snap.keepAlives[i] !in server.leases
      then (server, Destroy(v, snap))
      else (server, FreeRead(v))
    case Destroy(v, snap) =>
      if server.active.Some? && server.active.value.value == snap then (server.(active := None), Enter)
      else (server, Enter)
    case Returned(v, rank, size) =>
      var spec := cfg.spec(w);
      (server.(store := server.store[Seat(v, rank) := RoleInfo(spec.role, rank, spec.localWorldSize)]), Gather(v, rank, size, []))
    case Gather(v, rank, size, got) =>
      if |got| >= size then (server, Ranked(v, rank, size, got))
      else if Seat(v, |got|) in server.store then (server, Gather(v, rank, size, got + [server.store[Seat(v, |got|)]]))
      else (server, pc)
    case _ => (server, pc)
  }

  function StepWorker(cfg: Config, server: Server, w: WorkerId, pc: Pc, deadline: bool): (Server, Pc)
  {
    if IsRead(pc) then (server, StepRead(cfg, server.active, pc))
    else
      var swap := SwapOf(cfg, pc, deadline);
      if swap.Some? then
        var s := swap.value;
        var (outcome, active) := TestAndSet(server.active, s.prev, s.next.value, s.next.ephemeral);
        (server.(active := active), AfterSwap(outcome, s.swapped, s.failed, s.missing))
      else StepOther(cfg, server, w, pc)
  }

  /** Outside every call: the worker may start a barrier or a close. */
  predicate AtRest(pc: Pc) { pc.Idle? || pc.Returned? || pc.Gather? || pc.Ranked? }

  predicate InBarrier(pc: Pc) { !AtRest(pc) && !pc.CloseRead? && !pc.CloseCas? }

  function MoveTo(s: System, w: WorkerId, pc: Pc): System
    requires w < |s.pcs|
  {
    s.(pcs := s.pcs[w := pc])
  }

  /** The effect of an action; an action that is not enabled changes nothing. */
  function Apply(cfg: Config, s: System, a: Action): (r: System)
    ensures |r.pcs| == |s.pcs|
  {
    match a
    case Step(w, deadline) =>
      if w < |s.pcs| then
        var (server, pc) := StepWorker(cfg, s.server, w, s.pcs[w], deadline);
        System(server, s.pcs[w := pc])
      else s
    case Begin(w) => if w < |s.pcs| && AtRest(s.pcs[w]) then MoveTo(s, w, Enter) else s
    case BeginClose(w) => if w < |s.pcs| && AtRest(s.pcs[w]) then MoveTo(s, w, CloseRead) else s
    case Retry(w) => if w < |s.pcs| && InBarrier(s.pcs[w]) then MoveTo(s, w, Enter) else s
    case Leave(w) => if w < |s.pcs| then MoveTo(s, w, Idle) else s
    case ExpireActive =>
      if s.server.active.Some? && s.server.active.value.ephemeral then s.(server := s.server.(active := None)) else s
    case LapseLease(seat) => s.(server := s.server.(leases := s.server.leases - {seat}))
  }

  function Init(workers: nat): System
  {
    System(Server(None, 0, {}, {}, map[]), seq(workers, _ => Idle))
  }

  /** The state after a schedule: every interleaving is one sequence of actions. */
  function Exec(cfg: Config, s: System, schedule: seq<Action>): (r: System)
    ensures |r.pcs| == |s.pcs|
    decreases |schedule|
  {
    if schedule == [] then s
    else
      var k := |schedule| - 1;
      Apply(cfg, Exec(cfg, s, schedule[..k]), schedule[k])
  }

  /** The state of a run of `workers` workers after its first `i` actions. */
  function StateAt(cfg: Config, workers: nat, schedule: seq<Action>, i: nat): (r: System)
    requires i <= |schedule|
    ensures |r.pcs| == workers
  {
    Exec(cfg, Init(workers), schedule[..i])
  }

  lemma NextState(cfg: Config, workers: nat, schedule: seq<Action>, i: nat)
    requires i < |schedule|
    ensures StateAt(cfg, workers, schedule, i + 1) == Apply(cfg, StateAt(cfg, workers, schedule, i), schedule[i])
  {
    assert schedule[..i + 1][..i] == schedule[..i];
  }
}
