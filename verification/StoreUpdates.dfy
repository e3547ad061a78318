// Read-edit-swap updates of one store key by many clients: `EtcdStore.add` and
// `store_extra_data`.  Both create the key if it is missing and otherwise retry a
// compare-and-swap by value.  They are linearizable although values may recur.

module StoreUpdates {
  import opened Outcomes
  import opened RendezvousState

  // --- Any number of clients on one key --------------------------------------------------------

  datatype Pc<V, A> =
    | Idle
    | Create(arg: A)          // write, prevExist=False
    | Read(arg: A)            // get
    | Cas(arg: A, snap: V)    // test_and_set
    | Done(result: V)

  /** A completed update, in the order in which the updates took effect. */
  datatype Entry<V, A> = Entry(client: nat, arg: A, result: V)

  datatype System<V, A> = System(value: Option<V>, pcs: seq<Pc<V, A>>, log: seq<Entry<V, A>>)

  datatype Action<A> = Begin(client: nat, arg: A) | Step(client: nat) | Abort(client: nat)

  type Update<!V, !A> = (Option<V>, A) -> V

  function Complete<V, A>(s: System<V, A>, c: nat, arg: A, result: V): System<V, A>
    requires c < |s.pcs|
  {
    System(Some(result), s.pcs[c := Done(result)], s.log + [Entry(c, arg, result)])
  }

  function Apply<V(==), A>(update: Update<V, A>, s: System<V, A>, a: Action<A>): (r: System<V, A>)
    ensures |r.pcs| == |s.pcs|
  {
    var c := a.client;
    if c >= |s.pcs| then s
    else
      match a
      case Begin(_, arg) => if s.pcs[c].Idle? || s.pcs[c].Done? then s.(pcs := s.pcs[c := Create(arg)]) else s
      case Abort(_) => s.(pcs := s.pcs[c := Idle])
      case Step(_) =>
        match s.pcs[c]
        case Create(arg) =>
          if s.value.None? then Complete(s, c, arg, update(None, arg)) else s.(pcs := s.pcs[c := Read(arg)])
        case Read(arg) =>
          if s.value.None? then s.(pcs := s.pcs[c := Idle]) else s.(pcs := s.pcs[c := Cas(arg, s.value.value)])
        case Cas(arg, snap) =>
          if s.value == Some(snap) then Complete(s, c, arg, update(Some(snap), arg)) else s.(pcs := s.pcs[c := Read(arg)])
        case _ => s
  }

  function Init<V, A>(clients: nat): System<V, A>
  {
    System(None, seq(clients, _ => Idle), [])
  }

  function Exec<V(==), A>(update: Update<V, A>, s: System<V, A>, schedule: seq<Action<A>>): (r: System<V, A>)
    ensures |r.pcs| == |s.pcs|
    decreases |schedule|
  {
    if schedule == [] then s
    else
      var k := |schedule| - 1;
      Apply(update, Exec(update, s, schedule[..k]), schedule[k])
  }

  // --- Linearizability ---------------------------------------------------------------------------

  /** The value after performing the logged updates one at a time. */
  function Fold<V, A>(update: Update<V, A>, log: seq<Entry<V, A>>): Option<V>
  {
    if log == [] then None
    else Some(update(Fold(update, log[..|log| - 1]), log[|log| - 1].arg))
  }

  /** The key holds what the sequential execution yields, every update returned what it
      returns there, and whoever is done has its entry in the log. */
  ghost predicate Linear<V, A>(update: Update<V, A>, s: System<V, A>)
  {
    && s.value == Fold(update, s.log)
    && (forall i :: 0 <= i < |s.log| ==> Some(s.log[i].result) == Fold(update, s.log[..i + 1]))
    && (forall c :: 0 <= c < |s.pcs| && s.pcs[c].Done? ==>
          exists i :: 0 <= i < |s.log| && s.log[i].client == c && s.log[i].result == s.pcs[c].result)
  }

  lemma CompleteLinear<V, A>(update: Update<V, A>, s: System<V, A>, c: nat, arg: A, result: V)
    requires Linear(update, s) && c < |s.pcs| && result == update(s.value, arg)
    ensures Linear(update, Complete(s, c, arg, result))
  {
    var t := Complete(s, c, arg, result);
    var n := |s.log|;
    assert t.log[..n] == s.log;
    forall i | 0 <= i < |t.log|
      ensures Some(t.log[i].result) == Fold(update, t.log[..i + 1])
    {
      if i < n {
        assert t.log[..i + 1] == s.log[..i + 1];
      } else {
        assert t.log[..i + 1] == t.log;
      }
    }
    assert t.log[n].client == c;
    forall d | 0 <= d < |t.pcs| && t.pcs[d].Done?
      ensures exists i :: 0 <= i < |t.log| && t.log[i].client == d && t.log[i].result == t.pcs[d].result
    {
      if d != c {
        var i :| 0 <= i < |s.log| && s.log[i].client == d && s.log[i].result == s.pcs[d].result;
        assert t.log[i] == s.log[i];
      }
    }
  }

  lemma ApplyLinear<V, A>(update: Update<V, A>, s: System<V, A>, a: Action<A>)
    requires Linear(update, s)
    ensures Linear(update, Apply(update, s, a)) && s.log <= Apply(update, s, a).log
  {
    var c := a.client;
    if a.Step? && c < |s.pcs| {
      match s.pcs[c]
      case Create(arg) => if s.value.None? { CompleteLinear(update, s, c, arg, update(None, arg)); }
      case Cas(arg, snap) => if s.value == Some(snap) { CompleteLinear(update, s, c, arg, update(Some(snap), arg)); }
      case _ =>
    }
  }

  /** Every interleaving of any clients' updates is linear, with the log as its order. */
  lemma {:induction false} Linearizable<V, A>(update: Update<V, A>, clients: nat, schedule: seq<Action<A>>)
    ensures Linear(update, Exec(update, Init(clients), schedule))
    decreases |schedule|
  {
    if schedule != [] {
      var k := |schedule| - 1;
      Linearizable(update, clients, schedule[..k]);
      ApplyLinear(update, Exec(update, Init(clients), schedule[..k]), schedule[k]);
    }
  }

  lemma Present<V, A>(update: Update<V, A>, clients: nat, schedule: seq<Action<A>>)
    ensures
      var s := Exec(update, Init(clients), schedule);
      s.value.Some? <==> s.log != []
  {
    Linearizable(update, clients, schedule);
  }

  // --- One entry per call, while the call lasts -------------------------------------------------------

  function StateAt<V(==), A>(update: Update<V, A>, clients: nat, schedule: seq<Action<A>>, i: nat): (s: System<V, A>)
    requires i <= |schedule|
    ensures |s.pcs| == clients
  {
    Exec(update, Init(clients), schedule[..i])
  }

  /** The updates of one client. */
  function EntriesOf<V, A>(log: seq<Entry<V, A>>, c: nat): seq<Entry<V, A>>
  {
    if log == [] then []
    else EntriesOf(log[..|log| - 1], c) + if log[|log| - 1].client == c then [log[|log| - 1]] else []
  }

  /** What the log gained between two moments. */
  function Gained<V, A>(before: seq<Entry<V, A>>, after: seq<Entry<V, A>>): seq<Entry<V, A>>
    requires |before| <= |after|
  {
    after[|before|..]
  }

  /** Is the call under `arg` under way without having taken effect? */
  predicate InCall<V, A(==)>(pc: Pc<V, A>, arg: A)
  {
    match pc
    case Create(a) => a == arg
    case Read(a) => a == arg
    case Cas(a, _) => a == arg
    case _ => false
  }

  /** One action: only a call's own step makes it take effect, and it adds just that entry. */
  lemma StepEntry<V, A>(update: Update<V, A>, s: System<V, A>, a: Action<A>, c: nat, arg: A)
    requires c < |s.pcs|
    ensures
      var t := Apply(update, s, a);
      && s.log <= t.log && |t.log| <= |s.log| + 1
      && (a.client != c ==> t.pcs[c] == s.pcs[c])
      && (|t.log| > |s.log| ==> t.log[|s.log|].client == a.client && a.Step? && t.pcs[a.client] == Done(t.log[|s.log|].result))
      && (InCall(s.pcs[c], arg) && a == Step(c) ==>
            if t.pcs[c].Done? then t.log == s.log + [Entry(c, arg, t.pcs[c].result)]
            else t.log == s.log && (InCall(t.pcs[c], arg) || t.pcs[c].Idle?))
      && (!InCall(s.pcs[c], arg) && (s.pcs[c].Idle? || s.pcs[c].Done?) && a == Step(c) ==> t == s)
  {
  }

  lemma EntriesGrow<V, A>(before: seq<Entry<V, A>>, now: seq<Entry<V, A>>, next: seq<Entry<V, A>>, c: nat)
    requires before <= now <= next && |next| <= |now| + 1
    ensures EntriesOf(Gained(before, next), c)
            == EntriesOf(Gained(before, now), c) + if |next| > |now| && next[|now|].client == c then [next[|now|]] else []
  {
    var gained, more := Gained(before, now), Gained(before, next);
    if |next| > |now| {
      assert more[..|more| - 1] == gained && more[|more| - 1] == next[|now|];
    } else {
      assert more == gained;
    }
  }

  /** Client `c` starts a call at action `i`, and up to action `j` takes only steps of it. */
  ghost predicate CallsFrom<V, A>(update: Update<V, A>, clients: nat, schedule: seq<Action<A>>, i: nat, j: nat, c: nat, arg: A)
    requires i < j <= |schedule| && c < clients
  {
    && schedule[i] == Begin(c, arg)
    && (StateAt(update, clients, schedule, i).pcs[c].Idle? || StateAt(update, clients, schedule, i).pcs[c].Done?)
    && forall k :: i < k < j && schedule[k].client == c ==> schedule[k].Step?
  }

  lemma NextStep<V, A>(update: Update<V, A>, clients: nat, schedule: seq<Action<A>>, i: nat)
    requires i < |schedule|
    ensures StateAt(update, clients, schedule, i + 1) == Apply(update, StateAt(update, clients, schedule, i), schedule[i])
  {
    assert schedule[..i + 1][..i] == schedule[..i];
  }

  /** A call adds exactly one entry to the log, with its argument and its result, between its start
      and its return; a call that has not returned has added none.  So calls that follow each other
      follow each other in the log. */
  lemma {:induction false} OneEntryPerCall<V, A>(update: Update<V, A>, clients: nat, schedule: seq<Action<A>>, i: nat, j: nat, c: nat, arg: A)
    requires i < j <= |schedule| && c < clients && CallsFrom(update, clients, schedule, i, j, c, arg)
    ensures
      var s, t := StateAt(update, clients, schedule, i), StateAt(update, clients, schedule, j);
      && s.log <= t.log
      && (if t.pcs[c].Done? then EntriesOf(Gained(s.log, t.log), c) == [Entry(c, arg, t.pcs[c].result)]
          else EntriesOf(Gained(s.log, t.log), c) == [] && (InCall(t.pcs[c], arg) || t.pcs[c].Idle?))
    decreases j
  {
    var s, now := StateAt(update, clients, schedule, i), StateAt(update, clients, schedule, j - 1);
    NextStep(update, clients, schedule, j - 1);
    StepEntry(update, now, schedule[j - 1], c, arg);
    if i < j - 1 {
      OneEntryPerCall(update, clients, schedule, i, j - 1, c, arg);
    }
    EntriesGrow(s.log, now.log, StateAt(update, clients, schedule, j).log, c);
  }

  /** A client that is in no call adds nothing to the log. */
  lemma {:induction false} NoCallNoEntry<V, A>(update: Update<V, A>, clients: nat, schedule: seq<Action<A>>, i: nat, j: nat, c: nat)
    requires i <= j <= |schedule| && c < clients
    requires StateAt(update, clients, schedule, i).pcs[c].Idle? || StateAt(update, clients, schedule, i).pcs[c].Done?
    requires forall k :: i <= k < j && schedule[k].client == c ==> !schedule[k].Begin?
    ensures
      var s, t := StateAt(update, clients, schedule, i), StateAt(update, clients, schedule, j);
      s.log <= t.log && EntriesOf(Gained(s.log, t.log), c) == [] && (t.pcs[c].Idle? || t.pcs[c] == s.pcs[c])
    decreases j
  {
    if i < j {
      var s, now := StateAt(update, clients, schedule, i), StateAt(update, clients, schedule, j - 1);
      NoCallNoEntry(update, clients, schedule, i, j - 1, c);
      NextStep(update, clients, schedule, j - 1);
      ApplyOutside(update, now, schedule[j - 1], c);
      EntriesGrow(s.log, now.log, StateAt(update, clients, schedule, j).log, c);
    }
  }

  lemma ApplyOutside<V, A>(update: Update<V, A>, s: System<V, A>, a: Action<A>, c: nat)
    requires c < |s.pcs| && (s.pcs[c].Idle? || s.pcs[c].Done?) && !(a.client == c && a.Begin?)
    ensures
      var t := Apply(update, s, a);
      && s.log <= t.log && |t.log| <= |s.log| + 1 && (t.pcs[c].Idle? || t.pcs[c] == s.pcs[c])
      && (|t.log| > |s.log| ==> t.log[|s.log|].client != c)
  {
  }

  // --- add: prefix sums -----------------------------------------------------------------------------

  /** A missing key counts as 0. */
  function AddTo(value: Option<int>, num: int): int
  {
    if value.None? then num else value.value + num
  }

  function Sum(log: seq<Entry<int, int>>): int
  {
    if log == [] then 0 else Sum(log[..|log| - 1]) + log[|log| - 1].arg
  }

  lemma {:induction false} FoldIsSum(log: seq<Entry<int, int>>)
    ensures log != [] ==> Fold(AddTo, log) == Some(Sum(log))
  {
    if log != [] { FoldIsSum(log[..|log| - 1]); }
  }

  /** `add` is linearizable for any integers: each call returned a prefix sum in the order of
      the log, and the key holds the total. */
  lemma AddLinearizable(clients: nat, schedule: seq<Action<int>>)
    ensures
      var s := Exec(AddTo, Init(clients), schedule);
      && (forall i :: 0 <= i < |s.log| ==> s.log[i].result == Sum(s.log[..i + 1]))
      && s.value == (if s.log == [] then None else Some(Sum(s.log)))
  {
    var s := Exec(AddTo, Init(clients), schedule);
    Linearizable(AddTo, clients, schedule);
    FoldIsSum(s.log);
    forall i | 0 <= i < |s.log|
      ensures s.log[i].result == Sum(s.log[..i + 1])
    {
      FoldIsSum(s.log[..i + 1]);
    }
  }

  // --- store_extra_data: no store is lost --------------------------------------------------------------

  /** A JSON object; it is compared as the text that lists its members in insertion order. */
  type Object = seq<(string, string)>

  function Put(members: Object, key: string, value: string): (r: Object)
  {
    if members == [] then [(key, value)]
    else if members[0].0 == key then [(key, value)] + members[1..]
    else [members[0]] + Put(members[1..], key, value)
  }

  function Lookup(members: Object, key: string): Option<string>
  {
    if members == [] then None
    else if members[0].0 == key then Some(members[0].1)
    else Lookup(members[1..], key)
  }

  lemma {:induction false} LookupPut(members: Object, key: string, value: string, other: string)
    ensures Lookup(Put(members, key, value), other) == if other == key then Some(value) else Lookup(members, other)
  {
    if members != [] { LookupPut(members[1..], key, value, other); }
  }

  function StoreInto(members: Option<Object>, member: (string, string)): Object
  {
    Put(if members.None? then [] else members.value, member.0, member.1)
  }

  /** The value that the last store under `key` wrote. */
  function LastStored(log: seq<Entry<Object, (string, string)>>, key: string): Option<string>
  {
    if log == [] then None
    else if log[|log| - 1].arg.0 == key then Some(log[|log| - 1].arg.1)
    else LastStored(log[..|log| - 1], key)
  }

  lemma {:induction false} FoldKeepsStores(log: seq<Entry<Object, (string, string)>>, key: string)
    ensures LastStored(log, key) == if log == [] then None else Lookup(Fold(StoreInto, log).value, key)
  {
    if log != [] {
      var front, last := log[..|log| - 1], log[|log| - 1];
      FoldKeepsStores(front, key);
      var before := Fold(StoreInto, front);
      LookupPut(if before.None? then [] else before.value, last.arg.0, last.arg.1, key);
    }
  }

  /** After any interleaving, `extra_data` holds for every key what the last completed store
      under that key wrote. */
  lemma NoStoreLost(clients: nat, schedule: seq<Action<(string, string)>>, key: string)
    ensures
      var s := Exec(StoreInto, Init(clients), schedule);
      LastStored(s.log, key) == if s.value.None? then None else Lookup(s.value.value, key)
  {
    Linearizable(StoreInto, clients, schedule);
    FoldKeepsStores(Exec(StoreInto, Init(clients), schedule).log, key);
  }

  // --- The loops, against all other clients -------------------------------------------------------------

  /** One key of the server, with everything the other clients will still do to it. */
  class SharedKey<V(==), A> {
    const update: Update<V, A>
    const clients: nat
    const me: nat
    var value: Option<V>
    var pcs: seq<Pc<V, A>>
    var log: seq<Entry<V, A>>              // the order in which updates took effect
    var pending: seq<Action<A>>
    ghost var trace: seq<Action<A>>

    ghost predicate Valid()
      reads this
    {
      && me < clients == |pcs|
      && System(value, pcs, log) == Exec(update, Init(clients), trace)
      && forall i :: 0 <= i < |pending| ==> pending[i].client != me
    }

    constructor (update: Update<V, A>, clients: nat, me: nat, pending: seq<Action<A>>)
      requires me < clients && forall i :: 0 <= i < |pending| ==> pending[i].client != me
      ensures this.update == update && this.me == me && this.pending == pending
      ensures Valid() && pcs[me].Idle? && log == [] && value == None
    {
      this.update, this.clients, this.me, this.pending := update, clients, me, pending;
      value, pcs, log, trace := None, seq(clients, _ => Idle), [], [];
    }

    ghost method Record(a: Action<A>, next: System<V, A>)
      requires System(value, pcs, log) == Exec(update, Init(clients), trace)
      requires Apply(update, System(value, pcs, log), a) == next
      modifies this`trace
      ensures next == Exec(update, Init(clients), trace)
    {
      assert (trace + [a])[..|trace|] == trace;
      trace := trace + [a];
    }

    method Interfere()
      requires Valid()
      modifies this
      ensures Valid() && pcs[me] == old(pcs[me]) && old(log) <= log && |pending| <= |old(pending)|
      ensures value != old(value) ==> |pending| < |old(pending)|
    {
      var steps: nat :| steps <= |pending|;
      while steps > 0
        invariant steps <= |pending| <= |old(pending)|
        invariant Valid() && pcs[me] == old(pcs[me]) && old(log) <= log
        invariant value != old(value) ==> |pending| < |old(pending)|
      {
        var s := Apply(update, System(value, pcs, log), pending[0]);
        Record(pending[0], s);
        value, pcs, log, pending := s.value, s.pcs, s.log, pending[1..];
        steps := steps - 1;
      }
    }

    method Begin(arg: A)
      requires Valid() && (pcs[me].Idle? || pcs[me].Done?)
      modifies this
      ensures Valid() && pcs[me] == Create(arg) && log == old(log) && pending == old(pending)
    {
      var s := System(value, pcs[me := Create(arg)], log);
      Record(Action.Begin(me, arg), s);
      pcs := s.pcs;
    }

    /** `write` with prevExist=False: true if created. */
    method TryCreate(arg: A, first: V) returns (created: bool)
      requires Valid() && pcs[me] == Create(arg) && first == update(None, arg)
      modifies this
      ensures Valid() && old(log) <= log && |pending| <= |old(pending)|
      ensures created ==> |log| > |old(log)| && log[|log| - 1] == Entry(me, arg, first) && pcs[me] == Done(first)
      ensures !created ==> pcs[me] == Read(arg) && log != []
    {
      Interfere();
      Present(update, clients, trace);
      created := value.None?;
      var s := System(value, pcs[me := Read(arg)], log);
      if created {
        s := Complete(System(value, pcs, log), me, arg, first);
      }
      Record(Step(me), s);
      value, pcs, log := s.value, s.pcs, s.log;
    }

    /** Start a call by trying to create the key. */
    method Start(arg: A, first: V) returns (created: bool)
      requires Valid() && (pcs[me].Idle? || pcs[me].Done?) && first == update(None, arg)
      modifies this
      ensures Valid() && old(log) <= log
      ensures created ==> |log| > |old(log)| && log[|log| - 1] == Entry(me, arg, first)
      ensures !created ==> pcs[me] == Read(arg) && log != []
    {
      Begin(arg);
      created := TryCreate(arg, first);
    }

    /** `get`.  Keys are never deleted, so what was once created is found. */
    method Get(arg: A) returns (node: V)
      requires Valid() && pcs[me] == Read(arg) && log != []
      modifies this
      ensures Valid() && old(log) <= log && |pending| <= |old(pending)|
      ensures value == Some(node) && pcs[me] == Cas(arg, node)
    {
      Interfere();
      Present(update, clients, trace);
      node := value.value;
      Record(Step(me), System(value, pcs[me := Cas(arg, node)], log));
      pcs := pcs[me := Cas(arg, node)];
    }

    /** `test_and_set`; a failure right after a read means that another client's update won. */
    method TestAndSet(arg: A, prev: V, next: V) returns (swapped: bool)
      requires Valid() && pcs[me] == Cas(arg, prev) && next == update(Some(prev), arg)
      modifies this
      ensures Valid() && old(log) <= log && |pending| <= |old(pending)|
      ensures swapped ==> |log| > |old(log)| && log[|log| - 1] == Entry(me, arg, next) && pcs[me] == Done(next)
      ensures !swapped ==> pcs[me] == Read(arg)
      ensures !swapped && old(value) == Some(prev) ==> |pending| < |old(pending)|
    {
      Interfere();
      swapped := value == Some(prev);
      var s := System(value, pcs[me := Read(arg)], log);
      if swapped {
        s := Complete(System(value, pcs, log), me, arg, next);
      }
      Record(Step(me), s);
      value, pcs, log := s.value, s.pcs, s.log;
    }
  }

  lemma LastIsSum(clients: nat, schedule: seq<Action<int>>)
    ensures
      var log := Exec(AddTo, Init(clients), schedule).log;
      log != [] ==> log[|log| - 1].result == Sum(log)
  {
    AddLinearizable(clients, schedule);
    var log := Exec(AddTo, Init(clients), schedule).log;
    assert log[..|log|] == log;
  }

  /** One attempt of the retry loop of `add`. */
  method TryAdd(key: SharedKey<int, int>, num: int) returns (swapped: bool, newValue: int)
    requires key.Valid() && key.pcs[key.me] == Read(num) && key.log != [] && key.update == AddTo
    modifies key
    ensures key.Valid() && old(key.log) <= key.log && |key.pending| <= |old(key.pending)|
    ensures swapped ==> |key.log| > |old(key.log)| && key.log[|key.log| - 1] == Entry(key.me, num, newValue)
    ensures !swapped ==> key.pcs[key.me] == Read(num) && |key.pending| < |old(key.pending)|
  {
    var node := key.Get(num);
    newValue := node + num;
    swapped := key.TestAndSet(num, node, newValue);
  }

  /** `EtcdStore.add`: the call takes effect between its start and its return, and returns the
      sum of everything added up to and including itself. */
  method Add(key: SharedKey<int, int>, num: int) returns (r: int)
    requires key.Valid() && (key.pcs[key.me].Idle? || key.pcs[key.me].Done?) && key.update == AddTo
    modifies key
    ensures key.Valid() && old(key.log) <= key.log && |key.log| > |old(key.log)|
    ensures key.log[|key.log| - 1] == Entry(key.me, num, r) && r == Sum(key.log)
  {
    var added := key.Start(num, num);
    r := num;
    while !added
      invariant key.Valid() && old(key.log) <= key.log && key.log != []
      invariant added ==> |key.log| > |old(key.log)| && key.log[|key.log| - 1] == Entry(key.me, num, r)
      invariant !added ==> key.pcs[key.me] == Read(num)
      decreases |key.pending|, !added
    {
      added, r := TryAdd(key, num);
    }
    LastIsSum(key.clients, key.trace);
  }

  /** One attempt of the retry loop of `store_extra_data`. */
  method TryStore(node: SharedKey<Object, (string, string)>, arg: (string, string)) returns (stored: bool)
    requires node.Valid() && node.pcs[node.me] == Read(arg) && node.log != [] && node.update == StoreInto
    modifies node
    ensures node.Valid() && old(node.log) <= node.log && |node.pending| <= |old(node.pending)|
    ensures stored ==> |node.log| > |old(node.log)| && node.log[|node.log| - 1].arg == arg
    ensures !stored ==> node.pcs[node.me] == Read(arg) && |node.pending| < |old(node.pending)|
  {
    var extraData := node.Get(arg);
    stored := node.TestAndSet(arg, extraData, Put(extraData, arg.0, arg.1));
  }

  lemma AllStoresKept(clients: nat, schedule: seq<Action<(string, string)>>)
    ensures
      var s := Exec(StoreInto, Init(clients), schedule);
      s.log != [] ==> s.value.Some? && forall k :: Lookup(s.value.value, k) == LastStored(s.log, k)
  {
    var s := Exec(StoreInto, Init(clients), schedule);
    Present(StoreInto, clients, schedule);
    if s.log != [] {
      forall k
        ensures Lookup(s.value.value, k) == LastStored(s.log, k)
      {
        NoStoreLost(clients, schedule, k);
      }
    }
  }

  /** `store_extra_data`: the store is the last one to have taken effect, and the node holds, for
      every key, what the last store under that key wrote. */
  method StoreExtraData(node: SharedKey<Object, (string, string)>, key: string, value: string)
    requires node.Valid() && (node.pcs[node.me].Idle? || node.pcs[node.me].Done?) && node.update == StoreInto
    modifies node
    ensures node.Valid() && old(node.log) <= node.log && |node.log| > |old(node.log)|
    ensures node.log[|node.log| - 1].arg == (key, value) && node.value.Some?
    ensures forall k :: Lookup(node.value.value, k) == LastStored(node.log, k)
  {
    var arg := (key, value);
    var stored := node.Start(arg, [arg]);
    while !stored
      invariant node.Valid() && old(node.log) <= node.log && node.log != []
      invariant stored ==> |node.log| > |old(node.log)| && node.log[|node.log| - 1].arg == arg
      invariant !stored ==> node.pcs[node.me] == Read(arg)
      decreases |node.pending|, !stored
    {
      stored := TryStore(node, arg);
    }
    AllStoresKept(node.clients, node.trace);
  }
}
