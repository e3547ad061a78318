// The local scheduler with its bounded cache of applications, and the session that guards it.

module AppIds {

  /** Decimal notation, as Python's `str(int)` writes it. */
  function Decimal(n: nat): (s: string)
    ensures s != "" && forall i :: 0 <= i < |s| ==> '0' <= s[i] <= '9'
  {
    if n < 10 then [Digit(n)] else Decimal(n / 10) + [Digit(n % 10)]
  }

  function Digit(d: nat): (c: char)
    requires d < 10
    ensures '0' <= c <= '9' && c as int == '0' as int + d
  {
    ('0' as int + d) as char
  }

  /** The number that a string of digits denotes. */
  function Denotes(s: string): int
  {
    if s == "" then 0 else 10 * Denotes(s[..|s| - 1]) + (s[|s| - 1] as int - '0' as int)
  }

  lemma {:induction false} DecimalDenotes(n: nat)
    ensures Denotes(Decimal(n)) == n
  {
    var s := Decimal(n);
    if n < 10 {
      assert s[..|s| - 1] == "";
    } else {
      DecimalDenotes(n / 10);
      assert s[..|s| - 1] == Decimal(n / 10);
    }
  }

  function AppId(name: string, id: nat): string
  {
    name + "_" + Decimal(id)
  }

  lemma LastUnderscore(a: string, d: string, b: string, e: string)
    requires a + "_" + d == b + "_" + e && '_' !in e
    ensures |a| <= |b|
  {
    var s := a + "_" + d;
    assert s[|a|] == '_';
    forall i | |b| < i < |s|
      ensures s[i] != '_'
    {
      assert s[i] == e[i - |b| - 1];
    }
  }

  /** The last underscore splits an id, whatever the names contain. */
  lemma AppIdInjective(name1: string, id1: nat, name2: string, id2: nat)
    requires AppId(name1, id1) == AppId(name2, id2)
    ensures name1 == name2 && id1 == id2
  {
    var s, d1, d2 := AppId(name1, id1), Decimal(id1), Decimal(id2);
    LastUnderscore(name1, d1, name2, d2);
    LastUnderscore(name2, d2, name1, d1);
    assert s[..|name1|] == name1 && s[..|name2|] == name2;
    assert s[|name1| + 1..] == d1 && s[|name2| + 1..] == d2;
    DecimalDenotes(id1);
    DecimalDenotes(id2);
  }
}

module LocalScheduling {
  import opened Outcomes
  import opened AppIds
  import C = Counting

  datatype AppState = UNSUBMITTED | SUBMITTED | PENDING | RUNNING | SUCCEEDED | FAILED | CANCELLED

  predicate IsTerminal(s: AppState) { s.SUCCEEDED? || s.FAILED? || s.CANCELLED? }

  datatype RunMode = HEADLESS | MANAGED

  /** What `Session.run` validates about a role. */
  datatype Role = Role(entrypoint: string, numReplicas: int, hasContainer: bool, hasResources: bool)
  {
    predicate WellFormed() { entrypoint != "" && numReplicas > 0 && hasContainer && hasResources }
  }

  /** An application as its session knows it. */
  datatype Application = Application(name: string, roles: seq<Role>, isAttached: bool)
  {
    predicate WellFormed() { roles != [] && forall i :: 0 <= i < |roles| ==> roles[i].WellFormed() }
  }

  datatype LocalApplication = LocalApplication(name: string, state: AppState, lastUpdated: int, runMode: RunMode)

  datatype Error = IndexError | ValueError | CollisionError | UnknownApp | NotReRunnable


  const MAXSIZE := 0x7fff_ffff_ffff_ffff

  /** The two polls of one process in a `describe`: its exit code, or `None` while it lives. */
  datatype Poll = Poll(first: Option<int>, second: Option<int>)

  predicate SomeRunning(polls: seq<Poll>) { exists i :: 0 <= i < |polls| && polls[i].first.None? }

  predicate SomeFailed(polls: seq<Poll>)
  {
    exists i :: 0 <= i < |polls| && polls[i].second.Some? && polls[i].second.value != 0
  }

  /** The state that `describe` reports and stores. */
  function DescribedState(state: AppState, polls: seq<Poll>): AppState
  {
    if IsTerminal(state) then state
    else if SomeRunning(polls) then RUNNING
    else if SomeFailed(polls) then FAILED
    else SUCCEEDED
  }

  /** A finished app stays as it is; a live process means running; otherwise any exit code but 0 means
      failed. */
  lemma DescribedMeans(state: AppState, polls: seq<Poll>)
    ensures state in {SUCCEEDED, FAILED, CANCELLED} ==> DescribedState(state, polls) == state
    ensures state !in {SUCCEEDED, FAILED, CANCELLED} ==>
              && (DescribedState(state, polls) == RUNNING <==> exists i :: 0 <= i < |polls| && polls[i].first == None)
              && (DescribedState(state, polls) == FAILED <==>
                    && (forall i :: 0 <= i < |polls| ==> polls[i].first != None)
                    && exists i :: 0 <= i < |polls| && polls[i].second.Some? && polls[i].second.value != 0)
              && DescribedState(state, polls) in {RUNNING, FAILED, SUCCEEDED}
  {
  }

  /** Processes that have all ended, one of them with a nonzero exit code, make the app a failed one. */
  lemma NonzeroIsFailed(state: AppState, polls: seq<Poll>, i: nat, code: int)
    requires state !in {SUCCEEDED, FAILED, CANCELLED} && code != 0
    requires i < |polls| && forall j :: 0 <= j < |polls| ==> polls[j].first.Some? && polls[j].second == polls[j].first
    requires polls[i].first == Some(code)
    ensures DescribedState(state, polls) == FAILED
  {
    assert polls[i].second.value != 0;
  }

  type Apps = map<string, LocalApplication>

  /** An application that was evicted was in a terminal state, and nothing else changed. */
  ghost predicate EvictsTerminal(before: Apps, after: Apps)
  {
    && after.Keys <= before.Keys
    && (forall id :: id in after ==> after[id] == before[id])
    && (forall id :: id in before && id !in after ==> IsTerminal(before[id].state))
  }

  /** The dictionary and its insertion order. */
  ghost predicate CacheOk(apps: Apps, order: seq<string>, cacheSize: nat)
  {
    && |order| <= cacheSize && C.Distinct(order) && (forall id :: id in order <==> id in apps)
    && (forall id :: id in apps ==> apps[id].lastUpdated <= MAXSIZE)
  }

  /** Position `k` is that of the terminal app that was inserted last. */
  ghost predicate LastTerminal(apps: Apps, order: seq<string>, k: int)
    requires forall id :: id in order ==> id in apps
  {
    && 0 <= k < |order| && IsTerminal(apps[order[k]].state)
    && forall j :: k < j < |order| ==> !IsTerminal(apps[order[j]].state)
  }

  /** The app at position `k`, the terminal one that was inserted last, is gone, and nothing else. */
  ghost predicate Evicts(before: Apps, order: seq<string>, after: Apps, rest: seq<string>, k: int)
  {
    && (forall id :: id in order ==> id in before)
    && LastTerminal(before, order, k) && after == before - {order[k]} && rest == order[..k] + order[k + 1..]
  }

  ghost predicate EvictsOne(before: Apps, order: seq<string>, after: Apps, rest: seq<string>)
  {
    exists k :: Evicts(before, order, after, rest, k)
  }

  /** Room was made: nothing happened if there was some, and otherwise one app was evicted. */
  ghost predicate MakesRoom(before: Apps, order: seq<string>, after: Apps, rest: seq<string>, cacheSize: nat)
  {
    if |order| < cacheSize then after == before && rest == order else EvictsOne(before, order, after, rest)
  }

  /** Room was made, and the app inserted as the last one. */
  ghost predicate Adds(before: Apps, order: seq<string>, after: Apps, now: seq<string>, cacheSize: nat, id: string, app: LocalApplication)
  {
    && now != [] && now[|now| - 1] == id && id in after && after[id] == app
    && MakesRoom(before, order, after - {id}, now[..|now| - 1], cacheSize)
  }

  /** `id` is one of the numbers already given out for some name. */
  ghost predicate IssuedFor(ids: map<string, int>, id: string)
  {
    exists name, k :: name in ids && 0 <= k <= ids[name] && id == AppId(name, k)
  }

  ghost predicate IdsOk(ids: map<string, int>, issued: set<string>)
  {
    && (forall name :: name in ids ==> ids[name] >= 0)
    && (forall id :: id in issued ==> IssuedFor(ids, id))
  }

  function NextNumber(ids: map<string, int>, name: string): int
  {
    (if name in ids then ids[name] else -1) + 1
  }

  /** The next number of a name makes an id that was never given out. */
  lemma FreshId(ids: map<string, int>, issued: set<string>, name: string)
    requires IdsOk(ids, issued)
    ensures NextNumber(ids, name) >= 0
    ensures AppId(name, NextNumber(ids, name)) !in issued
    ensures IdsOk(ids[name := NextNumber(ids, name)], issued + {AppId(name, NextNumber(ids, name))})
  {
    var id := NextNumber(ids, name);
    var appId, ids' := AppId(name, id), ids[name := id];
    forall known | known in issued
      ensures known != appId && IssuedFor(ids', known)
    {
      var name', k :| name' in ids && 0 <= k <= ids[name'] && known == AppId(name', k);
      assert name' in ids' && 0 <= k <= ids'[name'];
      if known == appId { AppIdInjective(name, id, name', k); }
    }
    assert name in ids' && 0 <= id <= ids'[name];
  }

  lemma CacheBound(apps: Apps, order: seq<string>, cacheSize: nat)
    requires CacheOk(apps, order, cacheSize)
    ensures |apps| == |order|
  {
    C.DistinctCardinality(order);
    assert apps.Keys == set id | id in order;
  }

  function Retimed(apps: Apps, times: string -> int): Apps
  {
    map id | id in apps :: apps[id].(lastUpdated := times(id))
  }

  /** No terminal app was updated earlier. */
  ghost predicate LeastRecent(apps: Apps, id: string)
    requires id in apps
  {
    forall other :: other in apps && IsTerminal(apps[other].state) ==> apps[id].lastUpdated <= apps[other].lastUpdated
  }

  /** The victim is meant to be the least recently updated terminal app.  The search never updates
      its bound, so this holds whatever the update times are only if no other app is terminal. */
  lemma EvictionIsLruIff(apps: Apps, order: seq<string>, cacheSize: nat, k: int)
    requires CacheOk(apps, order, cacheSize) && LastTerminal(apps, order, k)
    ensures (forall times: string -> int :: LeastRecent(Retimed(apps, times), order[k]))
            <==> forall id :: id in apps && IsTerminal(apps[id].state) ==> id == order[k]
  {
    if other :| other in apps && IsTerminal(apps[other].state) && other != order[k] {
      var times := (id: string) => if id == other then 0 else 1;
      var retimed := Retimed(apps, times);
      assert retimed[order[k]].lastUpdated == 1 && retimed[other].lastUpdated == 0 && IsTerminal(retimed[other].state);
      assert !LeastRecent(Retimed(apps, times), order[k]);
    }
  }

  /** For a given cache the victim is the least recently updated terminal app exactly if no
      terminal app that was inserted before it was updated earlier. */
  lemma VictimIsLruIff(apps: Apps, order: seq<string>, cacheSize: nat, k: int)
    requires CacheOk(apps, order, cacheSize) && LastTerminal(apps, order, k)
    ensures LeastRecent(apps, order[k]) <==>
            forall j :: 0 <= j < k && IsTerminal(apps[order[j]].state) ==> apps[order[k]].lastUpdated <= apps[order[j]].lastUpdated
  {
    if forall j :: 0 <= j < k && IsTerminal(apps[order[j]].state) ==> apps[order[k]].lastUpdated <= apps[order[j]].lastUpdated {
      forall other | other in apps && IsTerminal(apps[other].state)
        ensures apps[order[k]].lastUpdated <= apps[other].lastUpdated
      {
        var j :| 0 <= j < |order| && order[j] == other;
      }
    }
  }

  /** The terminal apps finished in the order in which they were submitted. */
  ghost predicate FinishedInOrder(apps: Apps, order: seq<string>)
    requires forall id :: id in order ==> id in apps
  {
    forall i, j :: 0 <= i < j < |order| && IsTerminal(apps[order[i]].state) && IsTerminal(apps[order[j]].state) ==>
      apps[order[i]].lastUpdated < apps[order[j]].lastUpdated
  }

  /** If apps finish in order, the victim is the most recently updated terminal app. */
  lemma EvictsNewest(apps: Apps, order: seq<string>, cacheSize: nat, k: int, other: string)
    requires CacheOk(apps, order, cacheSize) && LastTerminal(apps, order, k) && FinishedInOrder(apps, order)
    requires other in apps && IsTerminal(apps[other].state) && other != order[k]
    ensures apps[other].lastUpdated < apps[order[k]].lastUpdated && !LeastRecent(apps, order[k])
  {
    var j :| 0 <= j < |order| && order[j] == other;
  }

  class LocalScheduler {
    var ids: map<string, int>       // app name -> the last number given out
    var apps: Apps
    var order: seq<string>          // the insertion order of the dictionary
    const cacheSize: nat
    ghost var issued: set<string>   // every app id ever given out

    ghost predicate Valid()
      reads this
    {
      cacheSize > 0 && CacheOk(apps, order, cacheSize) && IdsOk(ids, issued) && apps.Keys <= issued
    }

    constructor (cacheSize: nat)
      requires cacheSize > 0
      ensures Valid() && this.cacheSize == cacheSize && apps == map[] && issued == {}
    {
      this.cacheSize := cacheSize;
      ids, apps, order, issued := map[], map[], [], {};
    }

    /** The search: its bound is never updated, so the last terminal app stays. */
    method FindVictim() returns (lru: Option<nat>)
      requires Valid()
      ensures lru.Some? ==> LastTerminal(apps, order, lru.value)
      ensures lru.None? <==> AllBusy()
    {
      var lruTime := MAXSIZE;
      lru := None;
      for i := 0 to |order|
        invariant lru.None? ==> forall j :: 0 <= j < i ==> !IsTerminal(apps[order[j]].state)
        invariant lru.Some? ==> lru.value < i && IsTerminal(apps[order[lru.value]].state)
        invariant lru.Some? ==> forall j :: lru.value < j < i ==> !IsTerminal(apps[order[j]].state)
      {
        var app := apps[order[i]];
        if IsTerminal(app.state) {
          if app.lastUpdated <= lruTime {
            lru := Some(i);
          }
        }
      }
    }

    /** Evicts the terminal app that was inserted last, if there is a terminal app. */
    method EvictLru() returns (evicted: bool)
      requires Valid()
      modifies this`apps, this`order
      ensures Valid() && EvictsTerminal(old(apps), apps)
      ensures evicted <==> !old(AllBusy())
      ensures evicted ==> |order| == |old(order)| - 1
      ensures evicted ==> EvictsOne(old(apps), old(order), apps, order)
      ensures !evicted ==> apps == old(apps) && order == old(order)
    {
      var lru := FindVictim();
      evicted := lru.Some?;
      if evicted {
        var k := lru.value;
        apps := apps - {order[k]};
        order := order[..k] + order[k + 1..];
        assert Evicts(old(apps), old(order), apps, order, k);
      }
    }

    predicate AllBusy()
      reads this
    {
      forall id :: id in apps ==> !IsTerminal(apps[id].state)
    }

    /** Room for one more app, if need be by an eviction. */
    method MakeRoom() returns (ok: bool)
      requires Valid()
      modifies this`apps, this`order
      ensures Valid() && EvictsTerminal(old(apps), apps)
      ensures ok <==> !(|old(order)| == cacheSize && old(AllBusy()))
      ensures ok ==> |order| < cacheSize
      ensures if ok then MakesRoom(old(apps), old(order), apps, order, cacheSize) else apps == old(apps) && order == old(order)
    {
      CacheBound(apps, order, cacheSize);
      ok := true;
      if |apps| == cacheSize {
        ok := EvictLru();
      }
    }

    /** The next id of a name; it was never given out before. */
    method NextId(name: string) returns (appId: string)
      requires Valid()
      modifies this`ids, this`issued
      ensures Valid() && appId !in old(issued) && issued == old(issued) + {appId}
      ensures appId == name + "_" + Decimal(if name in old(ids) && old(ids)[name] >= 0 then old(ids)[name] + 1 else 0)
    {
      var id := (if name in ids then ids[name] else -1) + 1;
      FreshId(ids, issued, name);
      ids := ids[name := id];
      appId := AppId(name, id);
      issued := issued + {appId};
    }

    method Insert(appId: string, app: LocalApplication)
      requires Valid() && appId !in apps && appId in issued && |order| < cacheSize && app.lastUpdated <= MAXSIZE
      modifies this`apps, this`order
      ensures Valid() && apps == old(apps)[appId := app] && order == old(order) + [appId]
    {
      apps := apps[appId := app];
      order := order + [appId];
    }

    /** Submit an application.  `fetched`: all its images could be fetched.  The id is one that was
        never given out before, so it never collides; only terminal apps make room for it. */
    method Submit(name: string, mode: RunMode, fetched: bool) returns (r: Result<string, Error>)
      requires Valid()
      modifies this
      ensures Valid() && old(issued) <= issued
      ensures r.Ok? ==> r.value !in old(issued) && issued == old(issued) + {r.value} && r.value in apps
      ensures r.Ok? ==> r.value == name + "_" + Decimal(if name in old(ids) && old(ids)[name] >= 0 then old(ids)[name] + 1 else 0)
      ensures r.Ok? ==> apps[r.value] == LocalApplication(name, PENDING, -1, mode) && EvictsTerminal(old(apps), apps - {r.value})
      ensures r.Raise? ==> EvictsTerminal(old(apps), apps)
      ensures r.Ok? ==>
                Adds(old(apps), old(order), apps, order, cacheSize, r.value, LocalApplication(name, PENDING, -1, mode))
      ensures r.Raise? ==> (apps == old(apps) && order == old(order)) || MakesRoom(old(apps), old(order), apps, order, cacheSize)
      ensures if |old(order)| == cacheSize && old(AllBusy()) then r == Raise(IndexError)
              else if !fetched then r == Raise(ValueError)
              else r.Ok?
    {
      var room := MakeRoom();
      if !room { return Raise(IndexError); }
      var appId := NextId(name);
      if appId in apps { return Raise(CollisionError); }   // the assertion
      if !fetched { return Raise(ValueError); }
      ghost var roomy, rest := apps, order;
      Insert(appId, LocalApplication(name, PENDING, -1, mode));
      assert apps - {appId} == roomy && order[..|order| - 1] == rest;
      return Ok(appId);
    }

    method Describe(appId: string, polls: seq<Poll>, now: int) returns (r: Option<AppState>)
      requires Valid() && now <= MAXSIZE
      modifies this`apps
      ensures Valid() && apps.Keys == old(apps).Keys
      ensures forall id :: id in apps && id != appId ==> apps[id] == old(apps)[id]
      ensures r.None? <==> appId !in apps
      ensures r.Some? ==> r.value == DescribedState(old(apps)[appId].state, polls) == apps[appId].state
      ensures r.Some? ==>
                apps[appId] == if IsTerminal(old(apps)[appId].state) then old(apps)[appId]
                               else old(apps)[appId].(state := r.value, lastUpdated := now)
    {
      if appId !in apps { return None; }
      var app := apps[appId];
      if IsTerminal(app.state) { return Some(app.state); }
      var running, failed := false, false;
      for i := 0 to |polls|
        invariant running <==> exists k :: 0 <= k < i && polls[k].first.None?
        invariant failed <==> exists k :: 0 <= k < i && polls[k].second.Some? && polls[k].second.value != 0
      {
        running := running || polls[i].first.None?;
        failed := failed || (polls[i].second.Some? && polls[i].second.value != 0);
      }
      var state := if running then RUNNING else if failed then FAILED else SUCCEEDED;
      apps := apps[appId := app.(state := state, lastUpdated := now)];
      return Some(state);
    }

    /** `cancel`: looks the app up with a `describe` of its own, then overwrites its state. */
    method Cancel(appId: string, polls: seq<Poll>, now: int)
      requires Valid() && now <= MAXSIZE
      modifies this`apps
      ensures Valid() && apps.Keys == old(apps).Keys
      ensures forall id :: id in apps && id != appId ==> apps[id] == old(apps)[id]
      ensures appId in apps ==> apps[appId].state == CANCELLED
    {
      var found := Describe(appId, polls, now);
      if found.Some? {
        apps := apps[appId := apps[appId].(state := CANCELLED)];
      }
    }
  }

  /** What was once reported as terminal is still the state, unless the app was evicted. */
  ghost predicate ReportsOk(reported: map<string, AppState>, apps: Apps)
  {
    forall id :: id in reported ==>
      IsTerminal(reported[id]) && (id in apps ==> apps[id].state == reported[id])
  }

  /** No report was taken back or changed. */
  ghost predicate KeepsReports(before: map<string, AppState>, after: map<string, AppState>)
  {
    forall id :: id in before ==> id in after && after[id] == before[id]
  }

  /** An app without roles, or with a role that lacks an entrypoint, a replica, a container or its resources. */
  ghost predicate Incomplete(app: Application)
  {
    || app.roles == []
    || exists i :: 0 <= i < |app.roles| &&
         var role := app.roles[i];
         role.entrypoint == "" || role.numReplicas <= 0 || !role.hasContainer || !role.hasResources
  }

  /** Exactly the apps with the given ids were described. */
  ghost predicate Queried(before: Apps, after: Apps, ids: set<string>, polls: string -> seq<Poll>)
  {
    && after.Keys == before.Keys
    && forall id :: id in after ==> after[id].state == if id in ids then DescribedState(before[id].state, polls(id)) else before[id].state
  }

  lemma QueriedNext(first: Apps, before: Apps, after: Apps, all: set<string>, left: set<string>, id: string, polls: string -> seq<Poll>)
    requires id in all && id !in left && left <= all && Queried(first, before, all - (left + {id}), polls)
    requires after.Keys == before.Keys && forall other :: other in after && other != id ==> after[other] == before[other]
    requires id in after ==> after[id].state == DescribedState(before[id].state, polls(id))
    ensures Queried(first, after, all - left, polls)
  {
  }

  class StandaloneSession {
    const scheduler: LocalScheduler
    var apps: map<string, Application>             // app id -> application
    ghost var reported: map<string, AppState>      // terminal states that `status` has returned

    ghost predicate Valid()
      reads this, scheduler
    {
      scheduler.Valid() && reported.Keys <= scheduler.issued && ReportsOk(reported, scheduler.apps)
    }

    constructor (scheduler: LocalScheduler)
      requires scheduler.Valid()
      ensures Valid() && this.scheduler == scheduler && apps == map[] && reported == map[]
    {
      this.scheduler := scheduler;
      apps, reported := map[], map[];
    }

    /** An attached app cannot be run again, and every role of an app must be complete. */
    method Run(app: Application, mode: RunMode, fetched: bool) returns (r: Result<string, Error>)
      requires Valid()
      modifies this, scheduler
      ensures Valid() && reported == old(reported)
      ensures r.Ok? ==> apps == old(apps)[r.value := app] && r.value !in reported && r.value in scheduler.apps
      ensures r.Ok? ==> scheduler.apps[r.value] == LocalApplication(app.name, PENDING, -1, mode)
      ensures r == Raise(NotReRunnable) <==> app.isAttached
      ensures !app.isAttached && Incomplete(app) ==> r == Raise(ValueError)
      ensures app.isAttached || Incomplete(app) ==> scheduler.apps == old(scheduler.apps)
      ensures r == Raise(ValueError) ==> Incomplete(app) || !fetched
      ensures r.Raise? ==> apps == old(apps)
    {
      if app.isAttached { return Raise(NotReRunnable); }
      if app.roles == [] { return Raise(ValueError); }
      for i := 0 to |app.roles|
        invariant forall j :: 0 <= j < i ==> app.roles[j].WellFormed()
      {
        if !app.roles[i].WellFormed() { return Raise(ValueError); }
      }
      r := scheduler.Submit(app.name, mode, fetched);
      if r.Ok? {
        apps := apps[r.value := app];
      }
    }

    /** A state that was once reported as terminal is reported again, or the app is gone. */
    method Status(appId: string, polls: seq<Poll>, now: int) returns (r: Result<Option<AppState>, Error>)
      requires Valid() && now <= MAXSIZE
      modifies this, scheduler`apps
      ensures Valid() && scheduler.apps.Keys == old(scheduler.apps).Keys
      ensures r == Raise(UnknownApp) <==> appId !in old(apps)
      ensures r.Raise? ==> r.error == UnknownApp && apps == old(apps) && scheduler.apps == old(scheduler.apps)
      ensures r.Ok? ==> (r.value.None? <==> appId !in scheduler.apps) && apps == if r.value.None? then old(apps) - {appId} else old(apps)
      ensures r.Ok? && r.value.Some? && appId in old(reported) ==> r.value.value == old(reported)[appId]
      ensures r.Ok? && r.value.Some? ==> r.value.value == DescribedState(old(scheduler.apps)[appId].state, polls) == scheduler.apps[appId].state
      ensures reported == if r.Ok? && r.value.Some? && IsTerminal(r.value.value) then old(reported)[appId := r.value.value] else old(reported)
      ensures forall id :: id in scheduler.apps && id != appId ==> scheduler.apps[id] == old(scheduler.apps)[id]
    {
      if appId !in apps { return Raise(UnknownApp); }
      var desc := scheduler.Describe(appId, polls, now);
      if desc.None? {
        apps := apps - {appId};
        return Ok(None);
      }
      if IsTerminal(desc.value) {
        reported := reported[appId := desc.value];
      }
      return Ok(desc);
    }

    /** One query of `list`. */
    method Refresh(appId: string, polls: seq<Poll>, now: int)
      requires Valid() && now <= MAXSIZE && appId in apps
      modifies this, scheduler`apps
      ensures Valid() && scheduler.apps.Keys == old(scheduler.apps).Keys && KeepsReports(old(reported), reported)
      ensures apps == if appId in scheduler.apps then old(apps) else old(apps) - {appId}
      ensures forall id :: id in scheduler.apps && id != appId ==> scheduler.apps[id] == old(scheduler.apps)[id]
      ensures appId in scheduler.apps ==> scheduler.apps[appId].state == DescribedState(old(scheduler.apps)[appId].state, polls)
    {
      var r := Status(appId, polls, now);
    }

    /** Queries every app's status; `polls` and `now` of each query come from the environment. */
    method List(polls: string -> seq<Poll>, now: int)
      requires Valid() && now <= MAXSIZE
      modifies this, scheduler`apps
      ensures Valid() && scheduler.apps.Keys == old(scheduler.apps).Keys
      ensures KeepsReports(old(reported), reported)
      ensures forall id :: id in apps <==> id in old(apps) && id in scheduler.apps
      ensures forall id :: id in apps ==> apps[id] == old(apps)[id]
      ensures Queried(old(scheduler.apps), scheduler.apps, old(apps).Keys, polls)
    {
      var appIds := apps.Keys;
      while appIds != {}
        invariant Valid() && scheduler.apps.Keys == old(scheduler.apps).Keys
        invariant appIds <= old(apps).Keys
        invariant forall id :: id in apps <==> id in old(apps) && (id in appIds || id in scheduler.apps)
        invariant forall id :: id in apps ==> apps[id] == old(apps)[id]
        invariant Queried(old(scheduler.apps), scheduler.apps, old(apps).Keys - appIds, polls)
        invariant KeepsReports(old(reported), reported)
        decreases |appIds|
      {
        var appId :| appId in appIds;
        appIds := appIds - {appId};
        ghost var before := scheduler.apps;
        Refresh(appId, polls(appId), now);
        QueriedNext(old(scheduler.apps), before, scheduler.apps, old(apps).Keys, appIds, appId, polls);
      }
      assert old(apps).Keys - appIds == old(apps).Keys;
    }

    /** Stops an app that has not finished.  An app whose terminal state was reported is left
        alone.  The second round of polls is that of `cancel`'s own lookup. */
    method Stop(appId: string, polls: seq<Poll>, pollsOfCancel: seq<Poll>, now: int) returns (r: Result<(), Error>)
      requires Valid() && now <= MAXSIZE
      modifies this, scheduler`apps
      ensures Valid() && scheduler.apps.Keys == old(scheduler.apps).Keys
      ensures r == Raise(UnknownApp) <==> appId !in old(apps)
      ensures KeepsReports(old(reported), reported)
      ensures forall id :: id in scheduler.apps && id != appId ==> scheduler.apps[id] == old(scheduler.apps)[id]
      ensures appId in old(apps) && appId in scheduler.apps ==>
                scheduler.apps[appId].state == StoppedState(old(scheduler.apps)[appId].state, polls, pollsOfCancel)
    {
      var status := Status(appId, polls, now);
      if status.Raise? { return Raise(status.error); }
      if status.value.None? || IsTerminal(status.value.value) { return Ok(()); }
      scheduler.Cancel(appId, pollsOfCancel, now);
      return Ok(());
    }

    method Attach(appId: string)
      requires Valid()
      modifies this`apps
      ensures Valid() && apps == old(apps)[appId := Application(appId, [], true)]
    {
      apps := apps[appId := Application(appId, [], true)];
    }
  }

  /** The state after `stop`, through a status and possibly a cancel. */
  function StoppedState(state: AppState, polls: seq<Poll>, pollsOfCancel: seq<Poll>): AppState
  {
    if IsTerminal(DescribedState(state, polls)) then DescribedState(state, polls) else CANCELLED
  }

  /** A finished app stays as it is, and so does what the first poll finds finished; what it finds
      running is cancelled. */
  lemma StoppedMeans(state: AppState, polls: seq<Poll>, pollsOfCancel: seq<Poll>)
    ensures state in {SUCCEEDED, FAILED, CANCELLED} ==> StoppedState(state, polls, pollsOfCancel) == state
    ensures state !in {SUCCEEDED, FAILED, CANCELLED} ==>
              if exists i :: 0 <= i < |polls| && polls[i].first == None then StoppedState(state, polls, pollsOfCancel) == CANCELLED
              else if exists i :: 0 <= i < |polls| && polls[i].second.Some? && polls[i].second.value != 0
              then StoppedState(state, polls, pollsOfCancel) == FAILED
              else StoppedState(state, polls, pollsOfCancel) == SUCCEEDED
  {
    DescribedMeans(state, polls);
  }

  /** `stop` overwrites a terminal state exactly if the app was running at the first poll and had
      finished at the lookup inside `cancel`: that lookup stores SUCCEEDED or FAILED, and
      CANCELLED replaces it before anyone sees it. */
  lemma StopOverwrites(state: AppState, polls: seq<Poll>, pollsOfCancel: seq<Poll>)
    ensures
      var looked := DescribedState(DescribedState(state, polls), pollsOfCancel);
      var overwritten := IsTerminal(looked) && StoppedState(state, polls, pollsOfCancel) != looked;
      overwritten <==> !IsTerminal(state) && SomeRunning(polls) && !SomeRunning(pollsOfCancel)
  {
  }

  /** One process that ends with exit code 0 between the two polls. */
  lemma StopOverwritesSuccess()
    ensures
      var alive, done := [Poll(None, None)], [Poll(Some(0), Some(0))];
      DescribedState(DescribedState(PENDING, alive), done) == SUCCEEDED && StoppedState(PENDING, alive, done) == CANCELLED
  {
    assert SomeRunning([Poll(None, None)]) by { assert [Poll(None, None)][0].first.None?; }
  }
}
