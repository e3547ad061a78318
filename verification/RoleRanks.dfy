// Worker ranks from the gathered role infos: the agent's sort, role boundaries and prefix
// sums compute, for every agent, the sum of the local world sizes before it.

module RoleRanks {
  import opened Outcomes
  import opened RendezvousState

  // --- The specification: prefix sums, over all agents or over one role --------------------

  /** The workers an agent contributes; with a role given, only agents of that role count. */
  function Weight(info: RoleInfo, role: Option<string>): nat
  {
    if role.None? || role.value == info.role then info.localWorldSize else 0
  }

  /** The number of workers contributed by the agents before agent `n`. */
  function Before(infos: seq<RoleInfo>, role: Option<string>, n: nat): nat
    requires n <= |infos|
  {
    if n == 0 then 0 else Before(infos, role, n - 1) + Weight(infos[n - 1], role)
  }

  function WorldSize(infos: seq<RoleInfo>, role: Option<string>): nat
  {
    Before(infos, role, |infos|)
  }

  /** Rank `g` belongs to agent `r`. */
  predicate InBlock(infos: seq<RoleInfo>, role: Option<string>, r: nat, g: nat)
    requires r < |infos|
  {
    Before(infos, role, r) <= g < Before(infos, role, r) + Weight(infos[r], role)
  }

  lemma {:induction false} BeforeMonotone(infos: seq<RoleInfo>, role: Option<string>, m: nat, n: nat)
    requires m <= n <= |infos|
    ensures Before(infos, role, m) <= Before(infos, role, n)
  {
    if m < n { BeforeMonotone(infos, role, m, n - 1); }
  }

  /** The blocks tile [0, world size): every rank belongs to exactly one agent. */
  lemma {:induction false} BlocksTile(infos: seq<RoleInfo>, role: Option<string>, g: nat)
    ensures g < WorldSize(infos, role) <==> exists r :: 0 <= r < |infos| && InBlock(infos, role, r, g)
    ensures forall r1, r2 :: 0 <= r1 < r2 < |infos| && InBlock(infos, role, r1, g) ==> !InBlock(infos, role, r2, g)
  {
    if g < WorldSize(infos, role) {
      var r := OwnerOf(infos, role, g, |infos|);
    }
    forall r | 0 <= r < |infos| && InBlock(infos, role, r, g)
      ensures g < WorldSize(infos, role)
    {
      BeforeMonotone(infos, role, r + 1, |infos|);
    }
    forall r1, r2 | 0 <= r1 < r2 < |infos| && InBlock(infos, role, r1, g)
      ensures !InBlock(infos, role, r2, g)
    {
      BeforeMonotone(infos, role, r1 + 1, r2);
    }
  }

  lemma {:induction false} OwnerOf(infos: seq<RoleInfo>, role: Option<string>, g: nat, n: nat) returns (r: nat)
    requires n <= |infos| && g < Before(infos, role, n)
    ensures r < n && InBlock(infos, role, r, g)
  {
    if g < Before(infos, role, n - 1) {
      r := OwnerOf(infos, role, g, n - 1);
    } else {
      r := n - 1;
    }
  }

  /** Within a role, role ranks are ordered as the global ranks are. */
  lemma OrdersAgree(infos: seq<RoleInfo>, i: nat, j: nat, gi: nat, gj: nat, qi: nat, qj: nat)
    requires i < |infos| && j < |infos| && infos[i].role == infos[j].role
    requires InBlock(infos, None, i, gi) && InBlock(infos, None, j, gj)
    requires qi == Before(infos, Some(infos[i].role), i) + (gi - Before(infos, None, i))
    requires qj == Before(infos, Some(infos[j].role), j) + (gj - Before(infos, None, j))
    ensures gi < gj <==> qi < qj
  {
    if i < j {
      BeforeMonotone(infos, None, i + 1, j);
      BeforeMonotone(infos, Some(infos[i].role), i + 1, j);
    } else if j < i {
      BeforeMonotone(infos, None, j + 1, i);
      BeforeMonotone(infos, Some(infos[i].role), j + 1, i);
    }
  }

  // --- The comparator and the sort -----------------------------------------------------------

  /** Code-point order of strings. */
  predicate StrLess(a: string, b: string)
  {
    b != "" && (a == "" || a[0] < b[0] || (a[0] == b[0] && StrLess(a[1..], b[1..])))
  }

  lemma {:induction false} StrTotal(a: string, b: string)
    ensures a == b || StrLess(a, b) || StrLess(b, a)
    ensures !(StrLess(a, b) && StrLess(b, a)) && !StrLess(a, a)
  {
    if a != "" && b != "" {
      StrTotal(a[1..], b[1..]);
      assert a == [a[0]] + a[1..] && b == [b[0]] + b[1..];
    }
    if a != "" { StrTotal(a[1..], a[1..]); }
  }

  lemma {:induction false} StrTransitive(a: string, b: string, c: string)
    requires StrLess(a, b) && StrLess(b, c)
    ensures StrLess(a, c)
  {
    if a != "" && a[0] == b[0] == c[0] {
      StrTransitive(a[1..], b[1..], c[1..]);
    }
  }

  function Compare(x: RoleInfo, y: RoleInfo): int
  {
    if x.role == y.role then x.rank - y.rank
    else if StrLess(y.role, x.role) then 1
    else -1
  }

  lemma CompareTransitive(x: RoleInfo, y: RoleInfo, z: RoleInfo)
    requires Compare(x, y) <= 0 && Compare(y, z) <= 0
    ensures Compare(x, z) <= 0
  {
    StrTotal(x.role, y.role);
    StrTotal(y.role, z.role);
    StrTotal(x.role, z.role);
    if StrLess(x.role, y.role) && StrLess(y.role, z.role) {
      StrTransitive(x.role, y.role, z.role);
    }
  }

  lemma CompareTotal(x: RoleInfo, y: RoleInfo)
    ensures Compare(x, y) <= 0 || Compare(y, x) <= 0
    ensures Compare(x, y) == 0 <==> x.role == y.role && x.rank == y.rank
  {
    StrTotal(x.role, y.role);
  }

  /** Python's stable `sorted`, as an insertion sort. */
  function Insert(x: RoleInfo, s: seq<RoleInfo>): seq<RoleInfo>
  {
    if s == [] || Compare(x, s[0]) <= 0 then [x] + s else [s[0]] + Insert(x, s[1..])
  }

  function Sorted(infos: seq<RoleInfo>): seq<RoleInfo>
  {
    if infos == [] then [] else Insert(infos[0], Sorted(infos[1..]))
  }

  ghost predicate Ordered(s: seq<RoleInfo>)
  {
    forall i, j :: 0 <= i < j < |s| ==> Compare(s[i], s[j]) <= 0
  }

  lemma {:induction false} InsertPermutes(x: RoleInfo, s: seq<RoleInfo>)
    ensures multiset(Insert(x, s)) == multiset{x} + multiset(s)
    ensures forall y :: y in Insert(x, s) ==> y == x || y in s
  {
    if s != [] && Compare(x, s[0]) > 0 {
      InsertPermutes(x, s[1..]);
      assert s == [s[0]] + s[1..];
    }
  }

  lemma OrderedCons(x: RoleInfo, s: seq<RoleInfo>)
    requires Ordered(s) && forall y :: y in s ==> Compare(x, y) <= 0
    ensures Ordered([x] + s)
  {
  }

  lemma {:induction false} InsertOrdered(x: RoleInfo, s: seq<RoleInfo>)
    requires Ordered(s)
    ensures Ordered(Insert(x, s))
  {
    if s == [] {
    } else if Compare(x, s[0]) <= 0 {
      forall y | y in s
        ensures Compare(x, y) <= 0
      {
        if y != s[0] { CompareTransitive(x, s[0], y); }
      }
      OrderedCons(x, s);
    } else {
      InsertOrdered(x, s[1..]);
      InsertPermutes(x, s[1..]);
      CompareTotal(x, s[0]);
      OrderedCons(s[0], Insert(x, s[1..]));
    }
  }

  lemma {:induction false} SortedIsSorted(infos: seq<RoleInfo>)
    ensures Ordered(Sorted(infos)) && multiset(Sorted(infos)) == multiset(infos)
  {
    if infos != [] {
      SortedIsSorted(infos[1..]);
      InsertPermutes(infos[0], Sorted(infos[1..]));
      InsertOrdered(infos[0], Sorted(infos[1..]));
      assert infos == [infos[0]] + infos[1..];
    }
  }

  // --- Sorting keeps the agents of one role in rank order ----------------------------------------

  function OfRole(infos: seq<RoleInfo>, role: string): seq<RoleInfo>
  {
    if infos == [] then []
    else (if infos[0].role == role then [infos[0]] else []) + OfRole(infos[1..], role)
  }

  lemma {:induction false} OfRoleInsert(x: RoleInfo, s: seq<RoleInfo>, role: string)
    requires forall y :: y in s && y.role == x.role ==> x.rank <= y.rank
    ensures OfRole(Insert(x, s), role) == OfRole([x], role) + OfRole(s, role)
  {
    if s == [] || Compare(x, s[0]) <= 0 {
      assert ([x] + s)[1..] == s;
    } else {
      var rest := Insert(x, s[1..]);
      OfRoleInsert(x, s[1..], role);
      assert ([s[0]] + rest)[1..] == rest;
      assert s[0].role != x.role;
    }
  }

  /** The gathered infos are in rank order, which is what `synchronize` delivers. */
  ghost predicate InRankOrder(infos: seq<RoleInfo>)
  {
    forall i, j :: 0 <= i < j < |infos| ==> infos[i].rank < infos[j].rank
  }

  lemma FirstIsLowest(infos: seq<RoleInfo>)
    requires InRankOrder(infos) && infos != []
    ensures forall y :: y in Sorted(infos[1..]) ==> infos[0].rank <= y.rank
  {
    SortedIsSorted(infos[1..]);
    forall y | y in Sorted(infos[1..])
      ensures infos[0].rank <= y.rank
    {
      assert y in multiset(infos[1..]);
    }
  }

  lemma {:induction false} OfRoleSorted(infos: seq<RoleInfo>, role: string)
    requires InRankOrder(infos)
    ensures OfRole(Sorted(infos), role) == OfRole(infos, role)
  {
    if infos != [] {
      OfRoleSorted(infos[1..], role);
      FirstIsLowest(infos);
      OfRoleInsert(infos[0], Sorted(infos[1..]), role);
    }
  }

  lemma {:induction false} OfRoleAppend(a: seq<RoleInfo>, b: seq<RoleInfo>, role: string)
    ensures OfRole(a + b, role) == OfRole(a, role) + OfRole(b, role)
  {
    if a == [] {
      assert a + b == b;
    } else {
      var head := if a[0].role == role then [a[0]] else [];
      assert (a + b)[1..] == a[1..] + b && (a + b)[0] == a[0];
      OfRoleAppend(a[1..], b, role);
      assert head + (OfRole(a[1..], role) + OfRole(b, role)) == (head + OfRole(a[1..], role)) + OfRole(b, role);
    }
  }

  lemma {:induction false} OfRoleUniform(s: seq<RoleInfo>, role: string, keep: bool)
    requires forall i :: 0 <= i < |s| ==> (s[i].role == role) == keep
    ensures OfRole(s, role) == if keep then s else []
  {
    if s != [] { OfRoleUniform(s[1..], role, keep); }
  }

  lemma {:induction false} OfRoleElements(s: seq<RoleInfo>, role: string)
    ensures forall x :: x in OfRole(s, role) ==> x in s && x.role == role
  {
    if s != [] { OfRoleElements(s[1..], role); }
  }

  lemma {:induction false} OfRoleInRankOrder(infos: seq<RoleInfo>, role: string)
    requires InRankOrder(infos)
    ensures InRankOrder(OfRole(infos, role))
  {
    if infos != [] {
      OfRoleInRankOrder(infos[1..], role);
      OfRoleElements(infos[1..], role);
    }
  }

  /** Where the agents of a role start and end in a sequence; -1 if there are none. */
  ghost predicate Boundaries(s: seq<RoleInfo>, role: string, start: int, end: int)
  {
    if start == -1 then end == -1 && forall i :: 0 <= i < |s| ==> s[i].role != role
    else
      && 0 <= start <= end < |s| && s[start].role == role && s[end].role == role
      && (forall i :: 0 <= i < start ==> s[i].role != role)
      && (forall i :: end < i < |s| ==> s[i].role != role)
  }

  /** In a sorted sequence everyone between the boundaries has the role. */
  lemma BetweenBoundaries(s: seq<RoleInfo>, role: string, start: nat, end: nat, i: nat)
    requires Ordered(s) && start <= i <= end < |s| && s[start].role == role && s[end].role == role
    ensures s[i].role == role
  {
    if start < i < end {
      assert Compare(s[start], s[i]) <= 0 && Compare(s[i], s[end]) <= 0;
      StrTotal(role, s[i].role);
    }
  }

  lemma ThreeParts<T>(s: seq<T>, i: nat, j: nat)
    requires i <= j <= |s|
    ensures s == s[..i] + (s[i..j] + s[j..])
  {
  }

  lemma OfRoleThree(low: seq<RoleInfo>, mid: seq<RoleInfo>, high: seq<RoleInfo>, role: string)
    requires forall i :: 0 <= i < |low| ==> low[i].role != role
    requires forall i :: 0 <= i < |mid| ==> mid[i].role == role
    requires forall i :: 0 <= i < |high| ==> high[i].role != role
    ensures OfRole(low + (mid + high), role) == mid
  {
    OfRoleAppend(low, mid + high, role);
    OfRoleAppend(mid, high, role);
    OfRoleUniform(low, role, false);
    OfRoleUniform(mid, role, true);
    OfRoleUniform(high, role, false);
  }

  lemma OfRoleSegment(s: seq<RoleInfo>, role: string, start: nat, end: nat)
    requires start <= end <= |s|
    requires forall i :: 0 <= i < |s| ==> (s[i].role == role <==> start <= i < end)
    ensures OfRole(s, role) == s[start..end]
  {
    ThreeParts(s, start, end);
    OfRoleThree(s[..start], s[start..end], s[end..], role);
  }

  /** In a sorted sequence the agents between the boundaries are exactly those of the role. */
  lemma BoundariesEncloseRole(s: seq<RoleInfo>, role: string, start: nat, end: nat)
    requires Ordered(s) && Boundaries(s, role, start, end)
    ensures end < |s| && s[start..end + 1] == OfRole(s, role)
  {
    forall i | start <= i <= end
      ensures s[i].role == role
    {
      BetweenBoundaries(s, role, start, end, i);
    }
    OfRoleSegment(s, role, start, end + 1);
  }

  // --- The loops ---------------------------------------------------------------------------------

  function SumSizes(infos: seq<RoleInfo>): nat
  {
    Before(infos, None, |infos|)
  }

  function Range(low: nat, count: nat): seq<nat>
  {
    seq(count, i => low + i)
  }

  lemma {:induction false} SumIsBefore(infos: seq<RoleInfo>, role: string, n: nat)
    requires n <= |infos|
    ensures SumSizes(OfRole(infos[..n], role)) == Before(infos, Some(role), n)
    ensures SumSizes(infos[..n]) == Before(infos, None, n)
  {
    if n > 0 {
      SumIsBefore(infos, role, n - 1);
      assert infos[..n] == infos[..n - 1] + [infos[n - 1]];
      OfRoleAppend(infos[..n - 1], [infos[n - 1]], role);
      var last := OfRole([infos[n - 1]], role);
      assert OfRole([infos[n - 1]][1..], role) == [];
      var front := OfRole(infos[..n - 1], role);
      SumAppend(front, last);
      assert last != [] ==> SumSizes(last) == infos[n - 1].localWorldSize by {
        if last != [] { assert Before(last, None, 1) == Before(last, None, 0) + Weight(last[0], None); }
      }
      SumAppend(infos[..n - 1], [infos[n - 1]]);
      assert Before([infos[n - 1]], None, 1) == Before([infos[n - 1]], None, 0) + Weight(infos[n - 1], None);
    }
  }

  lemma {:induction false} BeforePrefix(a: seq<RoleInfo>, b: seq<RoleInfo>, n: nat)
    requires n <= |a|
    ensures Before(a + b, None, n) == Before(a, None, n)
  {
    if n > 0 { BeforePrefix(a, b, n - 1); }
  }

  lemma {:induction false} SumAppend(a: seq<RoleInfo>, b: seq<RoleInfo>)
    ensures SumSizes(a + b) == SumSizes(a) + SumSizes(b)
  {
    if b == [] {
      assert a + b == a;
    } else {
      var k := |b| - 1;
      assert (a + b)[..|a| + k] == a + b[..k];
      SumAppend(a, b[..k]);
      assert a + b == (a + b[..k]) + [b[k]];
      BeforePrefix(a + b[..k], [b[k]], |a| + k);
      assert b == b[..k] + [b[k]];
      BeforePrefix(b[..k], [b[k]], k);
    }
  }

  method FindRoleBoundaries(infos: seq<RoleInfo>, role: string) returns (startIdx: int, endIdx: int)
    ensures Boundaries(infos, role, startIdx, endIdx)
  {
    startIdx, endIdx := -1, -1;
    for idx := 0 to |infos|
      invariant startIdx == -1 ==> endIdx == -1 && forall i :: 0 <= i < idx ==> infos[i].role != role
      invariant startIdx != -1 ==>
        && 0 <= startIdx <= endIdx < idx && infos[startIdx].role == role && infos[endIdx].role == role
        && (forall i :: 0 <= i < startIdx ==> infos[i].role != role)
        && (forall i :: endIdx < i < idx ==> infos[i].role != role)
    {
      if infos[idx].role == role {
        if startIdx == -1 {
          startIdx := idx;
        }
        endIdx := idx;
      }
    }
  }

  function Clip(low: nat, x: int, high: nat): (r: nat)
    requires low <= high
    ensures low <= r <= high
  {
    if x < low then low else if x > high then high else x
  }

  /** Total and own ranks over the slice [startIdx, endIdx); an end of -1 means the whole list. */
  method GetRanks(infos: seq<RoleInfo>, roleIdx: nat, startIdx: nat, endIdx: int := -1) returns (total: nat, ranks: seq<nat>)
    requires roleIdx < |infos| && startIdx <= |infos| && -1 <= endIdx <= |infos|
    ensures
      var end := Clip(startIdx, if endIdx == -1 then |infos| else endIdx, |infos|);
      && total == SumSizes(infos[startIdx..end])
      && ranks == Range(SumSizes(infos[startIdx..Clip(startIdx, roleIdx, end)]), infos[roleIdx].localWorldSize)
  {
    var end := Clip(startIdx, if endIdx == -1 then |infos| else endIdx, |infos|);
    var prefixSum := 0;
    total := 0;
    for idx := startIdx to end
      invariant total == SumSizes(infos[startIdx..idx])
      invariant prefixSum == SumSizes(infos[startIdx..Clip(startIdx, roleIdx, idx)])
    {
      assert infos[startIdx..idx + 1] == infos[startIdx..idx] + [infos[idx]];
      SumAppend(infos[startIdx..idx], [infos[idx]]);
      assert Before([infos[idx]], None, 1) == Before([infos[idx]], None, 0) + infos[idx].localWorldSize;
      if roleIdx > idx {
        prefixSum := prefixSum + infos[idx].localWorldSize;
      }
      total := total + infos[idx].localWorldSize;
    }
    ranks := Range(prefixSum, infos[roleIdx].localWorldSize);
  }

  /** The position of the agent's own info in the sorted sequence. */
  method FindPosition(infos: seq<RoleInfo>, mine: RoleInfo) returns (pos: nat)
    requires exists i :: 0 <= i < |infos| && Compare(infos[i], mine) == 0
    ensures pos < |infos| && Compare(infos[pos], mine) == 0
    ensures forall i :: 0 <= i < pos ==> Compare(infos[i], mine) != 0
  {
    pos := 0;
    while Compare(infos[pos], mine) != 0
      invariant pos < |infos| && forall i :: 0 <= i < pos ==> Compare(infos[i], mine) != 0
      decreases |infos| - pos
    {
      pos := pos + 1;
    }
  }

  /** What each worker process is told. */
  datatype Worker = Worker(localRank: nat, globalRank: nat, roleRank: nat, worldSize: nat, roleWorldSize: nat)

  function AssignedWorker(infos: seq<RoleInfo>, groupRank: nat, localRank: nat): Worker
    requires groupRank < |infos|
  {
    var role := Some(infos[groupRank].role);
    Worker(localRank, Before(infos, None, groupRank) + localRank, Before(infos, role, groupRank) + localRank,
           WorldSize(infos, None), WorldSize(infos, role))
  }

  /** Local worker `k` of an agent is the `k`-th of its block among all workers, and the `k`-th of its
      block among those of its role; it learns the totals. */
  ghost predicate Ranks(infos: seq<RoleInfo>, groupRank: nat, workers: seq<Worker>)
    requires groupRank < |infos|
  {
    var role := infos[groupRank].role;
    forall k :: 0 <= k < |workers| ==>
      && workers[k].localRank == k
      && workers[k].globalRank == SumSizes(infos[..groupRank]) + k
      && workers[k].worldSize == SumSizes(infos)
      && workers[k].roleRank == SumSizes(OfRole(infos[..groupRank], role)) + k
      && workers[k].roleWorldSize == SumSizes(OfRole(infos, role))
  }

  lemma AssignedRanks(infos: seq<RoleInfo>, groupRank: nat, workers: seq<Worker>)
    requires groupRank < |infos| && forall k :: 0 <= k < |workers| ==> workers[k] == AssignedWorker(infos, groupRank, k)
    ensures Ranks(infos, groupRank, workers)
  {
    SumIsBefore(infos, infos[groupRank].role, groupRank);
    SumIsBefore(infos, infos[groupRank].role, |infos|);
    assert infos[..|infos|] == infos;
  }

  /** The agents of a role, split at one of them. */
  lemma OfRoleAround(a: seq<RoleInfo>, x: RoleInfo, b: seq<RoleInfo>)
    ensures OfRole(a + ([x] + b), x.role) == OfRole(a, x.role) + ([x] + OfRole(b, x.role))
  {
    OfRoleAppend(a, [x] + b, x.role);
    assert ([x] + b)[1..] == b;
  }

  lemma RankOrderInjective(s: seq<RoleInfo>, i: nat, j: nat)
    requires InRankOrder(s) && i < |s| && j < |s| && s[i].rank == s[j].rank
    ensures i == j
  {
  }

  /** The agent's own info in the sorted sequence. */
  lemma PositionIsMine(infos: seq<RoleInfo>, groupRank: nat, pos: nat)
    requires InRankOrder(infos) && groupRank < |infos|
    requires pos < |Sorted(infos)| && Compare(Sorted(infos)[pos], infos[groupRank]) == 0
    ensures Sorted(infos)[pos] == infos[groupRank]
  {
    SortedIsSorted(infos);
    CompareTotal(Sorted(infos)[pos], infos[groupRank]);
    assert Sorted(infos)[pos] in multiset(infos);
    var k :| 0 <= k < |infos| && infos[k] == Sorted(infos)[pos];
    RankOrderInjective(infos, k, groupRank);
  }

  /** Cutting the slice of one role at one of its agents. */
  lemma SplitAt(sorted: seq<RoleInfo>, start: nat, end: nat, pos: nat, front: seq<RoleInfo>, x: RoleInfo, back: seq<RoleInfo>)
    requires start <= pos < end <= |sorted| && sorted[pos] == x
    requires sorted[start..end] == front + ([x] + back) && InRankOrder(sorted[start..end])
    ensures sorted[start..pos] == front
  {
    var all := sorted[start..end];
    assert all[|front|] == x && all[pos - start] == x;
    RankOrderInjective(all, |front|, pos - start);
    assert sorted[start..pos] == all[..pos - start];
  }

  /** The agents of the role in the sorted sequence are those of the unsorted one, in order. */
  lemma RoleSegment(infos: seq<RoleInfo>, role: string, start: nat, end: nat)
    requires InRankOrder(infos) && Boundaries(Sorted(infos), role, start, end)
    ensures end < |Sorted(infos)| && Sorted(infos)[start..end + 1] == OfRole(infos, role)
    ensures InRankOrder(OfRole(infos, role))
  {
    SortedIsSorted(infos);
    BoundariesEncloseRole(Sorted(infos), role, start, end);
    OfRoleSorted(infos, role);
    OfRoleInRankOrder(infos, role);
  }

  lemma OfRoleSplit(infos: seq<RoleInfo>, k: nat)
    requires k < |infos|
    ensures OfRole(infos, infos[k].role) == OfRole(infos[..k], infos[k].role) + ([infos[k]] + OfRole(infos[k + 1..], infos[k].role))
  {
    ThreeParts(infos, k, k + 1);
    assert infos[k..k + 1] == [infos[k]];
    OfRoleAround(infos[..k], infos[k], infos[k + 1..]);
  }

  lemma WithinBoundaries(s: seq<RoleInfo>, role: string, start: int, end: int, pos: nat)
    requires Boundaries(s, role, start, end) && pos < |s| && s[pos].role == role
    ensures 0 <= start <= pos <= end < |s|
  {
  }

  /** What the role pass sums up, in terms of the unsorted infos. */
  lemma RoleSlice(infos: seq<RoleInfo>, groupRank: nat, start: int, end: int, pos: nat)
    requires InRankOrder(infos) && groupRank < |infos|
    requires Boundaries(Sorted(infos), infos[groupRank].role, start, end)
    requires pos < |Sorted(infos)| && Sorted(infos)[pos] == infos[groupRank]
    ensures 0 <= start <= pos <= end < |Sorted(infos)|
    ensures Sorted(infos)[start..end + 1] == OfRole(infos, infos[groupRank].role)
    ensures Sorted(infos)[start..pos] == OfRole(infos[..groupRank], infos[groupRank].role)
  {
    var mine := infos[groupRank];
    WithinBoundaries(Sorted(infos), mine.role, start, end, pos);
    RoleSegment(infos, mine.role, start, end);
    OfRoleSplit(infos, groupRank);
    var front, back := OfRole(infos[..groupRank], mine.role), OfRole(infos[groupRank + 1..], mine.role);
    SplitAt(Sorted(infos), start, end + 1, pos, front, mine, back);
  }

  lemma RoleSums(infos: seq<RoleInfo>, groupRank: nat, start: int, end: int, pos: nat)
    requires InRankOrder(infos) && groupRank < |infos|
    requires Boundaries(Sorted(infos), infos[groupRank].role, start, end)
    requires pos < |Sorted(infos)| && Compare(Sorted(infos)[pos], infos[groupRank]) == 0
    ensures 0 <= start <= pos <= end < |Sorted(infos)| && Sorted(infos)[pos] == infos[groupRank]
    ensures SumSizes(Sorted(infos)[start..pos]) == Before(infos, Some(infos[groupRank].role), groupRank)
    ensures SumSizes(Sorted(infos)[start..end + 1]) == WorldSize(infos, Some(infos[groupRank].role))
  {
    PositionIsMine(infos, groupRank, pos);
    RoleSlice(infos, groupRank, start, end, pos);
    SumIsBefore(infos, infos[groupRank].role, groupRank);
    SumIsBefore(infos, infos[groupRank].role, |infos|);
    assert infos[..|infos|] == infos;
  }

  lemma MineIsSorted(infos: seq<RoleInfo>, groupRank: nat)
    requires groupRank < |infos|
    ensures exists i :: 0 <= i < |Sorted(infos)| && Compare(Sorted(infos)[i], infos[groupRank]) == 0
  {
    SortedIsSorted(infos);
    assert infos[groupRank] in multiset(Sorted(infos));
  }

  /** The global pass over all agents. */
  lemma GlobalSums(infos: seq<RoleInfo>, groupRank: nat)
    requires groupRank < |infos|
    ensures SumSizes(infos[0..|infos|]) == WorldSize(infos, None)
    ensures SumSizes(infos[0..groupRank]) == Before(infos, None, groupRank)
  {
    SumIsBefore(infos, infos[groupRank].role, groupRank);
    assert infos[0..groupRank] == infos[..groupRank] && infos[0..|infos|] == infos;
  }

  /** The role pass: sort, find the role and the own position, and sum up. */
  method GetRoleRanks(infos: seq<RoleInfo>, groupRank: nat) returns (total: nat, ranks: seq<nat>)
    requires InRankOrder(infos) && groupRank < |infos|
    ensures total == WorldSize(infos, Some(infos[groupRank].role))
    ensures ranks == Range(Before(infos, Some(infos[groupRank].role), groupRank), infos[groupRank].localWorldSize)
  {
    var mine, sorted := infos[groupRank], Sorted(infos);
    var startIdx, endIdx := FindRoleBoundaries(sorted, mine.role);
    MineIsSorted(infos, groupRank);
    var pos := FindPosition(sorted, mine);
    RoleSums(infos, groupRank, startIdx, endIdx, pos);
    total, ranks := GetRanks(sorted, pos, startIdx, endIdx + 1);
  }

  method AssignWorkerRanks(infos: seq<RoleInfo>, groupRank: nat) returns (workers: seq<Worker>)
    requires InRankOrder(infos) && groupRank < |infos|
    ensures |workers| == infos[groupRank].localWorldSize
    ensures Ranks(infos, groupRank, workers)
    ensures forall k :: 0 <= k < |workers| ==> workers[k] == AssignedWorker(infos, groupRank, k)
  {
    var mine := infos[groupRank];
    var worldSize, globalRanks := GetRanks(infos, groupRank, 0);
    GlobalSums(infos, groupRank);
    var roleWorldSize, roleRanks := GetRoleRanks(infos, groupRank);
    workers := [];
    for ind := 0 to mine.localWorldSize
      invariant |workers| == ind
      invariant forall k :: 0 <= k < ind ==> workers[k] == AssignedWorker(infos, groupRank, k)
    {
      workers := workers + [Worker(ind, globalRanks[ind], roleRanks[ind], worldSize, roleWorldSize)];
    }
    AssignedRanks(infos, groupRank, workers);
  }
}
