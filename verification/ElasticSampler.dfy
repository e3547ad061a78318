// The elastic distributed sampler: padding and striding of a shuffled index list.

module ElasticSampler {
  import opened Outcomes
  import C = Counting

  datatype Error = StartIndexTooLarge | AssertionFailed

  /** The smallest number of samples per replica that covers `m` indices. */
  function CeilDiv(m: nat, replicas: nat): (n: nat)
    requires replicas > 0
    ensures m <= n * replicas < m + replicas
  {
    var n := (m + replicas - 1) / replicas;
    DivBounds(m + replicas - 1, replicas);
    n
  }

  lemma DivBounds(a: nat, d: nat)
    requires d > 0
    ensures a / d * d <= a < a / d * d + d
  {
  }

  /** What `torch.randperm(m)` returns: some order of 0, ..., m - 1. */
  ghost predicate IsPermutation(perm: seq<nat>, m: nat)
  {
    |perm| == m && C.Distinct(perm) && forall i :: 0 <= i < m ==> perm[i] < m
  }

  /** Python's `s[from::step]`. */
  function Stride(s: seq<int>, from: nat, step: nat): seq<int>
    requires step > 0
    decreases |s| - from
  {
    if from >= |s| then [] else [s[from]] + Stride(s, from + step, step)
  }

  /** Python's `s[:count]`, which stops at the end of the list. */
  function Take(s: seq<int>, count: nat): seq<int>
  {
    if count <= |s| then s[..count] else s
  }

  function Shifted(perm: seq<nat>, start: int): (r: seq<int>)
    ensures |r| == |perm| && forall i :: 0 <= i < |perm| ==> r[i] == perm[i] + start
  {
    seq(|perm|, i requires 0 <= i < |perm| => perm[i] + start)
  }

  /** The shuffled indices with the padding that makes them evenly divisible. */
  function Padded(perm: seq<nat>, start: int, total: nat): seq<int>
    requires |perm| <= total
  {
    Shifted(perm, start) + Take(Shifted(perm, start), total - |perm|)
  }

  class ElasticDistributedSampler {
    const datasetSize: nat
    const startIndex: int
    const numReplicas: nat
    const rank: nat
    const numSamples: nat
    const totalSize: nat

    /** The remaining part of the dataset. */
    function Remaining(): int { datasetSize - startIndex }

    ghost predicate Valid()
    {
      && rank < numReplicas && startIndex < datasetSize
      && numSamples == CeilDiv(Remaining(), numReplicas) && totalSize == numSamples * numReplicas
    }

    constructor (datasetSize: nat, numReplicas: nat, rank: nat, startIndex: int)
      requires rank < numReplicas && startIndex < datasetSize
      ensures Valid() && this.datasetSize == datasetSize && this.startIndex == startIndex
      ensures this.numReplicas == numReplicas && this.rank == rank
    {
      this.datasetSize, this.numReplicas, this.rank, this.startIndex := datasetSize, numReplicas, rank, startIndex;
      numSamples := CeilDiv(datasetSize - startIndex, numReplicas);
      totalSize := CeilDiv(datasetSize - startIndex, numReplicas) * numReplicas;
    }

    /** `__init__`: a start index beyond the dataset is an error. */
    static method Create(datasetSize: nat, numReplicas: nat, rank: nat, startIndex: int) returns (r: Result<ElasticDistributedSampler, Error>)
      requires rank < numReplicas
      ensures r == Raise(StartIndexTooLarge) <==> startIndex >= datasetSize
      ensures r.Ok? ==> r.value.Valid() && r.value.datasetSize == datasetSize && r.value.startIndex == startIndex
                        && r.value.numReplicas == numReplicas && r.value.rank == rank && fresh(r.value)
      ensures r.Raise? ==> r.error == StartIndexTooLarge
    {
      if startIndex >= datasetSize { return Raise(StartIndexTooLarge); }
      var sampler := new ElasticDistributedSampler(datasetSize, numReplicas, rank, startIndex);
      return Ok(sampler);
    }

    /** `__iter__`, for the given shuffle.  The length assertion holds exactly if there are at
        most twice as many replicas as remaining indices. */
    method Iter(perm: seq<nat>) returns (r: Result<seq<int>, Error>)
      requires Valid() && IsPermutation(perm, Remaining())
      ensures r.Ok? <==> numReplicas <= 2 * Remaining()
      ensures r.Ok? ==> |perm| <= totalSize && |r.value| == numSamples && |Padded(perm, startIndex, totalSize)| == totalSize
      ensures r.Ok? ==> r.value == Stride(Padded(perm, startIndex, totalSize), rank, numReplicas)
      ensures r.Ok? ==> forall k :: 0 <= k < |r.value| ==> startIndex <= r.value[k] < datasetSize
      ensures r.Raise? ==> r.error == AssertionFailed
    {
      var indices := Shifted(perm, startIndex);
      indices := indices + Take(indices, totalSize - |indices|);
      PaddedLength(Remaining(), numReplicas);
      if |indices| != totalSize { return Raise(AssertionFailed); }
      indices := Stride(indices, rank, numReplicas);
      StrideLength(Padded(perm, startIndex, totalSize), rank, numReplicas, numSamples);
      if |indices| != numSamples { return Raise(AssertionFailed); }
      StridedInRange(perm, startIndex, Remaining(), totalSize, rank, numReplicas);
      return Ok(indices);
    }

    /** All replicas of this sampler together yield an index exactly if it lies in the rest of the
        dataset, from the start index on, and at most twice. */
    lemma Covers(perm: seq<nat>, x: int)
      requires Valid() && IsPermutation(perm, datasetSize - startIndex) && numReplicas <= 2 * (datasetSize - startIndex)
      ensures |perm| <= totalSize
      ensures
        var taken := Yields(Padded(perm, startIndex, totalSize), numReplicas, numReplicas);
        (x in taken <==> startIndex <= x < datasetSize) && taken[x] <= 2
    {
      assert Remaining() == datasetSize - startIndex;
      CoversOnceOrTwice(perm, startIndex, Remaining(), numReplicas, totalSize, x);
    }
  }

  /** Padding with a copy of the list suffices exactly if it is at most as long as the list. */
  lemma PaddedLength(m: nat, replicas: nat)
    requires m > 0 && replicas > 0
    ensures CeilDiv(m, replicas) * replicas - m <= m <==> replicas <= 2 * m
  {
    var n := CeilDiv(m, replicas);
    MulMonotone(2, n, replicas);
    MulMonotone(n, 0, replicas);
    MulMonotone(1, n, replicas);
    if replicas >= m {
      assert n == 1;
    }
  }

  lemma RowStep(n: int, step: nat)
    ensures (n - 1) * step + step == n * step
  {
  }

  /** Row `k` is one of the `n` rows. */
  lemma RowFits(k: nat, n: nat, step: nat)
    requires k < n
    ensures k * step + step <= n * step
  {
    MulMonotone(k + 1, n, step);
    RowStep(k + 1, step);
  }

  /** A stride takes one position per row. */
  lemma {:induction false} StrideLength(s: seq<int>, from: nat, step: nat, n: nat)
    requires step > 0 && from < step && |s| == n * step
    ensures |Stride(s, from, step)| == n
    decreases n
  {
    if n > 0 {
      RowStep(n, step);
      RowFits(0, n, step);
      StrideShift(s, from, step);
      StrideLength(s[step..], from, step, n - 1);
    }
  }

  /** It takes position `from` of row `k` as its element `k`. */
  lemma {:induction false} StrideAt(s: seq<int>, from: nat, step: nat, n: nat, k: nat)
    requires step > 0 && from < step && |s| == n * step && k < n
    ensures k < |Stride(s, from, step)| && 0 <= Position(from, k, step) < |s|
    ensures Stride(s, from, step)[k] == s[Position(from, k, step)]
    decreases k
  {
    RowStep(n, step);
    RowStep(k, step);
    RowFits(k, n, step);
    RowFits(0, n, step);
    StrideShift(s, from, step);
    if k > 0 {
      StrideAt(s[step..], from, step, n - 1, k - 1);
      assert s[step..][Position(from, k - 1, step)] == s[Position(from, k, step)];
    }
  }

  lemma {:induction false} StrideElements(s: seq<int>, from: nat, step: nat)
    requires step > 0
    ensures forall x :: x in Stride(s, from, step) ==> x in s
    decreases |s| - from
  {
    if from < |s| {
      StrideElements(s, from + step, step);
    }
  }

  lemma ShiftedInRange(perm: seq<nat>, start: int, m: nat)
    requires IsPermutation(perm, m)
    ensures forall x :: x in Shifted(perm, start) ==> start <= x < start + m
  {
  }

  lemma StridedInRange(perm: seq<nat>, start: int, m: nat, total: nat, from: nat, step: nat)
    requires IsPermutation(perm, m) && m <= total && step > 0
    ensures
      var taken := Stride(Padded(perm, start, total), from, step);
      forall k :: 0 <= k < |taken| ==> start <= taken[k] < start + m
  {
    var taken := Stride(Padded(perm, start, total), from, step);
    ShiftedInRange(perm, start, m);
    StrideElements(Padded(perm, start, total), from, step);
    forall k | 0 <= k < |taken|
      ensures start <= taken[k] < start + m
    {
      assert taken[k] in taken;
    }
  }

  /** Striding past the first row is striding in the remaining rows. */
  lemma StrideShift(s: seq<int>, from: nat, step: nat)
    requires step > 0 && from < step <= |s|
    ensures Stride(s, from, step) == [s[from]] + Stride(s[step..], from, step)
  {
    StrideDrop(s, s[step..], from + step, step, step);
  }

  lemma {:induction false} StrideDrop(s: seq<int>, rest: seq<int>, from: nat, step: nat, drop: nat)
    requires step > 0 && drop <= from && drop <= |s| && rest == s[drop..]
    ensures Stride(s, from, step) == Stride(rest, from - drop, step)
    decreases |s| - from
  {
    if from < |s| {
      StrideDrop(s, rest, from + step, step, drop);
      assert rest[from - drop] == s[from];
    }
  }

  /** Different replicas never take the same position, and every position is taken. */
  lemma PositionsPartition(total: nat, replicas: nat, n: nat, p: nat)
    requires replicas > 0 && total == n * replicas && p < total
    ensures exists rank, k :: 0 <= rank < replicas && 0 <= k < n && p == Position(rank, k, replicas)
    ensures forall rank1, k1, rank2, k2 | 0 <= rank1 < replicas && 0 <= rank2 < replicas ::
              p == Position(rank1, k1, replicas) == Position(rank2, k2, replicas) ==> rank1 == rank2 && k1 == k2
  {
    var k, rank := p / replicas, p % replicas;
    assert p == Position(rank, k, replicas);
    MulMonotone(n, k, replicas);
    forall rank1: nat, k1: int | rank1 < replicas && p == Position(rank1, k1, replicas)
      ensures rank1 == rank && k1 == k
    {
      UniqueQuotient(rank1, k1, rank, k, replicas);
    }
  }

  function Position(rank: int, k: int, replicas: int): int { rank + k * replicas }

  lemma MulMonotone(a: int, b: int, d: nat)
    ensures a <= b ==> a * d <= b * d
  {
  }

  lemma LaterRow(r1: nat, k1: int, r2: nat, k2: int, d: nat)
    requires r1 < d && k1 < k2
    ensures r1 + k1 * d < r2 + k2 * d
  {
    MulMonotone(k1 + 1, k2, d);
    assert (k1 + 1) * d == k1 * d + d;
  }

  lemma UniqueQuotient(r1: nat, k1: int, r2: nat, k2: int, d: nat)
    requires r1 < d && r2 < d && r1 + k1 * d == r2 + k2 * d
    ensures r1 == r2 && k1 == k2
  {
    if k1 < k2 { LaterRow(r1, k1, r2, k2, d); } else if k2 < k1 { LaterRow(r2, k2, r1, k1, d); }
  }

  // --- Coverage ------------------------------------------------------------------------------------

  /** Everything that the first `ranks` replicas yield. */
  function Yields(s: seq<int>, ranks: nat, replicas: nat): multiset<int>
    requires replicas > 0
  {
    if ranks == 0 then multiset{} else Yields(s, ranks - 1, replicas) + multiset(Stride(s, ranks - 1, replicas))
  }

  lemma {:induction false} YieldsByRow(s: seq<int>, ranks: nat, replicas: nat)
    requires ranks <= replicas && 0 < replicas <= |s|
    ensures Yields(s, ranks, replicas) == multiset(s[..ranks]) + Yields(s[replicas..], ranks, replicas)
  {
    if ranks > 0 {
      YieldsByRow(s, ranks - 1, replicas);
      StrideShift(s, ranks - 1, replicas);
      SnocCount(s[..ranks - 1], s[ranks - 1], s[..ranks]);
      ConsCount(s[ranks - 1], Stride(s[replicas..], ranks - 1, replicas), Stride(s, ranks - 1, replicas));
    } else {
      assert s[..0] == [];
    }
  }

  lemma SnocCount<T>(front: seq<T>, x: T, all: seq<T>)
    requires all == front + [x]
    ensures multiset(all) == multiset(front) + multiset{x}
  {
  }

  lemma SplitCount<T>(s: seq<T>, k: nat)
    requires k <= |s|
    ensures multiset(s) == multiset(s[..k]) + multiset(s[k..])
  {
    assert s == s[..k] + s[k..];
  }

  lemma ConsCount<T>(x: T, rest: seq<T>, all: seq<T>)
    requires all == [x] + rest
    ensures multiset(all) == multiset{x} + multiset(rest)
  {
  }

  lemma {:induction false} YieldsNothing(ranks: nat, replicas: nat)
    requires replicas > 0
    ensures Yields([], ranks, replicas) == multiset{}
  {
    if ranks > 0 { YieldsNothing(ranks - 1, replicas); }
  }

  /** All replicas together yield the whole padded list. */
  lemma {:induction false} YieldsAll(s: seq<int>, replicas: nat, n: nat)
    requires replicas > 0 && |s| == n * replicas
    ensures Yields(s, replicas, replicas) == multiset(s)
    decreases n
  {
    if n == 0 {
      YieldsNothing(replicas, replicas);
      assert s == [];
    } else {
      assert |s| == (n - 1) * replicas + replicas;
      YieldsByRow(s, replicas, replicas);
      YieldsAll(s[replicas..], replicas, n - 1);
      SplitCount(s, replicas);
    }
  }

  lemma {:induction false} DistinctCount<T>(s: seq<T>, x: T)
    requires C.Distinct(s)
    ensures multiset(s)[x] == if x in s then 1 else 0
  {
    if s != [] {
      var k := |s| - 1;
      DistinctCount(s[..k], x);
      assert s == s[..k] + [s[k]];
    }
  }

  /** Together the replicas yield every remaining index once or twice and nothing else; exactly
      `totalSize - remaining` indices, the start of the shuffle, are repeated. */
  lemma Coverage(perm: seq<nat>, start: int, m: nat, replicas: nat, x: int)
    requires m > 0 && replicas > 0 && replicas <= 2 * m && IsPermutation(perm, m)
    ensures
      var n := CeilDiv(m, replicas);
      var extra := n * replicas - m;
      && 0 <= extra <= m && C.Distinct(Shifted(perm, start)[..extra])
      && Yields(Padded(perm, start, n * replicas), replicas, replicas)[x]
         == (if start <= x < start + m then 1 else 0) + (if x in Shifted(perm, start)[..extra] then 1 else 0)
  {
    var n := CeilDiv(m, replicas);
    var base := Shifted(perm, start);
    var extra := n * replicas - m;
    PaddedLength(m, replicas);
    var padded := base + base[..extra];
    assert padded == Padded(perm, start, n * replicas);
    YieldsAll(padded, replicas, n);
    assert C.Distinct(base);
    DistinctCount(base, x);
    DistinctCount(base[..extra], x);
    C.DistinctFill(perm, m);
    if start <= x < start + m {
      assert x - start in perm;
      var i :| 0 <= i < m && perm[i] == x - start;
      assert base[i] == x;
    }
  }

  lemma CoversOnceOrTwice(perm: seq<nat>, start: int, m: nat, replicas: nat, total: nat, x: int)
    requires m > 0 && replicas > 0 && replicas <= 2 * m && IsPermutation(perm, m)
    requires total == CeilDiv(m, replicas) * replicas
    ensures m <= total
    ensures x in Yields(Padded(perm, start, total), replicas, replicas) <==> start <= x < start + m
    ensures Yields(Padded(perm, start, total), replicas, replicas)[x] <= 2
  {
    Coverage(perm, start, m, replicas, x);
    ShiftedInRange(perm, start, m);
  }
}
