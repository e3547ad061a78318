// Joining a set of spawned processes.

module ProcessContexts {
  import opened Outcomes
  import C = Counting

  /** The handle that becomes ready when its process ends. */
  datatype Sentinel = Sentinel(fd: int)

  datatype Failure =
    | WorkerRaised(index: nat, trace: string)
    | WorkerSignaled(index: nat, signal: nat)
    | WorkerExited(index: nat, exitCode: int)

  /** How a process ends: the exit code if it ends by itself, whether it is still alive when the
      others are terminated, its exit code then, and what it left on its error queue. */
  datatype Fate = Fate(exitCode: int, alive: bool, killedCode: int, trace: Option<string>)

  /** The exit code of a process that was joined after the termination of the rest. */
  function FinalCode(fate: Fate): int { if fate.alive then fate.killedCode else fate.exitCode }

  /** `connection.wait`: some of the given sentinels, each at most once. */
  ghost predicate Ready(ready: seq<Sentinel>, sentinels: set<Sentinel>)
  {
    C.Distinct(ready) && forall i :: 0 <= i < |ready| ==> ready[i] in sentinels
  }

  /** Which exception a failed process becomes. */
  function FailureOf(index: nat, code: int, trace: Option<string>): Failure
    requires code != 0
  {
    if trace.Some? then WorkerRaised(index, trace.value)
    else if code < 0 then WorkerSignaled(index, -code)
    else WorkerExited(index, code)
  }

  // ----- The state between two calls -----

  /** The sentinel map is exactly the processes not yet joined, and whoever was joined exited with 0. */
  ghost predicate Tracks(handles: seq<Sentinel>, codes: seq<Option<int>>, sentinels: map<Sentinel, nat>)
  {
    && C.Distinct(handles) && |codes| == |handles|
    && (forall i :: 0 <= i < |handles| ==> (codes[i].None? <==> handles[i] in sentinels))
    && (forall s :: s in sentinels ==> sentinels[s] < |handles| && handles[sentinels[s]] == s)
    && (forall i :: 0 <= i < |handles| && codes[i].Some? ==> codes[i].value == 0)
  }

  /** The sentinels that are left once some were popped. */
  ghost function Without(sentinels: map<Sentinel, nat>, popped: seq<Sentinel>): map<Sentinel, nat>
  {
    map s | s in sentinels && s !in popped :: sentinels[s]
  }

  /** The first n ready processes exited with 0. */
  ghost predicate Clean(fates: seq<Fate>, sentinels: map<Sentinel, nat>, ready: seq<Sentinel>, n: nat)
    requires n <= |ready|
  {
    forall j :: 0 <= j < n ==> ready[j] in sentinels && sentinels[ready[j]] < |fates| && fates[sentinels[ready[j]]].exitCode == 0
  }

  /** The k-th ready process is the first one that failed, and the exception is about it. */
  ghost predicate Blames(failure: Failure, fates: seq<Fate>, sentinels: map<Sentinel, nat>, ready: seq<Sentinel>, k: nat)
  {
    && k < |ready| && Clean(fates, sentinels, ready, k)
    && ready[k] in sentinels && var index := sentinels[ready[k]];
    && index < |fates| && fates[index].exitCode != 0
    && failure == FailureOf(index, fates[index].exitCode, fates[index].trace)
  }

  /** The exception says what became of the process: the traceback if it left one, or else the signal
      or the exit code. */
  ghost predicate Tells(failure: Failure, fates: seq<Fate>)
  {
    && failure.index < |fates|
    && match failure
       case WorkerRaised(i, trace) => fates[i].trace == Some(trace)
       case WorkerSignaled(i, signal) => fates[i].trace == None && fates[i].exitCode + signal == 0 && signal > 0
       case WorkerExited(i, code) => fates[i].trace == None && fates[i].exitCode == code && code > 0
  }

  /** Nobody changes an exit code once it is known, and a new one is the process's own. */
  ghost predicate Reaped(before: seq<Option<int>>, after: seq<Option<int>>, fates: seq<Fate>)
    requires |before| == |after| == |fates|
  {
    forall i :: 0 <= i < |after| ==> after[i] == before[i] || (before[i].None? && after[i] == Some(fates[i].exitCode))
  }

  ghost predicate EndOf(code: Option<int>, fate: Fate)
  {
    code == Some(fate.exitCode) || code == Some(FinalCode(fate))
  }

  /** The same when the rest was terminated: a new exit code is the process's own, or the one it got then. */
  ghost predicate Terminated(before: seq<Option<int>>, after: seq<Option<int>>, fates: seq<Fate>)
    requires |before| == |after| == |fates|
  {
    forall i :: 0 <= i < |after| ==> if before[i].Some? then after[i] == before[i] else EndOf(after[i], fates[i])
  }

  predicate AllJoined(codes: seq<Option<int>>)
  {
    forall i :: 0 <= i < |codes| ==> codes[i].Some?
  }

  /** Popping a sentinel and joining its process with exit code 0 keeps the two in step. */
  lemma PopKeepsTrack(handles: seq<Sentinel>, codes: seq<Option<int>>, sentinels: map<Sentinel, nat>, s: Sentinel)
    requires Tracks(handles, codes, sentinels) && s in sentinels
    ensures Tracks(handles, codes[sentinels[s] := Some(0)], sentinels - {s})
  {
  }

  /** The joined process was not joined before, and gets its own exit code. */
  lemma JoinReaps(handles: seq<Sentinel>, before: seq<Option<int>>, codes: seq<Option<int>>, sentinels: map<Sentinel, nat>,
                  fates: seq<Fate>, s: Sentinel)
    requires Tracks(handles, codes, sentinels) && s in sentinels && |before| == |codes| == |fates| && Reaped(before, codes, fates)
    ensures Reaped(before, codes[sentinels[s] := Some(fates[sentinels[s]].exitCode)], fates)
  {
  }

  lemma PopNext(sentinels: map<Sentinel, nat>, ready: seq<Sentinel>, i: nat)
    requires Ready(ready, sentinels.Keys) && i < |ready|
    ensures ready[i] in Without(sentinels, ready[..i])
    ensures Without(sentinels, ready[..i]) - {ready[i]} == Without(sentinels, ready[..i + 1])
  {
    assert ready[..i + 1] == ready[..i] + [ready[i]];
  }

  /** A ready sentinel is one less to wait for. */
  lemma PopShrinks(sentinels: map<Sentinel, nat>, ready: seq<Sentinel>)
    requires Ready(ready, sentinels.Keys) && ready != []
    ensures |Without(sentinels, ready)| < |sentinels|
  {
    var left := Without(sentinels, ready).Keys;
    assert left <= sentinels.Keys - {ready[0]};
    C.SubsetCardinality(left, sentinels.Keys - {ready[0]});
    assert |Without(sentinels, ready)| == |left|;
  }

  lemma NobodyReady(ready: seq<Sentinel>, sentinels: map<Sentinel, nat>)
    requires Ready(ready, sentinels.Keys)
    ensures |sentinels| == 0 ==> ready == [] && Without(sentinels, ready) == sentinels
  {
    assert ready != [] ==> ready[0] in sentinels.Keys;
  }

  /** The sentinel map is empty exactly if everybody was joined. */
  lemma NothingLeft(handles: seq<Sentinel>, codes: seq<Option<int>>, sentinels: map<Sentinel, nat>)
    requires Tracks(handles, codes, sentinels)
    ensures |sentinels| == 0 <==> AllJoined(codes)
  {
    if AllJoined(codes) {
      assert forall s :: s !in sentinels;
      assert sentinels == map[];
    } else {
      var i :| 0 <= i < |codes| && codes[i].None?;
      assert handles[i] in sentinels;
    }
  }

  /** Whoever was joined is one that exits with 0. */
  ghost predicate Succeeded(codes: seq<Option<int>>, fates: seq<Fate>)
    requires |codes| == |fates|
  {
    forall i :: 0 <= i < |codes| && codes[i].Some? ==> fates[i].exitCode == 0
  }

  ghost predicate SomeoneFails(fates: seq<Fate>)
  {
    exists i :: 0 <= i < |fates| && fates[i].exitCode != 0
  }

  /** One clean round: still only successes, and less to wait for unless everybody was joined. */
  lemma CleanRound(handles: seq<Sentinel>, before: seq<Option<int>>, after: seq<Option<int>>,
                   sentinels: map<Sentinel, nat>, ready: seq<Sentinel>, fates: seq<Fate>)
    requires |fates| == |handles| && Tracks(handles, before, sentinels) && Ready(ready, sentinels.Keys)
    requires Tracks(handles, after, Without(sentinels, ready)) && Reaped(before, after, fates)
    requires Succeeded(before, fates) && (sentinels.Keys != {} ==> ready != [])
    ensures Succeeded(after, fates)
    ensures |Without(sentinels, ready)| < |sentinels| || AllJoined(after)
  {
    if ready != [] {
      PopShrinks(sentinels, ready);
    } else {
      assert sentinels == map[];
      NothingLeft(handles, before, sentinels);
    }
  }

  lemma BlameIsDeserved(failure: Failure, fates: seq<Fate>, sentinels: map<Sentinel, nat>, ready: seq<Sentinel>, k: nat)
    requires Blames(failure, fates, sentinels, ready, k)
    ensures SomeoneFails(fates) && failure.index < |fates| && fates[failure.index].exitCode != 0
  {
  }

  ghost predicate Waits(wait: set<Sentinel> -> seq<Sentinel>)
  {
    forall s: set<Sentinel> :: Ready(wait(s), s) && (s != {} ==> wait(s) != [])
  }

  class ProcessContext {
    const handles: seq<Sentinel>            // the sentinel of each process
    var exitCodes: seq<Option<int>>         // of the processes that were joined
    var sentinels: map<Sentinel, nat>

    /** What holds up to the first raise. */
    ghost predicate Valid()
      reads this
    {
      Tracks(handles, exitCodes, sentinels)
    }

    constructor (handles: seq<Sentinel>)
      requires C.Distinct(handles)
      ensures Valid() && this.handles == handles && forall i :: 0 <= i < |handles| ==> exitCodes[i].None?
    {
      this.handles := handles;
      exitCodes := seq(|handles|, _ => None);
      new;
      sentinels := map[];
      for index := 0 to |handles|
        invariant exitCodes == seq(|handles|, _ => None)
        invariant forall i :: 0 <= i < |handles| ==> (i < index <==> handles[i] in sentinels)
        invariant forall s :: s in sentinels ==> sentinels[s] < |handles| && handles[sentinels[s]] == s
      {
        sentinels := sentinels[handles[index] := index];
      }
    }

    /** The loop over the ready sentinels, up to the first process that failed. */
    method JoinReady(ready: seq<Sentinel>, fates: seq<Fate>) returns (errorIndex: Option<nat>, ghost k: nat)
      requires Valid() && Ready(ready, sentinels.Keys) && |fates| == |handles|
      modifies this
      ensures |exitCodes| == |handles| && Reaped(old(exitCodes), exitCodes, fates)
      ensures k <= |ready| && Clean(fates, old(sentinels), ready, k)
      ensures errorIndex.None? ==> k == |ready| && Valid() && sentinels == Without(old(sentinels), ready)
      ensures errorIndex.Some? ==> k < |ready| && sentinels == Without(old(sentinels), ready[..k + 1])
      ensures errorIndex.Some? ==> errorIndex.value == old(sentinels)[ready[k]] < |handles|
      ensures errorIndex.Some? ==> fates[errorIndex.value].exitCode != 0
      ensures errorIndex.Some? ==> exitCodes[errorIndex.value] == Some(fates[errorIndex.value].exitCode)
    {
      errorIndex := None;
      var i := 0;
      while i < |ready|
        invariant 0 <= i <= |ready| && errorIndex.None?
        invariant Tracks(handles, exitCodes, sentinels) && Reaped(old(exitCodes), exitCodes, fates)
        invariant sentinels == Without(old(sentinels), ready[..i]) && Clean(fates, old(sentinels), ready, i)
      {
        PopNext(old(sentinels), ready, i);
        var index := sentinels[ready[i]];
        JoinReaps(handles, old(exitCodes), exitCodes, sentinels, fates, ready[i]);
        ghost var before, codes := sentinels, exitCodes;
        sentinels := sentinels - {ready[i]};
        exitCodes := exitCodes[index := Some(fates[index].exitCode)];
        if fates[index].exitCode != 0 {
          return Some(index), i;
        }
        PopKeepsTrack(handles, codes, before, ready[i]);
        i := i + 1;
      }
      assert ready[..i] == ready;
      k := i;
    }

    /** Terminate what is still alive, and join everybody. */
    method TerminateRest(fates: seq<Fate>)
      requires |fates| == |exitCodes|
      modifies this`exitCodes
      ensures |exitCodes| == |fates| && AllJoined(exitCodes)
      ensures forall i :: 0 <= i < |fates| ==>
                exitCodes[i] == if old(exitCodes)[i].Some? then old(exitCodes)[i]
                                else Some(if fates[i].alive then fates[i].killedCode else fates[i].exitCode)
    {
      for i := 0 to |fates|
        invariant |exitCodes| == |fates|
        invariant forall j :: 0 <= j < i ==>
                    exitCodes[j] == if old(exitCodes)[j].Some? then old(exitCodes)[j] else Some(FinalCode(fates[j]))
        invariant forall j :: i <= j < |fates| ==> exitCodes[j] == old(exitCodes)[j]
      {
        if exitCodes[i].None? {
          exitCodes := exitCodes[i := Some(FinalCode(fates[i]))];
        }
      }
    }

    /** True exactly if all processes have been joined with exit code 0; an exception names the
        first ready process that did not exit with 0, and leaves every process joined. */
    method Join(ready: seq<Sentinel>, fates: seq<Fate>) returns (r: Result<bool, Failure>)
      requires Valid() && Ready(ready, sentinels.Keys) && |fates| == |handles|
      modifies this
      ensures |exitCodes| == |handles|
      ensures r.Ok? ==> Valid() && (r.value <==> AllJoined(exitCodes))
      ensures r.Ok? ==> sentinels == Without(old(sentinels), ready) && Reaped(old(exitCodes), exitCodes, fates)
      ensures r.Ok? <==> Clean(fates, old(sentinels), ready, |ready|)
      ensures r.Raise? ==> AllJoined(exitCodes) && exists k: nat :: Blames(r.error, fates, old(sentinels), ready, k)
      ensures r.Raise? ==> Terminated(old(exitCodes), exitCodes, fates)
      ensures r.Raise? ==> Tells(r.error, fates)
      ensures r.Raise? ==> r.error.index < |fates| && exitCodes[r.error.index] == Some(fates[r.error.index].exitCode)
    {
      NothingLeft(handles, exitCodes, sentinels);
      if |sentinels| == 0 {
        NobodyReady(ready, sentinels);
        return Ok(true);
      }
      var errorIndex, k := JoinReady(ready, fates);
      if errorIndex.None? {
        NothingLeft(handles, exitCodes, sentinels);
        return Ok(|sentinels| == 0);
      }
      TerminateRest(fates);
      var index := errorIndex.value;
      r := Raise(FailureOf(index, fates[index].exitCode, fates[index].trace));
      assert Blames(r.error, fates, old(sentinels), ready, k);
    }

    /** The loop of `start_processes`: it ends because each round joins somebody, with everybody
        joined; it returns normally exactly if everybody exits with 0 by itself, and an exception
        names somebody who does not. */
    method JoinAll(wait: set<Sentinel> -> seq<Sentinel>, fates: seq<Fate>) returns (r: Result<bool, Failure>)
      requires Valid() && |fates| == |handles| && forall i :: 0 <= i < |handles| ==> exitCodes[i].None?
      requires Waits(wait)
      modifies this
      ensures AllJoined(exitCodes) && r != Ok(false)
      ensures r.Ok? <==> !SomeoneFails(fates)
      ensures r.Raise? ==> r.error.index < |fates| && fates[r.error.index].exitCode != 0 && Tells(r.error, fates)
    {
      r := Ok(false);
      while r == Ok(false)
        invariant |exitCodes| == |handles|
        invariant r.Ok? ==> Valid() && (r.value ==> AllJoined(exitCodes)) && Succeeded(exitCodes, fates)
        invariant r.Raise? ==> AllJoined(exitCodes) && SomeoneFails(fates)
        invariant r.Raise? ==> r.error.index < |fates| && fates[r.error.index].exitCode != 0 && Tells(r.error, fates)
        decreases r == Ok(false), |sentinels|
      {
        ghost var before, codes := sentinels, exitCodes;
        var ready := wait(sentinels.Keys);
        r := Join(ready, fates);
        if r.Ok? {
          CleanRound(handles, codes, exitCodes, before, ready, fates);
        } else {
          ghost var k: nat :| Blames(r.error, fates, before, ready, k);
          BlameIsDeserved(r.error, fates, before, ready, k);
        }
      }
    }
  }
}
