# Verified model of TorchElastic's coordination code

TorchElastic runs one agent per node. The agents find each other through a rendezvous that is
nothing but a sequence of small etcd calls, exchange role information through a key-value store,
hand ranks to their workers, and restart them when something fails. This project models that code
in Dafny and proves what it is for.

## The rendezvous

The whole rendezvous goes through one compare-and-swap key, `/rdzv/active_version`. The model has
four layers.

* `RendezvousProtocol.dfy` is the step system: one server (the key with its TTL, the version
  counter, the version directories, the lease keys, the per-version stores) and any number of
  workers. A worker is a program counter with the locals it still needs, above all the snapshot
  that its next compare-and-swap compares with, which may be arbitrarily old. An action is one
  etcd call of one worker, the expiry of the key, the lapse of a lease, an exception that the
  barrier loop catches, or the departure of a worker (a timeout, an escaping exception, a crash).
  A run is an arbitrary sequence of actions.
* `RendezvousLedger.dfy` is what the protocol means: an atomic machine with events such as `Join`,
  `Seal`, `Confirm` and `Dissolve` whose guards speak about the history (who joined which version,
  who confirmed it, whose lease was lost), with no snapshots, lists or comparisons.
* `RendezvousRefinement.dfy` proves that every action of the step system is a stutter or exactly
  one allowed event. A swap that succeeds only because two documents happen to be equal still
  meets the guard of its event.
* `RendezvousGuarantees.dfy` derives what the package documentation promises (barrier,
  exclusivity, consistency, fault tolerance), for every configuration, number of workers, run and
  time.

Three files are about what can be achieved. `RendezvousFeasibility.dfy` shows that the rendezvous is
never stuck: after any run that was not closed, any number of workers between min and max can
complete a new version. `RendezvousRecovery.dfy` says what one worker achieves by its own calls: from
a version that is gone it gets back to the head of the barrier's loop, and it replaces a version
whose member is lost. `RendezvousVersions.dfy` settles when version numbers,
which are drawn from a counter and never become active twice, become active in increasing order:
always with a single worker and as long as no setup key expires, and otherwise not always.

`RendezvousBarrier.dfy` is the same code in its imperative form: class `EtcdRendezvous` with its
retry loops, early exits and exceptions, running against class `Cluster` (`RendezvousCluster.dfy`),
in which everybody else keeps moving between any two calls. The primitives of `Cluster` accept only
the arguments that the step system prescribes at the worker's program counter, and `Cluster.Valid`
says that the cluster is in the state reached by its recorded trace. So a verified method is a run
of the step system, a wrong value, TTL or order of calls does not verify, and the guarantees apply
to the code's own results. Besides, the contracts say exactly what comes out if nobody else moves
during the call (`Undisturbed`).

`EndToEnd.dfy` joins this with rank assignment (`RoleRanks.dfy`): agents that finish rank
assignment under one version hand out disjoint ranks of one and the same world, at whatever times
they do so.

## The other components

* `StoreUpdates.dfy`: `EtcdStore.add` and `store_extra_data` are linearizable although values may
  recur.
* `ElasticSampler.dfy`: padding and striding cover the rest of a dataset.
* `TimerServer.dfy`: the timer map agrees with the log of requests and reaps.
* `ElasticAgent.dfy`: the restart loop for every stream of observations.
* `LocalScheduler.dfy`: app ids, the bounded cache, and the session that guards it.
* `ProcessContext.dfy`: joining spawned processes.
* `Counting.dfy`, `Outcomes.dfy`: distinct elements and pigeonholes; options and results.

## Assumptions

* An etcd call is atomic and has a definite outcome. A swap that the server applies but reports as
  failed is excluded: a second append at `torchelastic/rendezvous/etcd_rendezvous.py:606` would
  defeat the length test below it.
* `client.update` of the version counter succeeds exactly if the counter is still the one that was
  read. The counter only grows, so comparing its value is the same as comparing its index.
* All workers of a run share `1 <= min <= max`, which `create_rdzv_handler` asserts.
* The run's root directory and counter do not expire. The renewal of a lease refreshes an existing
  key and never recreates a lost one, so it is not an action of its own. A lease may lapse at any
  time, and so may every key that carries a TTL.
* Deadlines are nondeterministic: the last-call deadline may or may not have passed at any step,
  and a worker may leave a call at any time. In the imperative form the others have finitely many
  actions left and the clock has finitely many ticks; both numbers are arbitrary. A watch and a
  retry of the barrier's loop take one tick each, other calls none.
* JSON documents are values, compared as a whole. Store keys are encoded injectively and are
  distinct.
* `sorted` is a stable sort; `torch.randperm` is an arbitrary permutation; the ceiling in the
  sampler is exact.

## Where the code and its documentation differ

* `torchelastic/timer/api.py:85-88` promises that a get of the queue's size with timeout 0 returns
  that many requests. With two or more it returns one (`ZeroTimeoutReturnsOne`); it returns all
  exactly if all but the last get end before the time is up (`FullGetCondition`). The promise
  about twice the size with timeout 1 holds under the same condition (`DoubleGetCondition`).
* The padded list has the asserted length exactly if there are at most twice as many replicas as
  remaining indices (`Iter`, `PaddedLength`); otherwise iterating raises.
* A failed agent run never records a flakiness: the branch tests whether a boolean is an exception
  (`torchelastic/agent/server/api.py:716-721`).
* The cache's victim is meant to be the least recently updated terminal app. The search never
  updates its bound, so it picks the terminal app that was inserted last, which is the most
  recent one if apps finish in order (`EvictionIsLruIff`, `VictimIsLruIff`, `EvictsNewest`).
* `StandaloneSession.stop` guards finished apps, but `cancel` looks the app up once more, and that
  lookup can store a fresh SUCCEEDED or FAILED, which CANCELLED then replaces. This happens exactly
  if the app was running at the first poll and not at the second (`StopOverwrites`). A terminal
  state that was reported never changes.

## Model

| member | source | states |
|---|---|---|
| RendezvousState.TestAndSet | torchelastic/rendezvous/etcd_rendezvous.py:536-545 | compare by value: a swap happens exactly if the key exists with the expected value, the key is not found exactly if it is missing, and otherwise nothing changes |
| RendezvousLedger.JoinKeepsInv | torchelastic/rendezvous/etcd_rendezvous.py:506-557 | a join keeps the invariant: joinable versions have room, and nobody who joins twice completes the version |
| RendezvousLedger.ConfirmKeepsInv | torchelastic/rendezvous/etcd_rendezvous.py:581-630 | a confirmation keeps the invariant: a version completes only with all members confirmed and at least min of them |
| RendezvousLedger.PerformKeepsInv | torchelastic/rendezvous/etcd_rendezvous.py:323-848 | every atomic event keeps the invariant |
| RendezvousLedger.PerformExtends | torchelastic/rendezvous/etcd_rendezvous.py:323-848 | history only grows, and a completed membership never changes |
| RendezvousLedger.AbandonedForever | torchelastic/rendezvous/etcd_rendezvous.py:559-630 | a membership left before confirmation is never confirmed |
| RendezvousLedger.SettledForever | torchelastic/rendezvous/etcd_rendezvous.py:517-526 | a version that stopped being joinable never admits anyone again |
| RendezvousLedger.OnlyOpenActivates | torchelastic/rendezvous/etcd_rendezvous.py:494-504 | a version becomes active only by being published, and for the first time |
| RendezvousLedger.CompleteHoldsOn | torchelastic/rendezvous/etcd_rendezvous.py:704-721 | a completed version gives way only to a close or after a member lost its lease |
| RendezvousRefinement.PcStable | torchelastic/rendezvous/etcd_rendezvous.py:323-848 | what a worker knows from a stale snapshot survives every event of the others |
| RendezvousRefinement.FillsWhenLast | torchelastic/rendezvous/etcd_rendezvous.py:606-613 | the keep-alive list reaches the number of participants exactly when the confirming member is the last one |
| RendezvousRefinement.PublishSimulates | torchelastic/rendezvous/etcd_rendezvous.py:494-504 | a publication that lands, even on another creator's "setup", opens a version never opened before |
| RendezvousRefinement.JoinSimulates | torchelastic/rendezvous/etcd_rendezvous.py:531-554 | a join that succeeds by value equality is allowed by the atomic machine and gives the next rank |
| RendezvousRefinement.LastCallSimulates | torchelastic/rendezvous/etcd_rendezvous.py:781-819 | the last call freezes a joinable version with at least min members, or only refreshes its TTL |
| RendezvousRefinement.ConfirmSimulates | torchelastic/rendezvous/etcd_rendezvous.py:601-627 | a confirmation that succeeds by value equality is that of an unconfirmed member, and final is written exactly for the last one |
| RendezvousRefinement.AnnounceSimulates | torchelastic/rendezvous/etcd_rendezvous.py:654-679 | announcing only counts up the waiting workers of a final version |
| RendezvousRefinement.EnterSimulates | torchelastic/rendezvous/etcd_rendezvous.py:704-725 | a creation needs a missing key, and a compare-and-delete that succeeds destroys a final version one of whose confirmed members lost its lease |
| RendezvousRefinement.CloseSimulates | torchelastic/rendezvous/etcd_rendezvous.py:824-848 | a close that succeeds closes an open key |
| RendezvousRefinement.ApplySimulates | torchelastic/rendezvous/etcd_rendezvous.py:265-848 | every action is a stutter or exactly one allowed atomic event |
| RendezvousRefinement.RunRefines | torchelastic/rendezvous/etcd_rendezvous.py:265-848 | every run of the step system is a run of the atomic machine with stutters |
| RendezvousGuarantees.Agreement | torchelastic/rendezvous/etcd_rendezvous.py:365-428 | all workers that ever return one version agree on a size between min and max and hold different ranks below it |
| RendezvousGuarantees.ReturnedOnce | torchelastic/rendezvous/etcd_rendezvous.py:406-428 | no worker is handed the same version twice |
| RendezvousGuarantees.NoMemberLeftBehind | torchelastic/rendezvous/etcd_rendezvous.py:581-630 | a final version lists every rank's keep-alive exactly once, and no joined worker is still unconfirmed |
| RendezvousGuarantees.DepartedNeverFinal | torchelastic/rendezvous/etcd_rendezvous.py:559-630 | a version that a participant left before confirming never becomes final |
| RendezvousGuarantees.VersionActivatedOnce | torchelastic/rendezvous/etcd_rendezvous.py:451-504 | each version becomes the active one at most once in a run |
| RendezvousGuarantees.DirectoryIsNew | torchelastic/rendezvous/etcd_rendezvous.py:484-489 | the directory of a drawn version number never exists yet |
| RendezvousVersions.VersionsIncrease | torchelastic/rendezvous/etcd_rendezvous.py:451-504 | with a single worker, or as long as no setup key has expired, versions become active in increasing order |
| RendezvousVersions.DisorderNeedsExpiry | torchelastic/rendezvous/etcd_rendezvous.py:463-468 | a run in which a later version is active before an earlier one has two workers and an expired setup key |
| RendezvousVersions.DisorderIff | torchelastic/rendezvous/etcd_rendezvous.py:463-504 | for every configuration there is such a run exactly if there are at least two workers |
| RendezvousFeasibility.Recoverable | torchelastic/rendezvous/etcd_rendezvous.py:265-428 | after any run that was not closed, whatever crashed, expired or was left half done, any number of workers between min and max can complete a new version |
| RendezvousRecovery.AbandonedIsReplaced | torchelastic/rendezvous/etcd_rendezvous.py:430-449 | after any run that left a final version with a member's lease gone, one worker by itself raises the waiting count by one, then destroys the version, and then publishes a new one |
| RendezvousRecovery.StaleReenters | torchelastic/rendezvous/etcd_rendezvous.py:506-649 | a worker whose version is not the active one any more, in whatever phase, is back at the head of the barrier's loop after at most three calls of its own |
| RendezvousRecovery.MissingIsCreated | torchelastic/rendezvous/etcd_rendezvous.py:451-504 | a worker that finds no key makes the next version number joinable with five calls |
| RendezvousRecovery.JoinableIsJoined | torchelastic/rendezvous/etcd_rendezvous.py:506-557 | a worker that finds a joinable version appends the next rank, freezing it if it is full |
| RendezvousRecovery.FinalIsAnnounced | torchelastic/rendezvous/etcd_rendezvous.py:654-679 | a worker that finds a final version raises its waiting count by one and changes nothing else |
| RendezvousRecovery.LiveIsWatched | torchelastic/rendezvous/etcd_rendezvous.py:694-747 | while the leases of all members live, a round of watching changes nothing |
| RendezvousRecovery.AbandonedIsDestroyed | torchelastic/rendezvous/etcd_rendezvous.py:704-725 | once a member has lost its lease, a round of watching destroys the version |
| RendezvousRecovery.ClosedIsReported | torchelastic/rendezvous/etcd_rendezvous.py:352-353 | a worker that finds the key closed ends its call at once |
| RendezvousRecovery.TransitionIsLeftAlone | torchelastic/rendezvous/etcd_rendezvous.py:362-363 | a worker that finds a setup or a frozen version changes nothing and retries |
| RendezvousGuarantees.Exclusivity | torchelastic/rendezvous/etcd_rendezvous.py:681-749 | a final version stays final with the same members until a close, as long as all its members' leases are alive |
| RendezvousGuarantees.LostLeaseStaysLost | torchelastic/rendezvous/etcd_rendezvous.py:888-912 | the lost lease of a confirmed member never reappears |
| RendezvousGuarantees.MembershipShape | torchelastic/rendezvous/etcd_rendezvous.py:527-539 | participants are 0, 1, ..., a joinable version has room (the assertion never fires), a frozen or final one has between min and max members |
| RendezvousGuarantees.Ephemerality | torchelastic/rendezvous/etcd_rendezvous.py:534-552 | the key carries a TTL exactly in the states that wait for one particular worker |
| RendezvousGuarantees.MembershipSettles | torchelastic/rendezvous/etcd_rendezvous.py:517-543 | the members of a version only grow, not at all once it is frozen, and final is not undone |
| RendezvousGuarantees.ChangeWorks | torchelastic/rendezvous/etcd_rendezvous.py:506-630 | every change of a version's document on the way to final lowers the measure |
| RendezvousGuarantees.BoundedWrites | torchelastic/rendezvous/etcd_rendezvous.py:506-630 | while a version is active its document changes at most 2 * max times before it is final |
| RendezvousGuarantees.ClosedWorkerStep | torchelastic/rendezvous/etcd_rendezvous.py:323-363 | no swap and no delete succeeds on a closed key, whatever the snapshot |
| RendezvousGuarantees.ClosedIsAbsorbing | torchelastic/rendezvous/etcd_rendezvous.py:824-848 | after a close the key never changes, nobody joins, and no barrier returns |
| RendezvousCluster.Cluster.Get | torchelastic/rendezvous/etcd_rendezvous.py:850-852 | reads the key after any moves of the others, and moves the worker as the step system does |
| RendezvousCluster.Cluster.TestAndSet | torchelastic/rendezvous/etcd_rendezvous.py:536-557 | a swap with exactly the prescribed expected value, new value and TTL; if nobody else moves it succeeds exactly if the key has the expected value |
| RendezvousCluster.Cluster.AnyLeaseMissing | torchelastic/rendezvous/etcd_rendezvous.py:699-705 | true exactly if some listed keep-alive is not among the live lease keys |
| RendezvousBarrier.EtcdRendezvous.TryCreateRendezvous | torchelastic/rendezvous/etcd_rendezvous.py:451-504 | ends ready to join the version it published, still without members, or finding an existing key; raises only if somebody else moved; if nobody does, a missing key always yields the next version number |
| RendezvousBarrier.EtcdRendezvous.TryWaitForStateChange | torchelastic/rendezvous/etcd_rendezvous.py:854-870 | either something else happened or time passed, or the timeout is raised because the time is up |
| RendezvousBarrier.EtcdRendezvous.JoinRendezvous | torchelastic/rendezvous/etcd_rendezvous.py:506-557 | the retry loop ends: with its rank, the key then listing exactly one member more than that rank; or with the retryable failure exactly for a key that is not joinable, the immediate retry exactly for another joinable version; the assertion never fires |
| RendezvousBarrier.EtcdRendezvous.HandleJoinLastCall | torchelastic/rendezvous/etcd_rendezvous.py:751-822 | the version is frozen only once the deadline is reached, unless somebody else moved; if nobody does, a joinable version is frozen exactly at the deadline, and a timeout is raised exactly if the deadline lies beyond the clock |
| RendezvousBarrier.EtcdRendezvous.WaitForPeers | torchelastic/rendezvous/etcd_rendezvous.py:559-579 | the wait ends: with the expected version frozen; or a retryable failure exactly when it is neither joinable nor frozen; a timeout only when the time is up and the version was still joinable |
| RendezvousBarrier.EtcdRendezvous.ConfirmMembership | torchelastic/rendezvous/etcd_rendezvous.py:581-630 | the retry loop ends: with the own keep-alive in the document and its lease, confirmed in this call, renewed from then on; or an immediate retry exactly when the version is not frozen, and no lease is taken over |
| RendezvousBarrier.EtcdRendezvous.WaitForFinal | torchelastic/rendezvous/etcd_rendezvous.py:632-652 | the wait ends: with the expected version final and its number of participants; or a retryable failure exactly when it is neither frozen nor final; a timeout only when the time is up and the version was still frozen |
| RendezvousBarrier.EtcdRendezvous.ConfirmPhase | torchelastic/rendezvous/etcd_rendezvous.py:406-428 | returns the version, the own rank and the number of participants that the final document lists; if nobody else moves, exactly if this was the last confirmation missing |
| RendezvousBarrier.EtcdRendezvous.JoinPhase | torchelastic/rendezvous/etcd_rendezvous.py:365-404 | joins, waits out the last call if that is its duty, waits for the freeze and confirms, always in one version, which is final in the end; if nobody else moves, returns exactly if it can be a version of one |
| RendezvousBarrier.EtcdRendezvous.AnnounceSelfWaiting | torchelastic/rendezvous/etcd_rendezvous.py:654-679 | the retry loop ends: with the waiting count of the version raised by one, by this worker's own action; or an immediate retry exactly when the version is not final |
| RendezvousBarrier.EtcdRendezvous.WaitForRendezvousToFree | torchelastic/rendezvous/etcd_rendezvous.py:681-749 | ends when the version is no longer final; if nobody else moves, a version with a lost lease is destroyed and nothing else changed, and one that is alive is waited for until the time is up |
| RendezvousBarrier.EtcdRendezvous.HandleExistingRendezvous | torchelastic/rendezvous/etcd_rendezvous.py:430-449 | announces this worker, waits for the existing version to go away and never returns a membership |
| RendezvousBarrier.EtcdRendezvous.ObserveExisting | torchelastic/rendezvous/etcd_rendezvous.py:346-363 | acts on what the key says; an immediate retry means that this worker announced itself, or that somebody else moved; if nobody does, the outcome is the one of its status, exactly |
| RendezvousBarrier.EtcdRendezvous.InitPhase | torchelastic/rendezvous/etcd_rendezvous.py:323-363 | one attempt: a membership of a version that was joinable at some moment of the call and is final at its end, or an exception; if nobody else moves, the outcome is determined by what the key was, exactly |
| RendezvousBarrier.EtcdRendezvous.RendezvousBarrier | torchelastic/rendezvous/etcd_rendezvous.py:265-321 | the barrier ends: with a membership of a final version with as many members, between min and max, as it returns; or with closed only if the key is closed, with a timeout only when the time is up, with the non-retryable error only if somebody else moved; no lease from before the call is renewed afterwards; if nobody else moves, the outcome is determined by what the key was, exactly |
| RendezvousBarrier.EtcdRendezvous.SetClosed | torchelastic/rendezvous/etcd_rendezvous.py:824-848 | the loop ends with the key closed, or with no key at all; if nobody else moves, exactly as there was a key |
| RendezvousBarrier.EtcdRendezvous.ShareAndGather | torchelastic/agent/server/api.py:621-636 | puts the own role info, then collects everybody's in rank order from the version's own store |
| RendezvousBarrier.EtcdRendezvous.StoreGet | torchelastic/rendezvous/etcd_rendezvous.py:1010-1030 | the blocking get ends with the value of the key, or with the lookup error once the time is up; if nobody else moves, exactly as the value is there |
| RendezvousBarrier.EtcdRendezvous.AssignWorkerRanks | torchelastic/agent/server/api.py:510-526 | after the barrier every local worker gets its own local rank, its ranks in the agent's blocks, and the totals |
| EndToEnd.GatheredInfos | torchelastic/utils/store.py:14-58 | what an agent gathers is one info per member, from the members' own specs, in rank order |
| EndToEnd.SameInfos | torchelastic/rendezvous/etcd_rendezvous.py:972-975 | members of one version gather the same infos, whenever they do it |
| EndToEnd.AllGatherSame | torchelastic/utils/store.py:14-58 | all members that have finished gathered the same infos, those of their own specs |
| EndToEnd.DisjointRanks | torchelastic/agent/server/api.py:571-636 | two agents of one version report the same world size and give different global ranks to all their workers, and different role ranks within a role |
| EndToEnd.SameAgentRanks | torchelastic/agent/server/api.py:609-619 | two workers of one agent differ in local, global and role rank, all by as much, and are told the same totals |
| EndToEnd.TotalsAreSums | torchelastic/agent/server/api.py:571-619 | the totals that an agent tells its workers are the sums over all members of the version, and over those of its role |
| EndToEnd.RanksTileWorld | torchelastic/agent/server/api.py:510-526 | when all members have finished, each with what it gathered itself, their workers hold every rank below the world size exactly once, and within every role every role rank exactly once |
| EndToEnd.AllCanFinish | torchelastic/agent/server/api.py:510-526 | after any run that was not closed, and for every number of members between min and max, there is a continuation in which so many finish under a new version |
| RoleRanks.BlocksTile | torchelastic/agent/server/api.py:550-568 | the agents' blocks tile [0, world size), overall and per role |
| RoleRanks.OrdersAgree | torchelastic/agent/server/api.py:571-619 | within a role, role ranks are ordered as global ranks are |
| RoleRanks.CompareTransitive | torchelastic/agent/server/api.py:276-284 | the comparator is transitive |
| RoleRanks.CompareTotal | torchelastic/agent/server/api.py:276-284 | the comparator is total, and 0 exactly for the same role and rank |
| RoleRanks.SortedIsSorted | torchelastic/agent/server/api.py:595-597 | sorting yields an ordered permutation |
| RoleRanks.OfRoleSorted | torchelastic/agent/server/api.py:595-597 | sorting keeps the agents of each role in rank order |
| RoleRanks.BoundariesEncloseRole | torchelastic/agent/server/api.py:286-293 | in the sorted list the boundaries enclose exactly the agents of the role |
| RoleRanks.RoleSums | torchelastic/agent/server/api.py:598-609 | prefix sum and total over the sorted slice are those over the same role's agents in rank order |
| RoleRanks.FindRoleBoundaries | torchelastic/agent/server/api.py:286-293 | the first and the last position of a role, or -1 and -1 if there is none |
| RoleRanks.GetRanks | torchelastic/agent/server/api.py:550-568 | the total over a slice, and consecutive ranks from the sum before the own position |
| RoleRanks.FindPosition | torchelastic/agent/server/api.py:601-605 | the first position of an info that compares equal to the own one |
| RoleRanks.AssignWorkerRanks | torchelastic/agent/server/api.py:571-619 | local worker k gets local rank k, the k-th rank of the agent's block among all workers and among those of its role, and the totals |
| StoreUpdates.Linearizable | torchelastic/rendezvous/etcd_rendezvous.py:1032-1067 | any interleaving of read-edit-swap updates is equivalent to its log, performed one at a time |
| StoreUpdates.OneEntryPerCall | torchelastic/rendezvous/etcd_rendezvous.py:1032-1067 | a call adds exactly one entry, with its argument and result, between its start and its return, and none before it returns |
| StoreUpdates.NoCallNoEntry | torchelastic/rendezvous/etcd_rendezvous.py:1032-1067 | a client that is in no call adds no entry |
| StoreUpdates.AddLinearizable | torchelastic/rendezvous/etcd_rendezvous.py:1032-1067 | every add returned a prefix sum in linearization order, and the key holds the total, for any integers |
| StoreUpdates.NoStoreLost | torchelastic/rendezvous/etcd_rendezvous.py:914-942 | the extra data holds, for every key, what the last completed store under it wrote |
| StoreUpdates.Add | torchelastic/rendezvous/etcd_rendezvous.py:1032-1067 | the loop ends, took effect during the call, and returns the sum up to and including itself |
| StoreUpdates.StoreExtraData | torchelastic/rendezvous/etcd_rendezvous.py:914-942 | the loop ends, took effect during the call, and loses no other store |
| ElasticSampler.ElasticDistributedSampler.Create | torchelastic/utils/data/elastic_distributed_sampler.py:36-49 | an error exactly if the start index is not inside the dataset |
| ElasticSampler.ElasticDistributedSampler.Iter | torchelastic/utils/data/elastic_distributed_sampler.py:51-69 | the assertions hold exactly if replicas <= 2 * remaining, and then the replica's stride has exactly the ceiling of remaining / replicas indices, all from the start index on |
| ElasticSampler.ElasticDistributedSampler.Covers | torchelastic/utils/data/elastic_distributed_sampler.py:36-69 | all replicas of a sampler yield an index exactly if it lies in the dataset from the start index on, and at most twice |
| ElasticSampler.PaddedLength | torchelastic/utils/data/elastic_distributed_sampler.py:61-63 | padding with the list's own start suffices exactly if replicas <= 2 * remaining |
| ElasticSampler.StrideLength | torchelastic/utils/data/elastic_distributed_sampler.py:65-67 | a stride takes one position per row |
| ElasticSampler.StrideAt | torchelastic/utils/data/elastic_distributed_sampler.py:65-67 | its element of row k is the one at the position rank + k * replicas |
| ElasticSampler.PositionsPartition | torchelastic/utils/data/elastic_distributed_sampler.py:65-67 | every position of the padded list is taken by exactly one replica |
| ElasticSampler.YieldsAll | torchelastic/utils/data/elastic_distributed_sampler.py:65-69 | the replicas together yield exactly the padded list |
| ElasticSampler.Coverage | torchelastic/utils/data/elastic_distributed_sampler.py:51-69 | the replicas together yield every remaining index once or twice and nothing else, with exactly total - remaining repeats |
| TimerServer.RegisterAllAgrees | torchelastic/timer/local_timer.py:90-100 | registration keeps the map in agreement with the log of requests and reaps |
| TimerServer.LastRequestDecides | torchelastic/timer/local_timer.py:90-100 | the last request for a worker and scope decides: a negative time leaves no timer, any other its own |
| TimerServer.BatchingIrrelevant | torchelastic/timer/local_timer.py:90-100 | how requests are split into batches makes no difference |
| TimerServer.ClearedAgrees | torchelastic/timer/local_timer.py:102-105 | clearing reaped workers keeps the agreement |
| TimerServer.FullGetCondition | torchelastic/timer/api.py:85-88 | the first promise: a get of the size returns all exactly if all but the last were fetched in time, whatever arrives meanwhile |
| TimerServer.DoubleGetCondition | torchelastic/timer/api.py:90-94 | the second promise: a get of twice the size returns between one and two times the size exactly if the first ones were fetched in time |
| TimerServer.ZeroTimeoutReturnsOne | torchelastic/timer/api.py:85-88 | with timeout 0 a get of two or more returns one |
| TimerServer.MultiprocessingRequestQueue.Get | torchelastic/timer/local_timer.py:56-72 | takes requests from the front, in order, then those that arrive, up to the size, an empty queue or the end of the waiting time |
| TimerServer.ReapAll | torchelastic/timer/api.py:165-178 | the reaped workers are exactly those that were killed, did not exist, or whose reaping raised an uncaught exception |
| TimerServer.LocalTimerServer.RegisterTimers | torchelastic/timer/local_timer.py:90-100 | the map becomes the one that agrees with the longer log |
| TimerServer.LocalTimerServer.ClearTimers | torchelastic/timer/local_timer.py:102-105 | exactly the timers of the given workers go away |
| TimerServer.LocalTimerServer.GetExpiredTimers | torchelastic/timer/local_timer.py:107-114 | exactly the workers with an expired timer, each with exactly its expired timers, each of them once |
| TimerServer.LocalTimerServer.RunWatchdog | torchelastic/timer/api.py:187-205 | takes max(1, queue size) requests unless the time is up; attempts exactly the workers with a timer in force, by the log, that is due; expired timers left over belong to failed reaps |
| ElasticAgent.SimpleElasticAgent.RestartWorkers | torchelastic/agent/server/api.py:669-678 | the old incarnation is stopped before the next is started; if the rendezvous raises there is no next one |
| ElasticAgent.SimpleElasticAgent.Round | torchelastic/agent/server/api.py:743-789 | one round: a failing state consumes one restart, one waiting node restarts a healthy group without consuming any, success ends the run |
| ElasticAgent.SimpleElasticAgent.RunFor | torchelastic/agent/server/api.py:731-789 | for every stream and any number of rounds: restarts stay in [0, max] and are consumed by failing observations only; the failure is raised exactly at failing observation max + 1; every incarnation is stopped before the next starts |
| ElasticAgent.SimpleElasticAgent.InvokeRun | torchelastic/agent/server/api.py:731-789 | for streams with finitely many healthy observations the run ends, at the first observation that can end it, with what RunFor says |
| ElasticAgent.SimpleElasticAgent.RecordFlakinessMetric | torchelastic/agent/server/api.py:716-729 | recorded exactly for a run that did not fail, in [0, 100), and 0 without restarts |
| AppIds.AppIdInjective | torchelastic/tsm/driver/local_scheduler.py:199-203 | an app id determines its name and number, whatever the name contains |
| AppIds.DecimalDenotes | torchelastic/tsm/driver/local_scheduler.py:197-199 | the digits of a number denote it |
| LocalScheduling.FreshId | torchelastic/tsm/driver/local_scheduler.py:197-203 | the next number of a name makes an id that was never given out |
| LocalScheduling.EvictionIsLruIff | torchelastic/tsm/driver/local_scheduler.py:157-188 | the victim is the least recently updated terminal app for all update times exactly if it is the only terminal app |
| LocalScheduling.VictimIsLruIff | torchelastic/tsm/driver/local_scheduler.py:166-171 | for a given cache the victim is the least recently updated one exactly if no terminal app inserted before it was updated earlier |
| LocalScheduling.EvictsNewest | torchelastic/tsm/driver/local_scheduler.py:166-171 | if apps finish in the order of their submission, the victim is the most recently updated terminal app |
| LocalScheduling.LocalScheduler.EvictLru | torchelastic/tsm/driver/local_scheduler.py:157-188 | evicts the terminal app inserted last, exactly if there is a terminal app |
| LocalScheduling.LocalScheduler.Submit | torchelastic/tsm/driver/local_scheduler.py:190-225 | the id is the name with its next number, never given out before (the assertion never fires); the app is inserted last; one app, terminal and inserted last, makes room exactly if the cache was full; each error occurs exactly in its case |
| LocalScheduling.DescribedMeans | torchelastic/tsm/driver/local_scheduler.py:227-263 | a finished app stays as it is, a live process means running, otherwise any nonzero exit code means failed, and else it succeeded |
| LocalScheduling.NonzeroIsFailed | torchelastic/tsm/driver/local_scheduler.py:227-231 | with all processes ended, one with any nonzero exit code makes the app a failed one |
| LocalScheduling.LocalScheduler.Describe | torchelastic/tsm/driver/local_scheduler.py:233-263 | reports and stores the state and the time, changing nothing else; a terminal app stays as it is |
| LocalScheduling.LocalScheduler.Cancel | torchelastic/tsm/driver/api.py:459-473 | an existing app is cancelled, and no other app changes |
| LocalScheduling.StandaloneSession.Run | torchelastic/tsm/driver/standalone_session.py:33-41 | an attached app and an incomplete one are refused, without touching the scheduler; otherwise the session gains exactly the submitted id |
| LocalScheduling.StandaloneSession.Status | torchelastic/tsm/driver/standalone_session.py:43-56 | a state once reported as terminal is reported again; an unknown app is an error; an evicted one is dropped |
| LocalScheduling.StandaloneSession.List | torchelastic/tsm/driver/standalone_session.py:69-75 | describes exactly the session's apps, keeps all reports and exactly the apps that the scheduler still has |
| LocalScheduling.StandaloneSession.Stop | torchelastic/tsm/driver/standalone_session.py:77-82 | keeps all reports and leaves the app in the terminal state that its first poll showed, or cancelled |
| LocalScheduling.StoppedMeans | torchelastic/tsm/driver/standalone_session.py:77-82 | stop leaves finished apps as they are and cancels those that the first poll finds running |
| LocalScheduling.StandaloneSession.Attach | torchelastic/tsm/driver/standalone_session.py:84-89 | the session gains exactly the given id, for an app that cannot be run again |
| LocalScheduling.StopOverwrites | torchelastic/tsm/driver/standalone_session.py:77-82 | a freshly stored terminal state is overwritten exactly if the app was running at the first poll and not at the second |
| LocalScheduling.StopOverwritesSuccess | torchelastic/tsm/driver/local_scheduler.py:275-279 | a process that exits with 0 between the two polls: SUCCEEDED is overwritten by CANCELLED |
| ProcessContexts.ProcessContext.constructor | torchelastic/multiprocessing/spawn.py:133-143 | the sentinel map holds exactly the processes, none of them joined |
| ProcessContexts.ProcessContext.JoinReady | torchelastic/multiprocessing/spawn.py:168-175 | pops and joins the ready processes up to the first one with a nonzero exit code, and no others |
| ProcessContexts.ProcessContext.TerminateRest | torchelastic/multiprocessing/spawn.py:182-186 | everybody is joined, and exit codes already known do not change |
| ProcessContexts.ProcessContext.Join | torchelastic/multiprocessing/spawn.py:148-208 | returns exactly if no ready process failed, true exactly if all have been joined with 0; a raise names the first ready one that failed, with its traceback, signal or exit code, and everybody joined |
| ProcessContexts.ProcessContext.JoinAll | torchelastic/multiprocessing/spawn.py:250-252 | the loop ends with everybody joined, normally exactly if everybody exits with 0, and otherwise names somebody who does not |

## Left out

- etcd itself, HTTP, threads and the real clock: see the assumptions.
- Delays and back-off between retries: they change no state.
- `EtcdStore.wait`, `check` and their timeouts, Base64, and `set` on a key that is also added to: `add` is proved without other writers of its key.
- `load_extra_data`, `num_nodes_waiting`, `is_closed`, `shutdown`: single reads or thin wrappers.
- `num_nodes_waiting` in the agent: part of the observation, as is the outcome of monitoring the workers.
- Which exception a rendezvous raises inside the agent's run: the model records that it raises, and that this ends the run. The exit barrier is a wait whose outcome is ignored.
- Termination against others that never stop: the loops of the imperative form end because a failed swap means that somebody else moved, and the others have finitely many moves left; the properties of runs need no such bound.
- `LocalScheduler.Cancel`: says what raw cancel does, which includes overwriting the terminal state of a finished app; only the session is shown to protect reported states.
- Processes and applications are values: the model records exit codes, polls and states, not operating system processes, log files or environment variables. A dictionary that is iterated (timers, session apps) is visited in an arbitrary order, except in the scheduler's eviction, where the order matters.
- `LocalScheduler.wait`, `StandaloneSession.wait`: loops around `describe` and `status`; the deadline of the former ignores its timeout.
- `ProcessContexts.ProcessContext.Join`: is about calls up to the first raise; a call after a raise may return true once the sentinel map is empty.
- `ElasticAgent.SimpleElasticAgent.InvokeRun`: is about runs that end, hence the finitely many healthy observations; a healthy group may run forever, and `RunFor` covers that. The `finally` clause of the run is modelled by `RecordFlakinessMetric` alone; the other metrics are plumbing.
- Floating-point rounding in the sampler's ceiling and in the flakiness.
- `CyclingIterator`, `RendezvousParameters`, launch arguments, metrics, events, error reporters, etcd server start-up, and the AWS, Azure and Kubernetes code: plumbing, or easy members.
