# Operating-system coursework, verified in Dafny

This project models three parts of the repository and proves what they are for:

* the **page-replacement simulator** (`Assignment_5/simulator.c`): OPT, FIFO, LRU and
  Second-Chance over one reference string and an array of frames;
* **scheduler components of the modified kernel** (`Assignment_4/cfs/core.c`,
  `Assignment_4/stats.h`): the affinity-change hand-off, the goto walk over task groups and the
  quota check on top of it, the pruned recomputation of effective clamps, the clamp buckets of a
  run queue, wake queues, the CPU-burst accounting that the repository added, and the remote tick;
* the **intersection controller** (`Assignment_6/program.c`): a controller thread and four
  direction threads.

Each loop or critical section of the source is a method (in a class where the source updates
fields) that is proved equal to a specification function or step relation; the theorems are about
runs of that specification.

## How it is laid out

| file | module contents |
|---|---|
| `Basics.dfy` | notions that several components share |
| `Schedules.dfy` | demand-paging schedules in general (`IsSchedule`, `Faults`, `Pages`), and why any conservative one is competitive |
| `Frames.dfy` | the scan and the replacement that the four methods share; a run is the list of frame arrays and victims |
| `Opt.dfy`, `Fifo.dfy`, `Lru.dfy`, `SecondChance.dfy` | one method each: its loop, its run relation, its theorems |
| `SecondChanceBound.dfy`, `SecondChanceWorst.dfy` | the competitive bound that Second-Chance meets, and strings that keep it from the one of FIFO and LRU |
| `Tightness.dfy`, `Anomalies.dfy` | why the bounds of FIFO and LRU are the best possible; when one more frame can cost faults |
| `Affinity.dfy` | callers, `migrate_enable` and stopper runs as agents sharing pending records |
| `AffinityMasks.dfy` | the same with the task's CPU, its masks and its migrate-disable count, which decide the branches |
| `TaskGroups.dfy`, `Quota.dfy` | `walk_tg_tree_from` against the recursive order; the bandwidth check as a visitor |
| `Uclamp.dfy`, `EffectiveClamps.dfy`, `ClampBuckets.dfy` | buckets; group clamps; the run-queue index |
| `ClampRefresh.dfy` | that index when clamps of runnable tasks are refreshed in place |
| `Preorders.dfy` | the pre-order numbering of any task-group tree, over which group clamps are recomputed |
| `WakeQueue.dfy` | intrusive wake queues against plain sequences |
| `Crossing.dfy` | the threads of the intersection and a whole run |
| `CpuBurst.dfy` | clock updates and context switches on any number of CPUs, against the list of stays and the time on the CPU |
| `RemoteTick.dfy` | the three-state word of the remote tick |

## Reading the model

* **Pages and frames.** A frame is free when it is negative, as in the source. The four `Simulate`
  methods take any integers; the theorems ask for page numbers that are not negative, and
  `Opt.OptimalExactly` says for which sets of pages OPT is optimal without asking. The 31-entry
  array is a sequence of any length, and the LRU start value 99, which stands for "later than any
  index", is the length of the string. At least one frame is required: with none the source writes before its array.
* **Schedules.** A schedule of `k` frames is a list of resident sets of at most `k` pages, starting
  empty, that loads nothing but the referenced page and may drop anything at any time.
* **Locks.** A section under the locks of a task and its run queue is one step; what the source does
  after dropping them (queue a stop work, complete a record, drop a reference, wait) is a step of
  its own, so all interleavings of these are covered.
* **Where the task is.** In `AffinityMasks` a wake-up that selects a CPU and the load balancer go by
  the task's pointer; a wake-up of a task that its CPU is still switching away from does not ask. A
  stopper run that finds the task on its own CPU finds it neither running nor leaving, because the
  stopper itself runs there, but possibly waking: pending wake-ups are flushed before the task is
  locked, and another may come in between. `migrate_enable` clears its count in the same step, as
  preemption is off throughout.
* **Task groups.** Groups are numbers with parent and children maps. `EffectiveClamps` lists them in
  pre-order, which is what the cgroup iterators promise (they are not part of this model);
  `Preorders.TreeHasPreorder` shows that every finite tree has such a list. The
  bandwidth shift is 20 bits, as the source's comment on 203 days assumes.
* **Clocks.** Clock values are below 2^63 nanoseconds, so signed differences are exact; charges
  are added modulo 2^64.
* **Condition variables.** A signal to a direction thread followed by the controller's wait is one
  hand-off that runs that thread until it signals back. The list of starts has any length and reads
  0 past its end.

## Where the code and its text differ

* `affine_move_task` says that `migrate_enable` should always find a pending record. It need not:
  a stopper run on another CPU tests `cpus_ptr`, which may be narrowed to the CPU that the task is
  on, where the mask excludes that CPU; and one on the task's CPU that meets it waking up off the mask
  settles the record without moving it. `AffinityMasks.WarnsExactlyWhenLetOff` says that the warning
  fires exactly after one of these; `AffinityMasks.EnableCanWarn` and
  `AffinityMasks.EnableCanWarnAfterNap` give a history of each kind on any two CPUs.
* The comments on `uclamp_rq_max_value` say that the run queue's clamp is that of the top bucket
  with tasks in it. For UCLAMP_MAX this fails from initialisation; `ClampBuckets.MaxExactFromInit`
  says exactly when it holds.
* The comments say that clamps held on an idle run queue are reset on leaving idle. A refresh of the
  UCLAMP_MAX of its only task flags the run queue idle and leaves the flag set, and the next enqueue then
  resets both values under a task that is still there: `ClampRefresh.ExactUnlessLowered` says exactly when
  this breaks the index, `ClampRefresh.LoweringHappens` that it does.
* README of the intersection program asks for a random choice among waiting vehicles; the code
  takes the first facing one, else the first in line, and so does the model.

One price of a choice in the code: Second-Chance loads a page with a clear reference bit, and so, with
two frames or more, lacks the property behind the bounds of FIFO and LRU
(`SecondChance.ConservativeForOneFrameOnly`) and does not meet those bounds either
(`SecondChanceWorst.MeetsBoundForOneFrameOnly`); it meets them with twice the constant
(`SecondChanceBound.SecondChanceCompetitive`). Against schedules over as many frames its factor lies
between k + 1 (`SecondChanceWorst.WorstCase`) and 2k, while k is the exact factor of FIFO and LRU
(`Tightness.BoundsAreTight`).

## Model

| member | source | states |
|---|---|---|
| `Frames.ScanFrames` | Assignment_5/simulator.c:58-71 | the scan loop reports the first hit, or fills the first free frame and reports it, or leaves the array alone |
| `Frames.ServePacked` | Assignment_5/simulator.c:58-71 | one reference keeps the frames distinct and filled from the left, finds a page exactly if it is resident, and moves the resident set as a schedule may |
| `Frames.RunIsSchedule` | Assignment_5/simulator.c:54-97 | every simulated method is a demand-paging schedule, whichever victims it picks |
| `Frames.CountedIsCost` | Assignment_5/simulator.c:65-95 | `page_fault` counts exactly the references to absent pages |
| `Schedules.AbsentPagesFault` | Assignment_5/simulator.c:58-71 | under any policy, each page of a stretch that is absent at its start costs a fault in it |
| `Schedules.AlwaysConservativeForOne` | Assignment_5/simulator.c:58-71 | any schedule at all references two distinct pages for two faults |
| `Schedules.PhaseCost` | Assignment_5/simulator.c:120-218 | between a fault of a conservative schedule over k frames and its k-th next fault, any schedule over h frames faults at least k-h+1 times |
| `Schedules.ConservativeIsCompetitive` | Assignment_5/simulator.c:120-218 | (k-h+1) times the faults of a conservative schedule are at most k times those of any schedule over h <= k frames, with no additive constant |
| `Schedules.NarrowIsCompetitive` | Assignment_5/simulator.c:171-297 | if a schedule over k frames faults at most c times for each page of a stretch of at most k pages, (k-h+1) times its faults are at most c*k times those of any schedule over h <= k frames |
| `Opt.FindVictim` | Assignment_5/simulator.c:74-92 | finds the first frame whose page is used again farthest in the future, never counting as farthest |
| `Opt.ServePage` | Assignment_5/simulator.c:55-97 | one reference is served, on a miss in the place of the farthest page |
| `Opt.Simulate` | Assignment_5/simulator.c:54-108 | the loop is a run of OPT, and its fault count is at most that of every schedule over the same frames |
| `Opt.ReplaceAt` | Assignment_5/simulator.c:73-95 | the exchange step: dropping the page needed last never lets another schedule get ahead within any horizon |
| `Opt.OptStaysAhead` | Assignment_5/simulator.c:54-95 | at every reference and for every horizon, what another schedule holds of the pages needed and OPT lacks has been paid for |
| `Opt.OptIsOptimal` | Assignment_5/simulator.c:54-108 | OPT faults no more often than any demand-paging schedule over as many frames |
| `Opt.OptBeatsEveryRun` | Assignment_5/simulator.c:54-304 | hence no more often than FIFO, LRU, Second-Chance or OPT itself over as many frames or fewer |
| `Opt.NegativePageSpoils` | Assignment_5/simulator.c:64-71 | for every negative page and any two ordinary ones OPT pays four faults on a string where three would do |
| `Opt.LowPageSpoils` | Assignment_5/simulator.c:58-71 | a page below -1 with any other page costs OPT three faults where two would do |
| `Opt.OptimalExactly` | Assignment_5/simulator.c:54-108 | OPT is optimal on all strings over a set of pages if and only if the set has neither a page below -1 beside another page nor page -1 beside two ordinary pages |
| `Fifo.ServePage` | Assignment_5/simulator.c:122-148 | one reference is served, on a miss at the hand, which moves on and wraps |
| `Fifo.Simulate` | Assignment_5/simulator.c:120-159 | the loop with its hand is a run of FIFO and faults as often as the textbook queue loads |
| `Fifo.HoldsStep` | Assignment_5/simulator.c:125-148 | the array read from the hand round to the hand stays equal to the last k loads |
| `Fifo.FifoIsTheQueue` | Assignment_5/simulator.c:120-159 | at every moment the resident pages are the last k loads and the faults are all loads |
| `Fifo.ConsecutiveLoadsDiffer` | Assignment_5/simulator.c:140-148 | any k+1 consecutive FIFO faults are on pairwise distinct pages |
| `Fifo.FifoConservative` | Assignment_5/simulator.c:120-159 | a stretch with at most k+1 FIFO faults references at least as many distinct pages |
| `Fifo.FifoCompetitive` | Assignment_5/simulator.c:120-159 | (k-h+1) * faults(FIFO, k) <= k * faults(A, h) for every schedule A over h <= k frames |
| `Lru.FindVictim` | Assignment_5/simulator.c:191-203 | finds the first frame whose last use lies longest ago |
| `Lru.ServePage` | Assignment_5/simulator.c:172-206 | one reference is served, on a miss in the place of the page used longest ago |
| `Lru.Simulate` | Assignment_5/simulator.c:171-218 | the loop is a run of LRU; it holds at every moment the k most recently used pages, and `page_fault` is the number of references outside them |
| `Lru.LruFollowsStack` | Assignment_5/simulator.c:171-218 | a whole LRU run holds and faults as the recency stack, defined from the references alone, says |
| `Lru.RecentAfterMiss` | Assignment_5/simulator.c:190-206 | on a miss, replacing the least recently used of k pages gives again the k most recently used |
| `Lru.LruStack` | Assignment_5/simulator.c:171-206 | after every reference LRU holds exactly the min(k, distinct) most recently used pages |
| `Lru.LruInclusion` | Assignment_5/simulator.c:171-206 | LRU over more frames holds at every time all that LRU over fewer frames holds |
| `Lru.LruMoreFramesNeverHurt` | Assignment_5/simulator.c:171-218 | more frames never cost LRU more faults |
| `Lru.FaultsOfNarrowStretch` | Assignment_5/simulator.c:171-206 | a stretch of at most k distinct pages faults at most once per page |
| `Lru.LruCompetitive` | Assignment_5/simulator.c:171-218 | (k-h+1) * faults(LRU, k) <= k * faults(A, h) for every schedule A over h <= k frames |
| `SecondChance.VisitIsPop` | Assignment_5/simulator.c:254-266 | one frame of a sweep is one pop of the queue: evict if the bit is clear, else clear and requeue |
| `SecondChance.SweepsAreChance` | Assignment_5/simulator.c:252-293 | both partial sweeps and the fallback, as the code makes them, are one textbook replacement, in every state, all bits set included |
| `SecondChance.Sweep` | Assignment_5/simulator.c:253-282 | a partial sweep takes the first clear bit, clears those before it and writes the page there, or clears all |
| `SecondChance.Replace` | Assignment_5/simulator.c:252-293 | the two sweeps and the fallback leave the frames, bits and hand of the sweep functions, which are the textbook replacement |
| `SecondChance.PassHead` | Assignment_5/simulator.c:254-264 | overwriting the frame under the hand and moving on is popping the head and pushing the new entry |
| `SecondChance.ServePage` | Assignment_5/simulator.c:235-293 | one reference: a hit sets the bit, a fill clears it, a miss replaces; the hand wraps |
| `SecondChance.SecondChanceIsTheQueue` | Assignment_5/simulator.c:230-297 | on every run of the code's own sweeps the frames and bits read from the hand are the textbook queue, and the faults are the same |
| `SecondChance.Simulate` | Assignment_5/simulator.c:230-304 | the loop is such a run and its fault count is the textbook queue's |
| `SecondChance.ConservativeForOneFrameOnly` | Assignment_5/simulator.c:245-293 | over k frames the property behind the FIFO and LRU bounds holds of every run on page numbers if and only if k = 1 |
| `SecondChance.NotConservative` | Assignment_5/simulator.c:245-256 | for every k from 2 on, every run on a given string of 2k+2 references has three faults on its last two pages |
| `SecondChance.ConservativeWithoutPassing` | Assignment_5/simulator.c:252-266 | a run whose hand never passes a set bit is a FIFO run and keeps the property |
| `SecondChanceBound.LoadsOfStretch` | Assignment_5/simulator.c:235-293 | in a stretch of at most k pages every load is the first or the second of its page |
| `SecondChanceBound.TwiceAPage` | Assignment_5/simulator.c:230-297 | so such a stretch faults at most twice for each of its pages |
| `SecondChanceBound.SecondChanceCompetitive` | Assignment_5/simulator.c:230-304 | (k-h+1) * faults(Second-Chance, k) <= 2 * k * faults(A, h) for every schedule A over h <= k frames |
| `SecondChanceWorst.BlocksFault` | Assignment_5/simulator.c:235-293 | for every k from 2 on, each block of k+2 references of a given family costs k+1 faults (another schedule over k frames pays one, `SecondChanceWorst.KeepFixed`) |
| `SecondChanceWorst.MeetsBoundForOneFrameOnly` | Assignment_5/simulator.c:230-304 | over k frames the method meets the bound of FIFO and LRU if and only if k = 1 |
| `SecondChanceWorst.WorstCase` | Assignment_5/simulator.c:230-304 | on m blocks every run faults m*(k+1) times, and a schedule over as many frames at most m+k+1 times |
| `Tightness.LruFaultsAlways` | Assignment_5/simulator.c:171-206 | where any k+1 references in a row differ, LRU over k frames faults at every reference |
| `Tightness.FifoFaultsAlways` | Assignment_5/simulator.c:120-148 | and so does FIFO |
| `Tightness.BoundsAreTight` | Assignment_5/simulator.c:120-218 | for all 1 <= h <= k and any length there are strings on which LRU and FIFO over k frames reach their bound against a schedule over h frames, but for a constant |
| `Anomalies.FifoMonotoneUpToTwo` | Assignment_5/simulator.c:120-159 | one more frame than k never costs FIFO a fault on any string if and only if k <= 2 |
| `Anomalies.TwoAgainstThree` | Assignment_5/simulator.c:120-148 | at every moment three FIFO frames have loaded no more than two, less the fault that they are behind |
| `Anomalies.SecondChanceMonotoneForOneOnly` | Assignment_5/simulator.c:230-304 | one more frame than k never costs Second-Chance a fault on any string if and only if k = 1 |
| `SecondChance.RunExists` | Assignment_5/simulator.c:230-297 | the method serves every string |
| `Affinity.Task.AffineMoveTask` | Assignment_4/cfs/core.c:2186-2298 | each branch up to the unlock is the corresponding step on pending pointer, record and agent; it warns only when `migrate_enable` finds no pending record |
| `Affinity.Task.MigrationCpuStop` | Assignment_4/cfs/core.c:1904-2005 | the stopper run is the step for what it finds under the locks |
| `Affinity.Task.StopOneCpuNowait` | Assignment_4/cfs/core.c:2276-2279 | queues the record's stop work and goes on to wait or leave |
| `Affinity.Task.CompleteAllOf` | Assignment_4/cfs/core.c:2296-2297 | completes the record, then waits or leaves |
| `Affinity.Task.RefcountDecAndTest` | Assignment_4/cfs/core.c:2300-2303 | drops the caller's reference |
| `Affinity.Task.ReturnFromCall` | Assignment_4/cfs/core.c:2309-2312 | the owner returns once its references are gone |
| `Affinity.NextKeepsInv` | Assignment_4/cfs/core.c:1904-2312 | every step of every agent keeps: stop_pending means installed with one work in flight; uninstalled means completed or exactly one completion owed; refs counts the holders |
| `Affinity.NeverWarns` | Assignment_4/cfs/core.c:1990-1990 | a chasing stopper run always finds stop_pending set, an owner never returns with it set |
| `Affinity.RunIsSafe` | Assignment_4/cfs/core.c:1904-2312 | in every run of any number of agents the invariant holds and neither of these warnings fires |
| `Affinity.StopWorkInFlight` | Assignment_4/cfs/core.c:2265-2279 | stop_pending if and only if one stop work is in flight, and then the record is the installed one |
| `Affinity.CompletedWhenUninstalled` | Assignment_4/cfs/core.c:1922-2003 | a record is completed once, uninstalled, with no work in flight, while its owner still waits |
| `Affinity.NoDanglingReference` | Assignment_4/cfs/core.c:2300-2312 | once the owner has returned nothing refers to its record |
| `Affinity.StopWorkIsFree` | Assignment_4/cfs/core.c:2265-2279 | the stop work embedded in a record is never queued twice |
| `AffinityMasks.MaskedTask.SetCpusAllowedPtr` | Assignment_4/cfs/core.c:2326-2393 | a request up to the unlock: what is refused and how, and that it then changes nothing; an accepted mask is stored whole; the branch that the task's CPU selects; a task moves exactly if it is queued off the new mask and free to migrate |
| `AffinityMasks.MaskedTask.TakeMask` | Assignment_4/cfs/core.c:2054-2063 | the accepted mask is copied, and the task is moved or the hand-off takes over |
| `AffinityMasks.MaskIsLastAccepted` | Assignment_4/cfs/core.c:2326-2393 | in every history the task has the mask of the last request that was accepted, whole, and its first one until then |
| `AffinityMasks.QueuedIsMoved` | Assignment_4/cfs/core.c:2281-2286 | in every history a queued task free to migrate is on its new mask at once, and stays where it is if that allows it |
| `AffinityMasks.DisabledStaysPut` | Assignment_4/cfs/core.c:1728-1783 | in every history a task with migration disabled, running or leaving never changes its CPU, and any other moves only to a CPU of its mask |
| `AffinityMasks.MaskedTask.MigrateDisableTask` | Assignment_4/cfs/core.c:1742-1755 | one more nested migrate_disable and nothing else |
| `AffinityMasks.DisabledIsDepth` | Assignment_4/cfs/core.c:1742-1783 | in every history the count is migrate_disable calls less migrate_enable calls |
| `AffinityMasks.MaskedTask.MigrateDisableSwitch` | Assignment_4/cfs/core.c:1728-1740 | a task switched out with migration disabled is confined to its CPU |
| `AffinityMasks.MaskedTask.MigrateEnableTask` | Assignment_4/cfs/core.c:1758-1783 | a nested call lowers the count and nothing else; the outermost resets the pointer and affine-moves, and warns exactly off the mask with no record |
| `AffinityMasks.NarrowedBySwitch` | Assignment_4/cfs/core.c:1728-1783 | in every history the pointer is narrowed, to the task's CPU, from the first switch out of a migration-disabled region until its end |
| `AffinityMasks.MaskedTask.MigrationCpuStop` | Assignment_4/cfs/core.c:1904-2005 | a stopper run on the task's masks: which finding it makes, and the move of a queued task onto its mask |
| `AffinityMasks.MaskedTask.StopOneCpuNowait` | Assignment_4/cfs/core.c:2276-2279 | the stop work goes to the CPU noted under the locks, or to the one that the task is on now if none was noted |
| `AffinityMasks.StopWorkGoesTo` | Assignment_4/cfs/core.c:1992-1992 | in every history the work of a request or of `migrate_enable` goes to the CPU that the task was on under the locks, that of a chasing stopper to the CPU that the task is on when it is queued |
| `AffinityMasks.EventIsStep` | Assignment_4/cfs/core.c:1904-2393 | every event on the masks is at most one enabled step of the hand-off |
| `AffinityMasks.NextWorldKeepsInv` | Assignment_4/cfs/core.c:1728-2393 | every event keeps the hand-off invariant, and a narrowed pointer names the CPU of a migration-disabled task |
| `AffinityMasks.HandOffIsSafe` | Assignment_4/cfs/core.c:1990-2312 | in every history the invariant holds and the warnings of the stopper and of the owner never fire |
| `AffinityMasks.WaiterIsWatched` | Assignment_4/cfs/core.c:2128-2164 | in every history a waiter's record is completed, owed a completion, or installed with one stop work in flight or with the task confined by a migration-disabled region |
| `AffinityMasks.EnableTakesOn` | Assignment_4/cfs/core.c:2152-2184 | the outermost `migrate_enable` of that region takes such a record on: it owes its completion or its stop work |
| `AffinityMasks.NoDeadlock` | Assignment_4/cfs/core.c:2152-2315 | in every history, outside migration-disabled regions, when no stop work is queued and no step outside the locks is left, every caller has returned |
| `AffinityMasks.WarnsExactlyWhenLetOff` | Assignment_4/cfs/core.c:2246-2259 | `migrate_enable` finds no record if and only if a stopper run settled it off the mask, by a narrowed pointer from another CPU or while the task was waking up, and the task has neither moved nor got a new mask since |
| `AffinityMasks.EnableCanWarn` | Assignment_4/cfs/core.c:1978-1983 | on any two CPUs there is a history that ends with this warning, by a narrowed pointer |
| `AffinityMasks.EnableCanWarnAfterNap` | Assignment_4/cfs/core.c:1924-1954 | ... and one that ends with it although no stopper run went by a narrowed pointer |
| `TaskGroups.WalkTgTreeFrom` | Assignment_4/cfs/core.c:801-830 | for any finite tree and visitors the goto walk ends and makes exactly the calls of the recursive order, cut after the first non-zero result: each visitor gets the data that the call before it left, and the last data and result are returned |
| `TaskGroups.CallsAreInTurn` | Assignment_4/cfs/core.c:801-830 | calls made in turn: a list of data from the first to the returned one, each step by the down or up visitor that the order names, all results but the last zero, none left out unless the last is not |
| `TaskGroups.EncloseChild` | Assignment_4/cfs/core.c:793-799 | every group is entered before its children and left after them |
| `TaskGroups.SiblingsInTurn` | Assignment_4/cfs/core.c:807-817 | a group's subtree is left before its next sibling is entered |
| `TaskGroups.OrderCoversSubtree` | Assignment_4/cfs/core.c:793-799 | the order calls down and up on every group of the subtree and on no other |
| `TaskGroups.CallsOnce` | Assignment_4/cfs/core.c:793-799 | no call is made twice |
| `TaskGroups.CallsNest` | Assignment_4/cfs/core.c:793-799 | the calls of every group's subtree are made together, its down first and its up last |
| `TaskGroups.SiblingsDisjoint` | Assignment_4/cfs/core.c:801-830 | the subtrees of two children have no group in common |
| `TaskGroups.LeftAfterUp` | Assignment_4/cfs/core.c:819-826 | climbing back resumes at the next sibling, and stops at `from` |
| `Quota.NormalizeIsExact` | Assignment_4/cfs/core.c:8757-8775 | in the admitted ranges the normalised quota of every group, the one being changed included, is quota over period rounded down to 2^-20 and never looks unlimited |
| `Quota.FitsIsModest` | Assignment_4/cfs/core.c:8777-8808 | with all groups in range the check compares the shares, so rounded, that would be in force after the change |
| `Quota.SharesAgainstFractions` | Assignment_4/cfs/core.c:8757-8808 | a group whose true fraction is at most its ancestor's passes, and one that passes exceeds it by less than 2^-20 |
| `Quota.CheckSubtree` | Assignment_4/cfs/core.c:8777-8808 | with the parent's limit in place, the walk over a subtree succeeds if and only if every group in it fits, and then leaves all their limits in place |
| `Quota.CfsSchedulable` | Assignment_4/cfs/core.c:8810-8829 | returns 0 if and only if every limited group asks for at most its nearest limited ancestor allows, and then every hierarchical quota is the group's own limit or the inherited one |
| `Quota.TgSetCfsBandwidth` | Assignment_4/cfs/core.c:8591-8671 | a new period and quota are taken if and only if they are in range, not for the root, and leave no limited group with a larger share than a limited group above it; else nothing changes; every hierarchical quota is then the smallest share from the group up |
| `Quota.SchedulableIsPairwise` | Assignment_4/cfs/core.c:8790-8803 | comparing each limited group with its nearest limited ancestor is as good as comparing it with all of them |
| `Quota.ShareIsSmallest` | Assignment_4/cfs/core.c:8790-8806 | where the hierarchy is schedulable the inherited limit is the smallest share of a limited group from the group up |
| `Quota.LimitsNeverIncrease` | Assignment_4/cfs/core.c:8790-8803 | where all groups fit, no group's limit exceeds that of any ancestor, however far up |
| `Uclamp.BucketsAreRanges` | Assignment_4/cfs/core.c:923-932 | a value in a lower bucket is a lower value |
| `Uclamp.DeltaIsClosest` | Assignment_4/cfs/core.c:923-924 | the buckets together are as wide as the scale, up to half a unit each |
| `Uclamp.BucketHolds` | Assignment_4/cfs/core.c:929-932 | bucket b starts at b widths, and only the last one may be wider |
| `EffectiveClamps.Recompute` | Assignment_4/cfs/core.c:8400-8415 | each clamp is the group's own request or its parent's value, whichever is lower, and the protection is capped by the limit |
| `EffectiveClamps.VisitUnchanged` | Assignment_4/cfs/core.c:8427-8430 | a group that keeps its clamps lets its whole subtree be skipped |
| `EffectiveClamps.CpuUtilUpdateEff` | Assignment_4/cfs/core.c:8391-8434 | if all other groups agreed before, all hold the most restrictive request on their path and the bucket ids of it after, and active tasks are refreshed by one call for each group that changed, naming what changed |
| `EffectiveClamps.EffectiveIsMostRestrictive` | Assignment_4/cfs/core.c:8400-8415 | a group's effective UCLAMP_MAX is the lowest one requested by it and the groups above it, and its effective UCLAMP_MIN the lowest request of either kind among them, and no other values are |
| `EffectiveClamps.ChangesAreCalls` | Assignment_4/cfs/core.c:8416-8433 | the refreshes are one call for each group whose clamps differ, in order, with a flag for each clamp that does |
| `EffectiveClamps.CapacityIsClosest` | Assignment_4/cfs/core.c:8452-8477 | a request is the capacity closest to its percentage, grows with it and stays within the scale |
| `EffectiveClamps.RequestOfText` | Assignment_4/cfs/core.c:8452-8477 | "max" is the whole scale, a percentage is accepted if and only if it lies between 0 and 100, and any other text is refused with its error |
| `EffectiveClamps.CpuUclampWrite` | Assignment_4/cfs/core.c:8479-8512 | text that is no percentage up to 100 is refused and changes nothing; else clamps are in use, exactly the one request and percentage are noted, and every group has the most restrictive request on its path |
| `EffectiveClamps.ConsistentIsEffective` | Assignment_4/cfs/core.c:8400-8415 | agreement of each group with its parent is the value computed from the root down |
| `EffectiveClamps.EffectiveNeverIncreases` | Assignment_4/cfs/core.c:8400-8415 | effective clamps never increase down the tree and MIN is at most MAX everywhere |
| `Preorders.TreeHasPreorder` | Assignment_4/cfs/core.c:8400-8434 | every finite task-group tree, listed as the recursive walk enters it, is a pre-order as the recomputation asks for |
| `Preorders.BelowByParent` | Assignment_4/cfs/core.c:8427-8430 | in that list a group lies in the block of another exactly when its parent does, so that skipping a block skips a subtree |
| `Preorders.EffectiveOnTree` | Assignment_4/cfs/core.c:8400-8415 | the effective clamps at a position are those of the group there, computed along the tree |
| `Preorders.OnTreeIsMostRestrictive` | Assignment_4/cfs/core.c:8400-8415 | in the tree itself a group's effective clamps are the lowest requests among it and its ancestors |
| `ClampBuckets.RunQueue.constructor` | Assignment_4/cfs/core.c:1529-1541 | the initial run queue |
| `ClampBuckets.RunQueue.UclampRqMaxValue` | Assignment_4/cfs/core.c:949-995 | value of the highest non-empty bucket, else the idle value with the idle flag set for UCLAMP_MAX |
| `ClampBuckets.RunQueue.UclampRqIncId` | Assignment_4/cfs/core.c:1123-1150 | one clamp of a task that becomes runnable is counted |
| `ClampBuckets.RunQueue.UclampRqDecId` | Assignment_4/cfs/core.c:1161-1225 | one clamp of a task that stops being runnable is released, if it was counted |
| `ClampBuckets.RunQueue.UclampRqInc` | Assignment_4/cfs/core.c:1227-1249 | an enqueue is the step on both clamps and clears the idle flag; nothing before clamps are in use |
| `ClampBuckets.RunQueue.UclampRqDec` | Assignment_4/cfs/core.c:1251-1269 | a dequeue is the step on both clamps; tasks never counted are left alone |
| `ClampBuckets.NextKeepsInv` | Assignment_4/cfs/core.c:1123-1269 | every operation keeps: buckets count their active tasks, bound them, stay in range and below the run queue's value |
| `ClampBuckets.DecNeverWarns` | Assignment_4/cfs/core.c:1197-1219 | where the index is right the two warnings of the dequeue path cannot fire |
| `ClampBuckets.TopIsHighest` | Assignment_4/cfs/core.c:977-991 | among non-empty buckets the highest has the highest value |
| `ClampBuckets.MinAlwaysExact` | Assignment_4/cfs/core.c:1123-1269 | in every run, while a task is active, the UCLAMP_MIN value is that of the highest non-empty bucket |
| `ClampBuckets.MaxExactFromIdle` | Assignment_4/cfs/core.c:949-975 | likewise for UCLAMP_MAX in every run that starts on a run queue flagged idle |
| `ClampBuckets.MaxExactFromInit` | Assignment_4/cfs/core.c:1529-1541 | from initialisation UCLAMP_MAX is exact if and only if a task with the largest clamp has been counted |
| `ClampBuckets.LastTaskStaysOnShow` | Assignment_4/cfs/core.c:949-963 | in every run the last task to leave takes UCLAMP_MIN to zero and leaves its UCLAMP_MAX on an idle run queue, unless the initial value has hidden it all along, which then stays |
| `ClampBuckets.FirstTaskResets` | Assignment_4/cfs/core.c:965-975 | in every run the first task on an idle run queue brings both values to its own |
| `ClampBuckets.RunQueue.UclampUpdateActive` | Assignment_4/cfs/core.c:1271-1299 | a counted clamp is released and counted again with the value now in effect; one that is not counted is left alone |
| `ClampRefresh.RefreshKeeps` | Assignment_4/cfs/core.c:1295-1298 | a refresh keeps the index right for any task, and leaves the run queue flagged idle if and only if it is of the UCLAMP_MAX of the only task and the value was exact |
| `ClampRefresh.LeftBehind` | Assignment_4/cfs/core.c:949-963 | in every run from an idle run queue the flag is left on a task by such a refresh and by nothing else |
| `ClampRefresh.ExactUnlessLowered` | Assignment_4/cfs/core.c:965-975 | in every run with refreshes from an idle run queue both values are right all along if and only if no counted enqueue finds the flag left behind and a clamp below the run queue's |
| `ClampRefresh.LoweringHappens` | Assignment_4/cfs/core.c:965-975 | from every idle run queue three operations lead there: the value ends below that of a bucket with a task in it |
| `WakeQueue.WakeQueues.TryAdd` | Assignment_4/cfs/core.c:505-527 | adds at the end if and only if the task's node is free, that is, the task is in no queue |
| `WakeQueue.WakeQueues.WakeQAdd` | Assignment_4/cfs/core.c:541-545 | takes a reference exactly on success |
| `WakeQueue.WakeQueues.WakeQAddSafe` | Assignment_4/cfs/core.c:564-568 | hands the caller's reference over on success and drops it otherwise |
| `WakeQueue.WakeQueues.WakeNext` | Assignment_4/cfs/core.c:574-588 | one round of the walk unlinks, wakes and releases the first task, while others may add elsewhere |
| `WakeQueue.WakeQueues.WakeUpQ` | Assignment_4/cfs/core.c:570-590 | wakes exactly the tasks added to its head, in that order, once each, and releases one reference on each; other queues and all references held outside are unchanged |
| `WakeQueue.LinkedAdd` | Assignment_4/cfs/core.c:517-526 | the pointer updates of an add append to the sequence and touch no other queue |
| `WakeQueue.LinkedWake` | Assignment_4/cfs/core.c:574-583 | following and clearing the first node's pointer takes the head off the sequence |
| `WakeQueue.NextKeepsInv` | Assignment_4/cfs/core.c:505-590 | no task sits in two queues; each queue has woken a prefix of what was added to it, without repetition |
| `WakeQueue.DrainedWokeAll` | Assignment_4/cfs/core.c:570-590 | in every run a drained queue has woken what was added to it, in order, once each |
| `WakeQueue.WokenThenWaiting` | Assignment_4/cfs/core.c:505-590 | in every run what a queue has woken and has still to wake are the tasks of the adds to it that found their task in no queue, in that order |
| `WakeQueue.ReferencesBalance` | Assignment_4/cfs/core.c:541-588 | a task's count is the references held outside plus one while it is queued |
| `WakeQueue.ReferencesGivenUp` | Assignment_4/cfs/core.c:564-568 | in every run the references held outside fall by one with each `wake_q_add_safe` on the task and by nothing else |
| `Crossing.Intersection.constructor` | Assignment_6/program.c:60-79 | start-up: threads without vehicles finish, the first vehicle sets off |
| `Crossing.Intersection.DirectionThread` | Assignment_6/program.c:339-379 | what a direction thread does between being signalled and signalling back |
| `Crossing.Intersection.NextArrival` | Assignment_6/program.c:188-203 | tick, next start point, and the vehicle that set off beside the last one |
| `Crossing.Intersection.ChooseSlot` | Assignment_6/program.c:205-226 | the first waiting vehicle facing the one on the road, else the first in line, else no slot |
| `Crossing.Intersection.Switch` | Assignment_6/program.c:232-329 | start, finish, or do both; a vehicle that may not move goes back to its slot |
| `Crossing.Intersection.ControllerRound` | Assignment_6/program.c:180-334 | one round of the controller |
| `Crossing.Intersection.Run` | Assignment_6/program.c:174-334 | the run ends, every vehicle has passed, and the reported total is 2n - h, between n+1 and 2n |
| `Crossing.NeverStalls` | Assignment_6/program.c:218-226 | with the road free and some thread unfinished a vehicle is waiting |
| `Crossing.RoundProgress` | Assignment_6/program.c:180-334 | every round keeps the books and lowers twice the vehicles not started plus the one on the road; hand-overs are only to the facing direction |
| `Crossing.HandedOverWhenFaced` | Assignment_6/program.c:205-267 | in every round of every run the road is handed over if and only if a vehicle facing the one on it waits after the arrival, and to the first such; with the road free the first in line sets off; the line is otherwise unchanged |
| `Crossing.SetsOff` | Assignment_6/program.c:356-368 | the hand-off of a waiting vehicle puts it under way, beside the one on the road if there is one, and the books stay right |
| `Crossing.FacingPair` | Assignment_6/program.c:254-267 | between the two hand-offs of a tick exactly the vehicle on the road and one facing it are under way |
| `Crossing.OnlyFacingPairs` | Assignment_6/program.c:195-332 | in every state of every round two vehicles are under way only if they face each other, and no start point has two |
| `Crossing.Leaves` | Assignment_6/program.c:362-373 | the vehicle on the road leaves and the books stay right |
| `Crossing.SafeAndConserved` | Assignment_6/program.c:195-332 | at every round's head at most one vehicle is under way, and for each start point taken = passed + on the road + waiting |
| `Crossing.LeavesInTheNextRound` | Assignment_6/program.c:254-267 | a vehicle that starts in one tick leaves in the next; only one facing it may be under way then |
| `Crossing.SignalledThreadIsAlive` | Assignment_6/program.c:232-329 | no thread is signalled after it has finished |
| `Crossing.EndOfRun` | Assignment_6/program.c:164-172 | when all threads have finished every vehicle has passed and the clock is exact |
| `CpuBurst.Cpus.UpdateRqClock` | Assignment_4/cfs/core.c:301-321 | the clock follows unless skipped or behind |
| `CpuBurst.ClockIsMonotone` | Assignment_4/cfs/core.c:316-319 | it becomes the later of the two readings |
| `CpuBurst.Cpus.SchedInfoDepart` | Assignment_4/stats.h:231-239 | the task is charged for its stay |
| `CpuBurst.Cpus.SchedInfoArrive` | Assignment_4/stats.h:196-208 | the stay begins at the run queue's clock |
| `CpuBurst.Cpus.SchedFork` | Assignment_4/cfs/core.c:3720-3720 | the counter starts at zero |
| `CpuBurst.Cpus.ScheduleTo` | Assignment_4/cfs/core.c:4996-4998 | a switch brings the clock up to the reading, unless skipped or behind, then charges the previous task, unless idle, and starts the next; other run queues are untouched; all books are kept |
| `CpuBurst.Cpus.FinishDeadTask` | Assignment_4/cfs/core.c:4222-4223 | what is printed for a dead task, once switched out, is its time on a CPU over the whole run, modulo 2^64 |
| `CpuBurst.NextKeepsInv` | Assignment_4/stats.h:196-259 | every fork, clock update and switch on any CPU keeps all books |
| `CpuBurst.NextRuns` | Assignment_4/stats.h:231-259 | every step adds to a task's charges and pending time exactly what the clock of its CPU advanced while the task was current there |
| `CpuBurst.StaysAreTimeOnCpu` | Assignment_4/stats.h:196-259 | on every run charges and pending time are the task's time on a CPU, as the clocks and current tasks alone tell it |
| `CpuBurst.BurstIsTimeOnCpu` | Assignment_4/stats.h:231-235 | the counter with the pending time is that time modulo 2^64, and the counter alone once the task is off the CPU |
| `CpuBurst.ChargedByReadings` | Assignment_4/stats.h:231-259 | on every run a task put on a CPU by one switch and taken off by a later one is charged the later clock reading less the earlier, where readings do not go back |
| `CpuBurst.BurstIsTheSumOfStays` | Assignment_4/stats.h:231-235 | on every run the counter is the sum of the stays, which have non-negative length and never overlap on a CPU |
| `CpuBurst.ClockIsAccountedFor` | Assignment_4/stats.h:21-25 | clock since the first switch = charges to tasks + idle time + the current uncharged interval |
| `CpuBurst.ClockNeverGoesBack` | Assignment_4/cfs/core.c:316-319 | on every run the clock of each run queue never goes back |
| `CpuBurst.ClockIsLatestReading` | Assignment_4/cfs/core.c:308-320 | on every run the clock of a run queue is the latest reading that it was given, or its first value if that is later |
| `RemoteTick.TickWork.SchedTickStart` | Assignment_4/cfs/core.c:4652-4670 | the exchange of a start |
| `RemoteTick.TickWork.SchedTickStop` | Assignment_4/cfs/core.c:4673-4687 | the exchange of a stop |
| `RemoteTick.TickWork.SchedTickRemote` | Assignment_4/cfs/core.c:4646-4649 | the decision at the end of the tick work |
| `RemoteTick.OneWorkInFlight` | Assignment_4/cfs/core.c:4576-4688 | in every run exactly one tick work is in flight unless the state is OFFLINE, none then, and no warning fires |
| `RemoteTick.FinalStopEndsTheTick` | Assignment_4/cfs/core.c:4686-4687 | after a final stop the next decision ends OFFLINE without requeueing |
| `RemoteTick.TicksWhileOnline` | Assignment_4/cfs/core.c:4646-4649 | on every run each decision on a started CPU requeues the work, and a start queues one exactly if none is in flight |

## Left out

- Printing, file and terminal input, sleeping, and the random generation of start points.
- The fixed array sizes of the C programs (31 references, 20 starts, 20 waiting slots, 10 passed slots).
- A run of the intersection with no vehicles: nobody ever signals the controller, so it waits for ever.
- Lost or spurious wake-ups of condition variables: signals are sent without the receiver's mutex, so that a hand-off is delivered is an assumption.
- Affinity: that a caller returns only once the task runs on an allowed CPU, CPU hotplug, `push_cpu_stop`, and masks that are set without an affinity request (`do_set_cpus_allowed`).
- Affinity.Task.AffineMoveTask: what it reads from the masks is a parameter here; `AffinityMasks` computes it.
- Affinity.Task.MigrationCpuStop: likewise, with the migration itself in `AffinityMasks.MaskedTask.MigrationCpuStop`.
- AffinityMasks.MaskedTask.MigrationCpuStop: does not set `wake_cpu`, a hint for a choice that is free here.
- EffectiveClamps.CpuUtilUpdateEff: records which groups' tasks are refreshed; which run queues these tasks are on is not modelled, and `ClampRefresh` takes one run queue and refreshes in any order.
- The cgroup-v2 branch of the quota check.
- CpuBurst.Cpus.SchedInfoDepart: does not stamp a preempted task as queued (`last_queued`), which no charge reads.
- CpuBurst.Cpus.SchedInfoArrive: does not add to `run_delay` and `pcount`, which no charge reads.
- EffectiveClamps.CpuUclampWrite: takes the text already parsed; `cgroup_parse_float` is not part of this model.
- Quota.TgSetCfsBandwidth: starts no timer and refills and unthrottles no run queue.
- Task groups and wake-queue nodes are keys of maps rather than heap objects, so aliasing between unrelated objects is not modelled.
- Memory barriers, RCU, lockdep, tracing, perf, PSI, and scheduling-class callbacks.
- `Assignment_4/fifo/core.c`, where the same functions appear at other lines, and Assignments 1 to 3: system calls, procfs readers and their display.
