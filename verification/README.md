# ROMP race detector: a model of its algorithms, with proofs

ROMP finds data races of OpenMP programs while they run. Its runtime library gives each task a label, keeps a short
history of accesses for each memory location, and decides from labels, lock sets and flags whether a new access races
with a recorded one. These files model the algorithms of that library and prove what they are for.

`dafny verify dfyconfig.toml` checks all of it.

## Modules

- `Labels`, `Core`: label segments, the label operations as functions on values, the comparison loop, and the whole
  happens-before decision (`happensBefore` and the `analyze*` functions, RompLib/src/Core.cpp:106-697), with branches
  for implicit, explicit and workshare segments, and a verdict `Fatal` where the program would end.
- `LabelOrder`, `Strands`, `ForkJoin`, `Exactness`: fork, start, barrier, join and access as a transition system; each
  step does to the labels what the callback does, and extends a graph of strands that no label operation looks at.
  Regions nest, teams have any size, barriers may come anywhere. The label test is exact on every run in which no offset
  wraps, except exactly where two labels part in a team of one.
- `LongRuns`: runs of any length. The program goes through the states of a run with unbounded offsets, cut to 16 bits;
  exactly when the test survives the cut, and every verdict across any number of barriers.
- `Worksharing`: every verdict on two members of a team and on two moments of one task, with whatever runs below them;
  loops, sections and `ordered` regions by the operations on the label.
- `TaskGroups`: explicit tasks, their later siblings and their creator, and what the creator does in between.
- `LockSets`: the array of at most four locks, its in-place loops, and the copy-on-write of the mutex callbacks.
- `AccessHistories`, `Pruning`: one check of a location with its in-place erasing loop, the races the pruned history
  finds compared with those of the full one, and the exact conditions under which the code as it is loses one.
- `ThreadTables`, `ThreadFilter`: the per-thread tables that skip repeated accesses, and exactly which races they hide.
- `Detector`: the theorems above put together, with the threads that carry out a run. The label test is as proved, the
  keys of the filter are those of the threads, and protection is defined independently of the code.
- `DetectorFaults`: fork-join runs on two threads, one for each of six ways in which the detector is wrong.
- `McsLock`: the queue lock of Mellor-Crummey and Scott (ACM TOCS 9(1), 1991) as a state machine of atomic steps.
- `ShadowAddress`, `ShadowMemory`, `ShadowSlots`: the bit arithmetic of the two-level table, the concurrent
  installation of its pages by compare-and-swap with the per-thread spare pages, and what callers see of it.
- `TaskDepGraphs`: the graph of task dependences (OpenMP API 5.0, section 2.17.11) and its depth-first search.
- `Bits`, `SegmentWord`, `LabelHeap`, `HeapRuns`: the packed segment word, labels as vectors of pointers to shared
  segments, and fork-join runs carried out on them.

Main results: `Exactness.LabelsExact`, `LongRuns.LongRunsExactly`, `LongRuns.AcrossBarriers`,
`TaskGroups.SiblingTasksExactly`, `TaskGroups.CreatorAfterTaskExactly`, `Worksharing.LoopIterationsExactly`,
`Pruning.PruningLosesNothing`, `ThreadFilter.FilterIsTransparentExactly`,
`Detector.DetectorIsExact`, `Detector.FilteredDetectorIsExact`, `Detector.CodedDetectorIsExact`,
`McsLock.MutualExclusion`, `McsLock.Fairness`, `McsLock.HandOffIsBounded`, `McsLock.ReleasedNodeIsLeftAlone`,
`McsLock.LockReturnsInside`, `McsLock.TryLockExactly`, `ShadowSlots.SlotsAreExact`, `ShadowSlots.SlotsAreMemory`,
`ShadowMemory.PagesHaveOneHolder`, `TaskDepGraphs.TaskDepGraph.HasPath`,
`TaskDepGraphs.NeverBothWays`, `LabelHeap.Persist`, `HeapRuns.RunOnHeap`, `LockSets.ArrayIsMultiset`.

## Where the code does not do what it is meant to do

The model follows the code. For each of these there is a lemma with a concrete input or one that gives the exact
condition, for most of them both.

- The two locals that carry the verdict from the analysis to the pruning decision are declared outside the loop and
  keep their values over an early return; a record can be deleted on the verdict of another one, and a race is lost
  (`DetectorFaults.DetectorMissesRace`; exactly when: `Pruning.StaleFlagsExactly` for one check,
  `Pruning.CodedRunIsFreshExactly` for a run). One of them is read before it is set
  (`DetectorFaults.UninitializedMissesRace`).
- The pruning decision ignores the bit for atomic accesses and the flag for mutually exclusive tasks
  (`DetectorFaults.AtomicBitMissesRace`, `Pruning.MutexTaskLosesRace`; exactly when: `Pruning.ExemptsLessExactly`).
- A team of one below the root trips the internal checks (`Exactness.TeamOfOneFails`; exactly when:
  `Exactness.LabelsExact`).
- For two explicit tasks of one task the test compares group ids and nesting depths. It misses that nothing waits for
  the first one (`TaskGroups.EmptyGroupOrders`), and that its group has been closed (`TaskGroups.DeeperGroupHides`;
  exactly when, both ways: `TaskGroups.SiblingTasksExactly`).
- The offset field wraps at 2^16. After a multiple of 2^16 barriers the labels of an outermost team repeat, and ordered
  accesses of two members are taken for concurrent (`LongRuns.BarrierRun`); in inner teams the test can be wrong, or
  its check fire, from the first wrap on (every verdict: `LongRuns.AcrossBarriers`; exactly when, for any two accesses:
  `LongRuns.LongRunsExactly`).
- The inclusion test on lock sets misses most inclusions (`LockSets.SubsetTestMisses`; exactly when:
  `LockSets.SubsetTestMeaning`).
- The duplicate filter can lose a race in two ways: with a reduction (`DetectorFaults.FilterMissesReductionRace`), and
  with an atomic access that a plain one is a duplicate of (`DetectorFaults.FilterMissesAtomicRace`). Exactly when:
  `ThreadFilter.SelectionRacesExactly` for one set of accesses, `ThreadFilter.FilterIsTransparentExactly` for the
  verdict.
- The atomic bits of two accesses are compared only if both tasks have a lock set, which a task gets with its first
  lock; two atomic writes of tasks without one are reported (`DetectorFaults.DetectorReportsAtomics`; exactly when:
  `Detector.ExclusionExactly`).
- The first access to a recycled location is not recorded, so its races are lost (`Pruning.RecycledStartsAfresh`).
- Of a variable only the first dependence is stored, so the rule in the comment on `addDeps` is not what is computed
  (`TaskDepGraphs.SecondAndThirdUnordered`; exactly when: `TaskDepGraphs.LinkOfPair`, `TaskDepGraphs.EdgesExactly`).
- The constructor of the shadow memory takes the number of address bits, but the canonical mask is fixed: the first
  index stays within its table from 48 address bits on (`ShadowAddress.FirstIndexInBoundsExactly`).

## Model

| member | source | states |
|---|---|---|
| `Labels.Agreement` | RompLib/src/Label.cpp:84-88 | the number of leading segments that compare equal: all before it agree, and the next pair, if there is one, differs |
| `Labels.CompareLabels` | RompLib/src/Label.cpp:76-95 | the comparison loop returns the first differing index, or one of the three codes for equal labels and prefixes, for all pairs of labels |
| `Core.AnalyzeSyncChain` | RompLib/src/Core.cpp:348-374 | the scan from a segment to the leaf says yes if and only if it starts at the leaf, or every explicit segment before the first implicit one, or explicit one inside a task group, is marked as waited for |
| `TaskGroups.AfterIs` | RompLib/src/Label.cpp:138-180 | what any sequence of task creations, taskwaits, group begins and group ends of a task leaves in its segment: counts, and the nesting depth |
| `TaskGroups.SiblingTasksExactly` | RompLib/src/Core.cpp:554-593 | two explicit tasks of one task, with any such sequence of its creator between their creations: every verdict; and the verdict says whether the creator has waited for the first one if and only if there was a taskwait, or, where its group has been closed, the group id has grown and no more groups have been opened than closed, and where it has not, the group id has not grown or opened and closed groups differ in number |
| `TaskGroups.InitialTaskSiblings` | RompLib/src/Core.cpp:140-145 | two tasks of the initial task are always taken for ordered |
| `TaskGroups.EmptyGroupOrders` | RompLib/src/Core.cpp:584-593 | a concrete missed race: the creator opens and closes a group between the two creations and waits for neither task |
| `TaskGroups.DeeperGroupHides` | RompLib/src/Core.cpp:584-593 | a concrete false alarm: the group of the first task is closed and the second one is created two groups deep |
| `TaskGroups.FamiliesExactly` | RompLib/src/Core.cpp:554-606 | a task with whatever runs below it, and a later task of the same creator, or a task, loop or section below that one: ordered if and only if the groups as counted say so, or there was a taskwait and the first task ends with all that is below it |
| `TaskGroups.CreatorAfterTaskExactly` | RompLib/src/Core.cpp:402-435 | a task with whatever runs below it, and its creator at a later moment: after a taskwait ordered if and only if every explicit segment down to the first one that ends the chain is waited for, without one if and only if the task is marked as one of a closed group; for the task itself this is right if and only if there was a taskwait or the mark is right |
| `TaskGroups.CreatorBeforeTaskExactly` | RompLib/src/Core.cpp:389-401 | what a task has done comes before whatever it does, and whatever it creates, later |
| `TaskGroups.PrefixVerdict` | RompLib/src/Core.cpp:111-124 | a label comes before every extension of it, and no extension before it |
| `Worksharing.OneTaskVerdict` | RompLib/src/Core.cpp:389-470 | every verdict on two moments of one task, with whatever runs below it at the two |
| `Worksharing.MembersVerdict` | RompLib/src/Core.cpp:199-231 | every verdict on two members of a team, with whatever runs below them: they are ordered at most by the ordered regions of one loop |
| `Worksharing.IterationsVerdict` | RompLib/src/Core.cpp:146-152 | every verdict on two iterations that one member executes |
| `Worksharing.OrderedIs` | RompLib/src/Core.cpp:240-340 | the rank comparison is: the first access has left fewer ordered regions than the second has entered, and what runs below the first has ended |
| `Worksharing.ChainIs` | RompLib/src/Core.cpp:348-374 | the scan down the label is the recursive reading of the chain of tasks |
| `Worksharing.MismatchVerdict` | RompLib/src/Core.cpp:126-135 | labels that part in teams of different size or in segments of different kinds end the program |
| `Worksharing.SingleIsTopBit` | RompLib/src/Segment.cpp:303-305 | the executor of a single region is told by the topmost bit of the workshare id |
| `Worksharing.LoopIterationsExactly` | RompLib/src/Label.cpp:202-225 | two members in iterations, after any loops and any ordered regions: ordered if and only if it is the same loop and the first access lies before or in an ordered region earlier than one the second has reached |
| `Worksharing.OwnIterationsExactly` | RompLib/src/Label.cpp:302-310 | two iterations of one member are judged by their ordered regions, too |
| `Worksharing.SectionsExactly` | RompLib/src/Label.cpp:302-310 | sections are never ordered among each other |
| `Worksharing.AfterLoopExactly` | RompLib/src/Label.cpp:202-225 | a loop without barrier and what its member does after it: iterations are concurrent to it, what comes before the first one is not |
| `LabelOrder.VerdictDecidesOrder` | RompLib/src/Core.cpp:106-184 | for labels of implicit tasks with agreeing spans, the test decides an independently defined order on labels, both ways, unless they part in a team of one; then, and only then, its check fires |
| `LabelOrder.PrecedesTrans` | RompLib/src/Core.cpp:106-184 | that order is transitive, for all labels |
| `LabelOrder.PrecedesAntisym` | RompLib/src/Core.cpp:106-184 | and antisymmetric: two labels that precede each other are equal |
| `Strands.LabelsAreUnique` | RompLib/src/Label.cpp:97-164 | on a graph with exact labels, two strands whose labels precede each other, as equal labels do, are one strand |
| `Strands.AddStrand` | RompLib/src/Label.cpp:97-164 | a strand whose label fits its predecessors can be added and the labels of the whole graph stay exact: path if and only if order, for all pairs |
| `Strands.EnterFits` | RompLib/src/Callbacks.cpp:61-64 | the label of a member that enters the current phase of its team fits below the front of the team |
| `Strands.ReleaseFits` | RompLib/src/Callbacks.cpp:77-88 | the label computed when a team ends fits above the last strands of the members: a strand comes before it if and only if it comes before one of these, and it comes before none |
| `Strands.NothingBetween` | RompLib/src/Label.cpp:153-164 | a label that comes before the front one barrier later is comparable with the present front: nothing parallel to a team slips in before its end |
| `ForkJoin.ForkInv` | RompLib/src/Callbacks.cpp:19-64 | forking keeps the invariant that ties labels, task states and strand graph together in runs with unbounded offsets |
| `ForkJoin.EnterInv` | RompLib/src/Callbacks.cpp:61-72 | starting an implicit task, and going on behind a barrier, keep it |
| `ForkJoin.ArriveInv` | RompLib/src/Callbacks.cpp:154-207 | arriving at a barrier keeps it |
| `ForkJoin.MeetInv` | RompLib/src/Callbacks.cpp:73-91 | a team passing its barrier, and a region ending with the master writing the label of the encountering task, keep it |
| `ForkJoin.StepInv` | RompLib/src/Callbacks.cpp:19-210 | every action keeps the invariant, for any nesting and any team sizes |
| `Exactness.RunInv` | RompLib/src/Core.cpp:106-184 | in every state of every run with unbounded offsets: labels exact, and any two observed accesses related as the test says |
| `Exactness.LabelsExact` | RompLib/src/Core.cpp:106-184 | over every run in which no offset wraps, for any two accesses in observed order: the verdict is "path in the fork-join-barrier graph" if and only if the labels do not part in a team of one; the fatal check fires exactly there; the current label is never a prefix of the recorded one; labels are equal exactly on one strand; no path leads backwards |
| `Exactness.LabelsExactTeams` | RompLib/src/Core.cpp:106-184 | if in addition all teams have at least two members, the verdict is always exact and no internal check fires |
| `Exactness.TeamOfOneFails` | RompLib/src/Core.cpp:402-466 | a concrete run with a team of one below the root in which two accesses ordered by a barrier end in the fatal check |
| `LongRuns.CutStep` | RompLib/src/Label.cpp:153-164 | cutting the offsets of all labels to 16 bits commutes with every action |
| `LongRuns.RunIsCut` | RompLib/src/Label.cpp:153-164 | over every run of the program, of any length: its states are those of the run with unbounded offsets and the same actions, cut |
| `LongRuns.NothingIsRefused` | RompLib/src/Callbacks.cpp:19-210 | in every state of every run a running task may fork a team of any size within 16 bits and touch the location, members may start, arrive and leave in their turn, and a team that has arrived may go on or end |
| `LongRuns.VerdictOfPlain` | RompLib/src/Core.cpp:106-184 | the verdict on any two labels of implicit tasks, reachable or not, in a table |
| `LongRuns.SurvivesExactly` | RompLib/src/Core.cpp:106-184 | the verdict on two cut labels is the order of the unbounded ones if and only if that order survives the cut |
| `LongRuns.LongRunsExactly` | RompLib/src/Core.cpp:106-184 | over every run, of any length, for any two accesses in observed order: the verdict is "path in the graph" if and only if the order of the unbounded labels survives the cut |
| `LongRuns.ShortLabelsSurvive` | RompLib/src/Core.cpp:402-466 | while no offset has reached 2^16, it survives if and only if the labels do not part in a team of one |
| `LongRuns.AcrossBarriers` | RompLib/src/Label.cpp:153-164 | members of one team and any number of barriers between an access of the one and an access of the other: every verdict, for all spans, offsets and member numbers |
| `LongRuns.OutermostBarriers` | RompLib/src/Label.cpp:153-164 | in an outermost team the test answers "ordered" unless the number of barriers is a multiple of 2^16; then it judges the members as if there were no barrier |
| `LongRuns.BarrierOrdersUntilWrap` | RompLib/src/Label.cpp:153-164 | one member and one barrier: ordered if and only if the region is an outermost one or the offset of a larger team does not wrap |
| `LongRuns.BarrierRun` | RompLib/src/Label.cpp:153-164 | for every number of barriers a concrete run of a team of two: the graph orders the two accesses, and the program does if and only if the number is no multiple of 2^16 |
| `LockSets.SmallLockSet.AddLock` | RompLib/src/LockSet.cpp:32-38 | appends the lock; refuses a fifth one |
| `LockSets.SmallLockSet.RemoveLock` | RompLib/src/LockSet.cpp:64-79 | search and shifting loop remove the first occurrence, keep the order of the rest, refuse a lock that is not held |
| `LockSets.SmallLockSet.HasCommonLock` | RompLib/src/LockSet.cpp:45-58 | the nested loops return true if and only if the two sets intersect |
| `LockSets.IsSubset` | RompLib/src/LockSet.cpp:87-110 | the nested loops compute the coded test, for absent sets too |
| `LockSets.SubsetTestMeaning` | RompLib/src/LockSet.cpp:87-110 | exactly when the coded test says yes; yes implies inclusion |
| `LockSets.SubsetTestMisses` | RompLib/src/LockSet.cpp:97-109 | the test says no to two locks in the same two locks |
| `LockSets.LockHolder.MutexAcquired` | RompLib/src/Callbacks.cpp:231-240 | a fresh set for the first lock, a changed clone otherwise: sets already stored with records do not change |
| `LockSets.LockHolder.MutexReleased` | RompLib/src/Callbacks.cpp:265-268 | a changed clone: sets already stored with records do not change |
| `LockSets.ArrayIsMultiset` | RompLib/src/LockSet.cpp:32-79 | over any sequence of acquisitions and releases, nested or not, the array holds exactly the multiset of locks held; the run ends in the fatal log exactly when more than four are held or one is released that is not held |
| `AccessHistories.AccessHistory.SetFlag` | RompLib/src/AccessHistory.cpp:28-30 | sets one flag of the packed state and leaves the other alone |
| `AccessHistories.AccessHistory.ClearFlags` | RompLib/src/AccessHistory.cpp:36-38 | clears both flags |
| `AccessHistories.AccessHistory.CheckDataRace` | RompLib/src/RompLib.cpp:30-108 | the whole check, all exits and the duplicate query included, changes the history and the tables of the thread as its specification says, and asks the tables only where the code does |
| `AccessHistories.AccessHistory.ScanRecords` | RompLib/src/RompLib.cpp:70-106 | the scan loop with in-place erasing, flags that survive an iteration, and the append after it equals one recursive pass over the records |
| `Pruning.RacePairExactly` | RompLib/src/Core.cpp:29-88 | two records are taken for a race if and only if they conflict, are parallel, share no lock, are not both atomic in tasks with lock sets, are not both of mutexinoutset tasks, and the later one is in no reduction |
| `Pruning.FreshPassExactly` | RompLib/src/Core.cpp:705-722 | a pass that finds no race, flags reset at every record: exactly the records are deleted that the current access comes after, is at least as strong as and passes the lock test against, and it is added unless a record of its own task that stays makes it superfluous |
| `Pruning.StaleFlagsExactly` | RompLib/src/RompLib.cpp:72-101 | the flags that survive from one record to the next change the outcome of a pass if and only if some record that is not compared is deleted, or makes the current access skipped, on stale flags |
| `Pruning.ExemptsLessExactly` | RompLib/src/Core.cpp:705-722 | keeping one record in place of another is safe for all future accesses if and only if the kept one is no more exempt by atomic bit and mutex task |
| `Pruning.DeletionCovered` | RompLib/src/Core.cpp:713-715 | a deletion is covered: whatever races with the deleted record later races with the current access |
| `Pruning.SkipCovered` | RompLib/src/Core.cpp:716-719 | a skipped access is covered: whatever races with it later races with the record kept |
| `Pruning.FreshStep` | RompLib/src/RompLib.cpp:67-107 | one access: the race flag rises exactly on a race with some past access, and every past access stays covered by a kept record |
| `Pruning.PruningLosesNothing` | RompLib/src/RompLib.cpp:67-107 | over any sequence of accesses the pruned history sets the race flag if and only if some pair of the full, unpruned sequence races, for any order that is transitive along the observed one; flags reset at every record |
| `Pruning.CodedPruningLosesNothing` | RompLib/src/RompLib.cpp:67-107 | the same for the flags as coded, on runs where no decision rests on stale flags |
| `Pruning.CodedRunIsFresh` | RompLib/src/RompLib.cpp:72-101 | on such runs the coded history equals the one with fresh flags, record by record |
| `Pruning.CodedRunIsFreshExactly` | RompLib/src/RompLib.cpp:72-101 | coded and fresh history agree at every moment of a run if and only if no call of it, started on the common history, rests on stale flags |
| `Pruning.PrivateVisitsLeaveNoTrace` | RompLib/src/RompLib.cpp:33-37 | visits of a location while it is private to the thread leave the history, and every later verdict, as they are |
| `Pruning.VisitsExactly` | RompLib/src/RompLib.cpp:30-108 | over any visits, the flag is set if and only if two of those race in which the location was shared |
| `Pruning.RecycledStartsAfresh` | RompLib/src/RompLib.cpp:52-60 | a recycled location starts afresh with the second visit; the first one is not recorded, and a race that has been found stays found |
| `Pruning.UniformRunIsFair` | RompLib/src/Core.cpp:80-88 | runs in which all accesses agree on being atomic and no mutex tasks occur need no further assumption |
| `Pruning.NeverEarlyIsUnstale` | RompLib/src/Core.cpp:33-41 | runs without common locks and reductions never rest on stale flags |
| `Pruning.StaleFlagsLoseRace` | RompLib/src/RompLib.cpp:72-101 | a concrete run whose race the coded flags lose and fresh flags find |
| `Pruning.AtomicBitLosesRace` | RompLib/src/Core.cpp:705-722 | a concrete run whose race is lost because the decision ignores the atomic bit |
| `Pruning.MutexTaskLosesRace` | RompLib/src/Core.cpp:705-722 | a concrete run whose race is lost because the decision ignores that a task is a mutexinoutset task |
| `Pruning.UninitializedLosesRace` | RompLib/src/RompLib.cpp:76-76 | a concrete run whose race is lost if the uninitialised local happens to hold the code for equal labels |
| `ThreadTables.ThreadData.IsDupRead` | RompLib/include/ThreadData.h:33-41 | true exactly if the read table holds this label id for the address; otherwise the entry is replaced; the write table stays |
| `ThreadTables.ThreadData.IsDupWrite` | RompLib/include/ThreadData.h:43-51 | the same for writes |
| `ThreadTables.ThreadData.IsDupMemAccess` | RompLib/src/Core.cpp:740-754 | the query by kind of access, under the current label id of the thread |
| `ThreadTables.ThreadData.IncrementLabelId` | RompLib/src/CoreUtil.cpp:99-106 | a new label id; the tables stay |
| `ThreadFilter.ObservedKeysDetermine` | RompLib/src/Callbacks.cpp:19-29 | because every callback bumps the id, two accesses of a thread under one label id have the same label, lock set and task state, over all interleavings of callbacks and accesses |
| `ThreadFilter.FilterIsSelection` | RompLib/src/RompLib.cpp:67-69 | until a race is found, the filtered run is the unfiltered run of the accesses that pass |
| `ThreadFilter.Representative` | RompLib/include/ThreadData.h:33-51 | every access that is filtered out has a passing one before it: same thread, same kind, same label id |
| `ThreadFilter.RepIsFirst` | RompLib/include/ThreadData.h:33-51 | what stands in for an access is the first one with the same thread, kind and label id |
| `ThreadFilter.CheckByThread` | RompLib/src/RompLib.cpp:30-70 | the check with the real tables of all threads is one step of the filtered run of that address, and no other address sees it |
| `ThreadFilter.RaceSurvives` | RompLib/include/ThreadData.h:33-51 | a race of the full run leaves a race among the passing accesses, unless its two stand-ins come the other way round and its first access is in a reduction, or both stand-ins are atomic with lock sets |
| `ThreadFilter.SelectionRacesExactly` | RompLib/include/ThreadData.h:33-51 | the passing accesses have a race if and only if the full run has one that is not lost in this way |
| `ThreadFilter.FilterIsExact` | RompLib/src/RompLib.cpp:67-69 | with the filter in front the race flag is set if and only if some race of the full run is not lost in this way |
| `ThreadFilter.FilterIsTransparentExactly` | RompLib/src/RompLib.cpp:67-69 | the filter leaves the verdict of a run as it is if and only if some race of the run is not lost, or there is none |
| `ThreadFilter.NothingLost` | RompLib/include/ThreadData.h:33-51 | in runs without reductions in which every access agrees with its stand-in on being atomic no race is lost |
| `ThreadFilter.FilterLosesReductionRace` | RompLib/src/Core.cpp:37-41 | a concrete run with a reduction in which the filter loses a race |
| `ThreadFilter.FilterLosesAtomicRace` | RompLib/src/Core.cpp:80-88 | a concrete run without reductions in which it loses one: the plain write of a thread is a duplicate of its atomic one |
| `Detector.RoomyRunIsCleanExactly` | RompLib/src/Core.cpp:402-466 | while no offset wraps, a run is clean if and only if no two accesses of the location part in a team of one |
| `Detector.CmpIsPath` | RompLib/src/Core.cpp:42-45 | the label test, as the race analysis uses it, equals reachability on every clean run |
| `Detector.CmpIsOrder` | RompLib/src/Core.cpp:106-184 | it therefore is an order along the observed one, and constant on equal labels: no hypothesis of the pruning theorem is left open |
| `Detector.ExclusionExactly` | RompLib/src/Core.cpp:77-88 | the coded test for mutual exclusion agrees with "a common lock, or both atomic" if and only if it is not the case that both are atomic and one task has never held a lock; it never excuses more |
| `Detector.RacesIsGraphRaces` | RompLib/src/Core.cpp:30-88 | the accesses of a run have a pair that the code takes for a race if and only if the graph has one, or has a clash of two atomic accesses of which one task has never held a lock |
| `Detector.DetectorIsExact` | RompLib/src/RompLib.cpp:30-108 | end to end: over every clean fork-join run and every location, the race flag is set if and only if two conflicting, unprotected accesses lie on strands with no path either way, or two atomic ones of which one task has never held a lock; asked of the run is that no pruning decision prefers a record that is more exempt by its atomic bit, and, for the flags as coded, that none rests on stale flags |
| `Detector.ThreadsGiveKeys` | RompLib/src/Callbacks.cpp:19-210 | a fork-join run carried out by threads that run one task at a time: thread and label id of two accesses determine that they were made under the same label, lock set and reduction state |
| `Detector.FilteredDetectorIsExact` | RompLib/src/RompLib.cpp:30-108 | the same with the duplicate filter in front, under the threads and label ids of the run: the flag is set if and only if one of these pairs is not lost to the filter; the same is asked of the accesses that pass |
| `Detector.CodedDetectorIsExact` | RompLib/src/RompLib.cpp:30-108 | the code as it is, with filter and flags that survive an iteration: on runs without common locks and reductions whose accesses agree on being atomic, the flag is set if and only if there is such a pair |
| `DetectorFaults.DetectorMissesRace` | RompLib/src/RompLib.cpp:72-101 | a concrete run of a team of two, no access by the initial task, with a race on the graph that the code misses, filter included, because of the flags that survive |
| `DetectorFaults.AtomicBitMissesRace` | RompLib/src/Core.cpp:705-722 | a concrete run whose race the code misses because a plain write is replaced by an atomic one |
| `DetectorFaults.UninitializedMissesRace` | RompLib/src/RompLib.cpp:76-76 | a concrete run whose race the code misses for one content of the uninitialised local, and reports for another |
| `DetectorFaults.FilterMissesReductionRace` | RompLib/src/Core.cpp:37-41 | a concrete run with a reduction whose race the code reports without the filter and misses with it |
| `DetectorFaults.FilterMissesAtomicRace` | RompLib/src/Core.cpp:80-88 | a concrete run without reductions whose race the code reports without the filter and misses with it |
| `DetectorFaults.DetectorReportsAtomics` | RompLib/src/Core.cpp:83-85 | a concrete run of two threads with an atomic write each, and no race on the graph, that the code reports |
| `McsLock.StepInv` | RompLib/src/McsLock.cpp:76-185 | every atomic step of lock, trylock and unlock, of any thread, keeps the invariant that ties tail, next and blocked fields to places in the queue |
| `McsLock.ArriveInv` | RompLib/src/McsLock.cpp:91-110 | the exchange or CAS that puts a node at the tail |
| `McsLock.LinkInv` | RompLib/src/McsLock.cpp:103-110 | the store that links a node behind its predecessor |
| `McsLock.LastLeavesInv` | RompLib/src/McsLock.cpp:156-173 | the CAS that empties the queue |
| `McsLock.SignalInv` | RompLib/src/McsLock.cpp:183-184 | the store that hands the lock over |
| `McsLock.PointersExist` | RompLib/src/McsLock.cpp:76-185 | no step follows a nil or dangling pointer, in any run |
| `McsLock.MutualExclusion` | RompLib/src/McsLock.cpp:76-185 | in every state of every run at most one thread is between acquiring and releasing |
| `McsLock.HistoryIsRun` | RompLib/src/McsLock.cpp:91-142 | the recorded orders are those of the tail operations and of the entries, read off the steps |
| `McsLock.Fairness` | RompLib/src/McsLock.cpp:91-142 | over every run, critical sections are entered in exactly the order of the successful tail exchanges and trylock CASes; those still missing are exactly the waiting threads |
| `McsLock.FreeNodeIsUnknown` | RompLib/src/McsLock.cpp:147-185 | no thread holds, and none is about to use, the address of a node no operation uses |
| `McsLock.EndFreesNode` | RompLib/src/McsLock.cpp:147-185 | when unlock returns, or trylock fails, the node is free |
| `McsLock.ReleasedNodeIsLeftAlone` | RompLib/include/McsLock.h:120-131 | from then on the node keeps its content until its owner uses it again, over any continuation: nodes on the stack are safe |
| `McsLock.NoLostWakeup` | RompLib/src/McsLock.cpp:147-185 | with threads in the queue, one of the first two can make a step that is not a turn of a spin loop, or the lock is held |
| `McsLock.UnlockNeverStalls` | RompLib/src/McsLock.cpp:155-184 | during an unlock the thread or its successor can move, also in the window where the tail has moved on and next is still nil |
| `McsLock.RankStep` | RompLib/src/McsLock.cpp:147-185 | a measure that no step of any thread raises, and each move of these two lowers |
| `McsLock.HandOffIsBounded` | RompLib/src/McsLock.cpp:147-185 | from the start of an unlock to the hand-off the two make at most seven moves, over any run |
| `McsLock.NothingIsRefused` | RompLib/src/McsLock.cpp:76-185 | in every state of every run an idle thread may begin an operation with a free node, one inside an unlock, and any other its next step |
| `McsLock.LockReturnsInside` | RompLib/src/McsLock.cpp:76-119 | over any run: when lock returns, its thread holds the lock with the node it was given, and has just been added to the entries |
| `McsLock.LockThenUnlock` | RompLib/src/McsLock.cpp:76-185 | over any run: between the beginning of a lock and the next moment at which its thread is idle, the thread has entered and begun an unlock |
| `McsLock.TryLockExactly` | RompLib/src/McsLock.cpp:122-142 | over any run: trylock makes two steps and returns with the lock if and only if the tail was nil at the second; otherwise neither order knows of it |
| `McsLock.UnlockReturnsOutside` | RompLib/src/McsLock.cpp:147-185 | over any run: unlock returns only when its thread no longer holds the lock |
| `ShadowAddress.IndicesAreFields` | RompLib/include/ShadowMemory.h:86-127 | masks and shifts cut three adjacent bit fields out of an address, each within the bounds of its table, for all widths and granularities |
| `ShadowAddress.SameSlotExactly` | RompLib/include/ShadowMemory.h:151-175 | two addresses get the same three indices if and only if they agree on the bits from the granularity shift to 47 |
| `ShadowAddress.SameSlotIsSameUnit` | RompLib/include/ShadowMemory.h:86-127 | two canonical addresses share a slot if and only if they lie in the same aligned byte, four bytes or eight bytes, as the granularity says |
| `ShadowAddress.EverySlotIsUsed` | RompLib/include/ShadowMemory.h:151-175 | every triple of indices in bounds is that of some canonical address |
| `ShadowAddress.FirstIndexInBoundsExactly` | RompLib/include/ShadowMemory.h:151-156 | the first index is in bounds for all 64-bit addresses if and only if at least 48 address bits are configured |
| `ShadowMemory.StepInv` | RompLib/include/ShadowMemory.h:183-281 | every step of a call, on the tables or on the caches, keeps the ownership invariant |
| `ShadowMemory.EveryStepIsSafe` | RompLib/include/ShadowMemory.h:183-281 | in every run: indices in bounds, no null pointer followed, the cache empty whenever a page is saved, no page dropped |
| `ShadowMemory.EntriesNeverChange` | RompLib/include/ShadowMemory.h:183-206 | a non-null entry of either level keeps its value for the rest of the run |
| `ShadowMemory.PagesHaveOneHolder` | RompLib/include/ShadowMemory.h:225-281 | at any time every allocated page is held by exactly one of a table entry, a thread in flight, a cache |
| `ShadowMemory.SparePagesAreZero` | RompLib/include/ShadowMemory.h:225-281 | a page in flight or in a cache is as allocated, whatever is written to installed pages |
| `ShadowSlots.AnswersAreCalls` | RompLib/include/ShadowMemory.h:170-206 | over any run the recorded answers are the calls that have returned, read off the actions: each for the address of its call, with the page the table has for it |
| `ShadowSlots.SlotsAreExact` | RompLib/include/ShadowMemory.h:170-206 | over the whole run two calls, by whatever threads, return the same slot if and only if the addresses they were made for agree on the bits from the granularity shift to 47 |
| `ShadowSlots.NothingIsRefused` | RompLib/include/ShadowMemory.h:170-206 | in every state of every run an idle thread may call for any address, a calling one may make its next step, and every slot returned can be written |
| `ShadowSlots.SlotsAreMemory` | RompLib/include/ShadowMemory.h:170-281 | over any run the slot of every address holds what was last written through a slot for that address, and zero if nothing was |
| `ShadowMemory.CallsAreWaitFree` | RompLib/include/ShadowMemory.h:183-206 | a call ends after at most thirteen steps of its own |
| `TaskDepGraphs.TaskDepGraph.AddEdge` | RompLib/src/TaskDepGraph.cpp:88-96 | adds one edge and nothing else |
| `TaskDepGraphs.TaskDepGraph.AddDeps` | RompLib/src/TaskDepGraph.cpp:27-86 | updates both maps and the flag as the log of reported dependences calls for |
| `TaskDepGraphs.TaskDepGraph.HasPath` | RompLib/src/TaskDepGraph.cpp:101-125 | the stack-based search ends, leaves the edges unchanged, and for two different tasks returns true if and only if the second is reachable |
| `TaskDepGraphs.EdgesExactly` | RompLib/src/TaskDepGraph.cpp:45-84 | two tasks are linked if and only if one was the first on a variable on which the other has a later, conflicting dependence and a larger number |
| `TaskDepGraphs.ConflictsIsRule` | RompLib/src/TaskDepGraph.cpp:60-82 | the coded test on two kinds is the rule of the standard: one of the two writes, and they are not both mutexinoutset |
| `TaskDepGraphs.EdgesByRule` | RompLib/src/TaskDepGraph.cpp:45-84 | which tasks are linked, by that rule and the order of the reports alone |
| `TaskDepGraphs.TwoReports` | RompLib/src/TaskDepGraph.cpp:45-125 | two reports, all kinds: the first task reaches the second if and only if the rule says so, and never the other way round |
| `TaskDepGraphs.OrdersTwo` | RompLib/src/TaskDepGraph.cpp:27-125 | the graph at work: after two reports the search answers by that rule |
| `TaskDepGraphs.NeverBothWays` | RompLib/src/TaskDepGraph.cpp:56-58 | after any sequence of reports no two tasks reach each other |
| `TaskDepGraphs.LinkOfPair` | RompLib/src/TaskDepGraph.cpp:45-50 | a conflicting pair is linked by its second report if and only if its first one was the first on the variable |
| `TaskDepGraphs.SecondAndThirdUnordered` | RompLib/src/TaskDepGraph.cpp:51-84 | three writers of a variable: the second and third are not ordered, against the rule in the comment above the function |
| `SegmentWord.GetPut` | RompLib/src/Segment.cpp:92-241 | writing one of the ten fields stores the value, cut to its width, and leaves the nine others alone |
| `SegmentWord.FieldsMakeWord` | RompLib/src/Segment.cpp:8-19 | two words are equal if and only if their ten fields are |
| `SegmentWord.FieldsAreFree` | RompLib/src/Segment.cpp:8-19 | every combination of field values is the content of some word |
| `SegmentWord.GettersRead` | RompLib/src/Segment.cpp:98-259 | each getter, with its mask and shift, reads one field of that layout |
| `SegmentWord.CountersWrite` | RompLib/src/Segment.cpp:198-236 | each counter setter writes one field of it |
| `SegmentWord.FlagsWrite` | RompLib/src/Segment.cpp:165-175 | each flag setter writes one bit of it |
| `SegmentWord.OffsetSpanWrites` | RompLib/src/Segment.cpp:92-96 | the joint setter writes the two fields |
| `SegmentWord.TypeExactly` | RompLib/src/Segment.cpp:243-245 | the type setter leaves the other fields alone and stores the type if and only if it need not clear a bit |
| `SegmentWord.GroupFields` | RompLib/src/Segment.cpp:107-116 | the halves of the task group word are independent and read back |
| `SegmentWord.TaskwaitPhaseExactly` | RompLib/src/Segment.cpp:136-146 | the phase reads back if and only if it has every bit of the one stored before |
| `SegmentWord.SameWordIsSameSegment` | RompLib/src/Segment.cpp:188-190 | comparing packed words, and workshare ids, is comparing the records the label proofs speak about |
| `LabelHeap.GenImpTaskLabel` | RompLib/src/Label.cpp:97-109 | the parent label with one segment more; ends the program on a span over 16 bits; the given label, which shares segments with the result, does not change |
| `LabelHeap.GenExpTaskLabel` | RompLib/src/Label.cpp:121-126 | the parent label with an explicit segment more; the given label, which shares segments with the result, does not change |
| `LabelHeap.MutateParentImpEnd` | RompLib/src/Label.cpp:128-132 | the label without its last segment; the given label, which shares segments with the result, does not change |
| `LabelHeap.MutateParentTaskCreate` | RompLib/src/Label.cpp:138-146 | the create count of the last segment plus one, within 15 bits; the given label, which shares segments with the result, does not change |
| `LabelHeap.MutateBarrierEnd` | RompLib/src/Label.cpp:153-164 | offset plus span, modulo 2^16, in the second last segment; the given label, which shares segments with the result, does not change |
| `LabelHeap.MutateTaskWait` | RompLib/src/Label.cpp:171-180 | the taskwait count of the last segment plus one, within 4 bits; the given label, which shares segments with the result, does not change |
| `LabelHeap.MutateOrderSection` | RompLib/src/Label.cpp:187-196 | the phase of the last segment plus one, within 4 bits; the given label, which shares segments with the result, does not change |
| `LabelHeap.MutateLoopBegin` | RompLib/src/Label.cpp:202-208 | a place holder segment more; the given label, which shares segments with the result, does not change |
| `LabelHeap.MutateLoopEnd` | RompLib/src/Label.cpp:215-225 | one segment less, and the loop count plus one; the given label, which shares segments with the result, does not change |
| `LabelHeap.MutateWorkShareDispatch` | RompLib/src/Label.cpp:302-310 | a new workshare segment in place of the last one; the given label, which shares segments with the result, does not change |
| `LabelHeap.MutateTaskGroupBegin` | RompLib/src/Label.cpp:325-337 | group id and level plus one, in 16 bits; the given label, which shares segments with the result, does not change |
| `LabelHeap.MutateTaskGroupEnd` | RompLib/src/Label.cpp:344-357 | group id plus one and level minus one, in 16 bits; the given label, which shares segments with the result, does not change |
| `LabelHeap.MutateTaskComplete` | RompLib/src/Label.cpp:364-373 | the label without its last segment, which must be explicit; the given label, which shares segments with the result, does not change |
| `LabelHeap.GenInitTaskLabel` | RompLib/src/Label.cpp:111-116 | a fresh label that stands for the initial one |
| `HeapRuns.OneAction` | RompLib/src/Callbacks.cpp:19-207 | the labels that the callbacks of an action make on the heap are those of the transition system |
| `HeapRuns.RunOnHeap` | RompLib/src/Callbacks.cpp:19-207 | a whole fork-join run on the heap: in the end every task, and every access recorded on the way, has the label of the transition system, although the segments are shared |
| `LabelHeap.Persist` | RompLib/src/Label.cpp:14-16 | after any sequence of operations, each applied to any label made before, all labels stand for what they stood for when they were made |
| `LabelHeap.MutateTaskGroupSyncChild` | RompLib/src/Label.cpp:379-384 | the exception: exactly the labels that hold the marked segment change, at the places where they hold it |

## Left out

- Explicit tasks, task groups, taskwait, ordered sections and worksharing in the transition system: it has implicit
  tasks only. `TaskGroups` and `Worksharing` decide every pair of labels that part in one task or in one team, by what the
  creator or the members have done; the marks on the segments further down are taken as they are, since the code writes
  taskwait marks to a segment that may already have been popped.
- `analyzeRaceCondition` asks the task dependence graph for two explicit tasks (RompLib/src/Core.cpp:56-67): in
  `AccessHistories` the answer is part of the order parameter; in `Detector` there are no explicit tasks.
- Team barriers in the transition system: the moment the runtime lets a team through is a step of its own; the last
  barrier of a region and the end of its implicit tasks are one step, so no access lies between them.
- `checkAccess` returns for the initial task before any check (RompLib/src/RompLib.cpp:159-162). The transition system
  lets every task access the location, so its theorems cover these runs and more; no concrete run has an access of the
  initial task.
- `ThreadsGiveKeys`: the threads of a run are a map from tasks to threads, with one running task to a thread. Lock set
  and reduction flag are those an access brings along; a change of them between two accesses is a callback.
- Memory recycling (`DataSharing.cpp`) and the classification of addresses as stack or shared: both flags are inputs of
  the check, what computes them is not modelled.
- Weak memory: every atomic operation of the lock and of the page table is one sequentially consistent step. Two reads
  of the same page-table entry in one expression are two steps.
- `CheckDataRace`: the history lock is not taken inside the method; `McsLock` shows that checks of one location exclude
  each other. Reporting, counters and line information are left out. The uninitialised local is a
  parameter; a thread without data is a null argument.
- The lazily allocated vector of records is an empty sequence; a fatal log or a failed check is an outcome that ends the
  run, not a state.
- `Persist`: allocation failure and reference counting are not modelled.
- `setTaskGroupPhase` is not modelled: no callback calls it, and it has the same fault as `setTaskwaitPhase`.
  `getTaskGroupPhase` reads the task group id instead of a phase, and `Core` does the same. The debug-only type check in
  `mutateWorkShareDispatch` is not modelled.
- `single` construct segments: appending and removing them adds easy members only; the flag bits are in `Core`.
- `HasPath`: for a task and itself it returns whether the task has an entry in the map, which earlier searches can
  create; only the answer for two different tasks is given a meaning.
- `AddDeps`: the number of a task is a field of the task; that tasks are numbered in order of creation is not needed.
- Instrumentation, OMPT and pthread queries, symbol lookup and reporting.
