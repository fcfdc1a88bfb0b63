/**
 Runs on which the detector is wrong: each is a fork-join run of one team of two on two threads, without an access of
 the initial task, and each shows one fault of the code with the duplicate filter and the keys of the threads in place.
 */
module DetectorFaults {
  import opened Labels
  import opened Strands
  import opened ForkJoin
  import opened Exactness
  import opened LockSets
  import opened AccessHistories
  import opened Pruning
  import opened ThreadFilter
  import opened Detector

  // ---- runs on two threads ----

  /** Root and master member on thread 0, the other member on thread 1. */
  function TwoThreads(task: nat): nat { if task == 2 then 1 else 0 }

  /** Two threads that have not run anything yet. */
  function FreshThreads(): map<nat, Thread<Label>> {
    var thread := Thread(0, Context(InitTaskLabel(), NoSet, false, false));
    map[0 := thread, 1 := thread]
  }

  /** A run with the callbacks its threads make besides (`bumps`). */
  datatype Execution = Execution(tr: seq<State<Info>>, acts: seq<Action<Info>>, bumps: seq<bool>) {

    ghost predicate Valid() {
      && RoomyRun(tr, acts)
      && |tr| == |acts| + 1
      && |bumps| == |acts|
      && RunsOn(tr, TwoThreads)
      && (forall i :: 0 <= i < |acts| && acts[i].Touch? ==> acts[i].task != 0)
    }

    ghost function Last(): State<Info>
      requires Valid()
    {
      tr[|acts|]
    }

    ghost function Seen(): Trace<Label>
      requires Valid()
    {
      ThreadTrace(tr, acts, TwoThreads, bumps, FreshThreads())
    }

    ghost function Accesses(): seq<Record<Label>>
      requires Valid()
    {
      Records(Last().accesses)
    }
  }

  /** The program reports a race: filter, flags and label test as coded; `junk` is what the uninitialised local
      holds. */
  ghost predicate Reports(e: Execution, junk: seq<bool>)
    requires e.Valid() && |junk| == |e.Seen().tags| == |e.Accesses()|
  {
    FilterRun(LabelCmp, e.Accesses(), e.Seen().tags, junk, false).history.raceFound
  }

  ghost predicate ReportsUnfiltered(e: Execution, junk: seq<bool>)
    requires e.Valid() && |junk| == |e.Accesses()|
  {
    RunHistory(LabelCmp, e.Accesses(), junk, false).raceFound
  }

  function MemberAt(offset: nat, i: nat): Label { [ImplicitSegment(offset, 1), ImplicitSegment(i, 2)] }

  /** The two threads, with their label ids and lock sets, in the phase that has `offset`. */
  function Contexts(m: nat, offset: nat, locks0: Locks, n: nat, locks1: Locks): map<nat, Thread<Label>> {
    map[0 := Thread(m, Context(MemberAt(offset, 0), locks0, false, false)),
        1 := Thread(n, Context(MemberAt(offset, 1), locks1, false, false))]
  }

  /** One team of two, whose members run on their threads. */
  ghost predicate TwoMembers(e: Execution, offset: nat) {
    && e.Valid()
    && var st := e.Last();
    && |st.tasks| == 3
    && st.tasks[0].home == Root && st.tasks[0].status == Forked(0)
    && st.tasks[1].home == Member(0, 0) && st.tasks[2].home == Member(0, 1)
    && st.tasks[1].status == Running && st.tasks[2].status == Running
    && st.tasks[1].lbl == MemberAt(offset, 0) && st.tasks[2].lbl == MemberAt(offset, 1)
    && st.teams == [Team(0, 2, 1)]
  }

  /** While the team is active the root does not run. */
  lemma TwoThreadsApart(st: State<Info>)
    requires st.teams == [Team(0, 2, 1)] && |st.tasks| == 3 && !st.tasks[0].status.Running?
    ensures OneAtATime(st, TwoThreads)
  {
  }

  lemma OneMoreState(tr: seq<State<Info>>, st: State<Info>)
    requires RunsOn(tr, TwoThreads) && OneAtATime(st, TwoThreads)
    ensures RunsOn(tr + [st], TwoThreads)
  {
    hide OneAtATime;
  }

  lemma TraceGrows(tr: seq<State<Info>>, acts: seq<Action<Info>>, bumps: seq<bool>, st: State<Info>, a: Action<Info>,
      bump: bool)
    requires IsRun(tr, acts) && IsRun(tr + [st], acts + [a]) && |tr| == |acts| + 1 && |bumps| == |acts|
    ensures Enabled(tr[|acts|], a)
    ensures ThreadTrace(tr + [st], acts + [a], TwoThreads, bumps + [bump], FreshThreads()) ==
      OnThreads(ThreadTrace(tr, acts, TwoThreads, bumps, FreshThreads()), tr[|acts|], a, TwoThreads, bump)
  {
    hide OnThreads, Enabled, ForkJoin.Apply;
    var n := |acts|;
    assert (tr + [st])[..n + 1] == tr && (acts + [a])[..n] == acts && (bumps + [bump])[..n] == bumps;
    assert (tr + [st])[n] == tr[n] && (acts + [a])[n] == a;
  }

  /** One more step, with an active team. */
  lemma Step(e: Execution, a: Action<Info>, bump: bool) returns (e': Execution)
    requires e.Valid() && Enabled(e.Last(), a) && HasRoom(e.Last(), a) && (a.Touch? ==> a.task != 0)
    requires var st := ForkJoin.Apply(e.Last(), a);
      st.teams == [Team(0, 2, 1)] && |st.tasks| == 3 && !st.tasks[0].status.Running?
    ensures e'.Valid() && e'.acts == e.acts + [a] && e'.Last() == ForkJoin.Apply(e.Last(), a)
    ensures e'.Seen() == OnThreads(e.Seen(), e.Last(), a, TwoThreads, bump)
  {
    hide IsRun, RunsOn, OneAtATime, Enabled, HasRoom, ForkJoin.Apply, OnThreads;
    var tr, acts := ExtendRun(e.tr, e.acts, a);
    TwoThreadsApart(tr[|acts|]);
    OneMoreState(e.tr, tr[|acts|]);
    TraceGrows(e.tr, e.acts, e.bumps, tr[|acts|], a, bump);
    e' := Execution(tr, acts, e.bumps + [bump]);
  }

  lemma Begin() returns (e: Execution)
    ensures e.Valid() && e.acts == [] && e.Last() == ForkJoin.Init(Bits16)
    ensures e.Seen() == Trace(FreshThreads(), [], []) && ThreadsStart(FreshThreads(), TwoThreads)
  {
    var tr, acts := StartRun(Bits16);
    e := Execution(tr, acts, []);
  }

  /** The team is forked and both members start. */
  lemma TeamOfTwo() returns (e: Execution)
    ensures TwoMembers(e, 0) && e.acts == [Fork(0, 2), Start(1), Start(2)] && e.Last().accesses == []
    ensures e.Seen() == Trace(Contexts(1, 0, NoSet, 1, NoSet), [], [])
  {
    hide Execution.Valid, Execution.Seen;
    e := Begin();
    e := Step(e, Fork(0, 2), false);
    assert e.Last().tasks == [Task(Root, Forked(0), InitTaskLabel(), 0), Task(Member(0, 0), NotStarted, [], 0),
        Task(Member(0, 1), NotStarted, [], 0)];
    assert e.Seen() == Trace(FreshThreads(), [], []);
    e := Step(e, Start(1), false);
    assert e.Last().tasks[1].lbl == MemberAt(0, 0);
    e := Step(e, Start(2), false);
    assert e.Last().tasks[2].lbl == MemberAt(0, 1);
    assert e.Seen().threads == Contexts(1, 0, NoSet, 1, NoSet);
  }

  /** A member touches the location. */
  lemma Touched(e: Execution, offset: nat, k: nat, info: Info, bump: bool) returns (e': Execution)
    requires TwoMembers(e, offset) && 1 <= k <= 2
    ensures TwoMembers(e', offset) && e'.acts == e.acts + [Touch(k, info)]
    ensures e'.Accesses() ==
      e.Accesses() + [Record(MemberAt(offset, k - 1), info.isWrite, info.locks, info.hwLock, info.inReduction, false)]
    ensures e'.Seen() ==
      ObserveOne(Prepare(e.Seen(), k - 1, info, bump), MemoryAccess(k - 1, info.isWrite, info.hwLock))
  {
    hide Execution.Valid, Execution.Seen, Prepare, ObserveOne;
    e' := Step(e, Touch(k, info), bump);
    assert e'.Last().tasks == e.Last().tasks;
  }

  lemma LabelsOfPhase(offset: nat)
    ensures LabelCmp(MemberAt(offset, 0), MemberAt(offset, 0)) == Same
    ensures LabelCmp(MemberAt(offset, 1), MemberAt(offset, 1)) == Same
    ensures LabelCmp(MemberAt(offset, 0), MemberAt(offset, 1)) == Parallel
    ensures LabelCmp(MemberAt(offset, 1), MemberAt(offset, 0)) == Parallel
  {
    SelfCmp(MemberAt(offset, 0));
    SelfCmp(MemberAt(offset, 1));
    AgreementUnique(MemberAt(offset, 0), MemberAt(offset, 1), 1);
    AgreementUnique(MemberAt(offset, 1), MemberAt(offset, 0), 1);
  }

  /** A pair that the race analysis would report is a race on the graph, if it is not a bare one. */
  lemma PairIsRace(e: Execution, offset: nat, i: nat, j: nat)
    requires TwoMembers(e, offset) && i < j < |e.Accesses()|
    requires RacePair(LabelCmp, e.Accesses()[i], e.Accesses()[j])
    requires !(e.Accesses()[i].hwLock && e.Accesses()[i].locks.NoSet?)
    requires !(e.Accesses()[j].hwLock && e.Accesses()[j].locks.NoSet?)
    ensures CleanRun(e.tr, e.acts) && OnGraph(e.Last()) && HasGraphRace(e.Last())
  {
    hide RoomyRun, LabelCmp, Reaches, RacePair, Clash, CleanRun;
    TeamsOfTwoAreClean(e.tr, e.acts);
    RacesIsGraphRaces(e.tr, e.acts);
    RaceIsGraphRace(e.tr, e.acts, i, j);
  }

  /** Both members pass the first barrier; each thread makes two callbacks. */
  lemma PassBarrier(e: Execution) returns (e': Execution)
    requires TwoMembers(e, 0)
    ensures TwoMembers(e', 1) && e'.Accesses() == e.Accesses()
    ensures e'.acts == e.acts + [Arrive(1), Arrive(2), Action.Release(0), Leave(1), Leave(2)]
    ensures 0 in e.Seen().threads && 1 in e.Seen().threads ==>
      e'.Seen() == e.Seen().(threads := e.Seen().threads[
        0 := Later(e.Seen().threads[0], MemberAt(1, 0))][1 := Later(e.Seen().threads[1], MemberAt(1, 1))])
  {
    hide Execution.Valid, Execution.Seen;
    e' := Step(e, Arrive(1), false);
    e' := Step(e', Arrive(2), false);
    assert TeamMeets(e'.Last(), 0);
    e' := Step(e', Action.Release(0), false);
    assert PastBarrier(e'.Last().tasks[1].lbl, Bits16) == MemberAt(1, 0);
    assert PastBarrier(e'.Last().tasks[2].lbl, Bits16) == MemberAt(1, 1);
    e' := Step(e', Leave(1), false);
    e' := Step(e', Leave(2), false);
  }

  /** A thread after two callbacks, the second of which has computed a label. */
  function Later(t: Thread<Label>, l: Label): Thread<Label> {
    Thread(t.labelId + 2, t.context.(lbl := l))
  }

  lemma LabelsAcross()
    ensures LabelCmp(MemberAt(0, 0), MemberAt(1, 0)) == Before
    ensures LabelCmp(MemberAt(0, 0), MemberAt(1, 1)) == Before
  {
    AgreementUnique(MemberAt(0, 0), MemberAt(1, 0), 0);
    AgreementUnique(MemberAt(0, 0), MemberAt(1, 1), 0);
  }

  lemma MissedRun() returns (e: Execution)
    ensures TwoMembers(e, 1) && e.acts == [Fork(0, 2), Start(1), Start(2)] +
      [Touch(1, Info(true, NoSet, false, false))] + [Arrive(1), Arrive(2), Action.Release(0), Leave(1), Leave(2)] +
      [Touch(1, Info(false, Held([5]), false, false)), Touch(2, Info(false, Held([5]), false, false)),
       Touch(2, Info(true, Held([]), false, false))]
    ensures e.Accesses() == StaleAccesses(MemberAt(0, 0), MemberAt(1, 0), MemberAt(1, 1))
    ensures e.Seen().tags == [Tag(0, true, 1), Tag(0, false, 4), Tag(1, false, 4), Tag(1, true, 5)]
  {
    hide Execution.Valid, Execution.Seen, Execution.Last;
    e := TeamOfTwo();
    e := Touched(e, 0, 1, Info(true, NoSet, false, false), false);
    assert e.Seen() == Trace(Contexts(1, 0, NoSet, 1, NoSet), [Tag(0, true, 1)], e.Seen().acc);
    e := PassBarrier(e);
    assert e.Seen() == Trace(Contexts(3, 1, NoSet, 3, NoSet), [Tag(0, true, 1)], e.Seen().acc);
    e := Touched(e, 1, 1, Info(false, Held([5]), false, false), false);
    assert e.Seen() == Trace(Contexts(4, 1, Held([5]), 3, NoSet), [Tag(0, true, 1), Tag(0, false, 4)], e.Seen().acc);
    e := Touched(e, 1, 2, Info(false, Held([5]), false, false), false);
    e := Touched(e, 1, 2, Info(true, Held([]), false, false), false);
  }

  /** The flags that survive: a member writes, both pass the barrier and read under one lock, and then the second one
      writes without it.  Flags set afresh for every record find the race. */
  lemma DetectorMissesRace() returns (e: Execution, junk: seq<bool>)
    ensures e.Valid() && e.acts == [Fork(0, 2), Start(1), Start(2)] + [Touch(1, Info(true, NoSet, false, false))] +
      [Arrive(1), Arrive(2), Action.Release(0), Leave(1), Leave(2)] +
      [Touch(1, Info(false, Held([5]), false, false)), Touch(2, Info(false, Held([5]), false, false)),
       Touch(2, Info(true, Held([]), false, false))]
    ensures CleanRun(e.tr, e.acts) && OnGraph(e.Last()) && HasGraphRace(e.Last())
    ensures |junk| == |e.Seen().tags| == |e.Accesses()| && !Reports(e, junk)
    ensures RunHistory(LabelCmp, e.Accesses(), junk, true).raceFound
  {
    hide Execution.Valid, Execution.Seen, LabelCmp, RunHistory, FilterRun, CleanRun, HasGraphRace, FairRun;
    e := MissedRun();
    junk := [false, false, false, false];
    LabelsOfPhase(1);
    LabelsAcross();
    PairIsRace(e, 1, 1, 3);
    StaleRun(LabelCmp, MemberAt(0, 0), MemberAt(1, 0), MemberAt(1, 1), junk);
    NothingFiltered(LabelCmp, e.Accesses(), e.Seen().tags, junk, false);
    UniformRunIsFair(LabelCmp, e.Accesses(), junk);
    DetectorIsExact(e.tr, e.acts, junk, true);
  }

  /** The pruning decision ignores the atomic bit: a task writes plainly and then, after a callback, atomically; the
      second write replaces the first, and the race of the first with an atomic write of the other task is lost. */
  lemma AtomicBitMissesRace() returns (e: Execution, junk: seq<bool>)
    ensures e.Valid() && e.acts == [Fork(0, 2), Start(1), Start(2)] +
      [Touch(1, Info(true, Held([]), false, false)), Touch(1, Info(true, Held([]), true, false)),
       Touch(2, Info(true, Held([]), true, false))]
    ensures CleanRun(e.tr, e.acts) && OnGraph(e.Last()) && HasGraphRace(e.Last())
    ensures |junk| == |e.Seen().tags| == |e.Accesses()| && !Reports(e, junk)
    ensures !RunHistory(LabelCmp, e.Accesses(), junk, true).raceFound
  {
    hide Execution.Valid, Execution.Seen, LabelCmp, RunHistory, FilterRun, CleanRun, HasGraphRace;
    var a, b := MemberAt(0, 0), MemberAt(0, 1);
    e := TeamOfTwo();
    e := Touched(e, 0, 1, Info(true, Held([]), false, false), false);
    e := Touched(e, 0, 1, Info(true, Held([]), true, false), true);
    e := Touched(e, 0, 2, Info(true, Held([]), true, false), false);
    junk := [false, false, false];
    assert e.Accesses() == AtomicBitAccesses(a, b);
    LabelsOfPhase(0);
    PairIsRace(e, 0, 0, 2);
    assert e.Seen().tags == [Tag(0, true, 2), Tag(0, true, 3), Tag(1, true, 2)];
    AtomicBitRun(LabelCmp, a, b, junk, false);
    AtomicBitRun(LabelCmp, a, b, junk, true);
    NothingFiltered(LabelCmp, e.Accesses(), e.Seen().tags, junk, false);
  }

  /** The uninitialised local: where it holds the code for equal labels when the second write under a lock is checked,
      that write is not recorded, and the unlocked write that races with it is not reported. */
  lemma UninitializedMissesRace() returns (e: Execution, junk: seq<bool>)
    ensures e.Valid() && e.acts == [Fork(0, 2), Start(1), Start(2)] +
      [Touch(1, Info(true, Held([5]), false, false)), Touch(2, Info(true, Held([5]), false, false)),
       Touch(1, Info(true, Held([]), false, false))]
    ensures CleanRun(e.tr, e.acts) && OnGraph(e.Last()) && HasGraphRace(e.Last())
    ensures |junk| == |e.Seen().tags| == |e.Accesses()| && !Reports(e, junk)
    ensures junk == [false, true, false] && Reports(e, [false, false, false])
  {
    hide Execution.Valid, Execution.Seen, LabelCmp, RunHistory, FilterRun, CleanRun, HasGraphRace;
    var a, b := MemberAt(0, 0), MemberAt(0, 1);
    e := TeamOfTwo();
    e := Touched(e, 0, 1, Info(true, Held([5]), false, false), false);
    e := Touched(e, 0, 2, Info(true, Held([5]), false, false), false);
    e := Touched(e, 0, 1, Info(true, Held([]), false, false), false);
    junk := [false, true, false];
    assert e.Accesses() == JunkAccesses(a, b);
    LabelsOfPhase(0);
    PairIsRace(e, 0, 1, 2);
    assert e.Seen().tags == [Tag(0, true, 2), Tag(1, true, 2), Tag(0, true, 3)];
    JunkRun(LabelCmp, a, b);
    JunkFreeRun(LabelCmp, a, b);
    NothingFiltered(LabelCmp, e.Accesses(), e.Seen().tags, junk, false);
    NothingFiltered(LabelCmp, e.Accesses(), e.Seen().tags, [false, false, false], false);
  }

  /** The filter and a reduction: a task writes, another one writes in a reduction, and the first one writes again, as
      a duplicate.  Only this third write is ever judged against the second. */
  lemma FilterMissesReductionRace() returns (e: Execution, junk: seq<bool>)
    ensures e.Valid() && e.acts == [Fork(0, 2), Start(1), Start(2)] +
      [Touch(1, Info(true, NoSet, false, false)), Touch(2, Info(true, NoSet, false, true)),
       Touch(1, Info(true, NoSet, false, false))]
    ensures CleanRun(e.tr, e.acts) && OnGraph(e.Last()) && HasGraphRace(e.Last())
    ensures |junk| == |e.Seen().tags| == |e.Accesses()| && !Reports(e, junk) && ReportsUnfiltered(e, junk)
  {
    hide Execution.Valid, Execution.Seen, LabelCmp, RunHistory, FilterRun, CleanRun, HasGraphRace;
    var a, b := MemberAt(0, 0), MemberAt(0, 1);
    e := TeamOfTwo();
    e := Touched(e, 0, 1, Info(true, NoSet, false, false), false);
    e := Touched(e, 0, 2, Info(true, NoSet, false, true), false);
    e := Touched(e, 0, 1, Info(true, NoSet, false, false), false);
    junk := [false, false, false];
    assert e.Accesses() == ReductionAccesses(a, b);
    LabelsOfPhase(0);
    PairIsRace(e, 0, 1, 2);
    assert e.Seen().tags == [Tag(0, true, 1), Tag(1, true, 2), Tag(0, true, 1)];
    ReductionFiltered(LabelCmp, a, b, 1, 2, false);
    ReductionUnfiltered(LabelCmp, a, b);
  }

  /** The filter and an atomic access: the plain write of a task is a duplicate of its atomic one, and only the plain
      one races with the atomic write of the other task. */
  lemma FilterMissesAtomicRace() returns (e: Execution, junk: seq<bool>)
    ensures e.Valid() && e.acts == [Fork(0, 2), Start(1), Start(2)] +
      [Touch(1, Info(true, Held([]), true, false)), Touch(1, Info(true, Held([]), false, false)),
       Touch(2, Info(true, Held([]), true, false))]
    ensures CleanRun(e.tr, e.acts) && OnGraph(e.Last()) && HasGraphRace(e.Last())
    ensures |junk| == |e.Seen().tags| == |e.Accesses()| && !Reports(e, junk) && ReportsUnfiltered(e, junk)
  {
    hide Execution.Valid, Execution.Seen, LabelCmp, RunHistory, FilterRun, CleanRun, HasGraphRace;
    var a, b := MemberAt(0, 0), MemberAt(0, 1);
    e := TeamOfTwo();
    e := Touched(e, 0, 1, Info(true, Held([]), true, false), false);
    e := Touched(e, 0, 1, Info(true, Held([]), false, false), false);
    e := Touched(e, 0, 2, Info(true, Held([]), true, false), false);
    junk := [false, false, false];
    assert e.Accesses() == AtomicAccesses(a, b);
    LabelsOfPhase(0);
    PairIsRace(e, 0, 1, 2);
    assert e.Seen().tags == [Tag(0, true, 2), Tag(0, true, 2), Tag(1, true, 2)];
    AtomicFiltered(LabelCmp, a, b, 2, 2, false);
    AtomicUnfiltered(LabelCmp, a, b, false);
  }

  /** Two atomic writes of tasks that have never held a lock are reported, although the graph has no race. */
  lemma DetectorReportsAtomics() returns (e: Execution, junk: seq<bool>)
    ensures e.Valid() && e.acts == [Fork(0, 2), Start(1), Start(2)] +
      [Touch(1, Info(true, NoSet, true, false)), Touch(2, Info(true, NoSet, true, false))]
    ensures CleanRun(e.tr, e.acts) && OnGraph(e.Last()) && !HasGraphRace(e.Last())
    ensures |junk| == |e.Seen().tags| == |e.Accesses()| && Reports(e, junk)
  {
    hide Execution.Valid, Execution.Seen, LabelCmp, CleanRun, FilterRun, RunHistory;
    e := TeamOfTwo();
    e := Touched(e, 0, 1, Info(true, NoSet, true, false), false);
    e := Touched(e, 0, 2, Info(true, NoSet, true, false), false);
    junk := [false, false];
    LabelsOfPhase(0);
    NoOtherPair(e);
    assert e.Seen().tags == [Tag(0, true, 1), Tag(1, true, 1)];
    BothRecorded(LabelCmp, e.Accesses());
    NothingFiltered(LabelCmp, e.Accesses(), e.Seen().tags, junk, false);
  }

  lemma NoOtherPair(e: Execution)
    requires TwoMembers(e, 0) && |e.Accesses()| == 2
    requires forall i :: 0 <= i < 2 ==> e.Accesses()[i].hwLock
    ensures CleanRun(e.tr, e.acts) && OnGraph(e.Last()) && !HasGraphRace(e.Last())
  {
    hide RoomyRun, LabelCmp, Reaches, Clash, CleanRun;
    TeamsOfTwoAreClean(e.tr, e.acts);
    RacesIsGraphRaces(e.tr, e.acts);
  }

  lemma BothRecorded<L>(cmp: (L, L) -> Order, acc: seq<Record<L>>)
    requires |acc| == 2 && RacePair(cmp, acc[0], acc[1])
    ensures RunHistory(cmp, acc, [false, false], false).raceFound
  {
    hide Scan;
    assert acc[..2] == acc && acc[..0] == [];
    PrefixRun(cmp, acc, [false, false], 1, false);
    PrefixRun(cmp, acc, [false, false], 2, false);
    ScanOne(cmp, acc[0], acc[1], RESET, false);
  }
}
