/**
 The detector as a whole: label test, pruned history and duplicate filter, against the strand graph.

 For every clean fork-join run and every location, the race flag is set exactly if two conflicting, unprotected accesses
 lie on strands with no path between them, or two atomic ones of which one task has no lock set.  A run is clean if the
 label test is exact on its accesses: while no offset wraps, exactly if no two of them part in a team of one.  Nothing
 is assumed of the keys of the filter.
 */
module Detector {
  import opened Labels
  import opened Core
  import opened LabelOrder
  import opened Strands
  import opened ForkJoin
  import opened Exactness
  import opened LongRuns
  import opened LockSets
  import opened AccessHistories
  import opened Pruning
  import opened ThreadFilter

  /** What an access to the location brings along besides its label. */
  datatype Info = Info(isWrite: bool, locks: Locks, hwLock: bool, inReduction: bool)

  /** The label test, as the race analysis uses it for implicit tasks. */
  function LabelCmp(hist: Label, cur: Label): Order {
    if Compare(hist, cur) == RIGHT_IS_PREFIX then RightPrefix
    else if HappensBefore(hist, cur) == Ordered then (if Compare(hist, cur) == SAME_LABEL then Same else Before)
    else Parallel
  }

  function RecordOf(a: ForkJoin.Access<Info>): Record<Label> {
    Record(a.lbl, a.info.isWrite, a.info.locks, a.info.hwLock, a.info.inReduction, false)
  }

  function Records(acc: seq<ForkJoin.Access<Info>>): (r: seq<Record<Label>>)
    ensures |r| == |acc| && forall i :: 0 <= i < |acc| ==> r[i] == RecordOf(acc[i])
  {
    seq(|acc|, i requires 0 <= i < |acc| => RecordOf(acc[i]))
  }

  /** What protects two accesses from each other: a lock that both hold, or that both are atomic instructions. */
  predicate Protected(a: Info, b: Info) {
    (a.locks.Held? && b.locks.Held? && LockSets.Common(a.locks.locks, b.locks.locks)) || (a.hwLock && b.hwLock)
  }

  /** The code looks at the atomic bits only if both tasks have a lock set. */
  predicate Bare(a: Info, b: Info) {
    a.hwLock && b.hwLock && (a.locks.NoSet? || b.locks.NoSet?)
  }

  /** The coded test and the definition of protection agree on exactly those pairs that are not bare. */
  lemma ExclusionExactly(a: ForkJoin.Access<Info>, b: ForkJoin.Access<Info>)
    ensures (MutuallyExclusive(RecordOf(a), RecordOf(b)) <==> Protected(a.info, b.info)) <==> !Bare(a.info, b.info)
    ensures MutuallyExclusive(RecordOf(a), RecordOf(b)) ==> Protected(a.info, b.info)
  {
  }

  /** Conflicting accesses, with no path either way; the later one is not part of a reduction. */
  ghost predicate Clash(g: Graph, a: ForkJoin.Access<Info>, b: ForkJoin.Access<Info>)
    requires a.strand < |g| && b.strand < |g|
  {
    && (a.info.isWrite || b.info.isWrite)
    && !b.info.inReduction
    && !Reaches(g, a.strand, b.strand)
    && !Reaches(g, b.strand, a.strand)
  }

  /** The definition of a race, on the graph. */
  ghost predicate GraphRace(g: Graph, a: ForkJoin.Access<Info>, b: ForkJoin.Access<Info>)
    requires a.strand < |g| && b.strand < |g|
  {
    Clash(g, a, b) && !Protected(a.info, b.info)
  }

  /** A run of the program, of any length, on whose accesses the label test is exact: the order of each two of them
      survives the cut to 16 bits, and they do not part in a team of one, where the internal check would end the
      program. */
  ghost predicate CleanRun(tr: seq<State<Info>>, acts: seq<Action<Info>>) {
    exists un :: Unwraps(un, tr, acts) && AllKept(un, acts)
  }

  /** `un` is the run with unbounded offsets. */
  ghost predicate AllKept(un: seq<State<Info>>, acts: seq<Action<Info>>)
    requires IsRun(un, acts)
  {
    var acc := un[|acts|].accesses;
    forall i, j :: 0 <= i < j < |acc| ==> Kept(acc[i].lbl, acc[j].lbl)
  }

  /** While no offset wraps, a run is clean exactly if no two accesses part in a team of one. */
  lemma RoomyRunIsCleanExactly(tr: seq<State<Info>>, acts: seq<Action<Info>>)
    requires RoomyRun(tr, acts)
    ensures var acc := tr[|acts|].accesses;
      CleanRun(tr, acts) <==> forall i, j :: 0 <= i < j < |acc| ==> !PartInTeamOfOne(acc[i].lbl, acc[j].lbl)
  {
    UnboundRun(tr, acts);
    hide HasRoom, PartInTeamOfOne, Kept;
    var acc := tr[|acts|].accesses;
    forall i, j | 0 <= i < j < |acc|
      ensures Kept(acc[i].lbl, acc[j].lbl) <==> !PartInTeamOfOne(acc[i].lbl, acc[j].lbl)
    {
      RoomyIsKept(tr, acts, |acts|, i, j);
    }
    assert Unwraps(Unbound(tr), tr, acts);
    assert Unbound(tr)[|acts|].accesses == acc;
    if un :| Unwraps(un, tr, acts) && AllKept(un, acts) {
      UnwrapUnique(un, Unbound(tr), tr, acts, |acts|);
      assert un[|acts|] == Unbound(tr)[|acts|];
    } else {
      assert !AllKept(Unbound(tr), acts);
    }
  }

  /** Teams of at least two are enough. */
  lemma TeamsOfTwoAreClean(tr: seq<State<Info>>, acts: seq<Action<Info>>)
    requires RoomyRun(tr, acts) && TeamsOfTwo(tr[|acts|])
    ensures CleanRun(tr, acts)
  {
    hide HasRoom, HappensBefore, PartInTeamOfOne, Reaches, Compare, CleanRun;
    RoomyRunIsCleanExactly(tr, acts);
    var acc := tr[|acts|].accesses;
    forall i, j | 0 <= i < j < |acc|
      ensures !PartInTeamOfOne(acc[i].lbl, acc[j].lbl)
    {
      LabelsExact(tr, acts, |acts|, i, j);
      LabelsExactTeams(tr, acts, |acts|, i, j);
    }
  }

  /** The label test on two accesses of a run, in observed order, against the graph. */
  lemma CmpIsPath(tr: seq<State<Info>>, acts: seq<Action<Info>>, i: nat, j: nat)
    requires CleanRun(tr, acts)
    requires i < j < |tr[|acts|].accesses|
    ensures var g, a, b := tr[|acts|].strands, tr[|acts|].accesses[i], tr[|acts|].accesses[j];
      && a.strand < |g|
      && b.strand < |g|
      && LabelCmp(a.lbl, b.lbl) != RightPrefix
      && (LabelCmp(a.lbl, b.lbl) == Parallel <==> !Reaches(g, a.strand, b.strand))
      && (LabelCmp(a.lbl, b.lbl) == Same <==> a.strand == b.strand)
      && (Reaches(g, b.strand, a.strand) ==> a.strand == b.strand)
  {
    hide Enabled, ForkJoin.Apply, HappensBefore, Reaches, Compare, Kept;
    var un :| Unwraps(un, tr, acts) && AllKept(un, acts);
    LongRunsExactly(un, tr, acts, |acts|, i, j);
    KeptExactly(un, tr, acts, |acts|, i, j);
    var g, a, b := tr[|acts|].strands, tr[|acts|].accesses[i], tr[|acts|].accesses[j];
    if a.strand == b.strand {
      ReachesItself(g, a.strand);
    }
  }

  lemma ReachesItself(g: Graph, u: nat)
    requires u < |g|
    ensures Reaches(g, u, u)
  {
  }

  lemma {:induction false} ReachesTrans(g: Graph, u: nat, v: nat, w: nat)
    requires v < |g| && w < |g| && Reaches(g, u, v) && Reaches(g, v, w)
    ensures Reaches(g, u, w)
    decreases w
  {
    if v != w {
      var p :| p in g[w].preds && p < w && Reaches(g, v, p);
      ReachesTrans(g, u, v, p);
    }
  }

  /** The label test satisfies what the pruning and the filter ask of it. */
  lemma CmpIsOrder(tr: seq<State<Info>>, acts: seq<Action<Info>>)
    requires CleanRun(tr, acts)
    ensures OrderOk(LabelCmp, Records(tr[|acts|].accesses))
    ensures SelfSame(LabelCmp, Records(tr[|acts|].accesses))
  {
    var st := tr[|acts|];
    hide CleanRun, LabelCmp, Reaches;
    var recs := Records(st.accesses);
    forall i, j | 0 <= i < j < |recs|
      ensures LabelCmp(recs[i].lbl, recs[j].lbl) != RightPrefix
    {
      CmpIsPath(tr, acts, i, j);
    }
    forall i, j, k | 0 <= i < j < k < |recs|
      ensures HB(LabelCmp, recs[i], recs[j]) && HB(LabelCmp, recs[j], recs[k]) ==> HB(LabelCmp, recs[i], recs[k])
      ensures LabelCmp(recs[i].lbl, recs[j].lbl) == Same ==>
        (HB(LabelCmp, recs[i], recs[k]) <==> HB(LabelCmp, recs[j], recs[k]))
    {
      CmpIsPath(tr, acts, i, j);
      CmpIsPath(tr, acts, j, k);
      CmpIsPath(tr, acts, i, k);
      if HB(LabelCmp, recs[i], recs[j]) && HB(LabelCmp, recs[j], recs[k]) {
        ReachesTrans(st.strands, st.accesses[i].strand, st.accesses[j].strand, st.accesses[k].strand);
      }
    }
    forall i | 0 <= i < |recs|
      ensures LabelCmp(recs[i].lbl, recs[i].lbl) == Same
    {
      SelfCmp(recs[i].lbl);
    }
  }

  lemma SelfCmp(l: Label)
    ensures LabelCmp(l, l) == Same
  {
    AgreementUnique(l, l, |l|);
  }

  /** What the race analysis finds is a race on the graph, or a bare pair. */
  lemma RaceIsGraphRace(tr: seq<State<Info>>, acts: seq<Action<Info>>, i: nat, j: nat)
    requires CleanRun(tr, acts)
    requires i < j < |tr[|acts|].accesses|
    ensures var g, a, b := tr[|acts|].strands, tr[|acts|].accesses[i], tr[|acts|].accesses[j];
      && a.strand < |g| && b.strand < |g|
      && (RacePair(LabelCmp, RecordOf(a), RecordOf(b))
          <==> GraphRace(g, a, b) || (Clash(g, a, b) && Bare(a.info, b.info)))
  {
    ExclusionExactly(tr[|acts|].accesses[i], tr[|acts|].accesses[j]);
    hide CleanRun, LabelCmp, Reaches;
    CmpIsPath(tr, acts, i, j);
  }

  ghost predicate OnGraph(st: State<Info>) {
    forall i :: 0 <= i < |st.accesses| ==> st.accesses[i].strand < |st.strands|
  }

  ghost predicate HasGraphRace(st: State<Info>)
    requires OnGraph(st)
  {
    exists i, j :: 0 <= i < j < |st.accesses| && GraphRace(st.strands, st.accesses[i], st.accesses[j])
  }

  /** Two atomic accesses clash, and one of the tasks has never held a lock. */
  ghost predicate HasBareClash(st: State<Info>)
    requires OnGraph(st)
  {
    exists i, j :: 0 <= i < j < |st.accesses| && Clash(st.strands, st.accesses[i], st.accesses[j]) &&
      Bare(st.accesses[i].info, st.accesses[j].info)
  }

  lemma AccessesOnGraph(tr: seq<State<Info>>, acts: seq<Action<Info>>)
    requires CleanRun(tr, acts)
    ensures OnGraph(tr[|acts|])
  {
    var un :| Unwraps(un, tr, acts) && AllKept(un, acts);
    RunIsCut(un, tr, acts, |acts|);
    RunInv(un, acts, |acts|);
    hide Inv;
  }

  lemma RacesIsGraphRaces(tr: seq<State<Info>>, acts: seq<Action<Info>>)
    requires CleanRun(tr, acts)
    ensures OnGraph(tr[|acts|])
    ensures Races(LabelCmp, Records(tr[|acts|].accesses)) <==> HasGraphRace(tr[|acts|]) || HasBareClash(tr[|acts|])
  {
    var st := tr[|acts|];
    AccessesOnGraph(tr, acts);
    hide CleanRun, LabelCmp, Reaches, Inv, GraphRace, Clash, RacePair;
    var recs := Records(st.accesses);
    forall i, j | 0 <= i < j < |recs|
      ensures var a, b := st.accesses[i], st.accesses[j];
        RacePair(LabelCmp, recs[i], recs[j])
        <==> GraphRace(st.strands, a, b) || (Clash(st.strands, a, b) && Bare(a.info, b.info))
    {
      RaceIsGraphRace(tr, acts, i, j);
    }
  }

  /** End to end: over every clean run, the pruned history of the location has its race flag set
      exactly if the graph has a race or a bare clash.  With `reset` the flags of the analysis start afresh at every
      record; the code as it is needs a run on which no decision rests on stale flags. */
  lemma {:induction false} DetectorIsExact(tr: seq<State<Info>>, acts: seq<Action<Info>>, junk: seq<bool>, reset: bool)
    requires CleanRun(tr, acts) && |junk| == |tr[|acts|].accesses|
    requires FairRun(LabelCmp, Records(tr[|acts|].accesses), junk)
    requires reset || UnstaleRun(LabelCmp, Records(tr[|acts|].accesses), junk)
    ensures OnGraph(tr[|acts|])
    ensures RunHistory(LabelCmp, Records(tr[|acts|].accesses), junk, reset).raceFound
      <==> HasGraphRace(tr[|acts|]) || HasBareClash(tr[|acts|])
  {
    var recs := Records(tr[|acts|].accesses);
    hide CleanRun, LabelCmp, RunHistory, Races, HasGraphRace, HasBareClash, OrderOk, FairRun;
    CmpIsOrder(tr, acts);
    RacesIsGraphRaces(tr, acts);
    if reset {
      PruningLosesNothing(LabelCmp, recs, junk);
    } else {
      CodedPruningLosesNothing(LabelCmp, recs, junk);
    }
  }

  // ---- the threads of a run ----

  /** The runtime runs one task at a time on a thread, and the master member of a team on the thread of the encountering
      task. */
  ghost predicate RunsOn(tr: seq<State<Info>>, owner: nat -> nat) {
    forall i :: 0 <= i < |tr| ==> OneAtATime(tr[i], owner)
  }

  ghost predicate OneAtATime(st: State<Info>, owner: nat -> nat) {
    && (forall t, u ::
          (0 <= t < |st.tasks| && 0 <= u < |st.tasks| && st.tasks[t].status.Running? && st.tasks[u].status.Running?) ==>
          (owner(t) == owner(u) ==> t == u))
    && (forall k :: 0 <= k < |st.teams| ==> owner(st.teams[k].first) == owner(st.teams[k].parent))
  }

  /** Every thread exists; the initial task is about to run on its thread. */
  ghost predicate ThreadsStart(initial: map<nat, Thread<Label>>, owner: nat -> nat) {
    && (forall t: nat :: owner(t) in initial)
    && initial[owner(0)].context.lbl == InitTaskLabel()
  }

  /** A callback on the thread: a new label id, and the label the callback has computed. */
  function Announce(t: Trace<Label>, th: nat, l: Label): Trace<Label> {
    if th in t.threads then ObserveOne(t, Callback(th, t.threads[th].context.(lbl := l))) else t
  }

  /** Lock set and reduction flag change in callbacks only; `bump` says that some other callback came before. */
  function Prepare(t: Trace<Label>, th: nat, info: Info, bump: bool): Trace<Label> {
    if th !in t.threads then t
    else
      var c := t.threads[th].context;
      var c' := Context(c.lbl, info.locks, info.inReduction, false);
      if bump || c' != c then ObserveOne(t, Callback(th, c')) else t
  }

  /** What the step of the run is on the threads: callbacks, and for a touch the access. */
  function OnThreads(t: Trace<Label>, st: State<Info>, a: Action<Info>, owner: nat -> nat, bump: bool): Trace<Label>
    requires Enabled(st, a)
  {
    match a
    case Start(k) => Announce(t, owner(k), ForkJoin.Apply(st, a).tasks[k].lbl)
    case Arrive(k) => Announce(t, owner(k), st.tasks[k].lbl)
    case Leave(k) => Announce(t, owner(k), ForkJoin.Apply(st, a).tasks[k].lbl)
    case Join(team) => Announce(t, owner(st.teams[team].first), AfterTeam(st, team))
    case Touch(k, info) => ObserveOne(Prepare(t, owner(k), info, bump),
        MemoryAccess(owner(k), info.isWrite, info.hwLock))
    case _ => t
  }

  /** The run as its threads see it: the accesses with their keys. */
  ghost function ThreadTrace(tr: seq<State<Info>>, acts: seq<Action<Info>>, owner: nat -> nat, bumps: seq<bool>,
      initial: map<nat, Thread<Label>>): Trace<Label>
    requires IsRun(tr, acts) && |bumps| == |acts|
    decreases |acts|
  {
    if |acts| == 0 then Trace(initial, [], [])
    else
      var n := |acts| - 1;
      OnThreads(ThreadTrace(tr[..n + 1], acts[..n], owner, bumps[..n], initial), tr[n], acts[n], owner, bumps[n])
  }

  /** The context of a thread has the label of the task that runs on it, and the accesses are those of the run. */
  ghost predicate InContext(t: Trace<Label>, st: State<Info>, owner: nat -> nat) {
    && TraceInv(t)
    && (forall k: nat :: owner(k) in t.threads)
    && (forall k :: 0 <= k < |st.tasks| && st.tasks[k].status.Running? ==>
        t.threads[owner(k)].context.lbl == st.tasks[k].lbl)
    && t.acc == Records(st.accesses)
  }

  lemma AnnounceKeeps(t: Trace<Label>, st: State<Info>, st': State<Info>, owner: nat -> nat, k: nat, l: Label)
    requires InContext(t, st, owner) && st'.accesses == st.accesses
    requires forall u :: 0 <= u < |st'.tasks| && st'.tasks[u].status.Running? ==>
      if owner(u) == owner(k) then st'.tasks[u].lbl == l
      else u < |st.tasks| && st.tasks[u].status.Running? && st'.tasks[u].lbl == st.tasks[u].lbl
    ensures InContext(Announce(t, owner(k), l), st', owner)
  {
    ObserveOneInv(t, Callback(owner(k), t.threads[owner(k)].context.(lbl := l)));
    hide TraceInv;
  }

  lemma TouchKeeps(t: Trace<Label>, st: State<Info>, owner: nat -> nat, k: nat, info: Info, bump: bool)
    requires InContext(t, st, owner) && Enabled(st, Touch(k, info))
    ensures InContext(OnThreads(t, st, Touch(k, info), owner, bump), ForkJoin.Apply(st, Touch(k, info)), owner)
  {
    var th := owner(k);
    var c := t.threads[th].context;
    ObserveOneInv(t, Callback(th, Context(c.lbl, info.locks, info.inReduction, false)));
    var t' := Prepare(t, th, info, bump);
    ObserveOneInv(t', MemoryAccess(th, info.isWrite, info.hwLock));
    hide TraceInv;
    assert Records(st.accesses + [ForkJoin.Access(st.tasks[k].strand, st.tasks[k].lbl, info)]) ==
      Records(st.accesses) + [RecordOf(ForkJoin.Access(st.tasks[k].strand, st.tasks[k].lbl, info))];
  }

  lemma EnterKeeps(t: Trace<Label>, st: State<Info>, k: nat, l: Label, owner: nat -> nat)
    requires InContext(t, st, owner) && IsMember(st, k) && ParentOf(st, k) < |st.tasks|
    requires OneAtATime(EnterPhase(st, k, l), owner)
    ensures InContext(Announce(t, owner(k), l), EnterPhase(st, k, l), owner)
  {
    hide InContext;
    var st' := EnterPhase(st, k, l);
    assert st'.tasks[k].status.Running?;
    AnnounceKeeps(t, st, st', owner, k, l);
  }

  lemma StepInContext(t: Trace<Label>, st: State<Info>, a: Action<Info>, owner: nat -> nat, bump: bool)
    requires Shape(st) && InContext(t, st, owner) && Enabled(st, a)
    requires OneAtATime(st, owner) && OneAtATime(ForkJoin.Apply(st, a), owner)
    ensures InContext(OnThreads(t, st, a, owner, bump), ForkJoin.Apply(st, a), owner)
  {
    var st' := ForkJoin.Apply(st, a);
    hide InContext, Announce, PastBarrier, ImpTaskLabel, AfterTeam, Shape;
    match a
    case Start(k) => EnterKeeps(t, st, k, st'.tasks[k].lbl, owner);
    case Arrive(k) => AnnounceKeeps(t, st, st', owner, k, st.tasks[k].lbl);
    case Leave(k) => EnterKeeps(t, st, k, st'.tasks[k].lbl, owner);
    case Join(team) =>
      JoinRunning(st, team, owner);
      AnnounceKeeps(t, st, st', owner, st.teams[team].first, AfterTeam(st, team));
    case Touch(k, info) => TouchKeeps(t, st, owner, k, info, bump);
    case _ => QuietKeeps(t, st, st', owner);
  }

  lemma JoinRunning(st: State<Info>, team: nat, owner: nat -> nat)
    requires Shape(st) && TeamMeets(st, team) && OneAtATime(st, owner) &&
        OneAtATime(ForkJoin.Apply(st, Join(team)), owner)
    ensures var st' := ForkJoin.Apply(st, Join(team));
      forall u :: 0 <= u < |st'.tasks| && st'.tasks[u].status.Running? ==>
        if owner(u) == owner(st.teams[team].first) then st'.tasks[u].lbl == AfterTeam(st, team)
        else u < |st.tasks| && st.tasks[u].status.Running? && st'.tasks[u].lbl == st.tasks[u].lbl
  {
    var st', p := ForkJoin.Apply(st, Join(team)), st.teams[team].parent;
    ParentNotMember(st, team);
    hide AfterTeam, Shape;
    assert st'.tasks[p].status.Running?;
    forall u | 0 <= u < |st'.tasks| && st'.tasks[u].status.Running?
      ensures if owner(u) == owner(st.teams[team].first) then st'.tasks[u].lbl == AfterTeam(st, team)
        else u < |st.tasks| && st.tasks[u].status.Running? && st'.tasks[u].lbl == st.tasks[u].lbl
    {
      assert owner(st.teams[team].first) == owner(p);
      if u != p {
        assert st'.tasks[u] == st.tasks[u];
      }
    }
  }

  lemma QuietKeeps(t: Trace<Label>, st: State<Info>, st': State<Info>, owner: nat -> nat)
    requires InContext(t, st, owner) && st'.accesses == st.accesses
    requires forall u :: 0 <= u < |st'.tasks| && st'.tasks[u].status.Running? ==>
      u < |st.tasks| && st.tasks[u].status.Running? && st'.tasks[u].lbl == st.tasks[u].lbl
    ensures InContext(t, st', owner)
  {
    hide TraceInv;
  }

  lemma {:induction false} ThreadsInContext(tr: seq<State<Info>>, acts: seq<Action<Info>>, owner: nat -> nat,
      bumps: seq<bool>, initial: map<nat, Thread<Label>>)
    requires IsRun(tr, acts) && |bumps| == |acts| && RunsOn(tr, owner) && ThreadsStart(initial, owner)
    ensures InContext(ThreadTrace(tr, acts, owner, bumps, initial), tr[|acts|], owner)
    decreases |acts|
  {
    if |acts| > 0 {
      var n := |acts| - 1;
      PrefixRunsOn(tr, acts, owner);
      ThreadsInContext(tr[..n + 1], acts[..n], owner, bumps[..n], initial);
      RunShape(tr, acts, n);
      hide InContext, OnThreads, RunsOn;
      StepInContext(ThreadTrace(tr[..n + 1], acts[..n], owner, bumps[..n], initial), tr[n], acts[n], owner, bumps[n]);
    }
  }

  lemma PrefixRunsOn(tr: seq<State<Info>>, acts: seq<Action<Info>>, owner: nat -> nat)
    requires IsRun(tr, acts) && |acts| > 0 && RunsOn(tr, owner)
    ensures IsRun(tr[..|acts|], acts[..|acts| - 1]) && RunsOn(tr[..|acts|], owner)
    ensures OneAtATime(tr[|acts| - 1], owner) && OneAtATime(tr[|acts|], owner)
    ensures tr[|acts|] == ForkJoin.Apply(tr[|acts| - 1], acts[|acts| - 1])
  {
    hide OneAtATime, Enabled, ForkJoin.Apply;
    var n := |acts| - 1;
    assert tr[n + 1] == ForkJoin.Apply(tr[n], acts[n]);
  }

  /** Two accesses of one thread under one label id were made by one task in one context: the keys of the filter. */
  lemma ThreadsGiveKeys(tr: seq<State<Info>>, acts: seq<Action<Info>>, owner: nat -> nat, bumps: seq<bool>,
      initial: map<nat, Thread<Label>>)
    requires IsRun(tr, acts) && |bumps| == |acts| && RunsOn(tr, owner) && ThreadsStart(initial, owner)
    ensures var t := ThreadTrace(tr, acts, owner, bumps, initial);
      t.acc == Records(tr[|acts|].accesses) && KeysDetermine(t.tags, t.acc) && LabelIdsRise(t.tags)
  {
    ThreadsInContext(tr, acts, owner, bumps, initial);
    hide ThreadTrace, KeysDetermine, LabelIdsRise;
  }

  // ---- the detector with the filter ----

  /** Nothing comes strictly between two accesses made under one label. */
  lemma NothingBetweenInRun(tr: seq<State<Info>>, acts: seq<Action<Info>>, tags: seq<Tag>)
    requires CleanRun(tr, acts)
    requires KeysDetermine(tags, Records(tr[|acts|].accesses))
    ensures UninterruptedContext(LabelCmp, Records(tr[|acts|].accesses), tags)
  {
    var st := tr[|acts|];
    hide CleanRun, LabelCmp, Reaches;
    var recs := Records(st.accesses);
    forall p, q, r | 0 <= p < q < r < |recs| && tags[p].thread == tags[r].thread &&
        tags[p].labelId == tags[r].labelId && HB(LabelCmp, recs[p], recs[q])
      ensures HB(LabelCmp, recs[q], recs[r])
    {
      CmpIsPath(tr, acts, p, q);
      CmpIsPath(tr, acts, q, r);
      CmpIsPath(tr, acts, p, r);
      assert SameContext(recs[p], recs[r]);
      SelfCmp(recs[p].lbl);
    }
  }

  /** A race or a bare clash that the filter does not lose. */
  ghost predicate HasKeptRace(st: State<Info>, tags: seq<Tag>)
    requires OnGraph(st) && |tags| == |st.accesses|
  {
    exists i, j :: 0 <= i < j < |st.accesses| && !Lost(Records(st.accesses), tags, i, j) &&
      var a, b := st.accesses[i], st.accesses[j];
      GraphRace(st.strands, a, b) || (Clash(st.strands, a, b) && Bare(a.info, b.info))
  }

  lemma KeptIsKeptRace(tr: seq<State<Info>>, acts: seq<Action<Info>>, tags: seq<Tag>)
    requires CleanRun(tr, acts) && |tags| == |tr[|acts|].accesses|
    ensures OnGraph(tr[|acts|])
    ensures RaceKept(LabelCmp, Records(tr[|acts|].accesses), tags) <==> HasKeptRace(tr[|acts|], tags)
  {
    var st := tr[|acts|];
    RacesIsGraphRaces(tr, acts);
    hide CleanRun, LabelCmp, Reaches, GraphRace, Clash, RacePair, Lost, HasGraphRace, HasBareClash;
    var recs := Records(st.accesses);
    forall i, j | 0 <= i < j < |recs|
      ensures var a, b := st.accesses[i], st.accesses[j];
        RacePair(LabelCmp, recs[i], recs[j])
        <==> GraphRace(st.strands, a, b) || (Clash(st.strands, a, b) && Bare(a.info, b.info))
    {
      RaceIsGraphRace(tr, acts, i, j);
    }
  }

  /** End to end with the duplicate filter in front, under the keys of the threads: the race flag is set exactly if the
      graph has a race or a bare clash that the filter does not lose. */
  lemma {:induction false} FilteredDetectorIsExact(tr: seq<State<Info>>, acts: seq<Action<Info>>, owner: nat -> nat,
      bumps: seq<bool>, initial: map<nat, Thread<Label>>, junk: seq<bool>, reset: bool)
    requires CleanRun(tr, acts) && |bumps| == |acts| && |junk| == |tr[|acts|].accesses|
    requires RunsOn(tr, owner) && ThreadsStart(initial, owner)
    requires var tags, recs := ThreadTrace(tr, acts, owner, bumps, initial).tags, Records(tr[|acts|].accesses);
      |tags| == |recs| ==>
        && FairRun(LabelCmp, Select(recs, Passing(tags)), Select(junk, Passing(tags)))
        && (reset || UnstaleRun(LabelCmp, Select(recs, Passing(tags)), Select(junk, Passing(tags))))
    ensures var st, tags := tr[|acts|], ThreadTrace(tr, acts, owner, bumps, initial).tags;
      && OnGraph(st) && |tags| == |st.accesses|
      && (FilterRun(LabelCmp, Records(st.accesses), tags, junk, reset).history.raceFound <==> HasKeptRace(st, tags))
  {
    var tags, recs := ThreadTrace(tr, acts, owner, bumps, initial).tags, Records(tr[|acts|].accesses);
    ThreadsGiveKeys(tr, acts, owner, bumps, initial);
    assert |tags| == |recs|;
    hide CleanRun, LabelCmp, FilterRun, RaceKept, HasKeptRace, OrderOk, RunHistory, KeysDetermine;
    hide UninterruptedContext, FairRun, UnstaleRun, ThreadTrace;
    CmpIsOrder(tr, acts);
    NothingBetweenInRun(tr, acts, tags);
    KeptIsKeptRace(tr, acts, tags);
    FilterIsExact(LabelCmp, recs, tags, junk, reset);
  }

  /** For the code as it is: on runs whose accesses agree on being atomic, hold no lock in common and are in no
      reduction, filter, pruning and label test together set the race flag exactly if the graph has a race or a bare
      clash. */
  lemma {:induction false} CodedDetectorIsExact(tr: seq<State<Info>>, acts: seq<Action<Info>>, owner: nat -> nat,
      bumps: seq<bool>, initial: map<nat, Thread<Label>>, junk: seq<bool>)
    requires CleanRun(tr, acts) && |bumps| == |acts| && |junk| == |tr[|acts|].accesses|
    requires RunsOn(tr, owner) && ThreadsStart(initial, owner)
    requires Uniform(Records(tr[|acts|].accesses)) && NeverEarly(Records(tr[|acts|].accesses))
    ensures var st, tags := tr[|acts|], ThreadTrace(tr, acts, owner, bumps, initial).tags;
      && OnGraph(st) && |tags| == |st.accesses|
      && (FilterRun(LabelCmp, Records(st.accesses), tags, junk, false).history.raceFound
          <==> HasGraphRace(st) || HasBareClash(st))
  {
    var tags, recs := ThreadTrace(tr, acts, owner, bumps, initial).tags, Records(tr[|acts|].accesses);
    ThreadsGiveKeys(tr, acts, owner, bumps, initial);
    assert |tags| == |recs|;
    UniformIsAsStandIn(recs, tags);
    NothingLost(LabelCmp, recs, tags);
    NeverEarlyIsUnstale(LabelCmp, Select(recs, Passing(tags)), Select(junk, Passing(tags)));
    UniformRunIsFair(LabelCmp, Select(recs, Passing(tags)), Select(junk, Passing(tags)));
    hide CleanRun, LabelCmp, FilterRun, RaceKept, HasKeptRace, Races, HasGraphRace, HasBareClash, ThreadTrace;
    hide FairRun, UnstaleRun, RunHistory;
    KeptIsKeptRace(tr, acts, tags);
    RacesIsGraphRaces(tr, acts);
    FilteredDetectorIsExact(tr, acts, owner, bumps, initial, junk, false);
  }
}
