/**
 Fork-join runs of implicit tasks, with the labels the callbacks give them.

 A state has the tasks, the teams, the strand graph and the accesses observed so far.  Each action is one callback
 (or, for `Release`, the moment the runtime lets a team through a barrier).  The graph is the reference the labels
 are judged by; no label operation looks at it.
 */
module ForkJoin {
  import opened Labels
  import opened LabelOrder
  import opened Strands

  /** `Released`: the barrier is open, the member has not yet left it.  `Forked`: the task waits for a team. */
  datatype Status = NotStarted | Running | AtBarrier | Released | Forked(team: nat) | Done

  datatype Home = Root | Member(team: nat, index: nat)

  /** `strand` is the task's current strand; while a team of it is active, the strand the team starts from. */
  datatype Task = Task(home: Home, status: Status, lbl: Label, strand: nat)

  /** The members are the tasks `first .. first + size`. */
  datatype Team = Team(parent: nat, size: nat, first: nat) {
    function At(i: nat): nat { first + i }
  }

  datatype Access<A> = Access(strand: nat, lbl: Label, info: A)

  /** The offset field of a label segment: 16 bits in the program, unbounded in the run that a real one is compared
      with. */
  datatype Width = Bits16 | Unbounded

  datatype State<A> = State(width: Width, tasks: seq<Task>, teams: seq<Team>, strands: Graph, accesses: seq<Access<A>>)

  datatype Action<A> =
    | Fork(task: nat, size: nat)
    | Start(task: nat)
    | Arrive(task: nat)
    | Release(team: nat)
    | Leave(task: nat)
    | Join(team: nat)
    | Touch(task: nat, info: A)

  function Init<A>(width: Width): State<A> {
    State(width, [Task(Root, Running, InitTaskLabel(), 0)], [], [Strand(InitTaskLabel(), {})], [])
  }

  predicate IsMember<A>(st: State<A>, t: nat) {
    && t < |st.tasks|
    && st.tasks[t].home.Member?
    && st.tasks[t].home.team < |st.teams|
  }

  function ParentOf<A>(st: State<A>, t: nat): nat
    requires IsMember(st, t)
  {
    st.teams[st.tasks[t].home.team].parent
  }

  /** The label of a member after the barrier. */
  function PastBarrier(l: Label, width: Width): (r: Label)
    requires |l| >= 2
    ensures |r| == |l|
  {
    if width.Bits16? then BarrierEnd(l)
    else l[|l| - 2 := l[|l| - 2].(offset := l[|l| - 2].offset + l[|l| - 2].span)]
  }

  /** The offset field of the encountering task's segment has room for one more span. */
  predicate BarrierFits(l: Label) {
    |l| >= 2 && l[|l| - 2].offset + l[|l| - 2].span < FIELD_LIMIT
  }

  predicate TeamMeets<A>(st: State<A>, team: nat) {
    && team < |st.teams|
    && var tm := st.teams[team];
    && tm.parent < |st.tasks|
    && tm.size > 0
    && tm.first + tm.size <= |st.tasks|
    && st.tasks[tm.parent].status == Forked(team)
    && (forall i :: 0 <= i < tm.size ==> st.tasks[tm.At(i)].status == AtBarrier)
    && |st.tasks[tm.first].lbl| >= 2
  }

  predicate Enabled<A>(st: State<A>, a: Action<A>) {
    match a
    case Fork(t, n) => t < |st.tasks| && st.tasks[t].status.Running? && 0 < n < FIELD_LIMIT
    case Start(t) => IsMember(st, t) && st.tasks[t].status.NotStarted? && ParentOf(st, t) < |st.tasks|
    case Arrive(t) => IsMember(st, t) && st.tasks[t].status.Running?
    case Release(team) => TeamMeets(st, team)
    case Leave(t) => IsMember(st, t) && st.tasks[t].status.Released? && |st.tasks[t].lbl| >= 2 &&
        ParentOf(st, t) < |st.tasks|
    case Join(team) => TeamMeets(st, team)
    case Touch(t, _) => t < |st.tasks| && st.tasks[t].status.Running?
  }

  /** The members' last strands. */
  function MemberStrands(tasks: seq<Task>, tm: Team): (r: seq<nat>)
    requires tm.first + tm.size <= |tasks|
    ensures |r| == tm.size && forall i :: 0 <= i < tm.size ==> r[i] == tasks[tm.At(i)].strand
  {
    seq<nat>(tm.size, (i: nat) requires i < tm.size => tasks[tm.At(i)].strand)
  }

  predicate InTeam(t: Task, k: nat) {
    t.home.Member? && t.home.team == k
  }

  function SetMembers(tasks: seq<Task>, k: nat, s: Status): (r: seq<Task>)
    ensures |r| == |tasks|
    ensures forall t :: 0 <= t < |tasks| ==> r[t] == if InTeam(tasks[t], k) then tasks[t].(status := s) else tasks[t]
  {
    seq(|tasks|, t requires 0 <= t < |tasks| => if InTeam(tasks[t], k) then tasks[t].(status := s) else tasks[t])
  }

  /** The label the encountering task has once its team has passed the barrier and ended: what the master member's
      barrier end and implicit task end compute. */
  function AfterTeam<A>(st: State<A>, team: nat): Label
    requires TeamMeets(st, team)
  {
    ParentImpEnd(PastBarrier(st.tasks[st.teams[team].first].lbl, st.width))
  }

  /** The state after member `t` enters the phase its team's front opens, with label `l`. */
  function EnterPhase<A>(st: State<A>, t: nat, l: Label): State<A>
    requires IsMember(st, t) && ParentOf(st, t) < |st.tasks|
  {
    st.(tasks := st.tasks[t := st.tasks[t].(status := Running, lbl := l, strand := |st.strands|)],
        strands := st.strands + [Strand(l, {st.tasks[ParentOf(st, t)].strand})])
  }

  /** The state after a team met: the members get status `s`, the encountering task becomes `parent`. */
  function MeetPhase<A>(st: State<A>, k: nat, parent: Task, s: Status): State<A>
    requires TeamMeets(st, k)
  {
    var tm := st.teams[k];
    st.(tasks := SetMembers(st.tasks[tm.parent := parent], k, s),
        strands := st.strands + [Strand(AfterTeam(st, k), SetOf(MemberStrands(st.tasks, tm)))])
  }

  function Apply<A>(st: State<A>, a: Action<A>): State<A>
    requires Enabled(st, a)
  {
    match a
    case Fork(t, n) =>
      var members := seq(n, i requires 0 <= i < n => Task(Member(|st.teams|, i), NotStarted, [], 0));
      st.(tasks := st.tasks[t := st.tasks[t].(status := Forked(|st.teams|))] + members,
          teams := st.teams + [Team(t, n, |st.tasks|)])
    case Start(t) =>
      var home := st.tasks[t].home;
      EnterPhase(st, t, ImpTaskLabel(st.tasks[ParentOf(st, t)].lbl, home.index, st.teams[home.team].size))
    case Arrive(t) =>
      st.(tasks := st.tasks[t := st.tasks[t].(status := AtBarrier)])
    case Release(team) =>
      MeetPhase(st, team, st.tasks[st.teams[team].parent].(strand := |st.strands|), Released)
    case Leave(t) =>
      EnterPhase(st, t, PastBarrier(st.tasks[t].lbl, st.width))
    case Join(team) =>
      var parent := st.tasks[st.teams[team].parent];
      MeetPhase(st, team, parent.(status := Running, lbl := AfterTeam(st, team), strand := |st.strands|), Done)
    case Touch(t, info) =>
      st.(accesses := st.accesses + [Access(st.tasks[t].strand, st.tasks[t].lbl, info)])
  }

  // ---- the invariant ----

  predicate Live(s: Status) { s.Running? || s.AtBarrier? || s.Forked? }

  /** Tasks and teams refer to each other consistently. */
  ghost predicate Shape<A>(st: State<A>) {
    && |st.tasks| > 0
    && (forall t :: 0 <= t < |st.tasks| && st.tasks[t].home.Root? ==>
        st.tasks[t].status.Running? || st.tasks[t].status.Forked?)
    && (forall t :: 0 <= t < |st.tasks| && st.tasks[t].home.Member? ==>
          && IsMember(st, t)
          && st.tasks[t].home.index < st.teams[st.tasks[t].home.team].size
          && t == st.teams[st.tasks[t].home.team].first + st.tasks[t].home.index)
    && (forall k :: 0 <= k < |st.teams| ==>
          && 0 < st.teams[k].size < FIELD_LIMIT
          && st.teams[k].parent < st.teams[k].first
          && st.teams[k].first + st.teams[k].size <= |st.tasks|)
    && (forall k, i :: 0 <= k < |st.teams| && 0 <= i < st.teams[k].size ==>
          st.tasks[st.teams[k].At(i)].home == Member(k, i))
    && (forall t :: 0 <= t < |st.tasks| && st.tasks[t].status.Forked? ==>
          && st.tasks[t].status.team < |st.teams|
          && st.teams[st.tasks[t].status.team].parent == t)
  }

  /** The members of a team that have entered its current phase. */
  ghost function Entered<A>(st: State<A>, k: nat): set<nat>
    requires k < |st.teams| && st.teams[k].first + st.teams[k].size <= |st.tasks|
  {
    set i | 0 <= i < st.teams[k].size && Live(st.tasks[st.teams[k].At(i)].status)
  }

  /** What is true of a task that belongs to an active team. */
  ghost predicate MemberInv<A>(st: State<A>, t: nat)
    requires Shape(st) && IsMember(st, t)
  {
    var me := st.tasks[t];
    var n := st.teams[me.home.team].size;
    var parent := st.tasks[ParentOf(st, t)];
    me.status.Done? ||
    (&& parent.status == Forked(me.home.team)
     && parent.strand < |st.strands|
     && var q := st.strands[parent.strand].lbl;
        match me.status
        case NotStarted => parent.lbl == q
        case Released => |me.lbl| >= 2 && MemberLabel(q, PastBarrier(me.lbl, Unbounded), n, me.home.index)
        case _ => me.strand < |st.strands| && MemberLabel(q, st.strands[me.strand].lbl, n, me.home.index))
  }

  ghost predicate TaskInv<A>(st: State<A>, t: nat)
    requires Shape(st) && t < |st.tasks|
  {
    var me := st.tasks[t];
    && (Live(me.status) ==> me.strand < |st.strands|)
    && (me.status.Running? || me.status.AtBarrier? ==>
        Last(st.strands, me.strand) && me.lbl == st.strands[me.strand].lbl)
    && (me.status.Forked? ==> Fronts(st.strands, me.strand, st.teams[me.status.team].size, Entered(st, me.status.team)))
    && (me.home.Member? ==> MemberInv(st, t))
  }

  ghost predicate StrandsDiffer<A>(st: State<A>) {
    && (forall t :: 0 <= t < |st.tasks| && Live(st.tasks[t].status) ==> st.tasks[t].strand < |st.strands|)
    && (forall t, u ::
          (0 <= t < |st.tasks| && 0 <= u < |st.tasks| && t != u && Live(st.tasks[t].status) &&
              Live(st.tasks[u].status)) ==>
          st.tasks[t].strand != st.tasks[u].strand)
  }

  ghost predicate Inv<A>(st: State<A>) {
    && st.width.Unbounded?
    && Shape(st)
    && Exact(st.strands)
    && StrandsDiffer(st)
    && (forall t :: 0 <= t < |st.tasks| ==> TaskInv(st, t))
  }

  // ---- every action keeps the invariant ----

  lemma InitInv<A>()
    ensures Inv(Init<A>(Unbounded))
  {
    var st := Init<A>(Unbounded);
    assert Shape(st);
    InitStrand();
    hide Exact, Last, Precedes, Reaches;
    assert TaskInv(st, 0);
  }

  lemma InitStrand()
    ensures Exact([Strand(InitTaskLabel(), {})]) && Last([Strand(InitTaskLabel(), {})], 0)
  {
    PrecedesRefl(InitTaskLabel());
  }

  /** A task that an action leaves alone keeps its part of the invariant. */
  lemma TaskKept<A>(st: State<A>, st': State<A>, u: nat)
    requires Shape(st) && Shape(st') && u < |st.tasks| && u < |st'.tasks|
    requires TaskInv(st, u) && st'.tasks[u] == st.tasks[u]
    requires st.strands <= st'.strands && st.teams <= st'.teams
    requires st.tasks[u].status.Running? || st.tasks[u].status.AtBarrier? ==> Last(st'.strands, st.tasks[u].strand)
    requires st.tasks[u].status.Forked? ==>
      Fronts(st'.strands, st.tasks[u].strand, st.teams[st.tasks[u].status.team].size,
          Entered(st', st.tasks[u].status.team))
    requires st.tasks[u].home.Member? && !st.tasks[u].status.Done? ==>
      ParentOf(st, u) < |st'.tasks| && st'.tasks[ParentOf(st, u)] == st.tasks[ParentOf(st, u)]
    ensures TaskInv(st', u)
  {
  }

  /** Tasks keep their homes, and none starts to wait for a team. */
  lemma ShapeKept<A>(st: State<A>, st': State<A>)
    requires Shape(st) && st'.teams == st.teams && |st'.tasks| == |st.tasks|
    requires forall t :: 0 <= t < |st.tasks| ==> st'.tasks[t].home == st.tasks[t].home
    requires forall t :: 0 <= t < |st.tasks| && st'.tasks[t].status.Forked? ==>
        st'.tasks[t].status == st.tasks[t].status
    requires forall t :: 0 <= t < |st.tasks| && st.tasks[t].home.Root? ==>
        st'.tasks[t].status.Running? || st'.tasks[t].status.Forked?
    ensures Shape(st')
  {
  }

  lemma ArriveInv<A>(st: State<A>, t: nat)
    requires Inv(st) && Enabled(st, Arrive(t))
    ensures Inv(Apply(st, Arrive(t)))
  {
    hide Exact, Last, Fronts, MemberLabel, TaskInv, Shape;
    var st' := Apply(st, Arrive(t));
    ArriveShape(st, t);
    forall u | 0 <= u < |st'.tasks|
      ensures TaskInv(st', u)
    {
      assert TaskInv(st, u);
      ArriveTask(st, t, u);
    }
  }

  lemma ArriveShape<A>(st: State<A>, t: nat)
    requires Shape(st) && Enabled(st, Arrive(t))
    ensures Shape(Apply(st, Arrive(t)))
  {
    assert st.tasks[t].home.Member?;
    hide Shape;
    ShapeKept(st, Apply(st, Arrive(t)));
  }

  lemma ArriveTask<A>(st: State<A>, t: nat, u: nat)
    requires Shape(st) && Enabled(st, Arrive(t)) && Shape(Apply(st, Arrive(t)))
    requires u < |st.tasks| && TaskInv(st, u)
    ensures TaskInv(Apply(st, Arrive(t)), u)
  {
    hide Last, Fronts, MemberLabel;
    var st' := Apply(st, Arrive(t));
    if st.tasks[u].status.Forked? {
      assert Entered(st', st.tasks[u].status.team) == Entered(st, st.tasks[u].status.team);
    }
  }

  lemma TouchInv<A>(st: State<A>, t: nat, info: A)
    requires Inv(st) && Enabled(st, Touch(t, info))
    ensures Inv(Apply(st, Touch(t, info)))
  {
    hide Exact, Last, Fronts, MemberLabel, TaskInv, Shape;
    var st' := Apply(st, Touch(t, info));
    ShapeOfTasks(st, st');
    forall u | 0 <= u < |st'.tasks|
      ensures TaskInv(st', u)
    {
      assert TaskInv(st, u);
      TaskInvOfTasks(st, st', u);
    }
  }

  /** The invariant does not depend on the accesses. */
  lemma ShapeOfTasks<A>(st: State<A>, st': State<A>)
    requires Shape(st) && st'.tasks == st.tasks && st'.teams == st.teams
    ensures Shape(st')
  {
  }

  lemma TaskInvOfTasks<A>(st: State<A>, st': State<A>, u: nat)
    requires Shape(st) && Shape(st') && st'.tasks == st.tasks && st'.teams == st.teams && st'.strands == st.strands
    requires u < |st.tasks| && TaskInv(st, u)
    ensures TaskInv(st', u)
  {
    hide Last, Fronts, MemberLabel;
    if st.tasks[u].status.Forked? {
      assert Entered(st', st.tasks[u].status.team) == Entered(st, st.tasks[u].status.team);
    }
  }

  lemma ForkFacts<A>(st: State<A>, t: nat, n: nat)
    requires Enabled(st, Fork(t, n))
    ensures var st' := Apply(st, Fork(t, n));
      && st'.teams == st.teams + [Team(t, n, |st.tasks|)]
      && |st'.tasks| == |st.tasks| + n
      && (forall u :: 0 <= u < |st.tasks| ==> st'.tasks[u].home == st.tasks[u].home && (u != t ==>
          st'.tasks[u] == st.tasks[u]))
      && st'.tasks[t].status == Forked(|st.teams|)
      && (forall u :: |st.tasks| <= u < |st'.tasks| ==>
            st'.tasks[u].home == Member(|st.teams|, u - |st.tasks|) && st'.tasks[u].status.NotStarted?)
  {
  }

  lemma ForkShape<A>(st: State<A>, t: nat, n: nat)
    requires Shape(st) && Enabled(st, Fork(t, n))
    ensures Shape(Apply(st, Fork(t, n)))
  {
    hide Apply;
    ForkFacts(st, t, n);
    var st' := Apply(st, Fork(t, n));
    forall k, i | 0 <= k < |st'.teams| && 0 <= i < st'.teams[k].size
      ensures st'.teams[k].first + st'.teams[k].size <= |st'.tasks| &&
          st'.tasks[st'.teams[k].At(i)].home == Member(k, i)
    {
      if k < |st.teams| { assert st'.teams[k] == st.teams[k]; }
    }
  }

  lemma ForkInv<A>(st: State<A>, t: nat, n: nat)
    requires Inv(st) && Enabled(st, Fork(t, n))
    ensures Inv(Apply(st, Fork(t, n)))
  {
    hide Exact, Last, Fronts, MemberLabel;
    var st' := Apply(st, Fork(t, n));
    ForkShape(st, t, n);
    assert TaskInv(st, t);
    LastFronts(st.strands, st.tasks[t].strand, n);
    assert Entered(st', |st.teams|) == {};
    forall u | 0 <= u < |st'.tasks|
      ensures TaskInv(st', u)
    {
      ForkTask(st, t, n, u);
    }
  }

  lemma ForkTask<A>(st: State<A>, t: nat, n: nat, u: nat)
    requires Shape(st) && Enabled(st, Fork(t, n)) && Shape(Apply(st, Fork(t, n)))
    requires TaskInv(st, t) && (u < |st.tasks| ==> TaskInv(st, u))
    requires Fronts(st.strands, st.tasks[t].strand, n, Entered(Apply(st, Fork(t, n)), |st.teams|))
    requires u < |Apply(st, Fork(t, n)).tasks|
    ensures TaskInv(Apply(st, Fork(t, n)), u)
  {
    hide Last, Fronts, MemberLabel;
    if u < |st.tasks| {
      if u != t { ForkOther(st, t, n, u); }
    } else {
      ForkMember(st, t, n, u);
    }
  }

  lemma EnteredAfterFork<A>(st: State<A>, t: nat, n: nat, k: nat)
    requires Shape(st) && Enabled(st, Fork(t, n)) && Shape(Apply(st, Fork(t, n))) && k < |st.teams|
    ensures Entered(Apply(st, Fork(t, n)), k) == Entered(st, k)
  {
  }

  lemma ForkOther<A>(st: State<A>, t: nat, n: nat, u: nat)
    requires Shape(st) && Enabled(st, Fork(t, n)) && Shape(Apply(st, Fork(t, n)))
    requires u < |st.tasks| && u != t && TaskInv(st, u)
    ensures TaskInv(Apply(st, Fork(t, n)), u)
  {
    hide Last, Fronts, MemberLabel, Entered;
    var st' := Apply(st, Fork(t, n));
    if st.tasks[u].status.Forked? {
      EnteredAfterFork(st, t, n, st.tasks[u].status.team);
    }
    TaskKept(st, st', u);
  }

  lemma ForkMember<A>(st: State<A>, t: nat, n: nat, u: nat)
    requires Shape(st) && Enabled(st, Fork(t, n)) && Shape(Apply(st, Fork(t, n)))
    requires TaskInv(st, t) && |st.tasks| <= u < |st.tasks| + n
    ensures TaskInv(Apply(st, Fork(t, n)), u)
  {
    hide Last, Fronts, MemberLabel;
  }

  lemma LastFronts(g: Graph, s: nat, n: nat)
    requires Last(g, s) && n > 0
    ensures s < |g| && Fronts(g, s, n, {})
  {
  }

  lemma EnterInv<A>(st: State<A>, t: nat, l: Label)
    requires Inv(st) && IsMember(st, t) && ParentOf(st, t) < |st.tasks|
    requires st.tasks[t].status.NotStarted? || st.tasks[t].status.Released?
    requires var p := st.tasks[ParentOf(st, t)];
      && p.strand < |st.strands|
      && MemberLabel(st.strands[p.strand].lbl, l, st.teams[st.tasks[t].home.team].size, st.tasks[t].home.index)
    ensures Inv(EnterPhase(st, t, l))
  {
    hide Exact, Last, Fronts, MemberLabel, Fits;
    var st' := EnterPhase(st, t, l);
    var me, g, p := st.tasks[t], st.strands, ParentOf(st, t);
    var f, n, i, k := st.tasks[p].strand, st.teams[me.home.team].size, me.home.index, me.home.team;
    assert TaskInv(st, t) && TaskInv(st, p);
    assert i !in Entered(st, k) by { assert st.teams[k].At(i) == t; }
    EnterFits(g, f, n, Entered(st, k), l, i);
    AddStrand(g, Strand(l, {f}));
    FrontsAfterEnter(g, f, n, Entered(st, k), l, i);
    EnterShape(st, t, l);
    forall u | 0 <= u < |st.tasks|
      ensures TaskInv(st', u)
    {
      assert TaskInv(st, u);
      if u != t && u != p && st.tasks[u].status.Forked? {
        var k2 := st.tasks[u].status.team;
        FrontsKeptByEnter(g, f, n, l, i, st.tasks[u].strand, st.teams[k2].size, Entered(st, k2));
      }
      EnterTask(st, t, l, u);
    }
  }

  lemma EnterShape<A>(st: State<A>, t: nat, l: Label)
    requires Shape(st) && IsMember(st, t) && ParentOf(st, t) < |st.tasks|
    requires st.tasks[t].status.NotStarted? || st.tasks[t].status.Released?
    ensures Shape(EnterPhase(st, t, l))
    ensures StrandsDiffer(st) ==> StrandsDiffer(EnterPhase(st, t, l))
  {
    hide Last, Fronts, MemberLabel;
  }

  lemma EnteredAfter<A>(st: State<A>, t: nat, l: Label, k: nat)
    requires Shape(st) && IsMember(st, t) && ParentOf(st, t) < |st.tasks| && k < |st.teams|
    requires st.tasks[t].status.NotStarted? || st.tasks[t].status.Released?
    ensures st.teams[k].first + st.teams[k].size <= |st.tasks|
    ensures Entered(EnterPhase(st, t, l), k) ==
      if k == st.tasks[t].home.team then Entered(st, k) + {st.tasks[t].home.index} else Entered(st, k)
  {
  }

  lemma EnterTask<A>(st: State<A>, t: nat, l: Label, u: nat)
    requires Shape(st) && IsMember(st, t) && ParentOf(st, t) < |st.tasks|
    requires st.tasks[t].status.NotStarted? || st.tasks[t].status.Released?
    requires u < |st.tasks| && TaskInv(st, t) && TaskInv(st, u)
    requires var p, n, i := st.tasks[ParentOf(st, t)], st.teams[st.tasks[t].home.team].size, st.tasks[t].home.index;
      && p.strand < |st.strands|
      && MemberLabel(st.strands[p.strand].lbl, l, n, i)
      && Fronts(st.strands + [Strand(l, {p.strand})], p.strand, n, Entered(st, st.tasks[t].home.team) + {i})
    requires Last(st.strands + [Strand(l, {st.tasks[ParentOf(st, t)].strand})], |st.strands|)
    requires Live(st.tasks[u].status) && !st.tasks[u].status.Forked? ==>
      Last(st.strands + [Strand(l, {st.tasks[ParentOf(st, t)].strand})], st.tasks[u].strand)
    requires u != ParentOf(st, t) && st.tasks[u].status.Forked? ==>
      Fronts(st.strands + [Strand(l, {st.tasks[ParentOf(st, t)].strand})], st.tasks[u].strand,
             st.teams[st.tasks[u].status.team].size, Entered(st, st.tasks[u].status.team))
    requires Shape(EnterPhase(st, t, l))
    ensures TaskInv(EnterPhase(st, t, l), u)
  {
    hide Last, Fronts, MemberLabel, Entered;
    var st' := EnterPhase(st, t, l);
    if u == ParentOf(st, t) {
      EnteredAfter(st, t, l, st.tasks[t].home.team);
    } else if u != t {
      if st.tasks[u].status.Forked? {
        EnteredAfter(st, t, l, st.tasks[u].status.team);
      }
      TaskKept(st, st', u);
    }
  }

  // ---- a team meets: Release and Join ----

  /** The label the master computes is the advanced front; every member's label after the barrier lies below it. */
  lemma MeetLabels(q: Label, l: Label, n: nat, i: nat)
    requires Plain(q) && MemberLabel(q, l, n, i)
    ensures |l| >= 2 && ParentImpEnd(PastBarrier(l, Unbounded)) == Advance(q)
    ensures MemberLabel(Advance(q), PastBarrier(l, Unbounded), n, i)
  {
    var x: nat :| l == q + [ImplicitSegment(x, n)] && x % n == i;
    assert PastBarrier(l, Unbounded) == Advance(q) + [ImplicitSegment(x, n)];
  }

  lemma MeetFacts<A>(st: State<A>, k: nat)
    requires Inv(st) && TeamMeets(st, k)
    ensures var tm := st.teams[k];
      var f := st.tasks[tm.parent].strand;
      && f < |st.strands|
      && AllMet(st.strands, f, tm.size, MemberStrands(st.tasks, tm))
      && AfterTeam(st, k) == Advance(st.strands[f].lbl)
      && Fits(st.strands, Strand(AfterTeam(st, k), SetOf(MemberStrands(st.tasks, tm))))
      && (forall i :: 0 <= i < tm.size ==>
            |st.tasks[tm.At(i)].lbl| >= 2
            && MemberLabel(Advance(st.strands[f].lbl), PastBarrier(st.tasks[tm.At(i)].lbl, Unbounded), tm.size, i))
  {
    hide Exact, Last, Fronts, MemberLabel, Fits;
    var tm := st.teams[k];
    var f, pre := st.tasks[tm.parent].strand, MemberStrands(st.tasks, tm);
    assert TaskInv(st, tm.parent);
    var q := st.strands[f].lbl;
    assert Plain(q) by { LabelsArePlain(st.strands, f); }
    forall i | 0 <= i < tm.size
      ensures Last(st.strands, pre[i]) && MemberLabel(q, st.tasks[tm.At(i)].lbl, tm.size, i)
      ensures st.strands[pre[i]].lbl == st.tasks[tm.At(i)].lbl
      ensures |st.tasks[tm.At(i)].lbl| >= 2
      ensures MemberLabel(Advance(q), PastBarrier(st.tasks[tm.At(i)].lbl, Unbounded), tm.size, i)
      ensures i == 0 ==> AfterTeam(st, k) == Advance(q)
    {
      assert TaskInv(st, tm.At(i));
      assert tm.At(0) == tm.first && TaskInv(st, tm.At(0));
      MeetLabels(q, st.tasks[tm.At(i)].lbl, tm.size, i);
    }
    assert AfterTeam(st, k) == Advance(q);
    ReleaseFits(st.strands, f, tm.size, Entered(st, k), pre);
  }

  lemma LabelsArePlain(g: Graph, u: nat)
    requires Exact(g) && u < |g|
    ensures Plain(g[u].lbl)
  {
  }

  /** The two outcomes: the members go on, or the region ends. */
  ghost predicate Outcome<A>(st: State<A>, k: nat, parent: Task, s: Status)
    requires TeamMeets(st, k)
  {
    var before := st.tasks[st.teams[k].parent];
    || (s.Released? && parent == before.(strand := |st.strands|))
    || (s.Done? && parent == before.(status := Running, lbl := AfterTeam(st, k), strand := |st.strands|))
  }

  lemma MeetInv<A>(st: State<A>, k: nat, parent: Task, s: Status)
    requires Inv(st) && TeamMeets(st, k) && Outcome(st, k, parent, s)
    ensures Inv(MeetPhase(st, k, parent, s))
  {
    hide Exact, Last, Fronts, MemberLabel, Fits;
    var st' := MeetPhase(st, k, parent, s);
    var tm := st.teams[k];
    var g, f, n, pre := st.strands, st.tasks[tm.parent].strand, tm.size, MemberStrands(st.tasks, tm);
    var new_ := Strand(AfterTeam(st, k), SetOf(pre));
    MeetFacts(st, k);
    AddStrand(g, new_);
    FrontsAfterRelease(g, new_, n);
    LastFronts(g + [new_], |g|, n);
    LabelsArePlain(g, f);
    MeetShape(st, k, parent, s);
    MeetDiffer(st, k, parent, s);
    forall u | 0 <= u < |st.tasks|
      ensures TaskInv(st', u)
    {
      assert TaskInv(st, u);
      if Live(st.tasks[u].status) && !InTeam(st.tasks[u], k) && u != tm.parent {
        StrandNotMet(st, k, u);
        if st.tasks[u].status.Forked? {
          var k2 := st.tasks[u].status.team;
          FrontsKeptByRelease(g, f, n, pre, st.tasks[u].strand, st.teams[k2].size, Entered(st, k2));
        }
      }
      if u == tm.parent && st.tasks[u].home.Member? {
        assert TaskInv(st, ParentOf(st, u));
        AdvanceKeepsMember(st, u, g[f].lbl);
      }
      MeetTask(st, k, parent, s, u);
    }
  }

  lemma StrandNotMet<A>(st: State<A>, k: nat, u: nat)
    requires Shape(st) && StrandsDiffer(st) && TeamMeets(st, k) && u < |st.tasks|
    requires Live(st.tasks[u].status) && !InTeam(st.tasks[u], k)
    ensures st.tasks[u].strand !in MemberStrands(st.tasks, st.teams[k])
    ensures st.tasks[u].strand !in SetOf(MemberStrands(st.tasks, st.teams[k]))
  {
    var tm := st.teams[k];
    forall i | 0 <= i < tm.size
      ensures st.tasks[tm.At(i)].strand != st.tasks[u].strand
    {
    }
  }

  lemma AdvanceKeepsMember<A>(st: State<A>, u: nat, q: Label)
    requires u < |st.tasks| && IsMember(st, u)
    ensures forall q0: Label, n, i :: MemberLabel(q0, q, n, i) ==> MemberLabel(q0, Advance(q), n, i)
  {
    forall q0: Label, n, i | MemberLabel(q0, q, n, i)
      ensures MemberLabel(q0, Advance(q), n, i)
    {
      var x: nat :| q == q0 + [ImplicitSegment(x, n)] && x % n == i;
      AddSpanKeepsResidue(x, n);
      assert Advance(q) == q0 + [ImplicitSegment(x + n, n)];
    }
  }

  /** The members of a team that meets all wait at the barrier, so none of them has a team of its own. */
  lemma MetMembers<A>(st: State<A>, k: nat)
    requires Shape(st) && TeamMeets(st, k)
    ensures forall u :: 0 <= u < |st.tasks| && InTeam(st.tasks[u], k) ==>
      st.tasks[u].status == AtBarrier && u != st.teams[k].parent
  {
    forall u | 0 <= u < |st.tasks| && InTeam(st.tasks[u], k)
      ensures st.tasks[u].status == AtBarrier
    {
      assert st.teams[k].At(st.tasks[u].home.index) == u;
    }
  }

  lemma MeetShape<A>(st: State<A>, k: nat, parent: Task, s: Status)
    requires Shape(st) && TeamMeets(st, k) && Outcome(st, k, parent, s)
    ensures Shape(MeetPhase(st, k, parent, s))
  {
    MetMembers(st, k);
    hide Shape;
    ShapeKept(st, MeetPhase(st, k, parent, s));
  }

  lemma MeetDiffer<A>(st: State<A>, k: nat, parent: Task, s: Status)
    requires StrandsDiffer(st) && TeamMeets(st, k) && Outcome(st, k, parent, s)
    ensures StrandsDiffer(MeetPhase(st, k, parent, s))
  {
  }

  lemma MeetTask<A>(st: State<A>, k: nat, parent: Task, s: Status, u: nat)
    requires Shape(st) && TeamMeets(st, k) && Outcome(st, k, parent, s)
    requires Shape(MeetPhase(st, k, parent, s))
    requires u < |st.tasks| && TaskInv(st, u)
    requires st.tasks[st.teams[k].parent].strand < |st.strands|
    requires |st.strands[st.tasks[st.teams[k].parent].strand].lbl| > 0
    requires AfterTeam(st, k) == Advance(st.strands[st.tasks[st.teams[k].parent].strand].lbl)
    requires Last(MeetPhase(st, k, parent, s).strands, |st.strands|)
    requires Fronts(MeetPhase(st, k, parent, s).strands, |st.strands|, st.teams[k].size, {})
    requires InTeam(st.tasks[u], k) ==>
      (&& |st.tasks[u].lbl| >= 2
       && MemberLabel(AfterTeam(st, k), PastBarrier(st.tasks[u].lbl, Unbounded), st.teams[k].size,
                      st.tasks[u].home.index))
    requires
      (!InTeam(st.tasks[u], k) && u != st.teams[k].parent && Live(st.tasks[u].status) &&
          !st.tasks[u].status.Forked?) ==>
      Last(MeetPhase(st, k, parent, s).strands, st.tasks[u].strand)
    requires !InTeam(st.tasks[u], k) && u != st.teams[k].parent && st.tasks[u].status.Forked? ==>
      Fronts(MeetPhase(st, k, parent, s).strands, st.tasks[u].strand,
             st.teams[st.tasks[u].status.team].size, Entered(st, st.tasks[u].status.team))
    requires u == st.teams[k].parent && st.tasks[u].home.Member? ==>
      forall q0: Label, n, i :: MemberLabel(q0, st.strands[st.tasks[u].strand].lbl, n, i) ==>
          MemberLabel(q0, AfterTeam(st, k), n, i)
    ensures TaskInv(MeetPhase(st, k, parent, s), u)
  {
    hide Last, Fronts, MemberLabel, PastBarrier, ParentImpEnd, Advance, AfterTeam, SetOf;
    var st' := MeetPhase(st, k, parent, s);
    MetMembers(st, k);
    if InTeam(st.tasks[u], k) {
      MeetMember(st, k, parent, s, u);
    } else if u == st.teams[k].parent {
      if s.Released? {
        MetNotEntered(st, k, parent, s);
      }
    } else {
      if st.tasks[u].status.Forked? {
        EnteredNotMet(st, k, parent, s, st.tasks[u].status.team);
      }
      TaskKept(st, st', u);
    }
  }

  lemma MeetMember<A>(st: State<A>, k: nat, parent: Task, s: Status, u: nat)
    requires Shape(st) && TeamMeets(st, k) && Outcome(st, k, parent, s)
    requires Shape(MeetPhase(st, k, parent, s))
    requires u < |st.tasks| && InTeam(st.tasks[u], k) && u != st.teams[k].parent
    requires |st.tasks[u].lbl| >= 2
    requires MemberLabel(AfterTeam(st, k), PastBarrier(st.tasks[u].lbl, Unbounded), st.teams[k].size,
                         st.tasks[u].home.index)
    ensures TaskInv(MeetPhase(st, k, parent, s), u)
  {
    hide Last, Fronts, MemberLabel, PastBarrier, ParentImpEnd, Advance, AfterTeam, SetOf;
    var st' := MeetPhase(st, k, parent, s);
    assert st'.tasks[u] == st.tasks[u].(status := s);
    assert st'.tasks[st.teams[k].parent] == parent by { assert !InTeam(parent, k) by { ParentNotMember(st, k); } }
  }

  lemma ParentNotMember<A>(st: State<A>, k: nat)
    requires Shape(st) && TeamMeets(st, k)
    ensures !InTeam(st.tasks[st.teams[k].parent], k)
  {
    MetMembers(st, k);
  }

  lemma MetNotEntered<A>(st: State<A>, k: nat, parent: Task, s: Status)
    requires Shape(st) && TeamMeets(st, k) && Outcome(st, k, parent, s)
    ensures Entered(MeetPhase(st, k, parent, s), k) == {}
  {
    forall i | 0 <= i < st.teams[k].size
      ensures !Live(MeetPhase(st, k, parent, s).tasks[st.teams[k].At(i)].status)
    {
      MetMembers(st, k);
    }
  }

  lemma EnteredNotMet<A>(st: State<A>, k: nat, parent: Task, s: Status, k2: nat)
    requires Shape(st) && TeamMeets(st, k) && Outcome(st, k, parent, s)
    requires k2 < |st.teams| && k2 != k
    ensures Entered(MeetPhase(st, k, parent, s), k2) == Entered(st, k2)
  {
    forall i | 0 <= i < st.teams[k2].size
      ensures var u := st.teams[k2].At(i);
        Live(MeetPhase(st, k, parent, s).tasks[u].status) <==> Live(st.tasks[u].status)
    {
      assert st.tasks[st.teams[k2].At(i)].home == Member(k2, i);
    }
  }

  /** Tasks and teams stay consistent in runs of either width. */
  lemma StepShape<A>(st: State<A>, a: Action<A>)
    requires Shape(st) && Enabled(st, a)
    ensures Shape(Apply(st, a))
  {
    hide Shape, StrandsDiffer;
    match a
    case Fork(t, n) => ForkShape(st, t, n);
    case Start(t) => EnterShape(st, t, Apply(st, a).tasks[t].lbl);
    case Arrive(t) => ArriveShape(st, t);
    case Release(k) => MeetShape(st, k, st.tasks[st.teams[k].parent].(strand := |st.strands|), Released);
    case Leave(t) => EnterShape(st, t, PastBarrier(st.tasks[t].lbl, st.width));
    case Join(k) =>
      var parent := st.tasks[st.teams[k].parent];
      MeetShape(st, k, parent.(status := Running, lbl := AfterTeam(st, k), strand := |st.strands|), Done);
    case Touch(_, _) => ShapeOfTasks(st, Apply(st, a));
  }

  lemma StepInv<A>(st: State<A>, a: Action<A>)
    requires Inv(st) && Enabled(st, a)
    ensures Inv(Apply(st, a))
  {
    hide Exact, Last, Fronts, Fits;
    match a
    case Fork(t, n) => ForkInv(st, t, n);
    case Start(t) =>
      assert TaskInv(st, t);
      var n, i := st.teams[st.tasks[t].home.team].size, st.tasks[t].home.index;
      MemberResidue(st.tasks[ParentOf(st, t)].lbl, n, i);
      EnterInv(st, t, ImpTaskLabel(st.tasks[ParentOf(st, t)].lbl, i, n));
    case Arrive(t) => ArriveInv(st, t);
    case Release(k) => MeetInv(st, k, st.tasks[st.teams[k].parent].(strand := |st.strands|), Released);
    case Leave(t) =>
      assert TaskInv(st, t);
      EnterInv(st, t, PastBarrier(st.tasks[t].lbl, Unbounded));
    case Join(k) =>
      var parent := st.tasks[st.teams[k].parent];
      MeetInv(st, k, parent.(status := Running, lbl := AfterTeam(st, k), strand := |st.strands|), Done);
    case Touch(t, info) => TouchInv(st, t, info);
  }

  lemma MemberResidue(q: Label, n: nat, i: nat)
    requires i < n
    ensures MemberLabel(q, ImpTaskLabel(q, i, n), n, i)
  {
    ResidueUnique(i, n, 0, i);
  }
}
