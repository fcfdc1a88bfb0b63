/**
 The label test is exact: on every run in which no offset wraps, for every two accesses in observed order, it answers
 whether there is a path between their strands, except exactly where two labels part in a team of one.  `LongRuns` has
 the runs in which offsets wrap.

 The invariant is proved for runs with unbounded offsets; while there is room, the program goes through the same states.
 */
module Exactness {
  import opened Labels
  import opened Core
  import opened LabelOrder
  import opened Strands
  import opened ForkJoin

  /** A run of either width. */
  ghost predicate IsRun<A>(tr: seq<State<A>>, acts: seq<Action<A>>) {
    && |tr| == |acts| + 1
    && tr[0] == Init(tr[0].width)
    && forall i :: 0 <= i < |acts| ==> Enabled(tr[i], acts[i]) && tr[i + 1] == Apply(tr[i], acts[i])
  }

  /** What holds of an access `a` observed before an access `b`. */
  ghost predicate Observed<A>(g: Graph, a: Access<A>, b: Access<A>) {
    && a.strand < |g|
    && b.strand < |g|
    && (Reaches(g, b.strand, a.strand) ==> a.strand == b.strand)
    && (HappensBefore(a.lbl, b.lbl) == Decide(Reaches(g, a.strand, b.strand)) <==> !PartInTeamOfOne(a.lbl, b.lbl))
    && (PartInTeamOfOne(a.lbl, b.lbl) ==> HappensBefore(a.lbl, b.lbl) == Fatal)
    && Compare(a.lbl, b.lbl) != RIGHT_IS_PREFIX
    && (Compare(a.lbl, b.lbl) == SAME_LABEL <==> a.strand == b.strand)
  }

  ghost predicate AccessInv<A>(st: State<A>) {
    && (forall i :: 0 <= i < |st.accesses| ==>
          && st.accesses[i].strand < |st.strands|
          && st.accesses[i].lbl == st.strands[st.accesses[i].strand].lbl)
    && (forall i, j :: 0 <= i < j < |st.accesses| ==> Observed(st.strands, st.accesses[i], st.accesses[j]))
  }

  /** A running task's strand against any strand: the verdict on the pair. */
  lemma RunningVerdict<A>(st: State<A>, t: nat, u: nat)
    requires Inv(st) && t < |st.tasks| && st.tasks[t].status.Running? && u < |st.strands|
    ensures st.tasks[t].strand < |st.strands| && st.tasks[t].lbl == st.strands[st.tasks[t].strand].lbl
    ensures Observed(st.strands, Access(u, st.strands[u].lbl, ()), Access(st.tasks[t].strand, st.tasks[t].lbl, ()))
  {
    assert TaskInv(st, t);
    var g, s := st.strands, st.tasks[t].strand;
    VerdictDecidesOrder(g[u].lbl, g[s].lbl);
    if g[u].lbl == g[s].lbl {
      PrecedesRefl(g[u].lbl);
      LabelsAreUnique(g, u, s);
    }
  }

  lemma {:induction false} StrandsStable(g: Graph, s: Strand, u: nat, v: nat)
    requires u < |g| && v < |g|
    ensures Reaches(g + [s], u, v) <==> Reaches(g, u, v)
  {
    ReachesStable(g, s, u, v);
  }

  lemma StepAccessInv<A>(st: State<A>, a: Action<A>)
    requires Inv(st) && AccessInv(st) && Enabled(st, a)
    ensures AccessInv(Apply(st, a))
  {
    hide Exact, Last, Fronts, Fits, MemberLabel, HappensBefore, PartInTeamOfOne, Compare, TaskInv, Shape;
    var st' := Apply(st, a);
    var n := |st.accesses|;
    if a.Touch? {
      RunningVerdict(st, a.task, st.tasks[a.task].strand);
    }
    forall i, j | 0 <= i < j < |st'.accesses|
      ensures Observed(st'.strands, st'.accesses[i], st'.accesses[j])
    {
      if j < n {
        var u, v := st.accesses[i].strand, st.accesses[j].strand;
        assert Observed(st.strands, st.accesses[i], st.accesses[j]);
        if |st'.strands| > |st.strands| {
          StrandsStable(st.strands, st'.strands[|st.strands|], u, v);
          StrandsStable(st.strands, st'.strands[|st.strands|], v, u);
          assert st'.strands == st.strands + [st'.strands[|st.strands|]];
        }
      } else {
        RunningVerdict(st, a.task, st.accesses[i].strand);
      }
    }
  }

  lemma {:induction false} RunInv<A>(tr: seq<State<A>>, acts: seq<Action<A>>, i: nat)
    requires IsRun(tr, acts) && tr[0].width.Unbounded? && i < |tr|
    ensures Inv(tr[i]) && AccessInv(tr[i])
  {
    if i == 0 {
      InitInv<A>();
    } else {
      hide Inv, AccessInv;
      RunInv(tr, acts, i - 1);
      StepInv(tr[i - 1], acts[i - 1]);
      StepAccessInv(tr[i - 1], acts[i - 1]);
    }
  }

  // ---- runs of the program ----

  /** Every barrier end finds room in the 16-bit offset field. */
  predicate HasRoom<A>(st: State<A>, a: Action<A>)
    requires Enabled(st, a)
  {
    match a
    case Release(team) => BarrierFits(st.tasks[st.teams[team].first].lbl)
    case Leave(t) => BarrierFits(st.tasks[t].lbl)
    case Join(team) => BarrierFits(st.tasks[st.teams[team].first].lbl)
    case _ => true
  }

  /** A run of the program in which no offset wraps; `LongRuns` is about those in which one does. */
  ghost predicate RoomyRun<A>(tr: seq<State<A>>, acts: seq<Action<A>>) {
    && IsRun(tr, acts)
    && tr[0].width.Bits16?
    && forall i :: 0 <= i < |acts| ==> HasRoom(tr[i], acts[i])
  }

  ghost function Unbound<A>(tr: seq<State<A>>): (un: seq<State<A>>)
    ensures |un| == |tr| && forall i :: 0 <= i < |tr| ==> un[i] == tr[i].(width := Unbounded)
  {
    seq(|tr|, i requires 0 <= i < |tr| => tr[i].(width := Unbounded))
  }

  lemma WidthStays<A>(tr: seq<State<A>>, acts: seq<Action<A>>, i: nat)
    requires IsRun(tr, acts) && i < |tr|
    ensures tr[i].width == tr[0].width
  {
    if i > 0 {
      WidthStays(tr, acts, i - 1);
      assert tr[i] == Apply(tr[i - 1], acts[i - 1]);
    }
  }

  lemma {:induction false} RunShape<A>(tr: seq<State<A>>, acts: seq<Action<A>>, i: nat)
    requires IsRun(tr, acts) && i < |tr|
    ensures Shape(tr[i])
  {
    if i > 0 {
      hide Shape;
      RunShape(tr, acts, i - 1);
      StepShape(tr[i - 1], acts[i - 1]);
    }
  }

  lemma UnboundStep<A>(st: State<A>, a: Action<A>)
    requires st.width.Bits16? && Enabled(st, a) && HasRoom(st, a)
    ensures Enabled(st.(width := Unbounded), a)
    ensures Apply(st.(width := Unbounded), a) == Apply(st, a).(width := Unbounded)
  {
    match a
    case Leave(t) => FitsUnbounded(st.tasks[t].lbl);
    case Release(team) => FitsUnbounded(st.tasks[st.teams[team].first].lbl);
    case Join(team) => FitsUnbounded(st.tasks[st.teams[team].first].lbl);
    case _ =>
  }

  lemma FitsUnbounded(l: Label)
    requires BarrierFits(l)
    ensures PastBarrier(l, Bits16) == PastBarrier(l, Unbounded)
  {
  }

  /** With room, the program goes through the states of the unbounded run. */
  lemma UnboundRun<A>(tr: seq<State<A>>, acts: seq<Action<A>>)
    requires RoomyRun(tr, acts)
    ensures IsRun(Unbound(tr), acts) && Unbound(tr)[0].width.Unbounded?
  {
    forall i | 0 <= i < |acts|
      ensures Enabled(Unbound(tr)[i], acts[i]) && Unbound(tr)[i + 1] == Apply(Unbound(tr)[i], acts[i])
    {
      WidthStays(tr, acts, i);
      assert HasRoom(tr[i], acts[i]);
      hide HasRoom, Enabled, Apply;
      UnboundStep(tr[i], acts[i]);
    }
  }

  /** Exactness, over every run in which no offset wraps: for an access observed before another, the label test answers
      whether there is a path in the strand graph if and only if the labels do not part in a team of one; there, and
      only there, the internal check fires.  The current label is never a prefix of the recorded one, and labels are
      equal exactly on one strand. */
  lemma LabelsExact<A>(tr: seq<State<A>>, acts: seq<Action<A>>, k: nat, i: nat, j: nat)
    requires RoomyRun(tr, acts) && k < |tr| && i < j < |tr[k].accesses|
    ensures var g, a, b := tr[k].strands, tr[k].accesses[i], tr[k].accesses[j];
      && a.strand < |g|
      && b.strand < |g|
      && (HappensBefore(a.lbl, b.lbl) == Decide(Reaches(g, a.strand, b.strand)) <==> !PartInTeamOfOne(a.lbl, b.lbl))
      && (HappensBefore(a.lbl, b.lbl) == Fatal <==> PartInTeamOfOne(a.lbl, b.lbl))
      && Compare(a.lbl, b.lbl) != RIGHT_IS_PREFIX
      && (Compare(a.lbl, b.lbl) == SAME_LABEL <==> a.strand == b.strand)
      && (Reaches(g, b.strand, a.strand) ==> a.strand == b.strand)
  {
    hide Inv, HappensBefore, PartInTeamOfOne, Compare, Reaches, Enabled, RoomyRun;
    UnboundRun(tr, acts);
    RunInv(Unbound(tr), acts, k);
    assert Observed(tr[k].strands, tr[k].accesses[i], tr[k].accesses[j]);
  }

  // ---- teams of at least two ----

  ghost predicate TeamsOfTwo<A>(st: State<A>) {
    forall k :: 0 <= k < |st.teams| ==> st.teams[k].size >= 2
  }

  ghost predicate WideLabel(l: Label) {
    forall i :: 1 <= i < |l| ==> l[i].span >= 2
  }

  ghost predicate WideInv<A>(st: State<A>) {
    TeamsOfTwo(st) ==> forall u :: 0 <= u < |st.strands| ==> WideLabel(st.strands[u].lbl)
  }

  lemma WideMember(q: Label, l: Label, n: nat, i: nat)
    requires MemberLabel(q, l, n, i) && WideLabel(q) && n >= 2
    ensures WideLabel(l)
  {
  }

  lemma WideMeet<A>(st: State<A>, k: nat)
    requires Inv(st) && WideInv(st) && TeamsOfTwo(st) && TeamMeets(st, k)
    ensures WideLabel(AfterTeam(st, k))
  {
    hide Last, Fronts, Fits, MemberLabel, Reaches, Precedes;
    MeetFacts(st, k);
    LabelsArePlain(st.strands, st.tasks[st.teams[k].parent].strand);
  }

  /** A strand with a wide label may be added. */
  lemma WideAdded<A>(st: State<A>, st': State<A>, l: Label)
    requires WideInv(st) && WideLabel(l) && st.teams <= st'.teams
    requires |st'.strands| == |st.strands| + 1 && st'.strands[..|st.strands|] == st.strands
    requires st'.strands[|st.strands|].lbl == l
    ensures WideInv(st')
  {
    if TeamsOfTwo(st') {
      assert forall k :: 0 <= k < |st.teams| ==> st.teams[k] == st'.teams[k];
    }
  }

  lemma WideKept<A>(st: State<A>, st': State<A>)
    requires WideInv(st) && st.teams <= st'.teams && st'.strands == st.strands
    ensures WideInv(st')
  {
    if TeamsOfTwo(st') {
      assert forall k :: 0 <= k < |st.teams| ==> st.teams[k] == st'.teams[k];
    }
  }

  lemma WideEnter<A>(st: State<A>, t: nat, l: Label)
    requires Inv(st) && WideInv(st) && TeamsOfTwo(st) && IsMember(st, t) && ParentOf(st, t) < |st.tasks|
    requires var p := st.tasks[ParentOf(st, t)];
      && p.strand < |st.strands|
      && MemberLabel(st.strands[p.strand].lbl, l, st.teams[st.tasks[t].home.team].size, st.tasks[t].home.index)
    ensures WideInv(EnterPhase(st, t, l))
  {
    hide Inv, WideLabel, MemberLabel;
    WideMember(st.strands[st.tasks[ParentOf(st, t)].strand].lbl, l, st.teams[st.tasks[t].home.team].size,
               st.tasks[t].home.index);
    WideAdded(st, EnterPhase(st, t, l), l);
  }

  lemma StepWideInv<A>(st: State<A>, a: Action<A>)
    requires Inv(st) && WideInv(st) && Enabled(st, a)
    ensures WideInv(Apply(st, a))
  {
    hide Exact, Last, Fronts, Fits, MemberLabel, Reaches, Precedes, WideInv, WideLabel;
    var st' := Apply(st, a);
    if !TeamsOfTwo(st) {
      assert forall k :: 0 <= k < |st.teams| ==> st.teams[k] == st'.teams[k];
      NotWide(st');
    } else {
      match a
      case Start(t) =>
        assert TaskInv(st, t);
        var n, i := st.teams[st.tasks[t].home.team].size, st.tasks[t].home.index;
        MemberResidue(st.tasks[ParentOf(st, t)].lbl, n, i);
        WideEnter(st, t, ImpTaskLabel(st.tasks[ParentOf(st, t)].lbl, i, n));
      case Leave(t) =>
        assert TaskInv(st, t);
        WideEnter(st, t, PastBarrier(st.tasks[t].lbl, Unbounded));
      case Release(k) =>
        WideMeet(st, k);
        WideAdded(st, st', AfterTeam(st, k));
      case Join(k) =>
        WideMeet(st, k);
        WideAdded(st, st', AfterTeam(st, k));
      case _ => WideKept(st, st');
    }
  }

  lemma NotWide<A>(st: State<A>)
    requires !TeamsOfTwo(st)
    ensures WideInv(st)
  {
  }

  lemma {:induction false} RunWideInv<A>(tr: seq<State<A>>, acts: seq<Action<A>>, i: nat)
    requires IsRun(tr, acts) && tr[0].width.Unbounded? && i < |tr|
    ensures WideInv(tr[i])
  {
    if i > 0 {
      hide Inv, WideInv;
      RunWideInv(tr, acts, i - 1);
      RunInv(tr, acts, i - 1);
      StepWideInv(tr[i - 1], acts[i - 1]);
    }
  }

  /** With teams of at least two the test is exact without exception, and no internal check fires. */
  lemma LabelsExactTeams<A>(tr: seq<State<A>>, acts: seq<Action<A>>, k: nat, i: nat, j: nat)
    requires RoomyRun(tr, acts) && k < |tr| && i < j < |tr[k].accesses| && TeamsOfTwo(tr[k])
    ensures var g, a, b := tr[k].strands, tr[k].accesses[i], tr[k].accesses[j];
      && a.strand < |g|
      && b.strand < |g|
      && HappensBefore(a.lbl, b.lbl) == Decide(Reaches(g, a.strand, b.strand))
  {
    hide Inv, HappensBefore, Reaches, Enabled, RoomyRun;
    LabelsExact(tr, acts, k, i, j);
    UnboundRun(tr, acts);
    RunInv(Unbound(tr), acts, k);
    RunWideInv(Unbound(tr), acts, k);
    assert WideLabel(tr[k].strands[tr[k].accesses[i].strand].lbl);
  }

  // ---- where the test fails ----

  lemma ExtendRun<A>(tr: seq<State<A>>, acts: seq<Action<A>>, a: Action<A>) returns (tr': seq<State<A>>,
      acts': seq<Action<A>>)
    requires IsRun(tr, acts) && Enabled(tr[|acts|], a)
    ensures IsRun(tr', acts') && acts' == acts + [a] && tr' == tr + [Apply(tr[|acts|], a)] && |tr'| == |acts'| + 1
    ensures RoomyRun(tr, acts) && HasRoom(tr[|acts|], a) ==> RoomyRun(tr', acts')
  {
    hide Apply, Enabled, Init, HasRoom;
    tr', acts' := tr + [Apply(tr[|acts|], a)], acts + [a];
    LongerRun(tr, acts, a);
    if RoomyRun(tr, acts) && HasRoom(tr[|acts|], a) {
      LongerRoomyRun(tr, acts, a);
    }
  }

  lemma LongerRun<A>(tr: seq<State<A>>, acts: seq<Action<A>>, a: Action<A>)
    requires IsRun(tr, acts) && Enabled(tr[|acts|], a)
    ensures IsRun(tr + [Apply(tr[|acts|], a)], acts + [a])
  {
    hide Apply, Enabled, Init;
  }

  lemma LongerRoomyRun<A>(tr: seq<State<A>>, acts: seq<Action<A>>, a: Action<A>)
    requires RoomyRun(tr, acts) && Enabled(tr[|acts|], a) && HasRoom(tr[|acts|], a)
    requires IsRun(tr + [Apply(tr[|acts|], a)], acts + [a])
    ensures RoomyRun(tr + [Apply(tr[|acts|], a)], acts + [a])
  {
    hide Apply, Enabled, Init, HasRoom;
  }

  /** A team of one inside the root's team of one forks a team of two. */
  lemma NestedTeams() returns (tr: seq<State<()>>, acts: seq<Action<()>>)
    ensures RoomyRun(tr, acts) && |tr| == |acts| + 1
    ensures var st, l := tr[|acts|], [ImplicitSegment(0, 1), ImplicitSegment(0, 1)];
      && st.tasks == [
           Task(Root, Forked(0), InitTaskLabel(), 0), Task(Member(0, 0), Forked(1), l, 1),
           Task(Member(1, 0), Running, l + [ImplicitSegment(0, 2)], 2), Task(Member(1, 1), Running,
               l + [ImplicitSegment(1, 2)], 3)]
      && st.teams == [Team(0, 1, 1), Team(1, 2, 2)]
      && st.strands == [Strand(InitTaskLabel(), {}), Strand(l, {0}), Strand(l + [ImplicitSegment(0, 2)], {1}),
          Strand(l + [ImplicitSegment(1, 2)], {1})]
      && st.accesses == []
  {
    hide IsRun, RoomyRun;
    tr, acts := StartRun(Bits16);
    tr, acts := ExtendRun(tr, acts, Fork(0, 1));
    assert tr[|acts|].tasks == [Task(Root, Forked(0), InitTaskLabel(), 0), Task(Member(0, 0), NotStarted, [], 0)];
    tr, acts := ExtendRun(tr, acts, Start(1));
    var l := [ImplicitSegment(0, 1), ImplicitSegment(0, 1)];
    assert tr[|acts|].tasks[1] == Task(Member(0, 0), Running, l, 1);
    tr, acts := ExtendRun(tr, acts, Fork(1, 2));
    assert tr[|acts|].tasks == [Task(Root, Forked(0), InitTaskLabel(), 0), Task(Member(0, 0), Forked(1), l, 1),
        Task(Member(1, 0), NotStarted, [], 0), Task(Member(1, 1), NotStarted, [], 0)];
    tr, acts := ExtendRun(tr, acts, Start(2));
    tr, acts := ExtendRun(tr, acts, Start(3));
  }

  lemma StartRun<A>(width: Width) returns (tr: seq<State<A>>, acts: seq<Action<A>>)
    ensures IsRun(tr, acts) && |tr| == |acts| + 1 && acts == [] && tr[|acts|] == Init(width)
    ensures width.Bits16? ==> RoomyRun(tr, acts)
  {
    tr, acts := [Init(width)], [];
  }

  /** A run in which the check fires: a team of one inside a team of one forks a team of two; the two accesses are
      ordered by the inner team's barrier. */
  lemma TeamOfOneFails() returns (tr: seq<State<()>>, acts: seq<Action<()>>)
    ensures RoomyRun(tr, acts) && |tr[|acts|].accesses| == 2
    ensures var st := tr[|acts|];
      && HappensBefore(st.accesses[0].lbl, st.accesses[1].lbl) == Fatal
      && st.accesses[1].strand < |st.strands|
      && Reaches(st.strands, st.accesses[0].strand, st.accesses[1].strand)
  {
    hide Reaches;
    tr, acts := NestedTeams();
    var l := [ImplicitSegment(0, 1), ImplicitSegment(0, 1)];
    tr, acts := ExtendRun(tr, acts, Touch(2, ()));
    tr, acts := ExtendRun(tr, acts, Arrive(2));
    tr, acts := ExtendRun(tr, acts, Arrive(3));
    var met := tr[|acts|];
    assert TeamMeets(met, 1);
    tr, acts := ExtendRun(tr, acts, Release(1));
    assert MemberStrands(met.tasks, met.teams[1])[0] == met.tasks[met.teams[1].At(0)].strand == 2;
    tr, acts := ExtendRun(tr, acts, Leave(2));
    tr, acts := ExtendRun(tr, acts, Touch(2, ()));
    var st := tr[|acts|];
    ReachesTwice(st.strands, 2, 4, 5);
    assert st.accesses[0].lbl == l + [ImplicitSegment(0, 2)];
    assert st.accesses[1].lbl == [ImplicitSegment(0, 1), ImplicitSegment(1, 1), ImplicitSegment(0, 2)];
  }

  lemma ReachesTwice(g: Graph, u: nat, m: nat, v: nat)
    requires u < m < v < |g| && u in g[m].preds && m in g[v].preds
    ensures Reaches(g, u, v)
  {
    assert Reaches(g, u, u);
    assert Reaches(g, u, m);
  }
}
