/**
 Runs of any length: what becomes of the label test once offset fields wrap at 2^16.

 The program goes through the states of an unbounded run with every offset cut to 16 bits.  The labels of the unbounded
 run are exact, so for any two accesses it can be said exactly when their cut labels still are.
 */
module LongRuns {
  import opened Labels
  import opened Core
  import opened LabelOrder
  import opened Strands
  import opened ForkJoin
  import opened Exactness

  // ---- the program's states are those of the unbounded run, cut ----

  function CutSegment(s: Segment): Segment {
    s.(offset := s.offset % FIELD_LIMIT)
  }

  function Cut(l: Label): (r: Label)
    ensures |r| == |l| && forall i :: 0 <= i < |l| ==> r[i] == CutSegment(l[i])
  {
    seq(|l|, i requires 0 <= i < |l| => CutSegment(l[i]))
  }

  function CutTasks(tasks: seq<Task>): (r: seq<Task>)
    ensures |r| == |tasks| && forall t :: 0 <= t < |tasks| ==> r[t] == tasks[t].(lbl := Cut(tasks[t].lbl))
  {
    seq(|tasks|, t requires 0 <= t < |tasks| => tasks[t].(lbl := Cut(tasks[t].lbl)))
  }

  function CutGraph(g: Graph): (r: Graph)
    ensures |r| == |g| && forall u :: 0 <= u < |g| ==> r[u] == Strand(Cut(g[u].lbl), g[u].preds)
  {
    seq(|g|, u requires 0 <= u < |g| => Strand(Cut(g[u].lbl), g[u].preds))
  }

  function CutAccesses<A>(acc: seq<Access<A>>): (r: seq<Access<A>>)
    ensures |r| == |acc| && forall i :: 0 <= i < |acc| ==> r[i] == acc[i].(lbl := Cut(acc[i].lbl))
  {
    seq(|acc|, i requires 0 <= i < |acc| => acc[i].(lbl := Cut(acc[i].lbl)))
  }

  function CutState<A>(st: State<A>): State<A> {
    State(Bits16, CutTasks(st.tasks), st.teams, CutGraph(st.strands), CutAccesses(st.accesses))
  }

  lemma CutBarrier(l: Label)
    requires |l| >= 2
    ensures Cut(PastBarrier(l, Unbounded)) == PastBarrier(Cut(l), Bits16)
  {
  }

  lemma CutMember(p: Label, i: nat, n: nat)
    requires i < FIELD_LIMIT
    ensures Cut(ImpTaskLabel(p, i, n)) == ImpTaskLabel(Cut(p), i, n)
  {
  }

  lemma CutAfterTeam<A>(st: State<A>, k: nat)
    requires st.width.Unbounded? && TeamMeets(st, k) && TeamMeets(CutState(st), k)
    ensures Cut(AfterTeam(st, k)) == AfterTeam(CutState(st), k)
  {
    CutBarrier(st.tasks[st.teams[k].first].lbl);
  }

  lemma CutEnter<A>(st: State<A>, t: nat, l: Label)
    requires IsMember(st, t) && ParentOf(st, t) < |st.tasks|
    ensures IsMember(CutState(st), t)
    ensures CutState(EnterPhase(st, t, l)) == EnterPhase(CutState(st), t, Cut(l))
  {
    var a, b := CutState(EnterPhase(st, t, l)), EnterPhase(CutState(st), t, Cut(l));
    assert a.tasks == b.tasks;
    assert a.strands == b.strands;
  }

  lemma CutMeet<A>(st: State<A>, k: nat, parent: Task, s: Status)
    requires st.width.Unbounded? && TeamMeets(st, k)
    ensures TeamMeets(CutState(st), k)
    ensures CutState(MeetPhase(st, k, parent, s)) == MeetPhase(CutState(st), k, parent.(lbl := Cut(parent.lbl)), s)
  {
    var cut := CutState(st);
    CutAfterTeam(st, k);
    var a, b := CutState(MeetPhase(st, k, parent, s)), MeetPhase(cut, k, parent.(lbl := Cut(parent.lbl)), s);
    assert MemberStrands(cut.tasks, st.teams[k]) == MemberStrands(st.tasks, st.teams[k]);
    hide AfterTeam;
    assert a.tasks == b.tasks;
    assert a.strands == b.strands;
  }

  lemma CutFork<A>(st: State<A>, t: nat, n: nat)
    requires Enabled(st, Fork(t, n))
    ensures Apply(CutState(st), Fork(t, n)) == CutState(Apply(st, Fork(t, n)))
  {
    assert Cut([]) == [];
    assert Apply(CutState(st), Fork(t, n)).tasks == CutState(Apply(st, Fork(t, n))).tasks;
  }

  lemma CutStart<A>(st: State<A>, t: nat)
    requires Shape(st) && Enabled(st, Start(t))
    ensures Enabled(CutState(st), Start(t)) && Apply(CutState(st), Start(t)) == CutState(Apply(st, Start(t)))
  {
    var p, i, n := st.tasks[ParentOf(st, t)].lbl, st.tasks[t].home.index, st.teams[st.tasks[t].home.team].size;
    CutMember(p, i, n);
    CutEnter(st, t, ImpTaskLabel(p, i, n));
    hide EnterPhase, ImpTaskLabel;
  }

  lemma CutLeave<A>(st: State<A>, t: nat)
    requires st.width.Unbounded? && Enabled(st, Leave(t))
    ensures Enabled(CutState(st), Leave(t)) && Apply(CutState(st), Leave(t)) == CutState(Apply(st, Leave(t)))
  {
    CutBarrier(st.tasks[t].lbl);
    CutEnter(st, t, PastBarrier(st.tasks[t].lbl, Unbounded));
    hide EnterPhase, PastBarrier;
  }

  lemma CutArrive<A>(st: State<A>, t: nat)
    requires Enabled(st, Arrive(t))
    ensures Apply(CutState(st), Arrive(t)) == CutState(Apply(st, Arrive(t)))
  {
    assert Apply(CutState(st), Arrive(t)).tasks == CutState(Apply(st, Arrive(t))).tasks;
  }

  lemma CutTouch<A>(st: State<A>, t: nat, info: A)
    requires Enabled(st, Touch(t, info))
    ensures Apply(CutState(st), Touch(t, info)) == CutState(Apply(st, Touch(t, info)))
  {
    assert Apply(CutState(st), Touch(t, info)).accesses == CutState(Apply(st, Touch(t, info))).accesses;
  }

  lemma CutEnabled<A>(st: State<A>, a: Action<A>)
    ensures Enabled(CutState(st), a) <==> Enabled(st, a)
  {
  }

  /** Cutting commutes with every action. */
  lemma CutStep<A>(st: State<A>, a: Action<A>)
    requires st.width.Unbounded? && Shape(st) && Enabled(st, a)
    ensures Enabled(CutState(st), a) && Apply(CutState(st), a) == CutState(Apply(st, a))
  {
    CutEnabled(st, a);
    hide EnterPhase, MeetPhase, Shape;
    match a
    case Fork(t, n) => CutFork(st, t, n);
    case Start(t) => CutStart(st, t);
    case Arrive(t) => CutArrive(st, t);
    case Release(k) => CutMeet(st, k, st.tasks[st.teams[k].parent].(strand := |st.strands|), Released);
    case Leave(t) => CutLeave(st, t);
    case Join(k) =>
      var parent := st.tasks[st.teams[k].parent];
      CutAfterTeam(st, k);
      CutMeet(st, k, parent.(status := Running, lbl := AfterTeam(st, k), strand := |st.strands|), Done);
    case Touch(t, info) => CutTouch(st, t, info);
  }

  /** The unbounded run with the same actions. */
  ghost predicate Unwraps<A>(un: seq<State<A>>, tr: seq<State<A>>, acts: seq<Action<A>>) {
    IsRun(un, acts) && un[0].width.Unbounded? && IsRun(tr, acts) && tr[0].width.Bits16?
  }

  /** Every run of the program, however long, is an unbounded run, cut. */
  lemma {:induction false} RunIsCut<A>(un: seq<State<A>>, tr: seq<State<A>>, acts: seq<Action<A>>, i: nat)
    requires Unwraps(un, tr, acts) && i < |tr|
    ensures tr[i] == CutState(un[i])
  {
    if i == 0 {
      CutInit<A>();
    } else {
      RunIsCut(un, tr, acts, i - 1);
      RunShape(un, acts, i - 1);
      WidthStays(un, acts, i - 1);
      hide CutState, Shape;
      CutStep(un[i - 1], acts[i - 1]);
    }
  }

  lemma CutInit<A>()
    ensures CutState(Init<A>(Unbounded)) == Init<A>(Bits16)
  {
    assert Cut(InitTaskLabel()) == InitTaskLabel();
  }

  lemma {:induction false} UnwrapUnique<A>(un: seq<State<A>>, un': seq<State<A>>, tr: seq<State<A>>,
      acts: seq<Action<A>>, i: nat)
    requires Unwraps(un, tr, acts) && Unwraps(un', tr, acts) && i < |tr|
    ensures un[i] == un'[i]
  {
    if i > 0 {
      hide Enabled, Apply;
      UnwrapUnique(un, un', tr, acts, i - 1);
      assert un[i] == Apply(un[i - 1], acts[i - 1]) && un'[i] == Apply(un'[i - 1], acts[i - 1]);
    }
  }

  /** There is such a run. */
  lemma {:induction false} Unwrap<A>(tr: seq<State<A>>, acts: seq<Action<A>>) returns (un: seq<State<A>>)
    requires IsRun(tr, acts) && tr[0].width.Bits16?
    ensures Unwraps(un, tr, acts)
    decreases |acts|
  {
    if acts == [] {
      var none;
      un, none := StartRun(Unbounded);
    } else {
      var n := |acts| - 1;
      hide Enabled, Apply;
      assert Enabled(tr[n], acts[n]);
      un := Unwrap(tr[..n + 1], acts[..n]);
      RunIsCut(un, tr[..n + 1], acts[..n], n);
      CutEnabled(un[n], acts[n]);
      var whole;
      un, whole := ExtendRun(un, acts[..n], acts[n]);
      assert whole == acts;
    }
  }

  ghost predicate AllArrived<A>(st: State<A>, k: nat) {
    forall u :: 0 <= u < |st.tasks| && InTeam(st.tasks[u], k) ==> st.tasks[u].status.AtBarrier?
  }

  /** No task is kept from what it may do: in any state of any run a running task may fork a team of any size that fits
      16 bits and may touch the location, a member may start, arrive and leave when it is its turn, and a team whose
      members have all arrived may go on or end. */
  lemma NothingIsRefused<A>(tr: seq<State<A>>, acts: seq<Action<A>>, k: nat, t: nat, n: nat, info: A)
    requires IsRun(tr, acts) && tr[0].width.Bits16? && k < |tr|
    ensures var st := tr[k];
      t < |st.tasks| ==>
        && (st.tasks[t].status.Running? && 0 < n < 0x1_0000 ==> Enabled(st, Fork(t, n)))
        && (st.tasks[t].status.Running? ==> Enabled(st, Touch(t, info)))
        && (st.tasks[t].status.NotStarted? ==> Enabled(st, Start(t)))
        && (st.tasks[t].status.Running? && st.tasks[t].home.Member? ==> Enabled(st, Arrive(t)))
        && (st.tasks[t].status.Released? ==> Enabled(st, Leave(t)))
    ensures var st := tr[k];
      t < |st.teams| && AllArrived(st, t) ==> Enabled(st, Release(t)) && Enabled(st, Join(t))
  {
    var un := Unwrap(tr, acts);
    RunIsCut(un, tr, acts, k);
    RunInv(un, acts, k);
    hide IsRun, CutState;
    FreeOfInv(un[k], t, n, info);
    CutFree(un[k], t, n, info);
  }

  lemma FreeOfInv<A>(st: State<A>, t: nat, n: nat, info: A)
    requires Inv(st)
    ensures t < |st.tasks| ==>
      && (st.tasks[t].status.Running? && 0 < n < 0x1_0000 ==> Enabled(st, Fork(t, n)))
      && (st.tasks[t].status.Running? ==> Enabled(st, Touch(t, info)))
      && (st.tasks[t].status.NotStarted? ==> Enabled(st, Start(t)))
      && (st.tasks[t].status.Running? && st.tasks[t].home.Member? ==> Enabled(st, Arrive(t)))
      && (st.tasks[t].status.Released? ==> Enabled(st, Leave(t)))
    ensures t < |st.teams| && AllArrived(st, t) ==> Enabled(st, Release(t)) && Enabled(st, Join(t))
  {
    hide Exact, Last, Fronts;
    if t < |st.tasks| {
      assert TaskInv(st, t);
    }
    if t < |st.teams| && AllArrived(st, t) {
      MeetingIsFree(st, t);
    }
  }

  lemma MeetingIsFree<A>(st: State<A>, k: nat)
    requires Inv(st) && k < |st.teams|
    requires AllArrived(st, k)
    ensures TeamMeets(st, k)
  {
    hide Last, Fronts, Precedes, Reaches, SpansAgree;
    var tm := st.teams[k];
    forall i | 0 <= i < tm.size
      ensures st.tasks[tm.At(i)].status == AtBarrier
    {
      assert InTeam(st.tasks[tm.At(i)], k);
    }
    assert tm.At(0) == tm.first && TaskInv(st, tm.At(0));
    LabelsArePlain(st.strands, st.tasks[tm.parent].strand);
  }

  lemma CutFree<A>(st: State<A>, t: nat, n: nat, info: A)
    ensures forall a: Action<A> :: Enabled(CutState(st), a) <==> Enabled(st, a)
    ensures |CutState(st).tasks| == |st.tasks| && CutState(st).teams == st.teams
    ensures forall u :: 0 <= u < |st.tasks| ==>
      CutState(st).tasks[u].status == st.tasks[u].status && CutState(st).tasks[u].home == st.tasks[u].home
  {
    forall a: Action<A>
      ensures Enabled(CutState(st), a) <==> Enabled(st, a)
    {
      CutEnabled(st, a);
    }
  }

  // ---- the verdict on cut labels ----

  /** What the label test says of any two labels of implicit tasks, reachable or not. */
  function PlainVerdict(hist: Label, cur: Label): Verdict {
    var k := Common(hist, cur);
    if k == |hist| then Ordered
    else if k == |cur| then Concurrent
    else
      var h, c := hist[k], cur[k];
      if h.span != c.span then Fatal
      else if k == 0 then Ordered
      else if h.span == 1 then (if k + 1 == |hist| then Ordered else Fatal)
      else if h.span == 0 then Fatal
      else if h.offset % h.span != c.offset % c.span then Concurrent
      else if h.offset < c.offset then Ordered
      else Fatal
  }

  lemma VerdictOfPlain(hist: Label, cur: Label)
    requires Plain(hist) && Plain(cur)
    ensures HappensBefore(hist, cur) == PlainVerdict(hist, cur)
  {
    AgreementIsCommon(hist, cur);
  }

  lemma CutPlain(l: Label)
    requires Plain(l)
    ensures Plain(Cut(l))
  {
  }

  /** The order of two labels with unbounded offsets survives the cut: the guard under which the test stays exact. */
  predicate Survives(hist: Label, cur: Label) {
    var k := Common(hist, cur);
    || k == |hist|
    || (k < |cur| &&
        var h, c := hist[k], cur[k];
        h.span > 0 && c.span > 0 &&
        var same, h', c' := h.offset % h.span == c.offset % c.span, h.offset % FIELD_LIMIT, c.offset % FIELD_LIMIT;
        if h' == c' then PlainVerdict(Cut(hist), Cut(cur)) == Decide(same)     // the labels now part further down
        else if k == 0 then true
        else if h.span == 1 then k + 1 == |hist|
        else if same then h' % h.span == c' % c.span && h' < c'
        else h' % h.span != c' % c.span)
  }

  lemma SurvivesExactly(hist: Label, cur: Label)
    requires Plain(hist) && Plain(cur) && SpansAgree(hist, cur)
    requires Precedes(cur, hist) ==> cur == hist
    ensures HappensBefore(Cut(hist), Cut(cur)) == Decide(Precedes(hist, cur)) <==> Survives(hist, cur)
  {
    CutPlain(hist);
    CutPlain(cur);
    VerdictOfPlain(Cut(hist), Cut(cur));
    var k := Common(hist, cur);
    CommonIs(cur, hist, k);
    if k < |hist| && k < |cur| {
      PartedVerdict(hist, cur, k);
    } else {
      CommonIs(Cut(hist), Cut(cur), k);
    }
  }

  lemma PartedVerdict(hist: Label, cur: Label, k: nat)
    requires Plain(hist) && Plain(cur) && SpansAgree(hist, cur)
    requires k == Common(hist, cur) < |hist| && k < |cur| && !Later(cur[k], hist[k])
    ensures PlainVerdict(Cut(hist), Cut(cur)) == Decide(Precedes(hist, cur)) <==> Survives(hist, cur)
  {
    var h, c := hist[k], cur[k];
    assert h.span == c.span && h.offset != c.offset;
    if CutSegment(h) != CutSegment(c) {
      CommonIs(Cut(hist), Cut(cur), k);
    }
  }

  lemma {:induction false} SamePaths(g: Graph, h: Graph, u: nat, v: nat)
    requires |g| == |h| && v < |g| && forall w :: 0 <= w < |g| ==> g[w].preds == h[w].preds
    ensures Reaches(g, u, v) <==> Reaches(h, u, v)
    decreases v
  {
    forall p | p in g[v].preds && p < v
      ensures Reaches(g, u, p) <==> Reaches(h, u, p)
    {
      SamePaths(g, h, u, p);
    }
  }

  /** Exactness over every run of the program, of any length: the label test answers whether there is a path in the
      strand graph if and only if the order of the unbounded labels survives the cut to 16 bits. */
  lemma LongRunsExactly<A>(un: seq<State<A>>, tr: seq<State<A>>, acts: seq<Action<A>>, k: nat, i: nat, j: nat)
    requires Unwraps(un, tr, acts) && k < |tr| && i < j < |tr[k].accesses|
    ensures j < |un[k].accesses|
    ensures var g, a, b := tr[k].strands, tr[k].accesses[i], tr[k].accesses[j];
      var hist, cur := un[k].accesses[i].lbl, un[k].accesses[j].lbl;
      && a.lbl == Cut(hist) && b.lbl == Cut(cur)
      && a.strand < |g|
      && b.strand < |g|
      && (Reaches(g, a.strand, b.strand) <==> Precedes(hist, cur))
      && (Reaches(g, b.strand, a.strand) ==> a.strand == b.strand)
      && (HappensBefore(a.lbl, b.lbl) == Decide(Reaches(g, a.strand, b.strand)) <==> Survives(hist, cur))
  {
    RunIsCut(un, tr, acts, k);
    RunInv(un, acts, k);
    hide IsRun, HappensBefore, PartInTeamOfOne, Compare, Reaches, Precedes, Survives, Plain;
    var st, a, b := un[k], un[k].accesses[i], un[k].accesses[j];
    assert Observed(st.strands, a, b);
    LabelsArePlain(st.strands, a.strand);
    LabelsArePlain(st.strands, b.strand);
    SamePaths(tr[k].strands, st.strands, a.strand, b.strand);
    SamePaths(tr[k].strands, st.strands, b.strand, a.strand);
    SurvivesExactly(a.lbl, b.lbl);
  }

  /** While no offset has reached 2^16 the guard is the one for teams of one. */
  lemma ShortLabelsSurvive(hist: Label, cur: Label)
    requires Plain(hist) && Plain(cur) && SpansAgree(hist, cur) && (Precedes(cur, hist) ==> cur == hist)
    requires forall i :: 0 <= i < |hist| ==> hist[i].offset < FIELD_LIMIT
    requires forall i :: 0 <= i < |cur| ==> cur[i].offset < FIELD_LIMIT
    ensures Survives(hist, cur) <==> !PartInTeamOfOne(hist, cur)
  {
    hide Survives, PartInTeamOfOne, HappensBefore, Plain, SpansAgree, Precedes;
    assert Cut(hist) == hist && Cut(cur) == cur;
    SurvivesExactly(hist, cur);
    VerdictDecidesOrder(hist, cur);
  }

  /** The order survives, and the cut labels part where the unbounded ones do. */
  predicate Kept(hist: Label, cur: Label) {
    Survives(hist, cur) && Common(Cut(hist), Cut(cur)) == Common(hist, cur)
  }

  /** Two accesses whose order is kept: the label test tells paths, strands and prefixes apart. */
  lemma KeptExactly<A>(un: seq<State<A>>, tr: seq<State<A>>, acts: seq<Action<A>>, k: nat, i: nat, j: nat)
    requires Unwraps(un, tr, acts) && k < |tr| && i < j < |tr[k].accesses|
    requires j < |un[k].accesses| && Kept(un[k].accesses[i].lbl, un[k].accesses[j].lbl)
    ensures var g, a, b := tr[k].strands, tr[k].accesses[i], tr[k].accesses[j];
      && a.strand < |g|
      && b.strand < |g|
      && HappensBefore(a.lbl, b.lbl) == Decide(Reaches(g, a.strand, b.strand))
      && Compare(a.lbl, b.lbl) != RIGHT_IS_PREFIX
      && (Compare(a.lbl, b.lbl) == SAME_LABEL <==> a.strand == b.strand)
      && (Reaches(g, b.strand, a.strand) ==> a.strand == b.strand)
  {
    RunIsCut(un, tr, acts, k);
    RunInv(un, acts, k);
    hide IsRun, HappensBefore, PartInTeamOfOne, Compare, Reaches, Precedes, Survives, Plain;
    LongRunsExactly(un, tr, acts, k, i, j);
    var st, a, b := un[k], un[k].accesses[i], un[k].accesses[j];
    assert Observed(st.strands, a, b);
    LabelsArePlain(st.strands, a.strand);
    LabelsArePlain(st.strands, b.strand);
    KeptCompare(a.lbl, b.lbl);
  }

  lemma KeptCompare(hist: Label, cur: Label)
    requires Plain(hist) && Plain(cur) && Kept(hist, cur)
    ensures Compare(Cut(hist), Cut(cur)) == RIGHT_IS_PREFIX <==> Compare(hist, cur) == RIGHT_IS_PREFIX
    ensures Compare(Cut(hist), Cut(cur)) == SAME_LABEL <==> Compare(hist, cur) == SAME_LABEL
  {
    CutPlain(hist);
    CutPlain(cur);
    AgreementIsCommon(hist, cur);
    AgreementIsCommon(Cut(hist), Cut(cur));
    hide Survives, Plain;
  }

  /** Where no offset wraps, the guard is the one for teams of one. */
  lemma RoomyIsKept<A>(tr: seq<State<A>>, acts: seq<Action<A>>, k: nat, i: nat, j: nat)
    requires RoomyRun(tr, acts) && k < |tr| && i < j < |tr[k].accesses|
    ensures Unwraps(Unbound(tr), tr, acts)
    ensures Kept(tr[k].accesses[i].lbl, tr[k].accesses[j].lbl) <==>
      !PartInTeamOfOne(tr[k].accesses[i].lbl, tr[k].accesses[j].lbl)
  {
    UnboundRun(tr, acts);
    var un := Unbound(tr);
    RunIsCut(un, tr, acts, k);
    RunInv(un, acts, k);
    hide IsRun, HasRoom, HappensBefore, PartInTeamOfOne, Compare, Reaches, Precedes, Survives, Plain;
    var st, a, b := un[k], un[k].accesses[i], un[k].accesses[j];
    assert Observed(st.strands, a, b);
    assert a.lbl == Cut(a.lbl) && b.lbl == Cut(b.lbl);
    LabelsArePlain(st.strands, a.strand);
    LabelsArePlain(st.strands, b.strand);
    CutIsShort(a.lbl);
    CutIsShort(b.lbl);
    ShortLabelsSurvive(a.lbl, b.lbl);
  }

  lemma CutIsShort(l: Label)
    requires Cut(l) == l
    ensures forall i :: 0 <= i < |l| ==> l[i].offset < FIELD_LIMIT
  {
    assert forall i :: 0 <= i < |l| ==> l[i] == CutSegment(l[i]);
  }

  // ---- across barriers ----

  /** A member's label after `n` barriers of its team. */
  function AfterBarriers(l: Label, n: nat): (r: Label)
    requires |l| >= 2
    ensures |r| == |l|
  {
    if n == 0 then l else BarrierEnd(AfterBarriers(l, n - 1))
  }

  /** An offset after `n` barriers. */
  function Turned(o: nat, s: nat, n: nat): nat { (o + n * s) % FIELD_LIMIT }

  lemma {:induction false} BarriersAdvance(l: Label, n: nat)
    requires |l| >= 2 && l[|l| - 2].offset < FIELD_LIMIT
    ensures AfterBarriers(l, n) == l[|l| - 2 := l[|l| - 2].(offset := Turned(l[|l| - 2].offset, l[|l| - 2].span, n))]
  {
    if n > 0 {
      BarriersAdvance(l, n - 1);
      TurnOnce(l[|l| - 2].offset, l[|l| - 2].span, n);
      hide Turned;
    }
  }

  lemma TurnOnce(o: nat, s: nat, n: nat)
    requires n > 0
    ensures Turned(o, s, n) == (Turned(o, s, n - 1) + s) % FIELD_LIMIT
  {
    assert n * s == (n - 1) * s + s;
    AddBeforeCut(o + (n - 1) * s, s);
  }

  lemma AddBeforeCut(x: nat, y: nat)
    ensures (x % FIELD_LIMIT + y) % FIELD_LIMIT == (x + y) % FIELD_LIMIT
  {
  }

  /** The verdict on two members of a team of `size`, where their own segments `x` and `y` are the first to differ. */
  function MemberVerdict(x: nat, y: nat, size: nat): Verdict
    requires size > 0
  {
    if x == y || size == 1 then Ordered
    else if x % size != y % size then Concurrent
    else if x < y then Ordered
    else Fatal
  }

  /** Two members of a team with front `q`, whose own segments have the offsets `x` and `y`, and `n` barriers of the
      team between an access of the one and an access of the other: every verdict.  From one barrier on the two
      accesses are ordered. */
  lemma AcrossBarriers(q: Label, size: nat, x: nat, y: nat, n: nat)
    requires Plain(q) && LastSegment(q).offset < FIELD_LIMIT && size > 0
    ensures var s, o := LastSegment(q).span, LastSegment(q).offset;
      var o' := Turned(o, s, n);
      HappensBefore(q + [ImplicitSegment(x, size)], AfterBarriers(q + [ImplicitSegment(y, size)], n)) ==
        if o' == o then MemberVerdict(x, y, size)
        else if |q| == 1 then Ordered
        else if s == 1 then Fatal
        else if o' % s != o % s then Concurrent
        else if o < o' then Ordered
        else Fatal
  {
    var s, o := LastSegment(q).span, LastSegment(q).offset;
    var o' := Turned(o, s, n);
    var hist, member := q + [ImplicitSegment(x, size)], q + [ImplicitSegment(y, size)];
    var cur := AfterBarriers(member, n);
    hide Turned, AfterBarriers, HappensBefore;
    BarriersAdvance(member, n);
    assert cur == WithLast(q, ImplicitSegment(o', s)) + [ImplicitSegment(y, size)];
    assert Plain(hist) && Plain(cur);
    VerdictOfPlain(hist, cur);
    CommonIs(hist, cur, if o' != o then |q| - 1 else if x != y then |q| else |q| + 1);
  }

  /** In an outermost team the labels repeat after 2^16 barriers: the test then judges two members as if no barrier lay
      between them, and otherwise answers that one does. */
  lemma OutermostBarriers(o: nat, size: nat, x: nat, y: nat, n: nat)
    requires o < FIELD_LIMIT && size > 0
    ensures var q := [ImplicitSegment(o, 1)];
      HappensBefore(q + [ImplicitSegment(x, size)], AfterBarriers(q + [ImplicitSegment(y, size)], n)) ==
        if n % FIELD_LIMIT == 0 then MemberVerdict(x, y, size) else Ordered
  {
    AcrossBarriers([ImplicitSegment(o, 1)], size, x, y, n);
    assert (o + n) % FIELD_LIMIT == o <==> n % FIELD_LIMIT == 0;
  }

  /** One barrier, and one member on both sides of it. */
  lemma BarrierOrdersUntilWrap(l: Label)
    requires Plain(l) && |l| >= 2
    requires forall i :: 0 <= i < |l| ==> l[i].offset < FIELD_LIMIT && l[i].span < FIELD_LIMIT
    ensures HappensBefore(l, BarrierEnd(l)) == Ordered <==>
      |l| == 2 || (l[|l| - 2].span >= 2 && BarrierFits(l))
  {
    var q, m := l[..|l| - 1], l[|l| - 1];
    assert l == q + [ImplicitSegment(m.offset, m.span)];
    assert AfterBarriers(l, 0) == l && AfterBarriers(l, 1) == BarrierEnd(l);
    AcrossBarriers(q, m.span, m.offset, m.offset, 1);
    OneTurn(LastSegment(q).offset, LastSegment(q).span);
  }

  lemma OneTurn(o: nat, s: nat)
    requires o < FIELD_LIMIT && 0 < s < FIELD_LIMIT
    ensures var o' := Turned(o, s, 1);
      o' != o && (o < o' && o' % s == o % s <==> o + s < FIELD_LIMIT)
  {
    if o + s < FIELD_LIMIT {
      AddSpanKeepsResidue(o, s);
    }
  }

  // ---- a team of two that passes many barriers ----

  function Round(): seq<Action<()>> {
    [Arrive(1), Arrive(2), Release(0), Leave(1), Leave(2)]
  }

  function Rounds(n: nat): seq<Action<()>> {
    if n == 0 then [] else Rounds(n - 1) + Round()
  }

  /** Both members run in the phase that has `offset`; member 0 has touched the location in the first phase. */
  ghost predicate InPhase(st: State<()>, offset: nat) {
    && |st.tasks| == 3
    && st.tasks[0].home == Root && st.tasks[0].status == Forked(0)
    && (forall i :: 1 <= i < 3 ==>
          && st.tasks[i].home == Member(0, i - 1)
          && st.tasks[i].status == Running
          && st.tasks[i].lbl == [ImplicitSegment(offset, 1), ImplicitSegment(i - 1, 2)])
    && st.teams == [Team(0, 2, 1)]
    && |st.accesses| == 1
    && st.accesses[0].lbl == [ImplicitSegment(0, 1), ImplicitSegment(0, 2)]
  }

  function Wrapped(n: nat, width: Width): nat {
    if width.Bits16? then n % FIELD_LIMIT else n
  }

  lemma FirstPhase(width: Width) returns (tr: seq<State<()>>, acts: seq<Action<()>>)
    ensures IsRun(tr, acts) && |tr| == |acts| + 1 && acts == [Fork(0, 2), Start(1), Start(2), Touch(1, ())]
    ensures tr[0].width == tr[|acts|].width == width && InPhase(tr[|acts|], 0)
  {
    hide IsRun;
    tr, acts := StartRun(width);
    tr, acts := ExtendRun(tr, acts, Fork(0, 2));
    assert tr[|acts|].tasks == [Task(Root, Forked(0), InitTaskLabel(), 0), Task(Member(0, 0), NotStarted, [], 0),
        Task(Member(0, 1), NotStarted, [], 0)];
    tr, acts := ExtendRun(tr, acts, Start(1));
    tr, acts := ExtendRun(tr, acts, Start(2));
    tr, acts := ExtendRun(tr, acts, Touch(1, ()));
  }

  lemma NextPhase(tr: seq<State<()>>, acts: seq<Action<()>>, offset: nat) returns (tr': seq<State<()>>,
      acts': seq<Action<()>>)
    requires IsRun(tr, acts) && |tr| == |acts| + 1 && InPhase(tr[|acts|], offset)
    ensures IsRun(tr', acts') && |tr'| == |acts'| + 1 && acts' == acts + Round()
    ensures tr'[0] == tr[0] && tr'[|acts'|].width == tr[|acts|].width
    ensures InPhase(tr'[|acts'|], Wrapped(offset + 1, tr[|acts|].width))
  {
    hide IsRun;
    var next := Wrapped(offset + 1, tr[|acts|].width);
    tr', acts' := ExtendRun(tr, acts, Arrive(1));
    tr', acts' := ExtendRun(tr', acts', Arrive(2));
    assert TeamMeets(tr'[|acts'|], 0);
    tr', acts' := ExtendRun(tr', acts', Release(0));
    var st := tr'[|acts'|];
    assert PastBarrier(st.tasks[1].lbl, st.width) == [ImplicitSegment(next, 1), ImplicitSegment(0, 2)];
    assert PastBarrier(st.tasks[2].lbl, st.width) == [ImplicitSegment(next, 1), ImplicitSegment(1, 2)];
    tr', acts' := ExtendRun(tr', acts', Leave(1));
    tr', acts' := ExtendRun(tr', acts', Leave(2));
  }

  lemma {:induction false} ManyPhases(width: Width, n: nat) returns (tr: seq<State<()>>, acts: seq<Action<()>>)
    ensures IsRun(tr, acts) && |tr| == |acts| + 1
    ensures acts == [Fork(0, 2), Start(1), Start(2), Touch(1, ())] + Rounds(n)
    ensures tr[0].width == tr[|acts|].width == width && InPhase(tr[|acts|], Wrapped(n, width))
  {
    hide IsRun, InPhase;
    if n == 0 {
      tr, acts := FirstPhase(width);
    } else {
      tr, acts := ManyPhases(width, n - 1);
      tr, acts := NextPhase(tr, acts, Wrapped(n - 1, width));
      AddBeforeCut(n - 1, 1);
    }
  }

  /** A run for every number of barriers: member 0 touches the location before the first and member 1 after the last.
      The graph orders the two accesses; the program does, too, unless the number is a multiple of 2^16. */
  lemma BarrierRun(n: nat) returns (tr: seq<State<()>>, acts: seq<Action<()>>)
    requires n > 0
    ensures acts == [Fork(0, 2), Start(1), Start(2), Touch(1, ())] + Rounds(n) + [Touch(2, ())]
    ensures IsRun(tr, acts) && tr[0].width.Bits16? && |tr[|acts|].accesses| == 2
    ensures var g, a, b := tr[|acts|].strands, tr[|acts|].accesses[0], tr[|acts|].accesses[1];
      && b.strand < |g|
      && Reaches(g, a.strand, b.strand)
      && HappensBefore(a.lbl, b.lbl) == Decide(n % FIELD_LIMIT != 0)
  {
    hide IsRun, Reaches, HappensBefore, Precedes, Survives;
    tr, acts := ManyPhases(Bits16, n);
    tr, acts := ExtendRun(tr, acts, Touch(2, ()));
    var un, same := ManyPhases(Unbounded, n);
    un, same := ExtendRun(un, same, Touch(2, ()));
    LongRunsExactly(un, tr, acts, |acts|, 0, 1);
    var hist, cur := tr[|acts|].accesses[0].lbl, tr[|acts|].accesses[1].lbl;
    PhasesOrdered(n);
    OutermostBarriers(0, 2, 0, 1, n);
    PhaseLabel(n);
  }

  lemma PhasesOrdered(n: nat)
    requires n > 0
    ensures Precedes([ImplicitSegment(0, 1), ImplicitSegment(0, 2)], [ImplicitSegment(n, 1), ImplicitSegment(1, 2)])
  {
    CommonIs([ImplicitSegment(0, 1), ImplicitSegment(0, 2)], [ImplicitSegment(n, 1), ImplicitSegment(1, 2)], 0);
  }

  lemma PhaseLabel(n: nat)
    ensures [ImplicitSegment(0, 1)] + [ImplicitSegment(0, 2)] == [ImplicitSegment(0, 1), ImplicitSegment(0, 2)]
    ensures AfterBarriers([ImplicitSegment(0, 1)] + [ImplicitSegment(1, 2)], n) ==
      [ImplicitSegment(n % FIELD_LIMIT, 1), ImplicitSegment(1, 2)]
  {
    BarriersAdvance([ImplicitSegment(0, 1)] + [ImplicitSegment(1, 2)], n);
  }
}
