/**
 The label test on loops, sections and `ordered` regions: every verdict on two members of a team, and on two moments of
 one task, with whatever runs below them.
 */
module Worksharing {
  import opened Labels
  import opened Core
  import opened LabelOrder

  // ---- vocabulary ----

  /** How many `ordered` regions an iteration has left, and how many it has entered, if each counts two phases. */
  function Left(phase: nat): nat { phase / 2 }
  function Entered(phase: nat): nat { (phase + 1) / 2 }

  /** The tasks down the chain have ended: each one is waited for by the one above, up to an implicit task, or to a task
      that has opened a task group. */
  predicate ChainWaited(chain: seq<Segment>) {
    chain == [] || chain[0].kind.Implicit? ||
    (chain[0].kind.Explicit? && chain[0].groupLevel > 0) ||
    ((chain[0].kind.Explicit? ==> chain[0].waited) && ChainWaited(chain[1..]))
  }

  /** The task at the head of the chain ends together with all below it; a leaf always does. */
  predicate Joined(chain: seq<Segment>) {
    |chain| == 1 || ChainWaited(chain)
  }

  /** The tasks below an iteration `w` have ended when it leaves its `ordered` region, as the code decides it. */
  predicate EndsInRegion(w: Segment, below: seq<Segment>) {
    || below == []
    || below[0].kind.Implicit?
    || (below[0].kind.Explicit? &&
        if w.groupLevel > 0 && (w.phase % 2 == 1 || (below[0].groupSynced && below[0].groupId <= w.phase)) then true
        else below[0].waited && below[0].waitPhase <= w.phase && Joined(below))
  }

  lemma {:induction false} ChainIs(l: Label, start: nat)
    requires start <= |l|
    ensures Unbroken(l, start) <==> ChainWaited(l[start..])
    decreases |l| - start
  {
    if start < |l| {
      assert l[start..][1..] == l[start + 1..];
      ChainIs(l, start + 1);
      if !EndsChain(l[start]) {
        UnbrokenStep(l, start);
      }
    }
  }

  lemma UnbrokenStep(l: Label, start: nat)
    requires start < |l| && !EndsChain(l[start])
    ensures Unbroken(l, start) <==> (l[start].kind.Explicit? ==> l[start].waited) && Unbroken(l, start + 1)
  {
    if Unbroken(l, start) {
      forall i | start + 1 <= i < |l| && l[i].kind.Explicit? && (forall j :: start + 1 <= j <= i ==> !EndsChain(l[j]))
        ensures l[i].waited
      {
        assert forall j :: start <= j <= i ==> j == start || !EndsChain(l[j]);
      }
    }
  }

  /** The two labels part right behind `p`. */
  lemma Parted(p: Label, h: Segment, below: seq<Segment>, c: Segment, more: seq<Segment>)
    requires !SameSegment(h, c)
    ensures Compare(p + [h] + below, p + [c] + more) == |p|
    ensures (p + [h] + below)[|p|] == h && (p + [c] + more)[|p|] == c
    ensures below != [] ==> (p + [h] + below)[|p| + 1] == below[0]
    ensures more != [] ==> (p + [c] + more)[|p| + 1] == more[0]
    ensures |p + [h] + below| == |p| + 1 + |below| && |p + [c] + more| == |p| + 1 + |more|
    ensures (p + [h] + below)[|p| + 1..] == below
  {
    AgreementUnique(p + [h] + below, p + [c] + more, |p|);
  }

  lemma JoinedIs(p: Label, h: Segment, below: seq<Segment>)
    requires below != []
    ensures SyncChain(p + [h] + below, |p| + 1) <==> Joined(below)
  {
    var l := p + [h] + below;
    assert l[|p| + 1..] == below;
    ChainIs(l, |p| + 1);
  }

  // ---- ordered regions ----

  /** What the code answers for an iteration `w` with tasks below it and an iteration `v`: whether `w` has left fewer
      `ordered` regions than `v` has entered, and what is below it has ended. */
  function OrderedVerdict(w: Segment, below: seq<Segment>, v: Segment): Verdict {
    if w.marked || v.marked || Left(w.phase) >= Entered(v.phase) then Concurrent
    else if below != [] && below[0].kind.WorkShare? then Fatal
    else Decide(EndsInRegion(w, below))
  }

  lemma OrderedIs(p: Label, w: Segment, below: seq<Segment>, q: Label, v: Segment, more: seq<Segment>)
    requires |p| == |q|
    ensures OrderedSection(p + [w] + below, q + [v] + more, |p|) == OrderedVerdict(w, below, v)
  {
    var hist, cur := p + [w] + below, q + [v] + more;
    assert hist[|p|] == w && cur[|p|] == v;
    RanksAreCounts(w.phase, v.phase);
    if below != [] {
      assert hist[|p| + 1] == below[0];
      JoinedIs(p, w, below);
    }
  }

  lemma RanksAreCounts(h: nat, c: nat)
    ensures ExitRank(h) == 2 * Left(h) && EnterRank(c) == 2 * Entered(c)
  {
  }

  /** Members of one team, in different loops, sections or iterations of one loop, with whatever is below: they are
      ordered at most by the `ordered` regions of one loop. */
  lemma MembersVerdict(p: Label, h: Segment, below: seq<Segment>, c: Segment, more: seq<Segment>)
    requires h.span == c.span > 1 && h.offset % h.span != c.offset % c.span
    ensures HappensBefore(p + [h] + below, p + [c] + more) ==
      if below == [] || more == [] || !below[0].kind.WorkShare? || !more[0].kind.WorkShare? then Concurrent
      else if h.loopCount != c.loopCount then Concurrent
      else OrderedVerdict(below[0], below[1..], more[0])
  {
    Parted(p, h, below, c, more);
    if below != [] && more != [] {
      assert p + [h] + below == (p + [h]) + [below[0]] + below[1..];
      assert p + [c] + more == (p + [c]) + [more[0]] + more[1..];
      OrderedIs(p + [h], below[0], below[1..], p + [c], more[0], more[1..]);
    }
    hide OrderedVerdict, OrderedSection, Compare;
  }

  /** Two iterations that one member executes: they are judged in the same way. */
  lemma IterationsVerdict(p: Label, w: Segment, below: seq<Segment>, v: Segment, more: seq<Segment>)
    requires w.kind.WorkShare? && v.kind.WorkShare? && w.span == v.span == 1 && !SameSegment(w, v)
    requires !(SingleExecutor(w) && SingleExecutor(v))
    ensures HappensBefore(p + [w] + below, p + [v] + more) == OrderedVerdict(w, below, v)
  {
    Parted(p, w, below, v, more);
    OrderedIs(p, w, below, p, v, more);
    hide OrderedVerdict, OrderedSection, Compare;
  }

  /** Labels that part in different teams, or in segments of different kinds, end the program. */
  lemma MismatchVerdict(p: Label, h: Segment, below: seq<Segment>, c: Segment, more: seq<Segment>)
    requires h.span != c.span || (h.span == 1 && h.kind != c.kind) || (h.span == 0 && h.offset != c.offset)
    ensures HappensBefore(p + [h] + below, p + [c] + more) == Fatal
  {
    Parted(p, h, below, c, more);
  }

  /** The executor of a `single` region has the topmost of the 64 bits set. */
  lemma SingleIsTopBit(s: Segment)
    requires s.workShareId < 0x1_0000_0000_0000_0000
    ensures SingleExecutor(s) <==> s.workShareId >= 0x8000_0000_0000_0000
  {
  }

  // ---- one task at two moments ----

  /** The segments are those of one task: an implicit task below the initial one, an explicit task, or the executor of a
      `single` region. */
  predicate OneTask(p: Label, h: Segment, c: Segment) {
    && h.kind == c.kind && h.span == c.span && h.offset == c.offset && !SameSegment(h, c)
    && (h.kind.WorkShare? ==> SingleExecutor(h) && SingleExecutor(c))
    && (h.kind.Implicit? ==> p != [])
  }

  /** The later creation is judged by the task group and the taskwaits of the task in between. */
  function CreationVerdict(h: Segment, below: seq<Segment>, c: Segment): Verdict {
    if h.groupId < c.groupId && c.groupLevel <= h.groupLevel then Ordered
    else if h.taskwait == c.taskwait then Concurrent
    else if h.taskwait < c.taskwait then Decide(Joined(below))
    else Fatal
  }

  /** Every verdict on two moments `h` and `c` of one task, the first with `below` under it, the second with `more`. */
  lemma OneTaskVerdict(p: Label, h: Segment, below: seq<Segment>, c: Segment, more: seq<Segment>)
    requires OneTask(p, h, c)
    ensures HappensBefore(p + [h] + below, p + [c] + more) ==
      if below == [] then Ordered                                   // the task itself, earlier
      else if more == [] then                                       // the task itself, later
        match below[0].kind
        case Implicit => Fatal
        case WorkShare => Decide(below[0].marked)                   // a loop that has not dispatched yet, or has
        case Explicit =>
          if h.taskwait < c.taskwait then Decide(Joined(below))
          else if h.taskwait == c.taskwait then Decide(h.groupLevel > 0 && below[0].groupSynced)
          else Fatal
      else if below[0].kind.Explicit? && !more[0].kind.Implicit? then CreationVerdict(h, below, c)
      else if below[0].kind.Implicit? && more[0].kind.Implicit? then Fatal
      else Concurrent
  {
    Parted(p, h, below, c, more);
    if below != [] {
      JoinedIs(p, h, below);
    }
    hide Compare, SyncChain, Joined, SameSegment;
  }

  // ---- loops, by the operations on the label ----

  /** The label after `n` loops without barrier. */
  function LoopsDone(l: Label, n: nat): Label
    requires |l| > 0 && LastSegment(l).loopCount + n < 16
    ensures |LoopsDone(l, n)| == |l| && LastSegment(LoopsDone(l, n)).loopCount == LastSegment(l).loopCount + n
  {
    if n == 0 then l else Mutate(Mutate(LoopsDone(l, n - 1), BeginLoop), EndLoop)
  }

  lemma {:induction false} LoopsDoneIs(l: Label, n: nat)
    requires |l| > 0 && LastSegment(l).loopCount + n < 16
    ensures LoopsDone(l, n) == l[|l| - 1 := LastSegment(l).(loopCount := LastSegment(l).loopCount + n)]
  {
    if n > 0 {
      LoopsDoneIs(l, n - 1);
    }
  }

  /** The label of an iteration at its beginning: the first one of a loop, or one in place of an earlier one. */
  function Iteration(l: Label, id: nat): Label {
    Mutate(Mutate(l, BeginLoop), Dispatch(id, false))
  }

  /** The label after `n` begins and ends of `ordered` regions. */
  function Phases(l: Label, n: nat): Label
    requires |l| > 0 && LastSegment(l).phase + n < 16
    ensures |Phases(l, n)| == |l| && LastSegment(Phases(l, n)).phase == LastSegment(l).phase + n
  {
    if n == 0 then l else Mutate(Phases(l, n - 1), PassOrdered)
  }

  lemma {:induction false} PhasesIs(l: Label, n: nat)
    requires |l| > 0 && LastSegment(l).phase + n < 16
    ensures Phases(l, n) == l[|l| - 1 := LastSegment(l).(phase := LastSegment(l).phase + n)]
  {
    if n > 0 {
      PhasesIs(l, n - 1);
    }
  }

  function IterationSegment(id: nat, phase: nat): Segment {
    ImplicitSegment(0, 1).(kind := WorkShare, workShareId := id, phase := phase)
  }

  lemma IterationIs(l: Label, id: nat, phase: nat)
    requires phase < 16
    ensures |Iteration(l, id)| == |l| + 1 && LastSegment(Iteration(l, id)).phase == 0
    ensures Phases(Iteration(l, id), phase) == l + [IterationSegment(id, phase)]
  {
    assert Iteration(l, id) == l + [IterationSegment(id, 0)];
    PhasesIs(Iteration(l, id), phase);
    assert l + [IterationSegment(id, phase)] == (l + [IterationSegment(id, 0)])[|l| := IterationSegment(id, phase)];
  }

  lemma MembersInIterations(q: Label, s: Segment, t: Segment, id: nat, id': nat, h: nat, c: nat)
    requires s.span == t.span > 1 && s.offset % s.span != t.offset % t.span
    ensures HappensBefore(q + [s] + [IterationSegment(id, h)], q + [t] + [IterationSegment(id', c)]) ==
      Decide(s.loopCount == t.loopCount && h / 2 < (c + 1) / 2)
  {
    hide HappensBefore;
    MembersVerdict(q, s, [IterationSegment(id, h)], t, [IterationSegment(id', c)]);
  }

  lemma MemberAfterLoops(q: Label, n: nat, x: nat, a: nat)
    requires a < 16
    ensures LoopsDone(q + [ImplicitSegment(x, n)], a) == q + [ImplicitSegment(x, n).(loopCount := a)]
  {
    LoopsDoneIs(q + [ImplicitSegment(x, n)], a);
    hide LoopsDone;
  }

  /** Two members of a team, each in an iteration, after `a` and `b` loops and `h` and `c` begins and ends of `ordered`
      regions: ordered exactly if it is the same loop and the first access is made before or in an `ordered` region that
      comes before one which the second access has reached. */
  lemma LoopIterationsExactly(q: Label, n: nat, x: nat, y: nat, a: nat, b: nat, id: nat, id': nat, h: nat, c: nat)
    requires n > 1 && x % n != y % n && a < 16 && b < 16 && h < 16 && c < 16
    ensures var l, m := LoopsDone(q + [ImplicitSegment(x, n)], a), LoopsDone(q + [ImplicitSegment(y, n)], b);
      && LastSegment(Iteration(l, id)).phase == LastSegment(Iteration(m, id')).phase == 0
      && HappensBefore(Phases(Iteration(l, id), h), Phases(Iteration(m, id'), c)) ==
        Decide(a == b && h / 2 < (c + 1) / 2)
  {
    hide HappensBefore, Phases, Iteration, LoopsDone, Decide;
    MemberAfterLoops(q, n, x, a);
    MemberAfterLoops(q, n, y, b);
    IterationIs(LoopsDone(q + [ImplicitSegment(x, n)], a), id, h);
    IterationIs(LoopsDone(q + [ImplicitSegment(y, n)], b), id', c);
    MembersInIterations(q, ImplicitSegment(x, n).(loopCount := a), ImplicitSegment(y, n).(loopCount := b), id, id', h,
                        c);
  }

  /** Two iterations that one member executes one after the other are judged by their `ordered` regions, too: another
      member might have got one of them. */
  lemma OwnIterationsExactly(l: Label, id: nat, id': nat, h: nat, c: nat)
    requires id != id' && h < 16 && c < 16 && (id < SINGLE_EXEC || id' < SINGLE_EXEC)
    ensures LastSegment(Iteration(l, id)).phase == 0 == LastSegment(Iteration(l, id')).phase
    ensures Mutate(Phases(Iteration(l, id), h), Dispatch(id', false)) == Iteration(l, id')
    ensures HappensBefore(Phases(Iteration(l, id), h), Phases(Iteration(l, id'), c)) == Decide(h / 2 < (c + 1) / 2)
  {
    hide HappensBefore, Phases, Iteration, Mutate;
    IterationIs(l, id, h);
    IterationIs(l, id', c);
    Redispatch(l, id, id', h);
    OwnVerdict(l, id, id', h, c);
  }

  lemma Redispatch(l: Label, id: nat, id': nat, h: nat)
    ensures Mutate(l + [IterationSegment(id, h)], Dispatch(id', false)) == Iteration(l, id')
  {
    assert Mutate(l + [IterationSegment(id, h)], Dispatch(id', false)) == l + [IterationSegment(id', 0)];
  }

  lemma OwnVerdict(l: Label, id: nat, id': nat, h: nat, c: nat)
    requires id != id' && (id < SINGLE_EXEC || id' < SINGLE_EXEC)
    ensures HappensBefore(l + [IterationSegment(id, h)], l + [IterationSegment(id', c)]) == Decide(h / 2 < (c + 1) / 2)
  {
    hide HappensBefore;
    assert l + [IterationSegment(id, h)] == l + [IterationSegment(id, h)] + [];
    assert l + [IterationSegment(id', c)] == l + [IterationSegment(id', c)] + [];
    IterationsVerdict(l, IterationSegment(id, h), [], IterationSegment(id', c), []);
  }

  /** Sections are never ordered among each other. */
  lemma SectionsExactly(q: Label, n: nat, x: nat, y: nat, id: nat, id': nat)
    requires n > 1 && x % n != y % n
    ensures var l, m := q + [ImplicitSegment(x, n)], q + [ImplicitSegment(y, n)];
      HappensBefore(Mutate(Mutate(l, BeginLoop), Dispatch(id, true)), Mutate(Mutate(m, BeginLoop), Dispatch(id', true)))
        == Concurrent
  {
    var s, t := ImplicitSegment(x, n), ImplicitSegment(y, n);
    var w, v := IterationSegment(id, 0).(marked := true), IterationSegment(id', 0).(marked := true);
    assert Mutate(Mutate(q + [s], BeginLoop), Dispatch(id, true)) == q + [s] + [w];
    assert Mutate(Mutate(q + [t], BeginLoop), Dispatch(id', true)) == q + [t] + [v];
    MembersVerdict(q, s, [w], t, [v]);
  }

  /** A loop without barrier, and what the member does after it: before its first iteration it is on its own, but its
      iterations are concurrent to whatever comes after. */
  lemma AfterLoopExactly(q: Label, s: Segment, id: nat, h: nat)
    requires q != [] && s.kind.Implicit? && s.loopCount + 1 < 16 && h < 16
    ensures var l := q + [s];
      && HappensBefore(Mutate(l, BeginLoop), LoopsDone(l, 1)) == Ordered
      && LastSegment(Iteration(l, id)).phase == 0
      && HappensBefore(Phases(Iteration(l, id), h), LoopsDone(l, 1)) == Concurrent
  {
    var l, t := q + [s], s.(loopCount := s.loopCount + 1);
    LoopsDoneIs(l, 1);
    IterationIs(l, id, h);
    assert LoopsDone(l, 1) == q + [t] + [];
    assert Mutate(l, BeginLoop) == q + [s] + [WORK_SHARE_SEGMENT.(marked := true)];
    OneTaskVerdict(q, s, [WORK_SHARE_SEGMENT.(marked := true)], t, []);
    OneTaskVerdict(q, s, [IterationSegment(id, h)], t, []);
    hide HappensBefore, Phases, Iteration, LoopsDone;
  }
}
