/**
 Two explicit tasks that one task creates: whether the label test answers that the creator has waited for the first one
 before it created the second one.

 The first task has been waited for exactly if its creator has passed a taskwait, or has closed the task group it was
 in.  The code compares the number of group events and the nesting depth instead, and is wrong in both directions.
 */
module TaskGroups {
  import opened Labels
  import opened Core
  import opened Worksharing

  /** What the creator does between the two creations. */
  predicate IsEvent(op: Operation) {
    op.BeginGroup? || op.EndGroup? || op.WaitTasks? || op.CreateTask?
  }

  function Depth(op: Operation): int {
    if op.BeginGroup? then 1 else if op.EndGroup? then -1 else 0
  }

  /** Groups opened minus groups closed. */
  function Net(es: seq<Operation>): int {
    if es == [] then 0 else Depth(es[0]) + Net(es[1..])
  }

  /** The number of groups opened and closed. */
  function Groups(es: seq<Operation>): nat {
    if es == [] then 0 else (if es[0].BeginGroup? || es[0].EndGroup? then 1 else 0) + Groups(es[1..])
  }

  function Waits(es: seq<Operation>): nat {
    if es == [] then 0 else (if es[0].WaitTasks? then 1 else 0) + Waits(es[1..])
  }

  function Creates(es: seq<Operation>): nat {
    if es == [] then 0 else (if es[0].CreateTask? then 1 else 0) + Creates(es[1..])
  }

  /** The events are carried out on the label, and none of them ends the program. */
  predicate Performs(l: Label, es: seq<Operation>)
    decreases |es|
  {
    es == [] || (IsEvent(es[0]) && !Aborts(l, es[0]) && Performs(Mutate(l, es[0]), es[1..]))
  }

  function After(l: Label, es: seq<Operation>): Label
    requires Performs(l, es)
    decreases |es|
  {
    if es == [] then l else After(Mutate(l, es[0]), es[1..])
  }

  /** Only open groups are closed, and the depth stays within 16 bits. */
  predicate Nests(level: int, es: seq<Operation>)
    decreases |es|
  {
    0 <= level < FIELD_LIMIT && (es == [] || Nests(level + Depth(es[0]), es[1..]))
  }

  /** The group that was the innermost one at the start has been closed. */
  ghost predicate Closes(es: seq<Operation>) {
    exists k :: 0 <= k <= |es| && Net(es[..k]) < 0
  }

  /** The creator has waited for a task created just before these events. */
  ghost predicate WaitedFor(es: seq<Operation>) {
    WaitTasks in es || Closes(es)
  }

  /** The creator's segment after so many events. */
  function Counted(s: Segment, net: int, groups: nat, waits: nat, creates: nat): Segment
    requires s.groupLevel + net >= 0
  {
    s.(groupId := (s.groupId + groups) % FIELD_LIMIT, groupLevel := s.groupLevel + net, taskwait := s.taskwait + waits,
       taskCreate := s.taskCreate + creates)
  }

  lemma CountedTwice(s: Segment, net: int, groups: nat, waits: nat, creates: nat, net': int, groups': nat, waits': nat,
      creates': nat)
    requires s.groupLevel + net >= 0 && s.groupLevel + net + net' >= 0
    ensures Counted(Counted(s, net, groups, waits, creates), net', groups', waits', creates') ==
      Counted(s, net + net', groups + groups', waits + waits', creates + creates')
  {
  }

  lemma {:induction false} AfterIs(l: Label, es: seq<Operation>)
    requires |l| > 0 && Performs(l, es)
    requires LastSegment(l).groupId < FIELD_LIMIT && Nests(LastSegment(l).groupLevel, es)
    ensures LastSegment(l).groupLevel + Net(es) >= 0
    ensures After(l, es) ==
      l[|l| - 1 := Counted(LastSegment(l), Net(es), Groups(es), Waits(es), Creates(es))]
    decreases |es|
  {
    if es != [] {
      hide Mutate, Aborts, Counted;
      var s, e, rest := LastSegment(l), es[0], es[1..];
      EventIs(l, e);
      AfterIs(Mutate(l, e), rest);
      CountedTwice(s, Depth(e), if e.BeginGroup? || e.EndGroup? then 1 else 0, if e.WaitTasks? then 1 else 0,
                   if e.CreateTask? then 1 else 0, Net(rest), Groups(rest), Waits(rest), Creates(rest));
    } else {
      assert Counted(LastSegment(l), 0, 0, 0, 0) == LastSegment(l);
    }
  }

  lemma EventIs(l: Label, op: Operation)
    requires |l| > 0 && IsEvent(op) && !Aborts(l, op) && LastSegment(l).groupId < FIELD_LIMIT
    requires 0 <= LastSegment(l).groupLevel + Depth(op) < FIELD_LIMIT && LastSegment(l).groupLevel < FIELD_LIMIT
    ensures var s := Counted(LastSegment(l), Depth(op), if op.BeginGroup? || op.EndGroup? then 1 else 0,
        if op.WaitTasks? then 1 else 0, if op.CreateTask? then 1 else 0);
      && Mutate(l, op) == l[|l| - 1 := s]
      && s.groupId < FIELD_LIMIT
      && s.groupLevel == LastSegment(l).groupLevel + Depth(op)
  {
  }

  lemma {:induction false} WaitsCounted(es: seq<Operation>)
    ensures Waits(es) > 0 <==> WaitTasks in es
  {
    if es != [] {
      WaitsCounted(es[1..]);
    }
  }

  /** The group id has grown after `n` more group events; it has 16 bits. */
  predicate Rises(groupId: nat, n: nat) {
    groupId < (groupId + n) % FIELD_LIMIT
  }

  /** Every verdict on two explicit tasks of one task, with any segments of their own, and exactly when it says whether
      the creator has waited for the first one.  Where group ids do not wrap, `Rises` says that there is a group event:
      then the test is wrong if the first task's group is closed and more groups have been opened than closed, and if it
      is not closed and equally many have. */
  lemma SiblingTasksExactly(parent: Label, es: seq<Operation>, first: Segment, second: Segment)
    requires |parent| >= 2 && (LastSegment(parent).kind.WorkShare? ==> SingleExecutor(LastSegment(parent)))
    requires first.kind.Explicit? && second.kind.Explicit? && !Aborts(parent, CreateTask)
    requires Performs(Mutate(parent, CreateTask), es)
    requires LastSegment(parent).groupId < FIELD_LIMIT && Nests(LastSegment(parent).groupLevel, es)
    ensures var verdict := HappensBefore(parent + [first], After(Mutate(parent, CreateTask), es) + [second]);
      var risen := Rises(LastSegment(parent).groupId, Groups(es));
      && verdict == Decide(WaitTasks in es || (risen && Net(es) <= 0))
      && (verdict == Decide(WaitedFor(es)) <==>
          WaitTasks in es || (if Closes(es) then risen && Net(es) <= 0 else !(risen && Net(es) == 0)))
  {
    hide HappensBefore, Performs, After, Nests, Net, Groups, Waits, Creates, Closes, Mutate, Aborts;
    var p, s := parent[..|parent| - 1], LastSegment(parent);
    assert parent == p + [s];
    assert parent + [first] == parent + [first] + [];
    assert After(Mutate(parent, CreateTask), es) + [second] == After(Mutate(parent, CreateTask), es) + [second] + [];
    FamiliesExactly(p, s, es, first, [], second, []);
    NotClosed(es);
  }

  lemma CreatedIs(parent: Label, es: seq<Operation>)
    requires |parent| > 0 && !Aborts(parent, CreateTask) && Performs(Mutate(parent, CreateTask), es)
    requires LastSegment(parent).groupId < FIELD_LIMIT && Nests(LastSegment(parent).groupLevel, es)
    ensures LastSegment(parent).groupLevel + Net(es) >= 0
    ensures After(Mutate(parent, CreateTask), es) ==
      parent[|parent| - 1 := Counted(LastSegment(parent), Net(es), Groups(es), Waits(es), 1 + Creates(es))]
  {
    AfterIs(Mutate(parent, CreateTask), es);
  }

  lemma NotClosed(es: seq<Operation>)
    ensures Net(es) < 0 ==> Closes(es)
  {
    assert es[..|es|] == es;
  }

  /** The creator's label before the first creation and at a later moment, with the second task below it. */
  lemma CreatorIsOneTask(p: Label, s: Segment, es: seq<Operation>)
    requires p != [] && (s.kind.WorkShare? ==> SingleExecutor(s))
    requires !Aborts(p + [s], CreateTask) && Performs(Mutate(p + [s], CreateTask), es)
    requires s.groupId < FIELD_LIMIT && Nests(s.groupLevel, es)
    ensures s.groupLevel + Net(es) >= 0
    ensures var c := Counted(s, Net(es), Groups(es), Waits(es), 1 + Creates(es));
      && After(Mutate(p + [s], CreateTask), es) == p + [c]
      && OneTask(p, s, c)
  {
    assert LastSegment(p + [s]) == s;
    CreatedIs(p + [s], es);
    hide Performs, After, Nests, Net, Groups, Waits, Creates, Mutate, Aborts;
  }

  /** A task `first` with whatever is below it, and a later task of the same creator, or a task, loop or section below
      that one: ordered exactly by the task groups as counted, or by a taskwait if the first task ends with all that is
      below it. */
  lemma FamiliesExactly(p: Label, s: Segment, es: seq<Operation>, first: Segment, below: seq<Segment>, second: Segment,
      more: seq<Segment>)
    requires p != [] && (s.kind.WorkShare? ==> SingleExecutor(s))
    requires !Aborts(p + [s], CreateTask) && Performs(Mutate(p + [s], CreateTask), es)
    requires s.groupId < FIELD_LIMIT && Nests(s.groupLevel, es)
    requires first.kind.Explicit? && !second.kind.Implicit?
    ensures HappensBefore(p + [s] + [first] + below, After(Mutate(p + [s], CreateTask), es) + [second] + more) ==
      Decide((Rises(s.groupId, Groups(es)) && Net(es) <= 0) || (WaitTasks in es && Joined([first] + below)))
  {
    hide HappensBefore, Performs, After, Nests, Net, Groups, Waits, Creates, Mutate, Aborts, Joined;
    CreatorIsOneTask(p, s, es);
    WaitsCounted(es);
    var c := Counted(s, Net(es), Groups(es), Waits(es), 1 + Creates(es));
    assert p + [s] + [first] + below == p + [s] + ([first] + below);
    assert p + [c] + [second] + more == p + [c] + ([second] + more);
    OneTaskVerdict(p, s, [first] + below, c, [second] + more);
  }

  /** A task with whatever is below it, and its creator at a later moment: after a taskwait they are ordered exactly if
      the task ends with all that is below it, without one exactly if the task is marked as one of a group that has
      ended.  For the task itself this is right if there was a taskwait, or if the mark says whether its group has been
      closed. */
  lemma CreatorAfterTaskExactly(p: Label, s: Segment, es: seq<Operation>, first: Segment, below: seq<Segment>)
    requires p != [] && (s.kind.WorkShare? ==> SingleExecutor(s))
    requires !Aborts(p + [s], CreateTask) && Performs(Mutate(p + [s], CreateTask), es)
    requires s.groupId < FIELD_LIMIT && Nests(s.groupLevel, es)
    requires first.kind.Explicit?
    ensures var verdict := HappensBefore(p + [s] + [first] + below, After(Mutate(p + [s], CreateTask), es));
      && verdict == (if WaitTasks in es then Decide(below == [] || ChainWaited([first] + below))
                     else Decide(s.groupLevel > 0 && first.groupSynced))
      && (below == [] ==> (verdict == Decide(WaitedFor(es)) <==>
           WaitTasks in es || (Closes(es) <==> s.groupLevel > 0 && first.groupSynced)))
  {
    hide HappensBefore, Performs, After, Nests, Net, Groups, Waits, Creates, Mutate, Aborts, ChainWaited, Closes;
    CreatorIsOneTask(p, s, es);
    WaitsCounted(es);
    var c := Counted(s, Net(es), Groups(es), Waits(es), 1 + Creates(es));
    assert p + [s] + [first] + below == p + [s] + ([first] + below);
    assert p + [c] == p + [c] + [];
    OneTaskVerdict(p, s, [first] + below, c, []);
  }

  /** What a task has done comes before whatever it does later, and before all it creates later. */
  lemma CreatorBeforeTaskExactly(p: Label, s: Segment, es: seq<Operation>, more: seq<Segment>)
    requires p != [] && (s.kind.WorkShare? ==> SingleExecutor(s))
    requires !Aborts(p + [s], CreateTask) && Performs(Mutate(p + [s], CreateTask), es)
    requires s.groupId < FIELD_LIMIT && Nests(s.groupLevel, es)
    ensures HappensBefore(p + [s], After(Mutate(p + [s], CreateTask), es) + more) == Ordered
    ensures HappensBefore(p + [s], p + [s] + more) == Ordered
  {
    hide HappensBefore, Performs, After, Nests, Net, Groups, Waits, Creates, Mutate, Aborts;
    CreatorIsOneTask(p, s, es);
    assert p + [s] == p + [s] + [];
    OneTaskVerdict(p, s, [], Counted(s, Net(es), Groups(es), Waits(es), 1 + Creates(es)), more);
    PrefixVerdict(p + [s], more);
  }

  lemma PrefixVerdict(l: Label, more: seq<Segment>)
    ensures HappensBefore(l, l + more) == Ordered
    ensures more != [] ==> HappensBefore(l + more, l) == Concurrent
  {
    AgreementUnique(l, l + more, |l|);
    AgreementUnique(l + more, l, |l|);
  }

  /** Tasks of the initial task are always taken for ordered: its segment is not compared further. */
  lemma InitialTaskSiblings(parent: Label, es: seq<Operation>, first: Segment, second: Segment)
    requires |parent| == 1 && parent[0].kind.Implicit? && parent[0].span == 1 && !Aborts(parent, CreateTask)
    requires Performs(Mutate(parent, CreateTask), es)
    requires parent[0].groupId < FIELD_LIMIT && Nests(parent[0].groupLevel, es)
    ensures HappensBefore(parent + [first], After(Mutate(parent, CreateTask), es) + [second]) == Ordered
  {
    hide Performs, After, Nests, Net, Groups, Waits, Creates, Mutate, Aborts;
    CreatedIs(parent, es);
    AgreementUnique(parent + [first], After(Mutate(parent, CreateTask), es) + [second], 0);
  }

  /** A missed race: the creator opens and closes a group between the two creations, and waits for neither task. */
  lemma EmptyGroupOrders() returns (parent: Label, es: seq<Operation>)
    ensures es == [BeginGroup, EndGroup] && parent == [ImplicitSegment(0, 1), ImplicitSegment(0, 2)]
    ensures !Aborts(parent, CreateTask) && Performs(Mutate(parent, CreateTask), es)
    ensures !WaitedFor(es)
    ensures HappensBefore(Mutate(parent, GenExpTask), Mutate(After(Mutate(parent, CreateTask), es), GenExpTask)) ==
      Ordered
  {
    parent, es := [ImplicitSegment(0, 1), ImplicitSegment(0, 2)], [BeginGroup, EndGroup];
    assert es[1..] == [EndGroup] && es[1..][1..] == [];
    assert forall k | 0 <= k <= 2 :: Net(es[..k]) >= 0 by {
      assert es[..0] == [] && es[..1] == [BeginGroup] && es[..2] == es;
    }
    hide HappensBefore, Performs, After, Nests, Closes;
    SiblingTasksExactly(parent, es, EXPLICIT_SEGMENT, EXPLICIT_SEGMENT);
  }

  /** A false alarm: the first task's group is closed, and the second one is created two groups deep. */
  lemma DeeperGroupHides() returns (parent: Label, es: seq<Operation>)
    ensures es == [EndGroup, BeginGroup, BeginGroup]
    ensures parent == Mutate([ImplicitSegment(0, 1), ImplicitSegment(0, 2)], BeginGroup)
    ensures !Aborts(parent, CreateTask) && Performs(Mutate(parent, CreateTask), es)
    ensures WaitedFor(es)
    ensures HappensBefore(Mutate(parent, GenExpTask), Mutate(After(Mutate(parent, CreateTask), es), GenExpTask)) ==
      Concurrent
  {
    parent := Mutate([ImplicitSegment(0, 1), ImplicitSegment(0, 2)], BeginGroup);
    es := [EndGroup, BeginGroup, BeginGroup];
    assert es[1..] == [BeginGroup, BeginGroup] && es[1..][1..] == [BeginGroup] && es[1..][1..][1..] == [];
    assert es[..1] == [EndGroup] && Net(es[..1]) < 0;
    hide HappensBefore, Performs, After, Nests, Closes;
    SiblingTasksExactly(parent, es, EXPLICIT_SEGMENT, EXPLICIT_SEGMENT);
  }
}
