/**
 Task labels: sequences of segments, and what each label operation computes.

 A segment is modelled as a record; module `SegmentWord` proves that the packed 64-bit word holds exactly such
 a record.  A label is the sequence of its segments; module `LabelHeap` has the shared segment objects.
 */
module Labels {

  datatype Kind = Implicit | Explicit | WorkShare

  /** `marked` is bit 2 of the word, which means "section" or "place holder" in a workshare segment.
      `groupId`, `groupLevel` and `waitPhase` live outside the word and take no part in comparisons. */
  datatype Segment = Segment(
    kind: Kind,
    offset: nat,
    span: nat,
    taskwait: nat,
    phase: nat,
    loopCount: nat,
    taskCreate: nat,
    groupSynced: bool,
    waited: bool,
    marked: bool,
    groupId: nat,
    groupLevel: nat,
    waitPhase: nat,
    workShareId: nat)

  type Label = seq<Segment>

  const FIELD_LIMIT: nat := 0x1_0000            // offset, span, task group id and level have 16 bits
  const SINGLE_EXEC: nat := 0x8000_0000_0000_0000

  const SAME_LABEL := -3
  const RIGHT_IS_PREFIX := -2
  const LEFT_IS_PREFIX := -1

  function ImplicitSegment(offset: nat, span: nat): Segment {
    Segment(Implicit, offset, span, 0, 0, 0, 0, false, false, false, 0, 0, 0, 0)
  }

  /** Segment equality: the packed words, and for workshare segments also the workshare id. */
  predicate SameSegment(a: Segment, b: Segment) {
    && a.kind == b.kind
    && a.offset == b.offset
    && a.span == b.span
    && a.taskwait == b.taskwait
    && a.phase == b.phase
    && a.loopCount == b.loopCount
    && a.taskCreate == b.taskCreate
    && a.groupSynced == b.groupSynced
    && a.waited == b.waited
    && a.marked == b.marked
    && (a.kind.WorkShare? ==> a.workShareId == b.workShareId)
  }

  /** Where the comparison of two labels stops: the number of leading segments that compare equal. */
  function Agreement(l: Label, r: Label): (k: nat)
    ensures k <= |l| && k <= |r|
    ensures forall i :: 0 <= i < k ==> SameSegment(l[i], r[i])
    ensures k < |l| && k < |r| ==> !SameSegment(l[k], r[k])
  {
    if |l| == 0 || |r| == 0 || !SameSegment(l[0], r[0]) then 0
    else 1 + Agreement(l[1..], r[1..])
  }

  lemma {:induction false} AgreementUnique(l: Label, r: Label, k: nat)
    requires k <= |l| && k <= |r|
    requires forall i :: 0 <= i < k ==> SameSegment(l[i], r[i])
    requires k < |l| && k < |r| ==> !SameSegment(l[k], r[k])
    ensures k == Agreement(l, r)
  {
    if k > 0 {
      AgreementUnique(l[1..], r[1..], k - 1);
    }
  }

  /** The index of the first differing segment, or one of the three negative codes. */
  function Compare(l: Label, r: Label): (d: int)
    ensures d >= 0 ==> d < |l| && d < |r| && d == Agreement(l, r)
    ensures d < 0 ==> d == SAME_LABEL || d == RIGHT_IS_PREFIX || d == LEFT_IS_PREFIX
  {
    var k := Agreement(l, r);
    if k < |l| && k < |r| then k
    else if |l| == |r| then SAME_LABEL
    else if k == |l| then LEFT_IS_PREFIX
    else RIGHT_IS_PREFIX
  }

  method CompareLabels(left: Label, right: Label) returns (d: int)
    ensures d == Compare(left, right)
  {
    var len := if |left| <= |right| then |left| else |right|;
    for i := 0 to len
      invariant forall j :: 0 <= j < i ==> SameSegment(left[j], right[j])
    {
      if !SameSegment(left[i], right[i]) {
        AgreementUnique(left, right, i);
        return i;
      }
    }
    AgreementUnique(left, right, len);
    if |left| == |right| {
      return SAME_LABEL;
    }
    if len == |left| {
      return LEFT_IS_PREFIX;
    }
    return RIGHT_IS_PREFIX;
  }

  // ---- what the label operations compute ----

  function InitTaskLabel(): Label {
    [ImplicitSegment(0, 1)]
  }

  function ImpTaskLabel(parent: Label, index: nat, parallelism: nat): Label {
    parent + [ImplicitSegment(index, parallelism)]
  }

  /** A team barrier advances the second last segment by its span; the field keeps 16 bits. */
  function BarrierEnd(l: Label): Label
    requires |l| >= 2
  {
    var s := l[|l| - 2];
    l[|l| - 2 := s.(offset := (s.offset + s.span) % FIELD_LIMIT)]
  }

  function ParentImpEnd(child: Label): Label
    requires |child| >= 1
  {
    child[..|child| - 1]
  }

  function LastSegment(l: Label): Segment
    requires |l| >= 1
  {
    l[|l| - 1]
  }

  function WithLast(l: Label, s: Segment): Label
    requires |l| >= 1
  {
    l[..|l| - 1] + [s]
  }

  const EXPLICIT_SEGMENT := ImplicitSegment(0, 1).(kind := Explicit)

  const WORK_SHARE_SEGMENT := ImplicitSegment(0, 1).(kind := WorkShare)

  /** One label operation each; the arguments are those of the mutators. */
  datatype Operation =
    | GenImpTask(index: nat, parallelism: nat)
    | GenExpTask
    | EndImpTask
    | EndTask
    | CreateTask
    | EndBarrier
    | WaitTasks
    | PassOrdered
    | BeginLoop
    | EndLoop
    | Dispatch(id: nat, isSection: bool)
    | BeginGroup
    | EndGroup

  /** When the operation ends the program: a label that is too short, a counter at its limit, a wrong last segment. */
  predicate Aborts(l: Label, op: Operation) {
    match op
    case GenImpTask(_, parallelism) => parallelism >= FIELD_LIMIT
    case GenExpTask => false
    case BeginLoop => false
    case EndBarrier => |l| < 2
    case EndLoop => |l| < 2 || l[|l| - 2].loopCount + 1 >= 16
    case _ =>
      || l == []
      || (op.EndTask? && !LastSegment(l).kind.Explicit?)
      || (op.CreateTask? && LastSegment(l).taskCreate + 1 >= 0x8000)
      || (op.WaitTasks? && LastSegment(l).taskwait + 1 >= 16)
      || (op.PassOrdered? && LastSegment(l).phase + 1 >= 16)
  }

  /** The label an operation computes; offset and group counters have 16 bits. */
  function Mutate(l: Label, op: Operation): Label
    requires !Aborts(l, op)
  {
    match op
    case GenImpTask(index, parallelism) => ImpTaskLabel(l, index % FIELD_LIMIT, parallelism)
    case GenExpTask => l + [EXPLICIT_SEGMENT]
    case EndImpTask => ParentImpEnd(l)
    case EndTask => ParentImpEnd(l)
    case CreateTask => WithLast(l, LastSegment(l).(taskCreate := LastSegment(l).taskCreate + 1))
    case EndBarrier => BarrierEnd(l)
    case WaitTasks => WithLast(l, LastSegment(l).(taskwait := LastSegment(l).taskwait + 1))
    case PassOrdered => WithLast(l, LastSegment(l).(phase := LastSegment(l).phase + 1))
    case BeginLoop => l + [WORK_SHARE_SEGMENT.(marked := true)]
    case EndLoop => var m := ParentImpEnd(l); WithLast(m, LastSegment(m).(loopCount := LastSegment(m).loopCount + 1))
    case Dispatch(id, isSection) => WithLast(l, WORK_SHARE_SEGMENT.(marked := isSection, workShareId := id))
    case BeginGroup =>
      WithLast(l, LastSegment(l).(groupId := (LastSegment(l).groupId + 1) % FIELD_LIMIT,
          groupLevel := (LastSegment(l).groupLevel + 1) % FIELD_LIMIT))
    case EndGroup =>
      WithLast(l, LastSegment(l).(groupId := (LastSegment(l).groupId + 1) % FIELD_LIMIT,
          groupLevel := (LastSegment(l).groupLevel + FIELD_LIMIT - 1) % FIELD_LIMIT))
  }
}
