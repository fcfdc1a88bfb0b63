/**
 Labels on the heap: a label is a vector of pointers to segment objects, and copying a label copies the pointers only.
 The mutators replace the segments they change by fresh ones, so that the labels stored with access records keep their
 meaning; the one exception writes a shared segment in place.
 */
module LabelHeap {
  import opened Bits
  import opened Labels
  import opened SegmentWord

  /** A base or workshare segment; the type bits of `value` tell which. */
  class SegmentObject {
    var value: nat
    var taskGroup: nat
    var orderSecVal: nat
    var workShareId: nat

    function State(): Words
      reads this
    {
      Words(value, taskGroup, orderSecVal, workShareId)
    }

    ghost predicate Valid()
      reads this
    {
      State().Valid()
    }

    function Content(): Segment
      reads this
    {
      Read(State())
    }

    /** A base segment; the offset keeps 16 bits. */
    constructor (kind: Kind, offset: nat, span: nat)
      requires span < FIELD_LIMIT
      ensures Valid() && Content() == ImplicitSegment(offset % FIELD_LIMIT, span).(kind := kind)
    {
      hide Read, WithOffsetSpan, WithType, TypeCode, Get, Pow2, Lo, Hi;
      value := WithOffsetSpan(WithType(0, TypeCode(kind)), offset, span);
      taskGroup, orderSecVal, workShareId := 0, 0, 0;
      new;
      NewContent(kind, offset, span);
    }

    constructor Clone(other: SegmentObject)
      ensures State() == other.State()
      ensures other.Valid() ==> Valid() && Content() == other.Content()
    {
      value, taskGroup, orderSecVal, workShareId := other.value, other.taskGroup, other.orderSecVal, other.workShareId;
    }

    method SetOffsetSpan(offset: nat, span: nat)
      requires Valid() && span < FIELD_LIMIT
      modifies this
      ensures Valid() && Content() == old(Content()).(offset := offset % FIELD_LIMIT, span := span)
    {
      OffsetSpanContent(State(), offset, span);
      value := WithOffsetSpan(value, offset, span);
    }

    // The four counters end the program at their limit.

    method SetTaskcreate(n: nat) returns (ok: bool)
      requires Valid()
      modifies this
      ensures ok <==> n < 0x8000
      ensures ok ==> Valid() && Content() == old(Content()).(taskCreate := n)
    {
      if n >= 0x8000 {
        return false;
      }
      CounterContent(State(), TaskCreate, n);
      value := WithTaskCreate(value, n);
      return true;
    }

    method SetLoopCount(n: nat) returns (ok: bool)
      requires Valid()
      modifies this
      ensures ok <==> n < 16
      ensures ok ==> Valid() && Content() == old(Content()).(loopCount := n)
    {
      if n >= 16 {
        return false;
      }
      CounterContent(State(), LoopCount, n);
      value := WithLoopCount(value, n);
      return true;
    }

    method SetPhase(n: nat) returns (ok: bool)
      requires Valid()
      modifies this
      ensures ok <==> n < 16
      ensures ok ==> Valid() && Content() == old(Content()).(phase := n)
    {
      if n >= 16 {
        return false;
      }
      CounterContent(State(), Phase, n);
      value := WithPhase(value, n);
      return true;
    }

    method SetTaskwait(n: nat) returns (ok: bool)
      requires Valid()
      modifies this
      ensures ok <==> n < 16
      ensures ok ==> Valid() && Content() == old(Content()).(taskwait := n)
    {
      if n >= 16 {
        return false;
      }
      CounterContent(State(), Taskwait, n);
      value := WithTaskwait(value, n);
      return true;
    }

    method SetTaskGroup(id: nat, level: nat)
      requires Valid() && id < FIELD_LIMIT && level < FIELD_LIMIT
      modifies this
      ensures Valid() && Content() == old(Content()).(groupId := id, groupLevel := level)
    {
      Small();
      GroupFields(taskGroup, id);
      taskGroup := WithGroupId(taskGroup, id);
      GroupFields(taskGroup, level);
      taskGroup := WithGroupLevel(taskGroup, level);
    }

    method SetTaskGroupSync()
      requires Valid()
      modifies this
      ensures Valid() && Content() == old(Content()).(groupSynced := true)
    {
      FlagsWrite(value, true);
      ReadAfterPut(State(), GroupSynced, 1, 1);
      value := WithGroupSync(value);
    }

    method SetWorkShareId(id: nat)
      requires Valid()
      modifies this
      ensures Valid() && Content() == old(Content()).(workShareId := id)
    {
      workShareId := id;
    }

    method SetMark(on: bool)
      requires Valid()
      modifies this
      ensures Valid() && Content() == old(Content()).(marked := on)
    {
      FlagsWrite(value, on);
      ReadAfterPut(State(), Marked, if on then 1 else 0, if on then 1 else 0);
      value := WithMarked(value, on);
    }
  }

  lemma Small()
    ensures Pow2(4) == 16 && Pow2(15) == 0x8000 && Pow2(16) == FIELD_LIMIT
  {
    assert Pow2(12) == 0x1000;
  }

  lemma {:induction false} LowIsRemainder(x: nat)
    ensures Low(x, 16) == x % FIELD_LIMIT
    decreases x
  {
    Small();
    hide Low, Pow2;
    if x < FIELD_LIMIT {
      LowOfSmall(x, 16);
    } else {
      LowIsRemainder(x - FIELD_LIMIT);
      LowDrop(x - FIELD_LIMIT, 16);
    }
  }

  lemma {:induction false} LowDrop(x: nat, n: nat)
    ensures Low(x + Pow2(n), n) == Low(x, n)
    decreases n
  {
    if n > 0 {
      assert (x + Pow2(n)) / 2 == x / 2 + Pow2(n - 1);
      LowDrop(x / 2, n - 1);
    }
  }

  lemma CounterContent(w: Words, f: FieldName, n: nat)
    requires w.Valid() && (f.TaskCreate? || f.LoopCount? || f.Phase? || f.Taskwait?)
    requires n < if f.TaskCreate? then 0x8000 else 16
    ensures w.(value := Counted(w.value, f, n)).Valid()
    ensures var s' := Read(w.(value := Counted(w.value, f, n)));
      s' == match f
        case TaskCreate => Read(w).(taskCreate := n)
        case LoopCount => Read(w).(loopCount := n)
        case Phase => Read(w).(phase := n)
        case _ => Read(w).(taskwait := n)
  {
    CountersWrite(w.value, n);
    Small();
    LowOfSmall(n, Hi(f) - Lo(f));
    hide Get, Put, Low, Read, Pow2, WithTaskCreate, WithLoopCount, WithPhase, WithTaskwait;
    ReadAfterPut(w, f, n, n);
  }

  function Counted(v: nat, f: FieldName, n: nat): nat {
    match f
    case TaskCreate => WithTaskCreate(v, n)
    case LoopCount => WithLoopCount(v, n)
    case Phase => WithPhase(v, n)
    case _ => WithTaskwait(v, n)
  }

  lemma OffsetSpanContent(w: Words, offset: nat, span: nat)
    requires w.Valid() && span < FIELD_LIMIT
    ensures w.(value := WithOffsetSpan(w.value, offset, span)).Valid()
    ensures Read(w.(value := WithOffsetSpan(w.value, offset, span))) == Read(w).(offset := offset % FIELD_LIMIT,
        span := span)
  {
    Small();
    OffsetSpanWrites(w.value, offset, span);
    LowIsRemainder(offset);
    LowOfSmall(span, 16);
    hide Get, Put, Low, Read, WithOffsetSpan, Pow2;
    ReadAfterPut(w, Offset, offset, offset % FIELD_LIMIT);
    ReadAfterPut(w.(value := Put(w.value, Offset, offset)), Span, span, span);
  }

  /** A new segment: type, offset and span are set on an empty word. */
  lemma NewContent(kind: Kind, offset: nat, span: nat)
    requires span < FIELD_LIMIT
    ensures var w := Words(WithOffsetSpan(WithType(0, TypeCode(kind)), offset, span), 0, 0, 0);
      w.Valid() && Read(w) == ImplicitSegment(offset % FIELD_LIMIT, span).(kind := kind)
  {
    var w := Words(WithType(0, TypeCode(kind)), 0, 0, 0);
    TypedZero(kind);
    hide Read, WithOffsetSpan, WithType, Low, Get;
    OffsetSpanContent(w, offset, span);
  }

  lemma TypedZero(kind: Kind)
    ensures var w := Words(WithType(0, TypeCode(kind)), 0, 0, 0);
      w.Valid() && Read(w) == ImplicitSegment(0, 0).(kind := kind)
  {
    hide Get, GetGroupId, GetGroupLevel, GetTaskwaitPhase, Pow2, WithType, TypeCode, Lo, Hi;
    var t := TypeCode(kind);
    TypeAlone(t);
    TypeOnly(t);
    ZeroHalves();
  }

  lemma TypeAlone(t: nat)
    requires t < 4
    ensures WithType(0, t) == t && t < Pow2(64)
  {
    ZeroOr(t);
    Pow2Monotone(2, 64);
  }

  lemma ZeroHalves()
    ensures GetGroupId(0) == 0 && GetGroupLevel(0) == 0 && GetTaskwaitPhase(0) == 0
  {
    ShiftBound(0, 16, 0);
  }

  lemma TypeOnly(t: nat)
    requires t < 4
    ensures Get(t, TypeBits) == t
    ensures forall f: FieldName :: !f.TypeBits? ==> Get(t, f) == 0
  {
    LowOfSmall(t, 2);
    forall f: FieldName | !f.TypeBits?
      ensures Get(t, f) == 0
    {
      AboveType(t, Lo(f), Hi(f) - Lo(f));
    }
  }

  lemma AboveType(t: nat, lo: nat, n: nat)
    requires t < 4 && lo >= 2
    ensures Field(t, lo, n) == 0
  {
    Pow2Monotone(2, lo);
    ShiftBound(t, lo, 0);
    LowOfSmall(0, n);
  }

  lemma {:induction false} ZeroOr(x: nat)
    ensures BitOr(0, x) == x
    decreases x
  {
    if x > 0 { ZeroOr(x / 2); }
  }

  // ---- labels ----

  ghost predicate AllValid(segments: seq<SegmentObject>)
    reads segments
  {
    forall i :: 0 <= i < |segments| ==> segments[i].Valid()
  }

  ghost function Contents(segments: seq<SegmentObject>): (l: Label)
    reads segments
    ensures |l| == |segments|
    ensures forall i :: 0 <= i < |segments| ==> l[i] == segments[i].Content()
  {
    seq(|segments|, i requires 0 <= i < |segments| reads segments => segments[i].Content())
  }

  class LabelObject {
    var segments: seq<SegmentObject>

    ghost predicate Valid()
      reads this, segments
    {
      AllValid(segments)
    }

    ghost function Content(): (l: Label)
      reads this, segments
      ensures |l| == |segments|
    {
      Contents(segments)
    }

    ghost function Last(): (s: Segment)
      reads this, segments
      requires segments != []
      ensures s == Content()[|segments| - 1]
    {
      segments[|segments| - 1].Content()
    }

    /** The content with another last segment. */
    ghost function Replaced(s: Segment): (l: Label)
      reads this, segments
      requires segments != []
      ensures l == Content()[|segments| - 1 := s]
    {
      Contents(segments)[|segments| - 1 := s]
    }

    constructor (segments: seq<SegmentObject>)
      ensures this.segments == segments
    {
      this.segments := segments;
    }
  }

  /** A mutator returns a label, or the program has ended. */
  datatype Outcome = Done(lbl: LabelObject) | Ended

  ghost predicate Means(l: LabelObject, meaning: Label)
    reads l, l.segments
  {
    l.Valid() && l.Content() == meaning
  }

  // Copying shares the segments; pushing, popping and replacing act on the vector of the copy.

  method CopyPushed(l: LabelObject, s: SegmentObject) returns (c: LabelObject)
    requires l.Valid() && s.Valid()
    ensures fresh(c) && Means(c, l.Content() + [s.Content()])
  {
    hide SegmentObject.Content, SegmentObject.Valid, SegmentObject.State;
    c := new LabelObject(l.segments);
    c.segments := c.segments + [s];
    assert Contents(c.segments) == Contents(l.segments) + [s.Content()];
  }

  method CopyPopped(l: LabelObject) returns (c: LabelObject)
    requires l.Valid() && |l.segments| > 0
    ensures fresh(c) && Means(c, ParentImpEnd(l.Content()))
    ensures c.segments == l.segments[..|l.segments| - 1]
  {
    hide SegmentObject.Content, SegmentObject.Valid, SegmentObject.State;
    c := new LabelObject(l.segments);
    c.segments := c.segments[..|c.segments| - 1];
    assert Contents(c.segments) == ParentImpEnd(Contents(l.segments));
  }

  method CopyReplaced(l: LabelObject, k: nat, s: SegmentObject) returns (c: LabelObject)
    requires l.Valid() && s.Valid() && 0 < k <= |l.segments|
    ensures fresh(c) && Means(c, l.Content()[|l.segments| - k := s.Content()])
  {
    hide SegmentObject.Content, SegmentObject.Valid, SegmentObject.State;
    c := new LabelObject(l.segments);
    c.segments := c.segments[|c.segments| - k := s];
    assert Contents(c.segments) == Contents(l.segments)[|l.segments| - k := s.Content()];
  }

  method GenInitTaskLabel() returns (r: LabelObject)
    ensures fresh(r) && Means(r, InitTaskLabel())
  {
    var s := new SegmentObject(Implicit, 0, 1);
    r := new LabelObject([s]);
    assert Contents(r.segments) == [s.Content()];
  }

  method GenImpTaskLabel(parent: LabelObject, index: nat, parallelism: nat) returns (r: Outcome)
    requires parent.Valid()
    ensures r.Ended? <==> parallelism >= 0x1_0000
    ensures r.Done? ==> fresh(r.lbl)
    ensures r.Done? ==> Means(r.lbl, parent.Content() + [ImplicitSegment(index % 0x1_0000, parallelism)])
  {
    if parallelism >= FIELD_LIMIT {
      return Ended;
    }
    var s := new SegmentObject(Implicit, index, parallelism);
    var c := CopyPushed(parent, s);
    return Done(c);
  }

  method GenExpTaskLabel(parent: LabelObject) returns (r: Outcome)
    requires parent.Valid()
    ensures r.Done? && fresh(r.lbl)
    ensures Means(r.lbl, parent.Content() + [ImplicitSegment(0, 1).(kind := Explicit)])
  {
    var s := new SegmentObject(Explicit, 0, 1);
    var c := CopyPushed(parent, s);
    return Done(c);
  }

  method MutateParentImpEnd(child: LabelObject) returns (r: Outcome)
    requires child.Valid()
    ensures r.Ended? <==> child.Content() == []
    ensures r.Done? ==> fresh(r.lbl) && Means(r.lbl, child.Content()[..|child.Content()| - 1])
  {
    if |child.segments| == 0 {
      return Ended;
    }
    var c := CopyPopped(child);
    return Done(c);
  }

  method MutateTaskComplete(l: LabelObject) returns (r: Outcome)
    requires l.Valid()
    ensures r.Ended? <==> l.Content() == [] || !l.Last().kind.Explicit?
    ensures r.Done? ==> fresh(r.lbl) && Means(r.lbl, l.Content()[..|l.Content()| - 1])
  {
    hide SegmentObject.Content, SegmentObject.Valid, SegmentObject.State;
    if |l.segments| == 0 {
      return Ended;
    }
    var last := l.segments[|l.segments| - 1].Content();
    if !last.kind.Explicit? {
      return Ended;
    }
    var c := CopyPopped(l);
    return Done(c);
  }

  lemma SpanBound(s: SegmentObject)
    ensures s.Content().span < FIELD_LIMIT
  {
    FieldBounds(s.value);
  }

  method MutateBarrierEnd(l: LabelObject) returns (r: Outcome)
    requires l.Valid()
    ensures r.Ended? <==> |l.Content()| < 2
    ensures r.Done? ==> fresh(r.lbl)
    ensures r.Done? ==> var s := l.Content()[|l.Content()| - 2];
      Means(r.lbl, l.Content()[|l.Content()| - 2 := s.(offset := (s.offset + s.span) % 0x1_0000)])
  {
    hide SegmentObject.Content, SegmentObject.Valid, SegmentObject.State, Means, LabelObject.Replaced;
    if |l.segments| < 2 {
      return Ended;
    }
    var s := new SegmentObject.Clone(l.segments[|l.segments| - 2]);
    SpanBound(s);
    s.SetOffsetSpan(s.Content().offset + s.Content().span, s.Content().span);
    var c := CopyReplaced(l, 2, s);
    return Done(c);
  }

  method MutateParentTaskCreate(l: LabelObject) returns (r: Outcome)
    requires l.Valid()
    ensures r.Ended? <==> l.Content() == [] || l.Last().taskCreate + 1 >= 0x8000
    ensures r.Done? ==> fresh(r.lbl) && Means(r.lbl, l.Replaced(l.Last().(taskCreate := l.Last().taskCreate + 1)))
  {
    hide SegmentObject.Content, SegmentObject.Valid, SegmentObject.State, Means, LabelObject.Replaced;
    if |l.segments| == 0 {
      return Ended;
    }
    var s := new SegmentObject.Clone(l.segments[|l.segments| - 1]);
    var ok := s.SetTaskcreate(s.Content().taskCreate + 1);
    if !ok {
      return Ended;
    }
    var c := CopyReplaced(l, 1, s);
    return Done(c);
  }

  method MutateTaskWait(l: LabelObject) returns (r: Outcome)
    requires l.Valid()
    ensures r.Ended? <==> l.Content() == [] || l.Last().taskwait + 1 >= 16
    ensures r.Done? ==> fresh(r.lbl) && Means(r.lbl, l.Replaced(l.Last().(taskwait := l.Last().taskwait + 1)))
  {
    hide SegmentObject.Content, SegmentObject.Valid, SegmentObject.State, Means, LabelObject.Replaced;
    if |l.segments| == 0 {
      return Ended;
    }
    var s := new SegmentObject.Clone(l.segments[|l.segments| - 1]);
    var ok := s.SetTaskwait(s.Content().taskwait + 1);
    if !ok {
      return Ended;
    }
    var c := CopyReplaced(l, 1, s);
    return Done(c);
  }

  method MutateOrderSection(l: LabelObject) returns (r: Outcome)
    requires l.Valid()
    ensures r.Ended? <==> l.Content() == [] || l.Last().phase + 1 >= 16
    ensures r.Done? ==> fresh(r.lbl) && Means(r.lbl, l.Replaced(l.Last().(phase := l.Last().phase + 1)))
  {
    hide SegmentObject.Content, SegmentObject.Valid, SegmentObject.State, Means, LabelObject.Replaced;
    if |l.segments| == 0 {
      return Ended;
    }
    var s := new SegmentObject.Clone(l.segments[|l.segments| - 1]);
    var ok := s.SetPhase(s.Content().phase + 1);
    if !ok {
      return Ended;
    }
    var c := CopyReplaced(l, 1, s);
    return Done(c);
  }

  method MutateTaskGroupBegin(l: LabelObject) returns (r: Outcome)
    requires l.Valid()
    ensures r.Ended? <==> l.Content() == []
    ensures r.Done? ==> fresh(r.lbl)
    ensures r.Done? ==> Means(r.lbl, l.Replaced(l.Last().(groupId := (l.Last().groupId + 1) % 0x1_0000,
      groupLevel := (l.Last().groupLevel + 1) % 0x1_0000)))
  {
    hide SegmentObject.Content, SegmentObject.Valid, SegmentObject.State, Means, LabelObject.Replaced;
    if |l.segments| == 0 {
      return Ended;
    }
    var s := new SegmentObject.Clone(l.segments[|l.segments| - 1]);
    var id := (s.Content().groupId + 1) % FIELD_LIMIT;
    var level := (s.Content().groupLevel + 1) % FIELD_LIMIT;
    s.SetTaskGroup(id, level);
    var c := CopyReplaced(l, 1, s);
    return Done(c);
  }

  method MutateTaskGroupEnd(l: LabelObject) returns (r: Outcome)
    requires l.Valid()
    ensures r.Ended? <==> l.Content() == []
    ensures r.Done? ==> fresh(r.lbl)
    ensures r.Done? ==> Means(r.lbl, l.Replaced(l.Last().(groupId := (l.Last().groupId + 1) % 0x1_0000,
      groupLevel := (l.Last().groupLevel + 0xffff) % 0x1_0000)))
  {
    hide SegmentObject.Content, SegmentObject.Valid, SegmentObject.State, Means, LabelObject.Replaced;
    if |l.segments| == 0 {
      return Ended;
    }
    var s := new SegmentObject.Clone(l.segments[|l.segments| - 1]);
    var id := (s.Content().groupId + 1) % FIELD_LIMIT;
    var level := (s.Content().groupLevel + FIELD_LIMIT - 1) % FIELD_LIMIT;
    s.SetTaskGroup(id, level);
    var c := CopyReplaced(l, 1, s);
    return Done(c);
  }

  /** A place holder for the iterations to come. */
  method MutateLoopBegin(l: LabelObject) returns (r: Outcome)
    requires l.Valid()
    ensures r.Done? && fresh(r.lbl)
    ensures Means(r.lbl, l.Content() + [ImplicitSegment(0, 1).(kind := WorkShare, marked := true)])
  {
    hide SegmentObject.Content, SegmentObject.Valid, SegmentObject.State;
    var s := new SegmentObject(WorkShare, 0, 1);
    s.SetMark(true);
    var c := CopyPushed(l, s);
    return Done(c);
  }

  method MutateLoopEnd(l: LabelObject) returns (r: Outcome)
    requires l.Valid()
    ensures r.Ended? <==> |l.Content()| < 2 || l.Content()[|l.Content()| - 2].loopCount + 1 >= 16
    ensures r.Done? ==> fresh(r.lbl)
    ensures r.Done? ==> var n, s := |l.Content()| - 2, l.Content()[|l.Content()| - 2];
      Means(r.lbl, l.Content()[..n] + [s.(loopCount := s.loopCount + 1)])
  {
    hide SegmentObject.Content, SegmentObject.Valid, SegmentObject.State;
    if |l.segments| < 2 {
      return Ended;
    }
    var m := CopyPopped(l);
    r := CountLoop(m);
  }

  method CountLoop(m: LabelObject) returns (r: Outcome)
    requires m.Valid() && |m.segments| > 0
    ensures r.Ended? <==> m.Last().loopCount + 1 >= 16
    ensures r.Done? ==> fresh(r.lbl) && Means(r.lbl, m.Replaced(m.Last().(loopCount := m.Last().loopCount + 1)))
  {
    hide SegmentObject.Content, SegmentObject.Valid, SegmentObject.State, Means, LabelObject.Replaced;
    var s := new SegmentObject.Clone(m.segments[|m.segments| - 1]);
    var ok := s.SetLoopCount(s.Content().loopCount + 1);
    if !ok {
      return Ended;
    }
    var c := CopyReplaced(m, 1, s);
    return Done(c);
  }

  method MutateWorkShareDispatch(l: LabelObject, id: nat, isSection: bool) returns (r: Outcome)
    requires l.Valid()
    ensures r.Ended? <==> l.Content() == []
    ensures r.Done? ==> fresh(r.lbl)
    ensures r.Done? ==> Means(r.lbl,
      l.Replaced(ImplicitSegment(0, 1).(kind := WorkShare, marked := isSection, workShareId := id)))
  {
    hide SegmentObject.Content, SegmentObject.Valid, SegmentObject.State, Means, LabelObject.Replaced;
    if |l.segments| == 0 {
      return Ended;
    }
    var s := new SegmentObject(WorkShare, 0, 1);
    s.SetMark(isSection);
    s.SetWorkShareId(id);
    var c := CopyReplaced(l, 1, s);
    return Done(c);
  }

  // ---- labels keep their meaning ----

  // The operations on values are what the methods compute.

  lemma AppendIs(l: Label, op: Operation)
    requires op.GenImpTask? || op.GenExpTask? || op.BeginLoop?
    ensures match op
      case GenImpTask(index, parallelism) =>
        if parallelism >= 0x1_0000 then Aborts(l, op)
        else !Aborts(l, op) && Mutate(l, op) == l + [ImplicitSegment(index % 0x1_0000, parallelism)]
      case GenExpTask => !Aborts(l, op) && Mutate(l, op) == l + [ImplicitSegment(0, 1).(kind := Explicit)]
      case _ => !Aborts(l, op) && Mutate(l, op) == l + [ImplicitSegment(0, 1).(kind := WorkShare, marked := true)]
  {
  }

  lemma RemoveIs(l: Label, op: Operation)
    requires op.EndImpTask? || op.EndTask?
    ensures Aborts(l, op) <==> l == [] || (op.EndTask? && !l[|l| - 1].kind.Explicit?)
    ensures !Aborts(l, op) ==> Mutate(l, op) == l[..|l| - 1]
  {
  }

  lemma CountIs(l: Label, op: Operation)
    requires op.CreateTask? || op.WaitTasks? || op.PassOrdered?
    ensures l == [] ==> Aborts(l, op)
    ensures l != [] ==> var s := l[|l| - 1];
      if op.CreateTask? then
        if s.taskCreate + 1 >= 0x8000 then Aborts(l, op)
        else !Aborts(l, op) && Mutate(l, op) == l[|l| - 1 := s.(taskCreate := s.taskCreate + 1)]
      else if op.WaitTasks? then
        if s.taskwait + 1 >= 16 then Aborts(l, op)
        else !Aborts(l, op) && Mutate(l, op) == l[|l| - 1 := s.(taskwait := s.taskwait + 1)]
      else
        if s.phase + 1 >= 16 then Aborts(l, op)
        else !Aborts(l, op) && Mutate(l, op) == l[|l| - 1 := s.(phase := s.phase + 1)]
  {
  }

  lemma GroupIs(l: Label, op: Operation)
    requires op.BeginGroup? || op.EndGroup?
    ensures Aborts(l, op) <==> l == []
    ensures !Aborts(l, op) ==> var s := l[|l| - 1];
      Mutate(l, op) == l[|l| - 1 := s.(groupId := (s.groupId + 1) % 0x1_0000,
        groupLevel := (s.groupLevel + if op.BeginGroup? then 1 else 0xffff) % 0x1_0000)]
  {
  }

  lemma DispatchIs(l: Label, id: nat, isSection: bool)
    ensures Aborts(l, Dispatch(id, isSection)) <==> l == []
    ensures l != [] ==> var s := ImplicitSegment(0, 1).(kind := WorkShare, marked := isSection, workShareId := id);
      Mutate(l, Dispatch(id, isSection)) == l[|l| - 1 := s]
  {
  }

  lemma SecondLastIs(l: Label, op: Operation)
    requires op.EndBarrier? || op.EndLoop?
    ensures Aborts(l, op) <==> |l| < 2 || (op.EndLoop? && l[|l| - 2].loopCount + 1 >= 16)
    ensures !Aborts(l, op) ==> var n, s := |l| - 2, l[|l| - 2];
      Mutate(l, op) ==
        if op.EndLoop? then l[..n] + [s.(loopCount := s.loopCount + 1)]
        else l[n := s.(offset := (s.offset + s.span) % 0x1_0000)]
  {
  }

  method PerformOnLast(l: LabelObject, op: Operation) returns (r: Outcome)
    requires l.Valid() && (op.CreateTask? || op.WaitTasks? || op.PassOrdered? || op.BeginGroup? || op.EndGroup?)
    ensures r.Ended? <==> Aborts(l.Content(), op)
    ensures r.Done? ==> fresh(r.lbl) && Means(r.lbl, Mutate(l.Content(), op))
  {
    hide Mutate, Aborts, Means, LabelObject.Content, LabelObject.Last, LabelObject.Replaced, LabelObject.Valid;
    if op.BeginGroup? || op.EndGroup? {
      GroupIs(l.Content(), op);
    } else {
      CountIs(l.Content(), op);
    }
    match op
    case CreateTask => r := MutateParentTaskCreate(l);
    case WaitTasks => r := MutateTaskWait(l);
    case PassOrdered => r := MutateOrderSection(l);
    case BeginGroup => r := MutateTaskGroupBegin(l);
    case EndGroup => r := MutateTaskGroupEnd(l);
  }

  method Perform(l: LabelObject, op: Operation) returns (r: Outcome)
    requires l.Valid()
    ensures r.Ended? <==> Aborts(l.Content(), op)
    ensures r.Done? ==> fresh(r.lbl) && Means(r.lbl, Mutate(l.Content(), op))
  {
    hide Mutate, Aborts, Means, LabelObject.Content, LabelObject.Last, LabelObject.Replaced, LabelObject.Valid;
    match op
    case GenImpTask(index, parallelism) =>
      AppendIs(l.Content(), op);
      r := GenImpTaskLabel(l, index, parallelism);
    case GenExpTask =>
      AppendIs(l.Content(), op);
      r := GenExpTaskLabel(l);
    case EndImpTask =>
      RemoveIs(l.Content(), op);
      r := MutateParentImpEnd(l);
    case EndTask =>
      RemoveIs(l.Content(), op);
      r := MutateTaskComplete(l);
    case EndBarrier =>
      SecondLastIs(l.Content(), op);
      r := MutateBarrierEnd(l);
    case BeginLoop =>
      AppendIs(l.Content(), op);
      r := MutateLoopBegin(l);
    case EndLoop =>
      SecondLastIs(l.Content(), op);
      r := MutateLoopEnd(l);
    case Dispatch(id, isSection) =>
      DispatchIs(l.Content(), id, isSection);
      r := MutateWorkShareDispatch(l, id, isSection);
    case _ => r := PerformOnLast(l, op);
  }

  /** An operation applied to the label made by an earlier one. */
  datatype Request = Request(source: nat, op: Operation)

  /** The labels that the requests stand for, as values; requests that refer to no label or end the program add none. */
  function Meanings(first: Label, requests: seq<Request>): (m: seq<Label>)
    ensures |m| > 0
  {
    if requests == [] then [first]
    else Answered(Meanings(first, requests[..|requests| - 1]), requests[|requests| - 1])
  }

  function Answered(m: seq<Label>, q: Request): seq<Label> {
    if q.source < |m| && !Aborts(m[q.source], q.op) then m + [Mutate(m[q.source], q.op)] else m
  }

  lemma MeaningsStep(first: Label, requests: seq<Request>, n: nat)
    requires n < |requests|
    ensures Meanings(first, requests[..n + 1]) == Answered(Meanings(first, requests[..n]), requests[n])
  {
    assert requests[..n + 1][..n] == requests[..n];
  }

  /** One request: the labels made so far keep their meaning, and the new one, if there is one, gets its own. */
  method Serve(labels: seq<LabelObject>, q: Request, ghost meanings: seq<Label>) returns (r: seq<LabelObject>)
    requires |labels| == |meanings| && forall i :: 0 <= i < |labels| ==> Means(labels[i], meanings[i])
    ensures labels <= r && |r| == |Answered(meanings, q)|
    ensures forall i :: 0 <= i < |r| ==> Means(r[i], Answered(meanings, q)[i])
  {
    hide Mutate, Aborts, SegmentObject.Content, SegmentObject.Valid, SegmentObject.State;
    r := labels;
    if q.source < |labels| {
      var made := Perform(labels[q.source], q.op);
      if made.Done? {
        r := labels + [made.lbl];
      }
    }
  }

  /** Any number of operations, each on any label made before: in the end all labels, old and new, stand for what they
      stood for when they were made, although they share their segments. */
  method Persist(first: LabelObject, requests: seq<Request>) returns (labels: seq<LabelObject>)
    requires first.Valid()
    ensures |labels| == |Meanings(first.Content(), requests)|
    ensures forall i :: 0 <= i < |labels| ==> Means(labels[i], Meanings(first.Content(), requests)[i])
    ensures labels[0] == first
  {
    labels := [first];
    ghost var meanings := [first.Content()];
    assert requests[..0] == [];
    for n := 0 to |requests|
      invariant meanings == Meanings(first.Content(), requests[..n]) && |labels| == |meanings|
      invariant forall i :: 0 <= i < |labels| ==> Means(labels[i], meanings[i])
      invariant labels[0] == first
    {
      hide Means, Mutate, Aborts;
      MeaningsStep(first.Content(), requests, n);
      labels := Serve(labels, requests[n], meanings);
      meanings := Answered(meanings, requests[n]);
    }
    assert requests[..|requests|] == requests;
  }

  /** The exception: the mark is written into the segment that the new label shares with older ones. Exactly the
      labels that hold this segment change, at the places where they hold it. */
  method MutateTaskGroupSyncChild(l: LabelObject, ghost others: set<LabelObject>) returns (r: Outcome)
    requires l.Valid() && forall o :: o in others ==> o.Valid()
    modifies l.segments
    ensures r.Ended? <==> |l.segments| == 0
    ensures r.Done? ==> fresh(r.lbl) && Means(r.lbl, Marked(old(l.Content()), l.segments, l.segments[|l.segments| - 1]))
    ensures r.Done? ==> forall o :: o in others ==>
        Means(o, Marked(old(o.Content()), o.segments, l.segments[|l.segments| - 1]))
  {
    hide SegmentObject.Content, SegmentObject.Valid, SegmentObject.State;
    if |l.segments| == 0 {
      return Ended;
    }
    var c := new LabelObject(l.segments);
    var s := c.segments[|c.segments| - 1];
    s.SetTaskGroupSync();
    MarkedIs(old(l.Content()), Contents(c.segments), c.segments, s);
    assert forall o :: o in others ==> Contents(o.segments) == Marked(old(o.Content()), o.segments, s);
    return Done(c);
  }

  lemma MarkedIs(before: Label, after: Label, segments: seq<SegmentObject>, s: SegmentObject)
    requires |before| == |after| == |segments|
    requires forall i :: 0 <= i < |after| ==> after[i] == if segments[i] == s
        then before[i].(groupSynced := true) else before[i]
    ensures after == Marked(before, segments, s)
  {
  }

  ghost function Marked(l: Label, segments: seq<SegmentObject>, s: SegmentObject): Label
    requires |l| == |segments|
  {
    seq(|l|, i requires 0 <= i < |l| => if segments[i] == s then l[i].(groupSynced := true) else l[i])
  }
}
