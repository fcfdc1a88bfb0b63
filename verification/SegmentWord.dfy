/**
 The packed representation of a segment: ten fields in one 64-bit word, and the two halves of a 32-bit word for the
 task group.  Words are natural numbers below 2^64, with the bitwise operations of module `Bits`.
 */
module SegmentWord {
  import opened Bits
  import opened Labels

  const SEG_TYPE_MASK: nat := 0x0000_0000_0000_0003
  const OFFSET_MASK: nat := 0xffff_0000_0000_0000
  const SPAN_MASK: nat := 0x0000_ffff_0000_0000
  const TASKWAIT_MASK: nat := 0xffff_ffff_0fff_ffff
  const PHASE_MASK: nat := 0x0000_0000_0f00_0000
  const WS_PLACE_HOLDER_MASK: nat := 0xffff_ffff_ffff_fffb
  const LOOP_CNT_MASK: nat := 0x0000_0000_00f0_0000
  const TASK_CREATE_MASK: nat := 0x0000_0000_000f_ffe0
  const TASKWAIT_SYNC_MASK: nat := 0x8
  const TASKGROUP_SYNC_MASK: nat := 0x10
  const TASKGROUP_ID_MASK: nat := 0xffff_0000
  const TASKGROUP_LEVEL_MASK: nat := 0x0000_ffff
  const ALL_ONES: nat := 0xffff_ffff_ffff_ffff

  /** `~` on 64-bit words. */
  function Not(x: nat): nat {
    if x <= ALL_ONES then ALL_ONES - x else 0
  }

  // ---- as coded ----

  function GetType(v: nat): nat { BitAnd(v, SEG_TYPE_MASK) }
  function GetMarked(v: nat): bool { ShiftRight(BitAnd(v, Not(WS_PLACE_HOLDER_MASK)), 2) == 1 }
  function GetWaited(v: nat): bool { BitAnd(v, TASKWAIT_SYNC_MASK) != 0 }
  function GetGroupSync(v: nat): bool { BitAnd(v, TASKGROUP_SYNC_MASK) != 0 }
  function GetTaskCreate(v: nat): nat { ShiftRight(BitAnd(v, TASK_CREATE_MASK), 5) }
  function GetLoopCount(v: nat): nat { ShiftRight(BitAnd(v, LOOP_CNT_MASK), 20) }
  function GetPhase(v: nat): nat { ShiftRight(BitAnd(v, PHASE_MASK), 24) }
  function GetTaskwait(v: nat): nat { ShiftRight(BitAnd(v, Not(TASKWAIT_MASK)), 28) }
  function GetSpan(v: nat): nat { ShiftRight(BitAnd(v, SPAN_MASK), 32) }
  function GetOffset(v: nat): nat { ShiftRight(BitAnd(v, OFFSET_MASK), 48) }

  /** Adds bits, and clears none. */
  function WithType(v: nat, t: nat): nat { BitOr(v, t) }
  function WithMarked(v: nat, on: bool): nat {
    if on then BitOr(v, ShiftLeft(1, 2)) else BitAnd(v, WS_PLACE_HOLDER_MASK)
  }

  function WithWaited(v: nat): nat { BitOr(v, TASKWAIT_SYNC_MASK) }
  function WithGroupSync(v: nat): nat { BitOr(v, TASKGROUP_SYNC_MASK) }
  function WithTaskCreate(v: nat, n: nat): nat { BitOr(BitAnd(v, Not(TASK_CREATE_MASK)), BitAnd(ShiftLeft(n, 5),
      TASK_CREATE_MASK)) }
  function WithLoopCount(v: nat, n: nat): nat { BitOr(BitAnd(v, Not(LOOP_CNT_MASK)), BitAnd(ShiftLeft(n, 20),
      LOOP_CNT_MASK)) }
  function WithPhase(v: nat, n: nat): nat { BitOr(BitAnd(v, Not(PHASE_MASK)), BitAnd(ShiftLeft(n, 24), PHASE_MASK)) }
  function WithTaskwait(v: nat, n: nat): nat { BitOr(BitAnd(v, TASKWAIT_MASK), BitAnd(ShiftLeft(n, 28),
      Not(TASKWAIT_MASK))) }
  function WithOffsetSpan(v: nat, offset: nat, span: nat): nat {
    BitOr(BitOr(BitAnd(v, Not(BitOr(OFFSET_MASK, SPAN_MASK))), BitAnd(ShiftLeft(offset, 48), OFFSET_MASK)),
          BitAnd(ShiftLeft(span, 32), SPAN_MASK))
  }

  function GetGroupId(g: nat): nat { ShiftRight(g, 16) }
  function GetGroupLevel(g: nat): nat { BitAnd(g, TASKGROUP_LEVEL_MASK) }
  function WithGroupId(g: nat, id: nat): nat { BitOr(BitAnd(g, Not(TASKGROUP_ID_MASK)), BitAnd(ShiftLeft(id, 16),
      TASKGROUP_ID_MASK)) }
  function WithGroupLevel(g: nat, level: nat): nat { BitOr(BitAnd(g, Not(TASKGROUP_LEVEL_MASK)), BitAnd(level,
      TASKGROUP_LEVEL_MASK)) }

  /** Keeps the half it is about to fill, and clears the other one. */
  function WithTaskwaitPhase(o: nat, phase: nat): nat { BitOr(BitAnd(o, 0xffff), BitAnd(phase, 0xffff)) }
  function GetTaskwaitPhase(o: nat): nat { BitAnd(o, 0xffff) }

  // ---- the layout ----

  datatype FieldName =
    TypeBits | Marked | Waited | GroupSynced | TaskCreate | LoopCount | Phase | Taskwait | Span | Offset

  function Lo(f: FieldName): (k: nat)
    ensures k < 64
  {
    match f
    case TypeBits => 0 case Marked => 2 case Waited => 3 case GroupSynced => 4 case TaskCreate => 5
    case LoopCount => 20 case Phase => 24 case Taskwait => 28 case Span => 32 case Offset => 48
  }

  function Hi(f: FieldName): (k: nat)
    ensures Lo(f) < k <= 64
  {
    match f
    case TypeBits => 2 case Marked => 3 case Waited => 4 case GroupSynced => 5 case TaskCreate => 20
    case LoopCount => 24 case Phase => 28 case Taskwait => 32 case Span => 48 case Offset => 64
  }

  function Get(v: nat, f: FieldName): nat {
    Field(v, Lo(f), Hi(f) - Lo(f))
  }

  function Put(v: nat, f: FieldName, x: nat): nat {
    WriteField(v, Lo(f), Hi(f), 64, x)
  }

  /** Writing one field stores the value, cut to the width of the field, and leaves the nine others alone. */
  lemma GetPut(v: nat, f: FieldName, x: nat, g: FieldName)
    ensures Get(Put(v, f, x), g) == if f == g then Low(x, Hi(f) - Lo(f)) else Get(v, g)
  {
    hide WriteField, Field, Low, Pow2, ShiftRight;
    if f == g {
      WrittenField(v, Lo(f), Hi(f), 64, x);
    } else {
      OtherField(v, Lo(f), Hi(f), 64, x, Lo(g), Hi(g));
    }
  }

  function FieldAt(k: nat): (f: FieldName)
    requires k < 64
    ensures Lo(f) <= k < Hi(f)
  {
    if k < 2 then TypeBits else if k < 3 then Marked else if k < 4 then Waited else if k < 5 then GroupSynced
    else if k < 20 then TaskCreate else if k < 24 then LoopCount else if k < 28 then Phase else if k < 32 then Taskwait
    else if k < 48 then Span else Offset
  }

  /** A word is made up of its fields: no two words have the same. */
  lemma FieldsMakeWord(v: nat, w: nat)
    requires v < Pow2(64) && w < Pow2(64)
    ensures v == w <==> forall f :: Get(v, f) == Get(w, f)
  {
    if forall f :: Get(v, f) == Get(w, f) {
      forall k | 0 <= k < 64
        ensures IsSet(v, k) == IsSet(w, k)
      {
        var f := FieldAt(k);
        assert Get(v, f) == Get(w, f);
        FieldIsBits(v, w, Lo(f), Hi(f) - Lo(f), Hi(f));
      }
      SameBitsSameWord(v, w, 64);
    }
  }

  /** Every combination of field values is the content of some word. */
  lemma FieldsAreFree(values: FieldName -> nat) returns (v: nat)
    requires forall f :: values(f) < Pow2(Hi(f) - Lo(f))
    ensures v < Pow2(64) && forall f :: Get(v, f) == values(f)
  {
    hide WriteField, Field, Low, ShiftRight, Pow2;
    var names := [TypeBits, Marked, Waited, GroupSynced, TaskCreate, LoopCount, Phase, Taskwait, Span, Offset];
    v := 0;
    for i := 0 to |names|
      invariant v < Pow2(64)
      invariant forall j :: 0 <= j < i ==> Get(v, names[j]) == values(names[j])
    {
      var f, w := names[i], v;
      v := Put(w, f, values(f));
      WrittenBound(w, Lo(f), Hi(f), 64, values(f));
      LowOfSmall(values(f), Hi(f) - Lo(f));
      forall j | 0 <= j <= i
        ensures Get(v, names[j]) == values(names[j])
      {
        GetPut(w, f, values(f), names[j]);
      }
    }
    forall f
      ensures Get(v, f) == values(f)
    {
      var k := match f
        case TypeBits => 0 case Marked => 1 case Waited => 2 case GroupSynced => 3 case TaskCreate => 4
        case LoopCount => 5 case Phase => 6 case Taskwait => 7 case Span => 8 case Offset => 9;
      assert names[k] == f;
    }
  }

  // ---- what is coded is the layout ----

  lemma Masks()
    ensures ALL_ONES == Pow2(64) - 1
    ensures SEG_TYPE_MASK == Mask(0, 2) && Not(WS_PLACE_HOLDER_MASK) == Mask(2, 3)
    ensures TASKWAIT_SYNC_MASK == Mask(3, 4) && TASKGROUP_SYNC_MASK == Mask(4, 5)
    ensures TASK_CREATE_MASK == Mask(5, 20) && LOOP_CNT_MASK == Mask(20, 24) && PHASE_MASK == Mask(24, 28)
    ensures Not(TASKWAIT_MASK) == Mask(28, 32) && SPAN_MASK == Mask(32, 48) && OFFSET_MASK == Mask(48, 64)
    ensures TASKGROUP_ID_MASK == Mask(16, 32) && TASKGROUP_LEVEL_MASK == Mask(0, 16)
  {
    assert Pow2(12) == 0x1000;
    assert Pow2(20) == 0x10_0000;
    assert Pow2(28) == 0x1000_0000;
    assert Pow2(40) == 0x100_0000_0000;
    assert Pow2(52) == 0x10_0000_0000_0000;
    assert Pow2(16) == 0x1_0000 && Pow2(32) == 0x1_0000_0000 && Pow2(48) == 0x1_0000_0000_0000;
    assert Pow2(64) == 0x1_0000_0000_0000_0000;
  }

  lemma BitAsField(v: nat, k: nat)
    ensures Field(v, k, 1) == if IsSet(v, k) then 1 else 0
  {
  }

  lemma ReadsField(v: nat, m: nat, f: FieldName)
    requires m == Mask(Lo(f), Hi(f))
    ensures ShiftRight(BitAnd(v, m), Lo(f)) == Get(v, f)
  {
    hide BitAnd, ShiftRight, Low, Pow2, Mask;
    ReadField(v, Lo(f), Hi(f));
  }

  lemma FlagsRead(v: nat)
    ensures GetMarked(v) <==> Get(v, Marked) == 1
    ensures GetWaited(v) <==> Get(v, Waited) == 1
    ensures GetGroupSync(v) <==> Get(v, GroupSynced) == 1
  {
    hide Pow2, BitAnd, ShiftRight, Low, Mask, Field;
    Masks();
    ReadsField(v, Not(WS_PLACE_HOLDER_MASK), Marked);
    OneBit(v, 3, 4);
    OneBit(v, 4, 5);
    BitAsField(v, 3);
    BitAsField(v, 4);
  }

  lemma TypeRead(v: nat)
    ensures GetType(v) == Get(v, TypeBits)
  {
    Masks();
    hide Pow2, BitAnd, Low, Mask;
    ReadsField(v, SEG_TYPE_MASK, TypeBits);
  }

  /** Each getter reads one field of the layout. */
  lemma GettersRead(v: nat)
    ensures GetType(v) == Get(v, TypeBits)
    ensures GetMarked(v) <==> Get(v, Marked) == 1
    ensures GetWaited(v) <==> Get(v, Waited) == 1
    ensures GetGroupSync(v) <==> Get(v, GroupSynced) == 1
    ensures GetTaskCreate(v) == Get(v, TaskCreate)
    ensures GetLoopCount(v) == Get(v, LoopCount)
    ensures GetPhase(v) == Get(v, Phase)
    ensures GetTaskwait(v) == Get(v, Taskwait)
    ensures GetSpan(v) == Get(v, Span) && GetOffset(v) == Get(v, Offset)
  {
    hide Get, GetType, GetMarked, GetWaited, GetGroupSync, BitAnd, ShiftRight, Mask, Pow2;
    Masks();
    TypeRead(v);
    FlagsRead(v);
    ReadsField(v, TASK_CREATE_MASK, TaskCreate);
    ReadsField(v, LOOP_CNT_MASK, LoopCount);
    ReadsField(v, PHASE_MASK, Phase);
    ReadsField(v, Not(TASKWAIT_MASK), Taskwait);
    ReadsField(v, SPAN_MASK, Span);
    ReadsField(v, OFFSET_MASK, Offset);
  }

  /** The setters of counters write one field of the layout. */
  lemma CountersWrite(v: nat, n: nat)
    ensures WithTaskCreate(v, n) == Put(v, TaskCreate, n)
    ensures WithLoopCount(v, n) == Put(v, LoopCount, n)
    ensures WithPhase(v, n) == Put(v, Phase, n)
    ensures WithTaskwait(v, n) == Put(v, Taskwait, n)
  {
    Masks();
    hide Pow2, BitAnd, BitOr, ShiftLeft, Mask;
  }

  /** Setting a flag is writing a one, clearing it is writing a zero. */
  lemma FlagsWrite(v: nat, on: bool)
    requires v < Pow2(64)
    ensures WithWaited(v) == Put(v, Waited, 1)
    ensures WithGroupSync(v) == Put(v, GroupSynced, 1)
    ensures WithMarked(v, on) == Put(v, Marked, if on then 1 else 0)
  {
    Masks();
    assert ShiftLeft(1, 2) == Not(WS_PLACE_HOLDER_MASK) && WS_PLACE_HOLDER_MASK == BitNot(Mask(2, 3), 64);
    OrWrites(v, 3, 4);
    OrWrites(v, 4, 5);
    OrWrites(v, 2, 3);
    ClearWrites(v, 2, 3);
    hide Pow2, BitAnd, BitOr, ShiftLeft, Mask;
  }

  lemma OrWrites(v: nat, k: nat, m: nat)
    requires v < Pow2(64) && m == k + 1 && m <= 64
    ensures BitOr(v, Mask(k, m)) == WriteField(v, k, m, 64, 1)
  {
    MaskBound(k, m, 64);
    OrBound(v, Mask(k, m), 64);
    WrittenBound(v, k, m, 64, 1);
    forall i | 0 <= i < 64
      ensures IsSet(BitOr(v, Mask(k, m)), i) == IsSet(WriteField(v, k, m, 64, 1), i)
    {
      OrBit(v, Mask(k, m), i);
      MaskBit(k, m, i);
      WriteFieldBit(v, k, m, 64, 1, i);
    }
    SameBitsSameWord(BitOr(v, Mask(k, m)), WriteField(v, k, m, 64, 1), 64);
  }

  lemma ClearWrites(v: nat, lo: nat, hi: nat)
    requires v < Pow2(64) && lo <= hi <= 64
    ensures Mask(lo, hi) < Pow2(64) && BitAnd(v, BitNot(Mask(lo, hi), 64)) == WriteField(v, lo, hi, 64, 0)
  {
    MaskBound(lo, hi, 64);
    ZeroShift(lo);
    OrZero(BitAnd(v, BitNot(Mask(lo, hi), 64)));
  }

  lemma {:induction false} ZeroShift(n: nat)
    ensures ShiftLeft(0, n) == 0
    decreases n
  {
    if n > 0 { ZeroShift(n - 1); }
  }

  lemma {:induction false} OrZero(x: nat)
    ensures BitOr(x, 0) == x
    decreases x
  {
    if x > 0 { OrZero(x / 2); }
  }

  /** The two fields are written one after the other. */
  lemma OffsetSpanWrites(v: nat, offset: nat, span: nat)
    requires v < Pow2(64)
    ensures WithOffsetSpan(v, offset, span) == Put(Put(v, Offset, offset), Span, span)
  {
    var w, w' := WithOffsetSpan(v, offset, span), Put(Put(v, Offset, offset), Span, span);
    OffsetSpanBound(v, offset, span);
    WrittenBound(Put(v, Offset, offset), 32, 48, 64, span);
    forall k | 0 <= k < 64
      ensures IsSet(w, k) == IsSet(w', k)
    {
      OffsetSpanBit(v, offset, span, k);
      WriteFieldBit(Put(v, Offset, offset), 32, 48, 64, span, k);
      WriteFieldBit(v, 48, 64, 64, offset, k);
    }
    SameBitsSameWord(w, w', 64);
  }

  lemma OffsetSpanBound(v: nat, offset: nat, span: nat)
    requires v < Pow2(64)
    ensures WithOffsetSpan(v, offset, span) < Pow2(64)
  {
    Masks();
    hide Pow2, BitAnd, BitOr, ShiftLeft;
    var a, b, c := BitAnd(v, Not(BitOr(OFFSET_MASK, SPAN_MASK))), BitAnd(ShiftLeft(offset, 48), OFFSET_MASK),
        BitAnd(ShiftLeft(span, 32), SPAN_MASK);
    AndBound(v, Not(BitOr(OFFSET_MASK, SPAN_MASK)));
    AndBound(ShiftLeft(offset, 48), OFFSET_MASK);
    AndBound(ShiftLeft(span, 32), SPAN_MASK);
    OrBound(a, b, 64);
    OrBound(BitOr(a, b), c, 64);
  }

  lemma OffsetSpanBit(v: nat, offset: nat, span: nat, k: nat)
    requires k < 64
    ensures IsSet(WithOffsetSpan(v, offset, span), k) <==>
      if k >= 48 then IsSet(offset, k - 48) else if k >= 32 then IsSet(span, k - 32) else IsSet(v, k)
  {
    Masks();
    hide Pow2, BitAnd, BitOr, ShiftLeft, IsSet;
    var both := BitOr(OFFSET_MASK, SPAN_MASK);
    OrBound(OFFSET_MASK, SPAN_MASK, 64);
    var a, b, c := BitAnd(v, Not(both)), BitAnd(ShiftLeft(offset, 48), OFFSET_MASK),
        BitAnd(ShiftLeft(span, 32), SPAN_MASK);
    OrBit(BitOr(a, b), c, k);
    OrBit(a, b, k);
    AndBit(v, Not(both), k);
    NotBit(both, 64, k);
    OrBit(OFFSET_MASK, SPAN_MASK, k);
    AndBit(ShiftLeft(offset, 48), OFFSET_MASK, k);
    AndBit(ShiftLeft(span, 32), SPAN_MASK, k);
    MaskBit(48, 64, k);
    MaskBit(32, 48, k);
    ShiftLeftBit(offset, 48, k);
    ShiftLeftBit(span, 32, k);
  }

  /** `setType` leaves the other fields alone, and stores the type exactly if it need not clear a bit of the old one. */
  lemma TypeExactly(v: nat, t: nat)
    requires t < 4
    ensures forall f :: f != TypeBits ==> Get(WithType(v, t), f) == Get(v, f)
    ensures Get(WithType(v, t), TypeBits) == t <==> BitOr(Get(v, TypeBits), t) == t
  {
    forall f | f != TypeBits
      ensures Get(WithType(v, t), f) == Get(v, f)
    {
      forall k | Lo(f) <= k < Hi(f)
        ensures IsSet(WithType(v, t), k) == IsSet(v, k)
      {
        OrBit(v, t, k);
        assert t < Pow2(2);
        HighBit(t, 2, k);
      }
      FieldIsBits(WithType(v, t), v, Lo(f), Hi(f) - Lo(f), Hi(f));
    }
    LowOfOr(v, t, 2);
    LowOfSmall(t, 2);
  }

  lemma {:induction false} HighBit(x: nat, n: nat, k: nat)
    requires x < Pow2(n) && n <= k
    ensures !IsSet(x, k)
    decreases k
  {
    if n > 0 { HighBit(x / 2, n - 1, k - 1); } else { ZeroBit(k); }
  }

  // ---- the task group word ----

  /** The two halves are independent; each reads back what was stored. */
  lemma GroupFields(g: nat, x: nat)
    requires g < Pow2(32) && x < Pow2(16)
    ensures WithGroupId(g, x) < Pow2(32) && WithGroupLevel(g, x) < Pow2(32)
    ensures GetGroupId(WithGroupId(g, x)) == x && GetGroupLevel(WithGroupId(g, x)) == GetGroupLevel(g)
    ensures GetGroupLevel(WithGroupLevel(g, x)) == x && GetGroupId(WithGroupLevel(g, x)) == GetGroupId(g)
  {
    GroupBound(g, x);
    GroupWrites(g, x);
    hide *;
    GroupHalves(g);
    GroupHalves(WithGroupId(g, x));
    GroupHalves(WithGroupLevel(g, x));
    HalfWritten(g, x);
  }

  lemma HalfWritten(g: nat, x: nat)
    requires x < Pow2(16)
    ensures Field(WriteField(g, 16, 32, 64, x), 16, 16) == x &&
        Field(WriteField(g, 16, 32, 64, x), 0, 16) == Field(g, 0, 16)
    ensures Field(WriteField(g, 0, 16, 64, x), 0, 16) == x &&
        Field(WriteField(g, 0, 16, 64, x), 16, 16) == Field(g, 16, 16)
  {
    hide *;
    LowOfSmall(x, 16);
    WrittenField(g, 16, 32, 64, x);
    OtherField(g, 16, 32, 64, x, 0, 16);
    WrittenField(g, 0, 16, 64, x);
    OtherField(g, 0, 16, 64, x, 16, 32);
  }

  lemma GroupWrites(g: nat, x: nat)
    ensures WithGroupId(g, x) == WriteField(g, 16, 32, 64, x)
    ensures WithGroupLevel(g, x) == WriteField(g, 0, 16, 64, x)
  {
    Masks();
    assert ShiftLeft(x, 0) == x;
    hide Pow2, BitAnd, BitOr, ShiftLeft, Mask;
  }

  lemma GroupBound(g: nat, x: nat)
    requires g < Pow2(32)
    ensures WithGroupId(g, x) < Pow2(32) && WithGroupLevel(g, x) < Pow2(32)
  {
    Masks();
    Pow2Monotone(16, 32);
    hide Pow2, BitAnd, BitOr, ShiftLeft;
    AndBound(g, Not(TASKGROUP_ID_MASK));
    AndBound(ShiftLeft(x, 16), TASKGROUP_ID_MASK);
    OrBound(BitAnd(g, Not(TASKGROUP_ID_MASK)), BitAnd(ShiftLeft(x, 16), TASKGROUP_ID_MASK), 32);
    AndBound(g, Not(TASKGROUP_LEVEL_MASK));
    AndBound(x, TASKGROUP_LEVEL_MASK);
    OrBound(BitAnd(g, Not(TASKGROUP_LEVEL_MASK)), BitAnd(x, TASKGROUP_LEVEL_MASK), 32);
  }

  lemma GroupHalves(g: nat)
    requires g < Pow2(32)
    ensures GetGroupId(g) == Field(g, 16, 16) && GetGroupLevel(g) == Field(g, 0, 16)
  {
    Masks();
    ShiftBound(g, 16, 16);
    LowOfSmall(ShiftRight(g, 16), 16);
    LowMask(g, 16);
  }

  /** The phase stored last is read back exactly if it has every bit of the phase stored before. */
  lemma TaskwaitPhaseExactly(o: nat, phase: nat)
    requires phase < Pow2(16)
    ensures GetTaskwaitPhase(WithTaskwaitPhase(o, phase)) == phase <==> BitOr(GetTaskwaitPhase(o), phase) == phase
  {
    Masks();
    LowMask(o, 16);
    LowMask(phase, 16);
    LowOfSmall(phase, 16);
    OrBound(Low(o, 16), phase, 16);
    LowMask(BitOr(Low(o, 16), phase), 16);
    LowOfSmall(BitOr(Low(o, 16), phase), 16);
  }

  // ---- the record that a segment stands for ----

  /** The state of a segment object; the last word is used by workshare segments only. */
  datatype Words = Words(value: nat, taskGroup: nat, orderSecVal: nat, workShareId: nat) {
    /** `getType` ends the program on a word without a type. */
    ghost predicate Valid() {
      value < Pow2(64) && taskGroup < Pow2(32) && Get(value, TypeBits) != 0
    }
  }

  function KindOf(typeBits: nat): Kind {
    if typeBits == 1 then Implicit else if typeBits == 2 then Explicit else WorkShare
  }

  function TypeCode(k: Kind): (t: nat)
    ensures 0 < t < 4 && KindOf(t) == k
  {
    match k case Implicit => 1 case Explicit => 2 case WorkShare => 3
  }

  function Read(w: Words): Segment {
    var v := w.value;
    Segment(KindOf(Get(v, TypeBits)), Get(v, Offset), Get(v, Span), Get(v, Taskwait), Get(v, Phase), Get(v, LoopCount),
            Get(v, TaskCreate), Get(v, GroupSynced) == 1, Get(v, Waited) == 1, Get(v, Marked) == 1,
            GetGroupId(w.taskGroup), GetGroupLevel(w.taskGroup), GetTaskwaitPhase(w.orderSecVal), w.workShareId)
  }

  /** Comparing packed words is comparing records: this is what the label comparison relies on. */
  lemma SameWordIsSameSegment(a: Words, b: Words)
    requires a.Valid() && b.Valid()
    ensures SameSegment(Read(a), Read(b)) <==>
      a.value == b.value && (Read(a).kind.WorkShare? ==> a.workShareId == b.workShareId)
  {
    FieldsMakeWord(a.value, b.value);
    FieldBounds(a.value);
    FieldBounds(b.value);
    hide Get, GetGroupId, GetGroupLevel, GetTaskwaitPhase, Pow2;
    if SameSegment(Read(a), Read(b)) {
      forall f
        ensures Get(a.value, f) == Get(b.value, f)
      {
        match f case TypeBits => case Marked => case Waited => case GroupSynced => case _ =>
      }
    }
  }

  lemma FieldBounds(v: nat)
    ensures Get(v, TypeBits) < 4 && Get(v, Marked) < 2 && Get(v, Waited) < 2 && Get(v, GroupSynced) < 2
    ensures Get(v, Offset) < FIELD_LIMIT && Get(v, Span) < FIELD_LIMIT
  {
    Masks();
    assert Pow2(16) == 0x1_0000 by { assert Pow2(12) == 0x1000; }
  }

  lemma PutValid(w: Words, f: FieldName, x: nat)
    requires w.Valid() && !f.TypeBits?
    ensures w.(value := Put(w.value, f, x)).Valid()
  {
    hide Pow2, WriteField, Low, ShiftRight;
    WrittenBound(w.value, Lo(f), Hi(f), 64, x);
    GetPut(w.value, f, x, TypeBits);
  }

  /** The record after a write to one field of the word. */
  lemma ReadAfterPut(w: Words, f: FieldName, x: nat, y: nat)
    requires w.Valid() && y == Low(x, Hi(f) - Lo(f)) && !f.TypeBits?
    ensures w.(value := Put(w.value, f, x)).Valid()
    ensures var s, s' := Read(w), Read(w.(value := Put(w.value, f, x)));
      match f
      case TypeBits => true
      case Marked => s' == s.(marked := y == 1)
      case Waited => s' == s.(waited := y == 1)
      case GroupSynced => s' == s.(groupSynced := y == 1)
      case TaskCreate => s' == s.(taskCreate := y)
      case LoopCount => s' == s.(loopCount := y)
      case Phase => s' == s.(phase := y)
      case Taskwait => s' == s.(taskwait := y)
      case Span => s' == s.(span := y)
      case Offset => s' == s.(offset := y)
  {
    PutValid(w, f, x);
    hide Get, Put, GetGroupId, GetGroupLevel, GetTaskwaitPhase, Pow2, WriteField, Low, Words.Valid;
    var v, v' := w.value, Put(w.value, f, x);
    GetPut(v, f, x, TypeBits);
    GetPut(v, f, x, Marked);
    GetPut(v, f, x, Waited);
    GetPut(v, f, x, GroupSynced);
    GetPut(v, f, x, TaskCreate);
    GetPut(v, f, x, LoopCount);
    GetPut(v, f, x, Phase);
    GetPut(v, f, x, Taskwait);
    GetPut(v, f, x, Span);
    GetPut(v, f, x, Offset);
  }
}
