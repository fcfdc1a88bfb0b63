/**
 Checking one access against the history of its location, and pruning that history on the way.

 How two labels relate is a parameter here; module `Detector` puts the label test in its place.
 */
module AccessHistories {
  import opened LockSets
  import opened ThreadTables

  /** How a recorded label relates to the current one, after task dependences have been taken into account. */
  datatype Order = Same | Before | Parallel | RightPrefix

  /** `inReduction` says that the accessing task is in a reduction, `mutexTask` that it is an explicit task with a
      mutexinoutset dependence. */
  datatype Record<L> = Record(lbl: L, isWrite: bool, locks: Locks, hwLock: bool, inReduction: bool, mutexTask: bool)

  datatype Decision = NoOp | SkipAddCur | DelHist

  /** `isHistBeforeCurrent` and whether `diffIndex` equals the code for equal labels. */
  datatype Flags = Flags(before: bool, same: bool)

  const RESET := Flags(false, false)

  predicate MutuallyExclusive<L>(hist: Record<L>, cur: Record<L>) {
    && hist.locks.Held?
    && cur.locks.Held?
    && (Common(hist.locks.locks, cur.locks.locks) || (hist.hwLock && cur.hwLock))
  }

  /** The analysis returns before it compares the labels; the flags keep their values. */
  predicate ReturnsEarly<L>(hist: Record<L>, cur: Record<L>) {
    MutuallyExclusive(hist, cur) || cur.inReduction
  }

  /** The race condition, read off two accesses alone. */
  predicate RacePair<L>(cmp: (L, L) -> Order, hist: Record<L>, cur: Record<L>) {
    && !ReturnsEarly(hist, cur)
    && cmp(hist.lbl, cur.lbl) == Parallel
    && !(hist.mutexTask && cur.mutexTask)
    && (hist.isWrite || cur.isWrite)
  }

  function NewFlags<L>(cmp: (L, L) -> Order, hist: Record<L>, cur: Record<L>, fl: Flags): Flags {
    if ReturnsEarly(hist, cur) then fl
    else
      match cmp(hist.lbl, cur.lbl)
      case Same => Flags(true, true)
      case Before => Flags(true, false)
      case Parallel => Flags(false, false)
      case RightPrefix => Flags(false, false)
  }

  function ManageRecord<L>(hist: Record<L>, cur: Record<L>, fl: Flags): Decision {
    if ((hist.isWrite && cur.isWrite) || !hist.isWrite) && fl.before && SubsetTest(cur.locks, hist.locks) then DelHist
    else if fl.same && ((!hist.isWrite && !cur.isWrite) || hist.isWrite) && SubsetTest(hist.locks, cur.locks) then
      SkipAddCur
    else NoOp
  }

  /** What one pass over the records does: the records kept, whether a race was found (the pass ends there), and
      whether some record makes the current one superfluous. */
  datatype Pass<L> = Pass(kept: seq<Record<L>>, race: bool, skip: bool)

  /** The pass as coded: the flags of one record are still set when the next one is analysed.  With `reset` they
      start afresh at every record. */
  function Scan<L>(cmp: (L, L) -> Order, rs: seq<Record<L>>, cur: Record<L>, fl: Flags, reset: bool): Pass<L>
    decreases |rs|
  {
    if |rs| == 0 then Pass([], false, false)
    else if RacePair(cmp, rs[0], cur) then Pass(rs, true, false)
    else
      var fl' := NewFlags(cmp, rs[0], cur, if reset then RESET else fl);
      var d := ManageRecord(rs[0], cur, fl');
      var rest := Scan(cmp, rs[1..], cur, fl', reset);
      Pass(if d.DelHist? then rest.kept else [rs[0]] + rest.kept, rest.race, d.SkipAddCur? || rest.skip)
  }

  function Prepend<L>(done: seq<Record<L>>, skip: bool, p: Pass<L>): Pass<L> {
    Pass(done + p.kept, p.race, skip || p.skip)
  }

  lemma ScanStep<L>(cmp: (L, L) -> Order, done: seq<Record<L>>, skip: bool, rs: seq<Record<L>>, cur: Record<L>,
      fl: Flags)
    requires rs != []
    ensures var fl' := NewFlags(cmp, rs[0], cur, fl);
      var d := ManageRecord(rs[0], cur, fl');
      Prepend(done, skip, Scan(cmp, rs, cur, fl, false)) ==
        if RacePair(cmp, rs[0], cur) then Pass(done + rs, true, skip)
        else
          Prepend(if d.DelHist? then done else done + [rs[0]], skip || d.SkipAddCur?,
                  Scan(cmp, rs[1..], cur, fl', false))
  {
    var rest := Scan(cmp, rs[1..], cur, NewFlags(cmp, rs[0], cur, fl), false);
    assert done + ([rs[0]] + rest.kept) == (done + [rs[0]]) + rest.kept;
  }

  lemma ScanNone<L>(cmp: (L, L) -> Order, rs: seq<Record<L>>, cur: Record<L>, fl: Flags)
    ensures rs == [] ==> Scan(cmp, rs, cur, fl, false) == Pass([], false, false)
  {
  }

  function AfterPass<L>(p: Pass<L>, cur: Record<L>): seq<Record<L>> {
    p.kept + (if p.skip then [] else [cur])
  }

  /** The records after the access, and the race flag. */
  datatype History<L> = History(records: seq<Record<L>>, raceFound: bool, recycled: bool)

  function Check<L>(cmp: (L, L) -> Order, h: History<L>, cur: Record<L>, private_: bool, dup: bool, fl: Flags,
      reset: bool): History<L> {
    if private_ then h
    else if h.raceFound then h.(records := [])
    else if h.recycled then History([], false, false)
    else if dup then h
    else if h.records == [] then h.(records := [cur])
    else
      var p := Scan(cmp, h.records, cur, fl, reset);
      History(AfterPass(p, cur), p.race, false)
  }

  /** The check gets as far as the query for duplicates. */
  predicate Asks<L>(h: History<L>, private_: bool) {
    !private_ && !h.raceFound && !h.recycled
  }

  // ---- the class ----

  const RACE_FOUND: bv64 := 1
  const RECYCLED: bv64 := 2

  class AccessHistory<L> {
    var state: bv64
    var records: seq<Record<L>>

    ghost function Value(): History<L>
      reads this
    {
      History(records, state & RACE_FOUND != 0, state & RECYCLED != 0)
    }

    constructor ()
      ensures Value() == History([], false, false)
    {
      state, records := 0, [];
    }

    method SetFlag(flag: bv64)
      requires flag == RACE_FOUND || flag == RECYCLED
      modifies this`state
      ensures Value() ==
        if flag == RACE_FOUND then old(Value()).(raceFound := true) else old(Value()).(recycled := true)
    {
      SetBits(state);
      state := state | flag;
    }

    method ClearFlags()
      modifies this`state
      ensures Value() == History(old(Value()).records, false, false)
    {
      state := 0;
    }

    /** The check of one access. `thread` is null if the runtime has no data for the thread; `uninitialized` is what the
        local `diffIndex` happens to hold before the first label comparison. */
    method CheckDataRace(cmp: (L, L) -> Order, cur: Record<L>, private_: bool, thread: ThreadData?, memAddr: nat,
        uninitialized: bool)
      modifies this, thread
      ensures Value() == Check(cmp, old(Value()), cur, private_,
        thread != null && InTable(old(thread.Table(cur.isWrite)), memAddr, old(thread.labelId)),
        Flags(false, uninitialized), false)
      ensures thread != null ==> thread.labelId == old(thread.labelId)
      ensures thread != null ==> thread.Table(!cur.isWrite) == old(thread.Table(!cur.isWrite))
      ensures thread != null && Asks(old(Value()), private_) ==>
        thread.Table(cur.isWrite) == old(thread.Table(cur.isWrite))[memAddr := thread.labelId]
      ensures thread != null && !Asks(old(Value()), private_) ==>
        thread.Table(cur.isWrite) == old(thread.Table(cur.isWrite))
    {
      if private_ {
        return;
      }
      if state & RACE_FOUND != 0 {
        if records != [] {
          records := [];
        }
        return;
      }
      if state & RECYCLED != 0 {
        ClearFlags();
        records := [];
        return;
      }
      var dup := false;
      if thread != null {
        dup := thread.IsDupMemAccess(memAddr, cur.isWrite);
      }
      if dup {
        return;
      }
      if records == [] {
        records := [cur];
      } else {
        ScanRecords(cmp, cur, uninitialized);
      }
    }

    method ScanRecords(cmp: (L, L) -> Order, cur: Record<L>, uninitialized: bool)
      requires !Value().raceFound && !Value().recycled
      modifies this
      ensures var p := Scan(cmp, old(records), cur, Flags(false, uninitialized), false);
        Value() == History(AfterPass(p, cur), p.race, false)
    {
      hide Scan, NewFlags, ManageRecord, RacePair;
      ghost var whole := Scan(cmp, records, cur, Flags(false, uninitialized), false);
      var flags := Flags(false, uninitialized);
      var skipAddCur := false;
      var it := 0;
      while it < |records|
        invariant it <= |records|
        invariant state == old(state)
        invariant whole == Prepend(records[..it], skipAddCur, Scan(cmp, records[it..], cur, flags, false))
        decreases |records| - it
      {
        var histRecord := records[it];
        ScanStep(cmp, records[..it], skipAddCur, records[it..], cur, flags);
        assert records[it..][1..] == records[it + 1..];
        if RacePair(cmp, histRecord, cur) {
          SetFlag(RACE_FOUND);
          assert records[..it] + records[it..] == records;
          break;
        }
        flags := NewFlags(cmp, histRecord, cur, flags);
        var decision := ManageRecord(histRecord, cur, flags);
        if decision == SkipAddCur {
          skipAddCur := true;
        }
        if decision == DelHist {
          EraseAt(records, it);
          records := records[..it] + records[it + 1..];
        } else {
          assert records[..it + 1] == records[..it] + [histRecord];
          it := it + 1;
        }
      }
      ScanNone(cmp, records[it..], cur, flags);
      if !skipAddCur {
        records := records + [cur];
      }
    }
  }

  lemma EraseAt<T>(s: seq<T>, i: nat)
    requires i < |s|
    ensures (s[..i] + s[i + 1..])[..i] == s[..i]
    ensures (s[..i] + s[i + 1..])[i..] == s[i + 1..]
  {
  }

  lemma SetBits(s: bv64)
    ensures (s | RACE_FOUND) & RACE_FOUND != 0
    ensures (s | RECYCLED) & RECYCLED != 0
    ensures (s | RACE_FOUND) & RECYCLED == s & RECYCLED
    ensures (s | RECYCLED) & RACE_FOUND == s & RACE_FOUND
  {
  }
}
