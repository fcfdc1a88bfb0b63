/**
 Pruning the history of a location loses no race: over any run of accesses the race flag is set exactly if some
 pair of accesses of the full, unpruned run races.

 Two details of the code restrict this.  The flags that carry the verdict on one record survive an early return on the
 next record; and the pruning decisions look at locks but not at the atomic-instruction bit or at mutex tasks.  For
 each there is an exact condition and a run that loses a race.
 */
module Pruning {
  import opened LockSets
  import opened AccessHistories

  // ---- the stale flags ----

  /** The as-coded pass deletes a record it has not compared, on the verdict of an earlier one. */
  predicate StaleDelete<L>(cmp: (L, L) -> Order, rs: seq<Record<L>>, cur: Record<L>, fl: Flags)
    decreases |rs|
  {
    |rs| > 0 && !RacePair(cmp, rs[0], cur) &&
    var fl' := NewFlags(cmp, rs[0], cur, fl);
    (ReturnsEarly(rs[0], cur) && ManageRecord(rs[0], cur, fl).DelHist?) || StaleDelete(cmp, rs[1..], cur, fl')
  }

  /** It finds the current record superfluous because of a record it has not compared. */
  predicate StaleSkip<L>(cmp: (L, L) -> Order, rs: seq<Record<L>>, cur: Record<L>, fl: Flags)
    decreases |rs|
  {
    |rs| > 0 && !RacePair(cmp, rs[0], cur) &&
    var fl' := NewFlags(cmp, rs[0], cur, fl);
    (ReturnsEarly(rs[0], cur) && ManageRecord(rs[0], cur, fl).SkipAddCur?) || StaleSkip(cmp, rs[1..], cur, fl')
  }

  /** The as-coded pass and the pass with fresh flags agree exactly if no record is deleted, and the current one not
      dropped, on stale flags alone. */
  lemma {:induction false} StaleFlagsExactly<L>(cmp: (L, L) -> Order, rs: seq<Record<L>>, cur: Record<L>, fl: Flags,
      fl2: Flags)
    ensures var coded, fresh_ := Scan(cmp, rs, cur, fl, false), Scan(cmp, rs, cur, fl2, true);
      && coded.race == fresh_.race
      && |coded.kept| <= |fresh_.kept|
      && (coded.kept == fresh_.kept <==> !StaleDelete(cmp, rs, cur, fl))
      && (|coded.kept| == |fresh_.kept| ==> coded.kept == fresh_.kept)
      && (coded.skip <==> fresh_.skip || StaleSkip(cmp, rs, cur, fl))
      && (coded == fresh_ <==> !StaleDelete(cmp, rs, cur, fl) && (StaleSkip(cmp, rs, cur, fl) ==> fresh_.skip))
    decreases |rs|
  {
    if |rs| > 0 && !RacePair(cmp, rs[0], cur) {
      StaleFlagsExactly(cmp, rs[1..], cur, NewFlags(cmp, rs[0], cur, fl), NewFlags(cmp, rs[0], cur, RESET));
    }
  }

  // ---- what one pass decides ----

  /** The accesses need no order: they share a lock, both are atomic in tasks with lock sets, or the later one is part
      of a reduction. */
  ghost predicate Excused<L>(hist: Record<L>, cur: Record<L>) {
    || (hist.locks.Held? && cur.locks.Held? && exists x :: x in hist.locks.locks && x in cur.locks.locks)
    || (hist.locks.Held? && cur.locks.Held? && hist.hwLock && cur.hwLock)
    || cur.inReduction
  }

  lemma RacePairExactly<L>(cmp: (L, L) -> Order, hist: Record<L>, cur: Record<L>)
    ensures RacePair(cmp, hist, cur) <==>
      && cmp(hist.lbl, cur.lbl) == Parallel
      && (hist.isWrite || cur.isWrite)
      && !Excused(hist, cur)
      && !(hist.mutexTask && cur.mutexTask)
    ensures ReturnsEarly(hist, cur) <==> Excused(hist, cur)
  {
  }

  /** The current access comes after the recorded one, is at least as strong, and passes the lock test against it. */
  ghost predicate Replaces<L>(cmp: (L, L) -> Order, hist: Record<L>, cur: Record<L>) {
    && !Excused(hist, cur)
    && cmp(hist.lbl, cur.lbl) in {Same, Before}
    && (hist.isWrite ==> cur.isWrite)
    && SubsetTest(cur.locks, hist.locks)
  }

  /** The recorded access is one of the same task, is at least as strong as the current one, and passes the lock test
      against it; it stays. */
  ghost predicate MakesSuperfluous<L>(cmp: (L, L) -> Order, hist: Record<L>, cur: Record<L>) {
    && !Excused(hist, cur)
    && cmp(hist.lbl, cur.lbl) == Same
    && (cur.isWrite ==> hist.isWrite)
    && SubsetTest(hist.locks, cur.locks)
    && !Replaces(cmp, hist, cur)
  }

  ghost function Unreplaced<L>(cmp: (L, L) -> Order, rs: seq<Record<L>>, cur: Record<L>): seq<Record<L>> {
    if |rs| == 0 then []
    else (if Replaces(cmp, rs[0], cur) then [] else [rs[0]]) + Unreplaced(cmp, rs[1..], cur)
  }

  /** A fresh pass that finds no race keeps exactly the records that are not replaced, and adds the current access
      unless one of them makes it superfluous. */
  lemma {:induction false} FreshPassExactly<L>(cmp: (L, L) -> Order, rs: seq<Record<L>>, cur: Record<L>, fl: Flags)
    requires forall i :: 0 <= i < |rs| ==> !RacePair(cmp, rs[i], cur)
    ensures var p := Scan(cmp, rs, cur, fl, true);
      && !p.race
      && p.kept == Unreplaced(cmp, rs, cur)
      && (p.skip <==> exists i :: 0 <= i < |rs| && MakesSuperfluous(cmp, rs[i], cur))
    decreases |rs|
  {
    if |rs| > 0 {
      var fl' := NewFlags(cmp, rs[0], cur, RESET);
      FreshPassExactly(cmp, rs[1..], cur, fl');
      DecisionExactly(cmp, rs[0], cur);
      hide RacePair, ManageRecord, NewFlags, Replaces, MakesSuperfluous;
      assert forall i :: 0 < i < |rs| ==> rs[i] == rs[1..][i - 1];
    }
  }

  lemma DecisionExactly<L>(cmp: (L, L) -> Order, hist: Record<L>, cur: Record<L>)
    ensures var d := ManageRecord(hist, cur, NewFlags(cmp, hist, cur, RESET));
      && (d.DelHist? <==> Replaces(cmp, hist, cur))
      && (d.SkipAddCur? <==> MakesSuperfluous(cmp, hist, cur))
  {
    RacePairExactly(cmp, hist, cur);
    hide Excused, ReturnsEarly, SubsetTest;
  }

  // ---- what a kept record is worth ----

  /** The atomic-instruction bit only counts together with a lock set. */
  predicate Atomic<L>(r: Record<L>) {
    r.hwLock && r.locks.Held?
  }

  /** Whatever exempts a pair with `k` exempts the pair with `a`, apart from common locks. */
  predicate NoMoreExempt<L>(k: Record<L>, a: Record<L>) {
    (Atomic(k) ==> Atomic(a)) && (k.mutexTask ==> a.mutexTask)
  }

  /** Every access that `k` excludes by mutual exclusion or as a mutex task, `a` excludes too. */
  ghost predicate ExemptsLess<L(!new)>(k: Record<L>, a: Record<L>) {
    forall x: Record<L> :: (MutuallyExclusive(k, x) || (k.mutexTask && x.mutexTask)) ==>
                             (MutuallyExclusive(a, x) || (a.mutexTask && x.mutexTask))
  }

  /** Given the subset test the code makes, a record may stand for another one exactly if it is atomic, or a mutex
      task, only where the other is. */
  lemma ExemptsLessExactly<L(!new)>(k: Record<L>, a: Record<L>)
    requires SubsetTest(k.locks, a.locks)
    ensures ExemptsLess(k, a) <==> NoMoreExempt(k, a)
  {
    SubsetTestMeaning(k.locks, a.locks);
    if ExemptsLess(k, a) {
      var x := Record(a.lbl, true, Held([]), true, false, false);
      var y := Record(a.lbl, true, NoSet, false, false, true);
      assert MutuallyExclusive(k, x) || !Atomic(k);
      assert !MutuallyExclusive(a, y);
    }
  }

  /** The decisions of one fresh pass are all made on records that may stand for what they replace. */
  predicate FairCall<L>(rs: seq<Record<L>>, cur: Record<L>, cmp: (L, L) -> Order) {
    forall i :: 0 <= i < |rs| ==>
      var d := ManageRecord(rs[i], cur, NewFlags(cmp, rs[i], cur, RESET));
      (d.DelHist? ==> NoMoreExempt(cur, rs[i])) && (d.SkipAddCur? ==> NoMoreExempt(rs[i], cur))
  }

  // ---- runs ----

  /** The label relation on a run: transitive along the observed order, blind to which of two equal labels it sees. */
  ghost predicate OrderOk<L>(cmp: (L, L) -> Order, acc: seq<Record<L>>) {
    && (forall i, j :: 0 <= i < j < |acc| ==> cmp(acc[i].lbl, acc[j].lbl) != RightPrefix)
    && (forall i, j, k :: 0 <= i < j < k < |acc| && HB(cmp, acc[i], acc[j]) && HB(cmp, acc[j], acc[k]) ==>
          HB(cmp, acc[i], acc[k]))
    && (forall i, j, k :: 0 <= i < j < k < |acc| && cmp(acc[i].lbl, acc[j].lbl) == Same ==>
          (HB(cmp, acc[i], acc[k]) <==> HB(cmp, acc[j], acc[k])))
  }

  predicate HB<L>(cmp: (L, L) -> Order, a: Record<L>, b: Record<L>) {
    cmp(a.lbl, b.lbl) == Same || cmp(a.lbl, b.lbl) == Before
  }

  /** The history of a location after a run of its accesses; `junk[i]` is what `diffIndex` holds as call `i` starts. */
  function RunHistory<L>(cmp: (L, L) -> Order, acc: seq<Record<L>>, junk: seq<bool>, reset: bool): History<L>
    requires |junk| == |acc|
  {
    if |acc| == 0 then History([], false, false)
    else
      var n := |acc| - 1;
      Check(cmp, RunHistory(cmp, acc[..n], junk[..n], reset), acc[n], false, false, Flags(false, junk[n]), reset)
  }

  ghost predicate Races<L>(cmp: (L, L) -> Order, acc: seq<Record<L>>) {
    exists i, j :: 0 <= i < j < |acc| && RacePair(cmp, acc[i], acc[j])
  }

  /** Every call of the run is fair, judged on the records it meets. */
  predicate FairRun<L>(cmp: (L, L) -> Order, acc: seq<Record<L>>, junk: seq<bool>)
    requires |junk| == |acc|
  {
    forall n :: 0 <= n < |acc| ==>
      var h := RunHistory(cmp, acc[..n], junk[..n], true);
      h.raceFound || FairCall(h.records, acc[n], cmp)
  }

  /** The call does not act on stale flags in a way that matters. */
  predicate UnstaleCall<L>(cmp: (L, L) -> Order, h: History<L>, cur: Record<L>, junk: bool) {
    || h.raceFound
    || (&& !StaleDelete(cmp, h.records, cur, Flags(false, junk))
        && (StaleSkip(cmp, h.records, cur, Flags(false, junk)) ==> Scan(cmp, h.records, cur, RESET, true).skip))
  }

  predicate UnstaleRun<L>(cmp: (L, L) -> Order, acc: seq<Record<L>>, junk: seq<bool>)
    requires |junk| == |acc|
  {
    forall n :: 0 <= n < |acc| ==> UnstaleCall(cmp, RunHistory(cmp, acc[..n], junk[..n], true), acc[n], junk[n])
  }

  /** A record that races with every later access of the run that access `i` races with. */
  ghost predicate Covers<L>(cmp: (L, L) -> Order, acc: seq<Record<L>>, n: nat, i: nat, r: Record<L>)
    requires i < |acc|
  {
    forall k :: n <= k < |acc| && RacePair(cmp, acc[i], acc[k]) ==> RacePair(cmp, r, acc[k])
  }

  ghost predicate Past<L>(acc: seq<Record<L>>, n: nat, r: Record<L>)
    requires n <= |acc|
  {
    exists j :: 0 <= j < n && acc[j] == r
  }

  ghost predicate Covered<L>(cmp: (L, L) -> Order, acc: seq<Record<L>>, n: nat, i: nat, rs: seq<Record<L>>)
    requires i < |acc|
  {
    exists r :: r in rs && Covers(cmp, acc, n, i, r)
  }

  /** While no race is found: nothing has raced, kept records are past accesses, and every past access is covered. */
  ghost predicate HistoryInv<L>(cmp: (L, L) -> Order, acc: seq<Record<L>>, n: nat, h: History<L>)
    requires n <= |acc|
  {
    && !h.recycled
    && (h.raceFound <==> Races(cmp, acc[..n]))
    && (!h.raceFound ==>
          && (forall r :: r in h.records ==> Past(acc, n, r))
          && (forall i :: 0 <= i < n ==> Covered(cmp, acc, n, i, h.records)))
  }

  // ---- one fresh pass ----

  /** A fresh pass finds a race exactly if some record races; otherwise it keeps the records it does not delete. */
  lemma {:induction false} FreshPass<L>(cmp: (L, L) -> Order, rs: seq<Record<L>>, cur: Record<L>, fl: Flags)
    ensures var p := Scan(cmp, rs, cur, fl, true);
      && (p.race <==> exists r :: r in rs && RacePair(cmp, r, cur))
      && (forall r :: r in p.kept ==> r in rs)
      && (!p.race ==>
            && (forall r :: r in rs && r !in p.kept ==> ManageRecord(r, cur, NewFlags(cmp, r, cur, RESET)).DelHist?)
            && (p.skip ==> exists r :: r in p.kept && ManageRecord(r, cur, NewFlags(cmp, r, cur, RESET)).SkipAddCur?))
    decreases |rs|
  {
    if |rs| > 0 && !RacePair(cmp, rs[0], cur) {
      var fl' := NewFlags(cmp, rs[0], cur, RESET);
      FreshPass(cmp, rs[1..], cur, fl');
      assert forall r :: r in rs <==> r == rs[0] || r in rs[1..];
    }
  }

  lemma Transitive<L>(cmp: (L, L) -> Order, acc: seq<Record<L>>, i: nat, j: nat, k: nat)
    requires OrderOk(cmp, acc) && i < j < k < |acc|
    ensures HB(cmp, acc[i], acc[j]) && HB(cmp, acc[j], acc[k]) ==> HB(cmp, acc[i], acc[k])
  {
  }

  lemma SameOrder<L>(cmp: (L, L) -> Order, acc: seq<Record<L>>, i: nat, j: nat, k: nat)
    requires OrderOk(cmp, acc) && i < j < k < |acc|
    ensures cmp(acc[i].lbl, acc[j].lbl) == Same ==> (HB(cmp, acc[i], acc[k]) <==> HB(cmp, acc[j], acc[k]))
  {
  }

  /** A fresh deletion is justified: what raced with the record races with the current access. */
  lemma DeletionCovered<L>(cmp: (L, L) -> Order, acc: seq<Record<L>>, n: nat, j: nat)
    requires OrderOk(cmp, acc) && j < n < |acc|
    requires ManageRecord(acc[j], acc[n], NewFlags(cmp, acc[j], acc[n], RESET)).DelHist?
    requires NoMoreExempt(acc[n], acc[j])
    ensures Covers(cmp, acc, n + 1, j, acc[n])
  {
    SubsetTestMeaning(acc[n].locks, acc[j].locks);
    assert HB(cmp, acc[j], acc[n]);
    forall k | n + 1 <= k < |acc| && RacePair(cmp, acc[j], acc[k])
      ensures RacePair(cmp, acc[n], acc[k])
    {
      Transitive(cmp, acc, j, n, k);
    }
  }

  lemma SkipCovered<L>(cmp: (L, L) -> Order, acc: seq<Record<L>>, n: nat, j: nat)
    requires OrderOk(cmp, acc) && j < n < |acc|
    requires ManageRecord(acc[j], acc[n], NewFlags(cmp, acc[j], acc[n], RESET)).SkipAddCur?
    requires NoMoreExempt(acc[j], acc[n])
    ensures Covers(cmp, acc, n + 1, n, acc[j])
  {
    SubsetTestMeaning(acc[j].locks, acc[n].locks);
    forall k | n + 1 <= k < |acc| && RacePair(cmp, acc[n], acc[k])
      ensures RacePair(cmp, acc[j], acc[k])
    {
      SameOrder(cmp, acc, j, n, k);
    }
  }

  lemma RacesStep<L>(cmp: (L, L) -> Order, acc: seq<Record<L>>, n: nat)
    requires n < |acc|
    ensures Races(cmp, acc[..n + 1]) <==>
        Races(cmp, acc[..n]) || exists i :: 0 <= i < n && RacePair(cmp, acc[i], acc[n])
  {
    var a, b := acc[..n], acc[..n + 1];
    assert forall i :: 0 <= i < n ==> a[i] == b[i] == acc[i];
    assert b[n] == acc[n];
    if i, j :| 0 <= i < j < |b| && RacePair(cmp, b[i], b[j]) {
      if j < n {
        assert RacePair(cmp, a[i], a[j]);
      } else {
        assert RacePair(cmp, acc[i], acc[n]);
      }
    }
    if i, j :| 0 <= i < j < |a| && RacePair(cmp, a[i], a[j]) {
      assert RacePair(cmp, b[i], b[j]);
    }
    if i :| 0 <= i < n && RacePair(cmp, acc[i], acc[n]) {
      assert RacePair(cmp, b[i], b[n]);
    }
  }

  /** The kept records race with the current access exactly if some past access does. */
  lemma KeptRace<L>(cmp: (L, L) -> Order, acc: seq<Record<L>>, n: nat, rs: seq<Record<L>>)
    requires n < |acc|
    requires forall r :: r in rs ==> Past(acc, n, r)
    requires forall i :: 0 <= i < n ==> Covered(cmp, acc, n, i, rs)
    ensures (exists r :: r in rs && RacePair(cmp, r, acc[n])) <==>
        (exists i :: 0 <= i < n && RacePair(cmp, acc[i], acc[n]))
  {
    if r :| r in rs && RacePair(cmp, r, acc[n]) {
      var j :| 0 <= j < n && acc[j] == r;
    }
    if i :| 0 <= i < n && RacePair(cmp, acc[i], acc[n]) {
      assert Covered(cmp, acc, n, i, rs);
    }
  }

  /** After a pass without a race some record stands for the current access. */
  lemma CurrentCovered<L>(cmp: (L, L) -> Order, acc: seq<Record<L>>, n: nat, rs: seq<Record<L>>, fl: Flags)
      returns (last: Record<L>)
    requires OrderOk(cmp, acc) && n < |acc|
    requires forall r :: r in rs ==> Past(acc, n, r)
    requires FairCall(rs, acc[n], cmp) && !Scan(cmp, rs, acc[n], fl, true).race
    ensures last in AfterPass(Scan(cmp, rs, acc[n], fl, true), acc[n])
    ensures Covers(cmp, acc, n + 1, n, last)
  {
    var p := Scan(cmp, rs, acc[n], fl, true);
    FreshPass(cmp, rs, acc[n], fl);
    if p.skip {
      last :| last in p.kept && ManageRecord(last, acc[n], NewFlags(cmp, last, acc[n], RESET)).SkipAddCur?;
      var m := IndexIn(acc, n, rs, last);
      SkipCovered(cmp, acc, n, m);
    } else {
      last := acc[n];
      assert AfterPass(p, acc[n])[|p.kept|] == last;
    }
  }

  /** And every earlier access is still covered. */
  lemma StillCovered<L>(cmp: (L, L) -> Order, acc: seq<Record<L>>, n: nat, rs: seq<Record<L>>, fl: Flags, i: nat,
      last: Record<L>)
    requires OrderOk(cmp, acc) && i < n < |acc|
    requires forall r :: r in rs ==> Past(acc, n, r)
    requires Covered(cmp, acc, n, i, rs)
    requires FairCall(rs, acc[n], cmp) && !Scan(cmp, rs, acc[n], fl, true).race
    requires last in AfterPass(Scan(cmp, rs, acc[n], fl, true), acc[n]) && Covers(cmp, acc, n + 1, n, last)
    ensures Covered(cmp, acc, n + 1, i, AfterPass(Scan(cmp, rs, acc[n], fl, true), acc[n]))
  {
    var p := Scan(cmp, rs, acc[n], fl, true);
    FreshPass(cmp, rs, acc[n], fl);
    hide Scan;
    var r :| r in rs && Covers(cmp, acc, n, i, r);
    if r in p.kept {
      assert r in AfterPass(p, acc[n]) && Covers(cmp, acc, n + 1, i, r);
    } else {
      var j := IndexIn(acc, n, rs, r);
      DeletionCovered(cmp, acc, n, j);
      assert Covers(cmp, acc, n + 1, i, last);
    }
  }

  lemma IndexIn<L>(acc: seq<Record<L>>, n: nat, rs: seq<Record<L>>, r: Record<L>) returns (j: nat)
    requires n <= |acc| && r in rs && forall q :: q in rs ==> Past(acc, n, q)
    ensures j < n && acc[j] == r
    ensures exists k :: 0 <= k < |rs| && rs[k] == r
  {
    j :| 0 <= j < n && acc[j] == r;
  }

  lemma FreshStep<L>(cmp: (L, L) -> Order, acc: seq<Record<L>>, n: nat, h: History<L>, fl: Flags)
    requires OrderOk(cmp, acc) && n < |acc|
    requires HistoryInv(cmp, acc, n, h) && (h.raceFound || FairCall(h.records, acc[n], cmp))
    ensures HistoryInv(cmp, acc, n + 1, Check(cmp, h, acc[n], false, false, fl, true))
  {
    RacesStep(cmp, acc, n);
    if !h.raceFound {
      KeptRace(cmp, acc, n, h.records);
      if h.records == [] {
        assert n > 0 ==> Covered(cmp, acc, n, 0, h.records);
        assert acc[n] in [acc[n]] && Covers(cmp, acc, n + 1, n, acc[n]);
        assert Past(acc, n + 1, acc[n]);
      } else {
        FreshPassStep(cmp, acc, n, n + 1, h.records, fl);
      }
    }
  }

  lemma FreshPassStep<L>(cmp: (L, L) -> Order, acc: seq<Record<L>>, n: nat, m: nat, rs: seq<Record<L>>, fl: Flags)
    requires OrderOk(cmp, acc) && n < |acc| && m == n + 1
    requires forall r :: r in rs ==> Past(acc, n, r)
    requires forall i :: 0 <= i < n ==> Covered(cmp, acc, n, i, rs)
    requires FairCall(rs, acc[n], cmp)
    ensures var p := Scan(cmp, rs, acc[n], fl, true);
      && (p.race <==> exists r :: r in rs && RacePair(cmp, r, acc[n]))
      && (!p.race ==>
            && (forall r :: r in AfterPass(p, acc[n]) ==> Past(acc, m, r))
            && (forall i :: 0 <= i <= n ==> Covered(cmp, acc, m, i, AfterPass(p, acc[n]))))
  {
    var p := Scan(cmp, rs, acc[n], fl, true);
    FreshPass(cmp, rs, acc[n], fl);
    hide Scan;
    var after := AfterPass(p, acc[n]);
    forall r | r in after
      ensures Past(acc, m, r)
    {
      if r in p.kept {
        var j := IndexIn(acc, n, rs, r);
      }
    }
    if !p.race {
      var last := CurrentCovered(cmp, acc, n, rs, fl);
      forall i | 0 <= i <= n
        ensures Covered(cmp, acc, m, i, after)
      {
        if i < n {
          StillCovered(cmp, acc, n, rs, fl, i, last);
        }
      }
    }
  }

  // ---- the theorems ----

  /** With fresh flags per record: over any fair run, the race flag is set exactly if the full run has a race. */
  lemma {:induction false} FreshRunInv<L>(cmp: (L, L) -> Order, acc: seq<Record<L>>, junk: seq<bool>, n: nat)
    requires |junk| == |acc| && n <= |acc| && OrderOk(cmp, acc) && FairRun(cmp, acc, junk)
    ensures HistoryInv(cmp, acc, n, RunHistory(cmp, acc[..n], junk[..n], true))
  {
    if n > 0 {
      hide HistoryInv, OrderOk, FairCall, RunHistory, Check;
      FreshRunInv(cmp, acc, junk, n - 1);
      PrefixRun(cmp, acc, junk, n, true);
      FreshStep(cmp, acc, n - 1, RunHistory(cmp, acc[..n - 1], junk[..n - 1], true), Flags(false, junk[n - 1]));
    }
  }

  lemma PrefixRun<L>(cmp: (L, L) -> Order, acc: seq<Record<L>>, junk: seq<bool>, n: nat, reset: bool)
    requires |junk| == |acc| && 0 < n <= |acc|
    ensures RunHistory(cmp, acc[..n], junk[..n], reset) ==
      Check(cmp, RunHistory(cmp, acc[..n - 1], junk[..n - 1], reset), acc[n - 1], false, false, Flags(false,
          junk[n - 1]), reset)
  {
    assert acc[..n][..n - 1] == acc[..n - 1] && junk[..n][..n - 1] == junk[..n - 1];
  }

  lemma PruningLosesNothing<L>(cmp: (L, L) -> Order, acc: seq<Record<L>>, junk: seq<bool>)
    requires |junk| == |acc| && OrderOk(cmp, acc) && FairRun(cmp, acc, junk)
    ensures RunHistory(cmp, acc, junk, true).raceFound <==> Races(cmp, acc)
  {
    FreshRunInv(cmp, acc, junk, |acc|);
    assert acc[..|acc|] == acc && junk[..|junk|] == junk;
  }

  /** The code as it is does the same as with fresh flags, call by call, on every run without a stale decision. */
  lemma {:induction false} CodedRunIsFresh<L>(cmp: (L, L) -> Order, acc: seq<Record<L>>, junk: seq<bool>, n: nat)
    requires |junk| == |acc| && n <= |acc| && UnstaleRun(cmp, acc, junk)
    ensures RunHistory(cmp, acc[..n], junk[..n], false) == RunHistory(cmp, acc[..n], junk[..n], true)
  {
    if n > 0 {
      CodedRunIsFresh(cmp, acc, junk, n - 1);
      PrefixRun(cmp, acc, junk, n, false);
      PrefixRun(cmp, acc, junk, n, true);
      var h := RunHistory(cmp, acc[..n - 1], junk[..n - 1], true);
      StaleFlagsExactly(cmp, h.records, acc[n - 1], Flags(false, junk[n - 1]), RESET);
      StaleFlagsExactly(cmp, h.records, acc[n - 1], Flags(false, junk[n - 1]), Flags(false, junk[n - 1]));
    }
  }

  /** A call that acts on stale flags leaves fewer records than one with fresh flags. */
  lemma StaleCallShows<L>(cmp: (L, L) -> Order, h: History<L>, cur: Record<L>, fl: Flags)
    requires !h.raceFound && !h.recycled
    requires Check(cmp, h, cur, false, false, fl, false) == Check(cmp, h, cur, false, false, fl, true)
    ensures !StaleDelete(cmp, h.records, cur, fl)
    ensures StaleSkip(cmp, h.records, cur, fl) ==> Scan(cmp, h.records, cur, RESET, true).skip
  {
    if h.records != [] {
      StaleFlagsExactly(cmp, h.records, cur, fl, fl);
      StaleFlagsExactly(cmp, h.records, cur, fl, RESET);
    }
  }

  lemma {:induction false} NeverRecycled<L>(cmp: (L, L) -> Order, acc: seq<Record<L>>, junk: seq<bool>, reset: bool)
    requires |junk| == |acc|
    ensures !RunHistory(cmp, acc, junk, reset).recycled
  {
    if |acc| > 0 {
      NeverRecycled(cmp, acc[..|acc| - 1], junk[..|acc| - 1], reset);
    }
  }

  /** After `n` accesses the code as it is and the code with fresh flags keep the same history. */
  ghost predicate SameHistory<L>(cmp: (L, L) -> Order, acc: seq<Record<L>>, junk: seq<bool>, n: nat)
    requires |junk| == |acc|
  {
    n <= |acc| ==> RunHistory(cmp, acc[..n], junk[..n], false) == RunHistory(cmp, acc[..n], junk[..n], true)
  }

  lemma SameHistoryMeansFresh<L>(cmp: (L, L) -> Order, acc: seq<Record<L>>, junk: seq<bool>, n: nat, m: nat)
    requires |junk| == |acc| && m == n + 1 && m <= |acc|
    requires SameHistory(cmp, acc, junk, n) && SameHistory(cmp, acc, junk, m)
    ensures UnstaleCall(cmp, RunHistory(cmp, acc[..n], junk[..n], true), acc[n], junk[n])
  {
    hide RunHistory, Check, Scan;
    PrefixRun(cmp, acc, junk, m, false);
    PrefixRun(cmp, acc, junk, m, true);
    var h := RunHistory(cmp, acc[..n], junk[..n], true);
    NeverRecycled(cmp, acc[..n], junk[..n], true);
    if !h.raceFound {
      StaleCallShows(cmp, h, acc[n], Flags(false, junk[n]));
    }
  }

  /** The code as it is and the code with fresh flags keep the same history all along exactly on the runs without a
      stale decision. */
  lemma CodedRunIsFreshExactly<L>(cmp: (L, L) -> Order, acc: seq<Record<L>>, junk: seq<bool>)
    requires |junk| == |acc|
    ensures UnstaleRun(cmp, acc, junk) <==> forall n: nat :: SameHistory(cmp, acc, junk, n)
  {
    if UnstaleRun(cmp, acc, junk) {
      forall n: nat
        ensures SameHistory(cmp, acc, junk, n)
      {
        if n <= |acc| { CodedRunIsFresh(cmp, acc, junk, n); }
      }
    }
    if forall n: nat :: SameHistory(cmp, acc, junk, n) {
      hide SameHistory, UnstaleCall;
      forall n | 0 <= n < |acc|
        ensures UnstaleCall(cmp, RunHistory(cmp, acc[..n], junk[..n], true), acc[n], junk[n])
      {
        SameHistoryMeansFresh(cmp, acc, junk, n, n + 1);
      }
    }
  }

  /** The code as it is: over any fair run without a stale decision the race flag is exact. */
  lemma CodedPruningLosesNothing<L>(cmp: (L, L) -> Order, acc: seq<Record<L>>, junk: seq<bool>)
    requires |junk| == |acc| && OrderOk(cmp, acc) && FairRun(cmp, acc, junk) && UnstaleRun(cmp, acc, junk)
    ensures RunHistory(cmp, acc, junk, false).raceFound <==> Races(cmp, acc)
  {
    CodedRunIsFresh(cmp, acc, junk, |acc|);
    PruningLosesNothing(cmp, acc, junk);
    assert acc[..|acc|] == acc && junk[..|junk|] == junk;
  }

  // ---- simple conditions under which every call is fair and unstale ----

  /** All accesses agree on being atomic, and none is made by a mutex task. */
  predicate Uniform<L>(acc: seq<Record<L>>) {
    && (forall i, j :: 0 <= i < j < |acc| ==> (Atomic(acc[i]) <==> Atomic(acc[j])))
    && (forall i :: 0 <= i < |acc| ==> !acc[i].mutexTask)
  }

  /** No two accesses exclude each other, and none is in a reduction. */
  predicate NeverEarly<L>(acc: seq<Record<L>>) {
    && (forall i, j :: 0 <= i < j < |acc| ==> !MutuallyExclusive(acc[i], acc[j]))
    && (forall i :: 0 <= i < |acc| ==> !acc[i].inReduction)
  }

  lemma CheckKeeps<L>(cmp: (L, L) -> Order, h: History<L>, cur: Record<L>, fl: Flags, r: Record<L>)
    requires r in Check(cmp, h, cur, false, false, fl, true).records
    ensures r == cur || r in h.records
  {
    hide Scan, NewFlags, ManageRecord;
    FreshPass(cmp, h.records, cur, fl);
  }

  lemma {:induction false} KeptArePast<L>(cmp: (L, L) -> Order, acc: seq<Record<L>>, junk: seq<bool>, n: nat)
    requires |junk| == |acc| && n <= |acc|
    ensures forall r :: r in RunHistory(cmp, acc[..n], junk[..n], true).records ==> Past(acc, n, r)
  {
    if n > 0 {
      hide Check;
      KeptArePast(cmp, acc, junk, n - 1);
      PrefixRun(cmp, acc, junk, n, true);
      forall r | r in RunHistory(cmp, acc[..n], junk[..n], true).records
        ensures Past(acc, n, r)
      {
        var h := RunHistory(cmp, acc[..n - 1], junk[..n - 1], true);
        CheckKeeps(cmp, h, acc[n - 1], Flags(false, junk[n - 1]), r);
        hide RunHistory;
        if r in h.records {
          assert Past(acc, n - 1, r);
        }
      }
    }
  }

  lemma UniformRunIsFair<L>(cmp: (L, L) -> Order, acc: seq<Record<L>>, junk: seq<bool>)
    requires |junk| == |acc| && Uniform(acc)
    ensures FairRun(cmp, acc, junk)
  {
    forall n | 0 <= n < |acc|
      ensures FairCall(RunHistory(cmp, acc[..n], junk[..n], true).records, acc[n], cmp)
    {
      KeptArePast(cmp, acc, junk, n);
      hide RunHistory;
      var rs := RunHistory(cmp, acc[..n], junk[..n], true).records;
      forall i | 0 <= i < |rs|
        ensures NoMoreExempt(acc[n], rs[i]) && NoMoreExempt(rs[i], acc[n])
      {
        assert rs[i] in rs;
        var j :| 0 <= j < n && acc[j] == rs[i];
      }
    }
  }

  lemma {:induction false} NoEarlyNoStale<L>(cmp: (L, L) -> Order, rs: seq<Record<L>>, cur: Record<L>, fl: Flags)
    requires forall r :: r in rs ==> !ReturnsEarly(r, cur)
    ensures !StaleDelete(cmp, rs, cur, fl) && !StaleSkip(cmp, rs, cur, fl)
    decreases |rs|
  {
    if |rs| > 0 {
      NoEarlyNoStale(cmp, rs[1..], cur, NewFlags(cmp, rs[0], cur, fl));
    }
  }

  lemma NeverEarlyIsUnstale<L>(cmp: (L, L) -> Order, acc: seq<Record<L>>, junk: seq<bool>)
    requires |junk| == |acc| && NeverEarly(acc)
    ensures UnstaleRun(cmp, acc, junk)
  {
    forall n | 0 <= n < |acc|
      ensures var h := RunHistory(cmp, acc[..n], junk[..n], true);
        !StaleDelete(cmp, h.records, acc[n], Flags(false, junk[n])) &&
            !StaleSkip(cmp, h.records, acc[n], Flags(false, junk[n]))
    {
      KeptArePast(cmp, acc, junk, n);
      NoEarlyNoStale(cmp, RunHistory(cmp, acc[..n], junk[..n], true).records, acc[n], Flags(false, junk[n]));
    }
  }

  // ---- private and recycled locations ----

  /** A visit of the check; `private_` says that the location is private to the thread at that moment. */
  datatype Visit<L> = Visit(cur: Record<L>, private_: bool, junk: bool)

  function RunVisits<L>(cmp: (L, L) -> Order, h: History<L>, vs: seq<Visit<L>>, reset: bool): History<L> {
    if |vs| == 0 then h
    else
      var v := vs[|vs| - 1];
      Check(cmp, RunVisits(cmp, h, vs[..|vs| - 1], reset), v.cur, v.private_, false, Flags(false, v.junk), reset)
  }

  function Shared<L>(vs: seq<Visit<L>>): (r: seq<Visit<L>>)
    ensures forall i :: 0 <= i < |r| ==> r[i] in vs && !r[i].private_
  {
    if |vs| == 0 then []
    else
      var v := vs[|vs| - 1];
      Shared(vs[..|vs| - 1]) + if v.private_ then [] else [v]
  }

  function RecordsOf<L>(vs: seq<Visit<L>>): (r: seq<Record<L>>)
    ensures |r| == |vs| && forall i :: 0 <= i < |vs| ==> r[i] == vs[i].cur
  {
    seq(|vs|, i requires 0 <= i < |vs| => vs[i].cur)
  }

  function JunkOf<L>(vs: seq<Visit<L>>): (r: seq<bool>)
    ensures |r| == |vs| && forall i :: 0 <= i < |vs| ==> r[i] == vs[i].junk
  {
    seq(|vs|, i requires 0 <= i < |vs| => vs[i].junk)
  }

  /** Visits of a private location leave no trace, whatever the history is. */
  lemma {:induction false} PrivateVisitsLeaveNoTrace<L>(cmp: (L, L) -> Order, h: History<L>, vs: seq<Visit<L>>,
      reset: bool)
    ensures RunVisits(cmp, h, vs, reset) == RunVisits(cmp, h, Shared(vs), reset)
  {
    if |vs| > 0 {
      hide Scan, RacePair, AfterPass;
      var n := |vs| - 1;
      PrivateVisitsLeaveNoTrace(cmp, h, vs[..n], reset);
      var s := Shared(vs[..n]);
      assert (s + [vs[n]])[..|s|] == s && s + [] == s;
    }
  }

  lemma {:induction false} SharedVisitsAreRun<L>(cmp: (L, L) -> Order, vs: seq<Visit<L>>, reset: bool)
    requires forall i :: 0 <= i < |vs| ==> !vs[i].private_
    ensures RunVisits(cmp, History([], false, false), vs, reset) == RunHistory(cmp, RecordsOf(vs), JunkOf(vs), reset)
  {
    if |vs| > 0 {
      var n := |vs| - 1;
      SharedVisitsAreRun(cmp, vs[..n], reset);
      assert RecordsOf(vs)[..n] == RecordsOf(vs[..n]) && JunkOf(vs)[..n] == JunkOf(vs[..n]);
    }
  }

  /** The race flag is set exactly if two of the visits in which the location was shared race. */
  lemma VisitsExactly<L>(cmp: (L, L) -> Order, vs: seq<Visit<L>>)
    requires OrderOk(cmp, RecordsOf(Shared(vs))) && FairRun(cmp, RecordsOf(Shared(vs)), JunkOf(Shared(vs)))
    ensures RunVisits(cmp, History([], false, false), vs, true).raceFound <==> Races(cmp, RecordsOf(Shared(vs)))
  {
    hide RunHistory, Races, OrderOk, FairRun, RunVisits;
    PrivateVisitsLeaveNoTrace(cmp, History([], false, false), vs, true);
    SharedVisitsAreRun(cmp, Shared(vs), true);
    PruningLosesNothing(cmp, RecordsOf(Shared(vs)), JunkOf(Shared(vs)));
  }

  /** A recycled location starts afresh, but with the second visit: the first one is not recorded.  A race that has been
      found stays found. */
  lemma {:induction false} RecycledStartsAfresh<L>(cmp: (L, L) -> Order, h: History<L>, vs: seq<Visit<L>>, reset: bool)
    requires |vs| > 0 && !vs[0].private_
    ensures RunVisits(cmp, h.(recycled := true), vs, reset) ==
      if h.raceFound then h.(recycled := true, records := [])
      else RunVisits(cmp, History([], false, false), vs[1..], reset)
  {
    if |vs| > 1 {
      var n := |vs| - 1;
      RecycledStartsAfresh(cmp, h, vs[..n], reset);
      assert vs[..n][1..] == vs[1..][..n - 1];
      hide Scan, RacePair;
    } else {
      assert vs[1..] == [] && vs[..0] == [];
    }
  }

  // ---- runs that lose a race ----

  /** Label 0 comes before everything; the other labels are pairwise parallel. */
  function RootFirst(a: int, b: int): Order {
    if a == b then Same else if a == 0 then Before else Parallel
  }

  lemma RootFirstOk(acc: seq<Record<int>>)
    ensures OrderOk(RootFirst, acc)
  {
  }

  lemma RunThree<L>(cmp: (L, L) -> Order, acc: seq<Record<L>>, junk: seq<bool>, reset: bool)
    requires |junk| == |acc| == 3
    ensures var h1 := History([acc[0]], false, false);
      var h2 := Check(cmp, h1, acc[1], false, false, Flags(false, junk[1]), reset);
      && RunHistory(cmp, acc, junk, reset) == Check(cmp, h2, acc[2], false, false, Flags(false, junk[2]), reset)
      && RunHistory(cmp, acc[..1], junk[..1], reset) == h1
  {
    assert acc[..3] == acc && junk[..3] == junk && acc[..0] == [] && junk[..0] == [];
    PrefixRun(cmp, acc, junk, 1, reset);
    PrefixRun(cmp, acc, junk, 2, reset);
    PrefixRun(cmp, acc, junk, 3, reset);
  }

  /** A pass over one record. */
  lemma ScanOne<L>(cmp: (L, L) -> Order, r: Record<L>, cur: Record<L>, fl: Flags, reset: bool)
    ensures Scan(cmp, [r], cur, fl, reset) ==
      if RacePair(cmp, r, cur) then Pass([r], true, false)
      else
        var d := ManageRecord(r, cur, NewFlags(cmp, r, cur, if reset then RESET else fl));
        Pass(if d.DelHist? then [] else [r], false, d.SkipAddCur?)
  {
    assert [r][1..] == [];
  }

  lemma ScanTwo<L>(cmp: (L, L) -> Order, r: Record<L>, s: Record<L>, cur: Record<L>, fl: Flags)
    requires !RacePair(cmp, r, cur)
    ensures var fl' := NewFlags(cmp, r, cur, fl);
      var d := ManageRecord(r, cur, fl');
      var rest := Scan(cmp, [s], cur, fl', false);
      Scan(cmp, [r, s], cur, fl, false) == Pass(if d.DelHist? then rest.kept else [r] + rest.kept, rest.race,
          d.SkipAddCur? || rest.skip)
  {
    assert [r, s][1..] == [s];
  }

  /** After a write that comes before everything, two tasks read under a common lock; the second read is not compared
      with the first, but deletes it on the verdict of the write.  The unlocked write that follows races with it. */
  lemma StaleFlagsLoseRace() returns (acc: seq<Record<int>>, junk: seq<bool>)
    ensures |junk| == |acc| && OrderOk(RootFirst, acc) && FairRun(RootFirst, acc, junk)
    ensures forall i :: 0 <= i < |junk| ==> !junk[i]
    ensures Races(RootFirst, acc)
    ensures !RunHistory(RootFirst, acc, junk, false).raceFound
    ensures RunHistory(RootFirst, acc, junk, true).raceFound
  {
    acc := StaleAccesses(0, 1, 2);
    junk := [false, false, false, false];
    hide RunHistory, FairRun, OrderOk, Scan;
    UniformRunIsFair(RootFirst, acc, junk);
    StaleRun(RootFirst, 0, 1, 2, junk);
    RootFirstOk(acc);
    assert RacePair(RootFirst, acc[1], acc[3]);
    PruningLosesNothing(RootFirst, acc, junk);
  }

  /** The four accesses, under labels of which the first comes before the two others, and these are parallel. */
  function StaleAccesses<L>(a: L, b: L, c: L): seq<Record<L>> {
    [Record(a, true, NoSet, false, false, false), Record(b, false, Held([5]), false, false, false),
     Record(c, false, Held([5]), false, false, false), Record(c, true, Held([]), false, false, false)]
  }

  lemma StaleRun<L>(cmp: (L, L) -> Order, a: L, b: L, c: L, junk: seq<bool>)
    requires cmp(a, b) == Before && cmp(a, c) == Before && cmp(b, c) == Parallel && cmp(c, c) == Same
    requires junk == [false, false, false, false]
    ensures !RunHistory(cmp, StaleAccesses(a, b, c), junk, false).raceFound
  {
    hide RunHistory, Scan, Check;
    var acc := StaleAccesses(a, b, c);
    RunFour(cmp, acc[0], acc[1], acc[2], acc[3], junk);
    assert acc == [acc[0], acc[1], acc[2], acc[3]];
    StaleFirst(cmp, acc[0], acc[1]);
    StaleSecond(cmp, acc[0], acc[1], acc[2]);
    StaleThird(cmp, acc[0], acc[2], acc[3]);
  }

  lemma StaleFirst<L>(cmp: (L, L) -> Order, w0: Record<L>, r1: Record<L>)
    requires w0 == Record(w0.lbl, true, NoSet, false, false, false) &&
        r1 == Record(r1.lbl, false, Held([5]), false, false, false)
    requires cmp(w0.lbl, r1.lbl) == Before
    ensures Check(cmp, History([w0], false, false), r1, false, false, RESET, false) == History([w0, r1], false, false)
  {
    hide Scan;
    ScanOne(cmp, w0, r1, RESET, false);
  }

  lemma StaleSecond<L>(cmp: (L, L) -> Order, w0: Record<L>, r1: Record<L>, r2: Record<L>)
    requires w0 == Record(w0.lbl, true, NoSet, false, false, false)
    requires r1 == Record(r1.lbl, false, Held([5]), false, false, false) &&
        r2 == Record(r2.lbl, false, Held([5]), false, false, false)
    requires cmp(w0.lbl, r2.lbl) == Before
    ensures Check(cmp, History([w0, r1], false, false), r2, false, false, RESET, false) ==
        History([w0, r2], false, false)
  {
    hide Scan;
    assert 5 in [5];
    ScanTwo(cmp, w0, r1, r2, RESET);
    ScanOne(cmp, r1, r2, Flags(true, false), false);
  }

  lemma StaleThird<L>(cmp: (L, L) -> Order, w0: Record<L>, r2: Record<L>, w2: Record<L>)
    requires w0 == Record(w0.lbl, true, NoSet, false, false, false)
    requires r2 == Record(r2.lbl, false, Held([5]), false, false, false) &&
        w2 == Record(w2.lbl, true, Held([]), false, false, false)
    requires cmp(w0.lbl, w2.lbl) == Before && cmp(r2.lbl, w2.lbl) == Same
    ensures !Check(cmp, History([w0, r2], false, false), w2, false, false, RESET, false).raceFound
  {
    hide Scan;
    ScanTwo(cmp, w0, r2, w2, RESET);
    ScanOne(cmp, r2, w2, Flags(true, false), false);
  }

  lemma RunFour<L>(cmp: (L, L) -> Order, a: Record<L>, b: Record<L>, c: Record<L>, d: Record<L>, junk: seq<bool>)
    requires |junk| == 4
    ensures var h1 := History([a], false, false);
      var h2 := Check(cmp, h1, b, false, false, Flags(false, junk[1]), false);
      var h3 := Check(cmp, h2, c, false, false, Flags(false, junk[2]), false);
      RunHistory(cmp, [a, b, c, d], junk, false) == Check(cmp, h3, d, false, false, Flags(false, junk[3]), false)
  {
    var acc := [a, b, c, d];
    assert acc[..4] == acc && junk[..4] == junk && acc[..0] == [] && junk[..0] == [];
    PrefixRun(cmp, acc, junk, 1, false);
    PrefixRun(cmp, acc, junk, 2, false);
    PrefixRun(cmp, acc, junk, 3, false);
    PrefixRun(cmp, acc, junk, 4, false);
  }

  /** A plain write is deleted by an atomic one of the same task; an atomic write of another task races with the first
      only.  Fresh flags do not help. */
  lemma AtomicBitLosesRace() returns (acc: seq<Record<int>>, junk: seq<bool>)
    ensures |junk| == |acc| && OrderOk(RootFirst, acc)
    ensures Races(RootFirst, acc)
    ensures !RunHistory(RootFirst, acc, junk, true).raceFound
    ensures !FairRun(RootFirst, acc, junk)
  {
    acc := AtomicBitAccesses(1, 2);
    junk := [false, false, false];
    AtomicBitRace();
    hide RunHistory, FairRun, OrderOk, Races, AtomicBitAccesses;
    RootFirstOk(acc);
    AtomicBitRun(RootFirst, 1, 2, junk, true);
    if FairRun(RootFirst, acc, junk) {
      PruningLosesNothing(RootFirst, acc, junk);
    }
  }

  lemma AtomicBitRace()
    ensures |AtomicBitAccesses(1, 2)| == 3 && Races(RootFirst, AtomicBitAccesses(1, 2))
  {
    assert RacePair(RootFirst, AtomicBitAccesses(1, 2)[0], AtomicBitAccesses(1, 2)[2]);
  }

  function AtomicBitAccesses<L>(a: L, b: L): seq<Record<L>> {
    [Record(a, true, Held([]), false, false, false), Record(a, true, Held([]), true, false, false),
     Record(b, true, Held([]), true, false, false)]
  }

  lemma AtomicBitRun<L>(cmp: (L, L) -> Order, a: L, b: L, junk: seq<bool>, reset: bool)
    requires cmp(a, a) == Same && cmp(a, b) == Parallel && junk == [false, false, false]
    ensures !RunHistory(cmp, AtomicBitAccesses(a, b), junk, reset).raceFound
  {
    hide RunHistory, Scan;
    var acc := AtomicBitAccesses(a, b);
    RunThree(cmp, acc, junk, reset);
    ScanOne(cmp, acc[0], acc[1], RESET, reset);
    ScanOne(cmp, acc[1], acc[2], RESET, reset);
    assert AfterPass(Pass([], false, false), acc[1]) == [acc[1]];
  }

  /** A write is deleted by a later one of a task with a mutexinoutset dependence; another such task races with the
      first only. */
  lemma MutexTaskLosesRace() returns (acc: seq<Record<int>>, junk: seq<bool>)
    ensures |junk| == |acc| && OrderOk(OneBeforeTwo, acc)
    ensures Races(OneBeforeTwo, acc)
    ensures !RunHistory(OneBeforeTwo, acc, junk, true).raceFound
    ensures !FairRun(OneBeforeTwo, acc, junk)
  {
    acc := MutexTaskAccesses(1, 2, 3);
    junk := [false, false, false];
    MutexTaskRace();
    OneBeforeTwoOk(acc);
    hide RunHistory, FairRun, OrderOk, Races, MutexTaskAccesses;
    MutexTaskRun(OneBeforeTwo, 1, 2, 3, junk, true);
    if FairRun(OneBeforeTwo, acc, junk) {
      PruningLosesNothing(OneBeforeTwo, acc, junk);
    }
  }

  function OneBeforeTwo(a: int, b: int): Order {
    if a == b then Same else if a == 1 && b == 2 then Before else Parallel
  }

  lemma OneBeforeTwoOk(acc: seq<Record<int>>)
    ensures OrderOk(OneBeforeTwo, acc)
  {
  }

  function MutexTaskAccesses<L>(a: L, b: L, c: L): seq<Record<L>> {
    [Record(a, true, NoSet, false, false, false), Record(b, true, NoSet, false, false, true),
     Record(c, true, NoSet, false, false, true)]
  }

  lemma MutexTaskRace()
    ensures |MutexTaskAccesses(1, 2, 3)| == 3 && Races(OneBeforeTwo, MutexTaskAccesses(1, 2, 3))
  {
    assert RacePair(OneBeforeTwo, MutexTaskAccesses(1, 2, 3)[0], MutexTaskAccesses(1, 2, 3)[2]);
  }

  lemma MutexTaskRun<L>(cmp: (L, L) -> Order, a: L, b: L, c: L, junk: seq<bool>, reset: bool)
    requires cmp(a, b) == Before && cmp(b, c) == Parallel && junk == [false, false, false]
    ensures !RunHistory(cmp, MutexTaskAccesses(a, b, c), junk, reset).raceFound
  {
    hide RunHistory, Scan;
    var acc := MutexTaskAccesses(a, b, c);
    RunThree(cmp, acc, junk, reset);
    ScanOne(cmp, acc[0], acc[1], RESET, reset);
    ScanOne(cmp, acc[1], acc[2], RESET, reset);
    assert AfterPass(Pass([], false, false), acc[1]) == [acc[1]];
  }

  /** The local `diffIndex` is read before it is set: if it happens to hold the code for equal labels, the second of
      two writes under one lock is not recorded, and its race with an unlocked write is lost. */
  lemma UninitializedLosesRace() returns (acc: seq<Record<int>>, junk: seq<bool>)
    ensures |junk| == |acc| && OrderOk(RootFirst, acc) && FairRun(RootFirst, acc, junk)
    ensures Races(RootFirst, acc)
    ensures !RunHistory(RootFirst, acc, junk, false).raceFound
  {
    acc := JunkAccesses(1, 2);
    junk := [false, true, false];
    hide RunHistory, FairRun, OrderOk;
    UniformRunIsFair(RootFirst, acc, junk);
    RootFirstOk(acc);
    JunkRun(RootFirst, 1, 2);
    assert RacePair(RootFirst, acc[1], acc[2]);
  }

  function JunkAccesses<L>(a: L, b: L): seq<Record<L>> {
    [Record(a, true, Held([5]), false, false, false), Record(b, true, Held([5]), false, false, false),
     Record(a, true, Held([]), false, false, false)]
  }

  lemma JunkRun<L>(cmp: (L, L) -> Order, a: L, b: L)
    requires cmp(a, a) == Same
    ensures !RunHistory(cmp, JunkAccesses(a, b), [false, true, false], false).raceFound
  {
    hide RunHistory, Check;
    var acc := JunkAccesses(a, b);
    RunThree(cmp, acc, [false, true, false], false);
    JunkFirst(cmp, acc[0], acc[1]);
    JunkSecond(cmp, acc[0], acc[2]);
  }

  /** With the local reset it is reported. */
  lemma JunkFreeRun<L>(cmp: (L, L) -> Order, a: L, b: L)
    requires cmp(a, a) == Same && cmp(b, a) == Parallel
    ensures RunHistory(cmp, JunkAccesses(a, b), [false, false, false], false).raceFound
  {
    hide RunHistory, Scan;
    var acc := JunkAccesses(a, b);
    assert 5 in [5];
    RunThree(cmp, acc, [false, false, false], false);
    ScanOne(cmp, acc[0], acc[1], RESET, false);
    assert AfterPass(Pass([acc[0]], false, false), acc[1]) == [acc[0], acc[1]];
    ScanTwo(cmp, acc[0], acc[1], acc[2], RESET);
    ScanOne(cmp, acc[1], acc[2], NewFlags(cmp, acc[0], acc[2], RESET), false);
  }

  lemma JunkFirst<L>(cmp: (L, L) -> Order, p: Record<L>, q: Record<L>)
    requires p == Record(p.lbl, true, Held([5]), false, false, false)
    requires q == Record(q.lbl, true, Held([5]), false, false, false)
    ensures Check(cmp, History([p], false, false), q, false, false, Flags(false, true), false) ==
      History([p], false, false)
  {
    hide Scan;
    assert 5 in [5];
    ScanOne(cmp, p, q, Flags(false, true), false);
  }

  lemma JunkSecond<L>(cmp: (L, L) -> Order, p: Record<L>, x: Record<L>)
    requires p == Record(p.lbl, true, Held([5]), false, false, false)
    requires x == Record(p.lbl, true, Held([]), false, false, false) && cmp(p.lbl, p.lbl) == Same
    ensures !Check(cmp, History([p], false, false), x, false, false, RESET, false).raceFound
  {
    hide Scan;
    ScanOne(cmp, p, x, RESET, false);
  }
}
