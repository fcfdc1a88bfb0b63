/**
 The filter for duplicate accesses: a thread does not check an address again while its label id stays the same.

 With the filter a location gets the race verdict of the full run, except exactly where every race of the full run is
 lost: its two stand-ins come the other way round and the first access is in a reduction, or both stand-ins are atomic.
 */
module ThreadFilter {
  import opened LockSets
  import opened ThreadTables
  import opened AccessHistories
  import opened Pruning

  // ---- the threads' contexts ----

  /** What a record takes from the state of the accessing thread. */
  datatype Context<L> = Context(lbl: L, locks: Locks, inReduction: bool, mutexTask: bool)

  /** Every callback increments the label id of its thread; only callbacks change the thread's context. */
  datatype Event<L> = Callback(thread: nat, context: Context<L>) |
      MemoryAccess(thread: nat, isWrite: bool, hwLock: bool)

  datatype Thread<L> = Thread(labelId: nat, context: Context<L>)

  datatype Tag = Tag(thread: nat, isWrite: bool, labelId: nat)

  datatype Trace<L> = Trace(threads: map<nat, Thread<L>>, tags: seq<Tag>, acc: seq<Record<L>>)

  function ObserveOne<L>(t: Trace<L>, e: Event<L>): Trace<L> {
    match e
    case Callback(th, c) =>
      if th in t.threads then t.(threads := t.threads[th := Thread(t.threads[th].labelId + 1, c)]) else t
    case MemoryAccess(th, w, hw) =>
      if th in t.threads then
        var c := t.threads[th].context;
        t.(tags := t.tags + [Tag(th, w, t.threads[th].labelId)],
           acc := t.acc + [Record(c.lbl, w, c.locks, hw, c.inReduction, c.mutexTask)])
      else t
  }

  /** The accesses of a run, in order, each with the thread and label id it was made under. */
  function Observe<L>(initial: map<nat, Thread<L>>, es: seq<Event<L>>): Trace<L> {
    if |es| == 0 then Trace(initial, [], []) else ObserveOne(Observe(initial, es[..|es| - 1]), es[|es| - 1])
  }

  /** Two records made by one thread under one label id differ at most in kind and atomicity. */
  ghost predicate SameContext<L>(a: Record<L>, b: Record<L>) {
    a.lbl == b.lbl && a.locks == b.locks && a.inReduction == b.inReduction && a.mutexTask == b.mutexTask
  }

  ghost predicate KeysDetermine<L>(tags: seq<Tag>, acc: seq<Record<L>>) {
    && |tags| == |acc|
    && (forall i :: 0 <= i < |acc| ==> acc[i].isWrite == tags[i].isWrite)
    && (forall i, j :: 0 <= i < j < |acc| && tags[i].thread == tags[j].thread && tags[i].labelId == tags[j].labelId ==>
          SameContext(acc[i], acc[j]))
  }

  /** A record made by a thread is older than its label id, or made in its present context. */
  ghost predicate Dated<L>(t: Trace<L>, i: nat)
    requires i < |t.tags| == |t.acc|
  {
    && t.tags[i].thread in t.threads
    && var th := t.threads[t.tags[i].thread];
    || t.tags[i].labelId < th.labelId
    || (&& t.tags[i].labelId == th.labelId
        && SameContext(t.acc[i], Record(th.context.lbl, false, th.context.locks, false, th.context.inReduction,
            th.context.mutexTask)))
  }

  /** The label ids of a thread never go down. */
  ghost predicate LabelIdsRise(tags: seq<Tag>) {
    forall i, j :: 0 <= i < j < |tags| && tags[i].thread == tags[j].thread ==> tags[i].labelId <= tags[j].labelId
  }

  ghost predicate TraceInv<L>(t: Trace<L>) {
    && KeysDetermine(t.tags, t.acc)
    && LabelIdsRise(t.tags)
    && forall i :: 0 <= i < |t.tags| ==> Dated(t, i)
  }

  lemma ObserveOneInv<L>(t: Trace<L>, e: Event<L>)
    requires TraceInv(t)
    ensures TraceInv(ObserveOne(t, e))
  {
    var t' := ObserveOne(t, e);
    var n := |t.tags|;
    forall i | 0 <= i < |t'.tags|
      ensures Dated(t', i)
    {
      if i < n {
        assert Dated(t, i);
      }
    }
    forall i, j | 0 <= i < j < |t'.acc| && t'.tags[i].thread == t'.tags[j].thread
      ensures t'.tags[i].labelId <= t'.tags[j].labelId
      ensures t'.tags[i].labelId == t'.tags[j].labelId ==> SameContext(t'.acc[i], t'.acc[j])
    {
      if j == n {
        assert Dated(t, i);
      }
    }
  }

  /** Because every callback bumps the label id, thread and label id determine the record. */
  lemma {:induction false} ObservedKeysDetermine<L>(initial: map<nat, Thread<L>>, es: seq<Event<L>>)
    ensures KeysDetermine(Observe(initial, es).tags, Observe(initial, es).acc)
    ensures LabelIdsRise(Observe(initial, es).tags)
    ensures TraceInv(Observe(initial, es))
  {
    if |es| > 0 {
      ObservedKeysDetermine(initial, es[..|es| - 1]);
      ObserveOneInv(Observe(initial, es[..|es| - 1]), es[|es| - 1]);
    }
  }

  // ---- the filtered run of one location ----

  /** The threads' tables for this location: thread and kind of access to the last label id entered. */
  type Tables = map<(nat, bool), nat>

  predicate IsDup(tables: Tables, tag: Tag) {
    (tag.thread, tag.isWrite) in tables && tables[(tag.thread, tag.isWrite)] == tag.labelId
  }

  function Enter(tables: Tables, tag: Tag): Tables {
    tables[(tag.thread, tag.isWrite) := tag.labelId]
  }

  datatype Filtered<L> = Filtered(history: History<L>, tables: Tables)

  /** The filter is asked only where the check gets that far. */
  function FilterOne<L>(cmp: (L, L) -> Order, f: Filtered<L>, a: Record<L>, tag: Tag, junk: bool,
      reset: bool): Filtered<L> {
    if f.history.raceFound then f.(history := f.history.(records := []))
    else Filtered(Check(cmp, f.history, a, false, IsDup(f.tables, tag), Flags(false, junk), reset),
        Enter(f.tables, tag))
  }

  function FilterRun<L>(cmp: (L, L) -> Order, acc: seq<Record<L>>, tags: seq<Tag>, junk: seq<bool>,
      reset: bool): Filtered<L>
    requires |junk| == |tags| == |acc|
  {
    if |acc| == 0 then Filtered(History([], false, false), map[])
    else
      var n := |acc| - 1;
      FilterOne(cmp, FilterRun(cmp, acc[..n], tags[..n], junk[..n], reset), acc[n], tags[n], junk[n], reset)
  }

  // ---- the filter on the tables of the threads ----

  type AllTables = map<(nat, bool), map<nat, nat>>

  /** The tables of all threads, by thread and kind of access. */
  ghost function Snapshot(threads: map<nat, ThreadData>): AllTables
    reads threads.Values
  {
    map t, w: bool | t in threads :: (t, w) := threads[t].Table(w)
  }

  /** What they say about one location. */
  ghost function View(all: AllTables, addr: nat): Tables {
    map p | p in all && addr in all[p] :: all[p][addr]
  }

  function EnterAddr(table: map<nat, nat>, addr: nat, id: nat): map<nat, nat> {
    table[addr := id]
  }

  lemma ViewAfter(all: AllTables, t: nat, w: bool, addr: nat, id: nat)
    requires (t, w) in all
    ensures IsDup(View(all, addr), Tag(t, w, id)) <==> InTable(all[(t, w)], addr, id)
    ensures var all' := all[(t, w) := EnterAddr(all[(t, w)], addr, id)];
      && View(all', addr) == Enter(View(all, addr), Tag(t, w, id))
      && forall a: nat :: a != addr ==> View(all', a) == View(all, a)
  {
  }

  /** One check by thread `t`: what it does to the history and to the tables is one step of the filtered run; the other
      locations are left alone. */
  method CheckByThread<L>(h: AccessHistory<L>, threads: map<nat, ThreadData>, t: nat, addr: nat, cmp: (L, L) -> Order,
      cur: Record<L>, uninitialized: bool)
    requires t in threads && forall u, v :: u in threads && v in threads && u != v ==> threads[u] != threads[v]
    requires !h.Value().recycled
    modifies h, threads[t]
    ensures Filtered(h.Value(), View(Snapshot(threads), addr)) ==
      FilterOne(cmp, Filtered(old(h.Value()), View(old(Snapshot(threads)), addr)), cur,
                Tag(t, cur.isWrite, old(threads[t].labelId)), uninitialized, false)
    ensures forall a: nat :: a != addr ==> View(Snapshot(threads), a) == View(old(Snapshot(threads)), a)
  {
    hide Scan, View, IsDup, Enter, InTable;
    ghost var w, id, all := cur.isWrite, threads[t].labelId, Snapshot(threads);
    ghost var asks := Asks(h.Value(), false);
    ViewAfter(all, t, w, addr, id);
    h.CheckDataRace(cmp, cur, false, threads[t], addr, uninitialized);
    assert Snapshot(threads) == if asks then all[(t, w) := EnterAddr(all[(t, w)], addr, id)] else all;
  }

  // ---- the accesses that pass the filter ----

  function TablesAfter(tags: seq<Tag>): Tables {
    if |tags| == 0 then map[] else Enter(TablesAfter(tags[..|tags| - 1]), tags[|tags| - 1])
  }

  /** The indices of the accesses that pass. */
  function Passing(tags: seq<Tag>): (ix: seq<nat>)
    ensures forall k :: 0 <= k < |ix| ==> ix[k] < |tags|
    ensures forall k, m :: 0 <= k < m < |ix| ==> ix[k] < ix[m]
  {
    if |tags| == 0 then []
    else
      var n := |tags| - 1;
      Passing(tags[..n]) + if IsDup(TablesAfter(tags[..n]), tags[n]) then [] else [n]
  }

  function Select<T>(s: seq<T>, ix: seq<nat>): (r: seq<T>)
    requires forall k :: 0 <= k < |ix| ==> ix[k] < |s|
    ensures |r| == |ix| && forall k :: 0 <= k < |ix| ==> r[k] == s[ix[k]]
  {
    seq(|ix|, k requires 0 <= k < |ix| => s[ix[k]])
  }

  lemma RunAppend<L>(cmp: (L, L) -> Order, acc: seq<Record<L>>, junk: seq<bool>, a: Record<L>, j: bool, reset: bool)
    requires |junk| == |acc|
    ensures RunHistory(cmp, acc + [a], junk + [j], reset) ==
      Check(cmp, RunHistory(cmp, acc, junk, reset), a, false, false, Flags(false, j), reset)
  {
    assert (acc + [a])[..|acc|] == acc && (junk + [j])[..|acc|] == junk;
  }

  lemma SelectLast<T>(s: seq<T>, tags: seq<Tag>)
    requires |s| == |tags| > 0
    ensures var n := |s| - 1;
      && IsDup(TablesAfter(tags[..n]), tags[n]) ==> Select(s, Passing(tags)) == Select(s[..n], Passing(tags[..n]))
    ensures var n := |s| - 1;
      && !IsDup(TablesAfter(tags[..n]), tags[n]) ==>
          Select(s, Passing(tags)) == Select(s[..n], Passing(tags[..n])) + [s[n]]
  {
  }

  /** The filtered run is in step with an unfiltered one. */
  ghost predicate InStep<L>(f: Filtered<L>, h: History<L>, tables: Tables) {
    && f.history.raceFound == h.raceFound
    && !h.recycled
    && (!h.raceFound ==> f.history == h && f.tables == tables)
  }

  lemma StaysInStep<L>(cmp: (L, L) -> Order, f: Filtered<L>, h: History<L>, tables: Tables, a: Record<L>, tag: Tag,
      junk: bool, reset: bool)
    requires InStep(f, h, tables)
    ensures InStep(FilterOne(cmp, f, a, tag, junk, reset),
                   if IsDup(tables, tag) then h else Check(cmp, h, a, false, false, Flags(false, junk), reset),
                   Enter(tables, tag))
  {
  }

  /** One more access on both sides. */
  lemma {:induction false} SelectionStep<L>(cmp: (L, L) -> Order, acc: seq<Record<L>>, tags: seq<Tag>,
      junk: seq<bool>, reset: bool)
    requires |junk| == |tags| == |acc| > 0
    requires var n := |acc| - 1;
      InStep(FilterRun(cmp, acc[..n], tags[..n], junk[..n], reset),
             RunHistory(cmp, Select(acc[..n], Passing(tags[..n])), Select(junk[..n], Passing(tags[..n])), reset),
             TablesAfter(tags[..n]))
    ensures InStep(FilterRun(cmp, acc, tags, junk, reset),
                   RunHistory(cmp, Select(acc, Passing(tags)), Select(junk, Passing(tags)), reset), TablesAfter(tags))
  {
    hide RunHistory, Select, Passing, FilterOne, InStep, Check;
    var n := |acc| - 1;
    var before, jb := Select(acc[..n], Passing(tags[..n])), Select(junk[..n], Passing(tags[..n]));
    SelectLast(acc, tags);
    SelectLast(junk, tags);
    RunAppend(cmp, before, jb, acc[n], junk[n], reset);
    StaysInStep(cmp, FilterRun(cmp, acc[..n], tags[..n], junk[..n], reset), RunHistory(cmp, before, jb, reset),
                TablesAfter(tags[..n]), acc[n], tags[n], junk[n], reset);
  }

  /** Until a race is found the filtered run is the unfiltered run of the passing accesses. */
  lemma {:induction false} FilterIsSelection<L>(cmp: (L, L) -> Order, acc: seq<Record<L>>, tags: seq<Tag>,
      junk: seq<bool>, reset: bool)
    requires |junk| == |tags| == |acc|
    ensures InStep(FilterRun(cmp, acc, tags, junk, reset),
                   RunHistory(cmp, Select(acc, Passing(tags)), Select(junk, Passing(tags)), reset), TablesAfter(tags))
  {
    if |acc| > 0 {
      hide RunHistory, Select, FilterOne, InStep, FilterRun, TablesAfter;
      var n := |acc| - 1;
      FilterIsSelection(cmp, acc[..n], tags[..n], junk[..n], reset);
      SelectionStep(cmp, acc, tags, junk, reset);
    }
  }

  /** Every access has a passing one at or before it, by the same thread, of the same kind, under the same label id. */
  lemma {:induction false} Representative(tags: seq<Tag>, i: nat) returns (r: nat)
    requires i < |tags|
    ensures r <= i && r in Passing(tags) && tags[r] == tags[i]
  {
    var n := |tags| - 1;
    if i < n {
      r := Representative(tags[..n], i);
    } else if IsDup(TablesAfter(tags[..n]), tags[n]) {
      r := TableEntry(tags[..n], tags[n]);
    } else {
      r := n;
      assert Passing(tags)[|Passing(tags[..n])|] == n;
    }
  }

  lemma {:induction false} TableEntry(tags: seq<Tag>, tag: Tag) returns (r: nat)
    requires IsDup(TablesAfter(tags), tag)
    ensures r < |tags| && r in Passing(tags) && tags[r] == tag
  {
    var n := |tags| - 1;
    if tags[n] == tag && !IsDup(TablesAfter(tags[..n]), tags[n]) {
      r := n;
      assert Passing(tags)[|Passing(tags[..n])|] == n;
    } else {
      r := TableEntry(tags[..n], tag);
    }
  }

  /** The access passes: its tag is not in the tables. */
  predicate Passes(tags: seq<Tag>, k: nat)
    requires k < |tags|
  {
    !IsDup(TablesAfter(tags[..k]), tags[k])
  }

  lemma {:induction false} PassingExactly(tags: seq<Tag>, k: nat)
    requires k < |tags|
    ensures k in Passing(tags) <==> Passes(tags, k)
  {
    var n := |tags| - 1;
    if k < n {
      PassingExactly(tags[..n], k);
      assert tags[..n][..k] == tags[..k];
    } else {
      assert Passes(tags, n) ==> Passing(tags)[|Passing(tags[..n])|] == n;
    }
  }

  function RepFrom(tags: seq<Tag>, tag: Tag, k: nat): (r: nat)
    requires k < |tags|
    ensures r <= k
    ensures forall p :: r < p <= k ==> !(Passes(tags, p) && tags[p] == tag)
    ensures r > 0 ==> Passes(tags, r) && tags[r] == tag
  {
    if (Passes(tags, k) && tags[k] == tag) || k == 0 then k else RepFrom(tags, tag, k - 1)
  }

  /** The passing access that stands for access `i`: the last one up to `i` with the same tag. */
  function Rep(tags: seq<Tag>, i: nat): (r: nat)
    requires i < |tags|
    ensures r <= i
  {
    RepFrom(tags, tags[i], i)
  }

  lemma {:induction false} RepIsStandIn(tags: seq<Tag>, i: nat)
    requires i < |tags|
    ensures tags[Rep(tags, i)] == tags[i] && Passes(tags, Rep(tags, i))
    ensures Rep(tags, i) in Passing(tags)
    ensures Passes(tags, i) ==> Rep(tags, i) == i
  {
    var r := Representative(tags, i);
    PassingExactly(tags, r);
    PassingExactly(tags, Rep(tags, i));
  }

  /** With label ids that never go down, it is the first access with the same tag. */
  lemma {:induction false} RepIsFirst(tags: seq<Tag>, i: nat, k: nat)
    requires LabelIdsRise(tags) && i < |tags| && k < |tags| && tags[k] == tags[i]
    ensures Rep(tags, i) <= k
  {
    RepIsStandIn(tags, i);
    if k < Rep(tags, i) {
      EntryStays(tags, k, Rep(tags, i), Rep(tags, i));
    }
  }

  lemma {:induction false} EntryStays(tags: seq<Tag>, k: nat, n: nat, r: nat)
    requires LabelIdsRise(tags) && k < n <= r < |tags| && tags[r] == tags[k]
    ensures IsDup(TablesAfter(tags[..n]), tags[k])
    decreases n
  {
    assert tags[..n][..n - 1] == tags[..n - 1];
    if n > k + 1 {
      EntryStays(tags, k, n - 1, r);
    }
  }

  // ---- what the filter loses ----

  /** An access cannot come strictly between two accesses of one thread under one label id. */
  ghost predicate UninterruptedContext<L>(cmp: (L, L) -> Order, acc: seq<Record<L>>, tags: seq<Tag>)
    requires |tags| == |acc|
  {
    forall p, q, r ::
      (0 <= p < q < r < |acc| && tags[p].thread == tags[r].thread && tags[p].labelId == tags[r].labelId &&
          HB(cmp, acc[p], acc[q]))
      ==> HB(cmp, acc[q], acc[r])
  }

  ghost predicate SelfSame<L>(cmp: (L, L) -> Order, acc: seq<Record<L>>) {
    forall i :: 0 <= i < |acc| ==> cmp(acc[i].lbl, acc[i].lbl) == Same
  }

  lemma {:induction false} SelectionOrderOk<L>(cmp: (L, L) -> Order, acc: seq<Record<L>>, ix: seq<nat>)
    requires forall k :: 0 <= k < |ix| ==> ix[k] < |acc|
    requires forall k, m :: 0 <= k < m < |ix| ==> ix[k] < ix[m]
    requires OrderOk(cmp, acc)
    ensures OrderOk(cmp, Select(acc, ix))
  {
  }

  /** The filter loses the race of `i` and `j`: the accesses that stand for them come the other way round, and the one
      that is then judged as the current access is in a reduction; or the two that stand for them are both atomic. */
  predicate Lost<L>(acc: seq<Record<L>>, tags: seq<Tag>, i: nat, j: nat)
    requires |tags| == |acc| && i < |acc| && j < |acc|
  {
    || (acc[i].inReduction && Rep(tags, j) < Rep(tags, i))
    || (Atomic(acc[Rep(tags, i)]) && Atomic(acc[Rep(tags, j)]))
  }

  /** Some race of the full run is not lost. */
  ghost predicate RaceKept<L>(cmp: (L, L) -> Order, acc: seq<Record<L>>, tags: seq<Tag>)
    requires |tags| == |acc|
  {
    exists i, j :: 0 <= i < j < |acc| && RacePair(cmp, acc[i], acc[j]) && !Lost(acc, tags, i, j)
  }

  lemma {:induction false} StandInsStayParallel<L>(cmp: (L, L) -> Order, acc: seq<Record<L>>, tags: seq<Tag>, i: nat,
      j: nat, r: nat, s: nat)
    requires |tags| == |acc| && OrderOk(cmp, acc) && UninterruptedContext(cmp, acc, tags) && SelfSame(cmp, acc)
    requires i < j < |acc| && cmp(acc[i].lbl, acc[j].lbl) == Parallel
    requires r <= i && acc[r].lbl == acc[i].lbl
    requires s <= j && tags[s] == tags[j] && acc[s].lbl == acc[j].lbl
    ensures r != s
    ensures s < r ==> cmp(acc[s].lbl, acc[r].lbl) == Parallel
  {
    assert cmp(acc[i].lbl, acc[i].lbl) == Same;
    if s < r {
      assert !HB(cmp, acc[r], acc[j]);
      assert !HB(cmp, acc[s], acc[r]);
    }
  }

  lemma {:induction false} StandInRecord<L>(acc: seq<Record<L>>, tags: seq<Tag>, i: nat) returns (k: nat)
    requires i < |acc| && KeysDetermine(tags, acc)
    ensures k < |Passing(tags)| && Passing(tags)[k] == Rep(tags, i)
    ensures var a := acc[Rep(tags, i)];
      tags[Rep(tags, i)] == tags[i] && a.isWrite == acc[i].isWrite && SameContext(a, acc[i])
  {
    RepIsStandIn(tags, i);
    k :| k < |Passing(tags)| && Passing(tags)[k] == Rep(tags, i);
  }

  /** A race of the full run that is not lost is a race of the accesses that pass. */
  lemma RaceAt<L>(cmp: (L, L) -> Order, acc: seq<Record<L>>, i: nat, j: nat)
    requires i < j < |acc| && RacePair(cmp, acc[i], acc[j])
    ensures Races(cmp, acc)
  {
    hide RacePair;
  }

  lemma {:induction false} StandInsRace<L>(cmp: (L, L) -> Order, acc: seq<Record<L>>, tags: seq<Tag>, i: nat, j: nat)
    requires |tags| == |acc| && OrderOk(cmp, acc)
    requires KeysDetermine(tags, acc) && UninterruptedContext(cmp, acc, tags) && SelfSame(cmp, acc)
    requires i < j < |acc| && RacePair(cmp, acc[i], acc[j]) && !Lost(acc, tags, i, j)
    ensures var r, s := Rep(tags, i), Rep(tags, j);
      if r < s then RacePair(cmp, acc[r], acc[s]) else s < r && RacePair(cmp, acc[s], acc[r])
  {
    var k := StandInRecord(acc, tags, i);
    var m := StandInRecord(acc, tags, j);
    var r, s := Rep(tags, i), Rep(tags, j);
    StandInsStayParallel(cmp, acc, tags, i, j, r, s);
    hide OrderOk, UninterruptedContext, SelfSame, KeysDetermine, Passing, Atomic, SameContext, RacePair;
    if r < s {
      SameRace(cmp, acc[i], acc[j], acc[r], acc[s]);
    } else {
      Swapped(cmp, acc[i], acc[j], acc[r], acc[s]);
    }
  }

  lemma {:induction false} RaceSurvives<L>(cmp: (L, L) -> Order, acc: seq<Record<L>>, tags: seq<Tag>, i: nat, j: nat)
    requires |tags| == |acc| && OrderOk(cmp, acc)
    requires KeysDetermine(tags, acc) && UninterruptedContext(cmp, acc, tags) && SelfSame(cmp, acc)
    requires i < j < |acc| && RacePair(cmp, acc[i], acc[j]) && !Lost(acc, tags, i, j)
    ensures Races(cmp, Select(acc, Passing(tags)))
  {
    hide OrderOk, UninterruptedContext, SelfSame, KeysDetermine, Passing, Select, SameContext, RacePair, Lost, Rep,
        Races;
    StandInsRace(cmp, acc, tags, i, j);
    var k := StandInRecord(acc, tags, i);
    var m := StandInRecord(acc, tags, j);
    var ix, sel := Passing(tags), Select(acc, Passing(tags));
    assert sel[k] == acc[ix[k]] && sel[m] == acc[ix[m]];
    if ix[k] < ix[m] {
      assert k < m;
      RaceAt(cmp, sel, k, m);
    } else {
      assert m < k;
      RaceAt(cmp, sel, m, k);
    }
  }

  lemma SameRace<L>(cmp: (L, L) -> Order, a: Record<L>, b: Record<L>, a': Record<L>, b': Record<L>)
    requires SameContext(a', a) && SameContext(b', b) && a.isWrite == a'.isWrite && b.isWrite == b'.isWrite
    requires RacePair(cmp, a, b) && !(Atomic(a') && Atomic(b'))
    ensures RacePair(cmp, a', b')
  {
  }

  lemma Swapped<L>(cmp: (L, L) -> Order, a: Record<L>, b: Record<L>, a': Record<L>, b': Record<L>)
    requires SameContext(a', a) && SameContext(b', b) && a.isWrite == a'.isWrite && b.isWrite == b'.isWrite
    requires RacePair(cmp, a, b) && !(Atomic(a') && Atomic(b')) && !a.inReduction
    requires cmp(b'.lbl, a'.lbl) == Parallel
    ensures RacePair(cmp, b', a')
  {
    CommonSym(LocksOf(b'.locks), LocksOf(a'.locks));
  }

  lemma CommonSym(s: seq<Lock>, t: seq<Lock>)
    ensures Common(s, t) <==> Common(t, s)
  {
  }

  lemma {:induction false} PassingRaceIsKept<L>(cmp: (L, L) -> Order, acc: seq<Record<L>>, tags: seq<Tag>)
    requires |tags| == |acc| && Races(cmp, Select(acc, Passing(tags)))
    ensures RaceKept(cmp, acc, tags)
  {
    hide Passing, Rep, Passes;
    var ix := Passing(tags);
    var k, m :| 0 <= k < m < |ix| && RacePair(cmp, Select(acc, ix)[k], Select(acc, ix)[m]);
    var i, j := ix[k], ix[m];
    PassingExactly(tags, i);
    PassingExactly(tags, j);
    RepIsStandIn(tags, i);
    RepIsStandIn(tags, j);
    assert RacePair(cmp, acc[i], acc[j]) && !Lost(acc, tags, i, j);
  }

  /** The accesses that pass have a race exactly if some race of the full run is not lost. */
  lemma {:induction false} SelectionRacesExactly<L>(cmp: (L, L) -> Order, acc: seq<Record<L>>, tags: seq<Tag>)
    requires |tags| == |acc| && OrderOk(cmp, acc)
    requires KeysDetermine(tags, acc) && UninterruptedContext(cmp, acc, tags) && SelfSame(cmp, acc)
    ensures Races(cmp, Select(acc, Passing(tags))) <==> RaceKept(cmp, acc, tags)
  {
    if RaceKept(cmp, acc, tags) {
      var i, j :| 0 <= i < j < |acc| && RacePair(cmp, acc[i], acc[j]) && !Lost(acc, tags, i, j);
      RaceSurvives(cmp, acc, tags, i, j);
    }
    if Races(cmp, Select(acc, Passing(tags))) {
      PassingRaceIsKept(cmp, acc, tags);
    }
  }

  /** With the filter in front, the race flag is set exactly if some race of the full run is not lost. */
  lemma {:induction false} FilterIsExact<L>(cmp: (L, L) -> Order, acc: seq<Record<L>>, tags: seq<Tag>,
      junk: seq<bool>, reset: bool)
    requires |junk| == |tags| == |acc| && OrderOk(cmp, acc)
    requires KeysDetermine(tags, acc) && UninterruptedContext(cmp, acc, tags) && SelfSame(cmp, acc)
    requires FairRun(cmp, Select(acc, Passing(tags)), Select(junk, Passing(tags)))
    requires reset || UnstaleRun(cmp, Select(acc, Passing(tags)), Select(junk, Passing(tags)))
    ensures FilterRun(cmp, acc, tags, junk, reset).history.raceFound <==> RaceKept(cmp, acc, tags)
  {
    hide RunHistory, OrderOk, FairRun, RacePair, FilterRun, RaceKept, Races;
    var ix := Passing(tags);
    var sel, sj := Select(acc, ix), Select(junk, ix);
    FilterIsSelection(cmp, acc, tags, junk, reset);
    SelectionOrderOk(cmp, acc, ix);
    if reset {
      PruningLosesNothing(cmp, sel, sj);
    } else {
      CodedPruningLosesNothing(cmp, sel, sj);
    }
    SelectionRacesExactly(cmp, acc, tags);
  }

  lemma KeptIsRace<L>(cmp: (L, L) -> Order, acc: seq<Record<L>>, tags: seq<Tag>)
    requires |tags| == |acc|
    ensures RaceKept(cmp, acc, tags) ==> Races(cmp, acc)
  {
    hide RacePair, Lost;
  }

  /** The filter leaves the verdict as it is exactly if the full run has no race, or one that is not lost. */
  lemma {:induction false} FilterIsTransparentExactly<L>(cmp: (L, L) -> Order, acc: seq<Record<L>>, tags: seq<Tag>,
      junk: seq<bool>, reset: bool)
    requires |junk| == |tags| == |acc| && OrderOk(cmp, acc)
    requires KeysDetermine(tags, acc) && UninterruptedContext(cmp, acc, tags) && SelfSame(cmp, acc)
    requires FairRun(cmp, acc, junk) && FairRun(cmp, Select(acc, Passing(tags)), Select(junk, Passing(tags)))
    requires reset || UnstaleRun(cmp, acc, junk)
    requires reset || UnstaleRun(cmp, Select(acc, Passing(tags)), Select(junk, Passing(tags)))
    ensures FilterRun(cmp, acc, tags, junk, reset).history.raceFound == RunHistory(cmp, acc, junk, reset).raceFound
      <==> (Races(cmp, acc) ==> RaceKept(cmp, acc, tags))
  {
    hide RunHistory, OrderOk, FairRun, FilterRun, Races, RaceKept, UnstaleRun, KeysDetermine, UninterruptedContext;
    hide SelfSame;
    KeptIsRace(cmp, acc, tags);
    FilterIsExact(cmp, acc, tags, junk, reset);
    if reset {
      PruningLosesNothing(cmp, acc, junk);
    } else {
      CodedPruningLosesNothing(cmp, acc, junk);
    }
  }

  predicate NoReduction<L>(acc: seq<Record<L>>) {
    forall i :: 0 <= i < |acc| ==> !acc[i].inReduction
  }

  /** Each access is atomic exactly if the one that stands for it is. */
  predicate AtomicAsStandIn<L>(acc: seq<Record<L>>, tags: seq<Tag>)
    requires |tags| == |acc|
  {
    forall i :: 0 <= i < |acc| ==> (Atomic(acc[i]) <==> Atomic(acc[Rep(tags, i)]))
  }

  /** Without reductions, and with duplicates that agree on being atomic, no race is lost. */
  lemma {:induction false} NothingLost<L>(cmp: (L, L) -> Order, acc: seq<Record<L>>, tags: seq<Tag>)
    requires |tags| == |acc| && NoReduction(acc) && AtomicAsStandIn(acc, tags)
    ensures Races(cmp, acc) <==> RaceKept(cmp, acc, tags)
  {
    hide Rep;
    if Races(cmp, acc) {
      var i, j :| 0 <= i < j < |acc| && RacePair(cmp, acc[i], acc[j]);
      assert !Lost(acc, tags, i, j);
    }
    if RaceKept(cmp, acc, tags) {
      var i, j :| 0 <= i < j < |acc| && RacePair(cmp, acc[i], acc[j]) && !Lost(acc, tags, i, j);
    }
  }

  lemma {:induction false} UniformIsAsStandIn<L>(acc: seq<Record<L>>, tags: seq<Tag>)
    requires |tags| == |acc| && Uniform(acc)
    ensures AtomicAsStandIn(acc, tags) && Uniform(Select(acc, Passing(tags)))
  {
  }

  /** What the examples below have in common. */
  ghost predicate FilterInput(acc: seq<Record<int>>, tags: seq<Tag>) {
    && |tags| == |acc|
    && OrderOk(RootFirst, acc) && SelfSame(RootFirst, acc)
    && KeysDetermine(tags, acc) && UninterruptedContext(RootFirst, acc, tags) && LabelIdsRise(tags)
  }

  lemma {:induction false} RootFirstInput(acc: seq<Record<int>>, tags: seq<Tag>)
    requires |tags| == |acc| && forall i :: 0 <= i < |acc| ==> acc[i].lbl != 0
    requires forall i, j ::
      (0 <= i < j < |acc| && tags[i].thread == tags[j].thread && tags[i].labelId == tags[j].labelId) ==>
      acc[i].lbl == acc[j].lbl
    ensures SelfSame(RootFirst, acc) && UninterruptedContext(RootFirst, acc, tags)
  {
  }

  /** With a reduction the filter may lose a race: the reducing write is not judged as the current access, and the
      duplicate that would be judged against it is filtered out. */
  lemma FilterLosesReductionRace() returns (acc: seq<Record<int>>, tags: seq<Tag>, junk: seq<bool>)
    ensures FilterInput(acc, tags) && |junk| == |acc| && Uniform(acc)
    ensures RunHistory(RootFirst, acc, junk, true).raceFound
    ensures !FilterRun(RootFirst, acc, tags, junk, true).history.raceFound
  {
    acc := ReductionAccesses(1, 2);
    tags := [Tag(0, true, 3), Tag(1, true, 5), Tag(0, true, 3)];
    junk := [false, false, false];
    ReductionInput();
    ReductionRace();
    hide RunHistory, OrderOk, FairRun, FilterRun, FilterInput, ReductionAccesses, Uniform, Races;
    UniformRunIsFair(RootFirst, acc, junk);
    RootFirstOk(acc);
    PruningLosesNothing(RootFirst, acc, junk);
    ReductionFiltered(RootFirst, 1, 2, 3, 5, true);
  }

  lemma ReductionInput()
    ensures FilterInput(ReductionAccesses(1, 2), [Tag(0, true, 3), Tag(1, true, 5), Tag(0, true, 3)])
  {
    hide OrderOk, UninterruptedContext, SelfSame;
    RootFirstOk(ReductionAccesses(1, 2));
    RootFirstInput(ReductionAccesses(1, 2), [Tag(0, true, 3), Tag(1, true, 5), Tag(0, true, 3)]);
  }

  lemma ReductionRace()
    ensures |ReductionAccesses(1, 2)| == 3 && Uniform(ReductionAccesses(1, 2))
    ensures Races(RootFirst, ReductionAccesses(1, 2))
  {
    RaceAt(RootFirst, ReductionAccesses(1, 2), 1, 2);
  }

  function ReductionAccesses<L>(a: L, b: L): seq<Record<L>> {
    [Record(a, true, NoSet, false, false, false), Record(b, true, NoSet, false, true, false),
     Record(a, true, NoSet, false, false, false)]
  }

  lemma ReductionFiltered<L>(cmp: (L, L) -> Order, a: L, b: L, m: nat, n: nat, reset: bool)
    ensures !FilterRun(cmp, ReductionAccesses(a, b), [Tag(0, true, m), Tag(1, true, n), Tag(0, true, m)],
      [false, false, false], reset).history.raceFound
  {
    hide FilterRun, Scan;
    var acc := ReductionAccesses(a, b);
    FilterThree(cmp, acc, [Tag(0, true, m), Tag(1, true, n), Tag(0, true, m)], [false, false, false], reset);
    ScanOne(cmp, acc[0], acc[1], RESET, reset);
  }

  /** Unfiltered, and with the flags as coded, the third access is judged against the second. */
  lemma ReductionUnfiltered<L>(cmp: (L, L) -> Order, a: L, b: L)
    requires cmp(a, a) == Same && cmp(b, a) == Parallel
    ensures RunHistory(cmp, ReductionAccesses(a, b), [false, false, false], false).raceFound
  {
    hide RunHistory, Scan;
    var acc := ReductionAccesses(a, b);
    RunThree(cmp, acc, [false, false, false], false);
    ScanOne(cmp, acc[0], acc[1], RESET, false);
    assert AfterPass(Pass([acc[0]], false, false), acc[1]) == [acc[0], acc[1]];
    ScanTwo(cmp, acc[0], acc[1], acc[2], RESET);
    ScanOne(cmp, acc[1], acc[2], NewFlags(cmp, acc[0], acc[2], RESET), false);
  }

  /** Without any reduction it may lose one, too: a plain write is a duplicate of an atomic one, and only the plain one
      races with the atomic write of another thread. */
  lemma FilterLosesAtomicRace() returns (acc: seq<Record<int>>, tags: seq<Tag>, junk: seq<bool>)
    ensures FilterInput(acc, tags) && |junk| == |acc| && NoReduction(acc)
    ensures RunHistory(RootFirst, acc, junk, true).raceFound
    ensures !FilterRun(RootFirst, acc, tags, junk, true).history.raceFound
  {
    acc := AtomicAccesses(1, 2);
    tags := [Tag(0, true, 3), Tag(0, true, 3), Tag(1, true, 5)];
    junk := [false, false, false];
    AtomicInput();
    hide RunHistory, FilterRun, FilterInput, AtomicAccesses, NoReduction;
    AtomicUnfiltered(RootFirst, 1, 2, true);
    AtomicFiltered(RootFirst, 1, 2, 3, 5, true);
  }

  lemma AtomicInput()
    ensures |AtomicAccesses(1, 2)| == 3 && NoReduction(AtomicAccesses(1, 2))
    ensures FilterInput(AtomicAccesses(1, 2), [Tag(0, true, 3), Tag(0, true, 3), Tag(1, true, 5)])
  {
    hide OrderOk, UninterruptedContext, SelfSame;
    RootFirstOk(AtomicAccesses(1, 2));
    RootFirstInput(AtomicAccesses(1, 2), [Tag(0, true, 3), Tag(0, true, 3), Tag(1, true, 5)]);
  }

  function AtomicAccesses<L>(a: L, b: L): seq<Record<L>> {
    [Record(a, true, Held([]), true, false, false), Record(a, true, Held([]), false, false, false),
     Record(b, true, Held([]), true, false, false)]
  }

  lemma AtomicFiltered<L>(cmp: (L, L) -> Order, a: L, b: L, m: nat, n: nat, reset: bool)
    ensures !FilterRun(cmp, AtomicAccesses(a, b), [Tag(0, true, m), Tag(0, true, m), Tag(1, true, n)],
      [false, false, false], reset).history.raceFound
  {
    hide FilterRun, Scan;
    var acc := AtomicAccesses(a, b);
    FilterThree(cmp, acc, [Tag(0, true, m), Tag(0, true, m), Tag(1, true, n)], [false, false, false], reset);
    ScanOne(cmp, acc[0], acc[2], RESET, reset);
  }

  lemma AtomicUnfiltered<L>(cmp: (L, L) -> Order, a: L, b: L, reset: bool)
    requires cmp(a, a) == Same && cmp(a, b) == Parallel
    ensures RunHistory(cmp, AtomicAccesses(a, b), [false, false, false], reset).raceFound
  {
    hide RunHistory, Scan;
    var acc := AtomicAccesses(a, b);
    RunThree(cmp, acc, [false, false, false], reset);
    ScanOne(cmp, acc[0], acc[1], RESET, reset);
    assert AfterPass(Pass([], false, false), acc[1]) == [acc[1]];
    ScanOne(cmp, acc[1], acc[2], RESET, reset);
  }

  /** Where no access has the tag of an earlier one, the filter does nothing. */
  lemma {:induction false} NothingFiltered<L>(cmp: (L, L) -> Order, acc: seq<Record<L>>, tags: seq<Tag>,
      junk: seq<bool>, reset: bool)
    requires |junk| == |tags| == |acc| && forall i, j :: 0 <= i < j < |tags| ==> tags[i] != tags[j]
    ensures FilterRun(cmp, acc, tags, junk, reset).history.raceFound == RunHistory(cmp, acc, junk, reset).raceFound
  {
    FilterIsSelection(cmp, acc, tags, junk, reset);
    AllPass(acc, tags);
    AllPass(junk, tags);
    hide FilterRun, RunHistory, Select, Passing;
  }

  lemma {:induction false} AllPass<T>(s: seq<T>, tags: seq<Tag>)
    requires |s| == |tags| && forall i, j :: 0 <= i < j < |tags| ==> tags[i] != tags[j]
    ensures Select(s, Passing(tags)) == s
  {
    if |tags| > 0 {
      var n := |tags| - 1;
      AllPass(s[..n], tags[..n]);
      NeverEntered(tags[..n], tags[n]);
      SelectLast(s, tags);
      assert s[..n] + [s[n]] == s;
    }
  }

  lemma {:induction false} NeverEntered(tags: seq<Tag>, tag: Tag)
    requires forall i :: 0 <= i < |tags| ==> tags[i] != tag
    ensures !IsDup(TablesAfter(tags), tag)
  {
    if |tags| > 0 {
      NeverEntered(tags[..|tags| - 1], tag);
    }
  }

  lemma FilterThree<L>(cmp: (L, L) -> Order, acc: seq<Record<L>>, tags: seq<Tag>, junk: seq<bool>, reset: bool)
    requires |junk| == |tags| == |acc| == 3
    ensures var f0 := Filtered(History<L>.History([], false, false), map[]);
      var f1 := FilterOne(cmp, f0, acc[0], tags[0], junk[0], reset);
      var f2 := FilterOne(cmp, f1, acc[1], tags[1], junk[1], reset);
      FilterRun(cmp, acc, tags, junk, reset) == FilterOne(cmp, f2, acc[2], tags[2], junk[2], reset)
  {
    hide FilterOne;
    assert acc[..2][..1] == acc[..1] && tags[..2][..1] == tags[..1] && junk[..2][..1] == junk[..1];
    assert acc[..1][..0] == [] && tags[..1][..0] == [] && junk[..1][..0] == [];
    assert FilterRun(cmp, acc[..1], tags[..1], junk[..1], reset) == FilterOne(cmp, FilterRun(cmp, [], [], [], reset),
        acc[0], tags[0], junk[0], reset);
    assert FilterRun(cmp, acc[..2], tags[..2], junk[..2], reset) == FilterOne(cmp, FilterRun(cmp, acc[..1],
        tags[..1], junk[..1], reset), acc[1], tags[1], junk[1], reset);
  }
}
