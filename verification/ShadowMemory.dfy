/**
 Concurrent installation of shadow pages, as a state machine: one step is one atomic operation of one thread on the
 page table, or one use of the thread's own spare-page cache; any number of threads, in any interleaving, over
 sequentially consistent memory.
 */
module ShadowMemory {
  import opened Bits
  import opened ShadowAddress

  datatype Ptr = Null | At(id: nat)

  /** What a thread is about to do once it has read the first-level entry again. */
  datatype Goal = ToLook | ToSwap | ToFetch

  /** Where a thread is inside `_getOrCreatePageForMemAddr`. */
  datatype Pc = Idle | Look1 | Get1 | Cas1 | Save1 | Open(goal: Goal) | Look2 | Get2 | Cas2 | Save2 | Fetch

  /** The locals of the call, and the two thread-local caches. `spare` is the page obtained but not yet installed. */
  datatype Thread = Thread(
    pc: Pc, address: nat, l1Index: nat, l2Index: nat, l1Page: nat, spare: nat, cachedL1: Ptr, cachedShadow: Ptr)

  /** A call that has returned: the thread, the address it asked for and the page it got. */
  datatype Answer = Answer(thread: nat, address: nat, page: Ptr)

  /** Where a page can be held: the first-level table, an entry of a first-level page, a thread that has obtained it
      and not yet installed it, or a thread's cache. */
  datatype Place = Root(index: nat) | Entry(l1Page: nat, index: nat) | Flight(thread: nat) | Cache(thread: nat)

  /** `answers` and the two owner maps are the history the proof speaks about; no step reads them. `dropped` counts the
      pages given up by the error branches of the save functions. */
  datatype State = State(
    geometry: Geometry,
    table: seq<Ptr>,
    l1Pages: seq<seq<Ptr>>,
    shadowPages: seq<seq<int>>,
    threads: seq<Thread>,
    dropped: nat,
    answers: seq<Answer>,
    l1Owner: seq<Place>,
    shadowOwner: seq<Place>)

  /** A call, one step of a running call, or a write by the tool to the slot a call has returned. */
  datatype Action = Call(thread: nat, address: nat) | Step(thread: nat) | Write(answer: nat, value: int)

  function Lookup(st: State, i: nat, j: nat): Ptr {
    if i < |st.table| && st.table[i].At? && st.table[i].id < |st.l1Pages| && j < |st.l1Pages[st.table[i].id]|
    then st.l1Pages[st.table[i].id][j] else Null
  }

  /** No index is out of bounds and no null pointer is followed. */
  predicate Safe(st: State, t: nat)
    requires t < |st.threads|
  {
    var th := st.threads[t];
    && (th.pc.Look1? || th.pc.Cas1? ==> th.l1Index < |st.table|)
    && (th.pc.Open? ==> th.l1Index < |st.table| && st.table[th.l1Index].At?)
    && (th.pc.Look2? || th.pc.Cas2? || th.pc.Fetch? ==>
        th.l1Page < |st.l1Pages| && th.l2Index < |st.l1Pages[th.l1Page]|)
    && (th.pc.Cas1? || th.pc.Save1? ==> th.spare < |st.l1Owner|)
    && (th.pc.Cas2? || th.pc.Save2? ==> th.spare < |st.shadowOwner|)
    && (th.pc.Get1? && th.cachedL1.At? ==> th.cachedL1.id < |st.l1Owner|)
    && (th.pc.Get2? && th.cachedShadow.At? ==> th.cachedShadow.id < |st.shadowOwner|)
  }

  predicate CanWrite(st: State, n: nat) {
    && st.geometry.Valid()
    && n < |st.answers| && st.answers[n].page.At? && st.answers[n].page.id < |st.shadowPages|
    && st.geometry.PageIndex(st.answers[n].address) < |st.shadowPages[st.answers[n].page.id]|
  }

  predicate Enabled(st: State, a: Action) {
    match a
    case Call(t, address) => st.geometry.Valid() && t < |st.threads| && st.threads[t].pc.Idle?
    case Step(t) => t < |st.threads| && !st.threads[t].pc.Idle? && Safe(st, t)
    case Write(n, value) => CanWrite(st, n)
  }

  function Put(st: State, t: nat, th: Thread): State
    requires t < |st.threads|
  {
    st.(threads := st.threads[t := th])
  }

  function Apply(st: State, a: Action): State
    requires Enabled(st, a)
  {
    match a
    case Call(t, address) =>
      Put(st, t, st.threads[t].(pc := Look1, address := address,
                                l1Index := st.geometry.L1Index(address), l2Index := st.geometry.L2Index(address)))
    case Step(t) => Advance(st, t)
    case Write(n, value) =>
      var s := st.answers[n].page.id;
      st.(shadowPages := st.shadowPages[s := st.shadowPages[s][st.geometry.PageIndex(st.answers[n].address) := value]])
  }

  function Advance(st: State, t: nat): State
    requires Enabled(st, Step(t))
  {
    var th := st.threads[t];
    match th.pc
    case Idle => st
    case Look1 => Put(st, t, th.(pc := if st.table[th.l1Index].Null? then Get1 else Open(ToLook)))
    case Get1 =>
      if th.cachedL1.At? then
        Put(st.(l1Owner := st.l1Owner[th.cachedL1.id := Flight(t)]), t, th.(pc := Cas1, spare := th.cachedL1.id,
            cachedL1 := Null))
      else
        Put(st.(l1Pages := st.l1Pages + [seq(st.geometry.NumL2(), _ => Null)], l1Owner := st.l1Owner + [Flight(t)]), t,
            th.(pc := Cas1, spare := |st.l1Pages|))
    case Cas1 =>
      if st.table[th.l1Index].Null? then
        Put(st.(table := st.table[th.l1Index := At(th.spare)], l1Owner := st.l1Owner[th.spare := Root(th.l1Index)]), t,
            th.(pc := Open(ToLook)))
      else Put(st, t, th.(pc := Save1))
    case Save1 =>
      if th.cachedL1.At? then Put(st.(dropped := st.dropped + 1), t, th.(pc := Open(ToLook)))
      else Put(st.(l1Owner := st.l1Owner[th.spare := Cache(t)]), t, th.(pc := Open(ToLook), cachedL1 := At(th.spare)))
    case Open(goal) =>
      Put(st, t, th.(pc := match goal case ToLook => Look2 case ToSwap => Cas2 case ToFetch => Fetch,
                     l1Page := st.table[th.l1Index].id))
    case Look2 => Put(st, t, th.(pc := if st.l1Pages[th.l1Page][th.l2Index].Null? then Get2 else Open(ToFetch)))
    case Get2 =>
      if th.cachedShadow.At? then
        Put(st.(shadowOwner := st.shadowOwner[th.cachedShadow.id := Flight(t)]), t,
            th.(pc := Open(ToSwap), spare := th.cachedShadow.id, cachedShadow := Null))
      else
        Put(st.(shadowPages := st.shadowPages + [ZeroPage(st.geometry)],
                shadowOwner := st.shadowOwner + [Flight(t)]), t,
            th.(pc := Open(ToSwap), spare := |st.shadowPages|))
    case Cas2 =>
      if st.l1Pages[th.l1Page][th.l2Index].Null? then
        Put(st.(l1Pages := st.l1Pages[th.l1Page := st.l1Pages[th.l1Page][th.l2Index := At(th.spare)]],
                shadowOwner := st.shadowOwner[th.spare := Entry(th.l1Page, th.l2Index)]), t, th.(pc := Open(ToFetch)))
      else Put(st, t, th.(pc := Save2))
    case Save2 =>
      if th.cachedShadow.At? then Put(st.(dropped := st.dropped + 1), t, th.(pc := Open(ToFetch)))
      else
        Put(st.(shadowOwner := st.shadowOwner[th.spare := Cache(t)]), t, th.(pc := Open(ToFetch),
            cachedShadow := At(th.spare)))
    case Fetch =>
      Put(st.(answers := st.answers + [Answer(t, th.address, st.l1Pages[th.l1Page][th.l2Index])]), t, th.(pc := Idle))
  }

  function ZeroPage(g: Geometry): (p: seq<int>)
    ensures forall k :: 0 <= k < |p| ==> p[k] == 0
    ensures g.Valid() ==> |p| == g.NumEntries()
  {
    if g.Valid() then seq(g.NumEntries(), _ => 0) else []
  }

  // ---- the invariant ----

  /** The first-level page held at a place. */
  function L1Held(st: State, p: Place): Ptr {
    match p
    case Root(i) => if i < |st.table| then st.table[i] else Null
    case Entry(_, _) => Null
    case Flight(t) => if t < |st.threads| && (st.threads[t].pc.Cas1? || st.threads[t].pc.Save1?)
        then At(st.threads[t].spare) else Null
    case Cache(t) => if t < |st.threads| then st.threads[t].cachedL1 else Null
  }

  predicate CarriesShadow(pc: Pc) {
    pc == Open(ToSwap) || pc.Cas2? || pc.Save2?
  }

  /** The shadow page held at a place. */
  function ShadowHeld(st: State, p: Place): Ptr {
    match p
    case Root(i) => Null
    case Entry(d, j) => if d < |st.l1Pages| && j < |st.l1Pages[d]| then st.l1Pages[d][j] else Null
    case Flight(t) => if t < |st.threads| && CarriesShadow(st.threads[t].pc) then At(st.threads[t].spare) else Null
    case Cache(t) => if t < |st.threads| then st.threads[t].cachedShadow else Null
  }

  /** Every allocated page is held at exactly one place, and nothing else is held. */
  ghost predicate Owned(held: Place -> Ptr, owner: seq<Place>) {
    && (forall p: Place :: held(p).At? ==> held(p).id < |owner| && owner[held(p).id] == p)
    && (forall d :: 0 <= d < |owner| ==> held(owner[d]) == At(d))
  }

  ghost predicate L1Owned(st: State) {
    |st.l1Owner| == |st.l1Pages| && Owned(p => L1Held(st, p), st.l1Owner)
  }

  ghost predicate ShadowOwned(st: State) {
    |st.shadowOwner| == |st.shadowPages| && Owned(p => ShadowHeld(st, p), st.shadowOwner)
  }

  /** A page that is not installed is as the allocation left it. */
  ghost predicate SpareTables(st: State) {
    forall d, j :: 0 <= d < |st.l1Pages| && d < |st.l1Owner| && !st.l1Owner[d].Root? && 0 <= j < |st.l1Pages[d]| ==>
      st.l1Pages[d][j] == Null
  }

  ghost predicate SparePages(st: State) {
    forall s, k ::
      (0 <= s < |st.shadowPages| && s < |st.shadowOwner| && !st.shadowOwner[s].Entry? &&
          0 <= k < |st.shadowPages[s]|) ==>
      st.shadowPages[s][k] == 0
  }

  ghost predicate SparesAreZero(st: State) {
    SpareTables(st) && SparePages(st)
  }

  ghost predicate Shape(st: State) {
    && st.geometry.Valid()
    && |st.table| == st.geometry.NumL1()
    && (forall d :: 0 <= d < |st.l1Pages| ==> |st.l1Pages[d]| == st.geometry.NumL2())
    && (forall s :: 0 <= s < |st.shadowPages| ==> |st.shadowPages[s]| == st.geometry.NumEntries())
  }

  /** What a running call has found out about the table so far; it holds no more than one page of a kind. */
  ghost predicate ThreadOk(st: State, th: Thread)
    requires st.geometry.Valid()
  {
    && (!th.pc.Idle? ==>
          && th.l1Index == st.geometry.L1Index(th.address) < |st.table|
          && th.l2Index == st.geometry.L2Index(th.address) < st.geometry.NumL2()
          && (th.pc.Look1? || th.pc.Get1? || th.pc.Cas1? || st.table[th.l1Index].At?)
          && (th.pc.Look2? || th.pc.Cas2? || th.pc.Fetch? ==> st.table[th.l1Index] == At(th.l1Page))
          && (th.pc == Open(ToFetch) || th.pc.Fetch? || th.pc.Save2? ==> Lookup(st, th.l1Index, th.l2Index).At?))
    && (th.pc.Cas1? || th.pc.Save1? ==> th.cachedL1 == Null)
    && (CarriesShadow(th.pc) ==> th.cachedShadow == Null)
  }

  ghost predicate ThreadsOk(st: State)
    requires st.geometry.Valid()
  {
    forall t :: 0 <= t < |st.threads| ==> ThreadOk(st, st.threads[t])
  }

  ghost predicate AnswersOk(st: State)
    requires st.geometry.Valid()
  {
    forall n :: 0 <= n < |st.answers| ==>
      && st.answers[n].page.At?
      && Lookup(st, st.geometry.L1Index(st.answers[n].address), st.geometry.L2Index(st.answers[n].address)) ==
          st.answers[n].page
  }

  ghost predicate Inv(st: State) {
    && Shape(st) && L1Owned(st) && ShadowOwned(st) && SparesAreZero(st) && ThreadsOk(st) && AnswersOk(st)
    && st.dropped == 0
  }

  /** An empty table, and threads that have not called yet. */
  ghost predicate Start(st: State) {
    && st.geometry.Valid()
    && |st.table| == st.geometry.NumL1() && (forall i :: 0 <= i < |st.table| ==> st.table[i] == Null)
    && st.l1Pages == [] && st.shadowPages == [] && st.l1Owner == [] && st.shadowOwner == [] && st.answers == [] &&
        st.dropped == 0
    && forall t :: 0 <= t < |st.threads| ==>
         st.threads[t].pc.Idle? && st.threads[t].cachedL1 == Null && st.threads[t].cachedShadow == Null
  }

  // ---- entries never change ----

  /** Non-null entries stay as they are, and the sizes of the tables stay. */
  ghost predicate Grows(st: State, st': State) {
    && st'.geometry == st.geometry && |st'.table| == |st.table|
    && (forall i :: 0 <= i < |st.table| && st.table[i].At? ==> st'.table[i] == st.table[i])
    && (forall i: nat, j: nat :: Lookup(st, i, j).At? ==> Lookup(st', i, j) == Lookup(st, i, j))
  }

  lemma GrowsKeeps(st: State, st': State, th: Thread)
    requires st.geometry.Valid() && Grows(st, st') && ThreadOk(st, th)
    ensures ThreadOk(st', th)
  {
    hide Lookup;
  }

  lemma StepGrows(st: State, a: Action)
    requires Inv(st) && Enabled(st, a)
    ensures Grows(st, Apply(st, a))
  {
    if a.Step? {
      assert ThreadOk(st, st.threads[a.thread]);
      hide Inv;
      if st.threads[a.thread].pc.Cas2? {
        GrowsByEntry(st, a.thread);
      } else {
        GrowsByPage(st, a.thread);
      }
    }
  }

  lemma GrowsByEntry(st: State, t: nat)
    requires Enabled(st, Step(t)) && st.threads[t].pc.Cas2?
    ensures Grows(st, Advance(st, t))
  {
  }

  lemma GrowsByPage(st: State, t: nat)
    requires Enabled(st, Step(t)) && !st.threads[t].pc.Cas2?
    ensures Grows(st, Advance(st, t))
  {
    var st' := Advance(st, t);
    assert |st.l1Pages| <= |st'.l1Pages| && forall d :: 0 <= d < |st.l1Pages| ==> st'.l1Pages[d] == st.l1Pages[d];
    assert forall i :: 0 <= i < |st.table| && st.table[i].At? ==> st'.table[i] == st.table[i];
    hide Advance, Enabled;
  }

  lemma StepShape(st: State, a: Action)
    requires Shape(st) && Enabled(st, a)
    ensures Shape(Apply(st, a))
  {
  }

  lemma StepAnswers(st: State, a: Action)
    requires Inv(st) && Enabled(st, a)
    ensures Shape(Apply(st, a)) && AnswersOk(Apply(st, a))
  {
    StepShape(st, a);
    StepGrows(st, a);
    if a.Step? {
      assert ThreadOk(st, st.threads[a.thread]);
    }
    hide SparesAreZero, ShadowOwned, ThreadsOk, L1Owned;
  }

  /** The cache is empty whenever a page is saved to it. */
  lemma SaveIsNeverRefused(st: State, t: nat)
    requires Inv(st) && t < |st.threads|
    ensures st.threads[t].pc.Save1? ==> st.threads[t].cachedL1 == Null
    ensures st.threads[t].pc.Save2? ==> st.threads[t].cachedShadow == Null
  {
    assert ThreadOk(st, st.threads[t]);
  }

  lemma StepThread(st: State, t: nat)
    requires Inv(st) && Enabled(st, Step(t))
    ensures Shape(Advance(st, t)) && ThreadOk(Advance(st, t), Advance(st, t).threads[t])
  {
    StepShape(st, Step(t));
    StepGrows(st, Step(t));
    assert ThreadOk(st, st.threads[t]);
    StepKnows(st, t);
    hide Inv, Advance, Shape, Lookup, Enabled;
  }

  /** What a thread knows after its step, given that the tables only grow. */
  lemma StepKnows(st: State, t: nat)
    requires Shape(st) && Enabled(st, Step(t)) && ThreadOk(st, st.threads[t])
    ensures var st', th, th' := Advance(st, t), st.threads[t], Advance(st, t).threads[t];
      && th'.l1Index == th.l1Index && th'.l2Index == th.l2Index && th'.address == th.address
      && (th'.pc.Idle? || th'.pc.Get1? || th'.pc.Cas1? || st'.table[th.l1Index].At?)
      && (th'.pc.Look2? || th'.pc.Cas2? || th'.pc.Fetch? ==> st'.table[th.l1Index] == At(th'.l1Page))
      && (th'.pc == Open(ToFetch) || th'.pc.Fetch? || th'.pc.Save2? ==> Lookup(st', th.l1Index, th.l2Index).At?)
      && !th'.pc.Look1?
      && (th'.pc.Cas1? || th'.pc.Save1? ==> th'.cachedL1 == Null)
      && (CarriesShadow(th'.pc) ==> th'.cachedShadow == Null)
  {
  }

  lemma CallThread(st: State, t: nat, address: nat)
    requires Inv(st) && Enabled(st, Call(t, address)) && Shape(Apply(st, Call(t, address)))
    ensures ThreadOk(Apply(st, Call(t, address)), Apply(st, Call(t, address)).threads[t])
  {
    assert ThreadOk(st, st.threads[t]);
    IndicesAreFields(st.geometry, address);
    hide Inv, Lookup;
  }

  lemma OtherThread(st: State, a: Action, t: nat)
    requires Inv(st) && Enabled(st, a) && t < |st.threads| && (a.Write? || a.thread != t)
    ensures t < |Apply(st, a).threads| && Apply(st, a).geometry.Valid()
    ensures ThreadOk(Apply(st, a), Apply(st, a).threads[t])
  {
    hide Inv, ThreadOk, Grows, Apply;
    InvThread(st, t);
    StepGrows(st, a);
    ThreadStays(st, a, t);
    GrowsKeeps(st, Apply(st, a), st.threads[t]);
    GrowsGeometry(st, Apply(st, a));
  }

  lemma InvThread(st: State, t: nat)
    requires Inv(st) && t < |st.threads|
    ensures st.geometry.Valid() && ThreadOk(st, st.threads[t])
  {
  }

  lemma ThreadStays(st: State, a: Action, t: nat)
    requires Enabled(st, a) && t < |st.threads| && (a.Write? || a.thread != t)
    ensures t < |Apply(st, a).threads| && Apply(st, a).threads[t] == st.threads[t]
  {
  }

  lemma GrowsGeometry(st: State, st': State)
    requires Grows(st, st')
    ensures st'.geometry == st.geometry
  {
  }

  lemma StepThreads(st: State, a: Action)
    requires Inv(st) && Enabled(st, a)
    ensures Shape(Apply(st, a)) && ThreadsOk(Apply(st, a))
  {
    StepShape(st, a);
    var st' := Apply(st, a);
    assert |st'.threads| == |st.threads|;
    forall t | 0 <= t < |st'.threads|
      ensures ThreadOk(st', st'.threads[t])
    {
      hide Inv, ThreadOk, Shape;
      match a
      case Call(thread, address) => if t == thread { CallThread(st, t, address); } else { OtherThread(st, a, t); }
      case Step(thread) => if t == thread { StepThread(st, t); } else { OtherThread(st, a, t); }
      case Write(_, _) => OtherThread(st, a, t);
    }
  }

  // ---- pages change hands ----

  lemma OwnedAt(held: Place -> Ptr, owner: seq<Place>, p: Place)
    requires Owned(held, owner) && held(p).At?
    ensures held(p).id < |owner| && owner[held(p).id] == p
  {
  }

  lemma OwnedSame(held: Place -> Ptr, held': Place -> Ptr, owner: seq<Place>)
    requires Owned(held, owner) && forall p: Place :: held'(p) == held(p)
    ensures Owned(held', owner)
  {
  }

  lemma OwnedMove(held: Place -> Ptr, held': Place -> Ptr, owner: seq<Place>, d: nat, from: Place, to: Place)
    requires Owned(held, owner) && held(from) == At(d) && from != to && held(to) == Null
    requires held'(from) == Null && held'(to) == At(d) && forall p: Place :: p != from && p != to ==>
        held'(p) == held(p)
    ensures d < |owner| && Owned(held', owner[d := to])
  {
  }

  lemma OwnedNew(held: Place -> Ptr, held': Place -> Ptr, owner: seq<Place>, to: Place)
    requires Owned(held, owner) && held(to) == Null
    requires held'(to) == At(|owner|) && forall p: Place :: p != to ==> held'(p) == held(p)
    ensures Owned(held', owner + [to])
  {
  }

  lemma StepL1Owned(st: State, a: Action)
    requires Inv(st) && Enabled(st, a)
    ensures L1Owned(Apply(st, a))
  {
    if a.Step? {
      var t := a.thread;
      assert ThreadOk(st, st.threads[t]);
      hide Inv, Owned;
      var pc := st.threads[t].pc;
      if pc.Get1? {
        L1Got(st, t);
      } else if pc.Cas1? && st.table[st.threads[t].l1Index].Null? {
        L1Moved(st, t, Root(st.threads[t].l1Index));
      } else if pc.Save1? {
        L1Moved(st, t, Cache(t));
      } else {
        L1Kept(st, a);
      }
    } else {
      hide Inv, Owned;
      L1Kept(st, a);
    }
  }

  lemma L1Got(st: State, t: nat)
    requires L1Owned(st) && Enabled(st, Step(t)) && st.threads[t].pc.Get1?
    ensures L1Owned(Advance(st, t))
  {
    var st', th := Advance(st, t), st.threads[t];
    hide Owned;
    if th.cachedL1.At? {
      OwnedMove(p => L1Held(st, p), p => L1Held(st', p), st.l1Owner, th.cachedL1.id, Cache(t), Flight(t));
    } else {
      OwnedNew(p => L1Held(st, p), p => L1Held(st', p), st.l1Owner, Flight(t));
    }
  }

  lemma L1Moved(st: State, t: nat, to: Place)
    requires L1Owned(st) && Enabled(st, Step(t))
    requires var th := st.threads[t];
      || (th.pc.Cas1? && st.table[th.l1Index].Null? && to == Root(th.l1Index))
      || (th.pc.Save1? && th.cachedL1 == Null && to == Cache(t))
    ensures L1Owned(Advance(st, t))
  {
    var st' := Advance(st, t);
    hide Owned;
    OwnedMove(p => L1Held(st, p), p => L1Held(st', p), st.l1Owner, st.threads[t].spare, Flight(t), to);
  }

  lemma L1Same(st: State, st': State)
    requires L1Owned(st)
    requires |st'.l1Pages| == |st.l1Pages| && st'.l1Owner == st.l1Owner && st'.table == st.table &&
        |st'.threads| == |st.threads|
    requires forall t :: 0 <= t < |st.threads| ==> L1Carried(st'.threads[t]) == L1Carried(st.threads[t])
    ensures L1Owned(st')
  {
    forall p: Place
      ensures L1Held(st', p) == L1Held(st, p)
    {
      match p
      case Flight(t) => assert t < |st.threads| ==> L1Carried(st'.threads[t]) == L1Carried(st.threads[t]);
      case Cache(t) => assert t < |st.threads| ==> L1Carried(st'.threads[t]) == L1Carried(st.threads[t]);
      case _ =>
    }
    OwnedSame(p => L1Held(st, p), p => L1Held(st', p), st.l1Owner);
  }

  function L1Carried(th: Thread): (Ptr, Ptr) {
    (if th.pc.Cas1? || th.pc.Save1? then At(th.spare) else Null, th.cachedL1)
  }

  lemma L1Kept(st: State, a: Action)
    requires L1Owned(st) && Enabled(st, a)
    requires a.Step? ==> var th := st.threads[a.thread];
      !th.pc.Get1? && !th.pc.Save1? && (th.pc.Cas1? ==> st.table[th.l1Index].At?)
    ensures L1Owned(Apply(st, a))
  {
    var st' := Apply(st, a);
    hide Owned, L1Held, L1Owned;
    L1Same(st, st');
  }

  lemma StepShadowOwned(st: State, a: Action)
    requires Inv(st) && Enabled(st, a)
    ensures ShadowOwned(Apply(st, a))
  {
    if a.Step? {
      var t := a.thread;
      var th := st.threads[t];
      assert ThreadOk(st, th);
      hide Inv, Owned;
      if th.pc.Get2? {
        ShadowGot(st, t);
      } else if th.pc.Cas2? && st.l1Pages[th.l1Page][th.l2Index].Null? {
        ShadowMoved(st, t, Entry(th.l1Page, th.l2Index));
      } else if th.pc.Save2? {
        ShadowMoved(st, t, Cache(t));
      } else {
        ShadowKept(st, a);
      }
    } else {
      hide Inv, Owned;
      ShadowKept(st, a);
    }
  }

  lemma ShadowGot(st: State, t: nat)
    requires ShadowOwned(st) && Enabled(st, Step(t)) && st.threads[t].pc.Get2?
    ensures ShadowOwned(Advance(st, t))
  {
    var st', th := Advance(st, t), st.threads[t];
    hide Owned;
    if th.cachedShadow.At? {
      OwnedMove(p => ShadowHeld(st, p), p => ShadowHeld(st', p), st.shadowOwner, th.cachedShadow.id, Cache(t),
          Flight(t));
    } else {
      OwnedNew(p => ShadowHeld(st, p), p => ShadowHeld(st', p), st.shadowOwner, Flight(t));
    }
  }

  lemma ShadowMoved(st: State, t: nat, to: Place)
    requires ShadowOwned(st) && Enabled(st, Step(t))
    requires var th := st.threads[t];
      || (th.pc.Cas2? && st.l1Pages[th.l1Page][th.l2Index].Null? && to == Entry(th.l1Page, th.l2Index))
      || (th.pc.Save2? && th.cachedShadow == Null && to == Cache(t))
    ensures ShadowOwned(Advance(st, t))
  {
    var st' := Advance(st, t);
    hide Owned;
    OwnedMove(p => ShadowHeld(st, p), p => ShadowHeld(st', p), st.shadowOwner, st.threads[t].spare, Flight(t), to);
  }

  lemma ShadowSame(st: State, st': State)
    requires ShadowOwned(st)
    requires |st'.shadowPages| == |st.shadowPages| && st'.shadowOwner == st.shadowOwner && |st'.threads| == |st.threads|
    requires forall d: nat, j: nat :: ShadowHeld(st', Entry(d, j)) == ShadowHeld(st, Entry(d, j))
    requires forall t :: 0 <= t < |st.threads| ==> ShadowCarried(st'.threads[t]) == ShadowCarried(st.threads[t])
    ensures ShadowOwned(st')
  {
    forall p: Place
      ensures ShadowHeld(st', p) == ShadowHeld(st, p)
    {
      match p
      case Flight(t) => assert t < |st.threads| ==> ShadowCarried(st'.threads[t]) == ShadowCarried(st.threads[t]);
      case Cache(t) => assert t < |st.threads| ==> ShadowCarried(st'.threads[t]) == ShadowCarried(st.threads[t]);
      case _ =>
    }
    OwnedSame(p => ShadowHeld(st, p), p => ShadowHeld(st', p), st.shadowOwner);
  }

  function ShadowCarried(th: Thread): (Ptr, Ptr) {
    (if CarriesShadow(th.pc) then At(th.spare) else Null, th.cachedShadow)
  }

  lemma EntriesKept(st: State, a: Action)
    requires Enabled(st, a)
    requires a.Step? ==> var th := st.threads[a.thread]; th.pc.Cas2? ==> st.l1Pages[th.l1Page][th.l2Index].At?
    ensures forall d: nat, j: nat :: ShadowHeld(Apply(st, a), Entry(d, j)) == ShadowHeld(st, Entry(d, j))
  {
  }

  lemma ShadowKept(st: State, a: Action)
    requires ShadowOwned(st) && Enabled(st, a)
    requires a.Step? ==> var th := st.threads[a.thread];
      !th.pc.Get2? && !th.pc.Save2? && (th.pc.Cas2? ==> st.l1Pages[th.l1Page][th.l2Index].At?)
    ensures ShadowOwned(Apply(st, a))
  {
    var st' := Apply(st, a);
    hide Owned, ShadowHeld, ShadowOwned;
    EntriesKept(st, a);
    ShadowSame(st, st');
  }

  lemma StepSpares(st: State, a: Action)
    requires Inv(st) && Enabled(st, a)
    ensures SparesAreZero(Apply(st, a))
  {
    match a
    case Write(n, value) => WriteSpares(st, n, value);
    case Call(_, _) =>
    case Step(t) =>
      assert ThreadOk(st, st.threads[t]);
      assert st.threads[t].pc.Cas2? ==> L1Held(st, Root(st.threads[t].l1Index)) == At(st.threads[t].l1Page);
      SparesOfTable(st, t);
      SparesOfPages(st, t);
  }

  lemma WriteSpares(st: State, n: nat, value: int)
    requires Inv(st) && CanWrite(st, n)
    ensures SparesAreZero(Apply(st, Write(n, value)))
  {
    AnswerIsInstalled(st, n);
    hide Inv, Lookup;
  }

  /** A page handed out by a call is installed at the entry of its address. */
  lemma AnswerIsInstalled(st: State, n: nat)
    requires Inv(st) && n < |st.answers|
    ensures SparesAreZero(st)
    ensures st.geometry.Valid() && st.answers[n].page.At?
    ensures var x := st.answers[n]; var i := st.geometry.L1Index(x.address);
      && i < |st.table| && st.table[i].At? && x.page.id < |st.shadowOwner|
      && st.shadowOwner[x.page.id] == Entry(st.table[i].id, st.geometry.L2Index(x.address))
  {
    var x := st.answers[n];
    var i, j := st.geometry.L1Index(x.address), st.geometry.L2Index(x.address);
    assert Lookup(st, i, j) == x.page;
    hide Inv;
    assert ShadowOwned(st);
    OwnedAt(p => ShadowHeld(st, p), st.shadowOwner, Entry(st.table[i].id, j));
  }

  lemma SparesOfTable(st: State, t: nat)
    requires Shape(st) && SpareTables(st) && L1Owned(st) && Enabled(st, Step(t))
    requires var th := st.threads[t]; th.pc.Cas2? ==> L1Held(st, Root(th.l1Index)) == At(th.l1Page)
    ensures SpareTables(Advance(st, t))
  {
    var th := st.threads[t];
    if th.pc.Cas2? {
      OwnedAt(p => L1Held(st, p), st.l1Owner, Root(th.l1Index));
    } else if th.pc.Cas1? || th.pc.Save1? {
      OwnedAt(p => L1Held(st, p), st.l1Owner, Flight(t));
    } else if th.pc.Get1? && th.cachedL1.At? {
      OwnedAt(p => L1Held(st, p), st.l1Owner, Cache(t));
    }
    hide Owned;
  }

  lemma SparesOfPages(st: State, t: nat)
    requires Shape(st) && SparePages(st) && ShadowOwned(st) && Enabled(st, Step(t))
    ensures SparePages(Advance(st, t))
  {
    var th := st.threads[t];
    if th.pc.Cas2? || th.pc.Save2? {
      OwnedAt(p => ShadowHeld(st, p), st.shadowOwner, Flight(t));
    } else if th.pc.Get2? && th.cachedShadow.At? {
      OwnedAt(p => ShadowHeld(st, p), st.shadowOwner, Cache(t));
    }
    hide Owned;
  }

  lemma StepInv(st: State, a: Action)
    requires Inv(st) && Enabled(st, a)
    ensures Inv(Apply(st, a))
  {
    StepThreads(st, a);
    StepL1Owned(st, a);
    StepShadowOwned(st, a);
    StepSpares(st, a);
    StepAnswers(st, a);
    if a.Step? { SaveIsNeverRefused(st, a.thread); }
    hide SparesAreZero, ShadowOwned, ThreadsOk, AnswersOk, L1Owned, Shape;
  }

  // ---- runs ----

  /** A run: from an empty table, one enabled action after another. */
  ghost predicate IsRun(states: seq<State>, actions: seq<Action>) {
    && |states| == |actions| + 1
    && Start(states[0])
    && forall i :: 0 <= i < |actions| ==>
        Enabled(states[i], actions[i]) && states[i + 1] == Apply(states[i], actions[i])
  }

  lemma {:induction false} RunInv(states: seq<State>, actions: seq<Action>, i: nat)
    requires IsRun(states, actions) && i < |states|
    ensures Inv(states[i])
  {
    if i > 0 {
      RunInv(states, actions, i - 1);
      StepInv(states[i - 1], actions[i - 1]);
    }
  }

  /** A running call never leaves its tables, never follows a null pointer, and never finds its cache taken when it
      saves a page: the two error branches, which would lose the page, are not reachable. */
  lemma EveryStepIsSafe(states: seq<State>, actions: seq<Action>, i: nat, t: nat)
    requires IsRun(states, actions) && i < |states| && t < |states[i].threads|
    ensures Safe(states[i], t)
    ensures states[i].threads[t].pc.Save1? ==> states[i].threads[t].cachedL1 == Null
    ensures states[i].threads[t].pc.Save2? ==> states[i].threads[t].cachedShadow == Null
    ensures states[i].dropped == 0
  {
    RunInv(states, actions, i);
    SaveIsNeverRefused(states[i], t);
    SafeInv(states[i], t);
  }

  lemma SafeInv(st: State, t: nat)
    requires Inv(st) && t < |st.threads|
    ensures Safe(st, t)
  {
    var th := st.threads[t];
    assert ThreadOk(st, th);
    hide Inv, Owned;
    assert L1Owned(st) && ShadowOwned(st) && Shape(st);
    if th.pc.Cas1? || th.pc.Save1? { OwnedAt(p => L1Held(st, p), st.l1Owner, Flight(t)); }
    if CarriesShadow(th.pc) { OwnedAt(p => ShadowHeld(st, p), st.shadowOwner, Flight(t)); }
    if th.cachedL1.At? { OwnedAt(p => L1Held(st, p), st.l1Owner, Cache(t)); }
    if th.cachedShadow.At? { OwnedAt(p => ShadowHeld(st, p), st.shadowOwner, Cache(t)); }
    if !th.pc.Idle? && st.table[th.l1Index].At? { OwnedAt(p => L1Held(st, p), st.l1Owner, Root(th.l1Index)); }
  }

  /** Once set, an entry of either level keeps its value for the rest of the run; what calls returned stays true. */
  lemma {:induction false} EntriesNeverChange(states: seq<State>, actions: seq<Action>, i: nat, j: nat)
    requires IsRun(states, actions) && i <= j < |states|
    ensures Grows(states[i], states[j])
    ensures states[i].answers <= states[j].answers
    decreases j
  {
    hide IsRun, Lookup;
    if i < j {
      RunGrows(states, actions, j - 1, j);
      EntriesNeverChange(states, actions, i, j - 1);
      GrowsTwice(states[i], states[j - 1], states[j]);
    }
  }

  lemma RunGrows(states: seq<State>, actions: seq<Action>, i: nat, j: nat)
    requires IsRun(states, actions) && j == i + 1 && j < |states|
    ensures Grows(states[i], states[j]) && states[i].answers <= states[j].answers
  {
    RunInv(states, actions, i);
    StepGrows(states[i], actions[i]);
    StepAnswered(states[i], actions[i]);
    hide Inv, Grows, Apply, Enabled;
  }

  lemma GrowsTwice(st: State, st': State, st'': State)
    requires Grows(st, st') && Grows(st', st'')
    ensures Grows(st, st'')
  {
    hide Lookup;
  }

  lemma StepAnswered(st: State, a: Action)
    requires Enabled(st, a)
    ensures st.answers <= Apply(st, a).answers
  {
  }

  /** Each of the first `n` pages is held at one place and at no other. */
  ghost predicate HeldOnce(held: Place -> Ptr, n: nat) {
    forall d: nat :: d < n ==> OnlyAt(held, d)
  }

  ghost predicate OnlyAt(held: Place -> Ptr, d: nat) {
    exists p: Place :: held(p) == At(d) && forall q: Place :: held(q) == At(d) ==> q == p
  }

  /** No page is lost and none is shared: at any time, every page ever allocated is in the tables once, or with one
      thread. */
  lemma PagesHaveOneHolder(states: seq<State>, actions: seq<Action>, i: nat)
    requires IsRun(states, actions) && i < |states|
    ensures HeldOnce(p => L1Held(states[i], p), |states[i].l1Pages|)
    ensures HeldOnce(p => ShadowHeld(states[i], p), |states[i].shadowPages|)
  {
    RunInv(states, actions, i);
    var st := states[i];
    assert L1Owned(st) && ShadowOwned(st);
    hide Inv, IsRun, Owned;
    OneHolder(p => L1Held(st, p), st.l1Owner);
    OneHolder(p => ShadowHeld(st, p), st.shadowOwner);
  }

  lemma OneHolder(held: Place -> Ptr, owner: seq<Place>)
    requires Owned(held, owner)
    ensures HeldOnce(held, |owner|)
  {
    forall d: nat | d < |owner|
      ensures OnlyAt(held, d)
    {
      var p := owner[d];
      assert held(p) == At(d);
      forall q: Place | held(q) == At(d)
        ensures q == p
      {
        OwnedAt(held, owner, q);
      }
    }
  }

  /** A page in flight or in a cache is as the allocation left it. */
  lemma SparePagesAreZero(states: seq<State>, actions: seq<Action>, i: nat, p: Place)
    requires IsRun(states, actions) && i < |states|
    ensures var st, held := states[i], L1Held(states[i], p);
      held.At? && !p.Root? ==> held.id < |st.l1Pages| && forall j :: 0 <= j < |st.l1Pages[held.id]| ==>
          st.l1Pages[held.id][j] == Null
    ensures var st, held := states[i], ShadowHeld(states[i], p);
      held.At? && !p.Entry? ==> held.id < |st.shadowPages| && forall k :: 0 <= k < |st.shadowPages[held.id]| ==>
          st.shadowPages[held.id][k] == 0
  {
    RunInv(states, actions, i);
    var st := states[i];
    assert L1Owned(st) && ShadowOwned(st) && SparesAreZero(st);
    hide Inv, IsRun, Owned;
    if L1Held(st, p).At? { OwnedAt(q => L1Held(st, q), st.l1Owner, p); }
    if ShadowHeld(st, p).At? { OwnedAt(q => ShadowHeld(st, q), st.shadowOwner, p); }
    hide L1Held, ShadowHeld;
  }

  /** Over the whole run, whoever asks and whenever: two calls get the same slot exactly if their addresses agree on the
      bits [granularity shift, 48). */
  lemma AnswersAreExact(states: seq<State>, actions: seq<Action>, i: nat, n: nat, m: nat)
    requires IsRun(states, actions) && i < |states|
    requires n < |states[i].answers| && m < |states[i].answers|
    ensures states[i].geometry.Valid()
    ensures states[i].answers[n].page.At?
    ensures var g, x, y := states[i].geometry, states[i].answers[n], states[i].answers[m];
      x.page == y.page && g.PageIndex(x.address) == g.PageIndex(y.address) <==> AgreeOn(x.address, y.address,
          g.OffsetShift(), 48)
  {
    RunInv(states, actions, i);
    var st, x, y := states[i], states[i].answers[n], states[i].answers[m];
    AnswerIsInstalled(st, n);
    AnswerIsInstalled(st, m);
    SameSlotExactly(st.geometry, x.address, y.address);
    var i1, i2 := st.geometry.L1Index(x.address), st.geometry.L1Index(y.address);
    OwnedAt(p => L1Held(st, p), st.l1Owner, Root(i1));
    OwnedAt(p => L1Held(st, p), st.l1Owner, Root(i2));
    assert Lookup(st, i1, st.geometry.L2Index(x.address)) == x.page;
    assert Lookup(st, i2, st.geometry.L2Index(y.address)) == y.page;
    hide Inv, IsRun, L1Held, ShadowHeld, Owned, AgreeOn;
  }

  /** A call finishes after at most thirteen steps of its own, whatever the other threads do. */
  function StepsLeft(pc: Pc): (n: nat)
    ensures n <= 13
  {
    match pc
    case Look1 => 13 case Get1 => 12 case Cas1 => 11 case Save1 => 10 case Open(ToLook) => 9 case Look2 => 8
    case Get2 => 7 case Open(ToSwap) => 6 case Cas2 => 5 case Save2 => 4 case Open(ToFetch) => 2 case Fetch => 1
    case Idle => 0
  }

  lemma CallsAreWaitFree(st: State, a: Action, t: nat)
    requires Inv(st) && Enabled(st, a) && t < |st.threads| && !st.threads[t].pc.Idle?
    ensures Safe(st, t) && t < |Apply(st, a).threads|
    ensures if a == Step(t) then StepsLeft(Apply(st, a).threads[t].pc) < StepsLeft(st.threads[t].pc)
            else Apply(st, a).threads[t] == st.threads[t]
  {
    SafeInv(st, t);
    hide Inv, ZeroPage;
    if a.Step? && a.thread == t { OwnStep(st, t); }
  }

  lemma OwnStep(st: State, t: nat)
    requires Enabled(st, Step(t))
    ensures StepsLeft(Advance(st, t).threads[t].pc) < StepsLeft(st.threads[t].pc)
  {
  }
}
