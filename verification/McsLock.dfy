/**
 The MCS queue lock, as a state machine: one step is one atomic operation of one thread; any number of threads, in any
 interleaving, over sequentially consistent memory.  Nodes live on the stacks of their threads and are reused.
 */
module McsLock {

  datatype Ptr = Nil | At(node: nat)

  datatype Node = Node(next: Ptr, blocked: bool)

  /** Where a thread is: `mcsLock` (Init, Swap, Mark, Link, Spin), `mcsTryLock` (TryInit, TryCas), inside, or
      `mcsUnlock` (ReadNext, CasTail, AwaitNext, Signal). */
  datatype Pc =
    | Idle
    | Init | Swap | Mark | Link | Spin
    | TryInit | TryCas
    | Inside
    | ReadNext | CasTail | AwaitNext | Signal

  /** `other` is the predecessor in `mcsLock` and the successor in `mcsUnlock`. */
  datatype Thread = Thread(pc: Pc, me: nat, other: nat)

  /** `queue`, `arrivals` and `entries` are the history the proof speaks about; no step reads them. */
  datatype State = State(
    tail: Ptr,
    nodes: seq<Node>,
    threads: seq<Thread>,
    queue: seq<nat>,
    arrivals: seq<nat>,
    entries: seq<nat>)

  datatype Action =
    | BeginLock(thread: nat, node: nat)
    | BeginTryLock(thread: nat, node: nat)
    | BeginUnlock(thread: nat)
    | Step(thread: nat)
    | Scribble(node: nat, content: Node)

  /** No operation in progress, and no critical section, uses the node. */
  predicate Free(st: State, m: nat) {
    m < |st.nodes| && forall t :: 0 <= t < |st.threads| && !st.threads[t].pc.Idle? ==> st.threads[t].me != m
  }

  predicate Enabled(st: State, a: Action) {
    match a
    case BeginLock(t, m) => t < |st.threads| && st.threads[t].pc.Idle? && Free(st, m)
    case BeginTryLock(t, m) => t < |st.threads| && st.threads[t].pc.Idle? && Free(st, m)
    case BeginUnlock(t) => t < |st.threads| && st.threads[t].pc.Inside?
    case Step(t) => t < |st.threads| && !st.threads[t].pc.Idle? && !st.threads[t].pc.Inside? && Pointers(st, t)
    case Scribble(m, _) => Free(st, m)
  }

  /** The addresses the thread is about to use exist. */
  predicate Pointers(st: State, t: nat)
    requires t < |st.threads|
  {
    var th := st.threads[t];
    th.me < |st.nodes| && (th.pc.Link? || th.pc.Signal? ==> th.other < |st.nodes|)
  }

  function Goto(st: State, t: nat, pc: Pc): State
    requires t < |st.threads|
  {
    st.(threads := st.threads[t := st.threads[t].(pc := pc)])
  }

  function Tell(st: State, t: nat, pc: Pc, other: nat): State
    requires t < |st.threads|
  {
    st.(threads := st.threads[t := st.threads[t].(pc := pc, other := other)])
  }

  function SetNode(st: State, m: nat, n: Node): State
    requires m < |st.nodes|
  {
    st.(nodes := st.nodes[m := n])
  }

  /** The thread joins the queue; it enters at once if the queue was empty. */
  function Arrive(st: State, t: nat, enters: bool): State {
    st.(queue := st.queue + [t], arrivals := st.arrivals + [t], entries := st.entries + if enters then [t] else [])
  }

  function Depart(st: State): State {
    st.(queue := if st.queue == [] then [] else st.queue[1..])
  }

  function Apply(st: State, a: Action): State
    requires Enabled(st, a)
  {
    match a
    case BeginLock(t, m) => st.(threads := st.threads[t := Thread(Init, m, 0)])
    case BeginTryLock(t, m) => st.(threads := st.threads[t := Thread(TryInit, m, 0)])
    case BeginUnlock(t) => Goto(st, t, ReadNext)
    case Scribble(m, n) => SetNode(st, m, n)
    case Step(t) => Advance(st, t)
  }

  function Advance(st: State, t: nat): (r: State)
    requires Enabled(st, Step(t))
    ensures |r.threads| == |st.threads|
  {
    var me := st.threads[t].me;
    var other := st.threads[t].other;
    match st.threads[t].pc
    case Init => Goto(SetNode(st, me, st.nodes[me].(next := Nil)), t, Swap)
    case Swap =>
      if st.tail.Nil? then Goto(Arrive(st.(tail := At(me)), t, true), t, Inside)
      else Tell(Arrive(st.(tail := At(me)), t, false), t, Mark, st.tail.node)
    case Mark => Goto(SetNode(st, me, st.nodes[me].(blocked := true)), t, Link)
    case Link => Goto(SetNode(st, other, st.nodes[other].(next := At(me))), t, Spin)
    case Spin => if st.nodes[me].blocked then st else Goto(st.(entries := st.entries + [t]), t, Inside)
    case TryInit => Goto(SetNode(st, me, st.nodes[me].(next := Nil)), t, TryCas)
    case TryCas =>
      if st.tail.Nil? then Goto(Arrive(st.(tail := At(me)), t, true), t, Inside)
      else Goto(st, t, Idle)
    case ReadNext =>
      if st.nodes[me].next.Nil? then Goto(st, t, CasTail) else Tell(st, t, Signal, st.nodes[me].next.node)
    case CasTail =>
      if st.tail == At(me) then Goto(Depart(st.(tail := Nil)), t, Idle) else Goto(st, t, AwaitNext)
    case AwaitNext =>
      if st.nodes[me].next.Nil? then st else Tell(st, t, Signal, st.nodes[me].next.node)
    case Signal => Goto(Depart(SetNode(st, other, st.nodes[other].(blocked := false))), t, Idle)
    case _ => st
  }

  // ---- the invariant ----

  predicate Queued(pc: Pc) {
    pc.Mark? || pc.Link? || pc.Spin? || Holds(pc)
  }

  /** Inside the critical section or on the way out of it. */
  predicate Holds(pc: Pc) {
    pc.Inside? || pc.ReadNext? || pc.CasTail? || pc.AwaitNext? || pc.Signal?
  }

  /** A place in the queue: the thread, its local state, and its node. */
  datatype Slot = Slot(id: nat, th: Thread, node: Node)

  ghost predicate NodesDiffer(st: State) {
    && (forall t :: 0 <= t < |st.threads| && !st.threads[t].pc.Idle? ==> st.threads[t].me < |st.nodes|)
    && (forall t, u ::
          (0 <= t < |st.threads| && 0 <= u < |st.threads| && t != u && !st.threads[t].pc.Idle? &&
              !st.threads[u].pc.Idle?) ==>
          st.threads[t].me != st.threads[u].me)
  }

  /** The queue holds exactly the threads between their arrival and their departure, each once. */
  ghost predicate QueueMatches(st: State) {
    && (forall k :: 0 <= k < |st.queue| ==> st.queue[k] < |st.threads| && Queued(st.threads[st.queue[k]].pc))
    && (forall k, j :: 0 <= k < j < |st.queue| ==> st.queue[k] != st.queue[j])
    && (forall t :: 0 <= t < |st.threads| && Queued(st.threads[t].pc) ==> t in st.queue)
  }

  ghost function Slots(st: State): (v: seq<Slot>)
    requires NodesDiffer(st) && QueueMatches(st)
    ensures |v| == |st.queue|
    ensures forall k :: 0 <= k < |v| ==>
      v[k] == Slot(st.queue[k], st.threads[st.queue[k]], st.nodes[st.threads[st.queue[k]].me])
  {
    seq(|st.queue|, k requires 0 <= k < |st.queue| =>
      Slot(st.queue[k], st.threads[st.queue[k]], st.nodes[st.threads[st.queue[k]].me]))
  }

  /** A next field points to the thread behind exactly once that one has linked itself. */
  predicate NextAt(v: seq<Slot>, k: nat)
    requires k < |v|
  {
    v[k].node.next == if k + 1 < |v| && v[k + 1].th.pc.Spin? then At(v[k + 1].th.me) else Nil
  }

  /** All but the first follow the one before them, and wait on their own flag. */
  predicate WaitsAt(v: seq<Slot>, k: nat)
    requires 0 < k < |v|
  {
    || (v[k].th.pc.Mark? && v[k].th.other == v[k - 1].th.me)
    || (v[k].th.pc.Link? && v[k].th.other == v[k - 1].th.me && v[k].node.blocked)
    || (v[k].th.pc.Spin? && v[k].node.blocked)
  }

  /** The first in the queue holds the lock or has just been signalled. */
  predicate Head(v: seq<Slot>) {
    |v| > 0 ==>
      && (Holds(v[0].th.pc) || (v[0].th.pc.Spin? && !v[0].node.blocked))
      && (v[0].th.pc.AwaitNext? ==> |v| > 1)
      && (v[0].th.pc.Signal? ==> |v| > 1 && v[1].th.pc.Spin? && v[0].th.other == v[1].th.me)
  }

  ghost predicate Chain(v: seq<Slot>) {
    && (forall k :: 0 <= k < |v| ==> NextAt(v, k))
    && (forall k :: 0 < k < |v| ==> WaitsAt(v, k))
    && Head(v)
  }

  predicate TailIs(tail: Ptr, v: seq<Slot>) {
    tail == if v == [] then Nil else At(v[|v| - 1].th.me)
  }

  /** The queue is the last part of the arrivals; the entries are the part before it, and the first in the queue once
      it holds the lock. */
  predicate HistoryIs(arrivals: seq<nat>, entries: seq<nat>, v: seq<Slot>) {
    && |v| <= |arrivals|
    && (forall k :: 0 <= k < |v| ==> arrivals[|arrivals| - |v| + k] == v[k].id)
    && entries == arrivals[..|arrivals| - |v| + if v != [] && Holds(v[0].th.pc) then 1 else 0]
  }

  /** A thread about to join the queue has cleared its next field. */
  ghost predicate Cleared(st: State)
    requires NodesDiffer(st)
  {
    forall t :: 0 <= t < |st.threads| && (st.threads[t].pc.Swap? || st.threads[t].pc.TryCas?) ==>
      st.nodes[st.threads[t].me].next == Nil
  }

  ghost predicate Inv(st: State) {
    && NodesDiffer(st)
    && QueueMatches(st)
    && Cleared(st)
    && Chain(Slots(st))
    && TailIs(st.tail, Slots(st))
    && HistoryIs(st.arrivals, st.entries, Slots(st))
  }

  /** The lock is free and no thread is active. */
  ghost predicate Start(st: State) {
    && st.tail == Nil
    && st.queue == [] && st.arrivals == [] && st.entries == []
    && forall t :: 0 <= t < |st.threads| ==> st.threads[t].pc.Idle?
  }

  // ---- what the steps do to the queue ----

  /** A step of a thread outside the queue, or of the environment. */
  ghost predicate Outside(st: State, st': State) {
    && |st'.nodes| == |st.nodes| && |st'.threads| == |st.threads|
    && st'.queue == st.queue && st'.tail == st.tail && st'.arrivals == st.arrivals && st'.entries == st.entries
    && (forall u :: 0 <= u < |st.threads| && Queued(st.threads[u].pc) ==>
          st'.threads[u] == st.threads[u] && (st.threads[u].me < |st.nodes| ==>
              st'.nodes[st.threads[u].me] == st.nodes[st.threads[u].me]))
    && (forall u :: 0 <= u < |st.threads| && Queued(st'.threads[u].pc) ==> Queued(st.threads[u].pc))
  }

  lemma OutsideInv(st: State, st': State)
    requires Inv(st) && Outside(st, st') && NodesDiffer(st') && Cleared(st')
    ensures Inv(st')
  {
    assert QueueMatches(st');
    assert Slots(st') == Slots(st);
  }

  lemma BeginInv(st: State, t: nat, m: nat, pc: Pc)
    requires Inv(st) && t < |st.threads| && st.threads[t].pc.Idle? && Free(st, m)
    requires pc.Init? || pc.TryInit?
    ensures Inv(st.(threads := st.threads[t := Thread(pc, m, 0)]))
  {
    hide Chain, TailIs, HistoryIs, QueueMatches;
    OutsideInv(st, st.(threads := st.threads[t := Thread(pc, m, 0)]));
  }

  lemma ScribbleInv(st: State, m: nat, n: Node)
    requires Inv(st) && Free(st, m)
    ensures Inv(SetNode(st, m, n))
  {
    hide Chain, TailIs, HistoryIs, QueueMatches;
    OutsideInv(st, SetNode(st, m, n));
  }

  lemma ClearInv(st: State, t: nat)
    requires Inv(st) && Enabled(st, Step(t))
    requires st.threads[t].pc.Init? || st.threads[t].pc.TryInit? || (st.threads[t].pc.TryCas? && !st.tail.Nil?)
    ensures Inv(Advance(st, t))
  {
    hide Chain, TailIs, HistoryIs, QueueMatches, Slots;
    ClearOutside(st, t);
    OutsideInv(st, Advance(st, t));
  }

  lemma ClearOutside(st: State, t: nat)
    requires NodesDiffer(st) && Cleared(st) && Enabled(st, Step(t))
    requires st.threads[t].pc.Init? || st.threads[t].pc.TryInit? || (st.threads[t].pc.TryCas? && !st.tail.Nil?)
    ensures Outside(st, Advance(st, t)) && NodesDiffer(Advance(st, t)) && Cleared(Advance(st, t))
  {
    var st', me := Advance(st, t), st.threads[t].me;
    assert forall u :: 0 <= u < |st.threads| && u != t ==> st'.threads[u] == st.threads[u];
    assert |st'.threads| == |st.threads| && |st'.nodes| == |st.nodes| && st'.threads[t].me == me;
    assert forall m :: 0 <= m < |st.nodes| && m != me ==> st'.nodes[m] == st.nodes[m];
    assert st'.threads[t].pc.Idle? || ((st'.threads[t].pc.Swap? || st'.threads[t].pc.TryCas?) &&
        st'.nodes[me].next == Nil);
    assert st'.queue == st.queue && st'.tail == st.tail && st'.arrivals == st.arrivals && st'.entries == st.entries;
    hide Advance;
  }

  lemma Find(st: State, t: nat) returns (p: nat)
    requires NodesDiffer(st) && QueueMatches(st) && t < |st.threads| && Queued(st.threads[t].pc)
    ensures p < |st.queue| && st.queue[p] == t
    ensures Slots(st)[p] == Slot(t, st.threads[t], st.nodes[st.threads[t].me])
  {
    p :| p < |st.queue| && st.queue[p] == t;
  }

  /** Thread state `th` at place `p`, node content `n` at place `q`. */
  function Edit(v: seq<Slot>, p: nat, th: Thread, q: nat, n: Node): (w: seq<Slot>)
    ensures |w| == |v|
    ensures forall k :: 0 <= k < |v| ==> w[k] == Slot(v[k].id, if k == p then th else v[k].th, if k == q then n
        else v[k].node)
  {
    seq(|v|, k requires 0 <= k < |v| => Slot(v[k].id, if k == p then th else v[k].th, if k == q then n else v[k].node))
  }

  /** The state after the thread at place `p` goes to `th` and the node at place `q` gets content `n`. */
  function Move(st: State, p: nat, th: Thread, q: nat, n: Node, entries: seq<nat>): State
    requires NodesDiffer(st) && QueueMatches(st) && p < |st.queue| && q < |st.queue|
  {
    st.(threads := st.threads[st.queue[p] := th], nodes := st.nodes[st.threads[st.queue[q]].me := n],
        entries := entries)
  }

  lemma MoveShape(st: State, p: nat, th: Thread, q: nat, n: Node, entries: seq<nat>)
    requires NodesDiffer(st) && QueueMatches(st) && Cleared(st) && p < |st.queue| && q < |st.queue|
    requires th.me == st.threads[st.queue[p]].me && Queued(th.pc)
    ensures var st' := Move(st, p, th, q, n, entries);
      && NodesDiffer(st') && QueueMatches(st') && Cleared(st')
      && Slots(st') == Edit(Slots(st), p, th, q, n)
  {
    MoveQueue(st, p, th, q, n, entries);
    MoveNodes(st, p, th, q, n, entries);
    MoveSlots(st, p, th, q, n, entries);
  }

  lemma MoveQueue(st: State, p: nat, th: Thread, q: nat, n: Node, entries: seq<nat>)
    requires NodesDiffer(st) && QueueMatches(st) && p < |st.queue| && q < |st.queue|
    requires Queued(th.pc)
    ensures QueueMatches(Move(st, p, th, q, n, entries))
  {
  }

  lemma MoveNodes(st: State, p: nat, th: Thread, q: nat, n: Node, entries: seq<nat>)
    requires NodesDiffer(st) && QueueMatches(st) && Cleared(st) && p < |st.queue| && q < |st.queue|
    requires th.me == st.threads[st.queue[p]].me && Queued(th.pc)
    ensures NodesDiffer(Move(st, p, th, q, n, entries)) && Cleared(Move(st, p, th, q, n, entries))
  {
    var st' := Move(st, p, th, q, n, entries);
    assert NodesDiffer(st');
  }

  lemma MoveSlots(st: State, p: nat, th: Thread, q: nat, n: Node, entries: seq<nat>)
    requires NodesDiffer(st) && QueueMatches(st) && p < |st.queue| && q < |st.queue|
    requires th.me == st.threads[st.queue[p]].me
    requires NodesDiffer(Move(st, p, th, q, n, entries)) && QueueMatches(Move(st, p, th, q, n, entries))
    ensures Slots(Move(st, p, th, q, n, entries)) == Edit(Slots(st), p, th, q, n)
  {
    var v, w := Slots(Move(st, p, th, q, n, entries)), Edit(Slots(st), p, th, q, n);
    forall k | 0 <= k < |v|
      ensures v[k] == w[k]
    {
      assert k != p ==> st.queue[k] != st.queue[p];
      assert k != q ==> st.queue[k] != st.queue[q];
    }
  }

  lemma MoveInv(st: State, p: nat, th: Thread, q: nat, n: Node, entries: seq<nat>)
    requires Inv(st) && p < |st.queue| && q < |st.queue|
    requires th.me == st.threads[st.queue[p]].me && Queued(th.pc)
    requires Chain(Edit(Slots(st), p, th, q, n))
    requires HistoryIs(st.arrivals, entries, Edit(Slots(st), p, th, q, n))
    ensures Inv(Move(st, p, th, q, n, entries))
  {
    hide Chain, HistoryIs;
    MoveShape(st, p, th, q, n, entries);
    hide NodesDiffer, QueueMatches, Cleared;
  }

  /** The thread stays as far from the lock as it was. */
  lemma SameHistory(arrivals: seq<nat>, entries: seq<nat>, v: seq<Slot>, p: nat, th: Thread, q: nat, n: Node)
    requires HistoryIs(arrivals, entries, v) && p < |v| && (Holds(th.pc) <==> Holds(v[p].th.pc))
    ensures HistoryIs(arrivals, entries, Edit(v, p, th, q, n))
  {
  }

  lemma MarkInv(st: State, t: nat)
    requires Inv(st) && Enabled(st, Step(t)) && st.threads[t].pc.Mark?
    ensures Inv(Advance(st, t))
  {
    var p := Find(st, t);
    var th, n := st.threads[t].(pc := Link), st.nodes[st.threads[t].me].(blocked := true);
    MarkChain(Slots(st), p, th, n);
    SameHistory(st.arrivals, st.entries, Slots(st), p, th, p, n);
    MoveInv(st, p, th, p, n, st.entries);
    assert Advance(st, t) == Move(st, p, th, p, n, st.entries);
  }

  lemma MarkChain(v: seq<Slot>, p: nat, th: Thread, n: Node)
    requires Chain(v) && p < |v| && v[p].th.pc.Mark?
    requires th == v[p].th.(pc := Link) && n == v[p].node.(blocked := true)
    ensures Chain(Edit(v, p, th, p, n))
  {
    ChainKept(v, Edit(v, p, th, p, n));
  }

  /** A change that no place notices. */
  lemma ChainKept(v: seq<Slot>, w: seq<Slot>)
    requires Chain(v) && |w| == |v|
    requires forall k :: 0 <= k < |v| ==> NextAt(v, k) ==> NextAt(w, k)
    requires forall k :: 0 < k < |v| ==> WaitsAt(v, k) ==> WaitsAt(w, k)
    requires Head(v) ==> Head(w)
    ensures Chain(w)
  {
  }

  lemma LinkInv(st: State, t: nat)
    requires Inv(st) && Enabled(st, Step(t)) && st.threads[t].pc.Link?
    ensures Inv(Advance(st, t))
  {
    hide Chain, HistoryIs, TailIs, Cleared, Edit;
    var p := Find(st, t);
    var v := Slots(st);
    LinkPlace(v, p);
    var th, n := st.threads[t].(pc := Spin), v[p - 1].node.(next := At(st.threads[t].me));
    LinkChain(v, p, th, n);
    SameHistory(st.arrivals, st.entries, v, p, th, p - 1, n);
    MoveInv(st, p, th, p - 1, n, st.entries);
    hide Inv, NodesDiffer, QueueMatches;
    assert Advance(st, t) == Move(st, p, th, p - 1, n, st.entries);
  }

  lemma LinkPlace(v: seq<Slot>, p: nat)
    requires Chain(v) && p < |v| && v[p].th.pc.Link?
    ensures p > 0 && v[p].th.other == v[p - 1].th.me
  {
    assert p > 0 ==> WaitsAt(v, p);
  }

  lemma LinkChain(v: seq<Slot>, p: nat, th: Thread, n: Node)
    requires Chain(v) && 0 < p < |v| && v[p].th.pc.Link?
    requires th == v[p].th.(pc := Spin) && n == v[p - 1].node.(next := At(th.me))
    ensures Chain(Edit(v, p, th, p - 1, n))
  {
    var w := Edit(v, p, th, p - 1, n);
    assert WaitsAt(v, p) && NextAt(v, p);
    assert Head(w);
    ChainKept(v, w);
  }

  lemma SpinInv(st: State, t: nat)
    requires Inv(st) && Enabled(st, Step(t)) && st.threads[t].pc.Spin? && !st.nodes[st.threads[t].me].blocked
    ensures Inv(Advance(st, t))
  {
    hide Chain, HistoryIs, TailIs, Cleared, Edit;
    var p := Find(st, t);
    var v := Slots(st);
    var th := st.threads[t].(pc := Inside);
    SpinChain(v, p, th);
    SpinHistory(st.arrivals, st.entries, v, p, th);
    MoveInv(st, p, th, p, v[p].node, st.entries + [t]);
    hide Inv, NodesDiffer, QueueMatches;
    assert Advance(st, t) == Move(st, p, th, p, v[p].node, st.entries + [t]);
  }

  lemma SpinChain(v: seq<Slot>, p: nat, th: Thread)
    requires Chain(v) && p < |v| && v[p].th.pc.Spin? && !v[p].node.blocked && th == v[p].th.(pc := Inside)
    ensures p == 0 && Chain(Edit(v, p, th, p, v[p].node))
  {
    assert p > 0 ==> WaitsAt(v, p);
    ChainKept(v, Edit(v, p, th, p, v[p].node)) by { assert NextAt(v, 0); }
  }

  lemma SpinHistory(arrivals: seq<nat>, entries: seq<nat>, v: seq<Slot>, p: nat, th: Thread)
    requires HistoryIs(arrivals, entries, v) && p == 0 && |v| > 0 && v[p].th.pc.Spin? && th.pc.Inside?
    ensures HistoryIs(arrivals, entries + [v[p].id], Edit(v, p, th, p, v[p].node))
  {
  }

  /** Only the first in the queue holds the lock. */
  lemma HolderIsFirst(st: State, t: nat)
    requires Inv(st) && t < |st.threads| && Holds(st.threads[t].pc)
    ensures st.queue != [] && st.queue[0] == t
  {
    var p := Find(st, t);
    assert p > 0 ==> WaitsAt(Slots(st), p);
  }

  /** The holder goes on to unlock. */
  lemma HolderInv(st: State, t: nat, th: Thread)
    requires Inv(st) && t < |st.threads| && Holds(st.threads[t].pc) && Holds(th.pc) && th.me == st.threads[t].me
    requires th.pc.AwaitNext? ==> |st.queue| > 1
    requires th.pc.Signal? ==> st.threads[t].me < |st.nodes| && st.nodes[st.threads[t].me].next == At(th.other)
    ensures Inv(st.(threads := st.threads[t := th]))
  {
    HolderIsFirst(st, t);
    var v := Slots(st);
    hide Chain, HistoryIs, TailIs, Cleared, Edit;
    HolderChain(v, th);
    SameHistory(st.arrivals, st.entries, v, 0, th, 0, v[0].node);
    MoveInv(st, 0, th, 0, v[0].node, st.entries);
    hide Inv, QueueMatches;
    assert st.(threads := st.threads[t := th]) == Move(st, 0, th, 0, v[0].node, st.entries);
  }

  lemma HolderChain(v: seq<Slot>, th: Thread)
    requires Chain(v) && |v| > 0 && Holds(th.pc) && th.me == v[0].th.me
    requires th.pc.AwaitNext? ==> |v| > 1
    requires th.pc.Signal? ==> v[0].node.next == At(th.other)
    ensures Chain(Edit(v, 0, th, 0, v[0].node))
  {
    assert NextAt(v, 0);
    ChainKept(v, Edit(v, 0, th, 0, v[0].node)) by { assert |v| > 1 ==> WaitsAt(v, 1); }
  }

  lemma UnlockInv(st: State, t: nat)
    requires Inv(st) && Enabled(st, Step(t)) && !Advance(st, t).threads[t].pc.Idle?
    requires st.threads[t].pc.ReadNext? || st.threads[t].pc.AwaitNext? || st.threads[t].pc.CasTail?
    ensures Inv(Advance(st, t))
  {
    hide Inv;
    if !st.threads[t].pc.CasTail? && st.nodes[st.threads[t].me].next.At? {
      ToSignal(st, t);
    } else if st.threads[t].pc.ReadNext? {
      ToCasTail(st, t);
    } else if st.threads[t].pc.CasTail? {
      NotLast(st, t);
      ToAwaitNext(st, t);
    }
  }

  lemma ToSignal(st: State, t: nat)
    requires Inv(st) && Enabled(st, Step(t)) && (st.threads[t].pc.ReadNext? || st.threads[t].pc.AwaitNext?)
    requires st.nodes[st.threads[t].me].next.At?
    ensures Inv(Advance(st, t))
  {
    hide Inv;
    HolderInv(st, t, st.threads[t].(pc := Signal, other := st.nodes[st.threads[t].me].next.node));
  }

  lemma ToCasTail(st: State, t: nat)
    requires Inv(st) && Enabled(st, Step(t)) && st.threads[t].pc.ReadNext? && st.nodes[st.threads[t].me].next.Nil?
    ensures Inv(Advance(st, t))
  {
    hide Inv;
    HolderInv(st, t, st.threads[t].(pc := CasTail));
  }

  lemma ToAwaitNext(st: State, t: nat)
    requires Inv(st) && Enabled(st, Step(t)) && st.threads[t].pc.CasTail? && st.tail != At(st.threads[t].me) &&
        |st.queue| > 1
    ensures Inv(Advance(st, t))
  {
    hide Inv;
    HolderInv(st, t, st.threads[t].(pc := AwaitNext));
  }

  lemma NotLast(st: State, t: nat)
    requires Inv(st) && t < |st.threads| && Holds(st.threads[t].pc) && st.tail != At(st.threads[t].me)
    ensures |st.queue| > 1
  {
    HolderIsFirst(st, t);
    assert TailIs(st.tail, Slots(st));
  }

  // ---- arrival and departure ----

  lemma ArriveInv(st: State, t: nat, pc: Pc)
    requires Inv(st) && Enabled(st, Step(t)) && (st.threads[t].pc.Swap? || st.threads[t].pc.TryCas?)
    requires pc == if st.tail.Nil? then Inside else Mark
    ensures Inv(Joined(st, t, pc))
  {
    hide NodesDiffer, QueueMatches, Cleared, Slots, Chain, HistoryIs, TailIs, Joined;
    var v, st' := Slots(st), Joined(st, t, pc);
    JoinedFields(st, t, pc);
    ArriveShape(st, t, pc);
    JoinedSlots(st, t, pc);
    var x := Slot(t, st'.threads[t], st.nodes[st.threads[t].me]);
    TailOf(st.tail, v);
    ArriveChain(v, x);
    ArriveTail(v, x);
    HistoryArrive(st.arrivals, st.entries, v, x);
  }

  lemma TailOf(tail: Ptr, v: seq<Slot>)
    requires TailIs(tail, v)
    ensures tail.Nil? <==> v == []
    ensures v != [] ==> tail == At(v[|v| - 1].th.me)
  {
  }

  lemma ArriveTail(v: seq<Slot>, x: Slot)
    ensures TailIs(At(x.th.me), v + [x])
  {
  }

  lemma JoinedFields(st: State, t: nat, pc: Pc)
    requires NodesDiffer(st) && Cleared(st) && t < |st.threads|
    requires st.threads[t].pc.Swap? || st.threads[t].pc.TryCas?
    ensures var st', th := Joined(st, t, pc), st.threads[t];
      && |st'.threads| == |st.threads|
      && st'.tail == At(th.me)
      && st'.arrivals == st.arrivals + [t]
      && st'.entries == st.entries + (if pc.Inside? then [t] else [])
      && st'.threads[t] == Thread(pc, th.me, if pc.Mark? && st.tail.At? then st.tail.node else th.other)
      && th.me < |st.nodes|
      && st.nodes[th.me].next == Nil
  {
  }

  lemma HistoryArrive(arrivals: seq<nat>, entries: seq<nat>, v: seq<Slot>, x: Slot)
    requires HistoryIs(arrivals, entries, v)
    requires Holds(x.th.pc) <==> v == []
    ensures HistoryIs(arrivals + [x.id], entries + (if v == [] then [x.id] else []), v + [x])
  {
  }

  lemma JoinedSlots(st: State, t: nat, pc: Pc)
    requires NodesDiffer(st) && QueueMatches(st) && Cleared(st) && t < |st.threads|
    requires st.threads[t].pc.Swap? || st.threads[t].pc.TryCas?
    requires NodesDiffer(Joined(st, t, pc)) && QueueMatches(Joined(st, t, pc))
    ensures Slots(Joined(st, t, pc)) == Slots(st) + [Slot(t, Joined(st, t, pc).threads[t], st.nodes[st.threads[t].me])]
  {
    assert t !in st.queue;
  }

  /** The state after `t` has put itself at the tail. */
  function Joined(st: State, t: nat, pc: Pc): State
    requires t < |st.threads|
  {
    var th := st.threads[t];
    Arrive(st, t, pc.Inside?).(
      tail := At(th.me),
      threads := st.threads[t := Thread(pc, th.me, if pc.Mark? && st.tail.At? then st.tail.node else th.other)])
  }

  lemma ArriveShape(st: State, t: nat, pc: Pc)
    requires NodesDiffer(st) && QueueMatches(st) && Cleared(st) && t < |st.threads|
    requires st.threads[t].pc.Swap? || st.threads[t].pc.TryCas?
    requires Queued(pc)
    ensures NodesDiffer(Joined(st, t, pc)) && QueueMatches(Joined(st, t, pc)) && Cleared(Joined(st, t, pc))
  {
    var st' := Joined(st, t, pc);
    assert NodesDiffer(st');
    assert t !in st.queue;
    assert st'.queue[|st.queue|] == t;
    forall u | 0 <= u < |st'.threads| && Queued(st'.threads[u].pc)
      ensures u in st'.queue
    {
    }
  }

  lemma ArriveChain(v: seq<Slot>, x: Slot)
    requires Chain(v) && x.node.next == Nil
    requires v == [] ==> x.th.pc.Inside?
    requires v != [] ==> x.th.pc.Mark? && x.th.other == v[|v| - 1].th.me
    ensures Chain(v + [x])
  {
    var w := v + [x];
    forall k | 0 <= k < |w|
      ensures NextAt(w, k) && (k > 0 ==> WaitsAt(w, k))
    {
      if k < |v| {
        assert NextAt(v, k) && (k > 0 ==> WaitsAt(v, k));
      }
    }
  }

  /** The holder leaves: as the last one, or after it has signalled the one behind. */
  function Departed(st: State, t: nat, tail: Ptr, nodes: seq<Node>): State
    requires t < |st.threads|
  {
    Goto(Depart(st.(tail := tail, nodes := nodes)), t, Idle)
  }

  lemma StaysQueued(st: State, t: nat, tail: Ptr, nodes: seq<Node>, u: nat)
    requires NodesDiffer(st) && QueueMatches(st) && t < |st.threads| && st.queue != [] && st.queue[0] == t
    requires u < |st.threads| && Queued(Departed(st, t, tail, nodes).threads[u].pc)
    ensures u in Departed(st, t, tail, nodes).queue
  {
    hide NodesDiffer, QueueMatches, Slots;
    var k := Find(st, u);
    assert u != t;
    assert st.queue[1..][k - 1] == u;
  }

  lemma DepartQueue(st: State, t: nat, tail: Ptr, nodes: seq<Node>)
    requires NodesDiffer(st) && QueueMatches(st) && t < |st.threads| && st.queue != [] && st.queue[0] == t
    ensures QueueMatches(Departed(st, t, tail, nodes))
  {
    var st' := Departed(st, t, tail, nodes);
    forall u | 0 <= u < |st'.threads| && Queued(st'.threads[u].pc)
      ensures u in st'.queue
    {
      StaysQueued(st, t, tail, nodes, u);
    }
  }

  /** At most the node of the second in the queue changes. */
  ghost predicate OnlySecond(st: State, nodes: seq<Node>) {
    && |nodes| == |st.nodes|
    && forall u :: 0 <= u < |st.threads| && !st.threads[u].pc.Idle? && !(|st.queue| > 1 && u == st.queue[1]) ==>
         st.threads[u].me < |nodes| && nodes[st.threads[u].me] == st.nodes[st.threads[u].me]
  }

  lemma DepartNodes(st: State, t: nat, tail: Ptr, nodes: seq<Node>)
    requires NodesDiffer(st) && QueueMatches(st) && Cleared(st) && t < |st.threads| && OnlySecond(st, nodes)
    ensures NodesDiffer(Departed(st, t, tail, nodes)) && Cleared(Departed(st, t, tail, nodes))
  {
    var st' := Departed(st, t, tail, nodes);
    assert NodesDiffer(st') by { hide QueueMatches, Cleared, OnlySecond; assert |nodes| == |st.nodes|
        by { OnlySecondLength(st, nodes); } }
    DepartCleared(st, t, tail, nodes);
  }

  lemma DepartCleared(st: State, t: nat, tail: Ptr, nodes: seq<Node>)
    requires NodesDiffer(st) && QueueMatches(st) && Cleared(st) && t < |st.threads| && OnlySecond(st, nodes)
    requires NodesDiffer(Departed(st, t, tail, nodes))
    ensures Cleared(Departed(st, t, tail, nodes))
  {
    var st' := Departed(st, t, tail, nodes);
    assert |st.queue| > 1 ==> Queued(st.threads[st.queue[1]].pc);
    hide NodesDiffer, QueueMatches, OnlySecond;
    forall u | 0 <= u < |st'.threads| && (st'.threads[u].pc.Swap? || st'.threads[u].pc.TryCas?)
      ensures st'.nodes[st'.threads[u].me].next == Nil
    {
      assert u != t && st'.threads[u] == st.threads[u];
      UntouchedNode(st, nodes, u);
    }
  }

  lemma UntouchedNode(st: State, nodes: seq<Node>, u: nat)
    requires OnlySecond(st, nodes) && u < |st.threads| && !st.threads[u].pc.Idle?
    requires !(|st.queue| > 1 && u == st.queue[1])
    ensures st.threads[u].me < |nodes| == |st.nodes| && nodes[st.threads[u].me] == st.nodes[st.threads[u].me]
  {
  }

  lemma OnlySecondLength(st: State, nodes: seq<Node>)
    requires OnlySecond(st, nodes)
    ensures |nodes| == |st.nodes|
  {
  }

  /** The slot of a thread that stays in the queue, at place `k`. */
  lemma DepartSlot(st: State, t: nat, tail: Ptr, nodes: seq<Node>, k: nat)
    requires NodesDiffer(st) && QueueMatches(st) && t < |st.threads| && OnlySecond(st, nodes)
    requires 0 < k < |st.queue| && st.queue[0] == t
    ensures var u := st.queue[k]; var th := Departed(st, t, tail, nodes).threads[u];
      th == st.threads[u] && th.me < |nodes| && (k > 1 ==> nodes[th.me] == st.nodes[th.me])
  {
    assert st.queue[k] != st.queue[0];
    assert k > 1 ==> st.queue[k] != st.queue[1];
  }

  lemma DepartSlots(st: State, t: nat, tail: Ptr, nodes: seq<Node>)
    requires NodesDiffer(st) && QueueMatches(st) && t < |st.threads| && OnlySecond(st, nodes)
    requires st.queue != [] && st.queue[0] == t
    requires NodesDiffer(Departed(st, t, tail, nodes)) && QueueMatches(Departed(st, t, tail, nodes))
    ensures var v, w := Slots(st), Slots(Departed(st, t, tail, nodes));
      && |w| == |v| - 1
      && (forall k :: 1 <= k < |w| ==> w[k] == v[k + 1])
      && (|w| > 0 ==> v[1].th.me < |nodes| && w[0] == v[1].(node := nodes[v[1].th.me]))
  {
    hide QueueMatches, OnlySecond, NodesDiffer;
    forall k | 0 <= k < |st.queue| - 1
      ensures var v, w := Slots(st)[k + 1], Slots(Departed(st, t, tail, nodes))[k];
        v.th.me < |nodes| && w == v.(node := nodes[v.th.me]) && (k > 0 ==> w == v)
    {
      DepartSlot(st, t, tail, nodes, k + 1);
    }
  }

  lemma DepartHistory(arrivals: seq<nat>, entries: seq<nat>, v: seq<Slot>, w: seq<Slot>)
    requires HistoryIs(arrivals, entries, v) && v != [] && Holds(v[0].th.pc)
    requires |w| == |v| - 1 && forall k :: 0 <= k < |w| ==> w[k].id == v[k + 1].id
    requires w != [] ==> !Holds(w[0].th.pc)
    ensures HistoryIs(arrivals, entries, w)
  {
  }

  /** The last one leaves; the lock is free. */
  lemma LastLeavesInv(st: State, t: nat)
    requires Inv(st) && Enabled(st, Step(t)) && st.threads[t].pc.CasTail? && st.tail == At(st.threads[t].me)
    ensures Inv(Advance(st, t))
  {
    HolderIsFirst(st, t);
    var v := Slots(st);
    assert |v| == 1 by { assert v[|v| - 1].th.me == v[0].th.me; }
    DepartQueue(st, t, Nil, st.nodes);
    DepartNodes(st, t, Nil, st.nodes);
    DepartSlots(st, t, Nil, st.nodes);
    DepartHistory(st.arrivals, st.entries, v, Slots(Departed(st, t, Nil, st.nodes)));
    assert Advance(st, t) == Departed(st, t, Nil, st.nodes);
  }

  function Signalled(st: State, m: nat): seq<Node>
    requires m < |st.nodes|
  {
    st.nodes[m := st.nodes[m].(blocked := false)]
  }

  /** The holder hands the lock to the one behind it and leaves. */
  lemma SignalInv(st: State, t: nat)
    requires Inv(st) && Enabled(st, Step(t)) && st.threads[t].pc.Signal?
    ensures Inv(Advance(st, t))
  {
    HolderIsFirst(st, t);
    var v, m := Slots(st), st.threads[t].other;
    assert |v| > 1 && v[1].th.me == m;
    var st' := Departed(st, t, st.tail, Signalled(st, m));
    assert Advance(st, t) == st';
    hide NodesDiffer, QueueMatches, Cleared, Slots, Advance, Chain, TailIs, HistoryIs;
    SignalShape(st, t, m);
    var w := Slots(st');
    SignalChain(v, w);
    SignalHistory(st.tail, st.arrivals, st.entries, v, w);
  }

  lemma SignalHistory(tail: Ptr, arrivals: seq<nat>, entries: seq<nat>, v: seq<Slot>, w: seq<Slot>)
    requires Chain(v) && TailIs(tail, v) && HistoryIs(arrivals, entries, v) && |v| > 1 && Holds(v[0].th.pc)
    requires |w| == |v| - 1 && forall k :: 0 <= k < |w| ==> w[k].id == v[k + 1].id && w[k].th == v[k + 1].th
    ensures TailIs(tail, w) && HistoryIs(arrivals, entries, w)
  {
    assert WaitsAt(v, 1);
    DepartHistory(arrivals, entries, v, w);
  }

  lemma SignalShape(st: State, t: nat, m: nat)
    requires NodesDiffer(st) && QueueMatches(st) && Cleared(st) && t < |st.threads| && m < |st.nodes|
    requires |st.queue| > 1 && st.queue[0] == t && Slots(st)[1].th.me == m
    ensures var v, st' := Slots(st), Departed(st, t, st.tail, Signalled(st, m));
      && NodesDiffer(st') && QueueMatches(st') && Cleared(st')
      && |Slots(st')| == |v| - 1
      && (forall k :: 1 <= k < |v| - 1 ==> Slots(st')[k] == v[k + 1])
      && Slots(st')[0] == v[1].(node := v[1].node.(blocked := false))
  {
    SignalOnlySecond(st, m);
    DepartQueue(st, t, st.tail, Signalled(st, m));
    DepartNodes(st, t, st.tail, Signalled(st, m));
    DepartSlots(st, t, st.tail, Signalled(st, m));
  }

  lemma SignalOnlySecond(st: State, m: nat)
    requires NodesDiffer(st) && QueueMatches(st) && |st.queue| > 1 && m < |st.nodes|
    requires m == st.threads[st.queue[1]].me
    ensures OnlySecond(st, Signalled(st, m))
  {
    assert Queued(st.threads[st.queue[1]].pc);
  }

  lemma SignalChain(v: seq<Slot>, w: seq<Slot>)
    requires Chain(v) && |v| > 1 && v[0].th.pc.Signal?
    requires |w| == |v| - 1
    requires forall k :: 1 <= k < |w| ==> w[k] == v[k + 1]
    requires w[0] == v[1].(node := v[1].node.(blocked := false))
    ensures Chain(w)
  {
    forall k | 0 <= k < |w|
      ensures NextAt(w, k) && (k > 0 ==> WaitsAt(w, k))
    {
      assert NextAt(v, k + 1) && WaitsAt(v, k + 1);
    }
  }

  lemma StepInv(st: State, a: Action)
    requires Inv(st) && Enabled(st, a)
    ensures Inv(Apply(st, a))
  {
    hide Inv;
    match a
    case BeginLock(t, m) => BeginInv(st, t, m, Init);
    case BeginTryLock(t, m) => BeginInv(st, t, m, TryInit);
    case BeginUnlock(t) => HolderInv(st, t, st.threads[t].(pc := ReadNext));
    case Scribble(m, n) => ScribbleInv(st, m, n);
    case Step(t) =>
      match st.threads[t].pc
      case Init => ClearInv(st, t);
      case TryInit => ClearInv(st, t);
      case Swap => ArriveInv(st, t, if st.tail.Nil? then Inside else Mark);
      case TryCas => if st.tail.Nil? { ArriveInv(st, t, Inside); } else { ClearInv(st, t); }
      case Mark => MarkInv(st, t);
      case Link => LinkInv(st, t);
      case Spin => if !st.nodes[st.threads[t].me].blocked { SpinInv(st, t); }
      case CasTail => if st.tail == At(st.threads[t].me) { LastLeavesInv(st, t); } else { UnlockInv(st, t); }
      case Signal => SignalInv(st, t);
      case _ => UnlockInv(st, t);
  }

  // ---- runs ----

  /** A run: from a free lock, one enabled action after another. */
  ghost predicate IsRun(states: seq<State>, actions: seq<Action>) {
    && |states| == |actions| + 1
    && Start(states[0])
    && forall i :: 0 <= i < |actions| ==>
        Enabled(states[i], actions[i]) && states[i + 1] == Apply(states[i], actions[i])
  }

  lemma {:induction false} RunInv(states: seq<State>, actions: seq<Action>, i: nat)
    requires IsRun(states, actions) && i < |states|
    ensures Inv(states[i])
  {
    if i == 0 {
      var v := Slots(states[0]);
      assert v == [];
    } else {
      RunInv(states, actions, i - 1);
      StepInv(states[i - 1], actions[i - 1]);
    }
  }

  /** At no time do two threads hold the lock. */
  lemma MutualExclusion(states: seq<State>, actions: seq<Action>, i: nat, t: nat, u: nat)
    requires IsRun(states, actions) && i < |states|
    requires t < |states[i].threads| && u < |states[i].threads|
    requires Holds(states[i].threads[t].pc) && Holds(states[i].threads[u].pc)
    ensures t == u
  {
    RunInv(states, actions, i);
    HolderIsFirst(states[i], t);
    HolderIsFirst(states[i], u);
  }

  /** Every address a step uses exists, so no step of an active thread is ever refused. */
  lemma PointersExist(states: seq<State>, actions: seq<Action>, i: nat, t: nat)
    requires IsRun(states, actions) && i < |states|
    requires t < |states[i].threads| && !states[i].threads[t].pc.Idle?
    ensures Pointers(states[i], t)
  {
    RunInv(states, actions, i);
    PointersInv(states[i], t);
  }

  /** No thread is kept from what it may do: an idle one from beginning an operation with a free node, one inside from
      beginning an unlock, any other from its next step. */
  lemma NothingIsRefused(states: seq<State>, actions: seq<Action>, i: nat, t: nat, m: nat)
    requires IsRun(states, actions) && i < |states| && t < |states[i].threads|
    ensures states[i].threads[t].pc.Idle? && Free(states[i], m) ==>
      Enabled(states[i], BeginLock(t, m)) && Enabled(states[i], BeginTryLock(t, m))
    ensures states[i].threads[t].pc.Inside? ==> Enabled(states[i], BeginUnlock(t))
    ensures !Returned(states[i], t) ==> Enabled(states[i], Step(t))
  {
    if !states[i].threads[t].pc.Idle? {
      PointersExist(states, actions, i, t);
    }
  }

  lemma PointersInv(st: State, t: nat)
    requires Inv(st) && t < |st.threads| && !st.threads[t].pc.Idle?
    ensures Pointers(st, t)
  {
    if st.threads[t].pc.Link? || st.threads[t].pc.Signal? {
      var p := Find(st, t);
      var v := Slots(st);
      assert p > 0 ==> WaitsAt(v, p);
    }
  }

  // ---- fairness ----

  /** The threads that put themselves at the tail, in order: read off the steps alone. */
  ghost function TailOrder(states: seq<State>, actions: seq<Action>): seq<nat>
    requires IsRun(states, actions)
    decreases |actions|
  {
    var n := |actions|;
    if n == 0 then []
    else TailOrder(states[..n], actions[..n - 1]) + if Takes(states[n - 1], actions[n - 1])
        then [actions[n - 1].thread] else []
  }

  /** A tail exchange, or a successful tail CAS in `mcsTryLock`. */
  predicate Takes(st: State, a: Action)
    requires Enabled(st, a)
  {
    a.Step? && (st.threads[a.thread].pc.Swap? || (st.threads[a.thread].pc.TryCas? && st.tail.Nil?))
  }

  /** The threads that came into the critical section, in order: read off the steps alone. */
  ghost function EntryOrder(states: seq<State>, actions: seq<Action>): seq<nat>
    requires IsRun(states, actions)
    decreases |actions|
  {
    var n := |actions|;
    if n == 0 then []
    else EntryOrder(states[..n], actions[..n - 1]) + if Enters(states[n - 1], actions[n - 1])
        then [actions[n - 1].thread] else []
  }

  predicate Enters(st: State, a: Action)
    requires Enabled(st, a)
  {
    a.Step? && Apply(st, a).threads[a.thread].pc.Inside?
  }

  lemma StepHistory(st: State, a: Action)
    requires Enabled(st, a)
    ensures Apply(st, a).arrivals == st.arrivals + if Takes(st, a) then [a.thread] else []
    ensures Apply(st, a).entries == st.entries + if Enters(st, a) then [a.thread] else []
  {
  }

  lemma {:induction false} HistoryIsRun(states: seq<State>, actions: seq<Action>)
    requires IsRun(states, actions)
    ensures states[|actions|].arrivals == TailOrder(states, actions)
    ensures states[|actions|].entries == EntryOrder(states, actions)
    decreases |actions|
  {
    var n := |actions|;
    if n > 0 {
      HistoryIsRun(states[..n], actions[..n - 1]);
      StepHistory(states[n - 1], actions[n - 1]);
    }
  }

  /** First come, first served: the critical sections are entered in the order of the successful tail operations, and
      those still missing are exactly the queued threads that do not yet hold the lock. */
  lemma Fairness(states: seq<State>, actions: seq<Action>)
    requires IsRun(states, actions)
    ensures EntryOrder(states, actions) <= TailOrder(states, actions)
    ensures var st, missing := states[|actions|], TailOrder(states, actions)[|EntryOrder(states, actions)|..];
      forall t :: 0 <= t < |st.threads| ==> (t in missing <==> Queued(st.threads[t].pc) && !Holds(st.threads[t].pc))
  {
    var st := states[|actions|];
    HistoryIsRun(states, actions);
    RunInv(states, actions, |actions|);
    Missing(st);
  }

  lemma Missing(st: State)
    requires Inv(st)
    ensures st.entries <= st.arrivals
    ensures forall t :: 0 <= t < |st.threads| ==>
      (t in st.arrivals[|st.entries|..] <==> Queued(st.threads[t].pc) && !Holds(st.threads[t].pc))
  {
    MissingAreLast(st.arrivals, st.entries, Slots(st), st.queue);
    hide NodesDiffer, QueueMatches, Cleared, Slots, Chain, HistoryIs, TailIs;
    forall t | 0 <= t < |st.threads|
      ensures t in st.arrivals[|st.entries|..] <==> Queued(st.threads[t].pc) && !Holds(st.threads[t].pc)
    {
      MissingWait(st, t);
    }
  }

  lemma MissingAreLast(arrivals: seq<nat>, entries: seq<nat>, v: seq<Slot>, queue: seq<nat>)
    requires HistoryIs(arrivals, entries, v) && |queue| == |v| && forall k :: 0 <= k < |v| ==> v[k].id == queue[k]
    ensures entries <= arrivals
    ensures arrivals[|entries|..] == queue[if v != [] && Holds(v[0].th.pc) then 1 else 0..]
  {
  }

  lemma MissingWait(st: State, t: nat)
    requires Inv(st) && t < |st.threads|
    ensures var v := Slots(st);
      t in st.queue[if v != [] && Holds(v[0].th.pc) then 1 else 0..]
      <==> Queued(st.threads[t].pc) && !Holds(st.threads[t].pc)
  {
    var v := Slots(st);
    var first := if v != [] && Holds(v[0].th.pc) then 1 else 0;
    if Holds(st.threads[t].pc) {
      HolderIsFirst(st, t);
    } else if Queued(st.threads[t].pc) {
      var p := Find(st, t);
      hide Inv;
      assert st.queue[first..][p - first] == t;
    } else {
      hide Inv;
    }
  }

  // ---- how the operations end ----

  /** The thread is not inside an operation. */
  predicate Returned(st: State, t: nat)
    requires t < |st.threads|
  {
    st.threads[t].pc.Idle? || st.threads[t].pc.Inside?
  }

  /** In the states from `i` on and before `j` the thread is inside the operation that action `i` begins, and in state
      `j` it is not. */
  ghost predicate Lasts(states: seq<State>, actions: seq<Action>, i: nat, j: nat, t: nat)
    requires IsRun(states, actions) && i < j < |states|
  {
    && (forall k :: i < k <= j ==> t < |states[k].threads|)
    && (forall k :: i < k < j ==> !Returned(states[k], t))
    && Returned(states[j], t)
  }

  lemma ThreadAfter(st: State, a: Action, t: nat)
    requires Enabled(st, a) && t < |st.threads|
    ensures |Apply(st, a).threads| == |st.threads|
    ensures a.Scribble? || a.thread != t ==> Apply(st, a).threads[t] == st.threads[t]
    ensures Apply(st, a).threads[t].me == st.threads[t].me || a.BeginLock? || a.BeginTryLock?
    ensures a.BeginLock? || a.BeginTryLock? ==> a.thread < |st.threads| && Returned(st, a.thread)
    ensures a.BeginUnlock? ==> a.thread < |st.threads| && Returned(st, a.thread)
  {
  }

  /** While `mcsLock` has not returned, the thread is on its way into the lock. */
  predicate Acquiring(pc: Pc) { pc.Init? || pc.Swap? || pc.Mark? || pc.Link? || pc.Spin? }

  predicate Trying(pc: Pc) { pc.TryInit? || pc.TryCas? }

  lemma StaysAcquiring(st: State, a: Action, t: nat)
    requires Enabled(st, a) && t < |st.threads|
    requires Acquiring(st.threads[t].pc)
    ensures t < |Apply(st, a).threads| && Apply(st, a).threads[t].me == st.threads[t].me
    ensures var pc := Apply(st, a).threads[t].pc;
      Acquiring(pc) || (pc.Inside? && Enters(st, a) && a.thread == t)
  {
    ThreadAfter(st, a, t);
  }

  lemma {:induction false} LockLasts(states: seq<State>, actions: seq<Action>, i: nat, k: nat, t: nat, m: nat)
    requires IsRun(states, actions) && i < k < |states| && actions[i] == BeginLock(t, m)
    requires forall n :: i < n < k ==> t < |states[n].threads| && !Returned(states[n], t)
    ensures t < |states[k].threads| && states[k].threads[t].me == m
    ensures Acquiring(states[k].threads[t].pc) || (states[k].threads[t].pc.Inside? && k > i + 1 &&
        Enters(states[k - 1], actions[k - 1]) && actions[k - 1].thread == t)
    decreases k
  {
    var st, a := states[k - 1], actions[k - 1];
    assert Enabled(st, a) && states[k] == Apply(st, a);
    if k > i + 1 {
      hide Enters, Apply, Enabled;
      LockLasts(states, actions, i, k - 1, t, m);
      StaysAcquiring(st, a, t);
    }
  }

  /** `mcsLock` returns only with the lock: its thread is inside, with the node it was given, and has just been added to
      the order of entries. */
  lemma LockReturnsInside(states: seq<State>, actions: seq<Action>, i: nat, j: nat, t: nat, m: nat)
    requires IsRun(states, actions) && i < j < |states| && actions[i] == BeginLock(t, m)
    requires Lasts(states, actions, i, j, t)
    ensures states[j].threads[t].pc.Inside? && states[j].threads[t].me == m
    ensures EntryOrder(states[..j + 1], actions[..j]) == EntryOrder(states[..j], actions[..j - 1]) + [t]
  {
    LockLasts(states, actions, i, j, t, m);
    hide Enters, Takes, Apply, Enabled, EntryOrder, TailOrder;
    OrdersGrow(states, actions, j);
  }

  lemma OrdersGrow(states: seq<State>, actions: seq<Action>, j: nat)
    requires IsRun(states, actions) && 0 < j < |states|
    ensures IsRun(states[..j + 1], actions[..j]) && IsRun(states[..j], actions[..j - 1])
    ensures EntryOrder(states[..j + 1], actions[..j]) == EntryOrder(states[..j], actions[..j - 1]) +
      if Enters(states[j - 1], actions[j - 1]) then [actions[j - 1].thread] else []
    ensures TailOrder(states[..j + 1], actions[..j]) == TailOrder(states[..j], actions[..j - 1]) +
      if Takes(states[j - 1], actions[j - 1]) then [actions[j - 1].thread] else []
  {
    hide Enters, Takes, Apply, Enabled;
    assert states[..j + 1][..j] == states[..j] && actions[..j][..j - 1] == actions[..j - 1];
  }

  /** From the beginning of `mcsLock` to the next moment at which its thread has nothing to do with the lock, the thread
      has entered and has begun an unlock. */
  lemma {:induction false} LockedUntilUnlock(states: seq<State>, actions: seq<Action>, i: nat, j: nat, t: nat, m: nat)
      returns (e: nat, u: nat)
    requires IsRun(states, actions) && i < j < |states| && actions[i] == BeginLock(t, m)
    requires t < |states[j].threads|
    ensures Acquiring(states[j].threads[t].pc) ||
      (i < e < j && actions[e] == Step(t) && Enters(states[e], actions[e]) &&
       (states[j].threads[t].pc.Inside? || (e < u < j && actions[u] == BeginUnlock(t))))
    decreases j
  {
    e, u := 0, 0;
    var st, a := states[j - 1], actions[j - 1];
    assert Enabled(st, a) && states[j] == Apply(st, a);
    ThreadAfter(st, a, t);
    if j > i + 1 {
      e, u := LockedUntilUnlock(states, actions, i, j - 1, t, m);
      if Acquiring(st.threads[t].pc) {
        StaysAcquiring(st, a, t);
        e := j - 1;
      } else if st.threads[t].pc.Inside? && a == BeginUnlock(t) {
        if !(e < u < j - 1 && actions[u] == BeginUnlock(t)) {
          u := j - 1;
        }
      }
    }
  }

  /** So, in terms of actions: an idle thread that has begun an `mcsLock` has entered and begun an unlock since. */
  lemma LockThenUnlock(states: seq<State>, actions: seq<Action>, i: nat, j: nat, t: nat, m: nat)
    requires IsRun(states, actions) && i < j < |states| && actions[i] == BeginLock(t, m)
    requires t < |states[j].threads| && states[j].threads[t].pc.Idle?
    ensures exists e, u ::
      (i < e < u < j && actions[e] == Step(t) && Enters(states[e], actions[e]) && actions[u] == BeginUnlock(t))
  {
    var e, u := LockedUntilUnlock(states, actions, i, j, t, m);
  }

  /** The steps of the thread among the actions from `i` on and before `j`. */
  function OwnSteps(actions: seq<Action>, i: nat, j: nat, t: nat): nat
    requires i <= j <= |actions|
    decreases j
  {
    if i == j then 0 else OwnSteps(actions, i, j - 1, t) + if actions[j - 1] == Step(t) then 1 else 0
  }

  lemma {:induction false} TryLasts(states: seq<State>, actions: seq<Action>, i: nat, k: nat, t: nat, m: nat)
    requires IsRun(states, actions) && i < k < |states| && actions[i] == BeginTryLock(t, m)
    requires forall n :: i < n < k ==> t < |states[n].threads| && !Returned(states[n], t)
    ensures t < |states[k].threads| && states[k].threads[t].me == m
    ensures match states[k].threads[t].pc
      case TryInit => OwnSteps(actions, i, k, t) == 0
      case TryCas => OwnSteps(actions, i, k, t) == 1
      case _ => OwnSteps(actions, i, k, t) == 2 && actions[k - 1] == Step(t) && states[k - 1].threads[t].pc.TryCas?
    decreases k
  {
    var st, a := states[k - 1], actions[k - 1];
    assert Enabled(st, a) && states[k] == Apply(st, a);
    if k > i + 1 {
      TryLasts(states, actions, i, k - 1, t, m);
      ThreadAfter(st, a, t);
    } else {
      assert OwnSteps(actions, i, i, t) == 0;
    }
  }

  /** `mcsTryLock` makes two steps, whatever the other threads do, and returns with the lock exactly if the queue was
      empty at the second; otherwise it has not even been in the queue. */
  lemma TryLockExactly(states: seq<State>, actions: seq<Action>, i: nat, j: nat, t: nat, m: nat)
    requires IsRun(states, actions) && i < j < |states| && actions[i] == BeginTryLock(t, m)
    requires Lasts(states, actions, i, j, t)
    ensures OwnSteps(actions, i, j, t) == 2 && actions[j - 1] == Step(t)
    ensures states[j].threads[t].pc.Inside? <==> states[j - 1].tail == Nil
    ensures var won := if states[j - 1].tail == Nil then [t] else [];
      && EntryOrder(states[..j + 1], actions[..j]) == EntryOrder(states[..j], actions[..j - 1]) + won
      && TailOrder(states[..j + 1], actions[..j]) == TailOrder(states[..j], actions[..j - 1]) + won
    ensures states[j].threads[t].pc.Inside? ==> states[j].tail == At(m)
  {
    hide Enters, Takes, Apply, Enabled, EntryOrder, TailOrder;
    TryLasts(states, actions, i, j, t, m);
    TryCasStep(states[j - 1], t);
    OrdersGrow(states, actions, j);
  }

  lemma TryCasStep(st: State, t: nat)
    requires Enabled(st, Step(t)) && st.threads[t].pc.TryCas?
    ensures Takes(st, Step(t)) <==> st.tail == Nil
    ensures Enters(st, Step(t)) <==> st.tail == Nil
    ensures Apply(st, Step(t)).threads[t].pc == if st.tail == Nil then Inside else Idle
    ensures st.tail == Nil ==> Apply(st, Step(t)).tail == At(st.threads[t].me)
    ensures Apply(st, Step(t)).threads[t].me == st.threads[t].me
  {
  }

  /** `mcsUnlock` returns only once the lock is given up. */
  lemma {:induction false} UnlockReturnsOutside(states: seq<State>, actions: seq<Action>, i: nat, k: nat, t: nat)
    requires IsRun(states, actions) && i < k < |states| && actions[i] == BeginUnlock(t)
    requires forall n :: i < n < k ==> t < |states[n].threads| && !Returned(states[n], t)
    ensures t < |states[k].threads| && (Unlocking(states[k].threads[t].pc) || states[k].threads[t].pc.Idle?)
    decreases k
  {
    var st, a := states[k - 1], actions[k - 1];
    assert Enabled(st, a) && states[k] == Apply(st, a);
    if k > i + 1 {
      UnlockReturnsOutside(states, actions, i, k - 1, t);
      ThreadAfter(st, a, t);
    }
  }

  // ---- node lifetime ----

  /** The next step of the thread reads or writes the node. */
  predicate Touches(st: State, t: nat, m: nat)
    requires t < |st.threads|
  {
    var th := st.threads[t];
    !th.pc.Idle? && (th.me == m || ((th.pc.Link? || th.pc.Signal?) && th.other == m))
  }

  /** The address of the node is kept in the lock, in a local variable still in use, or in the node of an active
      thread. */
  ghost predicate Known(st: State, m: nat) {
    || st.tail == At(m)
    || (exists t :: 0 <= t < |st.threads| && UsesOther(st.threads[t].pc) && st.threads[t].other == m)
    || (exists t :: 0 <= t < |st.threads| && Queued(st.threads[t].pc) && NextIs(st, st.threads[t].me, m))
  }

  predicate UsesOther(pc: Pc) {
    pc.Mark? || pc.Link? || pc.Signal?
  }

  predicate NextIs(st: State, m: nat, next: nat) {
    m < |st.nodes| && st.nodes[m].next == At(next)
  }

  /** Nobody knows the address of a free node, so nobody is about to touch it. */
  lemma FreeNodeIsUnknown(st: State, t: nat, m: nat)
    requires Inv(st) && Free(st, m) && t < |st.threads|
    ensures !Touches(st, t, m) && !Known(st, m)
  {
    hide Inv, Chain, TailIs, HistoryIs, Cleared;
    TailKnown(st, m);
    forall u | 0 <= u < |st.threads| && Queued(st.threads[u].pc)
      ensures st.threads[u].me < |st.nodes| && st.nodes[st.threads[u].me].next != At(m)
      ensures st.threads[u].pc.Mark? || st.threads[u].pc.Link? || st.threads[u].pc.Signal? ==> st.threads[u].other != m
    {
      PointersKnown(st, u, m);
    }
  }

  lemma TailKnown(st: State, m: nat)
    requires Inv(st) && Free(st, m)
    ensures st.tail != At(m)
  {
    hide Chain, HistoryIs, Cleared;
    var v := Slots(st);
    assert v != [] ==> Queued(st.threads[st.queue[|v| - 1]].pc);
  }

  lemma PointersKnown(st: State, u: nat, m: nat)
    requires Inv(st) && Free(st, m) && u < |st.threads| && Queued(st.threads[u].pc)
    ensures st.threads[u].me < |st.nodes| && st.nodes[st.threads[u].me].next != At(m)
    ensures st.threads[u].pc.Mark? || st.threads[u].pc.Link? || st.threads[u].pc.Signal? ==> st.threads[u].other != m
  {
    hide HistoryIs, Cleared, TailIs;
    var v := Slots(st);
    forall k | 0 <= k < |v|
      ensures v[k].th.me != m
    {
      assert Queued(st.threads[st.queue[k]].pc);
    }
    var p := Find(st, u);
    hide NodesDiffer, QueueMatches, Slots, Free;
    assert NextAt(v, p) && (p > 0 ==> WaitsAt(v, p));
  }

  /** The action gives the node a new use. */
  predicate Uses(a: Action, m: nat) {
    (a.BeginLock? || a.BeginTryLock? || a.Scribble?) && a.node == m
  }

  /** From the moment `mcsUnlock` returns, or `mcsTryLock` fails, the node stays as it is until its owner uses it
      again. */
  lemma {:induction false} ReleasedNodeIsLeftAlone(states: seq<State>, actions: seq<Action>, i: nat, j: nat, m: nat)
    requires IsRun(states, actions) && i <= j < |states|
    requires Free(states[i], m)
    requires forall k :: i <= k < j ==> !Uses(actions[k], m)
    ensures Free(states[j], m) && states[j].nodes[m] == states[i].nodes[m]
    decreases j
  {
    hide Inv, Enabled, Apply;
    if i < j {
      ReleasedNodeIsLeftAlone(states, actions, i, j - 1, m);
      RunInv(states, actions, j - 1);
      FreeStays(states[j - 1], actions[j - 1], m);
    }
  }

  lemma FreeStays(st: State, a: Action, m: nat)
    requires Inv(st) && Enabled(st, a) && Free(st, m) && !Uses(a, m)
    ensures Free(Apply(st, a), m) && Apply(st, a).nodes[m] == st.nodes[m]
  {
    hide Inv, Advance;
    if a.Step? {
      FreeNodeIsUnknown(st, a.thread, m);
      StepFrame(st, a.thread);
    }
  }

  /** A step changes its own thread, the nodes it touches, and the queue at one end. */
  lemma StepFrame(st: State, t: nat)
    requires Enabled(st, Step(t))
    ensures var st' := Advance(st, t);
      && |st'.threads| == |st.threads| && |st'.nodes| == |st.nodes|
      && (forall u :: 0 <= u < |st.threads| && u != t ==> st'.threads[u] == st.threads[u])
      && st'.threads[t].me == st.threads[t].me
      && (forall m :: 0 <= m < |st.nodes| && !Touches(st, t, m) ==> st'.nodes[m] == st.nodes[m])
      && (|| st'.queue == st.queue
          || (st'.queue == st.queue + [t] && (st'.threads[t].pc.Mark? || st'.threads[t].pc.Inside?))
          || Holds(st.threads[t].pc))
  {
  }

  /** When an operation ends, its node is free. */
  lemma EndFreesNode(st: State, t: nat)
    requires NodesDiffer(st) && Enabled(st, Step(t))
    ensures Advance(st, t).threads[t].pc.Idle? ==> Free(Advance(st, t), st.threads[t].me)
  {
    hide Advance;
    StepFrame(st, t);
  }

  // ---- progress ----

  predicate Unlocking(pc: Pc) {
    pc.ReadNext? || pc.CasTail? || pc.AwaitNext? || pc.Signal?
  }

  /** A step that changes something: not one more turn of a spin loop. */
  predicate Moves(st: State, t: nat) {
    Enabled(st, Step(t)) && Advance(st, t) != st
  }

  /** While `t` unlocks, the thread itself or the one behind it can move: in the window where the tail has moved on
      and `next` is still nil, it is the one behind. */
  lemma UnlockProgress(st: State, t: nat)
    requires Inv(st) && t < |st.threads| && Unlocking(st.threads[t].pc)
    ensures Moves(st, t) || (|st.queue| > 1 && Moves(st, st.queue[1]))
  {
    HolderIsFirst(st, t);
    PointersInv(st, t);
    var v := Slots(st);
    assert NextAt(v, 0);
    if st.threads[t].pc.AwaitNext? && st.nodes[st.threads[t].me].next.Nil? {
      assert WaitsAt(v, 1);
      PointersInv(st, st.queue[1]);
      assert Advance(st, st.queue[1]).threads[st.queue[1]].pc != st.threads[st.queue[1]].pc;
    } else {
      assert Advance(st, t).threads[t].pc != st.threads[t].pc;
    }
  }

  /** No wakeup is lost: with threads in the queue, one of the first two can move, or the lock is held by a thread in
      its critical section. */
  lemma NoLostWakeup(states: seq<State>, actions: seq<Action>, i: nat)
    requires IsRun(states, actions) && i < |states|
    requires states[i].queue != []
    ensures var st := states[i];
      || (st.queue[0] < |st.threads| && st.threads[st.queue[0]].pc.Inside?)
      || Moves(st, st.queue[0])
      || (|st.queue| > 1 && Moves(st, st.queue[1]))
  {
    RunInv(states, actions, i);
    var st, t := states[i], states[i].queue[0];
    assert Slots(st)[0].th == st.threads[t];
    if Unlocking(st.threads[t].pc) {
      UnlockProgress(st, t);
    } else if st.threads[t].pc.Spin? {
      assert Advance(st, t).threads[t].pc != st.threads[t].pc;
    }
  }

  /** A bound on the steps from the start of unlock to the hand-off. */
  ghost function Rank(st: State, t: nat): (n: nat)
    requires QueueMatches(st)
    ensures n <= 7
  {
    if t >= |st.threads| || !Unlocking(st.threads[t].pc) then 0
    else
      (match st.threads[t].pc case ReadNext => 4 case CasTail => 3 case AwaitNext => 2 case _ => 1) +
      (if |st.queue| < 2 then 3 else match st.threads[st.queue[1]].pc case Mark => 2 case Link => 1 case _ => 0)
  }

  /** A move of the unlocking thread or of the one behind it. */
  predicate Helps(st: State, t: nat, a: Action) {
    a.Step? && Moves(st, a.thread) && (a.thread == t || (|st.queue| > 1 && a.thread == st.queue[1]))
  }

  lemma RankStep(st: State, a: Action, t: nat)
    requires Inv(st) && Enabled(st, a) && t < |st.threads| && Unlocking(st.threads[t].pc)
    ensures Inv(Apply(st, a))
    ensures Rank(Apply(st, a), t) + (if Helps(st, t, a) then 1 else 0) <= Rank(st, t)
  {
    StepInv(st, a);
    HolderIsFirst(st, t);
    if |st.queue| > 1 { SecondWaits(st); }
    if a.Step? {
      if Holds(st.threads[a.thread].pc) { HolderIsFirst(st, a.thread); }
      hide NodesDiffer, Cleared, Chain, Slots, TailIs, HistoryIs;
      RankMove(st, a.thread, t);
    } else {
      hide NodesDiffer, Cleared, Chain, Slots, TailIs, HistoryIs;
      RankSame(st, a, t);
    }
  }

  lemma RankSame(st: State, a: Action, t: nat)
    requires QueueMatches(st) && Enabled(st, a) && !a.Step? && QueueMatches(Apply(st, a))
    requires t < |st.threads| && Unlocking(st.threads[t].pc)
    ensures Rank(Apply(st, a), t) == Rank(st, t)
  {
    assert |st.queue| > 1 ==> Queued(st.threads[st.queue[1]].pc);
    assert Apply(st, a).queue == st.queue;
    hide QueueMatches, Free;
    var st' := Apply(st, a);
    if |st.queue| > 1 && a.BeginUnlock? && a.thread == st.queue[1] {
      assert st.threads[a.thread].pc.Inside? && st'.threads[a.thread].pc.ReadNext?;
    }
  }

  lemma RankMove(st: State, u: nat, t: nat)
    requires QueueMatches(st) && Enabled(st, Step(u)) && QueueMatches(Advance(st, u))
    requires st.queue != [] && st.queue[0] == t && Unlocking(st.threads[t].pc)
    requires Holds(st.threads[u].pc) ==> u == t
    requires |st.queue| > 1 ==> var s := st.queue[1];
      && (st.threads[s].pc.Mark? || st.threads[s].pc.Link? || st.threads[s].pc.Spin?)
      && (st.threads[s].pc.Spin? ==> st.threads[s].me < |st.nodes| && st.nodes[st.threads[s].me].blocked)
    ensures Rank(Advance(st, u), t) + (if Helps(st, t, Step(u)) then 1 else 0) <= Rank(st, t)
  {
    hide Advance;
    StepFrame(st, u);
    if u == t {
      OwnMove(st, t);
    } else if |st.queue| > 1 && u == st.queue[1] {
      SecondMove(st, u);
    }
  }

  lemma SecondWaits(st: State)
    requires Inv(st) && |st.queue| > 1
    ensures var u := st.queue[1];
      && u < |st.threads| && u != st.queue[0]
      && (st.threads[u].pc.Mark? || st.threads[u].pc.Link? || st.threads[u].pc.Spin?)
    ensures var th := st.threads[st.queue[1]];
      th.pc.Spin? ==> th.me < |st.nodes| && st.nodes[th.me].blocked
  {
    assert WaitsAt(Slots(st), 1);
  }

  lemma OwnMove(st: State, t: nat)
    requires Enabled(st, Step(t)) && Unlocking(st.threads[t].pc)
    ensures var st' := Advance(st, t);
      || st'.threads[t].pc.Idle? || st' == st
      || (st'.queue == st.queue && st.threads[t].pc.ReadNext? && st'.threads[t].pc.CasTail?)
      || (st'.queue == st.queue && st.threads[t].pc.CasTail? && st'.threads[t].pc.AwaitNext?)
      || (st'.queue == st.queue && !st.threads[t].pc.Signal? && st'.threads[t].pc.Signal?)
  {
  }

  lemma SecondMove(st: State, u: nat)
    requires Enabled(st, Step(u))
    ensures var st' := Advance(st, u);
      && (st.threads[u].pc.Mark? ==> st'.queue == st.queue && st'.threads[u].pc.Link?)
      && (st.threads[u].pc.Link? ==> st'.queue == st.queue && st'.threads[u].pc.Spin?)
      && (st.threads[u].pc.Spin? && st.nodes[st.threads[u].me].blocked ==> st' == st)
  {
  }

  ghost function Count(states: seq<State>, actions: seq<Action>, t: nat, i: nat, j: nat): nat
    requires IsRun(states, actions) && i <= j < |states|
  {
    if i == j then 0 else Count(states, actions, t, i, j - 1) + if Helps(states[j - 1], t, actions[j - 1]) then 1 else 0
  }

  lemma RunStep(states: seq<State>, actions: seq<Action>, i: nat)
    requires IsRun(states, actions) && i < |actions|
    ensures Enabled(states[i], actions[i]) && states[i + 1] == Apply(states[i], actions[i])
  {
  }

  /** Thread `t` is in `mcsUnlock` all the time from state `i` up to state `j`. */
  ghost predicate Unlocks(states: seq<State>, t: nat, i: nat, j: nat) {
    j < |states| && forall k :: i <= k < j ==> t < |states[k].threads| && Unlocking(states[k].threads[t].pc)
  }

  lemma RankAt(states: seq<State>, actions: seq<Action>, t: nat, k: nat, m: nat)
    requires IsRun(states, actions) && m == k + 1 && m < |states|
    requires t < |states[k].threads| && Unlocking(states[k].threads[t].pc)
    ensures Inv(states[k]) && Inv(states[m])
    ensures Rank(states[m], t) + (if Helps(states[k], t, actions[k]) then 1 else 0) <= Rank(states[k], t)
  {
    assert |states| == |actions| + 1;
    hide Inv, Helps, Rank, Enabled, Apply;
    RunInv(states, actions, k);
    RunStep(states, actions, k);
    hide IsRun;
    RankStep(states[k], actions[k], t);
  }

  /** From the start of an unlock to the hand-off, the unlocking thread and the one behind it make at most seven moves,
      whatever all other threads do. */
  lemma {:induction false} HandOffIsBounded(states: seq<State>, actions: seq<Action>, t: nat, i: nat, j: nat)
    requires IsRun(states, actions) && i <= j && Unlocks(states, t, i, j)
    ensures Inv(states[i]) && Inv(states[j])
    ensures Count(states, actions, t, i, j) + Rank(states[j], t) <= Rank(states[i], t) <= 7
    decreases j
  {
    hide Inv, Helps, Rank, IsRun;
    RunInv(states, actions, i);
    if i < j {
      RankAt(states, actions, t, j - 1, j);
      HandOffIsBounded(states, actions, t, i, j - 1);
    }
  }

  /** As long as an unlock lasts one of the two can move: with the bound above, the hand-off happens if both get to
      make their moves. */
  lemma UnlockNeverStalls(states: seq<State>, actions: seq<Action>, i: nat, t: nat)
    requires IsRun(states, actions) && i < |states|
    requires t < |states[i].threads| && Unlocking(states[i].threads[t].pc)
    ensures var st := states[i];
      Moves(st, t) || (|st.queue| > 1 && Moves(st, st.queue[1]))
  {
    RunInv(states, actions, i);
    UnlockProgress(states[i], t);
  }
}
