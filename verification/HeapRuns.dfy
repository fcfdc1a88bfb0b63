/**
 Fork-join runs carried out on the heap: the callbacks make their labels with the operations on shared segments, and in
 the end every task, and every access recorded on the way, has the label that the transition system says.
 */
module HeapRuns {
  import opened Labels
  import opened ForkJoin
  import opened Exactness
  import opened LabelHeap

  /** The implicit task begins: its label is made from that of the encountering task. */
  method ImplicitTaskBegin(parent: LabelObject, index: nat, parallelism: nat, ghost q: Label) returns (r: LabelObject)
    requires Means(parent, q) && index < parallelism < FIELD_LIMIT
    ensures fresh(r) && Means(r, ImpTaskLabel(q, index, parallelism))
  {
    hide LabelObject.Content, LabelObject.Valid;
    var o := GenImpTaskLabel(parent, index, parallelism);
    return o.lbl;
  }

  method BarrierEnds(l: LabelObject, ghost q: Label) returns (r: LabelObject)
    requires Means(l, q) && |q| >= 2
    ensures fresh(r) && Means(r, PastBarrier(q, Bits16))
  {
    hide LabelObject.Content, LabelObject.Valid;
    var o := MutateBarrierEnd(l);
    return o.lbl;
  }

  /** The master's implicit task ends, after its last barrier: the label of the encountering task is made from its. */
  method ImplicitTaskEnd(master: LabelObject, ghost q: Label) returns (r: LabelObject)
    requires Means(master, q) && |q| >= 2
    ensures fresh(r) && Means(r, ParentImpEnd(PastBarrier(q, Bits16)))
  {
    hide LabelObject.Content, LabelObject.Valid, PastBarrier;
    var b := BarrierEnds(master, q);
    var o := MutateParentImpEnd(b);
    return o.lbl;
  }

  method EmptyLabels(n: nat) returns (labels: seq<LabelObject>)
    ensures |labels| == n && forall i :: 0 <= i < n ==> fresh(labels[i]) && Means(labels[i], [])
  {
    labels := [];
    for i := 0 to n
      invariant |labels| == i && forall k :: 0 <= k < i ==> fresh(labels[k]) && Means(labels[k], [])
    {
      var l := new LabelObject([]);
      assert Contents(l.segments) == [];
      labels := labels + [l];
    }
  }

  /** One action. Of the state the callbacks are told which task and encountering task they are for, the index and the
      team size, but no label; a task not yet started has an empty one. */
  method OneAction<A>(labels: seq<LabelObject>, st: State<A>, a: Action<A>) returns (r: seq<LabelObject>)
    requires st.width.Bits16? && Shape(st) && Enabled(st, a)
    requires |labels| == |st.tasks| && forall t :: 0 <= t < |labels| ==> Means(labels[t], st.tasks[t].lbl)
    ensures var tasks := Apply(st, a).tasks;
      |r| == |tasks| && forall t :: 0 <= t < |r| ==> Means(r[t], tasks[t].lbl)
  {
    hide Means, ImpTaskLabel, PastBarrier, ParentImpEnd;
    match a
    case Fork(t, n) =>
      var more := EmptyLabels(n);
      r := labels + more;
    case Start(t) =>
      var home := st.tasks[t].home;
      var p := ParentOf(st, t);
      var l := ImplicitTaskBegin(labels[p], home.index, st.teams[home.team].size, st.tasks[p].lbl);
      r := labels[t := l];
    case Leave(t) =>
      var l := BarrierEnds(labels[t], st.tasks[t].lbl);
      r := labels[t := l];
    case Join(team) =>
      var tm := st.teams[team];
      var l := ImplicitTaskEnd(labels[tm.first], st.tasks[tm.first].lbl);
      r := labels[tm.parent := l];
    case _ => r := labels;
  }

  /** A whole run. */
  method RunOnHeap<A>(tr: seq<State<A>>, acts: seq<Action<A>>) returns (labels: seq<LabelObject>,
      recorded: seq<LabelObject>)
    requires IsRun(tr, acts) && tr[0].width.Bits16?
    ensures var st := tr[|acts|];
      && |labels| == |st.tasks|
      && (forall t :: 0 <= t < |labels| ==> Means(labels[t], st.tasks[t].lbl))
      && |recorded| == |st.accesses|
      && (forall i :: 0 <= i < |recorded| ==> Means(recorded[i], st.accesses[i].lbl))
  {
    hide Means;
    var root := GenInitTaskLabel();
    labels, recorded := [root], [];
    for n := 0 to |acts|
      invariant |labels| == |tr[n].tasks|
      invariant forall t :: 0 <= t < |labels| ==> Means(labels[t], tr[n].tasks[t].lbl)
      invariant |recorded| == |tr[n].accesses|
      invariant forall i :: 0 <= i < |recorded| ==> Means(recorded[i], tr[n].accesses[i].lbl)
    {
      hide Apply, Enabled, Shape;
      WidthStays(tr, acts, n);
      RunShape(tr, acts, n);
      AccessesAfter(tr[n], acts[n]);
      if acts[n].Touch? {
        recorded := recorded + [labels[acts[n].task]];
      }
      labels := OneAction(labels, tr[n], acts[n]);
    }
  }

  lemma AccessesAfter<A>(st: State<A>, a: Action<A>)
    requires Enabled(st, a)
    ensures a.Touch? ==>
      && a.task < |st.tasks| && |Apply(st, a).accesses| == |st.accesses| + 1
      && Apply(st, a).accesses[..|st.accesses|] == st.accesses
      && Apply(st, a).accesses[|st.accesses|].lbl == st.tasks[a.task].lbl
    ensures !a.Touch? ==> Apply(st, a).accesses == st.accesses
  {
  }
}
