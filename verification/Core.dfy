/**
 The happens-before test on two task labels: every branch of the decision procedure, for implicit, explicit and
 workshare segments.  A failed internal check or a fatal log ends the program; the verdict `Fatal` stands for it.
 */
module Core {
  import opened Labels

  datatype Verdict = Ordered | Concurrent | Fatal

  function Decide(b: bool): Verdict {
    if b then Ordered else Concurrent
  }

  function ExitRank(phase: nat): nat { phase - phase % 2 }
  function EnterRank(phase: nat): nat { phase + phase % 2 }

  function HappensBefore(hist: Label, cur: Label): Verdict {
    var d := Compare(hist, cur);
    if d < 0 then Decide(d != RIGHT_IS_PREFIX)
    else
      var h, c := hist[d], cur[d];
      if h.span != c.span then Fatal
      else if h.span == 1 then
        if h.kind != c.kind then Fatal
        else
          match h.kind
          case Implicit => if d == 0 then Ordered else SameTask(hist, cur, d)
          case WorkShare =>
            if SingleExecutor(h) && SingleExecutor(c) then SameTask(hist, cur, d)
            else OrderedSection(hist, cur, d)
          case Explicit => SameTask(hist, cur, d)
      else if h.offset != c.offset then
        if h.span == 0 then Fatal               // remainder by zero
        else if h.offset % h.span == c.offset % h.span then
          if h.offset < c.offset then Ordered else Fatal
        else SiblingImpTask(hist, cur, d)
      else SameTask(hist, cur, d)
  }

  predicate SingleExecutor(s: Segment) { s.workShareId / SINGLE_EXEC == 1 }

  /** Descendants of two different members of one team. */
  function SiblingImpTask(hist: Label, cur: Label, d: nat): Verdict
    requires d < |hist| && d < |cur|
  {
    if d == |hist| - 1 || d == |cur| - 1 then Concurrent
    else
      var h, c := hist[d + 1], cur[d + 1];
      if h.kind.WorkShare? && c.kind.WorkShare? then
        if h.marked || c.marked then Concurrent
        else if hist[d].loopCount == cur[d].loopCount then OrderedSection(hist, cur, d + 1)
        else Concurrent
      else Concurrent
  }

  function OrderedSection(hist: Label, cur: Label, start: nat): Verdict
    requires start < |hist| && start < |cur|
  {
    var h, c := hist[start], cur[start];
    if h.marked || c.marked then Concurrent
    else if ExitRank(h.phase) < EnterRank(c.phase) then
      if start == |hist| - 1 then Ordered
      else OrderedDescendants(hist, start, h.phase)
    else Concurrent
  }

  function OrderedDescendants(hist: Label, start: nat, histPhase: nat): Verdict
    requires start + 1 < |hist|
  {
    var next := hist[start + 1];
    match next.kind
    case Implicit => Ordered
    case WorkShare => Fatal
    case Explicit =>
      var s := hist[start];
      // the task group phase is read from the half word that holds the task group id
      if s.groupLevel > 0 && s.phase % 2 == 0 && next.groupSynced && next.groupId <= histPhase then Ordered
      else if s.groupLevel > 0 && s.phase % 2 == 1 then Ordered
      else if next.waited && next.waitPhase <= histPhase then Decide(SyncChain(hist, start + 1))
      else Concurrent
  }

  /** A segment at which the scan of the sync chain ends well: an implicit task, or a task group around an explicit
      one. */
  predicate EndsChain(s: Segment) {
    s.kind.Implicit? || (s.kind.Explicit? && s.groupLevel > 0)
  }

  /** Every explicit segment before the first one that ends the chain is marked by a taskwait. */
  predicate Unbroken(l: Label, start: nat) {
    forall i :: start <= i < |l| && l[i].kind.Explicit? && (forall j :: start <= j <= i ==> !EndsChain(l[j])) ==>
      l[i].waited
  }

  predicate SyncChain(l: Label, start: nat) {
    start + 1 == |l| || Unbroken(l, start)
  }

  method AnalyzeSyncChain(l: Label, startIndex: nat) returns (synced: bool)
    ensures synced <==> startIndex + 1 == |l| || Unbroken(l, startIndex)
  {
    if startIndex + 1 == |l| {
      return true;
    }
    var i := startIndex;
    while i < |l|
      invariant startIndex <= i
      invariant forall j :: startIndex <= j < i && j < |l| ==> !EndsChain(l[j]) && (l[j].kind.Explicit? ==> l[j].waited)
    {
      var seg := l[i];
      if seg.kind == Implicit {
        return true;
      } else if seg.kind == Explicit {
        if seg.groupLevel > 0 {
          return true;
        } else if !seg.waited {
          return false;
        }
      }
      i := i + 1;
    }
    return true;
  }

  function SameTask(hist: Label, cur: Label, d: nat): Verdict
    requires d < |hist| && d < |cur|
  {
    if d == |hist| - 1 then Ordered
    else
      var next := hist[d + 1];
      if d == |cur| - 1 then
        match next.kind
        case Implicit => Fatal
        case Explicit =>
          if cur[d].taskwait < hist[d].taskwait then Fatal
          else if cur[d].taskwait == hist[d].taskwait then Decide(hist[d].groupLevel > 0 && next.groupSynced)
          else Decide(SyncChain(hist, d + 1))
        case WorkShare => Decide(next.marked)
      else
        match (next.kind, cur[d + 1].kind)
        case (Implicit, Implicit) => Fatal
        case (Explicit, Explicit) => NextExplicit(hist, cur, d)
        case (Explicit, WorkShare) => NextExplicit(hist, cur, d)
        case _ => Concurrent
  }

  function NextExplicit(hist: Label, cur: Label, d: nat): Verdict
    requires d + 1 < |hist| && d < |cur|
  {
    if TaskGroupSync(hist[d], cur[d]) then Ordered
    else if hist[d].taskwait == cur[d].taskwait then Concurrent
    else if hist[d].taskwait < cur[d].taskwait then Decide(SyncChain(hist, d + 1))
    else Fatal
  }

  predicate TaskGroupSync(h: Segment, c: Segment) {
    h.groupId < c.groupId && h.groupLevel >= c.groupLevel
  }
}
