/**
 The graph of strands of a fork-join run, and the invariant that ties paths in it to the label order.

 A strand is a stretch of one task between two synchronisation points.  Strands are numbered as they are created;
 the edges into a strand come from the strands it waits for.  A barrier is a strand of its own: the members'
 strands lead into it, and it leads to their next ones, as if the region had joined and forked again.
 */
module Strands {
  import opened Labels
  import opened LabelOrder

  datatype Strand = Strand(lbl: Label, preds: set<nat>)

  type Graph = seq<Strand>

  ghost predicate WellFormed(g: Graph) {
    && (forall v, p :: 0 <= v < |g| && p in g[v].preds ==> p < v)
    && (forall v :: 0 <= v < |g| ==> Plain(g[v].lbl))
  }

  /** There is a path from `u` to `v`, possibly of length zero. */
  ghost predicate Reaches(g: Graph, u: nat, v: nat)
    requires v < |g|
    decreases v
  {
    u == v || exists p :: p in g[v].preds && p < v && Reaches(g, u, p)
  }

  lemma {:induction false} ReachesStable(g: Graph, s: Strand, u: nat, v: nat)
    requires v < |g|
    ensures Reaches(g + [s], u, v) <==> Reaches(g, u, v)
    decreases v
  {
    forall p | p in g[v].preds && p < v
      ensures Reaches(g + [s], u, p) <==> Reaches(g, u, p)
    {
      ReachesStable(g, s, u, p);
    }
  }

  lemma {:induction false} ReachesGoesForward(g: Graph, u: nat, v: nat)
    requires v < |g| && Reaches(g, u, v)
    ensures u <= v
    decreases v
  {
    if u != v {
      var p :| p in g[v].preds && p < v && Reaches(g, u, p);
      ReachesGoesForward(g, u, p);
    }
  }

  /** Labels encode the graph: there is a path exactly when the labels are ordered. */
  ghost predicate Exact(g: Graph) {
    && WellFormed(g)
    && (forall u, v :: 0 <= u < |g| && 0 <= v < |g| ==> (Precedes(g[u].lbl, g[v].lbl) <==> Reaches(g, u, v)))
    && (forall u, v :: 0 <= u < |g| && 0 <= v < |g| ==> SpansAgree(g[u].lbl, g[v].lbl))
  }

  lemma LabelsAreUnique(g: Graph, u: nat, v: nat)
    requires Exact(g) && u < |g| && v < |g|
    requires Precedes(g[u].lbl, g[v].lbl) && Precedes(g[v].lbl, g[u].lbl)
    ensures u == v
  {
    ReachesGoesForward(g, u, v);
    ReachesGoesForward(g, v, u);
  }

  /** Nothing comes after this strand. */
  ghost predicate Last(g: Graph, s: nat) {
    && s < |g|
    && forall u :: 0 <= u < |g| && Precedes(g[s].lbl, g[u].lbl) ==> u == s
  }

  /** What a new strand must satisfy for the labels to stay exact. */
  ghost predicate Fits(g: Graph, s: Strand) {
    && Plain(s.lbl)
    && (forall p :: p in s.preds ==> p < |g|)
    && (forall u :: 0 <= u < |g| ==> !Precedes(s.lbl, g[u].lbl))
    && (forall u :: 0 <= u < |g| ==>
          (Precedes(g[u].lbl, s.lbl) <==> exists p :: p in s.preds && p < |g| && Precedes(g[u].lbl, g[p].lbl)))
    && (forall u :: 0 <= u < |g| ==> SpansAgree(g[u].lbl, s.lbl))
  }

  lemma AddStrand(g: Graph, s: Strand)
    requires Exact(g) && Fits(g, s)
    ensures Exact(g + [s])
    ensures Last(g + [s], |g|)
    ensures forall t :: Last(g, t) && t !in s.preds ==> Last(g + [s], t)
  {
    var h := g + [s];
    hide Reaches, Precedes, SpansAgree, Plain;
    forall u, v | 0 <= u < |h| && 0 <= v < |h|
      ensures Precedes(h[u].lbl, h[v].lbl) <==> Reaches(h, u, v)
      ensures SpansAgree(h[u].lbl, h[v].lbl)
    {
      if v < |g| {
        OldStrand(g, s, u, v);
      } else if u == |g| {
        NewStrand(g, s);
      } else {
        BeforeNewStrand(g, s, u);
      }
    }
  }

  lemma OldStrand(g: Graph, s: Strand, u: nat, v: nat)
    requires Exact(g) && Fits(g, s) && u <= |g| && v < |g|
    ensures var h := g + [s];
      (Precedes(h[u].lbl, h[v].lbl) <==> Reaches(h, u, v)) && SpansAgree(h[u].lbl, h[v].lbl)
  {
    hide Reaches, Precedes, SpansAgree, Plain;
    ReachesStable(g, s, u, v);
    if u == |g| {
      SpansAgreeSym(g[v].lbl, s.lbl);
      if Reaches(g + [s], u, v) {
        ReachesGoesForward(g + [s], u, v);
      }
    }
  }

  lemma NewStrand(g: Graph, s: Strand)
    ensures Precedes(s.lbl, s.lbl) && Reaches(g + [s], |g|, |g|) && SpansAgree(s.lbl, s.lbl)
  {
    CommonIs(s.lbl, s.lbl, |s.lbl|);
  }

  lemma BeforeNewStrand(g: Graph, s: Strand, u: nat)
    requires Exact(g) && Fits(g, s) && u < |g|
    ensures Precedes(g[u].lbl, s.lbl) <==> Reaches(g + [s], u, |g|)
  {
    hide Precedes, SpansAgree, Plain;
    forall p | p in s.preds && p < |g|
      ensures Reaches(g + [s], u, p) <==> Precedes(g[u].lbl, g[p].lbl)
    {
      ReachesStable(g, s, u, p);
    }
  }

  lemma SpansAgreeSym(a: Label, b: Label)
    requires SpansAgree(a, b)
    ensures SpansAgree(b, a)
  {
    CommonIs(b, a, Common(a, b));
  }

  // ---- the front of a team ----

  /** Strand `u` lies below the front `f` of a team of `n`, in the part of member `i`. */
  ghost predicate Below(q: Label, l: Label, n: nat) {
    && |q| < |l|
    && q == l[..|q|]
    && l[|q|].span == n
    && n > 0
  }

  function MemberOf(q: Label, l: Label, n: nat): nat
    requires |q| < |l| && n > 0
  {
    l[|q|].offset % n
  }

  /** All strands after the front `f` belong to members of its team that have entered the current phase. */
  ghost predicate Fronts(g: Graph, f: nat, n: nat, entered: set<nat>) {
    && f < |g|
    && n > 0
    && forall u :: 0 <= u < |g| && u != f && Precedes(g[f].lbl, g[u].lbl) ==>
         Below(g[f].lbl, g[u].lbl, n) && MemberOf(g[f].lbl, g[u].lbl, n) in entered
  }

  /** Label `l` of a member `i`: the front, and a segment of the member. */
  ghost predicate MemberLabel(q: Label, l: Label, n: nat, i: nat) {
    n > 0 && |l| > 0 && exists x: nat :: l == q + [ImplicitSegment(x, n)] && x % n == i
  }

  lemma PrefixLabel(q: Label, l: Label)
    requires |q| <= |l| && q == l[..|q|]
    ensures Precedes(q, l) && Common(q, l) == |q|
  {
    CommonIs(q, l, |q|);
  }

  /** A member enters the phase that the front opens. */
  lemma EnterFits(g: Graph, f: nat, n: nat, entered: set<nat>, l: Label, i: nat)
    requires Exact(g) && Fronts(g, f, n, entered)
    requires MemberLabel(g[f].lbl, l, n, i) && i !in entered
    ensures Fits(g, Strand(l, {f}))
  {
    var q := g[f].lbl;
    assert q == l[..|q|];
    PrefixLabel(q, l);
    forall u | 0 <= u < |g|
      ensures !Precedes(l, g[u].lbl)
      ensures Precedes(g[u].lbl, l) <==> Precedes(g[u].lbl, q)
      ensures SpansAgree(g[u].lbl, l)
    {
      EnterAgainst(g, f, n, entered, l, i, u);
    }
  }

  lemma EnterAgainst(g: Graph, f: nat, n: nat, entered: set<nat>, l: Label, i: nat, u: nat)
    requires Exact(g) && Fronts(g, f, n, entered) && u < |g|
    requires MemberLabel(g[f].lbl, l, n, i) && i !in entered
    ensures !Precedes(l, g[u].lbl)
    ensures Precedes(g[u].lbl, l) <==> Precedes(g[u].lbl, g[f].lbl)
    ensures SpansAgree(g[u].lbl, l)
  {
    var q, m := g[f].lbl, g[u].lbl;
    PrefixLabel(q, l);
    if Precedes(q, m) {
      if u != f {
        assert Below(q, m, n) && MemberOf(q, m, n) != i;
        CommonIs(m, l, |q|);
        CommonIs(l, m, |q|);
        CommonIs(m, q, |q|);
      } else {
        CommonIs(l, q, |q|);
        PrecedesRefl(q);
      }
    } else {
      if Precedes(l, m) { PrecedesTrans(q, l, m); }
      if Precedes(m, q) { PrecedesTrans(m, q, l); }
      var k := Common(m, q);
      CommonIs(q, m, k);
      assert k < |q|;
      CommonIs(m, l, k);
    }
  }

  /** The front a team moves to when all its members have met at a barrier. */
  function Advance(q: Label): Label
    requires |q| > 0
  {
    var s := q[|q| - 1];
    q[|q| - 1 := ImplicitSegment(s.offset + s.span, s.span)]
  }

  lemma AdvancePlain(q: Label)
    requires Plain(q)
    ensures Plain(Advance(q))
  {
    hide Precedes, Common, Later;
  }

  lemma AdvanceLater(q: Label)
    requires Plain(q)
    ensures Later(q[|q| - 1], Advance(q)[|q| - 1])
  {
    hide Precedes, Common, Later;
    LaterBySpan(q[|q| - 1].offset, q[|q| - 1].span);
  }

  lemma AdvancePrecedes(q: Label)
    requires Plain(q)
    ensures Plain(Advance(q))
    ensures Precedes(q, Advance(q)) && Common(q, Advance(q)) == |q| - 1
  {
    hide Precedes, Common, Later;
    AdvancePlain(q);
    AdvanceLater(q);
    PrecedesAt(q, Advance(q), |q| - 1);
  }

  /** All members of a team wait at the barrier: strand `pre[i]` is the last one of member `i`. */
  ghost predicate AllMet(g: Graph, f: nat, n: nat, pre: seq<nat>) {
    && f < |g|
    && |pre| == n
    && forall i :: 0 <= i < n ==> Last(g, pre[i]) && MemberLabel(g[f].lbl, g[pre[i]].lbl, n, i)
  }

  function SetOf(pre: seq<nat>): (s: set<nat>)
    ensures forall i :: 0 <= i < |pre| ==> pre[i] in s
    ensures forall p :: p in s ==> exists i :: 0 <= i < |pre| && pre[i] == p
  {
    set p | p in pre
  }

  lemma ReleaseFits(g: Graph, f: nat, n: nat, entered: set<nat>, pre: seq<nat>)
    requires Exact(g) && Fronts(g, f, n, entered) && AllMet(g, f, n, pre)
    ensures Fits(g, Strand(Advance(g[f].lbl), SetOf(pre)))
  {
    var l := Advance(g[f].lbl);
    var preds := SetOf(pre);
    AdvancePrecedes(g[f].lbl);
    forall p | p in preds
      ensures p < |g| && Precedes(g[p].lbl, l)
    {
      var i :| 0 <= i < n && pre[i] == p;
      MemberPrecedesAdvance(g[f].lbl, g[pre[i]].lbl, n, i);
    }
    forall u | 0 <= u < |g|
      ensures !Precedes(l, g[u].lbl)
      ensures Precedes(g[u].lbl, l) <==> exists p :: p in preds && p < |g| && Precedes(g[u].lbl, g[p].lbl)
      ensures SpansAgree(g[u].lbl, l)
    {
      ReleaseIsAbove(g, f, n, entered, u);
      ReleaseAgainst(g, f, n, entered, pre, preds, u);
    }
  }

  lemma ReleaseAgainst(g: Graph, f: nat, n: nat, entered: set<nat>, pre: seq<nat>, preds: set<nat>, u: nat)
    requires Exact(g) && Fronts(g, f, n, entered) && AllMet(g, f, n, pre) && u < |g|
    requires forall p :: p in preds ==> p < |g| && Precedes(g[p].lbl, Advance(g[f].lbl))
    requires forall i :: 0 <= i < n ==> pre[i] in preds
    ensures Precedes(g[u].lbl, Advance(g[f].lbl))
       <==> exists p :: p in preds && p < |g| && Precedes(g[u].lbl, g[p].lbl)
  {
    if Precedes(g[u].lbl, Advance(g[f].lbl)) {
      var i := ReleaseComesFrom(g, f, n, entered, pre, u);
      assert pre[i] in preds;
    }
    if p :| p in preds && p < |g| && Precedes(g[u].lbl, g[p].lbl) {
      PrecedesTrans(g[u].lbl, g[p].lbl, Advance(g[f].lbl));
    }
  }

  lemma MemberPrecedesAdvance(q: Label, l: Label, n: nat, i: nat)
    requires Plain(q) && MemberLabel(q, l, n, i)
    ensures Precedes(l, Advance(q))
  {
    hide Precedes, Common, Later;
    LaterBySpan(q[|q| - 1].offset, q[|q| - 1].span);
    PrecedesAt(l, Advance(q), |q| - 1);
  }

  lemma ReleaseIsAbove(g: Graph, f: nat, n: nat, entered: set<nat>, u: nat)
    requires Exact(g) && Fronts(g, f, n, entered) && u < |g|
    ensures !Precedes(Advance(g[f].lbl), g[u].lbl)
    ensures SpansAgree(g[u].lbl, Advance(g[f].lbl))
  {
    var q, m := g[f].lbl, g[u].lbl;
    var l := Advance(q);
    AdvancePrecedes(q);
    if Precedes(q, m) {
      if u == f {
        CommonIs(l, q, |q| - 1);
      } else {
        CommonIs(l, m, |q| - 1);
      }
      CommonIs(m, l, |q| - 1);
    } else {
      if Precedes(l, m) {
        PrecedesTrans(q, l, m);
      }
      SpansAgreeAdvance(q, m);
    }
  }

  lemma SpansAgreeAdvance(q: Label, m: Label)
    requires Plain(q) && Plain(m) && SpansAgree(m, q)
    ensures SpansAgree(m, Advance(q))
  {
    var l := Advance(q);
    var k := Common(m, l);
    if k < |q| - 1 {
      CommonIs(m, q, k);
    } else if k < |m| && k < |q| && m[k] != q[k] {
      CommonIs(m, q, k);
    }
  }

  /** Between a front and its advance there is nothing that is not comparable to the front. */
  lemma NothingBetween(q: Label, m: Label)
    requires Plain(q) && Plain(m) && SpansAgree(m, q)
    requires Precedes(m, Advance(q))
    ensures Precedes(m, q) || Precedes(q, m)
  {
    var l := Advance(q);
    var s := q[|q| - 1];
    var k := Common(m, l);
    if k < |q| - 1 {
      CommonIs(m, q, k);
    } else if k == |m| {
      if k == |q| {
        AdvancePrecedes(q);
        assert m == l;
      } else {
        CommonIs(m, q, k);
      }
    } else {
      AddSpanKeepsResidue(s.offset, s.span);
      if m[k] == s {
        CommonIs(q, m, |q|);
      } else {
        CommonIs(m, q, k);
        if m[k].offset > s.offset {
          NoResidueBetween(s.offset, m[k].offset, s.span);
        }
      }
    }
  }

  /** Whatever precedes the new front precedes the last strand of some member. */
  lemma ReleaseComesFrom(g: Graph, f: nat, n: nat, entered: set<nat>, pre: seq<nat>, u: nat) returns (i: nat)
    requires Exact(g) && Fronts(g, f, n, entered) && AllMet(g, f, n, pre)
    requires u < |g| && Precedes(g[u].lbl, Advance(g[f].lbl))
    requires forall j :: 0 <= j < n ==> pre[j] < |g|
    ensures i < n && Precedes(g[u].lbl, g[pre[i]].lbl)
  {
    var q, m := g[f].lbl, g[u].lbl;
    NothingBetween(q, m);
    if Precedes(m, q) {
      i := 0;
      assert MemberLabel(q, g[pre[0]].lbl, n, 0);
      PrefixLabel(q, g[pre[0]].lbl);
      PrecedesTrans(m, q, g[pre[0]].lbl);
    } else {
      PrecedesRefl(m);
      assert Below(q, m, n);
      i := MemberOf(q, m, n);
      assert MemberLabel(q, g[pre[i]].lbl, n, i);
      SameMemberComparable(q, m, g[pre[i]].lbl, n, i);
      assert Last(g, pre[i]);
    }
  }

  lemma SameMemberComparable(q: Label, m: Label, l: Label, n: nat, i: nat)
    requires Plain(m) && Plain(l)
    requires Below(q, m, n) && MemberOf(q, m, n) == i && MemberLabel(q, l, n, i)
    ensures Precedes(m, l) || Precedes(l, m)
  {
    if m[|q|] == l[|q|] {
      CommonIs(l, m, |q| + 1);
    } else {
      CommonIs(m, l, |q|);
      CommonIs(l, m, |q|);
    }
  }

  // ---- fronts under a new strand ----

  lemma FrontsAfterEnter(g: Graph, f: nat, n: nat, entered: set<nat>, l: Label, i: nat)
    requires Exact(g) && Fronts(g, f, n, entered)
    requires MemberLabel(g[f].lbl, l, n, i) && i !in entered
    ensures Fronts(g + [Strand(l, {f})], f, n, entered + {i})
  {
    PrefixLabel(g[f].lbl, l);
  }

  lemma FrontsKeptByEnter(g: Graph, f: nat, n: nat, l: Label, i: nat, f2: nat, n2: nat, entered2: set<nat>)
    requires Exact(g) && f < |g| && MemberLabel(g[f].lbl, l, n, i) && Fits(g, Strand(l, {f}))
    requires Fronts(g, f2, n2, entered2) && f2 != f
    ensures Fronts(g + [Strand(l, {f})], f2, n2, entered2)
  {
    if Precedes(g[f2].lbl, l) {
      hide Reaches, Precedes, SpansAgree, Plain;
      assert Below(g[f2].lbl, g[f].lbl, n2);
      assert MemberOf(g[f2].lbl, l, n2) == MemberOf(g[f2].lbl, g[f].lbl, n2);
    }
  }

  lemma FrontsAfterRelease(g: Graph, s: Strand, n: nat)
    requires Exact(g) && Fits(g, s) && n > 0
    ensures Fronts(g + [s], |g|, n, {})
  {
  }

  lemma FrontsKept(g: Graph, s: Strand, f: nat, n: nat, entered: set<nat>)
    requires Fronts(g, f, n, entered)
    requires Precedes(g[f].lbl, s.lbl) ==> Below(g[f].lbl, s.lbl, n) && MemberOf(g[f].lbl, s.lbl, n) in entered
    ensures Fronts(g + [s], f, n, entered)
  {
  }

  lemma FrontsKeptByRelease(g: Graph, f: nat, n: nat, pre: seq<nat>, f2: nat, n2: nat, entered2: set<nat>)
    requires Exact(g) && AllMet(g, f, n, pre) && Fits(g, Strand(Advance(g[f].lbl), SetOf(pre)))
    requires Fronts(g, f2, n2, entered2) && f2 != f
    requires f2 !in pre
    ensures Fronts(g + [Strand(Advance(g[f].lbl), SetOf(pre))], f2, n2, entered2)
  {
    var s := Strand(Advance(g[f].lbl), SetOf(pre));
    if Precedes(g[f2].lbl, s.lbl) {
      var p :| p in s.preds && p < |g| && Precedes(g[f2].lbl, g[p].lbl);
      var i :| 0 <= i < |pre| && pre[i] == p;
      BelowAdvance(g, f, n, i, p, f2, n2, entered2);
    }
    FrontsKept(g, s, f2, n2, entered2);
  }

  lemma BelowAdvance(g: Graph, f: nat, n: nat, i: nat, p: nat, f2: nat, n2: nat, entered2: set<nat>)
    requires Exact(g) && f < |g| && p < |g| && MemberLabel(g[f].lbl, g[p].lbl, n, i)
    requires Fronts(g, f2, n2, entered2) && f2 != f && f2 != p && Precedes(g[f2].lbl, g[p].lbl)
    ensures Below(g[f2].lbl, Advance(g[f].lbl), n2)
    ensures MemberOf(g[f2].lbl, Advance(g[f].lbl), n2) in entered2
  {
    var q, q2 := g[f].lbl, g[f2].lbl;
    assert Below(q2, g[p].lbl, n2);
    assert q2 == q[..|q2|];
    PrefixLabel(q2, q);
    assert Below(q2, q, n2);
    AddSpanKeepsResidue(q[|q| - 1].offset, q[|q| - 1].span);
  }
}
