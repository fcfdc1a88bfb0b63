/**
 The order that labels are meant to encode: a label precedes its extensions, and a label whose first differing
 segment is an earlier segment of the same team member precedes everything below the later one.
 */
module LabelOrder {
  import opened Labels
  import opened Core

  /** The number of leading segments two labels share. */
  function Common(a: Label, b: Label): (k: nat)
    ensures k <= |a| && k <= |b|
    ensures forall i :: 0 <= i < k ==> a[i] == b[i]
    ensures k < |a| && k < |b| ==> a[k] != b[k]
  {
    if |a| == 0 || |b| == 0 || a[0] != b[0] then 0 else 1 + Common(a[1..], b[1..])
  }

  lemma {:induction false} CommonIs(a: Label, b: Label, k: nat)
    requires k <= |a| && k <= |b|
    requires forall i :: 0 <= i < k ==> a[i] == b[i]
    requires k < |a| && k < |b| ==> a[k] != b[k]
    ensures Common(a, b) == k
  {
    if k > 0 {
      CommonIs(a[1..], b[1..], k - 1);
    }
  }

  /** The same member of the same team, at a later offset. */
  predicate Later(x: Segment, y: Segment) {
    && x.span == y.span
    && x.span > 0
    && x.offset < y.offset
    && x.offset % x.span == y.offset % x.span
  }

  predicate Precedes(a: Label, b: Label) {
    var k := Common(a, b);
    k == |a| || (k < |b| && Later(a[k], b[k]))
  }

  lemma PrecedesAt(a: Label, b: Label, k: nat)
    requires k < |a| && k < |b|
    requires forall i :: 0 <= i < k ==> a[i] == b[i]
    requires Later(a[k], b[k])
    ensures Precedes(a, b) && Common(a, b) == k
  {
    CommonIs(a, b, k);
  }

  lemma PrecedesRefl(a: Label)
    ensures Precedes(a, a)
  {
    CommonIs(a, a, |a|);
  }

  lemma PrecedesTrans(a: Label, b: Label, c: Label)
    requires Precedes(a, b) && Precedes(b, c)
    ensures Precedes(a, c)
  {
    var i, j := Common(a, b), Common(b, c);
    CommonIs(a, c, if i <= j then i else j);
  }

  lemma PrecedesAntisym(a: Label, b: Label)
    requires Precedes(a, b) && Precedes(b, a)
    ensures a == b
  {
    CommonIs(b, a, Common(a, b));
  }

  // ---- the verdict on implicit-task labels ----

  /** Labels built from implicit task segments only, below an initial task. */
  ghost predicate Plain(l: Label) {
    && |l| > 0
    && l[0].span == 1
    && forall i :: 0 <= i < |l| ==> l[i].span > 0 && l[i] == ImplicitSegment(l[i].offset, l[i].span)
  }

  /** Two labels with a common parent prefix carry the same team size there. */
  predicate SpansAgree(a: Label, b: Label) {
    var k := Common(a, b);
    k < |a| && k < |b| ==> a[k].span == b[k].span
  }

  /** The labels part below the root in a team of one, with descendants on the history side: the guard of the
      check in `analyzeSameTask` that fires. */
  predicate PartInTeamOfOne(hist: Label, cur: Label) {
    var d := Compare(hist, cur);
    d > 0 && hist[d].span == 1 && d + 1 < |hist|
  }

  lemma AgreementIsCommon(a: Label, b: Label)
    requires Plain(a) && Plain(b)
    ensures Agreement(a, b) == Common(a, b)
  {
    CommonIs(a, b, Agreement(a, b));
  }

  /** On implicit-task labels, unless the current label strictly precedes the recorded one, the decision procedure
      either fails its internal check, exactly for teams of one, or decides the label order. */
  lemma VerdictDecidesOrder(hist: Label, cur: Label)
    requires Plain(hist) && Plain(cur) && SpansAgree(hist, cur)
    requires Precedes(cur, hist) ==> cur == hist
    ensures PartInTeamOfOne(hist, cur) ==> HappensBefore(hist, cur) == Fatal
    ensures !PartInTeamOfOne(hist, cur) ==> HappensBefore(hist, cur) == Decide(Precedes(hist, cur))
    ensures PartInTeamOfOne(hist, cur) ==> Precedes(hist, cur)
    ensures Compare(hist, cur) != RIGHT_IS_PREFIX
    ensures Compare(hist, cur) == SAME_LABEL <==> hist == cur
  {
    AgreementIsCommon(hist, cur);
    var k := Common(hist, cur);
    CommonIs(cur, hist, k);
    PrecedesRefl(hist);
  }

  // ---- residues ----

  lemma AddSpanKeepsResidue(x: nat, n: nat)
    requires n > 0
    ensures (x + n) % n == x % n
  {
    assert x == n * (x / n) + x % n;
    assert x + n == n * (x / n + 1) + x % n;
    ResidueUnique(x + n, n, x / n + 1, x % n);
  }

  lemma LaterBySpan(x: nat, n: nat)
    requires n > 0
    ensures Later(ImplicitSegment(x, n), ImplicitSegment(x + n, n))
  {
    AddSpanKeepsResidue(x, n);
  }

  lemma MultipleBounds(n: int, d: int)
    requires n > 0
    ensures d >= 1 ==> n * d >= n
    ensures d <= 0 ==> n * d <= 0
    ensures d <= -1 ==> n * d <= -n
  {
  }

  lemma ResidueUnique(x: nat, n: nat, q: nat, r: nat)
    requires n > 0 && r < n && x == n * q + r
    ensures x % n == r && x / n == q
  {
    var d := x / n - q;
    MultipleBounds(n, d);
    assert n * d == r - x % n by { assert x == n * (x / n) + x % n; }
  }

  lemma NoResidueBetween(x: nat, y: nat, n: nat)
    requires n > 0 && x < y < x + n
    ensures x % n != y % n
  {
    var d := y / n - x / n;
    MultipleBounds(n, d);
    assert y - x == n * d + y % n - x % n by {
      assert x == n * (x / n) + x % n;
      assert y == n * (y / n) + y % n;
    }
  }
}
