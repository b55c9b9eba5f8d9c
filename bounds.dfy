/**
  Bounds and boxes.

  A box over `n` features is a list of `2n` bounds: slot `f` is the upper
  bound on feature `f`, slot `f + n` is the negated lower bound on feature
  `f`.  Every bound is stored as an upper bound so that tightening is always
  a minimum.  `PosInf` means "unbounded"; the attack never produces a
  negative infinity.
*/
module Bounds {

  datatype Bound = Finite(v: real) | PosInf

  type Box = seq<Bound>

  /** `a <= b` on the extended reals. */
  predicate Le(a: Bound, b: Bound) {
    b.PosInf? || (a.Finite? && a.v <= b.v)
  }

  /** A real value lies under a bound. */
  predicate Below(x: real, b: Bound) {
    b.PosInf? || x <= b.v
  }

  /** A real value lies strictly under a bound. */
  predicate StrictlyBelow(x: real, b: Bound) {
    b.PosInf? || x < b.v
  }

  /** Python's `min(a, b)`: `a` unless `b` is strictly smaller. */
  function Min(a: Bound, b: Bound): (m: Bound)
    ensures m == a || m == b
    ensures Le(m, a) && Le(m, b)
    ensures forall x: real :: Below(x, m) <==> Below(x, a) && Below(x, b)
  {
    match b
    case PosInf => a
    case Finite(y) => if a.PosInf? || y < a.v then b else a
  }

  /** The bound shifted by a real amount (`h + tol` / `h - tol`); infinity stays infinite. */
  function Shift(b: Bound, delta: real): (s: Bound)
    ensures s.PosInf? <==> b.PosInf?
    ensures forall x: real :: Below(x + delta, s) <==> Below(x, b)
  {
    match b
    case PosInf => PosInf
    case Finite(v) => Finite(v + delta)
  }

  /** The box with every slot unbounded (`[np.inf for i in range(2n)]`). */
  function Unbounded(m: nat): (r: Box)
    ensures |r| == m && forall s :: 0 <= s < m ==> r[s] == PosInf
  {
    seq(m, _ => PosInf)
  }

  /** Elementwise minimum of two boxes: their intersection. */
  function Meet(a: Box, b: Box): (r: Box)
    requires |a| == |b|
    ensures |r| == |a|
    ensures forall s :: 0 <= s < |r| ==> r[s] == Min(a[s], b[s])
  {
    seq(|a|, s requires 0 <= s < |a| => Min(a[s], b[s]))
  }

  /** Every slot of `r` is at least as tight as the matching slot of `a`. */
  predicate Tighter(r: Box, a: Box) {
    |r| == |a| && forall s :: 0 <= s < |r| ==> Le(r[s], a[s])
  }

  /** `x` lies in the box: `x[f] <= r[f]` and `-x[f] <= r[f + n]` for every feature. */
  predicate InBox(x: seq<real>, r: Box) {
    |r| == 2 * |x| &&
    forall f :: 0 <= f < |x| ==> Below(x[f], r[f]) && Below(-x[f], r[f + |x|])
  }

  /**
    `x` lies in the box with the lower bound strict: `x[f] <= r[f]` and
    `x[f] > -r[f + n]`, the half-open interval a decision path describes.
  */
  predicate StrictlyInBox(x: seq<real>, r: Box) {
    |r| == 2 * |x| &&
    forall f :: 0 <= f < |x| ==> Below(x[f], r[f]) && StrictlyBelow(-x[f], r[f + |x|])
  }

  /** `x` lies in the box shrunk by `tol` on every side (`h - tol`, as the attack's solvers see it). */
  predicate InShrunkBox(x: seq<real>, r: Box, tol: real) {
    |r| == 2 * |x| &&
    forall f :: 0 <= f < |x| ==> Below(x[f] + tol, r[f]) && Below(-x[f] + tol, r[f + |x|])
  }

  lemma LeTransitive(a: Bound, b: Bound, c: Bound)
    requires Le(a, b) && Le(b, c)
    ensures Le(a, c)
  {
  }

  lemma TighterTransitive(a: Box, b: Box, c: Box)
    requires Tighter(a, b) && Tighter(b, c)
    ensures Tighter(a, c)
  {
    forall s | 0 <= s < |a| ensures Le(a[s], c[s]) {
      LeTransitive(a[s], b[s], c[s]);
    }
  }

  lemma StrictlyInBoxMeet(x: seq<real>, a: Box, b: Box)
    requires StrictlyInBox(x, a) && StrictlyInBox(x, b)
    ensures StrictlyInBox(x, Meet(a, b))
  {
  }

  /** A shrunk box of a tighter box lies inside the shrunk box of the looser one. */
  lemma InShrunkBoxLoosen(x: seq<real>, a: Box, b: Box, tol: real)
    requires Tighter(a, b) && InShrunkBox(x, a, tol)
    ensures InShrunkBox(x, b, tol)
  {
  }

  lemma MinCommutes(a: Bound, b: Bound)
    ensures Min(a, b) == Min(b, a)
  {
  }

  lemma MinAssociates(a: Bound, b: Bound, c: Bound)
    ensures Min(Min(a, b), c) == Min(a, Min(b, c))
  {
  }

  /** A point lies in the intersection of two boxes exactly when it lies in both. */
  lemma InBoxMeet(x: seq<real>, a: Box, b: Box)
    requires |a| == |b| == 2 * |x|
    ensures InBox(x, Meet(a, b)) <==> InBox(x, a) && InBox(x, b)
  {
  }

  /** The intersection is tighter than each operand. */
  lemma MeetTightens(a: Box, b: Box)
    requires |a| == |b|
    ensures Tighter(Meet(a, b), a) && Tighter(Meet(a, b), b)
  {
  }
}
