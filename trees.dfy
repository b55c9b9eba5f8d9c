/**
  One decision tree of the forest and `tree_instance_constraint`
  (rf_attack.py lines 63-92): the box a sample's root-to-leaf path
  describes.  The tree is the fitted scikit-learn tree seen as a value; a
  split sends `x` to the left child when `x[feature] <= threshold`.
*/
module Trees {
  import opened Bounds

  datatype Tree =
    | Leaf(value: seq<real>)
    | Node(feature: nat, threshold: real, left: Tree, right: Tree)

  /** Every split of `t` tests one of `n` features. */
  predicate WellFormed(t: Tree, n: nat) {
    match t
    case Leaf(_) => true
    case Node(f, _, left, right) => f < n && WellFormed(left, n) && WellFormed(right, n)
  }

  /**
    The leaf `x` reaches, as a subtree.  Two different leaves with equal
    values compare equal here; `Route` tells the leaves apart.
  */
  function LeafOf(t: Tree, x: seq<real>): (l: Tree)
    requires WellFormed(t, |x|)
    ensures l.Leaf?
  {
    match t
    case Leaf(_) => t
    case Node(f, th, left, right) => if x[f] <= th then LeafOf(left, x) else LeafOf(right, x)
  }

  /**
    The branches `x` takes from the root down to its leaf, `true` for left:
    the leaf's position in the tree, which identifies the node `apply`
    reports.
  */
  function Route(t: Tree, x: seq<real>): (p: seq<bool>)
    requires WellFormed(t, |x|)
  {
    match t
    case Leaf(_) => []
    case Node(f, th, left, right) =>
      if x[f] <= th then [true] + Route(left, x) else [false] + Route(right, x)
  }

  /** Points taking the same branches reach the same leaf. */
  lemma {:induction false} RouteLeaf(t: Tree, x: seq<real>, y: seq<real>)
    requires WellFormed(t, |x|) && |y| == |x| && Route(t, y) == Route(t, x)
    ensures LeafOf(t, y) == LeafOf(t, x)
  {
    match t
    case Leaf(_) =>
    case Node(f, th, left, right) =>
      assert Route(t, y)[0] == Route(t, x)[0];
      if x[f] <= th {
        assert Route(t, x)[1..] == Route(left, x) && Route(t, y)[1..] == Route(left, y);
        RouteLeaf(left, x, y);
      } else {
        assert Route(t, x)[1..] == Route(right, x) && Route(t, y)[1..] == Route(right, y);
        RouteLeaf(right, x, y);
      }
  }

  /** Feature `f` is tested on the path of `x`. */
  predicate OnPath(t: Tree, x: seq<real>, f: nat)
    requires WellFormed(t, |x|)
  {
    match t
    case Leaf(_) => false
    case Node(g, th, left, right) =>
      g == f || (if x[g] <= th then OnPath(left, x, f) else OnPath(right, x, f))
  }

  /** The box after walking from `t` down to the leaf of `x`, starting from `r`. */
  function PathBox(t: Tree, x: seq<real>, r: Box): (res: Box)
    requires WellFormed(t, |x|) && |r| == 2 * |x|
    ensures |res| == 2 * |x|
  {
    match t
    case Leaf(_) => r
    case Node(f, th, left, right) =>
      if x[f] <= th then PathBox(left, x, r[f := Min(r[f], Finite(th))])
      else PathBox(right, x, r[f + |x| := Min(r[f + |x|], Finite(-th))])
  }

  /** The box of sample `x` in tree `t`. */
  function InstanceBox(t: Tree, x: seq<real>): Box
    requires WellFormed(t, |x|)
  {
    PathBox(t, x, Unbounded(2 * |x|))
  }

  method TreeInstanceConstraint(t: Tree, X: seq<seq<real>>, n: nat) returns (ret: seq<Box>)
    requires WellFormed(t, n)
    requires forall i :: 0 <= i < |X| ==> |X[i]| == n
    ensures |ret| == |X|
    ensures forall i :: 0 <= i < |X| ==> ret[i] == InstanceBox(t, X[i])
  {
    ret := [];
    for sample := 0 to |X|
      invariant |ret| == sample
      invariant forall i :: 0 <= i < sample ==> ret[i] == InstanceBox(t, X[i])
    {
      var x := X[sample];
      var r := Unbounded(2 * n);
      var node := t;
      while node.Node?
        invariant WellFormed(node, n) && |r| == 2 * n
        invariant PathBox(node, x, r) == InstanceBox(t, x)
        decreases node
      {
        if x[node.feature] <= node.threshold {
          var idx, hi := node.feature, Finite(node.threshold);
          r := r[idx := Min(r[idx], hi)];
          node := node.left;
        } else {
          var idx, hi := node.feature + n, Finite(-node.threshold);
          r := r[idx := Min(r[idx], hi)];
          node := node.right;
        }
      }
      ret := ret + [r];
    }
  }

  // ---------------------------------------------------------------------
  // Properties of the path box
  // ---------------------------------------------------------------------

  /** Bounds only tighten along a path. */
  lemma {:induction false} PathBoxTightens(t: Tree, x: seq<real>, r: Box)
    requires WellFormed(t, |x|) && |r| == 2 * |x|
    ensures Tighter(PathBox(t, x, r), r)
  {
    match t
    case Leaf(_) =>
    case Node(f, th, left, right) =>
      var r' := if x[f] <= th then r[f := Min(r[f], Finite(th))]
                else r[f + |x| := Min(r[f + |x|], Finite(-th))];
      PathBoxTightens(if x[f] <= th then left else right, x, r');
      TighterTransitive(PathBox(t, x, r), r', r);
  }

  /** A path keeps the sample strictly inside: it goes left only when `x[f] <= th`, right only when `x[f] > th`. */
  lemma {:induction false} PathBoxContains(t: Tree, x: seq<real>, r: Box)
    requires WellFormed(t, |x|) && StrictlyInBox(x, r)
    ensures StrictlyInBox(x, PathBox(t, x, r))
  {
    match t
    case Leaf(_) =>
    case Node(f, th, left, right) =>
      if x[f] <= th {
        PathBoxContains(left, x, r[f := Min(r[f], Finite(th))]);
      } else {
        PathBoxContains(right, x, r[f + |x| := Min(r[f + |x|], Finite(-th))]);
      }
  }

  /**
    The sample lies in its own box: `x[f] <= r[f]` and `-x[f] <= r[f + n]`,
    the lower bound even strictly.
  */
  lemma InstanceBoxContains(t: Tree, x: seq<real>)
    requires WellFormed(t, |x|)
    ensures StrictlyInBox(x, InstanceBox(t, x))
    ensures InBox(x, InstanceBox(t, x))
  {
    PathBoxContains(t, x, Unbounded(2 * |x|));
  }

  /** Slots of a feature the path does not test keep their starting bound. */
  lemma {:induction false} PathBoxOffPath(t: Tree, x: seq<real>, r: Box, f: nat)
    requires WellFormed(t, |x|) && |r| == 2 * |x| && f < |x| && !OnPath(t, x, f)
    ensures PathBox(t, x, r)[f] == r[f] && PathBox(t, x, r)[f + |x|] == r[f + |x|]
  {
    match t
    case Leaf(_) =>
    case Node(g, th, left, right) =>
      if x[g] <= th {
        PathBoxOffPath(left, x, r[g := Min(r[g], Finite(th))], f);
      } else {
        PathBoxOffPath(right, x, r[g + |x| := Min(r[g + |x|], Finite(-th))], f);
      }
  }

  /** A feature the path tests gets at least one finite bound, and keeps it. */
  lemma {:induction false} PathBoxOnPath(t: Tree, x: seq<real>, r: Box, f: nat)
    requires WellFormed(t, |x|) && |r| == 2 * |x| && f < |x| && OnPath(t, x, f)
    ensures PathBox(t, x, r)[f].Finite? || PathBox(t, x, r)[f + |x|].Finite?
  {
    match t
    case Leaf(_) =>
    case Node(g, th, left, right) =>
      var next := if x[g] <= th then left else right;
      var r' := if x[g] <= th then r[g := Min(r[g], Finite(th))]
                else r[g + |x| := Min(r[g + |x|], Finite(-th))];
      if g == f {
        PathBoxTightens(next, x, r');
        assert Le(PathBox(t, x, r)[f], r'[f]) && Le(PathBox(t, x, r)[f + |x|], r'[f + |x|]);
      } else {
        PathBoxOnPath(next, x, r', f);
      }
  }

  /** Both slots of feature `f` stay `+inf` exactly when no split on the sample's path tests `f`. */
  lemma InstanceBoxUnbounded(t: Tree, x: seq<real>, f: nat)
    requires WellFormed(t, |x|) && f < |x|
    ensures InstanceBox(t, x)[f].PosInf? && InstanceBox(t, x)[f + |x|].PosInf? <==> !OnPath(t, x, f)
  {
    if OnPath(t, x, f) {
      PathBoxOnPath(t, x, Unbounded(2 * |x|), f);
    } else {
      PathBoxOffPath(t, x, Unbounded(2 * |x|), f);
    }
  }

  /**
    Every point inside the box shrunk by a positive tolerance takes the same
    path and reaches the same leaf.  (Without the tolerance a point on a
    lower bound, `y[f] == threshold`, would turn left instead of right.)
  */
  lemma {:induction false} PathBoxSameLeaf(t: Tree, x: seq<real>, y: seq<real>, r: Box, tol: real)
    requires WellFormed(t, |x|) && |y| == |x| && |r| == 2 * |x| && tol > 0.0
    requires InShrunkBox(y, PathBox(t, x, r), tol)
    ensures Route(t, y) == Route(t, x) && LeafOf(t, y) == LeafOf(t, x)
  {
    match t
    case Leaf(_) =>
    case Node(f, th, left, right) =>
      var n := |x|;
      if x[f] <= th {
        var r' := r[f := Min(r[f], Finite(th))];
        PathBoxTightens(left, x, r');
        assert Le(PathBox(t, x, r)[f], Finite(th));
        assert y[f] + tol <= th;
        PathBoxSameLeaf(left, x, y, r', tol);
      } else {
        var r' := r[f + n := Min(r[f + n], Finite(-th))];
        PathBoxTightens(right, x, r');
        assert Le(PathBox(t, x, r)[f + n], Finite(-th));
        assert -y[f] + tol <= -th;
        PathBoxSameLeaf(right, x, y, r', tol);
      }
  }

  lemma InstanceBoxSameLeaf(t: Tree, x: seq<real>, y: seq<real>, tol: real)
    requires WellFormed(t, |x|) && |y| == |x| && tol > 0.0
    requires InShrunkBox(y, InstanceBox(t, x), tol)
    ensures Route(t, y) == Route(t, x) && LeafOf(t, y) == LeafOf(t, x)
  {
    PathBoxSameLeaf(t, x, y, Unbounded(2 * |x|), tol);
  }
}
