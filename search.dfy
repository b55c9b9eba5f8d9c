/**
  `rev_get_sol_l2` and `rev_get_sol_linf` (rf_attack.py lines 94-180): for
  every candidate region, pose the nearest-point problem to the solver,
  turn its answer into a candidate perturbation by the status rules, and
  return a candidate of minimum norm.
*/
module Search {
  import opened Wrappers
  import opened Bounds
  import opened Vectors
  import opened Constraints
  import opened Oracles

  datatype Norm = L2 | LInf

  /**
    How a search fails: numpy's `hstack` of a 1-D empty `G` with a column
    (L-infinity only), `trnX[i]` on a missing `trnX` after an
    `infeasible_inaccurate` status, an exception from the solver, and the
    norm of an empty candidate list.
  */
  datatype SearchError = StackShapeError | NoTrainingPoint | SolverRaised | NoCandidate

  // ---------------------------------------------------------------------
  // The problems posed
  // ---------------------------------------------------------------------

  /** The rows whose right-hand side `h - tol` is finite, with that right-hand side. */
  function DropUnbounded(G: seq<seq<real>>, h: seq<Bound>, tol: real): (s: Stack)
    requires |G| == |h|
    ensures |s.G| == |s.h| && forall j :: 0 <= j < |s.h| ==> s.h[j].Finite?
  {
    if |G| == 0 then Stack([], [])
    else
      var m := |G| - 1;
      var rest := DropUnbounded(G[..m], h[..m], tol);
      if h[m].PosInf? then rest else Stack(rest.G + [G[m]], rest.h + [Shift(h[m], -tol)])
  }

  /** Every row with a zero column appended (`np.hstack((G, np.zeros(..)))`). */
  function Widen(G: seq<seq<real>>): (W: seq<seq<real>>)
    ensures |W| == |G| && forall j :: 0 <= j < |G| ==> W[j] == G[j] + [0.0]
  {
    seq(|G|, j requires 0 <= j < |G| => G[j] + [0.0])
  }

  /** The rows `[e_j, -1]`: `z_j - t`. */
  function Ups(n: nat): (U: seq<seq<real>>)
    ensures |U| == n && forall j :: 0 <= j < n ==> U[j] == Unit(n, j) + [-1.0]
  {
    seq(n, j requires 0 <= j < n => Unit(n, j) + [-1.0])
  }

  /** The rows `[-e_j, -1]`: `-z_j - t`. */
  function Downs(n: nat): (D: seq<seq<real>>)
    ensures |D| == n && forall j :: 0 <= j < n ==> D[j] == Neg(Unit(n, j)) + [-1.0]
  {
    seq(n, j requires 0 <= j < n => Neg(Unit(n, j)) + [-1.0])
  }

  /** The start point of the L-infinity problem: the training point and its distance to `x`. */
  function LinfStart(trn: seq<real>, x: seq<real>): seq<real>
    requires |trn| == |x|
  {
    trn + [NormInf(Sub(trn, x))]
  }

  /**
    The quadratic problem of `rev_get_sol_l2` for region `sys`: the point
    nearest to `x` under the region's finite rows shifted by `-tol`, with
    the region's equality rows, started at the training point if any.
  */
  function L2Problem(x: seq<real>, sys: LinearSystem, tol: real, trn: Option<seq<real>>): Problem
    requires |sys.G| == |sys.h|
  {
    var s := DropUnbounded(sys.G, sys.h, tol);
    Problem(NearestL2(x), s.G, s.h, sys.C, sys.d, trn)
  }

  /**
    The linear problem of `rev_get_sol_linf` over `(z, t)`: minimise `t`
    under the region's rows, `z_j - t <= x_j` and `-z_j - t <= -x_j`, all
    finite rows shifted by `-tol`.  An empty `G` cannot be stacked.
  */
  function LinfProblem(x: seq<real>, sys: LinearSystem, tol: real, trn: Option<seq<real>>): Result<Problem, SearchError>
    requires |sys.G| == |sys.h|
    requires trn.Some? ==> |trn.value| == |x|
  {
    if |sys.G| == 0 then Failure(StackShapeError)
    else
      var n := |x|;
      var s := DropUnbounded(Widen(sys.G) + Ups(n) + Downs(n), sys.h + Fins(x) + NegFins(x), tol);
      var C := if sys.C.Some? then Some(Widen(sys.C.value)) else None;
      var init := if trn.Some? then Some(LinfStart(trn.value, x)) else None;
      Success(Problem(MinLast(n + 1), s.G, s.h, C, sys.d, init))
  }

  function Pose(norm: Norm, x: seq<real>, r: Box, tol: real, trn: Option<seq<real>>): Result<Problem, SearchError>
    requires trn.Some? ==> |trn.value| == |x|
  {
    var sys := ToMatrix(r);
    MatrixShape(r);
    match norm
    case L2 => Success(L2Problem(x, sys, tol, trn))
    case LInf => LinfProblem(x, sys, tol, trn)
  }

  /** The number of unknowns of the problem posed for `n` features. */
  function Unknowns(norm: Norm, n: nat): nat {
    match norm
    case L2 => n
    case LInf => n + 1
  }

  lemma PoseUnknowns(norm: Norm, x: seq<real>, r: Box, tol: real, trn: Option<seq<real>>)
    requires trn.Some? ==> |trn.value| == |x|
    requires Pose(norm, x, r, tol, trn).Success?
    ensures VarCount(Pose(norm, x, r, tol, trn).value.objective) == Unknowns(norm, |x|)
  {
  }

  // ---------------------------------------------------------------------
  // Candidates
  // ---------------------------------------------------------------------

  /**
    What one region contributes: `ret - x` when the solution is optimal and
    its label differs from `y`; `trn - x` when it is optimal with label `y`
    or `infeasible_inaccurate`, and a training point is given; nothing for
    any other status.
  */
  function Contribute(norm: Norm, sol: Solution, x: seq<real>, y: nat, trn: Option<seq<real>>,
                      predict: seq<real> -> nat): Result<Option<seq<real>>, SearchError>
    requires sol.status == Optimal ==> |sol.x| == Unknowns(norm, |x|)
    requires trn.Some? ==> |trn.value| == |x|
  {
    match sol.status
    case Optimal =>
      var ret := if norm == L2 then sol.x else sol.x[..|x|];
      if predict(ret) != y then Success(Some(Sub(ret, x)))
      else if trn.Some? then Success(Some(Sub(trn.value, x)))
      else Success(None)
    case InfeasibleInaccurate =>
      if trn.Some? then Success(Some(Sub(trn.value, x))) else Failure(NoTrainingPoint)
    case OtherStatus => Success(None)
    case Raised => Failure(SolverRaised)
  }

  /** The training point paired with region `i`, if training points are given. */
  function TrainingPoint(trns: Option<seq<seq<real>>>, i: nat): Option<seq<real>>
    requires trns.Some? ==> i < |trns.value|
  {
    if trns.Some? then Some(trns.value[i]) else None
  }

  /** The regions all span `|x|` features, and the training points, if any, pair up with them. */
  predicate SearchOk(x: seq<real>, regions: seq<Box>, trns: Option<seq<seq<real>>>) {
    (forall i :: 0 <= i < |regions| ==> |regions[i]| == 2 * |x|) &&
    (trns.Some? ==> |trns.value| == |regions| && forall i :: 0 <= i < |regions| ==> |trns.value[i]| == |x|)
  }

  /** What region `r` contributes, with the training point `trn` paired with it, if any. */
  function RegionContribution(norm: Norm, x: seq<real>, y: nat, r: Box, trn: Option<seq<real>>,
                              tol: real, solve: Problem -> Solution, predict: seq<real> -> nat): Result<Option<seq<real>>, SearchError>
    requires (trn.Some? ==> |trn.value| == |x|) && Conforms(solve)
  {
    match Pose(norm, x, r, tol, trn)
    case Failure(e) => Failure(e)
    case Success(p) =>
      PoseUnknowns(norm, x, r, tol, trn);
      Contribute(norm, solve(p), x, y, trn, predict)
  }

  /** The contribution of every region, in order. */
  function Contributions(norm: Norm, x: seq<real>, y: nat, regions: seq<Box>, trns: Option<seq<seq<real>>>,
                         tol: real, solve: Problem -> Solution, predict: seq<real> -> nat)
    : (cs: seq<Result<Option<seq<real>>, SearchError>>)
    requires SearchOk(x, regions, trns) && Conforms(solve)
    ensures |cs| == |regions|
    ensures forall i :: 0 <= i < |regions| ==>
      cs[i] == RegionContribution(norm, x, y, regions[i], TrainingPoint(trns, i), tol, solve, predict)
  {
    seq(|regions|, i requires 0 <= i < |regions| =>
      RegionContribution(norm, x, y, regions[i], TrainingPoint(trns, i), tol, solve, predict))
  }

  /**
    The contributed values in order, or the first error: `candidates.append`
    in a loop that an exception ends.
  */
  function Keep<T, E>(cs: seq<Result<Option<T>, E>>): Result<seq<T>, E> {
    if |cs| == 0 then Success([])
    else match Keep(cs[..|cs| - 1])
      case Failure(e) => Failure(e)
      case Success(kept) =>
        match cs[|cs| - 1]
        case Failure(e) => Failure(e)
        case Success(None) => Success(kept)
        case Success(Some(c)) => Success(kept + [c])
  }

  /** One more contribution extends the kept list, or ends it with its error. */
  lemma KeepStep<T, E>(cs: seq<Result<Option<T>, E>>, i: nat, kept: seq<T>)
    requires i < |cs| && Keep(cs[..i]) == Success(kept)
    ensures cs[i].Failure? ==> Keep(cs[..i + 1]) == Failure(cs[i].error)
    ensures cs[i] == Success(None) ==> Keep(cs[..i + 1]) == Success(kept)
    ensures cs[i].Success? && cs[i].value.Some? ==> Keep(cs[..i + 1]) == Success(kept + [cs[i].value.value])
  {
    assert cs[..i + 1][..i] == cs[..i];
  }

  /** Once a prefix holds an error, the whole list reports that error. */
  lemma {:induction false} KeepStaysFailed<T, E>(cs: seq<Result<Option<T>, E>>, k: nat)
    requires k <= |cs| && Keep(cs[..k]).Failure?
    ensures Keep(cs) == Keep(cs[..k])
    decreases |cs| - k
  {
    if k < |cs| {
      assert cs[..k + 1][..k] == cs[..k];
      KeepStaysFailed(cs, k + 1);
    } else {
      assert cs[..k] == cs;
    }
  }

  /**
    Keeping fails exactly when some contribution is an error; on success
    every kept value is contributed by some element, and every contributed
    value is kept.
  */
  lemma {:induction false} KeepMembers<T, E>(cs: seq<Result<Option<T>, E>>)
    ensures Keep(cs).Failure? <==> exists i :: 0 <= i < |cs| && cs[i].Failure?
    ensures Keep(cs).Success? ==>
      (forall c :: c in Keep(cs).value ==> exists i :: 0 <= i < |cs| && cs[i] == Success(Some(c))) &&
      (forall i :: 0 <= i < |cs| && cs[i].Success? && cs[i].value.Some? ==> cs[i].value.value in Keep(cs).value)
  {
    if |cs| > 0 {
      var m := |cs| - 1;
      KeepMembers(cs[..m]);
      assert forall i :: 0 <= i < m ==> cs[..m][i] == cs[i];
      if Keep(cs).Failure? && Keep(cs[..m]).Failure? {
        var i :| 0 <= i < m && cs[..m][i].Failure?;
      }
    }
  }

  /** The candidates of `rev_get_sol_l2` / `rev_get_sol_linf`, or the error that ended the loop. */
  function Candidates(norm: Norm, x: seq<real>, y: nat, regions: seq<Box>, trns: Option<seq<seq<real>>>,
                      tol: real, solve: Problem -> Solution, predict: seq<real> -> nat): Result<seq<seq<real>>, SearchError>
    requires SearchOk(x, regions, trns) && Conforms(solve)
  {
    Keep(Contributions(norm, x, y, regions, trns, tol, solve, predict))
  }

  /** A region's contribution is what the status rules make of the solver's answer to its problem. */
  lemma ContributionIs(norm: Norm, x: seq<real>, y: nat, r: Box, trn: Option<seq<real>>,
                       tol: real, solve: Problem -> Solution, predict: seq<real> -> nat)
    requires (trn.Some? ==> |trn.value| == |x|) && Conforms(solve)
    requires Pose(norm, x, r, tol, trn).Success?
    ensures var sol := solve(Pose(norm, x, r, tol, trn).value);
      (sol.status == Optimal ==> |sol.x| == Unknowns(norm, |x|)) &&
      RegionContribution(norm, x, y, r, trn, tol, solve, predict) == Contribute(norm, sol, x, y, trn, predict)
  {
    PoseUnknowns(norm, x, r, tol, trn);
  }

  /** A contribution moves `x` to a differently labelled point, or onto the training point. */
  lemma ContributeOrigin(norm: Norm, sol: Solution, x: seq<real>, y: nat, trn: Option<seq<real>>,
                         predict: seq<real> -> nat)
    requires sol.status == Optimal ==> |sol.x| == Unknowns(norm, |x|)
    requires trn.Some? ==> |trn.value| == |x|
    requires Contribute(norm, sol, x, y, trn, predict).Success?
    ensures var c := Contribute(norm, sol, x, y, trn, predict).value;
      c.Some? ==> |c.value| == |x| && (predict(Add(x, c.value)) != y || (trn.Some? && c.value == Sub(trn.value, x)))
  {
    if sol.status == Optimal {
      var ret := if norm == L2 then sol.x else sol.x[..|x|];
      AddSub(x, ret);
    }
  }

  /** The norm the search minimises (squared for L2, which selects the same candidate). */
  function Size(norm: Norm, v: seq<real>): real {
    match norm
    case L2 => NormSq(v)
    case LInf => NormInf(v)
  }

  function Sizes(norm: Norm, cands: seq<seq<real>>): (s: seq<real>)
    ensures |s| == |cands| && forall j :: 0 <= j < |cands| ==> s[j] == Size(norm, cands[j])
  {
    seq(|cands|, j requires 0 <= j < |cands| => Size(norm, cands[j]))
  }

  /** The perturbation `rev_get_sol_l2` / `rev_get_sol_linf` returns. */
  function GetSol(norm: Norm, x: seq<real>, y: nat, regions: seq<Box>, trns: Option<seq<seq<real>>>,
                  tol: real, solve: Problem -> Solution, predict: seq<real> -> nat): Result<seq<real>, SearchError>
    requires SearchOk(x, regions, trns) && Conforms(solve)
  {
    match Candidates(norm, x, y, regions, trns, tol, solve, predict)
    case Failure(e) => Failure(e)
    case Success(cands) =>
      if |cands| == 0 then Failure(NoCandidate) else Success(cands[ArgMin(Sizes(norm, cands))])
  }

  // ---------------------------------------------------------------------
  // The two searches
  // ---------------------------------------------------------------------

  /** The final selection of the search, once the candidate list is known. */
  lemma GetSolOf(norm: Norm, x: seq<real>, y: nat, regions: seq<Box>, trns: Option<seq<seq<real>>>,
                 tol: real, solve: Problem -> Solution, predict: seq<real> -> nat, cs: seq<seq<real>>)
    requires SearchOk(x, regions, trns) && Conforms(solve)
    requires Candidates(norm, x, y, regions, trns, tol, solve, predict) == Success(cs)
    ensures |cs| == 0 ==> GetSol(norm, x, y, regions, trns, tol, solve, predict) == Failure(NoCandidate)
    ensures |cs| > 0 ==> GetSol(norm, x, y, regions, trns, tol, solve, predict) == Success(cs[ArgMin(Sizes(norm, cs))])
  {
  }

  /** One pass of the loop of `rev_get_sol_l2`: the contribution of region `r`. */
  method SolveRegionL2(x: seq<real>, y: nat, r: Box, trn: Option<seq<real>>, tol: real,
                       qp: Problem -> Solution, predict: seq<real> -> nat) returns (c: Result<Option<seq<real>>, SearchError>)
    requires (trn.Some? ==> |trn.value| == |x|) && Conforms(qp)
    ensures c == RegionContribution(L2, x, y, r, trn, tol, qp, predict)
  {
    var sys := ConstraintListToMatrix(r);
    MatrixShape(r);
    var s := DropUnbounded(sys.G, sys.h, tol);
    var sol;
    if trn.None? {
      sol := qp(Problem(NearestL2(x), s.G, s.h, sys.C, sys.d, None));
    } else {
      sol := qp(Problem(NearestL2(x), s.G, s.h, sys.C, sys.d, Some(trn.value)));
    }
    ContributionIs(L2, x, y, r, trn, tol, qp, predict);
    if sol.status == Optimal {
      var ret := sol.x;
      if predict(ret) != y {
        c := Success(Some(Sub(ret, x)));
      } else if trn.Some? {
        c := Success(Some(Sub(trn.value, x)));
      } else {
        c := Success(None);
      }
    } else if sol.status == InfeasibleInaccurate {
      if trn.None? {
        return Failure(NoTrainingPoint);
      }
      c := Success(Some(Sub(trn.value, x)));
    } else if sol.status == Raised {
      c := Failure(SolverRaised);
    } else {
      c := Success(None);
    }
  }

  /** One pass of the loop of `rev_get_sol_linf`: the contribution of region `r`. */
  method SolveRegionLinf(x: seq<real>, y: nat, r: Box, trn: Option<seq<real>>, tol: real,
                         lp: Problem -> Solution, predict: seq<real> -> nat) returns (c: Result<Option<seq<real>>, SearchError>)
    requires (trn.Some? ==> |trn.value| == |x|) && Conforms(lp)
    ensures c == RegionContribution(LInf, x, y, r, trn, tol, lp, predict)
  {
    var n := |x|;
    var sys := ConstraintListToMatrix(r);
    MatrixShape(r);
    if |sys.G| == 0 {
      return Failure(StackShapeError);
    }
    var G := Widen(sys.G) + Ups(n) + Downs(n);
    var h := sys.h + Fins(x) + NegFins(x);
    var s := DropUnbounded(G, h, tol);
    var C := if sys.C.Some? then Some(Widen(sys.C.value)) else None;
    var sol;
    if trn.None? {
      sol := lp(Problem(MinLast(n + 1), s.G, s.h, C, sys.d, None));
    } else {
      var init := LinfStart(trn.value, x);
      sol := lp(Problem(MinLast(n + 1), s.G, s.h, C, sys.d, Some(init)));
    }
    ContributionIs(LInf, x, y, r, trn, tol, lp, predict);
    if sol.status == Optimal {
      var ret := sol.x[..n];
      if predict(ret) != y {
        c := Success(Some(Sub(ret, x)));
      } else if trn.Some? {
        c := Success(Some(Sub(trn.value, x)));
      } else {
        c := Success(None);
      }
    } else if sol.status == InfeasibleInaccurate {
      if trn.None? {
        return Failure(NoTrainingPoint);
      }
      c := Success(Some(Sub(trn.value, x)));
    } else if sol.status == Raised {
      c := Failure(SolverRaised);
    } else {
      c := Success(None);
    }
  }

  /** `rev_get_sol_l2`: a candidate perturbation of least L2 norm over `regions`. */
  method RevGetSolL2(x: seq<real>, y: nat, regions: seq<Box>, trns: Option<seq<seq<real>>>, tol: real,
             qp: Problem -> Solution, predict: seq<real> -> nat) returns (res: Result<seq<real>, SearchError>)
    requires SearchOk(x, regions, trns) && Conforms(qp)
    ensures res == GetSol(L2, x, y, regions, trns, tol, qp, predict)
  {
    ghost var cs := Contributions(L2, x, y, regions, trns, tol, qp, predict);
    var candidates: seq<seq<real>> := [];
    for i := 0 to |regions|
      invariant Keep(cs[..i]) == Success(candidates)
    {
      var c := SolveRegionL2(x, y, regions[i], TrainingPoint(trns, i), tol, qp, predict);
      assert cs[i] == c;
      KeepStep(cs, i, candidates);
      if c.Failure? {
        KeepStaysFailed(cs, i + 1);
        return Failure(c.error);
      }
      if c.value.Some? {
        candidates := candidates + [c.value.value];
      }
    }
    assert cs[..|regions|] == cs;
    GetSolOf(L2, x, y, regions, trns, tol, qp, predict, candidates);
    if |candidates| == 0 {
      return Failure(NoCandidate);
    }
    var norms := Sizes(L2, candidates);
    res := Success(candidates[ArgMin(norms)]);
  }

  /** `rev_get_sol_linf`: a candidate perturbation of least L-infinity norm over `regions`. */
  method RevGetSolLinf(x: seq<real>, y: nat, regions: seq<Box>, trns: Option<seq<seq<real>>>, tol: real,
               lp: Problem -> Solution, predict: seq<real> -> nat) returns (res: Result<seq<real>, SearchError>)
    requires SearchOk(x, regions, trns) && Conforms(lp)
    ensures res == GetSol(LInf, x, y, regions, trns, tol, lp, predict)
  {
    ghost var cs := Contributions(LInf, x, y, regions, trns, tol, lp, predict);
    var candidates: seq<seq<real>> := [];
    for i := 0 to |regions|
      invariant Keep(cs[..i]) == Success(candidates)
    {
      var c := SolveRegionLinf(x, y, regions[i], TrainingPoint(trns, i), tol, lp, predict);
      assert cs[i] == c;
      KeepStep(cs, i, candidates);
      if c.Failure? {
        KeepStaysFailed(cs, i + 1);
        return Failure(c.error);
      }
      if c.value.Some? {
        candidates := candidates + [c.value.value];
      }
    }
    assert cs[..|regions|] == cs;
    GetSolOf(LInf, x, y, regions, trns, tol, lp, predict, candidates);
    if |candidates| == 0 {
      return Failure(NoCandidate);
    }
    var norms := Sizes(LInf, candidates);
    res := Success(candidates[ArgMin(norms)]);
  }

  // ---------------------------------------------------------------------
  // What the search promises
  // ---------------------------------------------------------------------

  /** A region contributes a move to a differently labelled point, or onto its training point. */
  lemma RegionOrigin(norm: Norm, x: seq<real>, y: nat, r: Box, trn: Option<seq<real>>,
                     tol: real, solve: Problem -> Solution, predict: seq<real> -> nat, d: seq<real>)
    requires (trn.Some? ==> |trn.value| == |x|) && Conforms(solve)
    requires RegionContribution(norm, x, y, r, trn, tol, solve, predict) == Success(Some(d))
    ensures |d| == |x| && (predict(Add(x, d)) != y || (trn.Some? && d == Sub(trn.value, x)))
  {
    ContributionIs(norm, x, y, r, trn, tol, solve, predict);
    ContributeOrigin(norm, solve(Pose(norm, x, r, tol, trn).value), x, y, trn, predict);
  }

  /**
    Every candidate either moves `x` to a point whose label differs from
    `y`, or moves it onto one of the training points.
  */
  lemma CandidatesOrigin(norm: Norm, x: seq<real>, y: nat, regions: seq<Box>, trns: Option<seq<seq<real>>>,
                         tol: real, solve: Problem -> Solution, predict: seq<real> -> nat)
    requires SearchOk(x, regions, trns) && Conforms(solve)
    requires Candidates(norm, x, y, regions, trns, tol, solve, predict).Success?
    ensures forall c :: c in Candidates(norm, x, y, regions, trns, tol, solve, predict).value ==>
      |c| == |x| &&
      (predict(Add(x, c)) != y || (trns.Some? && exists i :: 0 <= i < |regions| && c == Sub(trns.value[i], x)))
  {
    var cs := Contributions(norm, x, y, regions, trns, tol, solve, predict);
    KeepMembers(cs);
    forall c | c in Keep(cs).value
      ensures |c| == |x| &&
        (predict(Add(x, c)) != y || (trns.Some? && exists i :: 0 <= i < |regions| && c == Sub(trns.value[i], x)))
    {
      var i :| 0 <= i < |cs| && cs[i] == Success(Some(c));
      RegionOrigin(norm, x, y, regions[i], TrainingPoint(trns, i), tol, solve, predict, c);
    }
  }

  /**
    When every training point searched is labelled differently from `y`,
    every returned perturbation changes the label of `x`.
  */
  lemma GetSolFlips(norm: Norm, x: seq<real>, y: nat, regions: seq<Box>, trns: Option<seq<seq<real>>>,
                    tol: real, solve: Problem -> Solution, predict: seq<real> -> nat)
    requires SearchOk(x, regions, trns) && Conforms(solve)
    requires trns.Some? ==> forall i :: 0 <= i < |trns.value| ==> predict(trns.value[i]) != y
    requires GetSol(norm, x, y, regions, trns, tol, solve, predict).Success?
    ensures var p := GetSol(norm, x, y, regions, trns, tol, solve, predict).value;
      |p| == |x| && predict(Add(x, p)) != y
  {
    var cands := Candidates(norm, x, y, regions, trns, tol, solve, predict).value;
    CandidatesOrigin(norm, x, y, regions, trns, tol, solve, predict);
    var p := GetSol(norm, x, y, regions, trns, tol, solve, predict).value;
    assert p in cands;
    if trns.Some? && predict(Add(x, p)) == y {
      var i :| 0 <= i < |regions| && p == Sub(trns.value[i], x);
      AddSub(x, trns.value[i]);
    }
  }

  /** `Add(x, 0)` is `x`. */
  lemma AddZeros(x: seq<real>)
    ensures Add(x, Zeros(|x|)) == x
  {
  }

  /**
    A sample `x` that the forest labels `y` never receives the zero
    perturbation, so the `ValueError` of `perturb` cannot be raised.
  */
  lemma GetSolNonZero(norm: Norm, x: seq<real>, y: nat, regions: seq<Box>, trns: Option<seq<seq<real>>>,
                      tol: real, solve: Problem -> Solution, predict: seq<real> -> nat)
    requires SearchOk(x, regions, trns) && Conforms(solve) && predict(x) == y
    requires trns.Some? ==> forall i :: 0 <= i < |trns.value| ==> predict(trns.value[i]) != y
    requires GetSol(norm, x, y, regions, trns, tol, solve, predict).Success?
    ensures GetSol(norm, x, y, regions, trns, tol, solve, predict).value != Zeros(|x|)
  {
    GetSolFlips(norm, x, y, regions, trns, tol, solve, predict);
    AddZeros(x);
  }

  /**
    The returned perturbation is a candidate of least norm, and the first
    such candidate in region order; the search fails for lack of a
    candidate exactly when no region contributed one.
  */
  lemma GetSolMinimal(norm: Norm, x: seq<real>, y: nat, regions: seq<Box>, trns: Option<seq<seq<real>>>,
                      tol: real, solve: Problem -> Solution, predict: seq<real> -> nat)
    requires SearchOk(x, regions, trns) && Conforms(solve)
    ensures var cs := Candidates(norm, x, y, regions, trns, tol, solve, predict);
      var res := GetSol(norm, x, y, regions, trns, tol, solve, predict);
      && (res.Failure? <==> cs.Failure? || cs.value == [])
      && (res.Success? ==>
            (exists k :: 0 <= k < |cs.value| && cs.value[k] == res.value &&
              (forall j :: 0 <= j < |cs.value| ==> Size(norm, res.value) <= Size(norm, cs.value[j])) &&
              (forall j :: 0 <= j < k ==> Size(norm, res.value) < Size(norm, cs.value[j]))))
  {
    var cs := Candidates(norm, x, y, regions, trns, tol, solve, predict);
    if cs.Success? && |cs.value| > 0 {
      var k := ArgMin(Sizes(norm, cs.value));
      assert cs.value[k] == GetSol(norm, x, y, regions, trns, tol, solve, predict).value;
    }
  }

  // ----- what the posed problems mean -----

  /**
    Dropping the unbounded rows and shifting the rest by `-tol` loses
    nothing: a point satisfies what is left exactly when it satisfies every
    original row with `tol` to spare.
  */
  lemma {:induction false} DropUnboundedMeaning(G: seq<seq<real>>, h: seq<Bound>, tol: real, y: seq<real>)
    requires |G| == |h| && Width(G, |y|)
    ensures var s := DropUnbounded(G, h, tol);
      IneqsHold(s.G, s.h, y, 0.0) <==> IneqsHold(G, h, y, -tol)
  {
    if |G| > 0 {
      var m := |G| - 1;
      DropUnboundedMeaning(G[..m], h[..m], tol, y);
      IneqsHoldSnoc(G, h, y, -tol);
      if h[m].Finite? {
        var rest := DropUnbounded(G[..m], h[..m], tol);
        IneqsHoldPush(rest.G, rest.h, G[m], Shift(h[m], -tol), y, 0.0);
      }
    }
  }

  lemma MatrixWidth(r: Box)
    ensures Width(ToMatrix(r).G, |r| / 2)
    ensures ToMatrix(r).C.Some? ==> Width(ToMatrix(r).C.value, |r| / 2)
  {
    MatrixShape(r);
  }

  /** The equalities and inequalities a point must satisfy for a problem. */
  predicate Feasible(p: Problem, z: seq<real>) {
    IneqsHold(p.G, p.h, z, 0.0) && (p.C.Some? && p.d.Some? ==> EqsHold(p.C.value, p.d.value, z))
  }

  /**
    A point feasible for the L2 problem of region `r` lies in `r`, with
    every inequality of the region met with `tol` to spare.
  */
  lemma L2ProblemMeaning(x: seq<real>, r: Box, tol: real, trn: Option<seq<real>>, z: seq<real>)
    requires |r| == 2 * |x| && |z| == |x| && tol >= 0.0 && (trn.Some? ==> |trn.value| == |x|)
    ensures var sys := ToMatrix(r);
      Feasible(Pose(L2, x, r, tol, trn).value, z) <==> Holds(sys, z, -tol)
    ensures Feasible(Pose(L2, x, r, tol, trn).value, z) ==> InBox(z, r)
  {
    var sys := ToMatrix(r);
    MatrixShape(r);
    MatrixWidth(r);
    DropUnboundedMeaning(sys.G, sys.h, tol, z);
    if Holds(sys, z, -tol) {
      IneqsHoldLoosen(sys.G, sys.h, z, -tol, 0.0);
      MatrixMeaning(r, z);
    }
  }

  lemma WidenMeaning(G: seq<seq<real>>, h: seq<Bound>, z: seq<real>, t: real, slack: real)
    requires |G| == |h| && Width(G, |z|)
    ensures IneqsHold(Widen(G), h, z + [t], slack) <==> IneqsHold(G, h, z, slack)
  {
    forall j | 0 <= j < |G| ensures Dot(Widen(G)[j], z + [t]) == Dot(G[j], z) {
      DotAppend(G[j], z, 0.0, t);
    }
  }

  lemma WidenEqsMeaning(C: seq<seq<real>>, d: seq<real>, z: seq<real>, t: real)
    requires |C| == |d| && Width(C, |z|)
    ensures EqsHold(Widen(C), d, z + [t]) <==> EqsHold(C, d, z)
  {
    forall j | 0 <= j < |C| ensures Dot(Widen(C)[j], z + [t]) == Dot(C[j], z) {
      DotAppend(C[j], z, 0.0, t);
    }
  }

  lemma BandDots(n: nat, j: nat, z: seq<real>, t: real)
    requires j < n && |z| == n
    ensures Dot(Ups(n)[j], z + [t]) == z[j] - t
    ensures Dot(Downs(n)[j], z + [t]) == -z[j] - t
  {
    UnitFacts(n, j, z);
    DotAppend(Unit(n, j), z, -1.0, t);
    DotAppend(Neg(Unit(n, j)), z, -1.0, t);
  }

  /** The rows `z_j - t <= x_j + slack`. */
  lemma UpsMeaning(x: seq<real>, z: seq<real>, t: real, slack: real)
    requires |z| == |x|
    ensures IneqsHold(Ups(|x|), Fins(x), z + [t], slack) <==>
            forall j :: 0 <= j < |x| ==> z[j] - t <= x[j] + slack
  {
    forall j | 0 <= j < |x| ensures Dot(Ups(|x|)[j], z + [t]) == z[j] - t {
      BandDots(|x|, j, z, t);
    }
  }

  /** The rows `-z_j - t <= -x_j + slack`. */
  lemma DownsMeaning(x: seq<real>, z: seq<real>, t: real, slack: real)
    requires |z| == |x|
    ensures IneqsHold(Downs(|x|), NegFins(x), z + [t], slack) <==>
            forall j :: 0 <= j < |x| ==> -z[j] - t <= -x[j] + slack
  {
    forall j | 0 <= j < |x| ensures Dot(Downs(|x|)[j], z + [t]) == -z[j] - t {
      BandDots(|x|, j, z, t);
    }
  }

  /** `t` bounds every coordinate distance from `x` with `tol` to spare. */
  predicate WithinBand(x: seq<real>, z: seq<real>, t: real, tol: real)
    requires |z| == |x|
  {
    forall j :: 0 <= j < |x| ==> Abs(z[j] - x[j]) <= t - tol
  }

  /** The stacked rows of the L-infinity problem before dropping: `n + 1` columns each. */
  lemma LinfRowsWidth(G: seq<seq<real>>, n: nat)
    requires Width(G, n)
    ensures Width(Widen(G) + Ups(n) + Downs(n), n + 1)
  {
    var W := Widen(G) + Ups(n) + Downs(n);
    forall j | 0 <= j < |W| ensures |W[j]| == n + 1 {
      if j < |G| { assert W[j] == Widen(G)[j]; }
      else if j < |G| + n { assert W[j] == Ups(n)[j - |G|]; }
      else { assert W[j] == Downs(n)[j - |G| - n]; }
    }
  }

  /** Both band rows of coordinate `j` hold exactly when its distance is within `t - tol`. */
  lemma AbsBand(a: real, b: real, t: real, tol: real)
    ensures (a - t <= b + -tol && -a - t <= -b + -tol) <==> Abs(a - b) <= t - tol
  {
  }

  /** The band rows hold for `(z, t)` with slack `-tol` exactly when `z` is within the band. */
  lemma BandRowsMeaning(x: seq<real>, z: seq<real>, t: real, tol: real)
    requires |z| == |x|
    ensures IneqsHold(Ups(|x|), Fins(x), z + [t], -tol) && IneqsHold(Downs(|x|), NegFins(x), z + [t], -tol) <==>
            WithinBand(x, z, t, tol)
  {
    UpsMeaning(x, z, t, -tol);
    DownsMeaning(x, z, t, -tol);
    forall j | 0 <= j < |x|
      ensures (z[j] - t <= x[j] + -tol && -z[j] - t <= -x[j] + -tol) <==> Abs(z[j] - x[j]) <= t - tol
    {
      AbsBand(z[j], x[j], t, tol);
    }
  }

  /** The widened region rows and the band rows hold only for a point of the region within the band. */
  lemma LinfBlocksSound(G: seq<seq<real>>, h: seq<Bound>, x: seq<real>, z: seq<real>, t: real, tol: real)
    requires |G| == |h| && Width(G, |x|) && |z| == |x|
    requires IneqsHold(Widen(G), h, z + [t], -tol) && IneqsHold(Ups(|x|), Fins(x), z + [t], -tol) &&
             IneqsHold(Downs(|x|), NegFins(x), z + [t], -tol)
    ensures IneqsHold(G, h, z, -tol) && WithinBand(x, z, t, tol)
  {
    WidenMeaning(G, h, z, t, -tol);
    BandRowsMeaning(x, z, t, tol);
  }

  /** A point of the region within the band meets the widened region rows and the band rows. */
  lemma LinfBlocksComplete(G: seq<seq<real>>, h: seq<Bound>, x: seq<real>, z: seq<real>, t: real, tol: real)
    requires |G| == |h| && Width(G, |x|) && |z| == |x|
    requires IneqsHold(G, h, z, -tol) && WithinBand(x, z, t, tol)
    ensures IneqsHold(Widen(G), h, z + [t], -tol) && IneqsHold(Ups(|x|), Fins(x), z + [t], -tol) &&
            IneqsHold(Downs(|x|), NegFins(x), z + [t], -tol)
  {
    WidenMeaning(G, h, z, t, -tol);
    BandRowsMeaning(x, z, t, tol);
  }

  /**
    The stacked rows hold for `(z, t)` with slack `-tol` only when `z`
    meets the region's rows with `tol` to spare and `t - tol` bounds the
    coordinate distances to `x`.
  */
  lemma LinfRowsSound(G: seq<seq<real>>, h: seq<Bound>, x: seq<real>, z: seq<real>, t: real, tol: real)
    requires |G| == |h| && Width(G, |x|) && |z| == |x|
    requires IneqsHold(Widen(G) + Ups(|x|) + Downs(|x|), h + Fins(x) + NegFins(x), z + [t], -tol)
    ensures IneqsHold(G, h, z, -tol) && WithinBand(x, z, t, tol)
  {
    IneqsHoldSplit3(Widen(G), h, Ups(|x|), Fins(x), Downs(|x|), NegFins(x), z + [t], -tol);
    LinfBlocksSound(G, h, x, z, t, tol);
  }

  /** Conversely, such a `(z, t)` meets every stacked row. */
  lemma LinfRowsComplete(G: seq<seq<real>>, h: seq<Bound>, x: seq<real>, z: seq<real>, t: real, tol: real)
    requires |G| == |h| && Width(G, |x|) && |z| == |x|
    requires IneqsHold(G, h, z, -tol) && WithinBand(x, z, t, tol)
    ensures IneqsHold(Widen(G) + Ups(|x|) + Downs(|x|), h + Fins(x) + NegFins(x), z + [t], -tol)
  {
    LinfBlocksComplete(G, h, x, z, t, tol);
    IneqsHoldJoin3(Widen(G), h, Ups(|x|), Fins(x), Downs(|x|), NegFins(x), z + [t], -tol);
  }

  /**
    A point `(z, t)` is feasible for the L-infinity problem of region `r`
    exactly when `z` meets the region with `tol` to spare and `t - tol`
    bounds every coordinate distance between `z` and `x`; `z` then lies in
    `r`.
  */
  lemma LinfProblemMeaning(x: seq<real>, r: Box, tol: real, trn: Option<seq<real>>, z: seq<real>, t: real)
    requires |r| == 2 * |x| && |z| == |x| && tol >= 0.0 && (trn.Some? ==> |trn.value| == |x|)
    requires Pose(LInf, x, r, tol, trn).Success?
    ensures Feasible(Pose(LInf, x, r, tol, trn).value, z + [t]) <==>
            Holds(ToMatrix(r), z, -tol) && WithinBand(x, z, t, tol)
    ensures Feasible(Pose(LInf, x, r, tol, trn).value, z + [t]) ==> InBox(z, r)
  {
    var sys := ToMatrix(r);
    var n := |x|;
    MatrixShape(r);
    MatrixWidth(r);
    LinfRowsWidth(sys.G, n);
    DropUnboundedMeaning(Widen(sys.G) + Ups(n) + Downs(n), sys.h + Fins(x) + NegFins(x), tol, z + [t]);
    if IneqsHold(Widen(sys.G) + Ups(n) + Downs(n), sys.h + Fins(x) + NegFins(x), z + [t], -tol) {
      LinfRowsSound(sys.G, sys.h, x, z, t, tol);
    }
    if Holds(sys, z, -tol) && WithinBand(x, z, t, tol) {
      LinfRowsComplete(sys.G, sys.h, x, z, t, tol);
    }
    if sys.C.Some? {
      WidenEqsMeaning(sys.C.value, sys.d.value, z, t);
    }
    if Holds(sys, z, -tol) {
      IneqsHoldLoosen(sys.G, sys.h, z, -tol, 0.0);
      MatrixMeaning(r, z);
    }
  }
}
