/**
  What the attack asks of code outside this model: the LP/QP solvers
  behind `solve_lp` / `solve_qp`, the classifier's `predict` and the
  KD-tree's neighbour order.  Each is a function parameter.
*/
module Oracles {
  import opened Wrappers
  import opened Bounds

  /**
    The solver statuses the attack distinguishes; `Raised` stands for an
    exception thrown by the solver call.
  */
  datatype Status = Optimal | InfeasibleInaccurate | OtherStatus | Raised

  datatype Objective =
    | Feasibility(width: nat)     // c = 0: only feasibility matters
    | NearestL2(target: seq<real>) // Q = 2I, q = -2x: the point nearest to x
    | MinLast(width: nat)          // c = e_last: minimise the added coordinate t

  /** `G z <= h`, and `C z = d` when present, over points of the objective's width. */
  datatype Problem = Problem(
    objective: Objective, G: seq<seq<real>>, h: seq<Bound>,
    C: Option<seq<seq<real>>>, d: Option<seq<real>>, init: Option<seq<real>>)

  datatype Solution = Solution(status: Status, x: seq<real>)

  function VarCount(o: Objective): nat {
    match o
    case Feasibility(w) => w
    case NearestL2(x) => |x|
    case MinLast(w) => w
  }

  /** A solver reports optimal points of the problem's width. */
  ghost predicate Conforms(solve: Problem -> Solution) {
    forall p :: solve(p).status == Optimal ==> |solve(p).x| == VarCount(p.objective)
  }
}
