/**
  The `RFAttack` object (rf_attack.py lines 182-345): its configuration,
  the regions `__init__` builds in exact ('all') or approx ('rev') mode,
  and `perturb`, which gives every sample the smallest perturbation found
  that moves it into a region the forest labels differently.
*/
module Attack {
  import opened Wrappers
  import opened Bounds
  import opened Vectors
  import opened Constraints
  import opened Trees
  import opened Oracles
  import opened Regions
  import opened Search

  /** `method='all'` (RBA-Exact) or `method='rev'` (RBA-Approx). */
  datatype Mode = Exact | Approx

  /**
    The arguments of `RFAttack.__init__` the attack depends on.  `trees`
    are `clf.estimators_`, `tables[i]` is what `get_tree_constraints`
    reports for tree `i`, `predict` is `clf.predict` on one sample, `kd`
    the neighbour order of the KD-tree (built only when `nSearches != -1`),
    and `tol` the constant `CONSTRAINTTOL`.
  */
  datatype Setup = Setup(
    trnX: seq<seq<real>>, n: nat,
    trees: seq<Tree>, tables: seq<seq<LeafConstraint>>, nClasses: nat,
    predict: seq<real> -> nat, mode: Mode, nSearches: int, norm: Norm,
    lp: Problem -> Solution, qp: Problem -> Solution,
    kd: Option<seq<real> -> seq<nat>>, tol: real)

  /** A neighbour query returns indices of training points only. */
  ghost predicate Neighbours(kd: seq<real> -> seq<nat>, m: nat) {
    forall q, k :: 0 <= k < |kd(q)| ==> kd(q)[k] < m
  }

  /** What the attack takes for granted about its arguments. */
  ghost predicate SetupOk(c: Setup) {
    (forall i :: 0 <= i < |c.trnX| ==> |c.trnX[i]| == c.n) &&
    Conforms(c.lp) && Conforms(c.qp) && c.tol >= 0.0 &&
    (c.kd.Some? <==> c.nSearches != -1) &&
    (c.kd.Some? ==> Neighbours(c.kd.value, |c.trnX|)) &&
    (c.mode == Exact ==> TablesOk(c.tables, c.n)) &&
    (c.mode == Approx ==> TreesOk(c.trees, c.n))
  }

  // ---------------------------------------------------------------------
  // The list manipulations of `perturb`
  // ---------------------------------------------------------------------

  /** Python's `s[:k]`: a prefix of `s`, a negative `k` dropping `-k` elements from the end. */
  function PyPrefix<T>(s: seq<T>, k: int): (r: seq<T>)
    ensures r <= s
    ensures k >= 0 ==> |r| == if k < |s| then k else |s|
    ensures k < 0 ==> |r| == if |s| + k > 0 then |s| + k else 0
  {
    if k >= 0 then (if k < |s| then s[..k] else s)
    else if |s| + k > 0 then s[..|s| + k] else []
  }

  /** `filter(lambda i: labels[i] != y, order)`. */
  function OtherLabelled(order: seq<nat>, labels: seq<nat>, y: nat): (r: seq<nat>)
    requires forall k :: 0 <= k < |order| ==> order[k] < |labels|
    ensures forall k :: 0 <= k < |r| ==> r[k] < |labels| && labels[r[k]] != y
  {
    if |order| == 0 then []
    else
      var m := |order| - 1;
      OtherLabelled(order[..m], labels, y) + (if labels[order[m]] != y then [order[m]] else [])
  }

  /** The filter keeps exactly the indices of `order` labelled other than `y`, in their order. */
  lemma {:induction false} OtherLabelledMembers(order: seq<nat>, labels: seq<nat>, y: nat, i: nat)
    requires forall k :: 0 <= k < |order| ==> order[k] < |labels|
    ensures i in OtherLabelled(order, labels, y) <==> i in order && labels[i] != y
  {
    if |order| > 0 {
      var m := |order| - 1;
      OtherLabelledMembers(order[..m], labels, y, i);
      assert order == order[..m] + [order[m]];
    }
  }

  /** `[regions[i] for i in range(len(regions)) if region_preds[i] != y]`. */
  function RegionsAgainst(regions: seq<Box>, preds: seq<nat>, y: nat): seq<Box>
    requires |regions| == |preds|
  {
    if |regions| == 0 then []
    else
      var m := |regions| - 1;
      RegionsAgainst(regions[..m], preds[..m], y) + (if preds[m] != y then [regions[m]] else [])
  }

  /** A region is searched exactly when it is one of the regions and its label is not `y`. */
  lemma {:induction false} RegionsAgainstMembers(regions: seq<Box>, preds: seq<nat>, y: nat, b: Box)
    requires |regions| == |preds|
    ensures b in RegionsAgainst(regions, preds, y) <==>
            exists i :: 0 <= i < |regions| && regions[i] == b && preds[i] != y
  {
    if |regions| > 0 {
      var m := |regions| - 1;
      RegionsAgainstMembers(regions[..m], preds[..m], y, b);
      if b in RegionsAgainst(regions, preds, y) && b !in RegionsAgainst(regions[..m], preds[..m], y) {
        assert regions[m] == b && preds[m] != y;
      }
      if exists i :: 0 <= i < |regions| && regions[i] == b && preds[i] != y {
        var i :| 0 <= i < |regions| && regions[i] == b && preds[i] != y;
        if i < m {
          assert regions[..m][i] == b && preds[..m][i] != y;
        }
      }
    }
  }

  /** `[s[i] for i in ind]` (and `trnX[ind]`). */
  function Pick<T>(s: seq<T>, ind: seq<nat>): (r: seq<T>)
    requires forall k :: 0 <= k < |ind| ==> ind[k] < |s|
    ensures |r| == |ind| && forall k :: 0 <= k < |ind| ==> r[k] == s[ind[k]]
  {
    seq(|ind|, k requires 0 <= k < |ind| => s[ind[k]])
  }

  // ---------------------------------------------------------------------
  // What perturb computes
  // ---------------------------------------------------------------------

  /** `regions` and `preds` are those `__init__` builds in the configured mode. */
  ghost predicate Built(c: Setup, regions: seq<Box>, preds: seq<nat>) {
    SetupOk(c) &&
    (c.mode == Exact ==>
       var e := ExactRegions(c.tables, c.nClasses, c.n, c.lp);
       e.Success? && regions == e.value.regions && preds == e.value.preds) &&
    (c.mode == Approx ==>
       |regions| == |c.trnX| && forall i :: 0 <= i < |c.trnX| ==> regions[i] == ForestBox(c.trees, c.trnX[i]))
  }

  /** `get_sol_fn`'s solver: the QP for the L2 norm, the LP for L-infinity. */
  function Solver(c: Setup): Problem -> Solution {
    if c.norm == L2 then c.qp else c.lp
  }

  /** `pred_trn_y`. */
  function TrainLabels(c: Setup): (labels: seq<nat>)
    ensures |labels| == |c.trnX| && forall i :: 0 <= i < |c.trnX| ==> labels[i] == c.predict(c.trnX[i])
  {
    seq(|c.trnX|, i requires 0 <= i < |c.trnX| => c.predict(c.trnX[i]))
  }

  /**
    The training points searched for sample `x` labelled `y` in approx
    mode: those the forest labels other than `y`, nearest first and cut
    to `n_searches` when the KD-tree is in use, all of them in index
    order otherwise.
  */
  function Searched(c: Setup, x: seq<real>, y: nat): (ind: seq<nat>)
    requires SetupOk(c)
    ensures forall k :: 0 <= k < |ind| ==> ind[k] < |c.trnX| && c.predict(c.trnX[ind[k]]) != y
  {
    if c.nSearches != -1 then PyPrefix(OtherLabelled(c.kd.value(x), TrainLabels(c), y), c.nSearches)
    else OtherLabelled(Range(|c.trnX|), TrainLabels(c), y)
  }

  /** With the KD-tree in use and `n_searches >= 0`, at most `n_searches` regions are searched. */
  lemma SearchedBound(c: Setup, x: seq<real>, y: nat)
    requires SetupOk(c) && c.nSearches >= 0
    ensures |Searched(c, x, y)| <= c.nSearches
  {
  }

  /** In approx mode, a training point is searched exactly when the forest labels it other than `y`. */
  lemma SearchedAll(c: Setup, x: seq<real>, y: nat, i: nat)
    requires SetupOk(c) && c.nSearches == -1
    ensures i in Searched(c, x, y) <==> i < |c.trnX| && c.predict(c.trnX[i]) != y
  {
    OtherLabelledMembers(Range(|c.trnX|), TrainLabels(c), y, i);
    if i < |c.trnX| {
      assert Range(|c.trnX|)[i] == i;
    }
  }

  /** The searches posed in exact mode are well formed. */
  lemma ExactSearchOk(c: Setup, regions: seq<Box>, preds: seq<nat>, x: seq<real>, y: nat)
    requires Built(c, regions, preds) && c.mode == Exact && |x| == c.n
    ensures |regions| == |preds| && SearchOk(x, RegionsAgainst(regions, preds, y), None)
  {
    ExactRegionsWidth(c.tables, c.nClasses, c.n, c.lp);
    var temp := RegionsAgainst(regions, preds, y);
    forall k | 0 <= k < |temp| ensures |temp[k]| == 2 * |x| {
      RegionsAgainstMembers(regions, preds, y, temp[k]);
    }
  }

  /**
    The searches posed in approx mode are well formed, and every training
    point they use is labelled other than `y`.
  */
  lemma ApproxSearchOk(c: Setup, regions: seq<Box>, preds: seq<nat>, x: seq<real>, y: nat)
    requires Built(c, regions, preds) && c.mode == Approx && |x| == c.n
    ensures var ind := Searched(c, x, y);
      SearchOk(x, Pick(regions, ind), Some(Pick(c.trnX, ind))) &&
      forall k :: 0 <= k < |ind| ==> c.predict(Pick(c.trnX, ind)[k]) != y
  {
  }

  /**
    What `perturb` computes for sample `x` with true label `y`: zero when
    the forest already mislabels it, otherwise the search over the regions
    labelled other than `y` (exact) or over the regions of the training
    points labelled other than `y`, with those points (approx).
  */
  function SamplePert(c: Setup, regions: seq<Box>, preds: seq<nat>, x: seq<real>, y: nat): Result<seq<real>, SearchError>
    requires Built(c, regions, preds) && |x| == c.n
  {
    if c.predict(x) != y then Success(Zeros(|x|))
    else if c.mode == Exact then
      ExactSearchOk(c, regions, preds, x, y);
      GetSol(c.norm, x, y, RegionsAgainst(regions, preds, y), None, c.tol, Solver(c), c.predict)
    else
      var ind := Searched(c, x, y);
      ApproxSearchOk(c, regions, preds, x, y);
      GetSol(c.norm, x, y, Pick(regions, ind), Some(Pick(c.trnX, ind)), c.tol, Solver(c), c.predict)
  }

  /** The samples `X` are all over the configured number of features. */
  predicate Samples(c: Setup, X: seq<seq<real>>, y: seq<nat>) {
    |X| == |y| && forall i :: 0 <= i < |X| ==> |X[i]| == c.n
  }

  /** The values of `rs` in order, or the first error among them. */
  function Gather<T, E>(rs: seq<Result<T, E>>): Result<seq<T>, E> {
    if |rs| == 0 then Success([])
    else match Gather(rs[..|rs| - 1])
      case Failure(e) => Failure(e)
      case Success(P) =>
        match rs[|rs| - 1]
        case Failure(e) => Failure(e)
        case Success(p) => Success(P + [p])
  }

  /** Gathering succeeds exactly when every result does, and then yields their values in order. */
  lemma {:induction false} GatherValues<T, E>(rs: seq<Result<T, E>>)
    ensures Gather(rs).Success? <==> forall i :: 0 <= i < |rs| ==> rs[i].Success?
    ensures Gather(rs).Success? ==>
      |Gather(rs).value| == |rs| && forall i :: 0 <= i < |rs| ==> Gather(rs).value[i] == rs[i].value
  {
    if |rs| > 0 {
      var m := |rs| - 1;
      GatherValues(rs[..m]);
      assert forall i :: 0 <= i < m ==> rs[..m][i] == rs[i];
    }
  }

  /** Once a prefix holds an error, the whole list reports that error. */
  lemma {:induction false} GatherStaysFailed<T, E>(rs: seq<Result<T, E>>, k: nat)
    requires k <= |rs| && Gather(rs[..k]).Failure?
    ensures Gather(rs) == Gather(rs[..k])
    decreases |rs| - k
  {
    if k < |rs| {
      assert rs[..k + 1][..k] == rs[..k];
      GatherStaysFailed(rs, k + 1);
    } else {
      assert rs[..k] == rs;
    }
  }

  /** The outcome of every sample, in order. */
  function SampleResults(c: Setup, regions: seq<Box>, preds: seq<nat>, X: seq<seq<real>>, y: seq<nat>)
    : (rs: seq<Result<seq<real>, SearchError>>)
    requires Built(c, regions, preds) && Samples(c, X, y)
    ensures |rs| == |X| && forall i :: 0 <= i < |X| ==> rs[i] == SamplePert(c, regions, preds, X[i], y[i])
  {
    seq(|X|, i requires 0 <= i < |X| => SamplePert(c, regions, preds, X[i], y[i]))
  }

  /** What `perturb` returns: every sample's perturbation, or the first error. */
  function PerturbSpec(c: Setup, regions: seq<Box>, preds: seq<nat>, X: seq<seq<real>>, y: seq<nat>)
    : Result<seq<seq<real>>, SearchError>
    requires Built(c, regions, preds) && Samples(c, X, y)
  {
    Gather(SampleResults(c, regions, preds, X, y))
  }

  /**
    Every perturbation returned moves its sample to a point the forest
    labels differently, and a sample already mislabelled is left alone.
  */
  lemma SampleFlips(c: Setup, regions: seq<Box>, preds: seq<nat>, x: seq<real>, y: nat)
    requires Built(c, regions, preds) && |x| == c.n && SamplePert(c, regions, preds, x, y).Success?
    ensures var p := SamplePert(c, regions, preds, x, y).value;
      |p| == |x| && c.predict(Add(x, p)) != y && (c.predict(x) != y ==> p == Zeros(|x|))
  {
    if c.predict(x) != y {
      AddZeros(x);
    } else if c.mode == Exact {
      ExactSearchOk(c, regions, preds, x, y);
      GetSolFlips(c.norm, x, y, RegionsAgainst(regions, preds, y), None, c.tol, Solver(c), c.predict);
    } else {
      var ind := Searched(c, x, y);
      ApproxSearchOk(c, regions, preds, x, y);
      GetSolFlips(c.norm, x, y, Pick(regions, ind), Some(Pick(c.trnX, ind)), c.tol, Solver(c), c.predict);
    }
  }

  /** A sample the forest labels correctly never receives the zero perturbation. */
  lemma SampleNonZero(c: Setup, regions: seq<Box>, preds: seq<nat>, x: seq<real>, y: nat)
    requires Built(c, regions, preds) && |x| == c.n && SamplePert(c, regions, preds, x, y).Success?
    requires c.predict(x) == y
    ensures SamplePert(c, regions, preds, x, y).value != Zeros(|x|)
  {
    SampleFlips(c, regions, preds, x, y);
    AddZeros(x);
  }

  /**
    The check at the end of exact-mode `perturb`, which holds in both
    modes: every returned row flips its sample's label, and a sample
    already mislabelled gets the zero row.
  */
  lemma PerturbFlips(c: Setup, regions: seq<Box>, preds: seq<nat>, X: seq<seq<real>>, y: seq<nat>)
    requires Built(c, regions, preds) && Samples(c, X, y)
    requires PerturbSpec(c, regions, preds, X, y).Success?
    ensures var P := PerturbSpec(c, regions, preds, X, y).value;
      |P| == |X| && forall i :: 0 <= i < |X| ==>
        |P[i]| == |X[i]| && c.predict(Add(X[i], P[i])) != y[i] && (c.predict(X[i]) != y[i] ==> P[i] == Zeros(|X[i]|))
  {
    var rs := SampleResults(c, regions, preds, X, y);
    GatherValues(rs);
    forall i | 0 <= i < |X|
      ensures |rs[i].value| == |X[i]| && c.predict(Add(X[i], rs[i].value)) != y[i]
      ensures c.predict(X[i]) != y[i] ==> rs[i].value == Zeros(|X[i]|)
    {
      SampleFlips(c, regions, preds, X[i], y[i]);
    }
  }

  /** `perturb` fails exactly when the search for some sample does, and reports the first such error. */
  lemma PerturbFails(c: Setup, regions: seq<Box>, preds: seq<nat>, X: seq<seq<real>>, y: seq<nat>)
    requires Built(c, regions, preds) && Samples(c, X, y)
    ensures PerturbSpec(c, regions, preds, X, y).Failure? <==>
      exists i :: 0 <= i < |X| && SamplePert(c, regions, preds, X[i], y[i]).Failure?
  {
    var rs := SampleResults(c, regions, preds, X, y);
    GatherValues(rs);
    if exists i :: 0 <= i < |X| && SamplePert(c, regions, preds, X[i], y[i]).Failure? {
      var i :| 0 <= i < |X| && SamplePert(c, regions, preds, X[i], y[i]).Failure?;
      assert !rs[i].Success?;
    }
  }

  /** `get_sol_fn` bound to the configured norm. */
  method Solve(c: Setup, x: seq<real>, y: nat, temp: seq<Box>, trns: Option<seq<seq<real>>>)
    returns (p: Result<seq<real>, SearchError>)
    requires SearchOk(x, temp, trns) && Conforms(c.lp) && Conforms(c.qp)
    ensures p == GetSol(c.norm, x, y, temp, trns, c.tol, Solver(c), c.predict)
  {
    if c.norm == L2 {
      p := RevGetSolL2(x, y, temp, trns, c.tol, c.qp, c.predict);
    } else {
      p := RevGetSolLinf(x, y, temp, trns, c.tol, c.lp, c.predict);
    }
  }

  /** One sample of `perturb`: `_helper` in exact mode, one pass of the loop in approx mode. */
  method Sample(c: Setup, regions: seq<Box>, preds: seq<nat>, x: seq<real>, y: nat)
    returns (p: Result<seq<real>, SearchError>)
    requires Built(c, regions, preds) && |x| == c.n
    ensures p == SamplePert(c, regions, preds, x, y)
  {
    if c.predict(x) != y {
      return Success(Zeros(|x|));
    }
    if c.mode == Exact {
      ExactSearchOk(c, regions, preds, x, y);
      var temp := RegionsAgainst(regions, preds, y);
      p := Solve(c, x, y, temp, None);
    } else {
      var ind := Searched(c, x, y);
      var temp := Pick(regions, ind);
      ApproxSearchOk(c, regions, preds, x, y);
      p := Solve(c, x, y, temp, Some(Pick(c.trnX, ind)));
      if p.Success? {
        var pert := p.value;
        SampleNonZero(c, regions, preds, x, y);
        SampleFlips(c, regions, preds, x, y);
        NormSqZero(pert);
        if NormSq(pert) != 0.0 {
          assert c.predict(Add(x, pert)) != y;
        } else {
          // the `ValueError("shouldn't happen")` branch
          assert false;
        }
      }
    }
  }

  /** The loop of `perturb` over the samples; the first search error aborts it. */
  method PerturbAll(c: Setup, regions: seq<Box>, preds: seq<nat>, X: seq<seq<real>>, y: seq<nat>)
    returns (res: Result<seq<seq<real>>, SearchError>)
    requires Built(c, regions, preds) && Samples(c, X, y)
    ensures res == PerturbSpec(c, regions, preds, X, y)
  {
    ghost var rs := SampleResults(c, regions, preds, X, y);
    var P: seq<seq<real>> := [];
    for i := 0 to |X|
      invariant Gather(rs[..i]) == Success(P)
    {
      var p := Sample(c, regions, preds, X[i], y[i]);
      assert rs[..i + 1][..i] == rs[..i] && rs[i] == p;
      if p.Failure? {
        GatherStaysFailed(rs, i + 1);
        return Failure(p.error);
      }
      P := P + [p.value];
    }
    assert rs[..|X|] == rs;
    PerturbFlips(c, regions, preds, X, y);
    assert forall i :: 0 <= i < |X| ==> c.predict(Add(X[i], P[i])) != y[i];
    res := Success(P);
  }

  // ---------------------------------------------------------------------
  // The attack object
  // ---------------------------------------------------------------------

  class RFAttack {
    const cfg: Setup
    /** `self.regions`. */
    var regions: seq<Box>
    /** `self.region_preds` (exact mode only). */
    var regionPreds: seq<nat>
    /** `self.perts`: the perturbations of the last successful `perturb`. */
    var perts: seq<seq<real>>

    /** The regions are those `__init__` builds in the configured mode. */
    ghost predicate Valid()
      reads this`regions, this`regionPreds
    {
      Built(cfg, regions, regionPreds)
    }

    /** The fields set at the top of `__init__`, before any region is built. */
    constructor (cfg: Setup)
      ensures this.cfg == cfg && regions == [] && regionPreds == [] && perts == []
    {
      this.cfg := cfg;
      regions := [];
      regionPreds := [];
      perts := [];
    }

    /**
      `RFAttack.__init__`: the configured object with its regions built, or
      the error `union_constraints` raised while enumerating exact-mode
      combinations.
    */
    static method Create(cfg: Setup) returns (res: Result<RFAttack, UnionError>)
      requires SetupOk(cfg)
      ensures res.Failure? <==> cfg.mode == Exact && ExactRegions(cfg.tables, cfg.nClasses, cfg.n, cfg.lp).Failure?
      ensures res.Failure? ==> res.error == ExactRegions(cfg.tables, cfg.nClasses, cfg.n, cfg.lp).error
      ensures res.Success? ==> fresh(res.value) && res.value.cfg == cfg && res.value.Valid() && res.value.perts == []
    {
      var a := new RFAttack(cfg);
      if cfg.mode == Exact {
        var err := a.BuildExactRegions();
        if err.Some? {
          return Failure(err.value);
        }
      } else {
        a.BuildApproxRegions();
      }
      res := Success(a);
    }

    /** Exact mode of `__init__` (lines 219-264). */
    method BuildExactRegions() returns (err: Option<UnionError>)
      requires SetupOk(cfg) && cfg.mode == Exact
      modifies this`regions, this`regionPreds
      ensures var e := ExactRegions(cfg.tables, cfg.nClasses, cfg.n, cfg.lp);
        (err.Some? <==> e.Failure?) && (e.Failure? ==> err.value == e.error) && (e.Success? ==> Valid())
    {
      var e := EnumerateRegions(cfg.tables, cfg.nClasses, cfg.n, cfg.lp);
      if e.Failure? {
        return Some(e.error);
      }
      regions, regionPreds := e.value.regions, e.value.preds;
      err := None;
    }

    /**
      Approx mode of `__init__` (lines 266-285): the regions, then the check
      that every training point satisfies its own region's rows within
      `CONSTRAINTTOL`.
    */
    method BuildApproxRegions()
      requires SetupOk(cfg) && cfg.mode == Approx
      modifies this`regions
      ensures Valid()
    {
      var X := cfg.trnX;
      var r := ForestRegions(cfg.trees, X, cfg.n);
      for i := 0 to |X| {
        var sys := ConstraintListToMatrix(r[i]);
        ApproxCheckHolds(cfg.trees, X[i], cfg.tol);
        if sys.C.Some? && sys.d.Some? {
          assert false;
        } else {
          assert IneqsHold(sys.G, sys.h, X[i], cfg.tol);
        }
      }
      regions := r;
    }

    /**
      `perturb`: the perturbation of every sample, in order, stored in
      `perts`; a search error aborts it and leaves `perts` as it was.
    */
    method Perturb(X: seq<seq<real>>, y: seq<nat>) returns (res: Result<seq<seq<real>>, SearchError>)
      requires Valid() && Samples(cfg, X, y)
      modifies this`perts
      ensures res == PerturbSpec(cfg, regions, regionPreds, X, y)
      ensures res.Success? ==> perts == res.value
      ensures res.Failure? ==> perts == old(perts)
    {
      res := PerturbAll(cfg, regions, regionPreds, X, y);
      if res.Success? {
        perts := res.value;
      }
    }
  }
}
