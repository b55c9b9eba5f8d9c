/**
  The regions `RFAttack.__init__` builds (rf_attack.py lines 219-285).

  Exact mode ('all') enumerates every tuple of per-tree classes, keeps for
  each tree the leaves predicting that tree's class, and judges every
  combination of one kept leaf per tree: the union of their constraints is
  a candidate region, kept when the feasibility LP reports `optimal` and
  labelled with the tuple's majority class.

  Approx mode ('rev') gives every training point the intersection of its
  per-tree path boxes.
*/
module Regions {
  import opened Wrappers
  import opened Bounds
  import opened Vectors
  import opened Constraints
  import opened Trees
  import opened Oracles

  // ---------------------------------------------------------------------
  // itertools.product
  // ---------------------------------------------------------------------

  /** Every tuple `[h] + t` for `h` in `heads` (outer) and `t` in `tails` (inner). */
  function PrependEach<T>(heads: seq<T>, tails: seq<seq<T>>): seq<seq<T>> {
    if |heads| == 0 then []
    else seq(|tails|, j requires 0 <= j < |tails| => [heads[0]] + tails[j]) + PrependEach(heads[1..], tails)
  }

  /** `itertools.product(*lists)`, in its lexicographic order. */
  function Product<T>(lists: seq<seq<T>>): seq<seq<T>> {
    if |lists| == 0 then [[]] else PrependEach(lists[0], Product(lists[1..]))
  }

  lemma {:induction false} PrependEachMembers<T>(heads: seq<T>, tails: seq<seq<T>>, t: seq<T>)
    ensures t in PrependEach(heads, tails) <==> |t| > 0 && t[0] in heads && t[1..] in tails
  {
    if |heads| > 0 {
      PrependEachMembers(heads[1..], tails, t);
      var front := seq(|tails|, j requires 0 <= j < |tails| => [heads[0]] + tails[j]);
      if t in front {
        var j :| 0 <= j < |tails| && front[j] == t;
        assert t[1..] == tails[j];
      }
      if |t| > 0 && t[0] == heads[0] && t[1..] in tails {
        var j :| 0 <= j < |tails| && tails[j] == t[1..];
        assert front[j] == t;
      }
      if |t| > 0 && t[0] in heads {
        var i :| 0 <= i < |heads| && heads[i] == t[0];
        if i > 0 { assert heads[1..][i - 1] == t[0]; }
      }
    }
  }

  /** The product holds exactly the tuples taking their `i`-th entry from the `i`-th list. */
  lemma {:induction false} ProductMembers<T>(lists: seq<seq<T>>, t: seq<T>)
    ensures t in Product(lists) <==> |t| == |lists| && forall i :: 0 <= i < |t| ==> t[i] in lists[i]
    decreases |lists|
  {
    if |lists| > 0 {
      PrependEachMembers(lists[0], Product(lists[1..]), t);
      if |t| > 0 {
        ProductMembers(lists[1..], t[1..]);
        if |t| == |lists| && forall i :: 0 <= i < |t| ==> t[i] in lists[i] {
          forall i | 0 <= i < |t[1..]| ensures t[1..][i] in lists[1..][i] {
            assert t[1..][i] == t[i + 1];
          }
        }
        if t[0] in lists[0] && t[1..] in Product(lists[1..]) {
          forall i | 0 <= i < |t| ensures t[i] in lists[i] {
            if i > 0 { assert t[i] == t[1..][i - 1] && lists[i] == lists[1..][i - 1]; }
          }
        }
      }
    }
  }

  function Range(m: nat): (r: seq<nat>)
    ensures |r| == m && forall i :: 0 <= i < m ==> r[i] == i
  {
    seq(m, i => i)
  }

  /** `product(range(n_classes), repeat=n_estimators)`. */
  function Tuples(nClasses: nat, m: nat): seq<seq<nat>> {
    Product(seq(m, _ => Range(nClasses)))
  }

  /** The tuples visited are exactly the class tuples of the right length. */
  lemma TuplesMembers(nClasses: nat, m: nat, t: seq<nat>)
    ensures t in Tuples(nClasses, m) <==> |t| == m && forall i :: 0 <= i < m ==> t[i] < nClasses
  {
    var lists := seq(m, _ => Range(nClasses));
    ProductMembers(lists, t);
    if |t| == m {
      forall i | 0 <= i < m ensures t[i] in lists[i] <==> t[i] < nClasses {
        if t[i] < nClasses { assert Range(nClasses)[t[i]] == t[i]; }
      }
    }
  }

  lemma TuplesShape(nClasses: nat, m: nat)
    ensures forall t :: t in Tuples(nClasses, m) ==> |t| == m
  {
    forall t | t in Tuples(nClasses, m) ensures |t| == m {
      TuplesMembers(nClasses, m, t);
    }
  }

  // ---------------------------------------------------------------------
  // argmax(bincount(res))
  // ---------------------------------------------------------------------

  /** How many trees vote for class `c`. */
  function Count(res: seq<nat>, c: nat): nat {
    multiset(res)[c]
  }

  function MaxOf(res: seq<nat>): (m: nat)
    requires |res| > 0
    ensures m in res && forall i :: 0 <= i < |res| ==> res[i] <= m
  {
    if |res| == 1 then res[0]
    else
      var m := MaxOf(res[1..]);
      assert forall i :: 1 <= i < |res| ==> res[i] == res[1..][i - 1];
      if res[0] > m then res[0] else m
  }

  /** `np.bincount(res)`: one count per class `0 .. max(res)`. */
  function Bincount(res: seq<nat>): (counts: seq<real>)
    requires |res| > 0
    ensures |counts| == MaxOf(res) + 1
  {
    seq(MaxOf(res) + 1, c requires 0 <= c => Count(res, c) as real)
  }

  /** `np.argmax(np.bincount(res))`: the label of a region. */
  function Vote(res: seq<nat>): nat
    requires |res| > 0
  {
    ArgMax(Bincount(res))
  }

  /**
    The vote is a class with the most votes, a class some tree voted for,
    and among equally voted classes the lowest one.
  */
  lemma VoteIsMajority(res: seq<nat>)
    requires |res| > 0
    ensures Vote(res) in res
    ensures forall c: nat :: Count(res, c) <= Count(res, Vote(res))
    ensures forall c: nat :: c < Vote(res) ==> Count(res, c) < Count(res, Vote(res))
  {
    var counts, v := Bincount(res), Vote(res);
    var m := MaxOf(res);
    assert counts[m] == Count(res, m) as real;
    assert Count(res, m) > 0;
    assert counts[v] >= counts[m];
    forall c: nat ensures Count(res, c) <= Count(res, v) {
      if c <= m {
        assert counts[c] == Count(res, c) as real;
      } else {
        assert c !in res;
      }
    }
    forall c: nat | c < v ensures Count(res, c) < Count(res, v) {
      assert counts[c] == Count(res, c) as real && counts[v] == Count(res, v) as real;
    }
  }

  // ---------------------------------------------------------------------
  // Leaves kept per tree
  // ---------------------------------------------------------------------

  /**
    A leaf of one tree as `get_tree_constraints` reports it: the class
    distribution stored at the leaf and the constraint rows of its path.
  */
  datatype LeafConstraint = LeafConstraint(value: seq<real>, G: seq<seq<real>>, h: seq<Bound>)

  /** A leaf over `n` features: a non-empty class distribution and one bound per row of width `n`. */
  predicate LeafOk(l: LeafConstraint, n: nat) {
    |l.value| > 0 && Width(l.G, n) && |l.G| == |l.h|
  }

  predicate LeavesOk(leaves: seq<LeafConstraint>, n: nat) {
    forall p :: 0 <= p < |leaves| ==> LeafOk(leaves[p], n)
  }

  /** `np.argmax(value[leaf])`: the class a leaf predicts. */
  function ClassOf(l: LeafConstraint): nat
    requires |l.value| > 0
  {
    ArgMax(l.value)
  }

  /** The leaves, in path order, whose predicted class is `c`. */
  function LeavesOfClass(leaves: seq<LeafConstraint>, c: nat): seq<LeafConstraint>
    requires forall p :: 0 <= p < |leaves| ==> |leaves[p].value| > 0
  {
    if |leaves| == 0 then []
    else
      var last := leaves[|leaves| - 1];
      LeavesOfClass(leaves[..|leaves| - 1], c) + (if ClassOf(last) == c then [last] else [])
  }

  method KeepLeavesOfClass(leaves: seq<LeafConstraint>, c: nat) returns (kept: seq<LeafConstraint>)
    requires forall p :: 0 <= p < |leaves| ==> |leaves[p].value| > 0
    ensures kept == LeavesOfClass(leaves, c)
  {
    kept := [];
    for p := 0 to |leaves|
      invariant kept == LeavesOfClass(leaves[..p], c)
    {
      assert leaves[..p + 1][..p] == leaves[..p];
      if ArgMax(leaves[p].value) == c {
        kept := kept + [leaves[p]];
      }
    }
    assert leaves[..|leaves|] == leaves;
  }

  /** A leaf is kept for class `c` exactly when it is one of the tree's leaves and predicts `c`. */
  lemma {:induction false} LeavesOfClassMembers(leaves: seq<LeafConstraint>, c: nat, l: LeafConstraint)
    requires forall p :: 0 <= p < |leaves| ==> |leaves[p].value| > 0
    ensures l in LeavesOfClass(leaves, c) <==> l in leaves && ClassOf(l) == c
  {
    if |leaves| > 0 {
      var front := leaves[..|leaves| - 1];
      LeavesOfClassMembers(front, c, l);
      assert leaves == front + [leaves[|leaves| - 1]];
    }
  }

  /** `perm_consts`: for every tree, its leaves predicting that tree's class in `res`. */
  function PermConsts(tables: seq<seq<LeafConstraint>>, res: seq<nat>): (pc: seq<seq<LeafConstraint>>)
    requires |res| == |tables|
    requires forall i, p :: 0 <= i < |tables| && 0 <= p < |tables[i]| ==> |tables[i][p].value| > 0
    ensures |pc| == |res|
  {
    seq(|res|, i requires 0 <= i < |res| => LeavesOfClass(tables[i], res[i]))
  }

  /** The loop filling `perm_consts`, one tree at a time. */
  method CollectPermConsts(tables: seq<seq<LeafConstraint>>, res: seq<nat>) returns (pc: seq<seq<LeafConstraint>>)
    requires |res| == |tables|
    requires forall i, p :: 0 <= i < |tables| && 0 <= p < |tables[i]| ==> |tables[i][p].value| > 0
    ensures pc == PermConsts(tables, res)
  {
    pc := [];
    for i := 0 to |tables|
      invariant |pc| == i && forall k :: 0 <= k < i ==> pc[k] == LeavesOfClass(tables[k], res[k])
    {
      var kept := KeepLeavesOfClass(tables[i], res[i]);
      pc := pc + [kept];
    }
  }

  // ---------------------------------------------------------------------
  // Judging one combination of leaves
  // ---------------------------------------------------------------------

  /** Every leaf of a combination has rows of width `n`, one bound per row. */
  predicate Shaped(pro: seq<LeafConstraint>, n: nat) {
    forall i :: 0 <= i < |pro| ==> Width(pro[i].G, n) && |pro[i].G| == |pro[i].h|
  }

  predicate AllShaped(pros: seq<seq<LeafConstraint>>, n: nat) {
    forall j :: 0 <= j < |pros| ==> Shaped(pros[j], n)
  }

  /** `np.vstack` of the leaves' rows. */
  function StackG(pro: seq<LeafConstraint>): seq<seq<real>> {
    if |pro| == 0 then [] else StackG(pro[..|pro| - 1]) + pro[|pro| - 1].G
  }

  /** `np.concatenate` of the leaves' bounds. */
  function StackH(pro: seq<LeafConstraint>): seq<Bound> {
    if |pro| == 0 then [] else StackH(pro[..|pro| - 1]) + pro[|pro| - 1].h
  }

  lemma {:induction false} StackShape(pro: seq<LeafConstraint>, n: nat)
    requires Shaped(pro, n)
    ensures Width(StackG(pro), n) && |StackG(pro)| == |StackH(pro)|
  {
    if |pro| > 0 {
      StackShape(pro[..|pro| - 1], n);
      var A, B := StackG(pro[..|pro| - 1]), pro[|pro| - 1].G;
      assert forall j :: 0 <= j < |B| ==> (A + B)[|A| + j] == B[j];
    }
  }

  /** The stacked rows hold for `y` exactly when every leaf's rows hold. */
  lemma {:induction false} StackMeaning(pro: seq<LeafConstraint>, y: seq<real>, n: nat)
    requires Shaped(pro, n)
    ensures IneqsHold(StackG(pro), StackH(pro), y, 0.0) <==>
            forall i :: 0 <= i < |pro| ==> IneqsHold(pro[i].G, pro[i].h, y, 0.0)
  {
    if |pro| > 0 {
      var front := pro[..|pro| - 1];
      StackMeaning(front, y, n);
      StackShape(front, n);
      IneqsHoldAppend(StackG(front), StackH(front), pro[|pro| - 1].G, pro[|pro| - 1].h, y, 0.0);
      assert forall i :: 0 <= i < |front| ==> front[i] == pro[i];
    }
  }

  datatype Verdict = Kept(region: Box) | Vacuous

  /**
    `union_constraints` of the stacked rows, then the feasibility LP on
    `constraint_list_to_matrix` of the result.  A union error escapes; an
    empty `G` (every dimension pinned, where `G[0]` raises inside the `try`),
    a status other than `optimal` and an exception from the solver make the
    combination vacuous.
  */
  function Judge(pro: seq<LeafConstraint>, n: nat, lp: Problem -> Solution): Result<Verdict, UnionError>
    requires Shaped(pro, n)
  {
    StackShape(pro, n);
    match Union(StackG(pro), StackH(pro), n)
    case Failure(e) => Failure(e)
    case Success(r) =>
      var sys := ToMatrix(r);
      if |sys.G| == 0 then Success(Vacuous)
      else if lp(Problem(Feasibility(|sys.G[0]|), sys.G, sys.h, sys.C, sys.d, None)).status == Optimal
      then Success(Kept(r))
      else Success(Vacuous)
  }

  /**
    A kept region is the intersection of the chosen leaves' constraint
    sets: a point lies in it exactly when it satisfies every chosen leaf.
  */
  lemma KeptRegionMeaning(pro: seq<LeafConstraint>, n: nat, lp: Problem -> Solution, r: Box, y: seq<real>)
    requires Shaped(pro, n)
    requires Judge(pro, n, lp) == Success(Kept(r)) && |y| == n
    ensures InBox(y, r) <==> forall i :: 0 <= i < |pro| ==> IneqsHold(pro[i].G, pro[i].h, y, 0.0)
  {
    StackShape(pro, n);
    UnionMeaning(StackG(pro), StackH(pro), n, y);
    StackMeaning(pro, y, n);
  }

  /** The body of the innermost loop of exact mode: union, conversion and the feasibility LP. */
  method JudgeCombination(pro: seq<LeafConstraint>, n: nat, lp: Problem -> Solution) returns (v: Result<Verdict, UnionError>)
    requires Shaped(pro, n)
    ensures v == Judge(pro, n, lp)
  {
    StackShape(pro, n);
    var u := UnionConstraints(StackG(pro), StackH(pro), n);
    if u.Failure? {
      return Failure(u.error);
    }
    var r := u.value;
    var sys := ConstraintListToMatrix(r);
    if |sys.G| == 0 {
      return Success(Vacuous);
    }
    var sol := lp(Problem(Feasibility(|sys.G[0]|), sys.G, sys.h, sys.C, sys.d, None));
    if sol.status == Optimal {
      v := Success(Kept(r));
    } else {
      v := Success(Vacuous);
    }
  }

  /** A kept region spans the `2n` slots of a box over `n` features. */
  lemma KeptWidth(pro: seq<LeafConstraint>, n: nat, lp: Problem -> Solution, r: Box)
    requires Shaped(pro, n) && Judge(pro, n, lp) == Success(Kept(r))
    ensures |r| == 2 * n
  {
    StackShape(pro, n);
    UnionSlots(StackG(pro), StackH(pro), n);
  }

  // ---------------------------------------------------------------------
  // Exact mode as a whole
  // ---------------------------------------------------------------------

  /** `self.regions`, `self.region_preds` and the count of vacuous combinations. */
  datatype Tally = Tally(regions: seq<Box>, preds: seq<nat>, vacuous: nat)

  function Record(t: Tally, v: Verdict, pred: nat): Tally {
    match v
    case Kept(r) => Tally(t.regions + [r], t.preds + [pred], t.vacuous)
    case Vacuous => Tally(t.regions, t.preds, t.vacuous + 1)
  }

  /** Every tree's leaves are well formed over `n` features, and there is at least one tree. */
  predicate TablesOk(tables: seq<seq<LeafConstraint>>, n: nat) {
    |tables| > 0 && forall i :: 0 <= i < |tables| ==> LeavesOk(tables[i], n)
  }

  /** The combinations of one kept leaf per tree for the class tuple `res`. */
  function Combinations(tables: seq<seq<LeafConstraint>>, res: seq<nat>, n: nat): seq<seq<LeafConstraint>>
    requires TablesOk(tables, n) && |res| == |tables|
  {
    Product(PermConsts(tables, res))
  }

  /** A combination holds one leaf per tree, each taken from that tree. */
  lemma CombinationShape(tables: seq<seq<LeafConstraint>>, res: seq<nat>, n: nat, pro: seq<LeafConstraint>)
    requires TablesOk(tables, n) && |res| == |tables| && pro in Combinations(tables, res, n)
    ensures |pro| == |tables|
    ensures forall i :: 0 <= i < |pro| ==> pro[i] in tables[i] && ClassOf(pro[i]) == res[i]
    ensures Shaped(pro, n)
  {
    ProductMembers(PermConsts(tables, res), pro);
    forall i | 0 <= i < |pro| ensures pro[i] in tables[i] && ClassOf(pro[i]) == res[i] {
      LeavesOfClassMembers(tables[i], res[i], pro[i]);
    }
    forall i | 0 <= i < |pro| ensures Width(pro[i].G, n) && |pro[i].G| == |pro[i].h| {
      var p :| 0 <= p < |tables[i]| && tables[i][p] == pro[i];
    }
  }

  lemma CombinationsOk(tables: seq<seq<LeafConstraint>>, res: seq<nat>, n: nat)
    requires TablesOk(tables, n) && |res| == |tables|
    ensures AllShaped(Combinations(tables, res, n), n)
  {
    var pros := Combinations(tables, res, n);
    forall j | 0 <= j < |pros| ensures Shaped(pros[j], n) {
      CombinationShape(tables, res, n, pros[j]);
    }
  }

  /** The outcome of judging every combination of the class tuple `res`, in product order. */
  function TupleVerdicts(tables: seq<seq<LeafConstraint>>, res: seq<nat>, n: nat,
                         lp: Problem -> Solution): (vs: seq<Result<Verdict, UnionError>>)
    requires TablesOk(tables, n) && |res| == |tables|
    ensures |vs| == |Combinations(tables, res, n)|
  {
    CombinationsOk(tables, res, n);
    var pros := Combinations(tables, res, n);
    seq(|pros|, j requires 0 <= j < |pros| => Judge(pros[j], n, lp))
  }

  /** Appends judged combinations, all labelled `pred`, to a tally; the first union error aborts. */
  function RecordAll(vs: seq<Result<Verdict, UnionError>>, pred: nat, t0: Tally): Result<Tally, UnionError> {
    if |vs| == 0 then Success(t0)
    else match RecordAll(vs[..|vs| - 1], pred, t0)
      case Failure(e) => Failure(e)
      case Success(t) =>
        match vs[|vs| - 1]
        case Failure(e) => Failure(e)
        case Success(v) => Success(Record(t, v, pred))
  }

  /** No verdict is an error. */
  predicate AllSucceed(vs: seq<Result<Verdict, UnionError>>) {
    forall j :: 0 <= j < |vs| ==> vs[j].Success?
  }

  /** Recording succeeds exactly when no verdict is an error. */
  lemma {:induction false} RecordAllFails(vs: seq<Result<Verdict, UnionError>>, pred: nat, t0: Tally)
    ensures RecordAll(vs, pred, t0).Success? <==> AllSucceed(vs)
  {
    if |vs| > 0 {
      var m := |vs| - 1;
      RecordAllFails(vs[..m], pred, t0);
      assert forall j :: 0 <= j < m ==> vs[..m][j] == vs[j];
    }
  }

  /**
    Recording keeps what was there, appends the kept regions with label
    `pred`, and counts every verdict once, as kept or as vacuous.
  */
  lemma {:induction false} RecordAllGrows(vs: seq<Result<Verdict, UnionError>>, pred: nat, t0: Tally)
    requires |t0.regions| == |t0.preds| && RecordAll(vs, pred, t0).Success?
    ensures var t := RecordAll(vs, pred, t0).value;
      |t.regions| == |t.preds| &&
      |t.regions| + t.vacuous == |t0.regions| + t0.vacuous + |vs| &&
      t0.regions <= t.regions && t0.preds <= t.preds &&
      forall i :: |t0.regions| <= i < |t.regions| ==> t.preds[i] == pred && Success(Kept(t.regions[i])) in vs
  {
    if |vs| > 0 {
      var m := |vs| - 1;
      RecordAllGrows(vs[..m], pred, t0);
      var prev := RecordAll(vs[..m], pred, t0).value;
      var t := RecordAll(vs, pred, t0).value;
      assert forall x :: x in vs[..m] ==> x in vs;
      if vs[m].value.Kept? {
        assert t.regions == prev.regions + [vs[m].value.region];
        assert t.regions[|prev.regions|] == vs[m].value.region;
      }
    }
  }

  /** Recording misses no kept region: each is appended, with label `pred`. */
  lemma {:induction false} RecordAllKeeps(vs: seq<Result<Verdict, UnionError>>, pred: nat, t0: Tally, r: Box)
    requires |t0.regions| == |t0.preds| && RecordAll(vs, pred, t0).Success? && Success(Kept(r)) in vs
    ensures var t := RecordAll(vs, pred, t0).value;
      exists i :: |t0.regions| <= i < |t.regions| && i < |t.preds| && t.regions[i] == r && t.preds[i] == pred
  {
    var m := |vs| - 1;
    var t := RecordAll(vs, pred, t0).value;
    var prev := RecordAll(vs[..m], pred, t0).value;
    RecordAllGrows(vs[..m], pred, t0);
    RecordAllGrows(vs, pred, t0);
    if vs[m] == Success(Kept(r)) {
      assert t.regions[|prev.regions|] == r;
    } else {
      assert Success(Kept(r)) in vs[..m];
      RecordAllKeeps(vs[..m], pred, t0, r);
      var i :| |t0.regions| <= i < |prev.regions| && i < |prev.preds| && prev.regions[i] == r && prev.preds[i] == pred;
      assert t.regions[i] == r;
    }
  }

  /** Once an error is met, recording the remaining verdicts keeps it. */
  lemma {:induction false} RecordAllStaysFailed(vs: seq<Result<Verdict, UnionError>>, pred: nat, t0: Tally, k: nat)
    requires k <= |vs| && RecordAll(vs[..k], pred, t0).Failure?
    ensures RecordAll(vs, pred, t0) == RecordAll(vs[..k], pred, t0)
    decreases |vs| - k
  {
    if k < |vs| {
      assert vs[..k + 1][..k] == vs[..k];
      RecordAllStaysFailed(vs, pred, t0, k + 1);
    } else {
      assert vs[..k] == vs;
    }
  }

  /**
    The loop over the combinations of class tuple `res` (lines 240-257):
    every combination is judged and recorded, labelled with the tuple's vote.
  */
  method RecordCombinations(tables: seq<seq<LeafConstraint>>, res: seq<nat>, n: nat, lp: Problem -> Solution, t0: Tally)
    returns (out: Result<Tally, UnionError>)
    requires TablesOk(tables, n) && |res| == |tables|
    ensures out == RecordAll(TupleVerdicts(tables, res, n, lp), Vote(res), t0)
  {
    var pc := CollectPermConsts(tables, res);
    var pros := Product(pc);
    CombinationsOk(tables, res, n);
    ghost var vs := TupleVerdicts(tables, res, n, lp);
    var pred := Vote(res);
    var t := t0;
    for j := 0 to |pros|
      invariant RecordAll(vs[..j], pred, t0) == Success(t)
    {
      var v := JudgeCombination(pros[j], n, lp);
      assert vs[..j + 1][..j] == vs[..j] && vs[j] == v;
      if v.Failure? {
        RecordAllStaysFailed(vs, pred, t0, j + 1);
        return Failure(v.error);
      }
      t := Record(t, v.value, pred);
    }
    assert vs[..|pros|] == vs;
    out := Success(t);
  }

  /** Records the verdicts of each class tuple in turn, labelling those of tuple `j` with `labels[j]`. */
  function RecordTuples(vss: seq<seq<Result<Verdict, UnionError>>>, labels: seq<nat>): Result<Tally, UnionError>
    requires |vss| == |labels|
  {
    if |vss| == 0 then Success(Tally([], [], 0))
    else
      var m := |vss| - 1;
      match RecordTuples(vss[..m], labels[..m])
      case Failure(e) => Failure(e)
      case Success(t) => RecordAll(vss[m], labels[m], t)
  }

  /** The total length of a list of lists. */
  function Total<T>(xss: seq<seq<T>>): nat {
    if |xss| == 0 then 0 else Total(xss[..|xss| - 1]) + |xss[|xss| - 1]|
  }

  lemma {:induction false} RecordTuplesFails(vss: seq<seq<Result<Verdict, UnionError>>>, labels: seq<nat>)
    requires |vss| == |labels|
    ensures RecordTuples(vss, labels).Success? <==> forall j :: 0 <= j < |vss| ==> AllSucceed(vss[j])
  {
    if |vss| > 0 {
      var m := |vss| - 1;
      RecordTuplesFails(vss[..m], labels[..m]);
      assert forall j :: 0 <= j < m ==> vss[..m][j] == vss[j];
      if RecordTuples(vss[..m], labels[..m]).Success? {
        RecordAllFails(vss[m], labels[m], RecordTuples(vss[..m], labels[..m]).value);
      }
    }
  }

  lemma {:induction false} RecordTuplesGrows(vss: seq<seq<Result<Verdict, UnionError>>>, labels: seq<nat>)
    requires |vss| == |labels| && RecordTuples(vss, labels).Success?
    ensures var t := RecordTuples(vss, labels).value;
      |t.regions| == |t.preds| && |t.regions| + t.vacuous == Total(vss) &&
      forall i :: 0 <= i < |t.regions| ==>
        exists j :: 0 <= j < |vss| && t.preds[i] == labels[j] && Success(Kept(t.regions[i])) in vss[j]
  {
    if |vss| > 0 {
      var m := |vss| - 1;
      RecordTuplesGrows(vss[..m], labels[..m]);
      var prev := RecordTuples(vss[..m], labels[..m]).value;
      var t := RecordTuples(vss, labels).value;
      RecordAllGrows(vss[m], labels[m], prev);
      forall i | 0 <= i < |t.regions|
        ensures exists j :: 0 <= j < |vss| && t.preds[i] == labels[j] && Success(Kept(t.regions[i])) in vss[j]
      {
        if i < |prev.regions| {
          assert t.regions[i] == prev.regions[i] && t.preds[i] == prev.preds[i];
          var j :| 0 <= j < m && prev.preds[i] == labels[..m][j] && Success(Kept(prev.regions[i])) in vss[..m][j];
          assert vss[..m][j] == vss[j] && labels[..m][j] == labels[j];
        } else {
          assert t.preds[i] == labels[m] && Success(Kept(t.regions[i])) in vss[m];
        }
      }
    }
  }

  lemma {:induction false} RecordTuplesKeeps(vss: seq<seq<Result<Verdict, UnionError>>>, labels: seq<nat>, j: nat, r: Box)
    requires |vss| == |labels| && RecordTuples(vss, labels).Success?
    requires j < |vss| && Success(Kept(r)) in vss[j]
    ensures var t := RecordTuples(vss, labels).value;
      exists i :: 0 <= i < |t.regions| && i < |t.preds| && t.regions[i] == r && t.preds[i] == labels[j]
  {
    var m := |vss| - 1;
    var prev := RecordTuples(vss[..m], labels[..m]).value;
    var t := RecordTuples(vss, labels).value;
    RecordTuplesGrows(vss[..m], labels[..m]);
    RecordAllGrows(vss[m], labels[m], prev);
    if j == m {
      RecordAllKeeps(vss[m], labels[m], prev, r);
    } else {
      assert vss[..m][j] == vss[j] && labels[..m][j] == labels[j];
      RecordTuplesKeeps(vss[..m], labels[..m], j, r);
      var i :| 0 <= i < |prev.regions| && i < |prev.preds| && prev.regions[i] == r && prev.preds[i] == labels[j];
      assert t.regions[i] == r && t.preds[i] == labels[j];
    }
  }

  /** The verdicts of every class tuple, in the order `product` yields the tuples. */
  function AllVerdicts(tables: seq<seq<LeafConstraint>>, tuples: seq<seq<nat>>, n: nat,
                       lp: Problem -> Solution): (vss: seq<seq<Result<Verdict, UnionError>>>)
    requires TablesOk(tables, n)
    requires forall j :: 0 <= j < |tuples| ==> |tuples[j]| == |tables|
    ensures |vss| == |tuples|
  {
    seq(|tuples|, j requires 0 <= j < |tuples| => TupleVerdicts(tables, tuples[j], n, lp))
  }

  /** The majority vote of every class tuple. */
  function Votes(tuples: seq<seq<nat>>): (labels: seq<nat>)
    requires forall j :: 0 <= j < |tuples| ==> |tuples[j]| > 0
    ensures |labels| == |tuples|
  {
    seq(|tuples|, j requires 0 <= j < |tuples| => Vote(tuples[j]))
  }

  /** Every tuple names one class per tree. */
  predicate TuplesFit(tables: seq<seq<LeafConstraint>>, tuples: seq<seq<nat>>) {
    forall j :: 0 <= j < |tuples| ==> |tuples[j]| == |tables|
  }

  /** The regions found when the class tuples are visited in the order `tuples`. */
  function RegionsOver(tables: seq<seq<LeafConstraint>>, tuples: seq<seq<nat>>, n: nat, lp: Problem -> Solution): Result<Tally, UnionError>
    requires TablesOk(tables, n) && TuplesFit(tables, tuples)
  {
    RecordTuples(AllVerdicts(tables, tuples, n, lp), Votes(tuples))
  }

  lemma AllTuplesFit(tables: seq<seq<LeafConstraint>>, nClasses: nat)
    ensures TuplesFit(tables, Tuples(nClasses, |tables|))
  {
    TuplesShape(nClasses, |tables|);
    var tuples := Tuples(nClasses, |tables|);
    assert forall j :: 0 <= j < |tuples| ==> tuples[j] in tuples;
  }

  /** Visiting one more class tuple records its verdicts after those of the tuples before it. */
  lemma RegionsOverStep(tables: seq<seq<LeafConstraint>>, tuples: seq<seq<nat>>, n: nat, lp: Problem -> Solution, k: nat)
    requires TablesOk(tables, n) && TuplesFit(tables, tuples) && k < |tuples|
    ensures TuplesFit(tables, tuples[..k]) && TuplesFit(tables, tuples[..k + 1])
    ensures RegionsOver(tables, tuples[..k + 1], n, lp) ==
      match RegionsOver(tables, tuples[..k], n, lp)
      case Failure(e) => Failure(e)
      case Success(t) => RecordAll(TupleVerdicts(tables, tuples[k], n, lp), Vote(tuples[k]), t)
  {
    var a, b := tuples[..k], tuples[..k + 1];
    assert b[..k] == a && b[k] == tuples[k];
    var vb := AllVerdicts(tables, b, n, lp);
    assert vb[..k] == AllVerdicts(tables, a, n, lp);
    assert Votes(b)[..k] == Votes(a);
  }

  /** Once a class tuple's verdicts hold an error, the whole enumeration reports it. */
  lemma {:induction false} RegionsOverStaysFailed(tables: seq<seq<LeafConstraint>>, tuples: seq<seq<nat>>, n: nat,
                                                  lp: Problem -> Solution, k: nat)
    requires TablesOk(tables, n) && TuplesFit(tables, tuples) && k <= |tuples|
    requires TuplesFit(tables, tuples[..k]) && RegionsOver(tables, tuples[..k], n, lp).Failure?
    ensures RegionsOver(tables, tuples, n, lp) == RegionsOver(tables, tuples[..k], n, lp)
    decreases |tuples| - k
  {
    if k < |tuples| {
      RegionsOverStep(tables, tuples, n, lp, k);
      RegionsOverStaysFailed(tables, tuples, n, lp, k + 1);
    } else {
      assert tuples[..k] == tuples;
    }
  }

  /**
    Exact-mode regions of a forest with `nClasses` classes whose trees have
    the leaf tables `tables`: `self.regions`, `self.region_preds` and the
    number of combinations found vacuous.
  */
  function ExactRegions(tables: seq<seq<LeafConstraint>>, nClasses: nat, n: nat, lp: Problem -> Solution): Result<Tally, UnionError>
    requires TablesOk(tables, n)
  {
    AllTuplesFit(tables, nClasses);
    RegionsOver(tables, Tuples(nClasses, |tables|), n, lp)
  }

  /**
    The enumeration of exact mode (lines 226-257): every class tuple in
    `product` order, every combination of its kept leaves, judged and
    recorded.
  */
  method EnumerateRegions(tables: seq<seq<LeafConstraint>>, nClasses: nat, n: nat, lp: Problem -> Solution)
    returns (res: Result<Tally, UnionError>)
    requires TablesOk(tables, n)
    ensures res == ExactRegions(tables, nClasses, n, lp)
  {
    AllTuplesFit(tables, nClasses);
    var tuples := Tuples(nClasses, |tables|);
    var t := Tally([], [], 0);
    assert tuples[..0] == [];
    for k := 0 to |tuples|
      invariant TuplesFit(tables, tuples[..k])
      invariant RegionsOver(tables, tuples[..k], n, lp) == Success(t)
    {
      RegionsOverStep(tables, tuples, n, lp, k);
      var next := RecordCombinations(tables, tuples[k], n, lp, t);
      if next.Failure? {
        RegionsOverStaysFailed(tables, tuples, n, lp, k + 1);
        return next;
      }
      t := next.value;
    }
    assert tuples[..|tuples|] == tuples;
    res := Success(t);
  }

  // ----- properties of the exact-mode tally -----

  /** `region` was kept, labelled `pred`, for class tuple `res` and the combination `pro` of its leaves. */
  ghost predicate Provenance(tables: seq<seq<LeafConstraint>>, n: nat, lp: Problem -> Solution,
                             res: seq<nat>, pro: seq<LeafConstraint>, region: Box, pred: nat)
    requires TablesOk(tables, n)
  {
    |res| == |tables| && pro in Combinations(tables, res, n) &&
    (CombinationShape(tables, res, n, pro);
     Judge(pro, n, lp) == Success(Kept(region)) && pred == Vote(res))
  }

  /** A region kept among the verdicts of `res` comes from one of its combinations. */
  lemma VerdictProvenance(tables: seq<seq<LeafConstraint>>, n: nat, lp: Problem -> Solution, res: seq<nat>, region: Box)
    requires TablesOk(tables, n) && |res| == |tables|
    requires Success(Kept(region)) in TupleVerdicts(tables, res, n, lp)
    ensures exists pro :: Provenance(tables, n, lp, res, pro, region, Vote(res))
  {
    var vs := TupleVerdicts(tables, res, n, lp);
    var pros := Combinations(tables, res, n);
    var j :| 0 <= j < |vs| && vs[j] == Success(Kept(region));
    assert pros[j] in pros;
    assert Provenance(tables, n, lp, res, pros[j], region, Vote(res));
  }

  /** The number of combinations over the class tuples `tuples`. */
  ghost function CombinationCount(tables: seq<seq<LeafConstraint>>, tuples: seq<seq<nat>>, n: nat): nat
    requires TablesOk(tables, n) && TuplesFit(tables, tuples)
  {
    Total(seq(|tuples|, j requires 0 <= j < |tuples| => Combinations(tables, tuples[j], n)))
  }

  lemma {:induction false} TotalSameLengths<S, T>(xss: seq<seq<S>>, yss: seq<seq<T>>)
    requires |xss| == |yss| && forall j :: 0 <= j < |xss| ==> |xss[j]| == |yss[j]|
    ensures Total(xss) == Total(yss)
  {
    if |xss| > 0 {
      TotalSameLengths(xss[..|xss| - 1], yss[..|yss| - 1]);
    }
  }

  /** `region`, labelled `pred`, was kept for some class tuple of `tuples`. */
  ghost predicate Sourced(tables: seq<seq<LeafConstraint>>, tuples: seq<seq<nat>>, n: nat, lp: Problem -> Solution,
                          region: Box, pred: nat)
    requires TablesOk(tables, n)
  {
    exists res, pro :: res in tuples && Provenance(tables, n, lp, res, pro, region, pred)
  }

  /** Aligned, counted and sound: what a successful tally over `tuples` holds. */
  ghost predicate TallySound(tables: seq<seq<LeafConstraint>>, tuples: seq<seq<nat>>, n: nat, lp: Problem -> Solution, t: Tally)
    requires TablesOk(tables, n) && TuplesFit(tables, tuples)
  {
    |t.regions| == |t.preds| && |t.regions| + t.vacuous == CombinationCount(tables, tuples, n) &&
    forall i :: 0 <= i < |t.regions| ==> Sourced(tables, tuples, n, lp, t.regions[i], t.preds[i])
  }

  lemma RegionsOverSound(tables: seq<seq<LeafConstraint>>, tuples: seq<seq<nat>>, n: nat, lp: Problem -> Solution)
    requires TablesOk(tables, n) && TuplesFit(tables, tuples) && RegionsOver(tables, tuples, n, lp).Success?
    ensures TallySound(tables, tuples, n, lp, RegionsOver(tables, tuples, n, lp).value)
  {
    var vss, labels := AllVerdicts(tables, tuples, n, lp), Votes(tuples);
    var t := RegionsOver(tables, tuples, n, lp).value;
    assert t == RecordTuples(vss, labels).value;
    RecordTuplesGrows(vss, labels);
    var combos := seq(|tuples|, j requires 0 <= j < |tuples| => Combinations(tables, tuples[j], n));
    forall j | 0 <= j < |tuples| ensures |vss[j]| == |combos[j]| {
      assert vss[j] == TupleVerdicts(tables, tuples[j], n, lp);
    }
    TotalSameLengths(vss, combos);
    assert |t.regions| + t.vacuous == CombinationCount(tables, tuples, n);
    forall i | 0 <= i < |t.regions| ensures Sourced(tables, tuples, n, lp, t.regions[i], t.preds[i]) {
      var j :| 0 <= j < |vss| && t.preds[i] == labels[j] && Success(Kept(t.regions[i])) in vss[j];
      assert vss[j] == TupleVerdicts(tables, tuples[j], n, lp) && labels[j] == Vote(tuples[j]);
      VerdictProvenance(tables, n, lp, tuples[j], t.regions[i]);
      var pro :| Provenance(tables, n, lp, tuples[j], pro, t.regions[i], Vote(tuples[j]));
      assert tuples[j] in tuples;
      assert Provenance(tables, n, lp, tuples[j], pro, t.regions[i], t.preds[i]);
    }
  }

  /**
    On success `regions` and `region_preds` have the same length, every
    combination is either kept or counted vacuous, and every kept region
    comes from a class tuple and one leaf of that class per tree, with the
    LP reporting `optimal`, and is labelled with the tuple's vote.
  */
  lemma ExactRegionsSound(tables: seq<seq<LeafConstraint>>, nClasses: nat, n: nat, lp: Problem -> Solution)
    requires TablesOk(tables, n) && ExactRegions(tables, nClasses, n, lp).Success?
    ensures (AllTuplesFit(tables, nClasses);
             TallySound(tables, Tuples(nClasses, |tables|), n, lp, ExactRegions(tables, nClasses, n, lp).value))
  {
    AllTuplesFit(tables, nClasses);
    RegionsOverSound(tables, Tuples(nClasses, |tables|), n, lp);
  }

  /** On success every region spans the `2n` slots of a box, and each has its label. */
  lemma ExactRegionsWidth(tables: seq<seq<LeafConstraint>>, nClasses: nat, n: nat, lp: Problem -> Solution)
    requires TablesOk(tables, n) && ExactRegions(tables, nClasses, n, lp).Success?
    ensures var t := ExactRegions(tables, nClasses, n, lp).value;
      |t.regions| == |t.preds| && forall i :: 0 <= i < |t.regions| ==> |t.regions[i]| == 2 * n
  {
    ExactRegionsSound(tables, nClasses, n, lp);
    var tuples := Tuples(nClasses, |tables|);
    var t := ExactRegions(tables, nClasses, n, lp).value;
    forall i | 0 <= i < |t.regions| ensures |t.regions[i]| == 2 * n {
      assert Sourced(tables, tuples, n, lp, t.regions[i], t.preds[i]);
      var res, pro :| res in tuples && Provenance(tables, n, lp, res, pro, t.regions[i], t.preds[i]);
      CombinationShape(tables, res, n, pro);
      KeptWidth(pro, n, lp, t.regions[i]);
    }
  }

  /**
    Every combination of one leaf per tree that the LP finds feasible is
    among the regions, labelled with its class tuple's vote.
  */
  lemma ExactRegionsComplete(tables: seq<seq<LeafConstraint>>, nClasses: nat, n: nat, lp: Problem -> Solution,
                             res: seq<nat>, pro: seq<LeafConstraint>, region: Box)
    requires TablesOk(tables, n) && ExactRegions(tables, nClasses, n, lp).Success?
    requires res in Tuples(nClasses, |tables|)
    requires (TuplesMembers(nClasses, |tables|, res); Provenance(tables, n, lp, res, pro, region, Vote(res)))
    ensures var t := ExactRegions(tables, nClasses, n, lp).value;
      exists i :: 0 <= i < |t.regions| && i < |t.preds| && t.regions[i] == region && t.preds[i] == Vote(res)
  {
    AllTuplesFit(tables, nClasses);
    var tuples := Tuples(nClasses, |tables|);
    var vss, labels := AllVerdicts(tables, tuples, n, lp), Votes(tuples);
    assert ExactRegions(tables, nClasses, n, lp) == RecordTuples(vss, labels);
    var j :| 0 <= j < |tuples| && tuples[j] == res;
    var pros := Combinations(tables, res, n);
    var k :| 0 <= k < |pros| && pros[k] == pro;
    assert vss[j] == TupleVerdicts(tables, res, n, lp);
    assert vss[j][k] == Success(Kept(region));
    RecordTuplesKeeps(vss, labels, j, region);
  }

  /** `union_constraints` accepts the stacked rows of every combination of `res`. */
  ghost predicate UnionsSucceed(tables: seq<seq<LeafConstraint>>, res: seq<nat>, n: nat)
    requires TablesOk(tables, n) && |res| == |tables|
  {
    forall pro :: pro in Combinations(tables, res, n) ==>
      (CombinationShape(tables, res, n, pro);
       StackShape(pro, n);
       Union(StackG(pro), StackH(pro), n).Success?)
  }

  lemma TupleVerdictsSucceed(tables: seq<seq<LeafConstraint>>, res: seq<nat>, n: nat, lp: Problem -> Solution)
    requires TablesOk(tables, n) && |res| == |tables|
    ensures AllSucceed(TupleVerdicts(tables, res, n, lp)) <==> UnionsSucceed(tables, res, n)
  {
    var vs := TupleVerdicts(tables, res, n, lp);
    var pros := Combinations(tables, res, n);
    forall j | 0 <= j < |pros|
      ensures (CombinationShape(tables, res, n, pros[j]); StackShape(pros[j], n);
               vs[j].Success? <==> Union(StackG(pros[j]), StackH(pros[j]), n).Success?)
    {
      CombinationShape(tables, res, n, pros[j]);
      StackShape(pros[j], n);
    }
    if forall j :: 0 <= j < |vs| ==> vs[j].Success? {
      forall pro | pro in pros
        ensures (CombinationShape(tables, res, n, pro); StackShape(pro, n);
                 Union(StackG(pro), StackH(pro), n).Success?)
      {
        var j :| 0 <= j < |pros| && pros[j] == pro;
      }
    }
    if UnionsSucceed(tables, res, n) {
      forall j | 0 <= j < |vs| ensures vs[j].Success? {
        assert pros[j] in pros;
      }
    }
  }

  lemma RegionsOverFails(tables: seq<seq<LeafConstraint>>, tuples: seq<seq<nat>>, n: nat, lp: Problem -> Solution)
    requires TablesOk(tables, n) && TuplesFit(tables, tuples)
    ensures RegionsOver(tables, tuples, n, lp).Success? <==>
            forall j :: 0 <= j < |tuples| ==> UnionsSucceed(tables, tuples[j], n)
  {
    var vss, labels := AllVerdicts(tables, tuples, n, lp), Votes(tuples);
    RecordTuplesFails(vss, labels);
    forall j | 0 <= j < |tuples| ensures AllSucceed(vss[j]) <==> UnionsSucceed(tables, tuples[j], n) {
      assert vss[j] == TupleVerdicts(tables, tuples[j], n, lp);
      TupleVerdictsSucceed(tables, tuples[j], n, lp);
    }
  }

  /**
    Exact mode aborts exactly when `union_constraints` rejects some
    combination; solver statuses and solver exceptions never abort it.
  */
  lemma ExactRegionsFails(tables: seq<seq<LeafConstraint>>, nClasses: nat, n: nat, lp: Problem -> Solution)
    requires TablesOk(tables, n)
    ensures ExactRegions(tables, nClasses, n, lp).Success? <==>
            forall res :: res in Tuples(nClasses, |tables|) ==> (TuplesMembers(nClasses, |tables|, res); UnionsSucceed(tables, res, n))
  {
    AllTuplesFit(tables, nClasses);
    var tuples := Tuples(nClasses, |tables|);
    RegionsOverFails(tables, tuples, n, lp);
    if forall res :: res in tuples ==> (TuplesMembers(nClasses, |tables|, res); UnionsSucceed(tables, res, n)) {
      forall j | 0 <= j < |tuples| ensures UnionsSucceed(tables, tuples[j], n) {
        assert tuples[j] in tuples;
      }
    }
  }

  // ---------------------------------------------------------------------
  // Approx mode
  // ---------------------------------------------------------------------

  predicate TreesOk(trees: seq<Tree>, n: nat) {
    |trees| > 0 && forall k :: 0 <= k < |trees| ==> WellFormed(trees[k], n)
  }

  /** The elementwise minimum of the boxes of `x` in the first `k` trees. */
  function ForestBoxUpTo(trees: seq<Tree>, k: nat, x: seq<real>): (r: Box)
    requires TreesOk(trees, |x|) && 0 < k <= |trees|
    ensures |r| == 2 * |x|
  {
    if k == 1 then InstanceBox(trees[0], x)
    else Meet(ForestBoxUpTo(trees, k - 1, x), InstanceBox(trees[k - 1], x))
  }

  /** The approx-mode region of training point `x`. */
  function ForestBox(trees: seq<Tree>, x: seq<real>): Box
    requires TreesOk(trees, |x|)
  {
    ForestBoxUpTo(trees, |trees|, x)
  }

  lemma {:induction false} ForestBoxUpToFacts(trees: seq<Tree>, k: nat, x: seq<real>)
    requires TreesOk(trees, |x|) && 0 < k <= |trees|
    ensures StrictlyInBox(x, ForestBoxUpTo(trees, k, x))
    ensures forall j :: 0 <= j < k ==> Tighter(ForestBoxUpTo(trees, k, x), InstanceBox(trees[j], x))
  {
    InstanceBoxContains(trees[k - 1], x);
    if k > 1 {
      ForestBoxUpToFacts(trees, k - 1, x);
      var a, b := ForestBoxUpTo(trees, k - 1, x), InstanceBox(trees[k - 1], x);
      StrictlyInBoxMeet(x, a, b);
      MeetTightens(a, b);
      forall j | 0 <= j < k - 1 ensures Tighter(Meet(a, b), InstanceBox(trees[j], x)) {
        TighterTransitive(Meet(a, b), a, InstanceBox(trees[j], x));
      }
    } else {
      assert Tighter(ForestBoxUpTo(trees, k, x), InstanceBox(trees[0], x));
    }
  }

  /**
    A training point lies strictly inside its own region, and the region is
    at least as tight as the point's box in every tree.
  */
  lemma ForestBoxContains(trees: seq<Tree>, x: seq<real>)
    requires TreesOk(trees, |x|)
    ensures StrictlyInBox(x, ForestBox(trees, x)) && InBox(x, ForestBox(trees, x))
    ensures forall j :: 0 <= j < |trees| ==> Tighter(ForestBox(trees, x), InstanceBox(trees[j], x))
  {
    ForestBoxUpToFacts(trees, |trees|, x);
  }

  /**
    Every point inside the region shrunk by a positive tolerance reaches,
    in every tree, the same leaf as the training point.
  */
  lemma ForestBoxSameLeaves(trees: seq<Tree>, x: seq<real>, y: seq<real>, tol: real)
    requires TreesOk(trees, |x|) && |y| == |x| && tol > 0.0
    requires InShrunkBox(y, ForestBox(trees, x), tol)
    ensures forall j :: 0 <= j < |trees| ==> Route(trees[j], y) == Route(trees[j], x) && LeafOf(trees[j], y) == LeafOf(trees[j], x)
  {
    ForestBoxContains(trees, x);
    forall j | 0 <= j < |trees| ensures Route(trees[j], y) == Route(trees[j], x) && LeafOf(trees[j], y) == LeafOf(trees[j], x) {
      InShrunkBoxLoosen(y, ForestBox(trees, x), InstanceBox(trees[j], x), tol);
      InstanceBoxSameLeaf(trees[j], x, y, tol);
    }
  }

  /** The regions of approx mode: one per training point, the elementwise minimum over the trees. */
  method ForestRegions(trees: seq<Tree>, X: seq<seq<real>>, n: nat) returns (r: seq<Box>)
    requires TreesOk(trees, n) && forall i :: 0 <= i < |X| ==> |X[i]| == n
    ensures |r| == |X| && forall i :: 0 <= i < |X| ==> r[i] == ForestBox(trees, X[i])
  {
    r := TreeInstanceConstraint(trees[0], X, n);
    for k := 1 to |trees|
      invariant |r| == |X| && forall i :: 0 <= i < |X| ==> r[i] == ForestBoxUpTo(trees, k, X[i])
    {
      var t := TreeInstanceConstraint(trees[k], X, n);
      forall i | 0 <= i < |X| ensures |t[i]| == |r[i]| {
        InstanceBoxContains(trees[k], X[i]);
      }
      r := seq(|r|, i requires 0 <= i < |r| => Meet(r[i], t[i]));
    }
  }

  /** A box holding a point strictly has no pinned dimension, so it converts without equality rows. */
  lemma StrictBoxUnpinned(x: seq<real>, r: Box)
    requires StrictlyInBox(x, r)
    ensures ToMatrix(r).C.None? && ToMatrix(r).d.None?
  {
    assert |r| / 2 == |x|;
    forall i | 0 <= i < |x| ensures !Pinned(r, i) {
      assert Below(x[i], r[i]) && StrictlyBelow(-x[i], r[i + |x|]);
    }
    MatrixShape(r);
  }

  /**
    The check of `__init__` in approx mode holds: the region of a training
    point converts without equality rows, and the point satisfies every
    inequality row within any non-negative tolerance.
  */
  lemma ApproxCheckHolds(trees: seq<Tree>, x: seq<real>, tol: real)
    requires TreesOk(trees, |x|) && tol >= 0.0
    ensures ToMatrix(ForestBox(trees, x)).C.None?
    ensures IneqsHold(ToMatrix(ForestBox(trees, x)).G, ToMatrix(ForestBox(trees, x)).h, x, tol)
  {
    var r := ForestBox(trees, x);
    ForestBoxContains(trees, x);
    StrictBoxUnpinned(x, r);
    MatrixMeaning(r, x);
    IneqsHoldLoosen(ToMatrix(r).G, ToMatrix(r).h, x, 0.0, tol);
  }
}
