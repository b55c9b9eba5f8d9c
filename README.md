# Region-based attack on random forests, modelled in Dafny

This project models the box ("region") core of the region-based
adversarial attack on scikit-learn random forests
(`region-based-attack/tree/rf_attack.py`).

**Regions.** A region is a box over `n` features, stored as a bound
vector of length `2n`:
- slot `f` holds the upper bound of feature `f`;
- slot `f + n` holds the negated lower bound.

Every bound is a real or `+inf` (`Bounds.Bound`).

**What the model covers.**
- The conversions between a box and linear constraints:
  - `constraint_list_to_matrix` turns a box into rows `G x <= h`, plus `C x = d` for pinned features;
  - `union_constraints` folds axis-aligned rows back into a box.
- `tree_instance_constraint`: the box a sample's path through one tree describes.
- The two region-building modes of `RFAttack.__init__`:
  - exact (`'all'`): every combination of one leaf per tree whose class tuple is enumerated, kept when its feasibility LP is `optimal` and labelled by the tuple's majority class;
  - approx (`'rev'`): every training point gets the intersection of its per-tree path boxes, then the check that each point satisfies its own region.
- The nearest-point searches `rev_get_sol_l2` and `rev_get_sol_linf`.
- `RFAttack.perturb`.

**How it is modelled.**
- Imperative code stays imperative. The loops become methods. Each method is proved equal to a specification function. The properties the attack relies on are proved about those functions:
  - a kept region is exactly the set of points satisfying its leaves' constraints;
  - the union is order-free and idempotent;
  - matrix and box round-trip;
  - every returned perturbation flips the forest's label and has minimum norm among the candidates.
- `RFAttack` is a class. Its `regions`, `region_preds` and `perts` fields are updated by `__init__` and `perturb`.
- The LP/QP solvers, the classifier's `predict` and the KD-tree's neighbour order are function parameters (module `Oracles`).
- `CONSTRAINTTOL` is the parameter `tol >= 0`.

Modules: `Wrappers`, `Bounds`, `Vectors`, `Constraints`, `Trees`,
`Oracles`, `Regions`, `Search` and `Attack`, one per file.

## Model

| member | source | states |
|---|---|---|
| Constraints.ConstraintListToMatrix | region-based-attack/tree/rf_attack.py:19-43 | the loop's result `(G, h, C, d)` is `ToMatrix(r)`: one equality row per pinned feature, two inequality rows (`e_i`, `-e_i`) per other feature, `C`/`d` absent when nothing is pinned |
| Constraints.MatrixShape | region-based-attack/tree/rf_attack.py:22-42 | every row is axis-aligned of width `n`; `C` and `d` are both present or both absent; `C` is absent iff no feature is pinned; 2 inequality rows per free feature |
| Constraints.MatrixMeaning | region-based-attack/tree/rf_attack.py:19-43 | a point lies in the box iff it satisfies `G y <= h` and `C y = d` |
| Constraints.MatrixRoundTrip | region-based-attack/tree/rf_attack.py:19-61 | restacking the rows of `constraint_list_to_matrix(r)` (equalities as two inequalities) and taking their union gives back `r` |
| Constraints.FindSlot | region-based-attack/tree/rf_attack.py:53-60 | the slot a row bounds: the index of the `1` entry, or the index of the `-1` entry plus `n`, or `ValueError` when the row sums to neither |
| Constraints.UnionConstraints | region-based-attack/tree/rf_attack.py:45-61 | the fold over `zip(G, h)` equals the specification `Union`, including its assertion error and `ValueError` paths |
| Constraints.UnionAccepts | region-based-attack/tree/rf_attack.py:46-60 | the union succeeds iff every row has absolute sum 1 and every zipped row is `e_i` or `-e_i` |
| Constraints.RowSlotSound | region-based-attack/tree/rf_attack.py:53-58 | an accepted row with absolute sum 1 is `e_i` (slot `i`) or `-e_i` (slot `i + n`) |
| Constraints.RowSlotComplete | region-based-attack/tree/rf_attack.py:53-58 | a row `e_i` or `-e_i` is accepted, with slot `i` or `i + n` |
| Constraints.UnionOfAxisRows | region-based-attack/tree/rf_attack.py:45-61 | a stack of axis-aligned rows is always accepted |
| Constraints.UnionSlots | region-based-attack/tree/rf_attack.py:51-58 | each slot of the result is the minimum, starting from `+inf`, of the bounds of the rows targeting it |
| Constraints.UnionMeaning | region-based-attack/tree/rf_attack.py:45-61 | a point lies in the union's box iff it satisfies every row `G y <= h` |
| Constraints.UnionAppend | region-based-attack/tree/rf_attack.py:51-58 | the union of two stacked systems is the slot-wise minimum (intersection) of their unions |
| Constraints.UnionOrderFree | region-based-attack/tree/rf_attack.py:51-58 | the union does not depend on the order of the stacked blocks, and stacking a block twice changes nothing |
| Bounds.Meet | region-based-attack/tree/rf_attack.py:270-271 | `np.min` over the two stacked bound vectors: slot-wise minimum |
| Bounds.InBoxMeet | region-based-attack/tree/rf_attack.py:270-271 | a point lies in the meet of two boxes iff it lies in both |
| Bounds.MeetTightens | region-based-attack/tree/rf_attack.py:270-271 | the meet is at least as tight as each operand |
| Trees.TreeInstanceConstraint | region-based-attack/tree/rf_attack.py:63-92 | row `i` of the result is the box of the path of `X[i]` down the tree: each split passed tightens the upper bound (`<=`) or the negated lower bound (`>`) |
| Trees.PathBoxTightens | region-based-attack/tree/rf_attack.py:74-89 | walking a path only lowers bounds |
| Trees.InstanceBoxContains | region-based-attack/tree/rf_attack.py:63-92 | the sample lies in its own box, strictly above every lower bound |
| Trees.InstanceBoxUnbounded | region-based-attack/tree/rf_attack.py:74-89 | a feature keeps both bounds `+inf` iff no split on its path tests it |
| Trees.RouteLeaf | region-based-attack/tree/rf_attack.py:64-65 | two points taking the same branches (`decision_path`) reach the same leaf (`apply`) |
| Trees.InstanceBoxSameLeaf | region-based-attack/tree/rf_attack.py:63-92 | every point inside the box, shrunk by a positive tolerance, takes the same branches as the sample (`Route`), so it reaches the same leaf node |
| Regions.ProductMembers | region-based-attack/tree/rf_attack.py:243 | `product(*lists)` holds exactly the tuples taking element `i` from list `i` |
| Regions.TuplesMembers | region-based-attack/tree/rf_attack.py:231 | `product(range(n_classes), repeat=n_estimators)` holds exactly the class tuples of that length |
| Regions.TuplesShape | region-based-attack/tree/rf_attack.py:231 | every enumerated tuple has one class per tree |
| Regions.VoteIsMajority | region-based-attack/tree/rf_attack.py:255 | `argmax(bincount(res))` is a class of the tuple with maximal count, the smallest such |
| Regions.KeepLeavesOfClass | region-based-attack/tree/rf_attack.py:239-241 | the loop keeps, in order, the leaf constraints whose `argmax(value)` is the requested class |
| Regions.LeavesOfClassMembers | region-based-attack/tree/rf_attack.py:239-241 | a leaf is kept iff it belongs to the tree and predicts the requested class |
| Regions.CollectPermConsts | region-based-attack/tree/rf_attack.py:232-241 | `perm_consts[i]` is tree `i`'s leaves predicting `res[i]` |
| Regions.StackMeaning | region-based-attack/tree/rf_attack.py:244-247 | the stacked rows hold iff every leaf's rows hold |
| Regions.JudgeCombination | region-based-attack/tree/rf_attack.py:243-260 | one combination: the union error, or the region kept when the LP says `optimal`, or counted vacuous otherwise (other status, exception, or no inequality row) |
| Regions.KeptRegionMeaning | region-based-attack/tree/rf_attack.py:243-256 | a kept region contains exactly the points satisfying all the chosen leaves' constraints |
| Regions.KeptWidth | region-based-attack/tree/rf_attack.py:244-256 | a kept region has `2n` slots |
| Regions.RecordCombinations | region-based-attack/tree/rf_attack.py:243-260 | the inner loop appends, in `product` order, each kept region with the tuple's vote |
| Regions.EnumerateRegions | region-based-attack/tree/rf_attack.py:219-264 | the nested loops of exact mode compute the specification `ExactRegions` |
| Regions.VerdictProvenance | region-based-attack/tree/rf_attack.py:243-256 | every kept region comes from a combination of leaves, one per tree, each predicting its tuple class |
| Regions.ExactRegionsSound | region-based-attack/tree/rf_attack.py:219-260 | every recorded region and label comes from some tuple and some combination of its leaves whose LP was `optimal`, labelled with the tuple's vote |
| Regions.ExactRegionsComplete | region-based-attack/tree/rf_attack.py:231-256 | every such region, tuple and vote is recorded |
| Regions.ExactRegionsWidth | region-based-attack/tree/rf_attack.py:227-256 | regions and labels are parallel and every region has `2n` slots |
| Regions.ExactRegionsFails | region-based-attack/tree/rf_attack.py:243-247 | exact mode aborts iff some enumerated combination has a row `union_constraints` rejects |
| Regions.ForestRegions | region-based-attack/tree/rf_attack.py:266-272 | region `i` is the slot-wise minimum over all trees of the path box of `trnX[i]` |
| Regions.ForestBoxContains | region-based-attack/tree/rf_attack.py:266-272 | each training point lies in its own region, strictly above every lower bound, and the region is tighter than every tree's box |
| Regions.ForestBoxSameLeaves | region-based-attack/tree/rf_attack.py:266-272 | every point inside the region, shrunk by a positive tolerance, takes the same branches in every tree as the training point, so it reaches the same leaf node in every tree |
| Regions.StrictBoxUnpinned | region-based-attack/tree/rf_attack.py:275-276 | a box with a point strictly inside has no equality rows |
| Regions.ApproxCheckHolds | region-based-attack/tree/rf_attack.py:274-283 | the approx-mode assertion never fails: `C` is `None` and `G trnX[i] <= h + CONSTRAINTTOL` |
| Search.PoseUnknowns | region-based-attack/tree/rf_attack.py:101-102 | the problem posed has `n` unknowns (L2) or `n + 1` (L-infinity, the extra `t`) |
| Search.DropUnboundedMeaning | region-based-attack/tree/rf_attack.py:103-107 | dropping the rows whose `h - tol` is infinite leaves exactly the constraints `G z <= h - tol` |
| Search.L2ProblemMeaning | region-based-attack/tree/rf_attack.py:97-113 | a point is feasible for the QP iff it satisfies the region's rows tightened by `tol`, and then it lies in the region |
| Search.LinfProblemMeaning | region-based-attack/tree/rf_attack.py:138-162 | `(z, t)` is feasible for the LP iff `z` satisfies the region's rows tightened by `tol` and `abs(z_f - x_f) <= t - tol` for every feature |
| Search.SolveRegionL2 | region-based-attack/tree/rf_attack.py:98-129 | one region of the L2 search: the status rules that turn the QP answer into a candidate, nothing, or an error |
| Search.SolveRegionLinf | region-based-attack/tree/rf_attack.py:139-177 | one region of the L-infinity search, with the stacking error when `G` is empty |
| Search.KeepMembers | region-based-attack/tree/rf_attack.py:96-129 | the candidate list holds exactly the produced candidates, and the search fails iff some region failed |
| Search.RevGetSolL2 | region-based-attack/tree/rf_attack.py:94-132 | the loop's result is `GetSol(L2, ...)`: the first minimum-norm candidate, or the first error |
| Search.RevGetSolLinf | region-based-attack/tree/rf_attack.py:134-180 | the loop's result is `GetSol(LInf, ...)` |
| Search.RegionOrigin | region-based-attack/tree/rf_attack.py:115-127 | a region's candidate has width `n` and either flips the prediction or is `trnX[i] - x` |
| Search.CandidatesOrigin | region-based-attack/tree/rf_attack.py:115-127 | the same for every collected candidate |
| Search.GetSolFlips | region-based-attack/tree/rf_attack.py:115-132 | when the training points given are all labelled other than `y`, the returned perturbation moves `x` to a point labelled other than `y` |
| Search.GetSolNonZero | region-based-attack/tree/rf_attack.py:115-132 | if `x` is labelled `y`, the returned perturbation is not zero |
| Search.GetSolMinimal | region-based-attack/tree/rf_attack.py:131-132 | failure iff there are no candidates or some region failed; otherwise the result is a candidate of minimal norm, the first such |
| Vectors.ArgMin | region-based-attack/tree/rf_attack.py:131-132 | `argmin`: the first index of a smallest entry |
| Vectors.ArgMax | region-based-attack/tree/rf_attack.py:240 | `argmax`: the first index of a largest entry |
| Vectors.NormSqZero | region-based-attack/tree/rf_attack.py:336 | a squared norm is non-negative and zero only for the zero vector |
| Attack.PyPrefix | region-based-attack/tree/rf_attack.py:330 | `s[:k]` for any integer `k`, including Python's negative `k` |
| Attack.OtherLabelledMembers | region-based-attack/tree/rf_attack.py:330-332 | the filter keeps an index iff it is in the order and its training label differs from `y` |
| Attack.RegionsAgainstMembers | region-based-attack/tree/rf_attack.py:307-308 | `temp_regions` in exact mode holds exactly the regions whose label differs from `y` |
| Attack.Searched | region-based-attack/tree/rf_attack.py:325-333 | every training point searched is labelled other than `y` |
| Attack.SearchedBound | region-based-attack/tree/rf_attack.py:330 | with the KD-tree, at most `n_searches` regions are searched |
| Attack.SearchedAll | region-based-attack/tree/rf_attack.py:332 | without it, exactly the training points labelled other than `y` are searched |
| Attack.ExactSearchOk | region-based-attack/tree/rf_attack.py:307-310 | the exact-mode search is posed on well-formed regions |
| Attack.ApproxSearchOk | region-based-attack/tree/rf_attack.py:325-334 | the approx-mode search is posed on `temp_regions = [regions[i] for i in ind]` paired with `trnX[ind]`, all well formed, and every point in `trnX[ind]` is labelled other than `y` |
| Attack.GatherValues | region-based-attack/tree/rf_attack.py:312-314 | gathering the per-sample results succeeds iff each does, with the values in order |
| Attack.SampleFlips | region-based-attack/tree/rf_attack.py:303-340 | a sample's perturbation has width `n`, flips the forest's label, and is zero when the sample is already mislabelled |
| Attack.SampleNonZero | region-based-attack/tree/rf_attack.py:336-340 | when the sample is labelled `y`, its perturbation is non-zero, so `ValueError("shouldn't happen")` is unreachable |
| Attack.PerturbFlips | region-based-attack/tree/rf_attack.py:316 | every row of `perturb`'s result flips its sample's label, which is the exact-mode assertion |
| Attack.PerturbFails | region-based-attack/tree/rf_attack.py:289-345 | `perturb` fails iff some sample's search fails |
| Attack.Solve | region-based-attack/tree/rf_attack.py:291-296 | `get_sol_fn` dispatches on the norm to the L2 or L-infinity search with its solver |
| Attack.Sample | region-based-attack/tree/rf_attack.py:303-340 | one sample, in exact (`_helper`) or approx mode, equals `SamplePert` |
| Attack.PerturbAll | region-based-attack/tree/rf_attack.py:298-345 | the pass over the samples equals `PerturbSpec`: all perturbations in order, or the first error |
| Attack.RFAttack.constructor | region-based-attack/tree/rf_attack.py:200-217 | the configuration fields, with no regions and no perturbations yet |
| Attack.RFAttack.Create | region-based-attack/tree/rf_attack.py:183-287 | the constructed object holds the regions of its mode; it fails iff exact mode meets a rejected row, with that error |
| Attack.RFAttack.BuildExactRegions | region-based-attack/tree/rf_attack.py:219-264 | `regions` and `region_preds` become those of `ExactRegions`, or the union error is returned |
| Attack.RFAttack.BuildApproxRegions | region-based-attack/tree/rf_attack.py:266-283 | `regions` becomes the per-point forest boxes; the assertion over every training point holds |
| Attack.RFAttack.Perturb | region-based-attack/tree/rf_attack.py:289-345 | the result is `PerturbSpec`; on success it is stored in `perts`, on failure `perts` is unchanged |

## Left out

- The fitted scikit-learn objects are not modelled. `decision_path`, `apply`, the tree arrays and `get_tree_constraints` (tree_utils.py is not part of this model) become inputs:
  - a `Trees.Tree` value per estimator;
  - a table of leaf constraints `(G, h, value)` per tree.
- The LP/QP solvers (`solve_lp`, `solve_qp` and cvxpy), `clf.predict` and the KD-tree query are function parameters. The only thing assumed of a solver is that an `optimal` answer has the problem's width. The KD-tree is assumed only to return training indices.
- A solver exception is the status `Raised`. In exact mode it counts the combination as vacuous, as the bare `except` does. In a search it aborts the search.
- Floating point is not modelled:
  - the `float32` casts are left out;
  - `np.isclose` is exact equality;
  - the norms are compared through the squared L2 norm (same argmin) and the max-abs norm.
- `sol_sat_constraints` is not part of this model. `CONSTRAINTTOL` is the parameter `tol`, assumed non-negative.
- Lines 47-48 of `union_constraints` are unreachable: a stacked `G` is always two-dimensional. The `r[idx] is None` tests are always false. Neither is modelled.
- Mode and norm are datatypes, so the `ValueError` for an unsupported method or norm cannot arise.
- Not modelled, because they have no effect on the results:
  - `n_jobs`, `verbose` and the prints;
  - `tqdm` and joblib's `Parallel`;
  - `random_state`, `trny` and `eps`.
- Inputs with no samples are accepted. scikit-learn's `predict` (line 300) and `KDTree` (line 215) reject an empty sample array. The model leaves those calls to the oracles, so an empty `X` gives `Success([])`.
- `vacuan_regions` is kept as a count in the tally and is not printed.
- A forest with no trees is excluded in both modes. `Regions.TablesOk` asks for one tree at least in exact mode. There the source would fail at `np.vstack` of the single empty combination (lines 244-246), before the LP and the vote at line 255. `Regions.TreesOk` asks the same in approx mode, where the source would fail at `clf.estimators_[0]` (line 267).
- Leaf values are taken to be non-empty.
- Attack.SearchedBound: the KD-tree order is constrained only to valid training indices, not to increasing distance.
- Search.GetSolFlips: the QP and LP answers are not assumed optimal or feasible. A candidate flips the label only because `predict` is called on it (or it is a training point labelled differently). Nothing is claimed about its norm beyond its place among the candidates.
