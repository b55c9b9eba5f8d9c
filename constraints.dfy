/**
  The two conversions between a box and explicit linear constraints
  (rf_attack.py lines 19-61):

  - `constraint_list_to_matrix` turns a box into inequality rows `G x <= h`,
    except that a dimension whose upper bound equals its lower bound becomes
    one equality row `C x = d`;
  - `union_constraints` folds a stack of axis-aligned rows back into a box,
    keeping for every slot the smallest bound, and rejects every other row.

  Rows are dense vectors, as in the source; `isclose` is exact equality.
*/
module Constraints {
  import opened Wrappers
  import opened Bounds
  import opened Vectors

  /** The four results `(G, h, C, d)`; `C` and `d` are `None` when no dimension is pinned. */
  datatype LinearSystem = LinearSystem(
    G: seq<seq<real>>, h: seq<Bound>, C: Option<seq<seq<real>>>, d: Option<seq<real>>)

  /** The four lists `rG, rh, rC, rd` while they are being built. */
  datatype RowLists = RowLists(G: seq<seq<real>>, h: seq<Bound>, C: seq<seq<real>>, d: seq<real>)

  /** Every row has width `n` (the rows of one numpy matrix). */
  predicate Width(G: seq<seq<real>>, n: nat) {
    forall j :: 0 <= j < |G| ==> |G[j]| == n
  }

  /** The row is `e_i` or `-e_i` for some dimension `i < n`. */
  predicate AxisAligned(row: seq<real>, n: nat) {
    exists i :: 0 <= i < n && (row == Unit(n, i) || row == Neg(Unit(n, i)))
  }

  /**
    The row bounds slot `s` of a box over `n` features: it is `e_s` (an
    upper bound, `s < n`) or `-e_(s-n)` (a negated lower bound).
  */
  predicate Targets(row: seq<real>, n: nat, s: nat) {
    if s < n then row == Unit(n, s) else s < 2 * n && row == Neg(Unit(n, s - n))
  }

  // ---------------------------------------------------------------------
  // constraint_list_to_matrix
  // ---------------------------------------------------------------------

  /** Dimension `i` of box `r` is pinned: `r[i]` equals `-r[i + n]` (both finite). */
  predicate Pinned(r: Box, i: nat)
    requires i < |r| / 2
  {
    r[i].Finite? && r[i + |r| / 2].Finite? && r[i].v == -r[i + |r| / 2].v
  }

  /** The rows emitted for dimension `i`. */
  function DimRows(r: Box, i: nat): RowLists
    requires i < |r| / 2
  {
    var n := |r| / 2;
    if Pinned(r, i) then RowLists([], [], [Unit(n, i)], [r[i].v])
    else RowLists([Unit(n, i), Neg(Unit(n, i))], [r[i], r[i + n]], [], [])
  }

  function Append(a: RowLists, b: RowLists): RowLists {
    RowLists(a.G + b.G, a.h + b.h, a.C + b.C, a.d + b.d)
  }

  /** The lists after dimensions `0 .. k-1` have been treated, in index order. */
  function RowsUpTo(r: Box, k: nat): RowLists
    requires k <= |r| / 2
  {
    if k == 0 then RowLists([], [], [], []) else Append(RowsUpTo(r, k - 1), DimRows(r, k - 1))
  }

  /** The system `constraint_list_to_matrix(r)` returns. */
  function ToMatrix(r: Box): LinearSystem {
    var rows := RowsUpTo(r, |r| / 2);
    if |rows.C| == 0 || |rows.d| == 0 then LinearSystem(rows.G, rows.h, None, None)
    else LinearSystem(rows.G, rows.h, Some(rows.C), Some(rows.d))
  }

  method ConstraintListToMatrix(r: Box) returns (sys: LinearSystem)
    ensures sys == ToMatrix(r)
  {
    var rG, rh, rC, rd := [], [], [], [];
    var n := |r| / 2;
    for i := 0 to n
      invariant RowLists(rG, rh, rC, rd) == RowsUpTo(r, i)
    {
      var temp := Unit(n, i);
      if r[i].Finite? && r[i + n].Finite? && r[i].v == -r[i + n].v {
        rC := rC + [temp];
        rd := rd + [r[i].v];
      } else {
        var temp2 := Neg(Unit(n, i));
        rG := rG + [temp];
        rh := rh + [r[i]];
        rG := rG + [temp2];
        rh := rh + [r[i + n]];
      }
    }
    if |rC| == 0 || |rd| == 0 {
      sys := LinearSystem(rG, rh, None, None);
    } else {
      sys := LinearSystem(rG, rh, Some(rC), Some(rd));
    }
  }

  // ---------------------------------------------------------------------
  // What a system means for a point
  // ---------------------------------------------------------------------

  /** `G y <= h + slack`, row by row (an infinite bound holds for every point). */
  predicate IneqsHold(G: seq<seq<real>>, h: seq<Bound>, y: seq<real>, slack: real) {
    |G| == |h| &&
    forall j :: 0 <= j < |G| ==> RowHolds(G[j], h[j], y, slack)
  }

  /** One row: `g . y <= b + slack`. */
  predicate RowHolds(g: seq<real>, b: Bound, y: seq<real>, slack: real) {
    |g| == |y| && Below(Dot(g, y), Shift(b, slack))
  }

  /** `C y = d`, row by row. */
  predicate EqsHold(C: seq<seq<real>>, d: seq<real>, y: seq<real>) {
    |C| == |d| &&
    forall j :: 0 <= j < |C| ==> |C[j]| == |y| && Dot(C[j], y) == d[j]
  }

  predicate Holds(sys: LinearSystem, y: seq<real>, slack: real) {
    IneqsHold(sys.G, sys.h, y, slack) &&
    (sys.C.Some? && sys.d.Some? ==> EqsHold(sys.C.value, sys.d.value, y))
  }

  lemma IneqsHoldAppend(G1: seq<seq<real>>, h1: seq<Bound>, G2: seq<seq<real>>, h2: seq<Bound>,
                        y: seq<real>, slack: real)
    requires |G1| == |h1| && |G2| == |h2|
    ensures IneqsHold(G1 + G2, h1 + h2, y, slack) <==>
            IneqsHold(G1, h1, y, slack) && IneqsHold(G2, h2, y, slack)
  {
    if IneqsHold(G1, h1, y, slack) && IneqsHold(G2, h2, y, slack) {
      forall j | 0 <= j < |G1 + G2|
        ensures |(G1 + G2)[j]| == |y| && Below(Dot((G1 + G2)[j], y), Shift((h1 + h2)[j], slack))
      {
        if j >= |G1| { assert (G1 + G2)[j] == G2[j - |G1|] && (h1 + h2)[j] == h2[j - |G1|]; }
      }
    }
    if IneqsHold(G1 + G2, h1 + h2, y, slack) {
      forall j | 0 <= j < |G2| ensures |G2[j]| == |y| && Below(Dot(G2[j], y), Shift(h2[j], slack)) {
        assert (G1 + G2)[j + |G1|] == G2[j] && (h1 + h2)[j + |G1|] == h2[j];
      }
      forall j | 0 <= j < |G1| ensures |G1[j]| == |y| && Below(Dot(G1[j], y), Shift(h1[j], slack)) {
        assert (G1 + G2)[j] == G1[j] && (h1 + h2)[j] == h1[j];
      }
    }
  }

  /** A system holds exactly when all its rows but the last hold and the last row holds. */
  lemma IneqsHoldSnoc(G: seq<seq<real>>, h: seq<Bound>, y: seq<real>, slack: real)
    requires |G| == |h| && |G| > 0
    ensures IneqsHold(G, h, y, slack) <==>
            IneqsHold(G[..|G| - 1], h[..|G| - 1], y, slack) && RowHolds(G[|G| - 1], h[|G| - 1], y, slack)
  {
  }

  /** Pushing one row onto a system adds exactly that row's inequality. */
  lemma IneqsHoldPush(G: seq<seq<real>>, h: seq<Bound>, g: seq<real>, b: Bound, y: seq<real>, slack: real)
    requires |G| == |h|
    ensures IneqsHold(G + [g], h + [b], y, slack) <==>
            IneqsHold(G, h, y, slack) && RowHolds(g, b, y, slack)
  {
    assert (G + [g])[..|G|] == G && (h + [b])[..|G|] == h;
    IneqsHoldSnoc(G + [g], h + [b], y, slack);
  }

  /** Three stacked blocks of rows hold when each block holds. */
  lemma IneqsHoldJoin3(G1: seq<seq<real>>, h1: seq<Bound>, G2: seq<seq<real>>, h2: seq<Bound>,
                       G3: seq<seq<real>>, h3: seq<Bound>, y: seq<real>, slack: real)
    requires IneqsHold(G1, h1, y, slack) && IneqsHold(G2, h2, y, slack) && IneqsHold(G3, h3, y, slack)
    ensures IneqsHold(G1 + G2 + G3, h1 + h2 + h3, y, slack)
  {
    IneqsHoldAppend(G1, h1, G2, h2, y, slack);
    IneqsHoldAppend(G1 + G2, h1 + h2, G3, h3, y, slack);
  }

  /** Each of three stacked blocks of rows holds when the stack holds. */
  lemma IneqsHoldSplit3(G1: seq<seq<real>>, h1: seq<Bound>, G2: seq<seq<real>>, h2: seq<Bound>,
                        G3: seq<seq<real>>, h3: seq<Bound>, y: seq<real>, slack: real)
    requires |G1| == |h1| && |G2| == |h2| && |G3| == |h3|
    requires IneqsHold(G1 + G2 + G3, h1 + h2 + h3, y, slack)
    ensures IneqsHold(G1, h1, y, slack) && IneqsHold(G2, h2, y, slack) && IneqsHold(G3, h3, y, slack)
  {
    IneqsHoldAppend(G1 + G2, h1 + h2, G3, h3, y, slack);
    IneqsHoldAppend(G1, h1, G2, h2, y, slack);
  }

  lemma EqsHoldAppend(C1: seq<seq<real>>, d1: seq<real>, C2: seq<seq<real>>, d2: seq<real>, y: seq<real>)
    requires |C1| == |d1| && |C2| == |d2|
    ensures EqsHold(C1 + C2, d1 + d2, y) <==> EqsHold(C1, d1, y) && EqsHold(C2, d2, y)
  {
    if EqsHold(C1, d1, y) && EqsHold(C2, d2, y) {
      forall j | 0 <= j < |C1 + C2| ensures |(C1 + C2)[j]| == |y| && Dot((C1 + C2)[j], y) == (d1 + d2)[j] {
        if j >= |C1| { assert (C1 + C2)[j] == C2[j - |C1|] && (d1 + d2)[j] == d2[j - |C1|]; }
      }
    }
    if EqsHold(C1 + C2, d1 + d2, y) {
      forall j | 0 <= j < |C2| ensures |C2[j]| == |y| && Dot(C2[j], y) == d2[j] {
        assert (C1 + C2)[j + |C1|] == C2[j] && (d1 + d2)[j + |C1|] == d2[j];
      }
      forall j | 0 <= j < |C1| ensures |C1[j]| == |y| && Dot(C1[j], y) == d1[j] {
        assert (C1 + C2)[j] == C1[j] && (d1 + d2)[j] == d1[j];
      }
    }
  }

  /** Loosening the slack keeps every satisfied row satisfied. */
  lemma IneqsHoldLoosen(G: seq<seq<real>>, h: seq<Bound>, y: seq<real>, a: real, b: real)
    requires a <= b && IneqsHold(G, h, y, a)
    ensures IneqsHold(G, h, y, b)
  {
  }

  // ---------------------------------------------------------------------
  // Properties of constraint_list_to_matrix
  // ---------------------------------------------------------------------

  /** The lists after `k` dimensions: two inequality rows or one equality row per dimension. */
  lemma {:induction false} RowsUpToLengths(r: Box, k: nat)
    requires k <= |r| / 2
    ensures var rows := RowsUpTo(r, k);
      |rows.G| == |rows.h| && |rows.C| == |rows.d| && |rows.G| + 2 * |rows.C| == 2 * k
  {
    if k > 0 {
      RowsUpToLengths(r, k - 1);
    }
  }

  /** Two lists of axis rows stack to a list of axis rows. */
  lemma AxisAppend(A: seq<seq<real>>, B: seq<seq<real>>, n: nat)
    requires forall j :: 0 <= j < |A| ==> AxisAligned(A[j], n)
    requires forall j :: 0 <= j < |B| ==> AxisAligned(B[j], n)
    ensures forall j :: 0 <= j < |A + B| ==> AxisAligned((A + B)[j], n)
  {
    forall j | 0 <= j < |A + B| ensures AxisAligned((A + B)[j], n) {
      if j >= |A| { assert (A + B)[j] == B[j - |A|]; }
    }
  }

  /** Every row emitted for one dimension is `+e_i` or `-e_i`. */
  lemma DimRowsAxis(r: Box, i: nat)
    requires i < |r| / 2
    ensures forall j :: 0 <= j < |DimRows(r, i).G| ==> AxisAligned(DimRows(r, i).G[j], |r| / 2)
    ensures forall j :: 0 <= j < |DimRows(r, i).C| ==> AxisAligned(DimRows(r, i).C[j], |r| / 2)
  {
    var n := |r| / 2;
    assert AxisAligned(Unit(n, i), n) && AxisAligned(Neg(Unit(n, i)), n);
  }

  /** Every row emitted for the first `k` dimensions is `+e_i` or `-e_i`. */
  lemma {:induction false} RowsUpToAxis(r: Box, k: nat)
    requires k <= |r| / 2
    ensures forall j :: 0 <= j < |RowsUpTo(r, k).G| ==> AxisAligned(RowsUpTo(r, k).G[j], |r| / 2)
    ensures forall j :: 0 <= j < |RowsUpTo(r, k).C| ==> AxisAligned(RowsUpTo(r, k).C[j], |r| / 2)
  {
    if k > 0 {
      RowsUpToAxis(r, k - 1);
      DimRowsAxis(r, k - 1);
      var prev, dim := RowsUpTo(r, k - 1), DimRows(r, k - 1);
      AxisAppend(prev.G, dim.G, |r| / 2);
      AxisAppend(prev.C, dim.C, |r| / 2);
    }
  }

  /** After `k` dimensions there are equality rows exactly when one of them is pinned. */
  lemma {:induction false} RowsUpToPinned(r: Box, k: nat)
    requires k <= |r| / 2
    ensures |RowsUpTo(r, k).C| == 0 <==> forall i :: 0 <= i < k ==> !Pinned(r, i)
  {
    if k > 0 {
      RowsUpToPinned(r, k - 1);
    }
  }

  /** The lists after `k` dimensions: shape, row kinds and the pinned dimensions. */
  lemma RowsUpToShape(r: Box, k: nat)
    requires k <= |r| / 2
    ensures var rows := RowsUpTo(r, k); var n := |r| / 2;
      && |rows.G| == |rows.h| && |rows.C| == |rows.d|
      && |rows.G| + 2 * |rows.C| == 2 * k
      && (forall j :: 0 <= j < |rows.G| ==> AxisAligned(rows.G[j], n))
      && (forall j :: 0 <= j < |rows.C| ==> AxisAligned(rows.C[j], n))
      && (|rows.C| == 0 <==> forall i :: 0 <= i < k ==> !Pinned(r, i))
  {
    RowsUpToLengths(r, k);
    RowsUpToAxis(r, k);
    RowsUpToPinned(r, k);
  }

  /**
    `constraint_list_to_matrix` emits, for `n = |r| / 2` dimensions, rows
    that are all `+e_i` or `-e_i`, one equality row per pinned dimension and
    two inequality rows per other dimension, and no equality part exactly
    when no dimension is pinned.
  */
  lemma MatrixShape(r: Box)
    ensures var sys := ToMatrix(r); var n := |r| / 2;
      && |sys.G| == |sys.h|
      && (forall j :: 0 <= j < |sys.G| ==> AxisAligned(sys.G[j], n))
      && (sys.C.Some? <==> sys.d.Some?)
      && (sys.C.None? <==> forall i :: 0 <= i < n ==> !Pinned(r, i))
      && (sys.C.Some? ==> |sys.C.value| == |sys.d.value|
                          && |sys.G| + 2 * |sys.C.value| == 2 * n
                          && forall j :: 0 <= j < |sys.C.value| ==> AxisAligned(sys.C.value[j], n))
      && (sys.C.None? ==> |sys.G| == 2 * n)
  {
    RowsUpToShape(r, |r| / 2);
  }

  /** All rows of the lists hold for `y` (inequalities without slack). */
  predicate RowsHold(rows: RowLists, y: seq<real>) {
    IneqsHold(rows.G, rows.h, y, 0.0) && EqsHold(rows.C, rows.d, y)
  }

  /** `y` meets the intervals of the first `k` dimensions of `r`. */
  predicate InPrefix(r: Box, y: seq<real>, k: nat)
    requires |r| == 2 * |y| && k <= |y|
  {
    forall f :: 0 <= f < k ==> Below(y[f], r[f]) && Below(-y[f], r[f + |y|])
  }

  lemma EqsHoldSingle(e: seq<real>, v: real, y: seq<real>)
    requires |e| == |y|
    ensures EqsHold([e], [v], y) <==> Dot(e, y) == v
  {
    var C, d := [e], [v];
    assert C[0] == e && d[0] == v;
  }

  lemma IneqsHoldPair(e: seq<real>, u: Bound, ne: seq<real>, w: Bound, y: seq<real>)
    requires |e| == |y| && |ne| == |y|
    ensures IneqsHold([e, ne], [u, w], y, 0.0) <==> Below(Dot(e, y), u) && Below(Dot(ne, y), w)
  {
    var G, h := [e, ne], [u, w];
    assert G[0] == e && G[1] == ne && h[0] == u && h[1] == w;
    assert Shift(u, 0.0) == u && Shift(w, 0.0) == w;
  }

  /** A pinned dimension's single equality row holds exactly when `y` meets its interval. */
  lemma PinnedDimMeaning(r: Box, i: nat, y: seq<real>)
    requires |r| == 2 * |y| && i < |y| && Pinned(r, i)
    ensures RowsHold(DimRows(r, i), y) <==> Below(y[i], r[i]) && Below(-y[i], r[i + |y|])
  {
    var n := |y|;
    var e := Unit(n, i);
    UnitDots(n, i, y);
    assert DimRows(r, i) == RowLists([], [], [e], [r[i].v]);
    EqsHoldSingle(e, r[i].v, y);
  }

  /** An unpinned dimension's two inequality rows hold exactly when `y` meets its interval. */
  lemma FreeDimMeaning(r: Box, i: nat, y: seq<real>)
    requires |r| == 2 * |y| && i < |y| && !Pinned(r, i)
    ensures RowsHold(DimRows(r, i), y) <==> Below(y[i], r[i]) && Below(-y[i], r[i + |y|])
  {
    var n := |y|;
    var e, ne := Unit(n, i), Neg(Unit(n, i));
    UnitDots(n, i, y);
    assert DimRows(r, i) == RowLists([e, ne], [r[i], r[i + n]], [], []);
    IneqsHoldPair(e, r[i], ne, r[i + n], y);
  }

  lemma DimRowsMeaning(r: Box, i: nat, y: seq<real>)
    requires |r| == 2 * |y| && i < |y|
    ensures RowsHold(DimRows(r, i), y) <==> Below(y[i], r[i]) && Below(-y[i], r[i + |y|])
  {
    if Pinned(r, i) {
      PinnedDimMeaning(r, i, y);
    } else {
      FreeDimMeaning(r, i, y);
    }
  }

  lemma RowsHoldAppend(a: RowLists, b: RowLists, y: seq<real>)
    requires |a.G| == |a.h| && |a.C| == |a.d| && |b.G| == |b.h| && |b.C| == |b.d|
    ensures RowsHold(Append(a, b), y) <==> RowsHold(a, y) && RowsHold(b, y)
  {
    IneqsHoldAppend(a.G, a.h, b.G, b.h, y, 0.0);
    EqsHoldAppend(a.C, a.d, b.C, b.d, y);
  }

  lemma InPrefixStep(r: Box, y: seq<real>, k: nat)
    requires |r| == 2 * |y| && 0 < k <= |y|
    ensures InPrefix(r, y, k) <==> InPrefix(r, y, k - 1) && Below(y[k - 1], r[k - 1]) && Below(-y[k - 1], r[k - 1 + |y|])
  {
  }

  /** The lists after `k` dimensions hold for `y` exactly when `y` meets the first `k` intervals. */
  lemma {:induction false} RowsUpToMeaning(r: Box, k: nat, y: seq<real>)
    requires |r| == 2 * |y| && k <= |y|
    ensures RowsHold(RowsUpTo(r, k), y) <==> InPrefix(r, y, k)
  {
    if k > 0 {
      RowsUpToMeaning(r, k - 1, y);
      RowsUpToLengths(r, k - 1);
      assert |DimRows(r, k - 1).G| == |DimRows(r, k - 1).h| && |DimRows(r, k - 1).C| == |DimRows(r, k - 1).d|;
      RowsHoldAppend(RowsUpTo(r, k - 1), DimRows(r, k - 1), y);
      DimRowsMeaning(r, k - 1, y);
      InPrefixStep(r, y, k);
    }
  }

  /**
    The system means the box: a point satisfies every row of
    `constraint_list_to_matrix(r)` (inequalities and equalities) exactly
    when it lies in `r`.
  */
  lemma MatrixMeaning(r: Box, y: seq<real>)
    requires |r| == 2 * |y|
    ensures InBox(y, r) <==> Holds(ToMatrix(r), y, 0.0)
  {
    RowsUpToMeaning(r, |y|, y);
    RowsUpToShape(r, |y|);
    assert InPrefix(r, y, |y|) <==> InBox(y, r);
    var rows := RowsUpTo(r, |y|);
    if |rows.C| == 0 {
      assert EqsHold(rows.C, rows.d, y);
    }
  }

  // ---------------------------------------------------------------------
  // union_constraints
  // ---------------------------------------------------------------------

  /**
    The three ways `union_constraints` fails: the assertion that every row's
    absolute entries sum to 1, the `ValueError` for a row summing to neither
    1 nor -1, and numpy's `IndexError` for a row summing to +-1 that has no
    entry equal to +-1 (such as `[0.5, 0.5]`).
  */
  datatype UnionError = RowNormNotOne | RowSumNotUnit | NoUnitEntry

  /** The slot a row's bound is folded into, or the error raised for the row. */
  function RowSlot(row: seq<real>, n: nat): (res: Result<nat, UnionError>)
    requires |row| == n
    ensures res.Success? ==> res.value < 2 * n
  {
    if Sum(row) == 1.0 then
      match FirstIndexOf(row, 1.0)
      case Some(i) => Success(i)
      case None => Failure(NoUnitEntry)
    else if Sum(row) == -1.0 then
      match FirstIndexOf(row, -1.0)
      case Some(i) => Success(i + n)
      case None => Failure(NoUnitEntry)
    else Failure(RowSumNotUnit)
  }

  /** `zip(G, h)` stops at the shorter list. */
  function ZipLen(G: seq<seq<real>>, h: seq<Bound>): nat {
    if |G| <= |h| then |G| else |h|
  }

  /** The box after the loop has consumed the first `k` rows. */
  function FoldRows(G: seq<seq<real>>, h: seq<Bound>, n: nat, k: nat): (res: Result<Box, UnionError>)
    requires Width(G, n) && k <= |G| && k <= |h|
    ensures res.Success? ==> |res.value| == 2 * n
  {
    if k == 0 then Success(Unbounded(2 * n))
    else match FoldRows(G, h, n, k - 1)
      case Failure(e) => Failure(e)
      case Success(r) =>
        match RowSlot(G[k - 1], n)
        case Failure(e) => Failure(e)
        case Success(s) => Success(r[s := Min(r[s], h[k - 1])])
  }

  /** `union_constraints(G, h)` for a matrix `G` of width `n`. */
  function Union(G: seq<seq<real>>, h: seq<Bound>, n: nat): Result<Box, UnionError>
    requires Width(G, n)
  {
    if !(forall j :: 0 <= j < |G| ==> AbsSum(G[j]) == 1.0) then Failure(RowNormNotOne)
    else FoldRows(G, h, n, ZipLen(G, h))
  }

  /**
    The slot one row of `union_constraints` bounds: the first `1` of a row
    summing to `1`, or `n` past the first `-1` of a row summing to `-1`.
  */
  method FindSlot(row: seq<real>, n: nat) returns (res: Result<nat, UnionError>)
    requires |row| == n
    ensures res == RowSlot(row, n)
  {
    var total := Sum(row);
    if total == 1.0 {
      var i := FirstIndexOf(row, 1.0);
      if i.None? { return Failure(NoUnitEntry); }
      return Success(i.value);
    } else if total == -1.0 {
      var i := FirstIndexOf(row, -1.0);
      if i.None? { return Failure(NoUnitEntry); }
      return Success(i.value + n);
    }
    return Failure(RowSumNotUnit);
  }

  /** Once a row has failed, the remaining rows are not looked at. */
  lemma {:induction false} FoldRowsStaysFailed(G: seq<seq<real>>, h: seq<Bound>, n: nat, k: nat, m: nat)
    requires Width(G, n) && k <= m <= |G| && m <= |h|
    requires FoldRows(G, h, n, k).Failure?
    ensures FoldRows(G, h, n, m) == FoldRows(G, h, n, k)
  {
    if m > k {
      FoldRowsStaysFailed(G, h, n, k, m - 1);
    }
  }

  method UnionConstraints(G: seq<seq<real>>, h: seq<Bound>, n: nat) returns (res: Result<Box, UnionError>)
    requires Width(G, n)
    ensures res == Union(G, h, n)
  {
    if !(forall j :: 0 <= j < |G| ==> AbsSum(G[j]) == 1.0) {
      return Failure(RowNormNotOne);
    }
    var r := Unbounded(2 * n);
    var m := ZipLen(G, h);
    for k := 0 to m
      invariant FoldRows(G, h, n, k) == Success(r)
    {
      var slot := FindSlot(G[k], n);
      if slot.Failure? {
        FoldRowsStaysFailed(G, h, n, k + 1, m);
        return Failure(slot.error);
      }
      r := r[slot.value := Min(r[slot.value], h[k])];
    }
    return Success(r);
  }

  // ---------------------------------------------------------------------
  // Properties of union_constraints
  // ---------------------------------------------------------------------

  lemma UnitsDiffer(n: nat, i: nat, j: nat)
    requires i < n && j < n
    ensures Unit(n, i) == Unit(n, j) <==> i == j
    ensures Neg(Unit(n, i)) == Neg(Unit(n, j)) <==> i == j
    ensures Unit(n, i) != Neg(Unit(n, j))
  {
    if i != j {
      assert Unit(n, i)[i] != Unit(n, j)[i];
      assert Neg(Unit(n, i))[i] != Neg(Unit(n, j))[i];
    }
    assert Unit(n, i)[i] != Neg(Unit(n, j))[i];
  }

  /** `e_i` targets exactly slot `i`, and `-e_i` exactly slot `i + n`. */
  lemma TargetsUnit(n: nat, i: nat, s: nat)
    requires i < n
    ensures Targets(Unit(n, i), n, s) <==> s == i
    ensures Targets(Neg(Unit(n, i)), n, s) <==> s == i + n
  {
    if s < n {
      UnitsDiffer(n, i, s);
      UnitsDiffer(n, s, i);
    } else if s < 2 * n {
      UnitsDiffer(n, i, s - n);
    }
  }

  /** The slot a row is folded into is the one it targets. */
  lemma RowSlotSound(row: seq<real>, n: nat)
    requires |row| == n && AbsSum(row) == 1.0 && RowSlot(row, n).Success?
    ensures Targets(row, n, RowSlot(row, n).value)
  {
    var s := RowSlot(row, n).value;
    if Sum(row) == 1.0 {
      AxisRow(row, s, 1.0);
    } else {
      AxisRow(row, s - n, -1.0);
    }
  }

  /** A row targeting a slot is folded into that slot. */
  lemma RowSlotComplete(row: seq<real>, n: nat, s: nat)
    requires |row| == n && Targets(row, n, s)
    ensures RowSlot(row, n) == Success(s)
  {
    if s < n {
      UnitFacts(n, s, row);
    } else {
      UnitFacts(n, s - n, row);
    }
  }

  /** Every accepted row targets some slot. */
  lemma AxisTargets(row: seq<real>, n: nat) returns (s: nat)
    requires AxisAligned(row, n)
    ensures s < 2 * n && Targets(row, n, s)
  {
    var i :| 0 <= i < n && (row == Unit(n, i) || row == Neg(Unit(n, i)));
    UnitsDiffer(n, i, i);
    s := if row == Unit(n, i) then i else i + n;
  }

  /** A row is accepted by the loop body exactly when it is `+e_i` or `-e_i`, and then lands in the slot it targets. */
  lemma RowSlotTargets(row: seq<real>, n: nat)
    requires |row| == n && AbsSum(row) == 1.0
    ensures RowSlot(row, n).Success? <==> AxisAligned(row, n)
    ensures forall s: nat :: RowSlot(row, n) == Success(s) <==> Targets(row, n, s)
  {
    if RowSlot(row, n).Success? {
      RowSlotSound(row, n);
      var s := RowSlot(row, n).value;
      var i := if s < n then s else s - n;
      assert row == Unit(n, i) || row == Neg(Unit(n, i));
    }
    if AxisAligned(row, n) {
      var s := AxisTargets(row, n);
      RowSlotComplete(row, n, s);
    }
    forall s: nat | Targets(row, n, s) ensures RowSlot(row, n) == Success(s) {
      RowSlotComplete(row, n, s);
    }
  }

  /** The loop survives the first `k` rows exactly when each of them is an accepted row. */
  lemma {:induction false} FoldRowsAccepts(G: seq<seq<real>>, h: seq<Bound>, n: nat, k: nat)
    requires Width(G, n) && k <= |G| && k <= |h|
    ensures FoldRows(G, h, n, k).Success? <==> forall j :: 0 <= j < k ==> RowSlot(G[j], n).Success?
  {
    if k > 0 {
      FoldRowsAccepts(G, h, n, k - 1);
    }
  }

  /**
    `union_constraints` succeeds exactly when every row's absolute entries
    sum to 1 and every row paired with a bound is `+e_i` or `-e_i`.
  */
  lemma UnionAccepts(G: seq<seq<real>>, h: seq<Bound>, n: nat)
    requires Width(G, n)
    ensures Union(G, h, n).Success? <==>
      (forall j :: 0 <= j < |G| ==> AbsSum(G[j]) == 1.0) &&
      (forall j :: 0 <= j < ZipLen(G, h) ==> AxisAligned(G[j], n))
  {
    if forall j :: 0 <= j < |G| ==> AbsSum(G[j]) == 1.0 {
      FoldRowsAccepts(G, h, n, ZipLen(G, h));
      forall j | 0 <= j < ZipLen(G, h) ensures RowSlot(G[j], n).Success? <==> AxisAligned(G[j], n) {
        RowSlotTargets(G[j], n);
      }
    }
  }

  /** A stack of `+e_i` / `-e_i` rows with one bound each is always accepted. */
  lemma UnionOfAxisRows(G: seq<seq<real>>, h: seq<Bound>, n: nat)
    requires |G| == |h| && forall j :: 0 <= j < |G| ==> AxisAligned(G[j], n)
    ensures Width(G, n) && Union(G, h, n).Success?
  {
    forall j | 0 <= j < |G| ensures |G[j]| == n && AbsSum(G[j]) == 1.0 {
      var i :| 0 <= i < n && (G[j] == Unit(n, i) || G[j] == Neg(Unit(n, i)));
      UnitFacts(n, i, G[j]);
    }
    UnionAccepts(G, h, n);
  }

  /** A reference definition: the smallest bound among the first `k` rows that target slot `s`. */
  function SlotMin(G: seq<seq<real>>, h: seq<Bound>, n: nat, s: nat, k: nat): Bound
    requires k <= |G| && k <= |h|
  {
    if k == 0 then PosInf
    else if Targets(G[k - 1], n, s) then Min(SlotMin(G, h, n, s, k - 1), h[k - 1])
    else SlotMin(G, h, n, s, k - 1)
  }

  lemma {:induction false} FoldRowsSlots(G: seq<seq<real>>, h: seq<Bound>, n: nat, k: nat)
    requires Width(G, n) && k <= |G| && k <= |h|
    requires forall j :: 0 <= j < |G| ==> AbsSum(G[j]) == 1.0
    requires FoldRows(G, h, n, k).Success?
    ensures forall s :: 0 <= s < 2 * n ==> FoldRows(G, h, n, k).value[s] == SlotMin(G, h, n, s, k)
  {
    if k > 0 {
      FoldRowsSlots(G, h, n, k - 1);
      RowSlotTargets(G[k - 1], n);
    }
  }

  /**
    On success, slot `i` of the result is the smallest bound of the rows
    equal to `+e_i`, slot `i + n` the smallest bound of the rows equal to
    `-e_i`, and a slot no row targets stays unbounded.
  */
  lemma UnionSlots(G: seq<seq<real>>, h: seq<Bound>, n: nat)
    requires Width(G, n) && Union(G, h, n).Success?
    ensures |Union(G, h, n).value| == 2 * n
    ensures forall s :: 0 <= s < 2 * n ==> Union(G, h, n).value[s] == SlotMin(G, h, n, s, ZipLen(G, h))
  {
    FoldRowsSlots(G, h, n, ZipLen(G, h));
  }

  lemma {:induction false} SlotMinPrefix(A: seq<seq<real>>, hA: seq<Bound>, B: seq<seq<real>>, hB: seq<Bound>,
                                         n: nat, s: nat, k: nat)
    requires k <= |A| && k <= |hA|
    ensures SlotMin(A + B, hA + hB, n, s, k) == SlotMin(A, hA, n, s, k)
  {
    if k > 0 {
      SlotMinPrefix(A, hA, B, hB, n, s, k - 1);
      assert (A + B)[k - 1] == A[k - 1] && (hA + hB)[k - 1] == hA[k - 1];
    }
  }

  lemma {:induction false} SlotMinAppend(A: seq<seq<real>>, hA: seq<Bound>, B: seq<seq<real>>, hB: seq<Bound>,
                                         n: nat, s: nat, k: nat)
    requires |A| == |hA| && k <= |B| && k <= |hB|
    ensures SlotMin(A + B, hA + hB, n, s, |A| + k) == Min(SlotMin(A, hA, n, s, |A|), SlotMin(B, hB, n, s, k))
  {
    if k == 0 {
      SlotMinPrefix(A, hA, B, hB, n, s, |A|);
    } else {
      SlotMinAppend(A, hA, B, hB, n, s, k - 1);
      assert (A + B)[|A| + k - 1] == B[k - 1] && (hA + hB)[|A| + k - 1] == hB[k - 1];
      MinAssociates(SlotMin(A, hA, n, s, |A|), SlotMin(B, hB, n, s, k - 1), hB[k - 1]);
    }
  }

  lemma UnionAcceptsAppend(A: seq<seq<real>>, hA: seq<Bound>, B: seq<seq<real>>, hB: seq<Bound>, n: nat)
    requires Width(A, n) && Width(B, n) && |A| == |hA| && |B| == |hB|
    ensures Width(A + B, n)
    ensures Union(A + B, hA + hB, n).Success? <==> Union(A, hA, n).Success? && Union(B, hB, n).Success?
  {
    UnionAccepts(A + B, hA + hB, n);
    UnionAccepts(A, hA, n);
    UnionAccepts(B, hB, n);
    assert forall j :: 0 <= j < |A| ==> (A + B)[j] == A[j];
    assert forall j :: 0 <= j < |B| ==> (A + B)[|A| + j] == B[j];
  }

  /** Stacking two accepted systems yields the intersection of their boxes. */
  lemma UnionAppend(A: seq<seq<real>>, hA: seq<Bound>, B: seq<seq<real>>, hB: seq<Bound>, n: nat)
    requires Width(A, n) && Width(B, n) && |A| == |hA| && |B| == |hB|
    requires Union(A, hA, n).Success? && Union(B, hB, n).Success?
    ensures Width(A + B, n)
    ensures Union(A + B, hA + hB, n) == Success(Meet(Union(A, hA, n).value, Union(B, hB, n).value))
  {
    UnionAcceptsAppend(A, hA, B, hB, n);
    UnionSlots(A + B, hA + hB, n);
    UnionSlots(A, hA, n);
    UnionSlots(B, hB, n);
    var u, m := Union(A + B, hA + hB, n).value, Meet(Union(A, hA, n).value, Union(B, hB, n).value);
    forall s | 0 <= s < 2 * n ensures u[s] == m[s] {
      SlotMinAppend(A, hA, B, hB, n, s, |B|);
    }
    assert u == m;
  }

  /**
    The result does not depend on the order of the stacked systems, and
    stacking a system twice changes nothing.
  */
  lemma UnionOrderFree(A: seq<seq<real>>, hA: seq<Bound>, B: seq<seq<real>>, hB: seq<Bound>, n: nat)
    requires Width(A, n) && Width(B, n) && |A| == |hA| && |B| == |hB|
    ensures Width(A + B, n) && Width(B + A, n)
    ensures Union(A + B, hA + hB, n).Success? <==> Union(B + A, hB + hA, n).Success?
    ensures Union(A + B, hA + hB, n).Success? ==> Union(A + B, hA + hB, n) == Union(B + A, hB + hA, n)
    ensures Union(A + A, hA + hA, n).Success? <==> Union(A, hA, n).Success?
    ensures Union(A, hA, n).Success? ==> Union(A + A, hA + hA, n) == Union(A, hA, n)
  {
    UnionAcceptsAppend(A, hA, B, hB, n);
    UnionAcceptsAppend(B, hB, A, hA, n);
    UnionAcceptsAppend(A, hA, A, hA, n);
    if Union(A, hA, n).Success? && Union(B, hB, n).Success? {
      UnionAppend(A, hA, B, hB, n);
      UnionAppend(B, hB, A, hA, n);
      var a, b := Union(A, hA, n).value, Union(B, hB, n).value;
      forall s | 0 <= s < |a| ensures Meet(a, b)[s] == Meet(b, a)[s] {
        MinCommutes(a[s], b[s]);
      }
      assert Meet(a, b) == Meet(b, a);
    }
    if Union(A, hA, n).Success? {
      UnionAppend(A, hA, A, hA, n);
      var a := Union(A, hA, n).value;
      assert Meet(a, a) == a;
    }
  }

  /** `Below` a slot minimum means below every bound of a row targeting that slot. */
  lemma {:induction false} SlotMinBelow(G: seq<seq<real>>, h: seq<Bound>, n: nat, s: nat, k: nat, x: real)
    requires k <= |G| && k <= |h|
    ensures Below(x, SlotMin(G, h, n, s, k)) <==> forall j :: 0 <= j < k && Targets(G[j], n, s) ==> Below(x, h[j])
  {
    if k > 0 {
      SlotMinBelow(G, h, n, s, k - 1, x);
    }
  }

  /** The quantity slot `s` bounds: `y[s]` for an upper slot, `-y[s - n]` for a lower one. */
  function Coord(y: seq<real>, s: nat): real
    requires s < 2 * |y|
  {
    if s < |y| then y[s] else -y[s - |y|]
  }

  /** A row targeting slot `s` measures exactly that slot's quantity. */
  lemma TargetDot(row: seq<real>, y: seq<real>, s: nat)
    requires s < 2 * |y| && Targets(row, |y|, s)
    ensures |row| == |y| && Dot(row, y) == Coord(y, s)
  {
    if s < |y| { UnitDots(|y|, s, y); } else { UnitDots(|y|, s - |y|, y); }
  }

  /** A point of the returned box satisfies every row. */
  lemma UnionSound(G: seq<seq<real>>, h: seq<Bound>, n: nat, y: seq<real>)
    requires Width(G, n) && |G| == |h| && |y| == n
    requires Union(G, h, n).Success? && InBox(y, Union(G, h, n).value)
    ensures IneqsHold(G, h, y, 0.0)
  {
    UnionSlots(G, h, n);
    UnionAccepts(G, h, n);
    assert ZipLen(G, h) == |G|;
    forall j | 0 <= j < |G| ensures RowHolds(G[j], h[j], y, 0.0) {
      var s := AxisTargets(G[j], n);
      TargetDot(G[j], y, s);
      SlotMinBelow(G, h, n, s, |G|, Coord(y, s));
      if s >= n { assert s - n + n == s; }
    }
  }

  /** A point satisfying every row lies in the returned box. */
  lemma UnionComplete(G: seq<seq<real>>, h: seq<Bound>, n: nat, y: seq<real>)
    requires Width(G, n) && |G| == |h| && |y| == n
    requires Union(G, h, n).Success? && IneqsHold(G, h, y, 0.0)
    ensures InBox(y, Union(G, h, n).value)
  {
    var r := Union(G, h, n).value;
    UnionSlots(G, h, n);
    assert ZipLen(G, h) == |G|;
    forall s: nat | s < 2 * n ensures Below(Coord(y, s), r[s]) {
      forall j | 0 <= j < |G| && Targets(G[j], n, s) ensures Below(Coord(y, s), h[j]) {
        TargetDot(G[j], y, s);
      }
      SlotMinBelow(G, h, n, s, |G|, Coord(y, s));
    }
    forall f | 0 <= f < n ensures Below(y[f], r[f]) && Below(-y[f], r[f + n]) {
      assert Coord(y, f) == y[f] && Coord(y, f + n) == -y[f];
    }
  }

  lemma UnionMeaning(G: seq<seq<real>>, h: seq<Bound>, n: nat, y: seq<real>)
    requires Width(G, n) && |G| == |h| && |y| == n
    requires Union(G, h, n).Success?
    ensures InBox(y, Union(G, h, n).value) <==> IneqsHold(G, h, y, 0.0)
  {
    if InBox(y, Union(G, h, n).value) {
      UnionSound(G, h, n, y);
    }
    if IneqsHold(G, h, y, 0.0) {
      UnionComplete(G, h, n, y);
    }
  }

  // ---------------------------------------------------------------------
  // Round trip
  // ---------------------------------------------------------------------

  function Fins(d: seq<real>): (b: seq<Bound>)
    ensures |b| == |d| && forall j :: 0 <= j < |d| ==> b[j] == Finite(d[j])
  {
    seq(|d|, j requires 0 <= j < |d| => Finite(d[j]))
  }

  function NegFins(d: seq<real>): (b: seq<Bound>)
    ensures |b| == |d| && forall j :: 0 <= j < |d| ==> b[j] == Finite(-d[j])
  {
    seq(|d|, j requires 0 <= j < |d| => Finite(-d[j]))
  }

  function NegRows(C: seq<seq<real>>): (N: seq<seq<real>>)
    ensures |N| == |C| && forall j :: 0 <= j < |C| ==> N[j] == Neg(C[j])
  {
    seq(|C|, j requires 0 <= j < |C| => Neg(C[j]))
  }

  lemma FinsAppend(a: seq<real>, b: seq<real>)
    ensures Fins(a + b) == Fins(a) + Fins(b)
  {
  }

  lemma NegFinsAppend(a: seq<real>, b: seq<real>)
    ensures NegFins(a + b) == NegFins(a) + NegFins(b)
  {
  }

  lemma NegRowsAppend(A: seq<seq<real>>, B: seq<seq<real>>)
    ensures NegRows(A + B) == NegRows(A) + NegRows(B)
  {
  }

  /** Rows with their bounds, as `union_constraints` takes them. */
  datatype Stack = Stack(G: seq<seq<real>>, h: seq<Bound>)

  /** The system read back as a stack: each equality row `e_i x = d` as `e_i x <= d` and `-e_i x <= -d`. */
  function Restack(sys: LinearSystem): Stack
  {
    if sys.C.Some? && sys.d.Some? then
      Stack(sys.G + sys.C.value + NegRows(sys.C.value), sys.h + Fins(sys.d.value) + NegFins(sys.d.value))
    else Stack(sys.G, sys.h)
  }

  /** The dimension a slot belongs to. */
  function Dim(s: nat, n: nat): nat {
    if s < n then s else s - n
  }

  /** The inequality rows of dimension `i` bound its two slots, unless it is pinned. */
  lemma DimIneqSlot(r: Box, i: nat, s: nat)
    requires i < |r| / 2 && s < 2 * (|r| / 2)
    ensures |DimRows(r, i).G| == |DimRows(r, i).h|
    ensures SlotMin(DimRows(r, i).G, DimRows(r, i).h, |r| / 2, s, |DimRows(r, i).G|) ==
      if Dim(s, |r| / 2) == i && !Pinned(r, i) then r[s] else PosInf
  {
    var n := |r| / 2;
    TargetsUnit(n, i, s);
    var dim := DimRows(r, i);
    if !Pinned(r, i) {
      assert dim.G == [Unit(n, i), Neg(Unit(n, i))] && dim.h == [r[i], r[i + n]];
      assert SlotMin(dim.G, dim.h, n, s, 0) == PosInf;
      var first := SlotMin(dim.G, dim.h, n, s, 1);
      assert dim.G[0] == Unit(n, i) && dim.G[1] == Neg(Unit(n, i));
      assert first == if s == i then r[i] else PosInf;
      assert SlotMin(dim.G, dim.h, n, s, 2) == if s == i + n then Min(first, r[i + n]) else first;
    }
  }

  /** The equality row of a pinned dimension `i` bounds slot `i`. */
  lemma DimEqSlot(r: Box, i: nat, s: nat)
    requires i < |r| / 2 && s < 2 * (|r| / 2)
    ensures |DimRows(r, i).C| == |DimRows(r, i).d|
    ensures SlotMin(DimRows(r, i).C, Fins(DimRows(r, i).d), |r| / 2, s, |DimRows(r, i).C|) ==
      if s == i && Pinned(r, i) then r[s] else PosInf
  {
    var n := |r| / 2;
    TargetsUnit(n, i, s);
    var dim := DimRows(r, i);
    if Pinned(r, i) {
      assert dim.C == [Unit(n, i)] && Fins(dim.d) == [r[i]];
    }
  }

  /** The negated equality row of a pinned dimension `i` bounds slot `i + n`. */
  lemma DimNegEqSlot(r: Box, i: nat, s: nat)
    requires i < |r| / 2 && s < 2 * (|r| / 2)
    ensures |DimRows(r, i).C| == |DimRows(r, i).d|
    ensures SlotMin(NegRows(DimRows(r, i).C), NegFins(DimRows(r, i).d), |r| / 2, s, |DimRows(r, i).C|) ==
      if s == i + |r| / 2 && Pinned(r, i) then r[s] else PosInf
  {
    var n := |r| / 2;
    TargetsUnit(n, i, s);
    var dim := DimRows(r, i);
    if Pinned(r, i) {
      assert NegRows(dim.C) == [Neg(Unit(n, i))] && NegFins(dim.d) == [r[i + n]];
    }
  }

  /** The inequality rows of the first `k` dimensions bound the slots of the unpinned ones. */
  lemma {:induction false} IneqSlots(r: Box, k: nat, s: nat)
    requires k <= |r| / 2 && s < 2 * (|r| / 2)
    ensures |RowsUpTo(r, k).G| == |RowsUpTo(r, k).h|
    ensures SlotMin(RowsUpTo(r, k).G, RowsUpTo(r, k).h, |r| / 2, s, |RowsUpTo(r, k).G|) ==
      if Dim(s, |r| / 2) < k && !Pinned(r, Dim(s, |r| / 2)) then r[s] else PosInf
  {
    RowsUpToLengths(r, k);
    if k > 0 {
      var n, i := |r| / 2, k - 1;
      var prev, dim := RowsUpTo(r, i), DimRows(r, i);
      assert RowsUpTo(r, k) == Append(prev, dim);
      RowsUpToLengths(r, i);
      IneqSlots(r, i, s);
      DimIneqSlot(r, i, s);
      SlotMinAppend(prev.G, prev.h, dim.G, dim.h, n, s, |dim.G|);
    }
  }

  /** The equality rows of two stacked lists bound a slot by the smaller of their two bounds. */
  lemma EqSlotsAppend(C1: seq<seq<real>>, d1: seq<real>, C2: seq<seq<real>>, d2: seq<real>, n: nat, s: nat)
    requires |C1| == |d1| && |C2| == |d2|
    ensures SlotMin(C1 + C2, Fins(d1 + d2), n, s, |C1 + C2|) ==
            Min(SlotMin(C1, Fins(d1), n, s, |C1|), SlotMin(C2, Fins(d2), n, s, |C2|))
  {
    FinsAppend(d1, d2);
    SlotMinAppend(C1, Fins(d1), C2, Fins(d2), n, s, |C2|);
  }

  /** The same for the negated equality rows. */
  lemma NegEqSlotsAppend(C1: seq<seq<real>>, d1: seq<real>, C2: seq<seq<real>>, d2: seq<real>, n: nat, s: nat)
    requires |C1| == |d1| && |C2| == |d2|
    ensures SlotMin(NegRows(C1 + C2), NegFins(d1 + d2), n, s, |C1 + C2|) ==
            Min(SlotMin(NegRows(C1), NegFins(d1), n, s, |C1|), SlotMin(NegRows(C2), NegFins(d2), n, s, |C2|))
  {
    NegFinsAppend(d1, d2);
    NegRowsAppend(C1, C2);
    SlotMinAppend(NegRows(C1), NegFins(d1), NegRows(C2), NegFins(d2), n, s, |C2|);
  }

  /** The equality rows of the first `k` dimensions bound the upper slots of the pinned ones. */
  lemma {:induction false} EqSlots(r: Box, k: nat, s: nat)
    requires k <= |r| / 2 && s < 2 * (|r| / 2)
    ensures |RowsUpTo(r, k).C| == |RowsUpTo(r, k).d|
    ensures SlotMin(RowsUpTo(r, k).C, Fins(RowsUpTo(r, k).d), |r| / 2, s, |RowsUpTo(r, k).C|) ==
      if s < k && Pinned(r, s) then r[s] else PosInf
  {
    RowsUpToLengths(r, k);
    if k > 0 {
      var n, i := |r| / 2, k - 1;
      var prev, dim := RowsUpTo(r, i), DimRows(r, i);
      assert RowsUpTo(r, k) == Append(prev, dim);
      RowsUpToLengths(r, i);
      EqSlots(r, i, s);
      DimEqSlot(r, i, s);
      EqSlotsAppend(prev.C, prev.d, dim.C, dim.d, n, s);
    }
  }

  /** The negated equality rows bound the lower slots of the pinned dimensions. */
  lemma {:induction false} NegEqSlots(r: Box, k: nat, s: nat)
    requires k <= |r| / 2 && s < 2 * (|r| / 2)
    ensures |RowsUpTo(r, k).C| == |RowsUpTo(r, k).d|
    ensures SlotMin(NegRows(RowsUpTo(r, k).C), NegFins(RowsUpTo(r, k).d), |r| / 2, s, |RowsUpTo(r, k).C|) ==
      if |r| / 2 <= s && s - |r| / 2 < k && Pinned(r, s - |r| / 2) then r[s] else PosInf
  {
    RowsUpToLengths(r, k);
    if k > 0 {
      var n, i := |r| / 2, k - 1;
      var prev, dim := RowsUpTo(r, i), DimRows(r, i);
      assert RowsUpTo(r, k) == Append(prev, dim);
      RowsUpToLengths(r, i);
      NegEqSlots(r, i, s);
      DimNegEqSlot(r, i, s);
      assert RowsUpTo(r, k).C == prev.C + dim.C && RowsUpTo(r, k).d == prev.d + dim.d;
      NegEqSlotsAppend(prev.C, prev.d, dim.C, dim.d, n, s);
    }
  }

  lemma NegRowsAxis(C: seq<seq<real>>, n: nat)
    requires forall j :: 0 <= j < |C| ==> AxisAligned(C[j], n)
    ensures forall j :: 0 <= j < |C| ==> AxisAligned(NegRows(C)[j], n)
  {
    forall j | 0 <= j < |C| ensures AxisAligned(NegRows(C)[j], n) {
      var i :| 0 <= i < n && (C[j] == Unit(n, i) || C[j] == Neg(Unit(n, i)));
      if C[j] == Neg(Unit(n, i)) { assert Neg(Neg(Unit(n, i))) == Unit(n, i); }
    }
  }

  /** Slot by slot, exactly one of the three row groups bounds a slot of a pinned dimension. */
  lemma SlotRoundTrip(r: Box, s: nat)
    requires |r| % 2 == 0 && s < |r|
    ensures var rows := RowsUpTo(r, |r| / 2); var n := |r| / 2;
      |rows.G| == |rows.h| && |rows.C| == |rows.d| &&
      Min(Min(SlotMin(rows.G, rows.h, n, s, |rows.G|), SlotMin(rows.C, Fins(rows.d), n, s, |rows.C|)),
          SlotMin(NegRows(rows.C), NegFins(rows.d), n, s, |rows.C|)) == r[s]
  {
    var n := |r| / 2;
    IneqSlots(r, n, s);
    EqSlots(r, n, s);
    NegEqSlots(r, n, s);
  }

  lemma RoundTripUnpinned(r: Box)
    requires |r| % 2 == 0 && |RowsUpTo(r, |r| / 2).C| == 0
    ensures ToMatrix(r).C.None? && Restack(ToMatrix(r)) == Stack(RowsUpTo(r, |r| / 2).G, RowsUpTo(r, |r| / 2).h)
    ensures Width(RowsUpTo(r, |r| / 2).G, |r| / 2)
    ensures Union(RowsUpTo(r, |r| / 2).G, RowsUpTo(r, |r| / 2).h, |r| / 2) == Success(r)
  {
    var n := |r| / 2;
    var rows := RowsUpTo(r, n);
    RowsUpToShape(r, n);
    UnionOfAxisRows(rows.G, rows.h, n);
    UnionSlots(rows.G, rows.h, n);
    var u := Union(rows.G, rows.h, n).value;
    forall s | 0 <= s < 2 * n ensures u[s] == r[s] {
      IneqSlots(r, n, s);
    }
    assert u == r;
  }

  /**
    With pinned dimensions, the rows read back are the inequality rows, the
    equality rows and the negated equality rows; each group is accepted, and
    the stack reads back as the meet of the three.
  */
  lemma PinnedUnionParts(r: Box)
    requires |r| % 2 == 0 && |RowsUpTo(r, |r| / 2).C| != 0
    ensures var rows := RowsUpTo(r, |r| / 2); var n := |r| / 2;
      |rows.G| == |rows.h| && |rows.C| == |rows.d| &&
      Width(rows.G, n) && Width(rows.C, n) && Width(NegRows(rows.C), n) &&
      Union(rows.G, rows.h, n).Success? && Union(rows.C, Fins(rows.d), n).Success? &&
      Union(NegRows(rows.C), NegFins(rows.d), n).Success? &&
      Width(rows.G + rows.C + NegRows(rows.C), n) &&
      Union(rows.G + rows.C + NegRows(rows.C), rows.h + Fins(rows.d) + NegFins(rows.d), n) ==
        Success(Meet(Meet(Union(rows.G, rows.h, n).value, Union(rows.C, Fins(rows.d), n).value),
                     Union(NegRows(rows.C), NegFins(rows.d), n).value))
  {
    var n := |r| / 2;
    var rows := RowsUpTo(r, n);
    RowsUpToShape(r, n);
    NegRowsAxis(rows.C, n);
    UnionOfAxisRows(rows.G, rows.h, n);
    UnionOfAxisRows(rows.C, Fins(rows.d), n);
    UnionOfAxisRows(NegRows(rows.C), NegFins(rows.d), n);
    UnionAppend(rows.G, rows.h, rows.C, Fins(rows.d), n);
    UnionAppend(rows.G + rows.C, rows.h + Fins(rows.d), NegRows(rows.C), NegFins(rows.d), n);
  }

  /** Slot `s` of the meet of the three groups' read-back boxes is slot `s` of `r`. */
  lemma PinnedMeetSlot(r: Box, s: nat)
    requires |r| % 2 == 0 && s < |r|
    requires var rows := RowsUpTo(r, |r| / 2); var n := |r| / 2;
      |rows.G| == |rows.h| && |rows.C| == |rows.d| &&
      Width(rows.G, n) && Width(rows.C, n) && Width(NegRows(rows.C), n) &&
      Union(rows.G, rows.h, n).Success? && Union(rows.C, Fins(rows.d), n).Success? &&
      Union(NegRows(rows.C), NegFins(rows.d), n).Success?
    ensures var rows := RowsUpTo(r, |r| / 2); var n := |r| / 2;
      |Union(rows.G, rows.h, n).value| == |r| && |Union(rows.C, Fins(rows.d), n).value| == |r| &&
      |Union(NegRows(rows.C), NegFins(rows.d), n).value| == |r| &&
      Min(Min(Union(rows.G, rows.h, n).value[s], Union(rows.C, Fins(rows.d), n).value[s]),
          Union(NegRows(rows.C), NegFins(rows.d), n).value[s]) == r[s]
  {
    var n := |r| / 2;
    var rows := RowsUpTo(r, n);
    UnionSlots(rows.G, rows.h, n);
    UnionSlots(rows.C, Fins(rows.d), n);
    UnionSlots(NegRows(rows.C), NegFins(rows.d), n);
    SlotRoundTrip(r, s);
  }

  /** The meet of the three groups' read-back boxes is `r`. */
  lemma PinnedMeet(r: Box)
    requires |r| % 2 == 0
    requires var rows := RowsUpTo(r, |r| / 2); var n := |r| / 2;
      |rows.G| == |rows.h| && |rows.C| == |rows.d| &&
      Width(rows.G, n) && Width(rows.C, n) && Width(NegRows(rows.C), n) &&
      Union(rows.G, rows.h, n).Success? && Union(rows.C, Fins(rows.d), n).Success? &&
      Union(NegRows(rows.C), NegFins(rows.d), n).Success?
    ensures var rows := RowsUpTo(r, |r| / 2); var n := |r| / 2;
      |Union(rows.G, rows.h, n).value| == |r| && |Union(rows.C, Fins(rows.d), n).value| == |r| &&
      |Union(NegRows(rows.C), NegFins(rows.d), n).value| == |r| &&
      Meet(Meet(Union(rows.G, rows.h, n).value, Union(rows.C, Fins(rows.d), n).value),
           Union(NegRows(rows.C), NegFins(rows.d), n).value) == r
  {
    var n := |r| / 2;
    var rows := RowsUpTo(r, n);
    var g := Union(rows.G, rows.h, n).value;
    var c := Union(rows.C, Fins(rows.d), n).value;
    var nc := Union(NegRows(rows.C), NegFins(rows.d), n).value;
    UnionSlots(rows.G, rows.h, n);
    UnionSlots(rows.C, Fins(rows.d), n);
    UnionSlots(NegRows(rows.C), NegFins(rows.d), n);
    var m := Meet(Meet(g, c), nc);
    forall s | 0 <= s < |r| ensures m[s] == r[s] {
      PinnedMeetSlot(r, s);
    }
    assert m == r;
  }

  lemma RoundTripPinned(r: Box)
    requires |r| % 2 == 0 && |RowsUpTo(r, |r| / 2).C| != 0
    ensures var rows := RowsUpTo(r, |r| / 2);
      Width(rows.G + rows.C + NegRows(rows.C), |r| / 2) &&
      Union(rows.G + rows.C + NegRows(rows.C), rows.h + Fins(rows.d) + NegFins(rows.d), |r| / 2) == Success(r)
  {
    PinnedUnionParts(r);
    PinnedMeet(r);
  }

  /**
    Reading the rows of `constraint_list_to_matrix(r)` back through
    `union_constraints` (each equality row as two opposite inequalities)
    reproduces `r`, for pinned and unpinned dimensions alike.
  */
  lemma MatrixRoundTrip(r: Box)
    requires |r| % 2 == 0
    ensures Width(Restack(ToMatrix(r)).G, |r| / 2)
    ensures Union(Restack(ToMatrix(r)).G, Restack(ToMatrix(r)).h, |r| / 2) == Success(r)
  {
    RowsUpToLengths(r, |r| / 2);
    if |RowsUpTo(r, |r| / 2).C| == 0 {
      RoundTripUnpinned(r);
    } else {
      RoundTripPinned(r);
    }
  }
}
