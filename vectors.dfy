/**
  Dense real vectors: the few numpy operations the attack uses on rows,
  points and perturbations (`sum`, `abs().sum`, `np.where(.. == v)[0][0]`,
  dot products, `argmax`, `argmin`, norms).
*/
module Vectors {
  import opened Wrappers

  function Abs(x: real): real {
    if x < 0.0 then -x else x
  }

  function Zeros(n: nat): (z: seq<real>)
    ensures |z| == n && forall j :: 0 <= j < n ==> z[j] == 0.0
  {
    seq(n, _ => 0.0)
  }

  /** The unit vector `e_i` of width `n` (`temp = np.zeros(n); temp[i] = 1`). */
  function Unit(n: nat, i: nat): (e: seq<real>)
    ensures |e| == n && forall j :: 0 <= j < n ==> e[j] == if j == i then 1.0 else 0.0
  {
    seq(n, j => if j == i then 1.0 else 0.0)
  }

  function Neg(v: seq<real>): (w: seq<real>)
    ensures |w| == |v| && forall j :: 0 <= j < |v| ==> w[j] == -v[j]
  {
    seq(|v|, j requires 0 <= j < |v| => -v[j])
  }

  function Add(a: seq<real>, b: seq<real>): (c: seq<real>)
    requires |a| == |b|
    ensures |c| == |a| && forall j :: 0 <= j < |a| ==> c[j] == a[j] + b[j]
  {
    seq(|a|, j requires 0 <= j < |a| => a[j] + b[j])
  }

  function Sub(a: seq<real>, b: seq<real>): (c: seq<real>)
    requires |a| == |b|
    ensures |c| == |a| && forall j :: 0 <= j < |a| ==> c[j] == a[j] - b[j]
  {
    seq(|a|, j requires 0 <= j < |a| => a[j] - b[j])
  }

  function Sum(v: seq<real>): real {
    if |v| == 0 then 0.0 else Sum(v[..|v| - 1]) + v[|v| - 1]
  }

  function AbsSum(v: seq<real>): real {
    if |v| == 0 then 0.0 else AbsSum(v[..|v| - 1]) + Abs(v[|v| - 1])
  }

  function Dot(a: seq<real>, b: seq<real>): real
    requires |a| == |b|
  {
    if |a| == 0 then 0.0 else Dot(a[..|a| - 1], b[..|a| - 1]) + a[|a| - 1] * b[|a| - 1]
  }

  /** `np.where(v == x)[0][0]`, or `None` where numpy raises an IndexError. */
  function FirstIndexOf(v: seq<real>, x: real): (k: Option<nat>)
    ensures k.Some? ==> k.value < |v| && v[k.value] == x && forall j :: 0 <= j < k.value ==> v[j] != x
    ensures k.None? ==> forall j :: 0 <= j < |v| ==> v[j] != x
  {
    if |v| == 0 then None
    else if v[0] == x then Some(0)
    else match FirstIndexOf(v[1..], x)
      case None => None
      case Some(k) => Some(k + 1)
  }

  /**
    A product kept behind a function name, so that the solver treats a
    square `Mul(x, x)` as a term of its own (see `SquarePositive`).
  */
  function Mul(a: real, b: real): real {
    a * b
  }

  /** The squared L2 norm (the norm's square root is monotone, so it selects the same minimum). */
  function NormSq(v: seq<real>): real {
    if |v| == 0 then 0.0 else NormSq(v[..|v| - 1]) + Mul(v[|v| - 1], v[|v| - 1])
  }

  /** The L-infinity norm: the largest absolute entry (0 for the empty vector). */
  function NormInf(v: seq<real>): real {
    if |v| == 0 then 0.0
    else var m := NormInf(v[..|v| - 1]); if Abs(v[|v| - 1]) > m then Abs(v[|v| - 1]) else m
  }

  /** `np.argmax`: the first index of a largest entry. */
  function ArgMax(s: seq<real>): (k: nat)
    requires |s| > 0
    ensures k < |s|
    ensures forall j :: 0 <= j < |s| ==> s[j] <= s[k]
    ensures forall j :: 0 <= j < k ==> s[j] < s[k]
  {
    if |s| == 1 then 0
    else
      var k := ArgMax(s[..|s| - 1]);
      assert forall j :: 0 <= j < |s| - 1 ==> s[..|s| - 1][j] == s[j];
      if s[|s| - 1] > s[k] then |s| - 1 else k
  }

  /** `np.argmin`: the first index of a smallest entry. */
  function ArgMin(s: seq<real>): (k: nat)
    requires |s| > 0
    ensures k < |s|
    ensures forall j :: 0 <= j < |s| ==> s[k] <= s[j]
    ensures forall j :: 0 <= j < k ==> s[k] < s[j]
  {
    if |s| == 1 then 0
    else
      var k := ArgMin(s[..|s| - 1]);
      assert forall j :: 0 <= j < |s| - 1 ==> s[..|s| - 1][j] == s[j];
      if s[|s| - 1] < s[k] then |s| - 1 else k
  }

  // ----- facts about the row operations -----

  lemma {:induction false} SumSplit(v: seq<real>, k: nat)
    requires k < |v|
    ensures Sum(v) == Sum(v[k := 0.0]) + v[k]
  {
    var m := |v| - 1;
    if k == m {
      assert v[k := 0.0][..m] == v[..m];
    } else {
      assert v[k := 0.0][..m] == v[..m][k := 0.0];
      SumSplit(v[..m], k);
    }
  }

  lemma {:induction false} AbsSumSplit(v: seq<real>, k: nat)
    requires k < |v|
    ensures AbsSum(v) == AbsSum(v[k := 0.0]) + Abs(v[k])
  {
    var m := |v| - 1;
    if k == m {
      assert v[k := 0.0][..m] == v[..m];
    } else {
      assert v[k := 0.0][..m] == v[..m][k := 0.0];
      AbsSumSplit(v[..m], k);
    }
  }

  lemma {:induction false} DotSplit(a: seq<real>, b: seq<real>, k: nat)
    requires |a| == |b| && k < |a|
    ensures Dot(a, b) == Dot(a[k := 0.0], b) + a[k] * b[k]
  {
    var m := |a| - 1;
    if k == m {
      assert a[k := 0.0][..m] == a[..m];
    } else {
      assert a[k := 0.0][..m] == a[..m][k := 0.0];
      DotSplit(a[..m], b[..m], k);
    }
  }

  lemma {:induction false} ZeroSums(v: seq<real>, b: seq<real>)
    requires |v| == |b|
    requires forall j :: 0 <= j < |v| ==> v[j] == 0.0
    ensures Sum(v) == 0.0 && AbsSum(v) == 0.0 && Dot(v, b) == 0.0
  {
    if |v| > 0 {
      ZeroSums(v[..|v| - 1], b[..|v| - 1]);
    }
  }

  /** An absolute sum of zero forces every entry to zero. */
  lemma {:induction false} AbsSumZero(v: seq<real>)
    ensures AbsSum(v) >= 0.0
    ensures AbsSum(v) == 0.0 ==> forall j :: 0 <= j < |v| ==> v[j] == 0.0
  {
    if |v| > 0 {
      AbsSumZero(v[..|v| - 1]);
      if AbsSum(v) == 0.0 {
        forall j | 0 <= j < |v| ensures v[j] == 0.0 {
          if j < |v| - 1 { assert v[..|v| - 1][j] == v[j]; }
        }
      }
    }
  }

  /** The signed unit vectors sum to `1` and `-1`, and their absolute entries to `1`. */
  lemma UnitSums(n: nat, i: nat)
    requires i < n
    ensures Sum(Unit(n, i)) == 1.0 && AbsSum(Unit(n, i)) == 1.0
    ensures Sum(Neg(Unit(n, i))) == -1.0 && AbsSum(Neg(Unit(n, i))) == 1.0
  {
    var e, ne := Unit(n, i), Neg(Unit(n, i));
    SumSplit(e, i); AbsSumSplit(e, i);
    SumSplit(ne, i); AbsSumSplit(ne, i);
    ZeroSums(e[i := 0.0], e);
    ZeroSums(ne[i := 0.0], e);
  }

  /** The signed unit vectors pick out coordinate `i`, with its sign. */
  lemma UnitDots(n: nat, i: nat, y: seq<real>)
    requires i < n && |y| == n
    ensures Dot(Unit(n, i), y) == y[i] && Dot(Neg(Unit(n, i)), y) == -y[i]
  {
    var e, ne := Unit(n, i), Neg(Unit(n, i));
    DotSplit(e, y, i);
    DotSplit(ne, y, i);
    ZeroSums(e[i := 0.0], y);
    ZeroSums(ne[i := 0.0], y);
  }

  /** The first `1` of `e_i`, and the first `-1` of `-e_i`, sit at index `i`. */
  lemma UnitFirstIndex(n: nat, i: nat)
    requires i < n
    ensures FirstIndexOf(Unit(n, i), 1.0) == Some(i)
    ensures FirstIndexOf(Neg(Unit(n, i)), -1.0) == Some(i)
  {
    var e, ne := Unit(n, i), Neg(Unit(n, i));
    assert e[i] == 1.0 && ne[i] == -1.0;
  }

  lemma UnitFacts(n: nat, i: nat, y: seq<real>)
    requires i < n && |y| == n
    ensures Sum(Unit(n, i)) == 1.0 && AbsSum(Unit(n, i)) == 1.0
    ensures Sum(Neg(Unit(n, i))) == -1.0 && AbsSum(Neg(Unit(n, i))) == 1.0
    ensures Dot(Unit(n, i), y) == y[i] && Dot(Neg(Unit(n, i)), y) == -y[i]
    ensures FirstIndexOf(Unit(n, i), 1.0) == Some(i)
    ensures FirstIndexOf(Neg(Unit(n, i)), -1.0) == Some(i)
  {
    UnitSums(n, i);
    UnitDots(n, i, y);
    UnitFirstIndex(n, i);
  }

  /**
    A row whose absolute entries sum to 1 and that holds an entry equal to
    1 (or -1) is that signed unit vector: the other entries must be zero.
  */
  lemma AxisRow(row: seq<real>, k: nat, sign: real)
    requires k < |row| && (sign == 1.0 || sign == -1.0)
    requires AbsSum(row) == 1.0 && row[k] == sign
    ensures row == (if sign == 1.0 then Unit(|row|, k) else Neg(Unit(|row|, k)))
  {
    AbsSumSplit(row, k);
    AbsSumZero(row[k := 0.0]);
    assert forall j :: 0 <= j < |row| && j != k ==> row[k := 0.0][j] == row[j];
  }

  lemma AddSub(x: seq<real>, z: seq<real>)
    requires |x| == |z|
    ensures Add(x, Sub(z, x)) == z
  {
  }

  lemma MulPos(a: real, b: real)
    requires a > 0.0 && b > 0.0
    ensures Mul(a, b) > 0.0
  {
  }

  lemma SquarePositive(x: real)
    ensures Mul(x, x) >= 0.0
    ensures x != 0.0 ==> Mul(x, x) > 0.0
  {
    if x > 0.0 {
      MulPos(x, x);
    } else if x < 0.0 {
      MulPos(-x, -x);
      assert Mul(-x, -x) == Mul(x, x);
    } else {
      assert Mul(x, x) == 0.0;
    }
  }

  /** Only the zero vector has squared norm zero. */
  lemma {:induction false} NormSqZero(v: seq<real>)
    ensures NormSq(v) >= 0.0
    ensures NormSq(v) == 0.0 <==> v == Zeros(|v|)
  {
    if |v| > 0 {
      var m := |v| - 1;
      NormSqZero(v[..m]);
      SquarePositive(v[m]);
      if NormSq(v) == 0.0 {
        forall j | 0 <= j < |v| ensures v[j] == 0.0 {
          if j < m { assert v[..m][j] == v[j]; }
        }
      }
      if v == Zeros(|v|) {
        assert v[..m] == Zeros(m);
      }
    }
  }

  /** Appending a coordinate to both operands adds its product to the dot product. */
  lemma DotAppend(a: seq<real>, b: seq<real>, u: real, w: real)
    requires |a| == |b|
    ensures Dot(a + [u], b + [w]) == Dot(a, b) + u * w
  {
    assert (a + [u])[..|a|] == a;
    assert (b + [w])[..|a|] == b;
  }
}
