/** Fragmented linear regression over exact reals: Gram matrices are summed over the fragments,
    the normal equations are solved once. A fragment row holds `dx` predictors, then the responses. */
module LeastSquares {
  import opened LinearAlgebra
  import opened Options
  import opened TreeReduction

  // ---------- The design matrix ----------

  /** At least one predictor and one response: R reads the column range 1:0 as 1 and 0. */
  ghost predicate Fragment(xy: Matrix, dx: nat, dy: nat) {
    xy != [] && dx >= 1 && dy >= 1 && Shaped(xy, |xy|, dx + dy)
  }

  /** `cbind(1, x_y[, 1:dx])` when the column selection is still a matrix. */
  function Design(xy: Matrix, dx: nat): (z: Matrix)
    requires forall i | 0 <= i < |xy| :: dx <= |xy[i]|
    ensures Shaped(z, |xy|, dx + 1) && forall i | 0 <= i < |xy| :: z[i] == [1.0] + xy[i][..dx]
  {
    if xy == [] then [] else [[1.0] + xy[0][..dx]] + Design(xy[1..], dx)
  }

  function Responses(xy: Matrix, dx: nat): (y: Matrix)
    requires forall i | 0 <= i < |xy| :: dx <= |xy[i]|
    ensures |y| == |xy| && forall i | 0 <= i < |xy| :: y[i] == xy[i][dx..]
  {
    if xy == [] then [] else [xy[0][dx..]] + Responses(xy[1..], dx)
  }

  /** R drops the row dimension of a one-row selection of several columns: `x` becomes a vector,
      and `cbind(1, x)` a matrix with one row per predictor. */
  function Column(v: Vec): (m: Matrix)
    ensures Shaped(m, |v|, 2)
  {
    if v == [] then [] else [[1.0, v[0]]] + Column(v[1..])
  }

  function CbindOne(xy: Matrix, dx: nat): Matrix
    requires forall i | 0 <= i < |xy| :: dx <= |xy[i]|
  {
    if |xy| == 1 && dx >= 2 then Column(xy[0][..dx]) else Design(xy, dx)
  }

  /** The fragments on which the selection keeps its shape. */
  predicate KeepsShape(xy: Matrix, dx: nat) {
    |xy| != 1 || dx <= 1
  }

  // ---------- Products ----------

  function Outer(z: Vec, y: Vec): (m: Matrix)
    ensures Shaped(m, |z|, |y|)
  {
    if z == [] then [] else [Scale(z[0], y)] + Outer(z[1..], y)
  }

  /** `t(z) %*% y`, as the sum over the rows of their outer products. */
  function CrossProduct(z: Matrix, y: Matrix, p: nat, q: nat): (m: Matrix)
    requires Shaped(z, |y|, p) && Shaped(y, |y|, q)
    ensures Shaped(m, p, q)
    decreases |y|
  {
    if y == [] then ZeroMatrix(p, q) else
    AddMatrixShape(Outer(z[0], y[0]), CrossProduct(z[1..], y[1..], p, q), p, q);
    AddMatrix(Outer(z[0], y[0]), CrossProduct(z[1..], y[1..], p, q))
  }

  function MatVec(m: Matrix, v: Vec): (r: Vec)
    requires Shaped(m, |m|, |v|)
    ensures |r| == |m| && forall i | 0 <= i < |m| :: r[i] == Dot(m[i], v)
  {
    if m == [] then [] else [Dot(m[0], v)] + MatVec(m[1..], v)
  }

  function Col(m: Matrix, j: nat): (c: Vec)
    requires forall i | 0 <= i < |m| :: j < |m[i]|
    ensures |c| == |m|
  {
    if m == [] then [] else [m[0][j]] + Col(m[1..], j)
  }

  function Width(xy: Matrix, dx: nat): nat {
    if |xy| == 1 && dx >= 2 then 2 else dx + 1
  }

  /** The partial_ztz task. */
  function PartialZtz(xy: Matrix, dx: nat): Matrix
    requires forall i | 0 <= i < |xy| :: dx <= |xy[i]|
  {
    var x := CbindOne(xy, dx);
    CrossProduct(x, x, Width(xy, dx), Width(xy, dx))
  }

  lemma {:induction false} ResponsesShape(xy: Matrix, dx: nat, dy: nat)
    requires Shaped(xy, |xy|, dx + dy)
    ensures Shaped(Responses(xy, dx), |xy|, dy)
  {
    if xy != [] { ResponsesShape(xy[1..], dx, dy); }
  }

  function Gram(xy: Matrix, dx: nat): (m: Matrix)
    requires forall i | 0 <= i < |xy| :: dx <= |xy[i]|
    ensures Shaped(m, dx + 1, dx + 1)
  {
    CrossProduct(Design(xy, dx), Design(xy, dx), dx + 1, dx + 1)
  }

  function Moment(xy: Matrix, dx: nat, dy: nat): (m: Matrix)
    requires Shaped(xy, |xy|, dx + dy)
    ensures Shaped(m, dx + 1, dy)
  {
    ResponsesShape(xy, dx, dy);
    CrossProduct(Design(xy, dx), Responses(xy, dx), dx + 1, dy)
  }

  /** `partial_ztz` computes the Gram matrix of the fragment exactly when the fragment has more than
      one row, or one predictor; a single row with several predictors gives a 2 by 2 matrix. */
  lemma PartialZtzIsGramExactly(xy: Matrix, dx: nat)
    requires xy != [] && dx >= 1 && (forall i | 0 <= i < |xy| :: dx <= |xy[i]|)
    ensures KeepsShape(xy, dx) <==> PartialZtz(xy, dx) == Gram(xy, dx)
  {
    assert |PartialZtz(xy, dx)| == Width(xy, dx) && |Gram(xy, dx)| == dx + 1;
  }

  /** A bare vector as the one column of a matrix. */
  function AsColumn(v: Vec): (m: Matrix)
    ensures Shaped(m, |v|, 1)
  {
    if v == [] then [] else [[v[0]]] + AsColumn(v[1..])
  }

  /** The partial_zty task. On a lone row with several predictors `t(x)` is 2 by dx and `y` a bare
      vector, which R multiplies as a column when it has dx elements; otherwise R stops. */
  function PartialZty(xy: Matrix, dx: nat, dy: nat): (m: Option<Matrix>)
    requires Fragment(xy, dx, dy)
    ensures KeepsShape(xy, dx) ==> m == Some(Moment(xy, dx, dy))
    ensures !KeepsShape(xy, dx) ==> if dx == dy then m.Some? && Shaped(m.value, 2, 1) else m == None
  {
    if KeepsShape(xy, dx) then
      ResponsesShape(xy, dx, dy);
      Some(CrossProduct(Design(xy, dx), Responses(xy, dx), dx + 1, dy))
    else if dx == dy then
      Some(CrossProduct(Column(xy[0][..dx]), AsColumn(xy[0][dx..]), 2, 1))
    else None
  }

  // ---------- Distributed equals whole ----------

  ghost predicate Fragments(fs: seq<Matrix>, dx: nat, dy: nat) {
    forall i | 0 <= i < |fs| :: Fragment(fs[i], dx, dy)
  }

  predicate AllKeepShape(fs: seq<Matrix>, dx: nat) {
    forall i | 0 <= i < |fs| :: KeepsShape(fs[i], dx)
  }

  predicate NoneKeepsShape(fs: seq<Matrix>, dx: nat) {
    forall i | 0 <= i < |fs| :: !KeepsShape(fs[i], dx)
  }

  lemma {:induction false} StackShape(fs: seq<Matrix>, dx: nat, dy: nat)
    requires Fragments(fs, dx, dy)
    ensures Shaped(Stack(fs), |Stack(fs)|, dx + dy)
  {
    if fs != [] { StackShape(fs[1..], dx, dy); }
  }

  lemma DesignConcat(a: Matrix, b: Matrix, dx: nat)
    requires forall i | 0 <= i < |a| :: dx <= |a[i]|
    requires forall i | 0 <= i < |b| :: dx <= |b[i]|
    ensures Design(a + b, dx) == Design(a, dx) + Design(b, dx)
    ensures Responses(a + b, dx) == Responses(a, dx) + Responses(b, dx)
  {
    hide Design, Responses;
    assert Design(a + b, dx) == Design(a, dx) + Design(b, dx);
    assert Responses(a + b, dx) == Responses(a, dx) + Responses(b, dx);
  }

  lemma {:induction false} CrossProductConcat(z1: Matrix, y1: Matrix, z2: Matrix, y2: Matrix, p: nat, q: nat)
    requires Shaped(z1, |y1|, p) && Shaped(y1, |y1|, q) && Shaped(z2, |y2|, p) && Shaped(y2, |y2|, q)
    ensures CrossProduct(z1 + z2, y1 + y2, p, q) ==
            AddMatrix(CrossProduct(z1, y1, p, q), CrossProduct(z2, y2, p, q))
    decreases |y1|
  {
    if y1 == [] {
      assert y1 + y2 == y2 && z1 + z2 == z2;
      AddZeroMatrix(CrossProduct(z2, y2, p, q), q);
    } else {
      assert (y1 + y2)[0] == y1[0] && (y1 + y2)[1..] == y1[1..] + y2;
      assert (z1 + z2)[0] == z1[0] && (z1 + z2)[1..] == z1[1..] + z2;
      CrossProductConcat(z1[1..], y1[1..], z2, y2, p, q);
      AddMatrixAssociates(Outer(z1[0], y1[0]), CrossProduct(z1[1..], y1[1..], p, q), CrossProduct(z2, y2, p, q));
    }
  }

  function Ztzs(fs: seq<Matrix>, dx: nat, dy: nat): (ms: seq<Matrix>)
    requires Fragments(fs, dx, dy)
    ensures |ms| == |fs| && forall i | 0 <= i < |fs| :: ms[i] == PartialZtz(fs[i], dx)
  {
    seq(|fs|, i requires 0 <= i < |fs| => PartialZtz(fs[i], dx))
  }

  /** The partials of Z'Y when no fragment stops the loop. */
  function Ztys(fs: seq<Matrix>, dx: nat, dy: nat): (ms: seq<Matrix>)
    requires Fragments(fs, dx, dy) && (AllKeepShape(fs, dx) || dx == dy)
    ensures |ms| == |fs| && forall i | 0 <= i < |fs| :: PartialZty(fs[i], dx, dy) == Some(ms[i])
  {
    seq(|fs|, i requires 0 <= i < |fs| => PartialZty(fs[i], dx, dy).value)
  }

  lemma ConcatGrams(a: Matrix, b: Matrix, dx: nat, dy: nat)
    requires Shaped(a, |a|, dx + dy) && Shaped(b, |b|, dx + dy)
    ensures Shaped(a + b, |a + b|, dx + dy)
    ensures Gram(a + b, dx) == AddMatrix(Gram(a, dx), Gram(b, dx))
    ensures Moment(a + b, dx, dy) == AddMatrix(Moment(a, dx, dy), Moment(b, dx, dy))
  {
    hide CrossProduct, AddMatrix, Design, Responses;
    DesignConcat(a, b, dx);
    ResponsesShape(a, dx, dy);
    ResponsesShape(b, dx, dy);
    CrossProductConcat(Design(a, dx), Design(a, dx), Design(b, dx), Design(b, dx), dx + 1, dx + 1);
    CrossProductConcat(Design(a, dx), Responses(a, dx), Design(b, dx), Responses(b, dx), dx + 1, dy);
  }

  lemma {:induction false} FoldOfGrams(fs: seq<Matrix>, dx: nat, dy: nat)
    requires Fragments(fs, dx, dy) && AllKeepShape(fs, dx) && fs != []
    ensures Shaped(Stack(fs), |Stack(fs)|, dx + dy)
    ensures AllShaped(Ztzs(fs, dx, dy), dx + 1, dx + 1) && AllShaped(Ztys(fs, dx, dy), dx + 1, dy)
    ensures Fold(Ztzs(fs, dx, dy), AddMatrix) == Gram(Stack(fs), dx)
    ensures Fold(Ztys(fs, dx, dy), AddMatrix) == Moment(Stack(fs), dx, dy)
  {
    hide Fold, AddMatrix, Gram, Moment, PartialZtz, PartialZty;
    StackShape(fs, dx, dy);
    var f, g, rest := Gram(fs[0], dx), Moment(fs[0], dx, dy), fs[1..];
    PartialZtzIsGramExactly(fs[0], dx);
    assert Ztzs(fs, dx, dy) == [f] + Ztzs(rest, dx, dy);
    assert Ztys(fs, dx, dy) == [g] + Ztys(rest, dx, dy);
    if rest == [] {
      FoldOfOne(f);
      FoldOfOne(g);
      assert Stack(rest) == [] && Stack(fs) == fs[0];
      assert Ztzs(fs, dx, dy) == [f] && Ztys(fs, dx, dy) == [g];
    } else {
      StackShape(rest, dx, dy);
      FoldOfGrams(rest, dx, dy);
      ConcatGrams(fs[0], Stack(rest), dx, dy);
      FoldOfMore(f, Ztzs(rest, dx, dy), dx + 1, dx + 1);
      FoldOfMore(g, Ztys(rest, dx, dy), dx + 1, dy);
    }
  }

  /** Whatever the fragmentation and the arity, when the fragments keep their shape the merged
      matrices are those of the stacked data. */
  lemma MergedIsWhole(fs: seq<Matrix>, dx: nat, dy: nat, arity: nat)
    requires Fragments(fs, dx, dy) && AllKeepShape(fs, dx) && fs != [] && arity >= 2
    ensures Shaped(Stack(fs), |Stack(fs)|, dx + dy)
    ensures TreeSum(Ztzs(fs, dx, dy), arity) == Some(Gram(Stack(fs), dx))
    ensures TreeSum(Ztys(fs, dx, dy), arity) == Some(Moment(Stack(fs), dx, dy))
  {
    hide Fold, AddMatrix, Gram, Moment, TreeSum, Fragment, Ztzs, Ztys, Stack, PartialZtz, PartialZty;
    FoldOfGrams(fs, dx, dy);
    TreeSumOfShaped(Ztzs(fs, dx, dy), arity, dx + 1, dx + 1);
    TreeSumOfShaped(Ztys(fs, dx, dy), arity, dx + 1, dy);
  }

  lemma PartialShapes(xy: Matrix, dx: nat, dy: nat)
    requires Fragment(xy, dx, dy)
    ensures !KeepsShape(xy, dx) ==> |PartialZtz(xy, dx)| == 2 < dx + 1
    ensures KeepsShape(xy, dx) ==> |PartialZtz(xy, dx)| == dx + 1
    ensures PartialZty(xy, dx, dy).Some? ==>
              |PartialZty(xy, dx, dy).value| == if KeepsShape(xy, dx) then dx + 1 else 2
  {
  }

  /** Fragments that keep their shape do not add up with fragments that lose it, and fragments that
      all lose it add up to matrices of two rows. */
  lemma LostShapes(fs: seq<Matrix>, dx: nat, dy: nat, arity: nat)
    requires Fragments(fs, dx, dy) && !AllKeepShape(fs, dx) && arity >= 2
    ensures !NoneKeepsShape(fs, dx) ==> TreeSum(Ztzs(fs, dx, dy), arity) == None
    ensures TreeSum(Ztzs(fs, dx, dy), arity).Some? ==> |TreeSum(Ztzs(fs, dx, dy), arity).value| == 2 < dx + 1
  {
    hide TreeSum, PartialZtz, PartialZty, Fold;
    var ms := Ztzs(fs, dx, dy);
    var i :| 0 <= i < |fs| && !KeepsShape(fs[i], dx);
    PartialShapes(fs[i], dx, dy);
    PartialShapes(fs[0], dx, dy);
    TreeSumOfMatrices(ms, arity);
    if j: nat :| j < |fs| && KeepsShape(fs[j], dx) {
      PartialShapes(fs[j], dx, dy);
      assert |ms[i]| != |ms[j]|;
      assert !Conformable(ms[i], ms[0]) || !Conformable(ms[j], ms[0]);
    } else {
      assert |ms[0]| == 2;
    }
  }

  /** The merged Z'Z is that of the stacked data if and only if every fragment keeps its shape. */
  lemma MergedIsWholeExactly(fs: seq<Matrix>, dx: nat, dy: nat, arity: nat)
    requires Fragments(fs, dx, dy) && fs != [] && arity >= 2
    ensures Shaped(Stack(fs), |Stack(fs)|, dx + dy)
    ensures TreeSum(Ztzs(fs, dx, dy), arity) == Some(Gram(Stack(fs), dx)) <==> AllKeepShape(fs, dx)
  {
    hide TreeSum, Ztzs, Gram, AllKeepShape, NoneKeepsShape;
    StackShape(fs, dx, dy);
    if AllKeepShape(fs, dx) {
      MergedIsWhole(fs, dx, dy, arity);
    } else {
      LostShapes(fs, dx, dy, arity);
    }
  }

  /** Lone rows with as many responses as predictors go through every step. */
  lemma LoneRowsGoThrough(fs: seq<Matrix>, dx: nat, dy: nat, arity: nat)
    requires Fragments(fs, dx, dy) && NoneKeepsShape(fs, dx) && fs != [] && dx == dy && arity >= 2
    ensures var a, c := TreeSum(Ztzs(fs, dx, dy), arity), TreeSum(Ztys(fs, dx, dy), arity);
            a.Some? && Shaped(a.value, 2, 2) && c.Some? && Shaped(c.value, 2, 1)
  {
    hide TreeSum, Fold;
    forall i | 0 <= i < |fs|
      ensures Shaped(Ztzs(fs, dx, dy)[i], 2, 2) && Shaped(Ztys(fs, dx, dy)[i], 2, 1)
    {
      assert !KeepsShape(fs[i], dx);
    }
    TreeSumOfShaped(Ztzs(fs, dx, dy), arity, 2, 2);
    TreeSumOfShaped(Ztys(fs, dx, dy), arity, 2, 1);
  }

  // ---------- One response column ----------

  /** The residual sum of squares of one response under coefficients `b`. */
  ghost function Rss(z: Matrix, y: Vec, b: Vec): real
    requires Shaped(z, |y|, |b|)
    decreases |y|
  {
    if y == [] then 0.0 else
    (y[0] - Dot(z[0], b)) * (y[0] - Dot(z[0], b)) + Rss(z[1..], y[1..], b)
  }

  ghost function ZtY(z: Matrix, y: Vec, p: nat): (v: Vec)
    requires Shaped(z, |y|, p)
    ensures |v| == p
    decreases |y|
  {
    if y == [] then Zeros(p) else
    AddVecLength(Scale(y[0], z[0]), ZtY(z[1..], y[1..], p));
    AddVec(Scale(y[0], z[0]), ZtY(z[1..], y[1..], p))
  }

  /** Sum over the rows of (z.delta) times the residual under `b`. */
  ghost function Cross(z: Matrix, y: Vec, b: Vec, delta: Vec): real
    requires Shaped(z, |y|, |b|) && |delta| == |b|
    decreases |y|
  {
    if y == [] then 0.0 else
    Dot(z[0], delta) * (y[0] - Dot(z[0], b)) + Cross(z[1..], y[1..], b, delta)
  }

  ghost function Quad(z: Matrix, delta: Vec): (r: real)
    requires Shaped(z, |z|, |delta|)
    ensures r >= 0.0
  {
    if z == [] then 0.0 else
    SquareNonNegative(Dot(z[0], delta));
    Dot(z[0], delta) * Dot(z[0], delta) + Quad(z[1..], delta)
  }

  lemma ShiftedResidual(y: real, zb: real, zd: real)
    ensures (y - (zb + zd)) * (y - (zb + zd)) == (y - zb) * (y - zb) - 2.0 * (zd * (y - zb)) + zd * zd
  {
  }

  lemma {:induction false} RssShift(z: Matrix, y: Vec, b: Vec, delta: Vec)
    requires Shaped(z, |y|, |b|) && |delta| == |b|
    ensures |AddVec(b, delta)| == |b|
    ensures Rss(z, y, AddVec(b, delta)) == Rss(z, y, b) - 2.0 * Cross(z, y, b, delta) + Quad(z, delta)
    decreases |y|
  {
    hide Dot, AddVec;
    AddVecLength(b, delta);
    if y != [] {
      RssShift(z[1..], y[1..], b, delta);
      DotCommutes(z[0], AddVec(b, delta));
      DotAdds(b, delta, z[0]);
      DotCommutes(z[0], b);
      DotCommutes(z[0], delta);
      ShiftedResidual(y[0], Dot(z[0], b), Dot(z[0], delta));
    }
  }

  lemma {:induction false} MatVecAdds(a: Matrix, b: Matrix, v: Vec)
    requires Shaped(a, |b|, |v|) && Shaped(b, |b|, |v|)
    ensures Shaped(AddMatrix(a, b), |b|, |v|)
    ensures MatVec(AddMatrix(a, b), v) == AddVec(MatVec(a, v), MatVec(b, v))
    decreases |b|
  {
    AddMatrixShape(a, b, |b|, |v|);
    if b != [] {
      DotAdds(a[0], b[0], v);
      MatVecAdds(a[1..], b[1..], v);
      assert AddMatrix(a, b)[1..] == AddMatrix(a[1..], b[1..]);
    }
  }

  lemma {:induction false} MatVecOuter(z: Vec, y: Vec, v: Vec)
    requires |y| == |v|
    ensures MatVec(Outer(z, y), v) == Scale(Dot(y, v), z)
  {
    if z != [] {
      DotScales(z[0], y, v);
      MatVecOuter(z[1..], y, v);
      var k, m, r := Dot(y, v), MatVec(Outer(z, y), v), Scale(Dot(y, v), z);
      assert Outer(z, y)[1..] == Outer(z[1..], y);
      assert m[0] == Dot(Scale(z[0], y), v) && r[0] == k * z[0];
      assert m[0] == r[0] && m[1..] == r[1..];
      assert m == [m[0]] + m[1..] && r == [r[0]] + r[1..];
    }
  }

  lemma {:induction false} MatVecZeros(p: nat, v: Vec)
    ensures MatVec(ZeroMatrix(p, |v|), v) == Zeros(p)
  {
    if p > 0 {
      DotZeros(v);
      MatVecZeros(p - 1, v);
    }
  }

  /** delta.(Z'y - Z'Z b) is the cross term. */
  lemma {:induction false} CrossIsNormalResidual(z: Matrix, y: Vec, b: Vec, delta: Vec)
    requires Shaped(z, |y|, |b|) && |delta| == |b|
    ensures Cross(z, y, b, delta) ==
            Dot(ZtY(z, y, |b|), delta) - Dot(MatVec(CrossProduct(z, z, |b|, |b|), b), delta)
    decreases |y|
  {
    hide Dot, Scale, AddVec, AddMatrix, MatVec, Outer;
    var p := |b|;
    if y == [] {
      MatVecZeros(p, b);
    } else {
      var z0, rest := z[0], CrossProduct(z[1..], z[1..], p, p);
      CrossIsNormalResidual(z[1..], y[1..], b, delta);
      DotScales(y[0], z0, delta);
      DotAdds(Scale(y[0], z0), ZtY(z[1..], y[1..], p), delta);
      MatVecAdds(Outer(z0, z0), rest, b);
      MatVecOuter(z0, z0, b);
      DotScales(Dot(z0, b), z0, delta);
      DotAdds(Scale(Dot(z0, b), z0), MatVec(rest, b), delta);
      SplitProduct(Dot(z0, delta), y[0], Dot(z0, b));
    }
  }

  lemma SplitProduct(d: real, y: real, zb: real)
    ensures d * (y - zb) == y * d - zb * d
  {
  }

  // ---------- Least squares ----------

  ghost predicate NormalEquations(z: Matrix, y: Vec, b: Vec)
    requires Shaped(z, |y|, |b|)
  {
    MatVec(CrossProduct(z, z, |b|, |b|), b) == ZtY(z, y, |b|)
  }

  ghost predicate Minimiser(z: Matrix, y: Vec, b: Vec)
    requires Shaped(z, |y|, |b|)
  {
    forall c: Vec | |c| == |b| :: Rss(z, y, b) <= Rss(z, y, c)
  }

  lemma {:induction false} Difference(b: Vec, c: Vec) returns (delta: Vec)
    requires |b| == |c|
    ensures |delta| == |b| && AddVec(b, delta) == c
  {
    if b == [] {
      delta := [];
    } else {
      var rest := Difference(b[1..], c[1..]);
      delta := [c[0] - b[0]] + rest;
    }
  }

  lemma SolutionMinimises(z: Matrix, y: Vec, b: Vec)
    requires Shaped(z, |y|, |b|) && NormalEquations(z, y, b)
    ensures Minimiser(z, y, b)
  {
    hide Rss, Cross, Quad, MatVec, ZtY, CrossProduct, AddVec, Dot;
    forall c: Vec | |c| == |b|
      ensures Rss(z, y, b) <= Rss(z, y, c)
    {
      var delta := Difference(b, c);
      RssShift(z, y, b, delta);
      CrossIsNormalResidual(z, y, b, delta);
    }
  }

  lemma {:induction false} ScaledTerms(z: Matrix, y: Vec, b: Vec, r: Vec, t: real)
    requires Shaped(z, |y|, |b|) && |r| == |b|
    ensures Cross(z, y, b, Scale(t, r)) == t * Cross(z, y, b, r)
    ensures Quad(z, Scale(t, r)) == t * (t * Quad(z, r))
    decreases |y|
  {
    hide Dot, Scale;
    if y != [] {
      ScaledTerms(z[1..], y[1..], b, r, t);
      DotScales(t, r, z[0]);
      DotCommutes(r, z[0]);
      ScaledRow(t, Dot(z[0], r), y[0] - Dot(z[0], b), Cross(z[1..], y[1..], b, r), Quad(z[1..], r));
    }
  }

  lemma ScaledRow(t: real, d: real, e: real, c: real, q: real)
    ensures (t * d) * e + t * c == t * (d * e + c)
    ensures (t * d) * (t * d) + t * (t * q) == t * (t * (d * d + q))
  {
    assert (t * d) * e == t * (d * e);
    assert (t * d) * (t * d) == t * (t * (d * d));
    assert t * (d * d + q) == t * (d * d) + t * q;
  }

  lemma {:induction false} SelfDotNonNegative(v: Vec)
    ensures Dot(v, v) >= 0.0
    ensures Dot(v, v) == 0.0 ==> v == Zeros(|v|)
  {
    if v != [] {
      SelfDotNonNegative(v[1..]);
      var x, d, all := v[0], Dot(v[1..], v[1..]), Dot(v, v);
      SumOfSquares(x, d, all);
      if all == 0.0 { assert v == [x] + v[1..]; }
    }
  }

  lemma SumOfSquares(x: real, d: real, all: real)
    requires d >= 0.0 && all == x * x + d
    ensures all >= 0.0 && (all == 0.0 ==> x == 0.0 && d == 0.0)
  {
    var s := x * x;
    SquareSign(x, s);
  }

  lemma SquareSign(x: real, s: real)
    requires s == x * x
    ensures s >= 0.0 && (s == 0.0 ==> x == 0.0)
  {
    if x > 0.0 {
      Positive(x, x, s);
    } else if x < 0.0 {
      assert (-x) * (-x) == x * x;
      Positive(-x, -x, s);
    }
  }

  /** With a positive slope `c` and curvature `q`, a small step goes strictly down. */
  lemma StepDown(c: real, q: real) returns (t: real)
    requires c > 0.0 && q >= 0.0
    ensures t * (t * q) < 2.0 * (t * c)
  {
    t := c / (q + c);
    assert t * (q + c) == c;
    assert t > 0.0;
    assert t * (q + c) == t * q + t * c;
    assert t * c > 0.0;
    assert t * q < 2.0 * c;
    assert t * (2.0 * c - t * q) > 0.0;
    assert t * (2.0 * c - t * q) == 2.0 * (t * c) - t * (t * q);
  }

  /** Along the residual of the normal equations there are better coefficients. */
  lemma BetterCoefficients(z: Matrix, y: Vec, b: Vec, r: Vec) returns (c: Vec)
    requires Shaped(z, |y|, |b|) && |r| == |b| && Dot(r, r) > 0.0
    requires AddVec(MatVec(CrossProduct(z, z, |b|, |b|), b), r) == ZtY(z, y, |b|)
    ensures |c| == |b| && Rss(z, y, c) < Rss(z, y, b)
  {
    hide Rss, Cross, Quad, MatVec, ZtY, CrossProduct, AddVec, Dot, Scale;
    CrossIsNormalResidual(z, y, b, r);
    DotAdds(MatVec(CrossProduct(z, z, |b|, |b|), b), r, r);
    var t := StepDown(Dot(r, r), Quad(z, r));
    ScaledTerms(z, y, b, r, t);
    RssShift(z, y, b, Scale(t, r));
    c := AddVec(b, Scale(t, r));
  }

  lemma MinimiserSolves(z: Matrix, y: Vec, b: Vec)
    requires Shaped(z, |y|, |b|) && Minimiser(z, y, b)
    ensures NormalEquations(z, y, b)
  {
    hide Rss, MatVec, ZtY, CrossProduct, AddVec, Dot, Zeros;
    var u, v := ZtY(z, y, |b|), MatVec(CrossProduct(z, z, |b|, |b|), b);
    var r := Difference(v, u);
    SelfDotNonNegative(r);
    if Dot(r, r) == 0.0 {
      AddZeros(v);
    } else {
      var c := BetterCoefficients(z, y, b, r);
      assert false;
    }
  }

  /** Solving the normal equations and minimising the residuals are the same thing. */
  lemma NormalEquationsIffMinimiser(z: Matrix, y: Vec, b: Vec)
    requires Shaped(z, |y|, |b|)
    ensures NormalEquations(z, y, b) <==> Minimiser(z, y, b)
  {
    if NormalEquations(z, y, b) { SolutionMinimises(z, y, b); }
    if Minimiser(z, y, b) { MinimiserSolves(z, y, b); }
  }

  // ---------- All responses, and the program ----------

  /** The answer of R's `solve(a, c)`: it stops on a singular matrix. */
  datatype Solution = Solved(params: Matrix) | Singular

  ghost predicate Solves(a: Matrix, b: Matrix, c: Matrix, p: nat, q: nat)
    requires Shaped(a, p, p) && Shaped(c, p, q)
  {
    Shaped(b, p, q) && forall j | 0 <= j < q :: MatVec(a, Col(b, j)) == Col(c, j)
  }

  /** All that is asked of `solve`: what it returns is a solution. */
  ghost predicate Sound(solve: (Matrix, Matrix) -> Solution) {
    forall a, c, p, q | Shaped(a, p, p) && Shaped(c, p, q) && solve(a, c).Solved? ::
      Solves(a, solve(a, c).params, c, p, q)
  }

  lemma {:induction false} ColOfSum(a: Matrix, b: Matrix, j: nat, q: nat)
    requires Shaped(a, |b|, q) && Shaped(b, |b|, q) && j < q
    ensures Shaped(AddMatrix(a, b), |b|, q) && Col(AddMatrix(a, b), j) == AddVec(Col(a, j), Col(b, j))
    decreases |b|
  {
    AddMatrixShape(a, b, |b|, q);
    if b != [] {
      ColOfSum(a[1..], b[1..], j, q);
      assert AddMatrix(a, b)[1..] == AddMatrix(a[1..], b[1..]);
      AddVecAt(a[0], b[0], j);
    }
  }

  lemma {:induction false} AddVecAt(u: Vec, v: Vec, i: nat)
    requires i < |u| == |v|
    ensures |AddVec(u, v)| == |u| && AddVec(u, v)[i] == u[i] + v[i]
  {
    AddVecLength(u, v);
    if i > 0 { AddVecAt(u[1..], v[1..], i - 1); }
  }

  lemma {:induction false} ColAt(m: Matrix, j: nat, i: nat)
    requires i < |m| && forall r | 0 <= r < |m| :: j < |m[r]|
    ensures Col(m, j)[i] == m[i][j]
  {
    if i > 0 { ColAt(m[1..], j, i - 1); }
  }

  lemma {:induction false} OuterAt(z: Vec, y: Vec, i: nat)
    requires i < |z|
    ensures Outer(z, y)[i] == Scale(z[i], y)
  {
    if i > 0 { OuterAt(z[1..], y, i - 1); }
  }

  lemma ColOfOuter(z: Vec, y: Vec, j: nat)
    requires j < |y|
    ensures Col(Outer(z, y), j) == Scale(y[j], z)
  {
    hide Outer, Scale, Col;
    forall i | 0 <= i < |z|
      ensures Col(Outer(z, y), j)[i] == Scale(y[j], z)[i]
    {
      OuterAt(z, y, i);
      ColAt(Outer(z, y), j, i);
      ScaleAt(z[i], y, j);
      ScaleAt(y[j], z, i);
    }
  }

  lemma {:induction false} ColOfZeros(p: nat, q: nat, j: nat)
    requires j < q
    ensures Col(ZeroMatrix(p, q), j) == Zeros(p)
  {
    if p > 0 {
      ColOfZeros(p - 1, q, j);
      ZerosAt(q, j);
      assert ZeroMatrix(p, q)[1..] == ZeroMatrix(p - 1, q);
    }
  }

  lemma {:induction false} ZerosAt(n: nat, i: nat)
    requires i < n
    ensures Zeros(n)[i] == 0.0
  {
    if i > 0 { ZerosAt(n - 1, i - 1); }
  }

  /** Column j of Z'Y is Z' times column j of Y. */
  lemma {:induction false} ColOfCrossProduct(z: Matrix, y: Matrix, p: nat, q: nat, j: nat)
    requires Shaped(z, |y|, p) && Shaped(y, |y|, q) && j < q
    ensures Col(CrossProduct(z, y, p, q), j) == ZtY(z, Col(y, j), p)
    decreases |y|
  {
    hide Scale, AddVec, AddMatrix, Outer, Zeros;
    if y == [] {
      ColOfZeros(p, q, j);
    } else {
      ColOfCrossProduct(z[1..], y[1..], p, q, j);
      ColOfSum(Outer(z[0], y[0]), CrossProduct(z[1..], y[1..], p, q), j, q);
      ColOfOuter(z[0], y[0], j);
      assert Col(y, j)[0] == y[0][j] && Col(y, j)[1..] == Col(y[1..], j);
    }
  }

  lemma {:induction false} ZtYAt(z: Matrix, y: Vec, p: nat, i: nat)
    requires Shaped(z, |y|, p) && i < p
    ensures |Col(z, i)| == |y| && ZtY(z, y, p)[i] == Dot(Col(z, i), y)
    decreases |y|
  {
    hide Scale, AddVec;
    if y == [] {
      ZerosAt(p, i);
    } else {
      ZtYAt(z[1..], y[1..], p, i);
      AddVecAt(Scale(y[0], z[0]), ZtY(z[1..], y[1..], p), i);
      ScaleAt(y[0], z[0], i);
      assert Col(z, i)[0] == z[0][i] && Col(z, i)[1..] == Col(z[1..], i);
    }
  }

  /** Entry (i, j) of `t(z) %*% y` is the product of column i of z with column j of y. */
  lemma CrossProductAt(z: Matrix, y: Matrix, p: nat, q: nat, i: nat, j: nat)
    requires Shaped(z, |y|, p) && Shaped(y, |y|, q) && i < p && j < q
    ensures |Col(z, i)| == |Col(y, j)| && CrossProduct(z, y, p, q)[i][j] == Dot(Col(z, i), Col(y, j))
  {
    hide CrossProduct, Col, ZtY, Dot;
    ColOfCrossProduct(z, y, p, q, j);
    ColAt(CrossProduct(z, y, p, q), j, i);
    ZtYAt(z, Col(y, j), p, i);
  }

  /** The sum of squared residuals of response j over the rows of the data as they come: the first
      coefficient is the intercept, the others belong to the predictors. */
  ghost function Residuals(xy: Matrix, dx: nat, dy: nat, j: nat, b: Vec): real
    requires Shaped(xy, |xy|, dx + dy) && |b| == dx + 1 && j < dy
  {
    if xy == [] then 0.0 else
    var e := xy[0][dx + j] - (b[0] + Dot(b[1..], xy[0][..dx]));
    e * e + Residuals(xy[1..], dx, dy, j, b)
  }

  lemma {:induction false} ResidualsOfData(xy: Matrix, dx: nat, dy: nat, j: nat, b: Vec)
    requires Shaped(xy, |xy|, dx + dy) && |b| == dx + 1 && j < dy
    ensures Shaped(Responses(xy, dx), |xy|, dy)
    ensures Rss(Design(xy, dx), Col(Responses(xy, dx), j), b) == Residuals(xy, dx, dy, j, b)
  {
    hide Dot;
    ResponsesShape(xy, dx, dy);
    if xy != [] {
      ResidualsOfData(xy[1..], dx, dy, j, b);
      Prediction(xy[0][..dx], b);
      assert Design(xy, dx)[1..] == Design(xy[1..], dx);
      var ys := Col(Responses(xy, dx), j);
      assert ys[0] == xy[0][dx + j] && ys[1..] == Col(Responses(xy[1..], dx), j);
    }
  }

  lemma Prediction(x: Vec, b: Vec)
    requires |b| == |x| + 1
    ensures Dot([1.0] + x, b) == b[0] + Dot(b[1..], x)
  {
    var z := [1.0] + x;
    assert z[0] == 1.0 && z[1..] == x;
    DotCommutes(x, b[1..]);
  }

  /** For every response, the coefficients in its column minimise the residuals of all the data. */
  ghost predicate FitsBest(xy: Matrix, b: Matrix, dx: nat, dy: nat)
    requires Shaped(xy, |xy|, dx + dy)
  {
    ResponsesShape(xy, dx, dy);
    Shaped(b, dx + 1, dy) &&
    forall j | 0 <= j < dy ::
      && NormalEquations(Design(xy, dx), Col(Responses(xy, dx), j), Col(b, j))
      && Minimiser(Design(xy, dx), Col(Responses(xy, dx), j), Col(b, j))
      && (forall c: Vec | |c| == dx + 1 :: Residuals(xy, dx, dy, j, Col(b, j)) <= Residuals(xy, dx, dy, j, c))
  }

  lemma MinimiserOfData(xy: Matrix, dx: nat, dy: nat, j: nat, b: Vec)
    requires Shaped(xy, |xy|, dx + dy) && |b| == dx + 1 && j < dy
    requires Shaped(Responses(xy, dx), |xy|, dy) && Minimiser(Design(xy, dx), Col(Responses(xy, dx), j), b)
    ensures forall c: Vec | |c| == dx + 1 :: Residuals(xy, dx, dy, j, b) <= Residuals(xy, dx, dy, j, c)
  {
    hide Rss, Residuals;
    ResidualsOfData(xy, dx, dy, j, b);
    forall c: Vec | |c| == dx + 1 ensures Residuals(xy, dx, dy, j, b) <= Residuals(xy, dx, dy, j, c) {
      ResidualsOfData(xy, dx, dy, j, c);
    }
  }

  lemma SolutionFitsBest(xy: Matrix, b: Matrix, dx: nat, dy: nat)
    requires Shaped(xy, |xy|, dx + dy)
    requires Solves(Gram(xy, dx), b, Moment(xy, dx, dy), dx + 1, dy)
    ensures FitsBest(xy, b, dx, dy)
  {
    hide MatVec, Minimiser, CrossProduct, ZtY;
    ResponsesShape(xy, dx, dy);
    var z, y := Design(xy, dx), Responses(xy, dx);
    forall j | 0 <= j < dy
      ensures NormalEquations(z, Col(y, j), Col(b, j)) && Minimiser(z, Col(y, j), Col(b, j))
      ensures forall c: Vec | |c| == dx + 1 :: Residuals(xy, dx, dy, j, Col(b, j)) <= Residuals(xy, dx, dy, j, c)
    {
      ColOfCrossProduct(z, y, dx + 1, dy, j);
      assert Col(Moment(xy, dx, dy), j) == ZtY(z, Col(y, j), dx + 1);
      assert NormalEquations(z, Col(y, j), Col(b, j));
      SolutionMinimises(z, Col(y, j), Col(b, j));
      MinimiserOfData(xy, dx, dy, j, Col(b, j));
    }
  }

  lemma SoundHere(solve: (Matrix, Matrix) -> Solution, a: Matrix, c: Matrix, p: nat, q: nat)
    requires Sound(solve) && Shaped(a, p, p) && Shaped(c, p, q) && solve(a, c).Solved?
    ensures Solves(a, solve(a, c).params, c, p, q)
  {
    hide Solves;
  }

  /** The loop that fills both lists of partial products; None is a stop in `partial_zty`. */
  method PartialProducts(fs: seq<Matrix>, dx: nat, dy: nat) returns (r: Option<(seq<Matrix>, seq<Matrix>)>)
    requires Fragments(fs, dx, dy)
    ensures r == if AllKeepShape(fs, dx) || dx == dy then Some((Ztzs(fs, dx, dy), Ztys(fs, dx, dy))) else None
  {
    hide PartialZtz, PartialZty, KeepsShape, Moment, Ztzs, Ztys;
    var ztz, zty := [], [];
    for i := 0 to |fs|
      invariant |ztz| == |zty| == i && (dx == dy || forall j | 0 <= j < i :: KeepsShape(fs[j], dx))
      invariant forall j | 0 <= j < i ::
                  ztz[j] == PartialZtz(fs[j], dx) && PartialZty(fs[j], dx, dy) == Some(zty[j])
    {
      var g := PartialZty(fs[i], dx, dy);
      if g.None? { return None; }
      ztz, zty := ztz + [PartialZtz(fs[i], dx)], zty + [g.value];
    }
    ProductsAre(fs, dx, dy, ztz, zty);
    r := Some((ztz, zty));
  }

  lemma ProductsAre(fs: seq<Matrix>, dx: nat, dy: nat, ztz: seq<Matrix>, zty: seq<Matrix>)
    requires Fragments(fs, dx, dy) && (AllKeepShape(fs, dx) || dx == dy) && |ztz| == |zty| == |fs|
    requires forall j | 0 <= j < |fs| ::
               ztz[j] == PartialZtz(fs[j], dx) && PartialZty(fs[j], dx, dy) == Some(zty[j])
    ensures ztz == Ztzs(fs, dx, dy) && zty == Ztys(fs, dx, dy)
  {
    hide PartialZtz, PartialZty, KeepsShape, Moment;
    forall j | 0 <= j < |fs| ensures ztz[j] == Ztzs(fs, dx, dy)[j] && zty[j] == Ztys(fs, dx, dy)[j] {
    }
  }

  /** None is a stop on shapes. The answer is a best fit of all the data exactly when every fragment
      keeps its shape and `solve` does not find a singular matrix. Lone rows with as many responses
      as predictors give an answer of two rows and one column, without a stop; anything else that
      loses a shape stops. */
  method FitLinearRegression(fs: seq<Matrix>, dx: nat, dy: nat, arity: nat,
                             solve: (Matrix, Matrix) -> Solution) returns (r: Option<Solution>)
    requires Fragments(fs, dx, dy) && fs != [] && arity >= 2 && Sound(solve)
    ensures Shaped(Stack(fs), |Stack(fs)|, dx + dy)
    ensures AllKeepShape(fs, dx) ==> r == Some(solve(Gram(Stack(fs), dx), Moment(Stack(fs), dx, dy)))
    ensures r.Some? <==> AllKeepShape(fs, dx) || (NoneKeepsShape(fs, dx) && dx == dy)
    ensures r.Some? ==>
              var a, c := TreeSum(Ztzs(fs, dx, dy), arity), TreeSum(Ztys(fs, dx, dy), arity);
              a.Some? && c.Some? && r.value == solve(a.value, c.value)
    ensures r.Some? && r.value.Solved? ==> (AllKeepShape(fs, dx) <==> FitsBest(Stack(fs), r.value.params, dx, dy))
    ensures r.Some? && r.value.Solved? && !AllKeepShape(fs, dx) ==> Shaped(r.value.params, 2, 1) && dx >= 2
  {
    hide TreeSum, FitsBest, Gram, Moment, Sound, Solves, Stack, Ztzs, Ztys, AllKeepShape, NoneKeepsShape;
    StackShape(fs, dx, dy);
    ShapesOf(fs, dx);
    var partials := PartialProducts(fs, dx, dy);
    if partials.None? { return None; }
    var a, _ := TreeMerge(partials.value.0, arity);
    MergedProducts(fs, dx, dy, arity);
    if a.None? { return None; }
    var c, _ := TreeMerge(partials.value.1, arity);
    if c.None? { return None; }
    r := Some(solve(a.value, c.value));
    if r.value.Solved? { FitOf(fs, a.value, c.value, dx, dy, solve); }
  }

  lemma ShapesOf(fs: seq<Matrix>, dx: nat)
    requires fs != []
    ensures !(AllKeepShape(fs, dx) && NoneKeepsShape(fs, dx)) && (NoneKeepsShape(fs, dx) ==> dx >= 2)
  {
    assert KeepsShape(fs[0], dx) || !KeepsShape(fs[0], dx);
  }

  /** The two reductions, by the shapes of the fragments. */
  lemma MergedProducts(fs: seq<Matrix>, dx: nat, dy: nat, arity: nat)
    requires Fragments(fs, dx, dy) && fs != [] && arity >= 2 && (AllKeepShape(fs, dx) || dx == dy)
    ensures Shaped(Stack(fs), |Stack(fs)|, dx + dy)
    ensures var a, c := TreeSum(Ztzs(fs, dx, dy), arity), TreeSum(Ztys(fs, dx, dy), arity);
            if AllKeepShape(fs, dx) then a == Some(Gram(Stack(fs), dx)) && c == Some(Moment(Stack(fs), dx, dy))
            else if NoneKeepsShape(fs, dx) then a.Some? && Shaped(a.value, 2, 2) && c.Some? && Shaped(c.value, 2, 1)
            else a == None
  {
    hide *;
    StackShape(fs, dx, dy);
    if AllKeepShape(fs, dx) {
      MergedIsWhole(fs, dx, dy, arity);
    } else if NoneKeepsShape(fs, dx) {
      LoneRowsGoThrough(fs, dx, dy, arity);
    } else {
      LostShapes(fs, dx, dy, arity);
    }
  }

  lemma FitOf(fs: seq<Matrix>, a: Matrix, c: Matrix, dx: nat, dy: nat, solve: (Matrix, Matrix) -> Solution)
    requires fs != [] && Shaped(Stack(fs), |Stack(fs)|, dx + dy) && Sound(solve) && solve(a, c).Solved?
    requires || (a == Gram(Stack(fs), dx) && c == Moment(Stack(fs), dx, dy))
             || (dx >= 2 && Shaped(a, 2, 2) && Shaped(c, 2, 1))
    ensures a == Gram(Stack(fs), dx) && c == Moment(Stack(fs), dx, dy) ==>
              FitsBest(Stack(fs), solve(a, c).params, dx, dy)
    ensures dx >= 2 && Shaped(a, 2, 2) && Shaped(c, 2, 1) ==>
              Shaped(solve(a, c).params, 2, 1) && !FitsBest(Stack(fs), solve(a, c).params, dx, dy)
  {
    hide Gram, Moment, Stack, Sound;
    if a == Gram(Stack(fs), dx) && c == Moment(Stack(fs), dx, dy) {
      SoundHere(solve, a, c, dx + 1, dy);
      SolutionFitsBest(Stack(fs), solve(a, c).params, dx, dy);
    } else {
      SoundHere(solve, a, c, 2, 1);
    }
  }

  // ---------- An answer that is no fit ----------

  const LONE_ROW: Matrix := [[1.0, 2.0, 3.0, 4.0]]
  const LONE_ZTZ: Matrix := [[2.0, 3.0], [3.0, 5.0]]
  const LONE_ZTY: Matrix := [[7.0], [11.0]]

  /** A `solve` that knows one system. */
  function SolveOne(a: Matrix, c: Matrix): Solution {
    if a == LONE_ZTZ && c == LONE_ZTY then Solved([[2.0], [1.0]]) else Singular
  }

  lemma OneSystemIsSolved()
    ensures Solves(LONE_ZTZ, [[2.0], [1.0]], LONE_ZTY, 2, 1) && Sound(SolveOne)
  {
    var b := [[2.0], [1.0]];
    assert b[1..] == [[1.0]] && [[1.0]][1..] == [] && LONE_ZTY[1..] == [[11.0]] && [[11.0]][1..] == [];
    assert Col(b, 0) == [2.0, 1.0] && Col(LONE_ZTY, 0) == [7.0, 11.0];
    assert [2.0, 1.0][1..] == [1.0] && [2.0, 3.0][1..] == [3.0] && [3.0, 5.0][1..] == [5.0];
    assert Dot([2.0, 3.0], [2.0, 1.0]) == 7.0 && Dot([3.0, 5.0], [2.0, 1.0]) == 11.0;
    assert LONE_ZTZ[1..] == [[3.0, 5.0]] && [[3.0, 5.0]][1..] == [];
    assert MatVec(LONE_ZTZ, [2.0, 1.0]) == [7.0, 11.0];
  }

  /** One fragment of one row with two predictors and two responses: the partials, and the answer
      that they have. With `FitLinearRegression`, the program returns it without a stop. */
  lemma LoneRowIsAnswered(arity: nat)
    requires arity >= 2
    ensures Fragments([LONE_ROW], 2, 2) && NoneKeepsShape([LONE_ROW], 2) && Sound(SolveOne)
    ensures TreeSum(Ztzs([LONE_ROW], 2, 2), arity) == Some(LONE_ZTZ)
    ensures TreeSum(Ztys([LONE_ROW], 2, 2), arity) == Some(LONE_ZTY)
    ensures SolveOne(LONE_ZTZ, LONE_ZTY) == Solved([[2.0], [1.0]])
  {
    hide TreeSum, Sound;
    OneSystemIsSolved();
    LonePartials();
    assert Ztzs([LONE_ROW], 2, 2) == [LONE_ZTZ] && Ztys([LONE_ROW], 2, 2) == [LONE_ZTY];
    TreeSumOfShaped([LONE_ZTZ], arity, 2, 2);
    TreeSumOfShaped([LONE_ZTY], arity, 2, 1);
    FoldOfOne(LONE_ZTZ);
    FoldOfOne(LONE_ZTY);
  }

  lemma LonePartials()
    ensures Fragment(LONE_ROW, 2, 2) && PartialZtz(LONE_ROW, 2) == LONE_ZTZ
    ensures PartialZty(LONE_ROW, 2, 2) == Some(LONE_ZTY)
  {
    assert LONE_ROW[0][..2] == [1.0, 2.0] && LONE_ROW[0][2..] == [3.0, 4.0];
    assert [1.0, 2.0][1..] == [2.0] && [2.0][1..] == [] && [3.0, 4.0][1..] == [4.0] && [4.0][1..] == [];
    var z: Matrix := [[1.0, 1.0], [1.0, 2.0]];
    hide CrossProduct, Outer, AddMatrix;
    assert Column([1.0, 2.0]) == [[1.0, 1.0]] + Column([2.0]) == z;
    assert AsColumn([3.0, 4.0]) == [[3.0]] + AsColumn([4.0]) == [[3.0], [4.0]];
    TwoRowProduct(z, z, 2);
    TwoRowProduct(z, [[3.0], [4.0]], 1);
    LoneOuters();
    assert LONE_ROW[1..] == [];
  }

  lemma TwoRowProduct(z: Matrix, y: Matrix, q: nat)
    requires Shaped(z, 2, 2) && Shaped(y, 2, q)
    ensures CrossProduct(z, y, 2, q) == AddMatrix(Outer(z[0], y[0]), Outer(z[1], y[1]))
  {
    var last := Outer(z[1], y[1]);
    assert z[1..][1..] == [] && y[1..][1..] == [];
    AddMatrixCommutes(last, ZeroMatrix(2, q));
    AddZeroMatrix(last, q);
    assert CrossProduct(z[1..], y[1..], 2, q) == AddMatrix(last, ZeroMatrix(2, q));
  }

  lemma LoneOuters()
    ensures AddMatrix(Outer([1.0, 1.0], [1.0, 1.0]), Outer([1.0, 2.0], [1.0, 2.0])) == LONE_ZTZ
    ensures AddMatrix(Outer([1.0, 1.0], [3.0]), Outer([1.0, 2.0], [4.0])) == LONE_ZTY
  {
    var ones: Vec, twos: Vec := [1.0, 1.0], [1.0, 2.0];
    OuterOfTwo(ones, ones);
    OuterOfTwo(twos, twos);
    OuterOfTwo(ones, [3.0]);
    OuterOfTwo(twos, [4.0]);
    hide Outer, AddMatrix;
    ScaleIs(1.0, ones, ones);
    ScaleIs(1.0, twos, twos);
    ScaleIs(2.0, twos, [2.0, 4.0]);
    ScaleIs(1.0, [3.0], [3.0]);
    ScaleIs(1.0, [4.0], [4.0]);
    ScaleIs(2.0, [4.0], [8.0]);
    SumOfTwo(ones, ones, twos, [2.0, 4.0]);
    SumOfTwo([3.0], [3.0], [4.0], [8.0]);
  }

  lemma OuterOfTwo(z: Vec, y: Vec)
    requires |z| == 2
    ensures Outer(z, y) == [Scale(z[0], y), Scale(z[1], y)]
  {
    assert z[1..][1..] == [];
    assert Outer(z[1..], y) == [Scale(z[1], y)] + Outer([], y);
  }

  lemma ScaleIs(k: real, v: Vec, r: Vec)
    requires |r| == |v| && forall i | 0 <= i < |v| :: r[i] == k * v[i]
    ensures Scale(k, v) == r
  {
    forall i | 0 <= i < |v| ensures Scale(k, v)[i] == r[i] {
      ScaleAt(k, v, i);
    }
  }

  lemma SumOfTwo(a: Vec, b: Vec, c: Vec, d: Vec)
    requires 1 <= |a| == |b| == |c| == |d| <= 2
    ensures AddMatrix([a, b], [c, d]) ==
            if |a| == 1 then [[a[0] + c[0]], [b[0] + d[0]]]
            else [[a[0] + c[0], a[1] + c[1]], [b[0] + d[0], b[1] + d[1]]]
  {
    AddUpToTwo(a, c);
    AddUpToTwo(b, d);
    hide AddVec;
    assert [a, b][1..] == [b] && [c, d][1..] == [d] && [b][1..] == [] && [d][1..] == [];
    assert AddMatrix([b], [d]) == [AddVec(b, d)];
    assert AddMatrix([a, b], [c, d]) == [AddVec(a, c), AddVec(b, d)];
  }

  lemma AddUpToTwo(u: Vec, v: Vec)
    requires 1 <= |u| == |v| <= 2
    ensures AddVec(u, v) == if |u| == 1 then [u[0] + v[0]] else [u[0] + v[0], u[1] + v[1]]
  {
    if |u| == 2 {
      assert u[1..][1..] == [] && AddVec(u[1..], v[1..]) == [u[1] + v[1]];
    }
  }
}
