/** Vectors and matrices over the reals; a matrix is the sequence of its rows. */
module LinearAlgebra {
  import opened Options
  import opened TreeReduction

  type Vec = seq<real>
  type Matrix = seq<Vec>

  ghost predicate Shaped(m: Matrix, rows: nat, cols: nat) {
    |m| == rows && forall i | 0 <= i < |m| :: |m[i]| == cols
  }

  function Zeros(n: nat): (v: Vec)
    ensures |v| == n
  {
    if n == 0 then [] else [0.0] + Zeros(n - 1)
  }

  function ZeroMatrix(rows: nat, cols: nat): (m: Matrix)
    ensures Shaped(m, rows, cols)
  {
    if rows == 0 then [] else [Zeros(cols)] + ZeroMatrix(rows - 1, cols)
  }

  /** R's `+` on operands of one shape; `Plus` has the other case. */
  function AddVec(u: Vec, v: Vec): Vec {
    if u == [] || v == [] then [] else [u[0] + v[0]] + AddVec(u[1..], v[1..])
  }

  function AddMatrix(a: Matrix, b: Matrix): Matrix {
    if a == [] || b == [] then [] else [AddVec(a[0], b[0])] + AddMatrix(a[1..], b[1..])
  }

  function Scale(k: real, v: Vec): (r: Vec)
    ensures |r| == |v|
  {
    if v == [] then [] else [k * v[0]] + Scale(k, v[1..])
  }

  function Dot(u: Vec, v: Vec): real
    requires |u| == |v|
  {
    if u == [] then 0.0 else u[0] * v[0] + Dot(u[1..], v[1..])
  }

  function SqDist(u: Vec, v: Vec): (d: real)
    requires |u| == |v|
    ensures d >= 0.0
  {
    if u == [] then 0.0 else
    SquareNonNegative(u[0] - v[0]);
    (u[0] - v[0]) * (u[0] - v[0]) + SqDist(u[1..], v[1..])
  }

  lemma SquareNonNegative(x: real)
    ensures x * x >= 0.0
  {
  }

  lemma Positive(a: real, b: real, ab: real)
    requires a > 0.0 && b > 0.0 && ab == a * b
    ensures ab > 0.0
  {
  }

  /** The rows of all fragments, one fragment after the other. */
  function Stack(fs: seq<Matrix>): Matrix {
    if fs == [] then [] else fs[0] + Stack(fs[1..])
  }

  /** Every fragment is there, behind the ones before it. */
  lemma {:induction false} StackInPlace(fs: seq<Matrix>, i: nat)
    requires i < |fs|
    ensures Stack(fs) == Stack(fs[..i]) + fs[i] + Stack(fs[i + 1..])
  {
    if i > 0 {
      StackInPlace(fs[1..], i - 1);
      assert fs[..i][1..] == fs[1..][..i - 1] && fs[1..][i..] == fs[i + 1..];
      assert Stack(fs[..i]) == fs[0] + Stack(fs[1..][..i - 1]);
    }
  }

  lemma {:induction false} ScaleAt(k: real, v: Vec, i: nat)
    requires i < |v|
    ensures Scale(k, v)[i] == k * v[i]
  {
    if i > 0 { ScaleAt(k, v[1..], i - 1); }
  }

  /** Squared distances of parts add up. */
  lemma {:induction false} SqDistOfParts(a: Vec, u: Vec, b: Vec, v: Vec)
    requires |a| == |b| && |u| == |v|
    ensures SqDist(a + u, b + v) == SqDist(a, b) + SqDist(u, v)
  {
    if a == [] {
      assert a + u == u && b + v == v;
    } else {
      assert (a + u)[1..] == a[1..] + u && (b + v)[1..] == b[1..] + v;
      SqDistOfParts(a[1..], u, b[1..], v);
    }
  }

  lemma {:induction false} NoDistance(v: Vec)
    ensures SqDist(v, v) == 0.0
  {
    if v != [] { NoDistance(v[1..]); }
  }

  // ---------- Addition ----------

  lemma {:induction false} AddVecLength(u: Vec, v: Vec)
    requires |u| == |v|
    ensures |AddVec(u, v)| == |u|
  {
    if u != [] { AddVecLength(u[1..], v[1..]); }
  }

  lemma {:induction false} AddVecCommutes(u: Vec, v: Vec)
    ensures AddVec(u, v) == AddVec(v, u)
  {
    if u != [] && v != [] { AddVecCommutes(u[1..], v[1..]); }
  }

  lemma {:induction false} AddVecAssociates(u: Vec, v: Vec, w: Vec)
    ensures AddVec(AddVec(u, v), w) == AddVec(u, AddVec(v, w))
  {
    if u != [] && v != [] && w != [] {
      AddVecAssociates(u[1..], v[1..], w[1..]);
      assert AddVec(u, v)[1..] == AddVec(u[1..], v[1..]) && AddVec(v, w)[1..] == AddVec(v[1..], w[1..]);
    }
  }

  lemma {:induction false} AddZeros(u: Vec)
    ensures AddVec(Zeros(|u|), u) == u && AddVec(u, Zeros(|u|)) == u
  {
    if u != [] {
      AddZeros(u[1..]);
      assert Zeros(|u|)[1..] == Zeros(|u| - 1);
    }
  }

  lemma {:induction false} AddMatrixShape(a: Matrix, b: Matrix, rows: nat, cols: nat)
    requires Shaped(a, rows, cols) && Shaped(b, rows, cols)
    ensures Shaped(AddMatrix(a, b), rows, cols)
    ensures forall i | 0 <= i < rows :: AddMatrix(a, b)[i] == AddVec(a[i], b[i])
    decreases rows
  {
    if rows > 0 {
      AddVecLength(a[0], b[0]);
      AddMatrixShape(a[1..], b[1..], rows - 1, cols);
    }
  }

  lemma {:induction false} AddMatrixCommutes(a: Matrix, b: Matrix)
    ensures AddMatrix(a, b) == AddMatrix(b, a)
  {
    if a != [] && b != [] {
      AddVecCommutes(a[0], b[0]);
      AddMatrixCommutes(a[1..], b[1..]);
    }
  }

  lemma {:induction false} AddMatrixAssociates(a: Matrix, b: Matrix, c: Matrix)
    ensures AddMatrix(AddMatrix(a, b), c) == AddMatrix(a, AddMatrix(b, c))
  {
    if a != [] && b != [] && c != [] {
      AddVecAssociates(a[0], b[0], c[0]);
      AddMatrixAssociates(a[1..], b[1..], c[1..]);
      assert AddMatrix(a, b)[1..] == AddMatrix(a[1..], b[1..]) && AddMatrix(b, c)[1..] == AddMatrix(b[1..], c[1..]);
    }
  }

  lemma {:induction false} AddZeroMatrix(a: Matrix, cols: nat)
    requires Shaped(a, |a|, cols)
    ensures AddMatrix(ZeroMatrix(|a|, cols), a) == a
  {
    if a != [] {
      AddZeros(a[0]);
      AddZeroMatrix(a[1..], cols);
      assert ZeroMatrix(|a|, cols)[1..] == ZeroMatrix(|a| - 1, cols);
    }
  }

  lemma {:induction false} AddMatrixConforms(a: Matrix, b: Matrix)
    requires Conformable(a, b)
    ensures Conformable(AddMatrix(a, b), a)
  {
    if a != [] {
      AddVecLength(a[0], b[0]);
      assert forall i | 0 <= i < |a[1..]| :: a[1..][i] == a[i + 1] && b[1..][i] == b[i + 1];
      AddMatrixConforms(a[1..], b[1..]);
    }
  }

  // ---------- The merge task ----------

  predicate Conformable(a: Matrix, b: Matrix) {
    |a| == |b| && forall i | 0 <= i < |a| :: |a[i]| == |b[i]|
  }

  /** R's `+` on matrices; None is the stop on operands of different shapes. */
  function Plus(a: Option<Matrix>, b: Option<Matrix>): Option<Matrix> {
    if a.Some? && b.Some? && Conformable(a.value, b.value) then Some(AddMatrix(a.value, b.value)) else None
  }

  /** `merge`: the sum of its inputs, accumulated from the left; without inputs it stops. */
  function MergeAll(xs: seq<Option<Matrix>>): Option<Matrix> {
    if xs == [] then None else FoldFrom(xs[0], xs[1..], Plus)
  }

  function Somes<T>(ms: seq<T>): (xs: seq<Option<T>>)
    ensures |xs| == |ms| && forall i | 0 <= i < |ms| :: xs[i] == Some(ms[i])
  {
    seq(|ms|, i requires 0 <= i < |ms| => Some(ms[i]))
  }

  /** The reduction of a queue of matrices by `merge`. */
  function TreeSum(ms: seq<Matrix>, arity: nat): Option<Matrix>
    requires arity >= 2
  {
    Total(Somes(ms), arity, MergeAll)
  }

  ghost predicate AllShaped(xs: seq<Matrix>, rows: nat, cols: nat) {
    forall i | 0 <= i < |xs| :: Shaped(xs[i], rows, cols)
  }

  ghost function OfShape(rows: nat, cols: nat): Matrix -> bool {
    m => Shaped(m, rows, cols)
  }

  ghost function Anything(): Option<Matrix> -> bool {
    m => true
  }

  lemma MatrixSumIsSemigroup(rows: nat, cols: nat)
    ensures CommutativeSemigroup(AddMatrix, OfShape(rows, cols))
  {
    var has := OfShape(rows, cols);
    forall a, b | has(a) && has(b)
      ensures has(AddMatrix(a, b)) && AddMatrix(a, b) == AddMatrix(b, a)
    {
      AddMatrixShape(a, b, rows, cols);
      AddMatrixCommutes(a, b);
    }
    forall a, b, c | has(a) && has(b) && has(c)
      ensures AddMatrix(AddMatrix(a, b), c) == AddMatrix(a, AddMatrix(b, c))
    {
      AddMatrixAssociates(a, b, c);
    }
  }

  lemma PlusCommutes(a: Option<Matrix>, b: Option<Matrix>)
    ensures Plus(a, b) == Plus(b, a)
  {
    if a.Some? && b.Some? { AddMatrixCommutes(a.value, b.value); }
  }

  lemma PlusAssociates(a: Option<Matrix>, b: Option<Matrix>, c: Option<Matrix>)
    ensures Plus(Plus(a, b), c) == Plus(a, Plus(b, c))
  {
    hide AddMatrix;
    if a.Some? && b.Some? && c.Some? {
      if Conformable(a.value, b.value) { AddMatrixConforms(a.value, b.value); }
      if Conformable(b.value, c.value) { AddMatrixConforms(b.value, c.value); }
      AddMatrixAssociates(a.value, b.value, c.value);
    }
  }

  /** Shapes or no shapes, the stopping sum is commutative and associative. */
  lemma PlusIsSemigroup()
    ensures CommutativeSemigroup(Plus, Anything()) && Folds(MergeAll, Plus)
  {
    hide Plus;
    forall a, b ensures Plus(a, b) == Plus(b, a) { PlusCommutes(a, b); }
    forall a, b, c ensures Plus(Plus(a, b), c) == Plus(a, Plus(b, c)) { PlusAssociates(a, b, c); }
  }

  lemma TreeSumIsFold(q: seq<Option<Matrix>>, arity: nat)
    requires q != [] && arity >= 2
    ensures Total(q, arity, MergeAll) == Fold(q, Plus)
  {
    hide Plus, MergeAll, CommutativeSemigroup, Folds, Fold, Total;
    PlusIsSemigroup();
    TotalIsFold(q, arity, MergeAll, Plus, Anything());
  }

  lemma {:induction false} StopSpreads(acc: Option<Matrix>, xs: seq<Option<Matrix>>)
    requires acc == None || None in xs
    ensures FoldFrom(acc, xs, Plus) == None
    decreases |xs|
  {
    if xs != [] { StopSpreads(Plus(acc, xs[0]), xs[1..]); }
  }

  /** Matrices of one shape add up without a stop; any two of different shapes stop the sum. */
  lemma {:induction false} FoldOfMatrices(acc: Matrix, ms: seq<Matrix>)
    ensures (forall i | 0 <= i < |ms| :: Conformable(ms[i], acc)) ==>
              FoldFrom(Some(acc), Somes(ms), Plus) == Some(FoldFrom(acc, ms, AddMatrix))
    ensures FoldFrom(Some(acc), Somes(ms), Plus).Some? <==> forall i | 0 <= i < |ms| :: Conformable(ms[i], acc)
    ensures (forall i | 0 <= i < |ms| :: Conformable(ms[i], acc)) ==> Conformable(FoldFrom(acc, ms, AddMatrix), acc)
    decreases |ms|
  {
    hide AddMatrix;
    if ms != [] {
      var rest := ms[1..];
      assert Somes(ms)[1..] == Somes(rest);
      if Conformable(acc, ms[0]) {
        AddMatrixConforms(acc, ms[0]);
        FoldOfMatrices(AddMatrix(acc, ms[0]), rest);
        assert forall i | 0 <= i < |rest| :: rest[i] == ms[i + 1];
      } else {
        StopSpreads(None, Somes(rest));
      }
    }
  }

  /** The reduction goes through exactly when all its inputs have one shape, and then it is their
      sum, whatever the arity. */
  lemma TreeSumOfMatrices(ms: seq<Matrix>, arity: nat)
    requires ms != [] && arity >= 2
    ensures TreeSum(ms, arity).Some? <==> forall i | 0 <= i < |ms| :: Conformable(ms[i], ms[0])
    ensures TreeSum(ms, arity).Some? ==>
              TreeSum(ms, arity) == Some(Fold(ms, AddMatrix)) && Conformable(Fold(ms, AddMatrix), ms[0])
  {
    hide Plus, MergeAll, Total, FoldFrom, AddMatrix;
    TreeSumIsFold(Somes(ms), arity);
    assert Somes(ms)[1..] == Somes(ms[1..]);
    FoldOfMatrices(ms[0], ms[1..]);
    assert forall i | 0 <= i < |ms[1..]| :: ms[1..][i] == ms[i + 1];
    if forall i | 0 <= i < |ms[1..]| :: Conformable(ms[1..][i], ms[0]) {
      forall i | 0 <= i < |ms| ensures Conformable(ms[i], ms[0]) {
        if i > 0 { assert Conformable(ms[1..][i - 1], ms[0]); }
      }
    }
  }

  lemma TreeSumOfShaped(ms: seq<Matrix>, arity: nat, rows: nat, cols: nat)
    requires ms != [] && arity >= 2 && AllShaped(ms, rows, cols)
    ensures TreeSum(ms, arity) == Some(Fold(ms, AddMatrix)) && Shaped(Fold(ms, AddMatrix), rows, cols)
  {
    hide TreeSum, AddMatrix, CommutativeSemigroup, FoldFrom;
    TreeSumOfMatrices(ms, arity);
    MatrixSumIsSemigroup(rows, cols);
    FoldStays(ms[0], ms[1..], AddMatrix, OfShape(rows, cols));
    assert OfShape(rows, cols)(Fold(ms, AddMatrix));
  }

  lemma FoldOfOne(m: Matrix)
    ensures Fold([m], AddMatrix) == m
  {
    assert [m][1..] == [];
  }

  lemma FoldOfMore(m: Matrix, rest: seq<Matrix>, rows: nat, cols: nat)
    requires Shaped(m, rows, cols) && AllShaped(rest, rows, cols) && rest != []
    ensures Fold([m] + rest, AddMatrix) == AddMatrix(m, Fold(rest, AddMatrix))
  {
    hide CommutativeSemigroup, Folds, FoldFrom, AddMatrix;
    MatrixSumIsSemigroup(rows, cols);
    FoldSplit([m], rest, AddMatrix, OfShape(rows, cols));
    FoldOfOne(m);
  }

  method Merge(input: seq<Matrix>) returns (r: Option<Matrix>)
    ensures r == MergeAll(Somes(input))
  {
    if input == [] { return None; }
    var accum := input[0];
    if |input| >= 2 {
      for i := 1 to |input|
        invariant FoldFrom(Some(accum), Somes(input)[i..], Plus) == MergeAll(Somes(input))
      {
        assert Somes(input)[i..][0] == Some(input[i]) && Somes(input)[i..][1..] == Somes(input)[i + 1..];
        if !Conformable(accum, input[i]) {
          StopSpreads(None, Somes(input)[i + 1..]);
          return None;
        }
        accum := AddMatrix(accum, input[i]);
      }
    }
    r := Some(accum);
  }

  /** The reduction loop over matrices, as both programs write it around `merge`, with the number
      of turns it makes. */
  method TreeMerge(partials0: seq<Matrix>, arity: nat) returns (merged: Option<Matrix>, ghost turns: nat)
    requires arity >= 2
    ensures merged == TreeSum(partials0, arity)
    ensures merged.Some? ==> turns == Turns(|partials0|, arity)
  {
    hide MergeAll, Plus;
    var partials := partials0;
    turns := 0;
    while |partials| > arity
      invariant Reduce(Somes(partials), arity, MergeAll) == Reduce(Somes(partials0), arity, MergeAll)
      invariant turns + Turns(|partials|, arity) == Turns(|partials0|, arity)
    {
      var subset := partials[..arity];
      var rest := partials[arity..];
      var m := Merge(subset);
      assert Somes(partials)[..arity] == Somes(subset) && Somes(partials)[arity..] == Somes(rest);
      assert Turn(Somes(partials), arity, MergeAll) == Somes(rest) + [m];
      if m.None? {
        StoppedTurn(Somes(rest) + [m], arity);
        merged := None;
        return;
      }
      assert Somes(rest) + [m] == Somes(rest + [m.value]);
      partials := rest + [m.value];
      turns := turns + 1;
    }
    merged := Merge(partials);
  }

  lemma StoppedTurn(q: seq<Option<Matrix>>, arity: nat)
    requires None in q && arity >= 2
    ensures Total(q, arity, MergeAll) == None
  {
    hide MergeAll, Total, Plus;
    TreeSumIsFold(q, arity);
    if q[0] != None { assert None in q[1..]; }
    StopSpreads(q[0], q[1..]);
  }

  // ---------- Products ----------

  lemma {:induction false} DotCommutes(u: Vec, v: Vec)
    requires |u| == |v|
    ensures Dot(u, v) == Dot(v, u)
  {
    if u != [] { DotCommutes(u[1..], v[1..]); }
  }

  lemma {:induction false} DotAdds(u: Vec, v: Vec, w: Vec)
    requires |u| == |v| == |w|
    ensures |AddVec(u, v)| == |w| && Dot(AddVec(u, v), w) == Dot(u, w) + Dot(v, w)
  {
    AddVecLength(u, v);
    if u != [] {
      DotAdds(u[1..], v[1..], w[1..]);
      assert AddVec(u, v)[1..] == AddVec(u[1..], v[1..]);
      assert (u[0] + v[0]) * w[0] == u[0] * w[0] + v[0] * w[0];
    }
  }

  lemma {:induction false} DotScales(k: real, u: Vec, v: Vec)
    requires |u| == |v|
    ensures Dot(Scale(k, u), v) == k * Dot(u, v) && Dot(v, Scale(k, u)) == k * Dot(u, v)
  {
    if u != [] {
      DotScales(k, u[1..], v[1..]);
      assert Scale(k, u)[1..] == Scale(k, u[1..]);
      var a, b, c := u[0], v[0], Dot(u[1..], v[1..]);
      assert (k * a) * b == k * (a * b) && b * (k * a) == k * (a * b);
      assert k * (a * b + c) == k * (a * b) + k * c;
    } else {
      assert k * 0.0 == 0.0;
    }
  }

  lemma {:induction false} DotZeros(u: Vec)
    ensures Dot(Zeros(|u|), u) == 0.0
  {
    if u != [] {
      DotZeros(u[1..]);
      assert Zeros(|u|)[1..] == Zeros(|u| - 1);
    }
  }

  lemma {:induction false} DotConcat(u: Vec, x: real, v: Vec, y: real)
    requires |u| == |v|
    ensures Dot(u + [x], v + [y]) == Dot(u, v) + x * y
  {
    if u == [] {
      assert u + [x] == [x] && v + [y] == [y] && [x][1..] == [] && [y][1..] == [];
    } else {
      assert (u + [x])[1..] == u[1..] + [x] && (v + [y])[1..] == v[1..] + [y];
      DotConcat(u[1..], x, v[1..], y);
    }
  }

  /** |u - v|^2 = |u|^2 - 2 u.v + |v|^2. */
  lemma {:induction false} SqDistExpands(u: Vec, v: Vec)
    requires |u| == |v|
    ensures SqDist(u, v) == Dot(u, u) - 2.0 * Dot(u, v) + Dot(v, v)
  {
    if u != [] {
      SqDistExpands(u[1..], v[1..]);
      var a, b := u[0], v[0];
      assert (a - b) * (a - b) == a * a - 2.0 * (a * b) + b * b;
    }
  }
}
