/** Fragmented k-means over exact reals. A partial is one row per centre: the coordinate sums of
    the points nearest to that centre, then their number. */
module KMeans {
  import opened LinearAlgebra
  import opened Options
  import opened TreeReduction

  // ---------- Assignment of points to centres ----------

  /** `which.min`: the first position of a smallest value. */
  function WhichMin(ds: seq<real>): (k: nat)
    requires ds != []
    ensures k < |ds|
    ensures forall j | 0 <= j < |ds| :: ds[k] <= ds[j]
    ensures forall j | 0 <= j < k :: ds[k] < ds[j]
  {
    if |ds| == 1 then 0 else
    var k := WhichMin(ds[1..]);
    assert forall j | 1 <= j < |ds| :: ds[j] == ds[1..][j - 1];
    if ds[0] <= ds[k + 1] then 0 else k + 1
  }

  ghost predicate Centres(c: Matrix, d: nat) {
    c != [] && Shaped(c, |c|, d)
  }

  /** One row of `proxy::dist`; squared, which keeps every comparison of Euclidean distances. */
  function Distances(x: Vec, centres: Matrix): (ds: seq<real>)
    requires Shaped(centres, |centres|, |x|)
    ensures |ds| == |centres| && forall j | 0 <= j < |ds| :: ds[j] == SqDist(x, centres[j])
  {
    seq(|centres|, j requires 0 <= j < |centres| => SqDist(x, centres[j]))
  }

  function Nearest(x: Vec, centres: Matrix): (k: nat)
    requires Centres(centres, |x|)
    ensures k < |centres|
    ensures forall j | 0 <= j < |centres| :: SqDist(x, centres[k]) <= SqDist(x, centres[j])
  {
    WhichMin(Distances(x, centres))
  }

  // ---------- Partial sums ----------

  /** The contribution of one point: itself and a count of one, in the row of its centre. */
  function Indicator(row: Vec, at: int, n: nat): (m: Matrix)
    ensures Shaped(m, n, |row|)
    decreases n
  {
    if n == 0 then [] else [if at == 0 then row else Zeros(|row|)] + Indicator(row, at - 1, n - 1)
  }

  ghost predicate Points(xs: Matrix, d: nat) {
    Shaped(xs, |xs|, d)
  }

  function PartialSum(points: Matrix, centres: Matrix, d: nat): (p: Matrix)
    requires Points(points, d) && Centres(centres, d)
    ensures Shaped(p, |centres|, d + 1)
  {
    if points == [] then ZeroMatrix(|centres|, d + 1) else
    var one := Indicator(points[0] + [1.0], Nearest(points[0], centres), |centres|);
    var rest := PartialSum(points[1..], centres, d);
    AddMatrixShape(one, rest, |centres|, d + 1);
    AddMatrix(one, rest)
  }

  lemma {:induction false} PartialSumConcat(xs: Matrix, ys: Matrix, centres: Matrix, d: nat)
    requires Points(xs, d) && Points(ys, d) && Centres(centres, d)
    ensures Points(xs + ys, d)
    ensures PartialSum(xs + ys, centres, d) ==
            AddMatrix(PartialSum(xs, centres, d), PartialSum(ys, centres, d))
  {
    if xs == [] {
      assert xs + ys == ys;
      AddZeroMatrix(PartialSum(ys, centres, d), d + 1);
    } else {
      assert (xs + ys)[0] == xs[0] && (xs + ys)[1..] == xs[1..] + ys;
      PartialSumConcat(xs[1..], ys, centres, d);
      AddMatrixAssociates(Indicator(xs[0] + [1.0], Nearest(xs[0], centres), |centres|),
                          PartialSum(xs[1..], centres, d), PartialSum(ys, centres, d));
    }
  }

  // ---------- The partial_sum task, centre by centre ----------

  function ColSums(rows: Matrix, d: nat): (s: Vec)
    requires Points(rows, d)
    ensures |s| == d
  {
    if rows == [] then Zeros(d) else
    AddVecLength(rows[0], ColSums(rows[1..], d));
    AddVec(rows[0], ColSums(rows[1..], d))
  }

  /** The points assigned to centre `c`, in order: `fragment[which(close_centres == c), ]`. */
  function Members(points: Matrix, close: seq<nat>, c: nat, d: nat): (ms: Matrix)
    requires |close| == |points| && Points(points, d)
    ensures Points(ms, d)
  {
    if points == [] then [] else
    (if close[0] == c then [points[0]] else []) + Members(points[1..], close[1..], c, d)
  }

  function CloseCentres(points: Matrix, centres: Matrix, d: nat): (close: seq<nat>)
    requires Points(points, d) && Centres(centres, d)
    ensures |close| == |points| && forall i | 0 <= i < |points| :: close[i] == Nearest(points[i], centres)
  {
    if points == [] then [] else [Nearest(points[0], centres)] + CloseCentres(points[1..], centres, d)
  }

  lemma {:induction false} IndicatorRow(row: Vec, at: int, n: nat, c: nat)
    requires c < n
    ensures Indicator(row, at, n)[c] == if at == c then row else Zeros(|row|)
    decreases n
  {
    if c > 0 { IndicatorRow(row, at - 1, n - 1, c - 1); }
  }

  lemma {:induction false} ZeroMatrixRow(n: nat, cols: nat, c: nat)
    requires c < n
    ensures ZeroMatrix(n, cols)[c] == Zeros(cols)
  {
    if c > 0 { ZeroMatrixRow(n - 1, cols, c - 1); }
  }

  lemma {:induction false} AddVecConcat(u: Vec, x: real, v: Vec, y: real)
    requires |u| == |v|
    ensures AddVec(u + [x], v + [y]) == AddVec(u, v) + [x + y]
  {
    if u == [] {
      assert u + [x] == [x] && v + [y] == [y] && [x][1..] == [] && [y][1..] == [];
    } else {
      assert (u + [x])[1..] == u[1..] + [x] && (v + [y])[1..] == v[1..] + [y];
      AddVecConcat(u[1..], x, v[1..], y);
    }
  }

  lemma {:induction false} ZerosConcat(n: nat)
    ensures Zeros(n + 1) == Zeros(n) + [0.0]
  {
    if n > 0 { ZerosConcat(n - 1); }
  }

  lemma ColSumsCons(x: Vec, ms: Matrix, d: nat)
    requires |x| == d && Points(ms, d)
    ensures Points([x] + ms, d) && ColSums([x] + ms, d) == AddVec(x, ColSums(ms, d))
  {
    assert ([x] + ms)[1..] == ms;
  }

  /** One more point adds itself to the row of its centre and nothing to the others. */
  lemma RowOfCons(x: Vec, k: nat, rest: Matrix, ms: Matrix, n: nat, d: nat, c: nat)
    requires |x| == d && c < n && Shaped(rest, n, d + 1) && Points(ms, d)
    requires rest[c] == ColSums(ms, d) + [|ms| as real]
    ensures var ms' := (if k == c then [x] else []) + ms;
            && Points(ms', d)
            && var sum := AddMatrix(Indicator(x + [1.0], k, n), rest);
            && |sum| == n && sum[c] == ColSums(ms', d) + [|ms'| as real]
  {
    AddMatrixShape(Indicator(x + [1.0], k, n), rest, n, d + 1);
    IndicatorRow(x + [1.0], k, n, c);
    hide AddMatrix, Indicator, AddVec, ColSums;
    hide Zeros;
    if k == c {
      RowOfOneMore(x, rest[c], ms, d);
    } else {
      AddZeros(rest[c]);
      assert [] + ms == ms;
    }
  }

  lemma RowOfOneMore(x: Vec, row: Vec, ms: Matrix, d: nat)
    requires |x| == d && Points(ms, d) && row == ColSums(ms, d) + [|ms| as real]
    ensures Points([x] + ms, d) && AddVec(x + [1.0], row) == ColSums([x] + ms, d) + [|[x] + ms| as real]
  {
    hide AddVec, ColSums;
    AddVecConcat(x, 1.0, ColSums(ms, d), |ms| as real);
    ColSumsCons(x, ms, d);
    assert 1.0 + |ms| as real == |[x] + ms| as real;
  }

  /** Row `c` of the partial holds the column sums and the size of that centre's cluster. */
  lemma {:induction false} PartialSumRow(points: Matrix, centres: Matrix, d: nat, c: nat)
    requires Points(points, d) && Centres(centres, d) && c < |centres|
    ensures var ms := Members(points, CloseCentres(points, centres, d), c, d);
            PartialSum(points, centres, d)[c] == ColSums(ms, d) + [|ms| as real]
  {
    hide AddMatrix, Indicator, ColSums;
    if points == [] {
      ZeroMatrixRow(|centres|, d + 1, c);
      ZerosConcat(d);
      assert ColSums([], d) == Zeros(d) by { ColSumsOfNone(d); }
    } else {
      var k := Nearest(points[0], centres);
      PartialSumRow(points[1..], centres, d, c);
      var close := CloseCentres(points, centres, d);
      assert close[0] == k && close[1..] == CloseCentres(points[1..], centres, d);
      RowOfCons(points[0], k, PartialSum(points[1..], centres, d),
                Members(points[1..], close[1..], c, d), |centres|, d, c);
    }
  }

  lemma ColSumsOfNone(d: nat)
    ensures ColSums([], d) == Zeros(d)
  {
  }

  /** With one column `fragment[indices, ]` is a bare vector, on which `colSums` stops; it is called
      for a cluster of two or more points. */
  ghost predicate SumStops(fragment: Matrix, centres: Matrix, d: nat)
    requires Points(fragment, d) && Centres(centres, d)
  {
    d == 1 && exists c: nat | c < |centres| :: |Members(fragment, CloseCentres(fragment, centres, d), c, d)| >= 2
  }

  /** The partial_sum task; None is a stop. `bare` centres have lost their matrix shape, and stop it
      at the first test. */
  method PartialSumTask(fragment: Matrix, centres: Matrix, bare: bool, d: nat) returns (r: Option<Matrix>)
    requires Points(fragment, d) && Centres(centres, d)
    ensures r == if bare || SumStops(fragment, centres, d) then None else Some(PartialSum(fragment, centres, d))
  {
    hide PartialSum, Members, CloseCentres;
    if bare { return None; }
    var close := CloseCentres(fragment, centres, d);
    var partials := [];
    ghost var whole := PartialSum(fragment, centres, d);
    for c := 0 to |centres|
      invariant partials == whole[..c]
      invariant forall b: nat | b < c :: d == 1 ==> |Members(fragment, close, b, d)| < 2
    {
      PartialSumRow(fragment, centres, d, c);
      var members := Members(fragment, close, c, d);
      if d == 1 && |members| >= 2 { return None; }
      var row := ClusterRow(members, d);
      assert whole[..c + 1] == whole[..c] + [whole[c]];
      partials := partials + [row];
    }
    assert whole[..|centres|] == whole;
    r := Some(partials);
  }

  /** The three cases of the loop body: no point, one point, several points. */
  method ClusterRow(members: Matrix, d: nat) returns (row: Vec)
    requires Points(members, d)
    ensures row == ColSums(members, d) + [|members| as real]
  {
    if |members| == 0 {
      row := Zeros(d + 1);
      ZerosConcat(d);
    } else if |members| == 1 {
      row := members[0] + [1.0];
      AddZeros(members[0]);
    } else {
      row := ColSums(members, d) + [|members| as real];
    }
  }

  // ---------- Distributed equals whole ----------

  ghost predicate Fragments(fs: seq<Matrix>, d: nat) {
    forall i | 0 <= i < |fs| :: Points(fs[i], d)
  }

  lemma {:induction false} StackedPoints(fs: seq<Matrix>, d: nat)
    requires Fragments(fs, d)
    ensures Points(Stack(fs), d)
  {
    if fs != [] { StackedPoints(fs[1..], d); }
  }

  function Partials(fs: seq<Matrix>, centres: Matrix, d: nat): (ps: seq<Matrix>)
    requires Fragments(fs, d) && Centres(centres, d)
    ensures |ps| == |fs| && AllShaped(ps, |centres|, d + 1)
  {
    if fs == [] then [] else [PartialSum(fs[0], centres, d)] + Partials(fs[1..], centres, d)
  }

  lemma {:induction false} FoldOfPartials(fs: seq<Matrix>, centres: Matrix, d: nat)
    requires Fragments(fs, d) && Centres(centres, d) && fs != []
    ensures Points(Stack(fs), d)
    ensures Fold(Partials(fs, centres, d), AddMatrix) == PartialSum(Stack(fs), centres, d)
  {
    hide CommutativeSemigroup, Folds, FoldFrom, PartialSum, AddMatrix;
    StackedPoints(fs, d);
    var ps := Partials(fs, centres, d);
    var first := PartialSum(fs[0], centres, d);
    if |fs| == 1 {
      assert Stack(fs[1..]) == [] && Stack(fs) == fs[0] && ps == [first];
      FoldOfOne(first);
    } else {
      var rest := Partials(fs[1..], centres, d);
      StackedPoints(fs[1..], d);
      FoldOfPartials(fs[1..], centres, d);
      PartialSumConcat(fs[0], Stack(fs[1..]), centres, d);
      FoldOfMore(first, rest, |centres|, d + 1);
    }
  }

  /** Whatever the fragmentation and the arity, the merged partial is that of the whole data. */
  lemma MergedPartialIsWhole(fs: seq<Matrix>, centres: Matrix, d: nat, arity: nat)
    requires Fragments(fs, d) && Centres(centres, d) && fs != [] && arity >= 2
    ensures Points(Stack(fs), d)
    ensures TreeSum(Partials(fs, centres, d), arity) == Some(PartialSum(Stack(fs), centres, d))
  {
    hide TreeSum, AddMatrix, Fold, PartialSum;
    FoldOfPartials(fs, centres, d);
    TreeSumOfShaped(Partials(fs, centres, d), arity, |centres|, d + 1);
  }

  // ---------- New centres ----------

  function Divide(v: Vec, n: real): (r: Vec)
    requires n != 0.0
    ensures |r| == |v|
  {
    if v == [] then [] else [v[0] / n] + Divide(v[1..], n)
  }

  /** The mean where the cluster has points; any point at all where it has none. */
  ghost predicate Recentred(partials: Matrix, centres: Matrix, d: nat)
    requires Shaped(partials, |partials|, d + 1)
  {
    && Shaped(centres, |partials|, d)
    && forall c | 0 <= c < |partials| ::
         partials[c][d] != 0.0 ==> centres[c] == Divide(partials[c][..d], partials[c][d])
  }

  /** `runif(d)`: some coordinates between 0 and 1. */
  method Runif(d: nat) returns (v: Vec)
    ensures |v| == d && forall i | 0 <= i < d :: 0.0 <= v[i] <= 1.0
  {
    v := [];
    while |v| < d
      invariant |v| <= d && forall i | 0 <= i < |v| :: 0.0 <= v[i] <= 1.0
    {
      var x: real :| 0.0 <= x <= 1.0;
      v := v + [x];
    }
  }

  /** Without an empty cluster the result is `partials[, 1:dimension]` divided by the counts, and
      that is a bare vector if there is a single centre or a single column. */
  ghost predicate LosesShape(partials: Matrix, d: nat)
    requires Shaped(partials, |partials|, d + 1)
  {
    NoneEmpty(partials, d) && (|partials| == 1 || d == 1)
  }

  /** The first c centres are done: a mean for a cluster with points, some point of the unit cube
      for one without. */
  ghost predicate Done(partials: Matrix, centres: Matrix, d: nat, c: nat)
    requires Shaped(partials, |partials|, d + 1) && Shaped(centres, |partials|, d) && c <= |partials|
  {
    forall b | 0 <= b < c ::
      && (partials[b][d] != 0.0 ==> centres[b] == Divide(partials[b][..d], partials[b][d]))
      && (partials[b][d] == 0.0 ==> forall i | 0 <= i < d :: 0.0 <= centres[b][i] <= 1.0)
  }

  /** `centres[cl0, ]` and `centres[-cl0, ]`, row by row. */
  method NewCentre(row: Vec, d: nat) returns (centre: Vec)
    requires |row| == d + 1
    ensures |centre| == d
    ensures row[d] != 0.0 ==> centre == Divide(row[..d], row[d])
    ensures row[d] == 0.0 ==> forall i | 0 <= i < d :: 0.0 <= centre[i] <= 1.0
  {
    if row[d] == 0.0 {
      centre := Runif(d);
    } else {
      centre := Divide(row[..d], row[d]);
    }
  }

  method RecomputeCentres(partials0: seq<Matrix>, oldCentres: Matrix, d: nat, arity: nat)
    returns (centres: Matrix, bare: bool)
    requires partials0 != [] && arity >= 2 && Centres(oldCentres, d)
    requires AllShaped(partials0, |oldCentres|, d + 1)
    ensures var p := TreeSum(partials0, arity);
            && p.Some? && Shaped(p.value, |oldCentres|, d + 1)
            && Recentred(p.value, centres, d) && Done(p.value, centres, d, |p.value|)
            && (bare <==> LosesShape(p.value, d))
  {
    hide TreeSum, Divide, Fold;
    var merged, _ := TreeMerge(partials0, arity);
    TreeSumOfShaped(partials0, arity, |oldCentres|, d + 1);
    var partials := merged.value;
    centres := oldCentres;
    for c := 0 to |oldCentres|
      invariant Shaped(centres, |oldCentres|, d) && Done(partials, centres, d, c)
    {
      var centre := NewCentre(partials[c], d);
      centres := centres[c := centre];
    }
    bare := NoneEmpty(partials, d) && (|oldCentres| == 1 || d == 1);
  }

  /** `length(cl0) == 0`. */
  predicate NoneEmpty(partials: Matrix, d: nat)
    requires forall c | 0 <= c < |partials| :: |partials[c]| == d + 1
  {
    forall c | 0 <= c < |partials| :: partials[c][d] != 0.0
  }

  // ---------- Descent ----------

  /** Sum over the points of the squared distance to the nearest centre. */
  ghost function Wcss(points: Matrix, centres: Matrix, d: nat): real
    requires Points(points, d) && Centres(centres, d)
  {
    if points == [] then 0.0 else
    SqDist(points[0], centres[Nearest(points[0], centres)]) + Wcss(points[1..], centres, d)
  }

  /** The same sum when the points stay with the centre they had under `prev`. */
  ghost function Cost(points: Matrix, prev: Matrix, centres: Matrix, d: nat): real
    requires Points(points, d) && Centres(prev, d) && Centres(centres, d) && |prev| == |centres|
  {
    if points == [] then 0.0 else
    SqDist(points[0], centres[Nearest(points[0], prev)]) + Cost(points[1..], prev, centres, d)
  }

  ghost function Norms(points: Matrix): real {
    if points == [] then 0.0 else Dot(points[0], points[0]) + Norms(points[1..])
  }

  /** The vector that turns a partial row into its share of the cost around `c`. */
  ghost function Weight(c: Vec): (w: Vec)
    ensures |w| == |c| + 1
  {
    Scale(-2.0, c) + [Dot(c, c)]
  }

  ghost function Potential(partials: Matrix, centres: Matrix, d: nat): real
    requires Shaped(partials, |centres|, d + 1) && Shaped(centres, |centres|, d)
    decreases |centres|
  {
    if centres == [] then 0.0 else
    Dot(partials[0], Weight(centres[0])) + Potential(partials[1..], centres[1..], d)
  }

  lemma {:induction false} PotentialAdds(a: Matrix, b: Matrix, centres: Matrix, d: nat)
    requires Shaped(a, |centres|, d + 1) && Shaped(b, |centres|, d + 1) && Shaped(centres, |centres|, d)
    ensures Shaped(AddMatrix(a, b), |centres|, d + 1)
    ensures Potential(AddMatrix(a, b), centres, d) == Potential(a, centres, d) + Potential(b, centres, d)
    decreases |centres|
  {
    AddMatrixShape(a, b, |centres|, d + 1);
    if centres != [] {
      DotAdds(a[0], b[0], Weight(centres[0]));
      PotentialAdds(a[1..], b[1..], centres[1..], d);
      assert AddMatrix(a, b)[1..] == AddMatrix(a[1..], b[1..]);
    }
  }

  lemma {:induction false} PotentialOfIndicator(row: Vec, at: int, centres: Matrix, d: nat)
    requires |row| == d + 1 && Shaped(centres, |centres|, d) && at < |centres|
    ensures Potential(Indicator(row, at, |centres|), centres, d) ==
            if at < 0 then 0.0 else Dot(row, Weight(centres[at]))
    decreases |centres|
  {
    if centres != [] {
      PotentialOfIndicator(row, at - 1, centres[1..], d);
      assert Indicator(row, at, |centres|)[1..] == Indicator(row, at - 1, |centres| - 1);
      DotZeros(Weight(centres[0]));
    }
  }

  lemma {:induction false} PotentialOfZeros(centres: Matrix, d: nat)
    requires Shaped(centres, |centres|, d)
    ensures Potential(ZeroMatrix(|centres|, d + 1), centres, d) == 0.0
    decreases |centres|
  {
    if centres != [] {
      DotZeros(Weight(centres[0]));
      PotentialOfZeros(centres[1..], d);
      assert ZeroMatrix(|centres|, d + 1)[1..] == ZeroMatrix(|centres| - 1, d + 1);
    }
  }

  lemma DotWeight(s: Vec, n: real, c: Vec)
    requires |s| == |c|
    ensures Dot(s + [n], Weight(c)) == n * Dot(c, c) - 2.0 * Dot(s, c)
  {
    hide Dot, Scale;
    DotConcat(s, n, Scale(-2.0, c), Dot(c, c));
    DotScales(-2.0, c, s);
    DotCommutes(s, c);
  }

  /** The cost is a constant of the data plus a linear function of the partial. */
  lemma {:induction false} CostIsPotential(points: Matrix, prev: Matrix, centres: Matrix, d: nat)
    requires Points(points, d) && Centres(prev, d) && Centres(centres, d) && |prev| == |centres|
    ensures Cost(points, prev, centres, d) ==
            Norms(points) + Potential(PartialSum(points, prev, d), centres, d)
  {
    if points == [] {
      PotentialOfZeros(centres, d);
    } else {
      var x, k := points[0], Nearest(points[0], prev);
      var one := Indicator(x + [1.0], k, |prev|);
      CostIsPotential(points[1..], prev, centres, d);
      PotentialAdds(one, PartialSum(points[1..], prev, d), centres, d);
      PotentialOfIndicator(x + [1.0], k, centres, d);
      DotWeight(x, 1.0, centres[k]);
      SqDistExpands(x, centres[k]);
    }
  }

  /** A partial row counts points, and is zero when it counts none. */
  ghost predicate Counted(partials: Matrix, d: nat) {
    forall c | 0 <= c < |partials| ::
      |partials[c]| == d + 1 && partials[c][d] >= 0.0 && (partials[c][d] == 0.0 ==> partials[c] == Zeros(d + 1))
  }

  lemma PartialSumCounts(points: Matrix, centres: Matrix, d: nat)
    requires Points(points, d) && Centres(centres, d)
    ensures Counted(PartialSum(points, centres, d), d)
  {
    forall c | 0 <= c < |centres|
      ensures var r := PartialSum(points, centres, d)[c];
              r[d] >= 0.0 && (r[d] == 0.0 ==> r == Zeros(d + 1))
    {
      PartialSumRow(points, centres, d, c);
      ZerosConcat(d);
    }
  }

  /** How far the centres moved, each weighted with the size of its cluster. */
  ghost function Movement(partials: Matrix, prev: Matrix, centres: Matrix, d: nat): real
    requires Shaped(partials, |centres|, d + 1) && Shaped(centres, |centres|, d) && Shaped(prev, |centres|, d)
    decreases |centres|
  {
    if centres == [] then 0.0 else
    partials[0][d] * SqDist(prev[0], centres[0]) + Movement(partials[1..], prev[1..], centres[1..], d)
  }

  lemma {:induction false} DivideAt(v: Vec, n: real, i: nat)
    requires n != 0.0 && i < |v|
    ensures Divide(v, n)[i] == v[i] / n
  {
    if i > 0 { DivideAt(v[1..], n, i - 1); }
  }

  lemma Quotient(x: real, n: real, q: real)
    requires n != 0.0 && q == x / n
    ensures n * q == x
  {
  }

  lemma DivideScales(s: Vec, n: real)
    requires n != 0.0
    ensures IsMean(Divide(s, n), s, n)
  {
    var q := Divide(s, n);
    forall i | 0 <= i < |s|
      ensures Scale(n, q)[i] == s[i]
    {
      DivideAt(s, n, i);
      ScaleAt(n, q, i);
      Quotient(s[i], n, q[i]);
    }
  }

  ghost predicate IsMean(mean: Vec, s: Vec, n: real) {
    Scale(n, mean) == s
  }

  lemma MeanDot(s: Vec, n: real, mean: Vec, v: Vec)
    requires |s| == |v| == |mean| && IsMean(mean, s, n)
    ensures Dot(s, v) == n * Dot(mean, v)
  {
    hide Dot, Scale;
    DotScales(n, mean, v);
  }

  lemma WeighedMean(s: Vec, n: real, mean: Vec, v: Vec)
    requires |s| == |v| == |mean| && IsMean(mean, s, n)
    ensures Dot(s + [n], Weight(v)) == n * (Dot(v, v) - 2.0 * Dot(mean, v))
  {
    hide Dot, IsMean, Weight;
    DotWeight(s, n, v);
    MeanDot(s, n, mean, v);
    Distribute(n, Dot(v, v), Dot(mean, v));
  }

  lemma Distribute(n: real, a: real, b: real)
    ensures n * (a - 2.0 * b) == n * a - 2.0 * (n * b)
  {
  }

  lemma MeanDistance(prev: Vec, mean: Vec)
    requires |prev| == |mean|
    ensures SqDist(prev, mean) == (Dot(prev, prev) - 2.0 * Dot(mean, prev)) - (Dot(mean, mean) - 2.0 * Dot(mean, mean))
  {
    hide Dot, SqDist;
    DotCommutes(prev, mean);
    SqDistExpands(prev, mean);
  }

  lemma MeanGain(s: Vec, n: real, prev: Vec, mean: Vec)
    requires |s| == |prev| == |mean| && IsMean(mean, s, n)
    ensures Dot(s + [n], Weight(prev)) - Dot(s + [n], Weight(mean)) == n * SqDist(prev, mean)
  {
    hide Dot, SqDist, IsMean, Weight;
    WeighedMean(s, n, mean, prev);
    WeighedMean(s, n, mean, mean);
    MeanDistance(prev, mean);
    Factor(n, Dot(prev, prev) - 2.0 * Dot(mean, prev), Dot(mean, mean) - 2.0 * Dot(mean, mean), SqDist(prev, mean));
  }

  lemma Factor(n: real, a: real, b: real, c: real)
    requires c == a - b
    ensures n * a - n * b == n * c
  {
  }

  /** Moving one centre to the mean of its cluster gains the cluster size times the move squared. */
  lemma RowGain(row: Vec, prev: Vec, centre: Vec, d: nat)
    requires |row| == d + 1 && |prev| == |centre| == d
    requires row[d] >= 0.0 && (row[d] == 0.0 ==> row == Zeros(d + 1))
    requires row[d] != 0.0 ==> centre == Divide(row[..d], row[d])
    ensures Dot(row, Weight(prev)) - Dot(row, Weight(centre)) == row[d] * SqDist(prev, centre)
  {
    hide Dot, Scale, SqDist, Weight, Divide;
    if row[d] == 0.0 {
      DotZeros(Weight(prev));
      DotZeros(Weight(centre));
    } else {
      assert row == row[..d] + [row[d]];
      DivideScales(row[..d], row[d]);
      MeanGain(row[..d], row[d], prev, centre);
    }
  }

  lemma {:induction false} PotentialGain(partials: Matrix, prev: Matrix, centres: Matrix, d: nat)
    requires Shaped(partials, |centres|, d + 1) && Shaped(prev, |centres|, d)
    requires Counted(partials, d) && Recentred(partials, centres, d)
    ensures Potential(partials, prev, d) - Potential(partials, centres, d) == Movement(partials, prev, centres, d)
    ensures Movement(partials, prev, centres, d) >= 0.0
    decreases |centres|
  {
    hide Dot, SqDist, Weight, Divide, Zeros;
    if centres != [] {
      RowGain(partials[0], prev[0], centres[0], d);
      ProductNonNegative(partials[0][d], SqDist(prev[0], centres[0]));
      PotentialGain(partials[1..], prev[1..], centres[1..], d);
    }
  }

  lemma ProductNonNegative(a: real, b: real)
    requires a >= 0.0 && b >= 0.0
    ensures a * b >= 0.0
  {
  }

  lemma {:induction false} CostBounds(points: Matrix, prev: Matrix, centres: Matrix, d: nat)
    requires Points(points, d) && Centres(prev, d) && Centres(centres, d) && |prev| == |centres|
    ensures Wcss(points, centres, d) <= Cost(points, prev, centres, d)
    ensures Cost(points, prev, prev, d) == Wcss(points, prev, d)
  {
    if points != [] { CostBounds(points[1..], prev, centres, d); }
  }

  /** Lloyd's step on the whole data: the objective falls by at least the weighted movement. */
  lemma LloydStep(points: Matrix, prev: Matrix, centres: Matrix, d: nat)
    requires Points(points, d) && Centres(prev, d) && Recentred(PartialSum(points, prev, d), centres, d)
    ensures Centres(centres, d) && |centres| == |prev|
    ensures var moved := Movement(PartialSum(points, prev, d), prev, centres, d);
            moved >= 0.0 && Wcss(points, centres, d) <= Wcss(points, prev, d) - moved
  {
    var p := PartialSum(points, prev, d);
    PartialSumCounts(points, prev, d);
    PotentialGain(p, prev, centres, d);
    CostIsPotential(points, prev, prev, d);
    CostIsPotential(points, prev, centres, d);
    CostBounds(points, prev, centres, d);
  }

  /** One distributed iteration never raises the objective of the whole data, for every
      fragmentation, every arity and every choice of centres for the empty clusters. */
  lemma LloydDescent(fs: seq<Matrix>, prev: Matrix, centres: Matrix, d: nat, arity: nat)
    requires Fragments(fs, d) && Centres(prev, d) && fs != [] && arity >= 2
    requires var p := TreeSum(Partials(fs, prev, d), arity);
             p.Some? && Shaped(p.value, |prev|, d + 1) && Recentred(p.value, centres, d)
    ensures Points(Stack(fs), d) && Centres(centres, d) && |centres| == |prev|
    ensures Wcss(Stack(fs), centres, d) <= Wcss(Stack(fs), prev, d)
  {
    MergedPartialIsWhole(fs, prev, d, arity);
    LloydStep(Stack(fs), prev, centres, d);
  }

  // ---------- The main loop ----------

  function TotalSqDist(a: Matrix, b: Matrix, d: nat): (s: real)
    requires Shaped(a, |b|, d) && Shaped(b, |b|, d)
    ensures s >= 0.0
    decreases |b|
  {
    if b == [] then 0.0 else SqDist(a[0], b[0]) + TotalSqDist(a[1..], b[1..], d)
  }

  predicate Converged(prev: Matrix, centres: Matrix, d: nat, epsilon: real)
    requires Shaped(prev, |centres|, d) && Shaped(centres, |centres|, d)
  {
    TotalSqDist(centres, prev, d) < epsilon * epsilon
  }

  /** All coordinates of a matrix as one vector, row by row. */
  function AllCoordinates(m: Matrix, d: nat): (v: Vec)
    requires Shaped(m, |m|, d)
    ensures |v| == |m| * d
  {
    if m == [] then [] else m[0] + AllCoordinates(m[1..], d)
  }

  /** Every row is there, behind the rows before it. */
  lemma {:induction false} RowInPlace(m: Matrix, d: nat, i: nat)
    requires Shaped(m, |m|, d) && i < |m|
    ensures AllCoordinates(m, d) == AllCoordinates(m[..i], d) + m[i] + AllCoordinates(m[i + 1..], d)
  {
    if i > 0 {
      RowInPlace(m[1..], d, i - 1);
      assert m[..i][1..] == m[1..][..i - 1] && m[1..][i..] == m[i + 1..];
      assert AllCoordinates(m[..i], d) == m[0] + AllCoordinates(m[1..][..i - 1], d);
    }
  }

  /** Two sets of centres are less than epsilon apart, as vectors of all their coordinates. */
  ghost predicate Near(a: Matrix, b: Matrix, d: nat, epsilon: real)
    requires Shaped(a, |b|, d) && Shaped(b, |b|, d)
  {
    SqDist(AllCoordinates(a, d), AllCoordinates(b, d)) < epsilon * epsilon
  }

  lemma {:induction false} TotalIsOneDistance(a: Matrix, b: Matrix, d: nat)
    requires Shaped(a, |b|, d) && Shaped(b, |b|, d)
    ensures TotalSqDist(a, b, d) == SqDist(AllCoordinates(a, d), AllCoordinates(b, d))
    decreases |b|
  {
    if b != [] {
      TotalIsOneDistance(a[1..], b[1..], d);
      SqDistOfParts(a[0], AllCoordinates(a[1..], d), b[0], AllCoordinates(b[1..], d));
    }
  }

  lemma {:induction false} EveryRowCounts(a: Matrix, b: Matrix, d: nat, c: nat)
    requires Shaped(a, |b|, d) && Shaped(b, |b|, d) && c < |b|
    ensures SqDist(a[c], b[c]) <= TotalSqDist(a, b, d)
    decreases |b|
  {
    if c > 0 { EveryRowCounts(a[1..], b[1..], d, c - 1); }
  }

  lemma {:induction false} SameRowsDoNotMove(a: Matrix, d: nat)
    requires Shaped(a, |a|, d)
    ensures TotalSqDist(a, a, d) == 0.0
  {
    if a != [] {
      NoDistance(a[0]);
      SameRowsDoNotMove(a[1..], d);
    }
  }

  /** `converged` looks at all the coordinates: it compares the distance of the two sets of centres
      with epsilon. So no centre has moved by epsilon or more, and if none moved it holds. */
  lemma ConvergedIff(prev: Matrix, centres: Matrix, d: nat, epsilon: real)
    requires Shaped(prev, |centres|, d) && Shaped(centres, |centres|, d)
    ensures Converged(prev, centres, d, epsilon) <==> Near(centres, prev, d, epsilon)
    ensures Converged(prev, centres, d, epsilon) ==>
              forall c | 0 <= c < |centres| :: SqDist(centres[c], prev[c]) < epsilon * epsilon
    ensures prev == centres && epsilon > 0.0 ==> Converged(prev, centres, d, epsilon)
  {
    hide TotalSqDist, SqDist, AllCoordinates;
    TotalIsOneDistance(centres, prev, d);
    forall c | 0 <= c < |centres| ensures SqDist(centres[c], prev[c]) <= TotalSqDist(centres, prev, d) {
      EveryRowCounts(centres, prev, d, c);
    }
    if prev == centres && epsilon > 0.0 {
      SameRowsDoNotMove(prev, d);
      assert TotalSqDist(centres, prev, d) == 0.0;
      Positive(epsilon, epsilon, epsilon * epsilon);
    }
  }

  /** The centres of successive iterations: each is a Lloyd step of the whole data from the one
      before, and none of them raises the objective. */
  ghost predicate Trajectory(points: Matrix, h: seq<Matrix>, d: nat, k: nat) {
    && Points(points, d) && k > 0
    && (forall i | 0 <= i < |h| :: Shaped(h[i], k, d))
    && (forall i | 0 < i < |h| ::
          && Recentred(PartialSum(points, h[i - 1], d), h[i], d)
          && Wcss(points, h[i], d) <= Wcss(points, h[i - 1], d))
  }

  lemma TrajectoryExtends(points: Matrix, h: seq<Matrix>, d: nat, k: nat, next: Matrix)
    requires Trajectory(points, h, d, k) && h != []
    requires Shaped(next, k, d) && Recentred(PartialSum(points, h[|h| - 1], d), next, d)
    requires Wcss(points, next, d) <= Wcss(points, h[|h| - 1], d)
    ensures Trajectory(points, h + [next], d, k)
  {
    hide Recentred, Wcss, PartialSum;
  }

  /** Iteration `i` moved the centres by less than epsilon. */
  ghost predicate Settled(h: seq<Matrix>, i: nat, d: nat, k: nat, epsilon: real)
    requires 0 < i < |h|
  {
    Shaped(h[i - 1], k, d) && Shaped(h[i], k, d) && Near(h[i], h[i - 1], d, epsilon)
  }

  /** Only the last iteration can have settled, and it has exactly when `converged` is set. */
  ghost predicate StopsOnConvergence(h: seq<Matrix>, d: nat, k: nat, epsilon: real, converged: bool) {
    && (converged ==> |h| > 1)
    && forall i | 0 < i < |h| :: Settled(h, i, d, k, epsilon) <==> converged && i == |h| - 1
  }

  /** An iteration from these centres stops in one of its partial_sum tasks. */
  ghost predicate IterationStops(fs: seq<Matrix>, centres: Matrix, bare: bool, d: nat)
    requires Fragments(fs, d) && Centres(centres, d)
  {
    bare || exists i | 0 <= i < |fs| :: SumStops(fs[i], centres, d)
  }

  /** The centres that an iteration from `prev` yields are a bare vector. */
  ghost predicate BareAfter(fs: seq<Matrix>, prev: Matrix, d: nat)
    requires Fragments(fs, d) && Centres(prev, d)
  {
    StackedPoints(fs, d);
    LosesShape(PartialSum(Stack(fs), prev, d), d)
  }

  lemma {:induction false} MemberCount(points: Matrix, close: seq<nat>, c: nat, d: nat)
    requires |close| == |points| && Points(points, d)
    ensures |Members(points, close, c, d)| == multiset(close)[c]
  {
    if points != [] {
      assert close == [close[0]] + close[1..];
      MemberCount(points[1..], close[1..], c, d);
    }
  }

  ghost predicate Twice(xs: seq<nat>, x: nat) {
    exists i, j :: 0 <= i < j < |xs| && xs[i] == x && xs[j] == x
  }

  lemma {:induction false} TwoOfAKind(xs: seq<nat>, x: nat)
    ensures multiset(xs)[x] >= 2 <==> Twice(xs, x)
  {
    if xs != [] {
      var rest := xs[1..];
      assert xs == [xs[0]] + rest;
      TwoOfAKind(rest, x);
      if i, j :| 0 <= i < j < |rest| && rest[i] == x && rest[j] == x { assert xs[i + 1] == x && xs[j + 1] == x; }
      if i, j :| 0 <= i < j < |xs| && xs[i] == x && xs[j] == x {
        assert rest[j - 1] == x;
        if i > 0 { assert rest[i - 1] == x; }
      }
      if xs[0] == x && x in rest {
        var j :| 0 <= j < |rest| && rest[j] == x;
        assert xs[j + 1] == x;
      }
    }
  }

  /** Some two points have the same nearest centre. */
  ghost predicate TwoTogether(points: Matrix, centres: Matrix, d: nat)
    requires Points(points, d) && Centres(centres, d)
  {
    exists i, j :: 0 <= i < j < |points| && Nearest(points[i], centres) == Nearest(points[j], centres)
  }

  /** A partial sum stops exactly with one column and two points that have the same nearest centre. */
  lemma SumStopsIff(fragment: Matrix, centres: Matrix, d: nat)
    requires Points(fragment, d) && Centres(centres, d)
    ensures SumStops(fragment, centres, d) <==> d == 1 && TwoTogether(fragment, centres, d)
  {
    hide Members, Nearest;
    var close := CloseCentres(fragment, centres, d);
    forall c: nat | c < |centres|
      ensures |Members(fragment, close, c, d)| >= 2 <==> Twice(close, c)
    {
      MemberCount(fragment, close, c, d);
      TwoOfAKind(close, c);
    }
    if i, j :| 0 <= i < j < |fragment| && Nearest(fragment[i], centres) == Nearest(fragment[j], centres) {
      assert close[i] == close[j] < |centres|;
      assert |Members(fragment, close, close[i], d)| >= 2;
    }
  }

  ghost predicate NearestToSome(points: Matrix, centres: Matrix, c: nat, d: nat)
    requires Points(points, d) && Centres(centres, d)
  {
    exists i :: 0 <= i < |points| && Nearest(points[i], centres) == c
  }

  /** An iteration leaves a bare vector exactly with one centre or column, when every centre is the
      nearest one of some point. */
  lemma BareAfterIff(fs: seq<Matrix>, prev: Matrix, d: nat)
    requires Fragments(fs, d) && Centres(prev, d)
    ensures Points(Stack(fs), d)
    ensures BareAfter(fs, prev, d) <==>
            (|prev| == 1 || d == 1) && forall c: nat | c < |prev| :: NearestToSome(Stack(fs), prev, c, d)
  {
    hide PartialSum, Stack, NearestToSome;
    StackedPoints(fs, d);
    forall c: nat | c < |prev|
      ensures PartialSum(Stack(fs), prev, d)[c][d] != 0.0 <==> NearestToSome(Stack(fs), prev, c, d)
    {
      CountedIffNearest(Stack(fs), prev, c, d);
    }
  }

  lemma CountedIffNearest(points: Matrix, centres: Matrix, c: nat, d: nat)
    requires Points(points, d) && Centres(centres, d) && c < |centres|
    ensures PartialSum(points, centres, d)[c][d] != 0.0 <==> NearestToSome(points, centres, c, d)
  {
    hide Members, Nearest, PartialSum, ColSums;
    var close := CloseCentres(points, centres, d);
    PartialSumRow(points, centres, d, c);
    MemberCount(points, close, c, d);
    if c in close {
      var i :| 0 <= i < |close| && close[i] == c;
      assert Nearest(points[i], centres) == c;
    }
    if i :| 0 <= i < |points| && Nearest(points[i], centres) == c { assert close[i] == c; }
  }

  /** The loop body: all partials, the tree merge, the new centres. None is a stop. */
  method Iterate(fs: seq<Matrix>, prev: Matrix, bare: bool, d: nat, arity: nat) returns (r: Option<(Matrix, bool)>)
    requires Centres(prev, d) && Fragments(fs, d) && fs != [] && arity >= 2
    ensures Points(Stack(fs), d) && (r.None? <==> IterationStops(fs, prev, bare, d))
    ensures r.Some? ==>
              && Shaped(r.value.0, |prev|, d) && (r.value.1 <==> BareAfter(fs, prev, d))
              && Recentred(PartialSum(Stack(fs), prev, d), r.value.0, d)
              && Wcss(Stack(fs), r.value.0, d) <= Wcss(Stack(fs), prev, d)
  {
    hide Recentred, Stack, Wcss, TreeSum, PartialSum, Partials, LosesShape, SumStops;
    StackedPoints(fs, d);
    var partials := PartialsOf(fs, prev, bare, d);
    if partials.None? { return None; }
    MergedPartialIsWhole(fs, prev, d, arity);
    var centres, lost := RecomputeCentres(partials.value, prev, d, arity);
    LloydDescent(fs, prev, centres, d, arity);
    r := Some((centres, lost));
  }

  /** The loop over the fragments. */
  method PartialsOf(fs: seq<Matrix>, centres: Matrix, bare: bool, d: nat) returns (r: Option<seq<Matrix>>)
    requires Fragments(fs, d) && Centres(centres, d) && fs != []
    ensures r == if IterationStops(fs, centres, bare, d) then None else Some(Partials(fs, centres, d))
  {
    hide SumStops, PartialSum;
    var partials := [];
    for i := 0 to |fs|
      invariant partials + Partials(fs[i..], centres, d) == Partials(fs, centres, d)
      invariant i > 0 ==> !bare
      invariant forall j | 0 <= j < i :: !SumStops(fs[j], centres, d)
    {
      var p := PartialSumTask(fs[i], centres, bare, d);
      if p.None? { return None; }
      assert fs[i..][1..] == fs[i + 1..];
      partials := partials + [p.value];
    }
    assert fs[|fs|..] == [] && partials + [] == partials;
    r := Some(partials);
  }

  /** What `kmeans_frag` returns, with whether the centres are a bare vector. */
  datatype Run = Run(centres: Matrix, bare: bool, numIter: nat, converged: bool)

  /** Whether the centres in front of iteration `i` are a bare vector; the initial ones are not. */
  ghost predicate BareAt(fs: seq<Matrix>, h: seq<Matrix>, i: nat, d: nat, k: nat)
    requires Fragments(fs, d) && k > 0 && i < |h| && forall j | 0 <= j < |h| :: Shaped(h[j], k, d)
  {
    i > 0 &&
    assert Shaped(h[i - 1], k, d);
    BareAfter(fs, h[i - 1], d)
  }

  /** The centres of iterations that went through. */
  ghost predicate WentThrough(fs: seq<Matrix>, h: seq<Matrix>, d: nat, k: nat)
    requires Fragments(fs, d)
  {
    && k > 0 && (forall j | 0 <= j < |h| :: Shaped(h[j], k, d))
    && forall i: nat | i < |h| - 1 :: !IterationStops(fs, h[i], BareAt(fs, h, i, d, k), d)
  }

  lemma WentThroughExtends(fs: seq<Matrix>, h: seq<Matrix>, d: nat, k: nat, next: Matrix)
    requires Fragments(fs, d) && h != [] && WentThrough(fs, h, d, k) && Shaped(next, k, d)
    requires !IterationStops(fs, h[|h| - 1], BareAt(fs, h, |h| - 1, d, k), d)
    ensures WentThrough(fs, h + [next], d, k)
  {
    hide IterationStops, BareAfter;
    var t := h + [next];
    forall i: nat | i < |t| - 1 ensures !IterationStops(fs, t[i], BareAt(fs, t, i, d, k), d) {
      assert t[i] == h[i] && (i > 0 ==> t[i - 1] == h[i - 1]);
      assert BareAt(fs, t, i, d, k) == BareAt(fs, h, i, d, k);
    }
  }

  /** The new centres when no cluster is empty. */
  function Means(partials: Matrix, d: nat): (m: Matrix)
    requires (forall c | 0 <= c < |partials| :: |partials[c]| == d + 1) && NoneEmpty(partials, d)
    ensures Shaped(m, |partials|, d)
    ensures forall c | 0 <= c < |partials| :: m[c] == Divide(partials[c][..d], partials[c][d])
  {
    seq(|partials|, c requires 0 <= c < |partials| => Divide(partials[c][..d], partials[c][d]))
  }

  /** A run whose first iteration leaves a bare vector goes through if that iteration does and no
      second one is needed. */
  ghost predicate BareGoesThrough(initial: Matrix, fs: seq<Matrix>, d: nat, iterations: nat, epsilon: real)
    requires Centres(initial, d) && Fragments(fs, d) && BareAfter(fs, initial, d)
  {
    StackedPoints(fs, d);
    var means := Means(PartialSum(Stack(fs), initial, d), d);
    iterations == 0 ||
    (!IterationStops(fs, initial, false, d) && (iterations == 1 || Near(means, initial, d, epsilon)))
  }

  function Mean(points: Matrix, d: nat): Vec
    requires Points(points, d) && points != []
  {
    Divide(ColSums(points, d), |points| as real)
  }

  /** A run with one centre goes through if it needs no second iteration. */
  ghost predicate OneCentreGoesThrough(initial: Matrix, fs: seq<Matrix>, d: nat, iterations: nat, epsilon: real)
    requires Centres(initial, d) && |initial| == 1 && Fragments(fs, d) && Stack(fs) != []
  {
    StackedPoints(fs, d);
    iterations <= 1 || Near([Mean(Stack(fs), d)], initial, d, epsilon)
  }

  /** `history` lists the centres after every iteration that went through, the initial ones first.
      None is a stop, in the iteration from the last of them. A run of two or more centres and two
      or more columns goes through. When the first iteration leaves a bare vector, the run goes
      through if and only if that iteration does and is enough; with one centre and two or more
      columns the only question is whether it is enough. */
  method KmeansFrag(initial: Matrix, fs: seq<Matrix>, d: nat, iterations: nat, epsilon: real, arity: nat)
    returns (r: Option<Run>, ghost history: seq<Matrix>)
    requires Centres(initial, d) && Fragments(fs, d) && fs != [] && arity >= 2
    ensures history != [] && history[0] == initial && WentThrough(fs, history, d, |initial|)
    ensures Trajectory(Stack(fs), history, d, |initial|)
    ensures r.Some? ==>
              var (c, n) := (r.value.centres, r.value.numIter);
              && n <= iterations && (r.value.converged || n == iterations)
              && |history| == n + 1 && history[n] == c
              && (r.value.bare <==> BareAt(fs, history, n, d, |initial|))
              && StopsOnConvergence(history, d, |initial|, epsilon, r.value.converged)
              && Centres(c, d) && Wcss(Stack(fs), c, d) <= Wcss(Stack(fs), initial, d)
    ensures r.None? ==>
              var n := |history| - 1;
              && n < iterations && StopsOnConvergence(history, d, |initial|, epsilon, false)
              && IterationStops(fs, history[n], BareAt(fs, history, n, d, |initial|), d)
    ensures d >= 2 && |initial| >= 2 ==> r.Some?
    ensures BareAfter(fs, initial, d) ==> (r.Some? <==> BareGoesThrough(initial, fs, d, iterations, epsilon))
    ensures d >= 2 && |initial| == 1 && Stack(fs) != [] ==>
              (r.Some? <==> OneCentreGoesThrough(initial, fs, d, iterations, epsilon))
    ensures iterations > 0 && (exists i | 0 <= i < |fs| :: SumStops(fs[i], initial, d)) ==> r.None?
  {
    hide Recentred, Converged, Near, Partials, Stack, Wcss, PartialSum, IterationStops, BareAfter, WentThrough;
    hide BareGoesThrough, OneCentreGoesThrough, SumStops;
    StackedPoints(fs, d);
    var centres, bare, iteration, converged := initial, false, 0, false;
    history := [initial];
    StartsThrough(fs, initial, d);
    while !converged && iteration < iterations
      invariant iteration <= iterations
      invariant |history| == iteration + 1 && history[0] == initial && history[iteration] == centres
      invariant Trajectory(Stack(fs), history, d, |initial|)
      invariant WentThrough(fs, history, d, |initial|)
      invariant bare <==> BareAt(fs, history, iteration, d, |initial|)
      invariant StopsOnConvergence(history, d, |initial|, epsilon, converged)
      invariant Wcss(Stack(fs), centres, d) <= Wcss(Stack(fs), initial, d)
      decreases iterations - iteration
    {
      var prev := centres;
      var next := Iterate(fs, prev, bare, d, arity);
      if next.None? {
        r := None;
        WhenItStops(fs, history, d, iterations, epsilon);
        return;
      }
      WentThroughExtends(fs, history, d, |initial|, next.value.0);
      centres, bare := next.value.0, next.value.1;
      iteration := iteration + 1;
      converged := Converged(prev, centres, d, epsilon);
      ConvergedIff(prev, centres, d, epsilon);
      TrajectoryExtends(Stack(fs), history, d, |initial|, centres);
      ghost var earlier := history;
      history := history + [centres];
      assert forall i | 0 < i < |earlier| ::
          Settled(history, i, d, |initial|, epsilon) == Settled(earlier, i, d, |initial|, epsilon);
    }
    r := Some(Run(centres, bare, iteration, converged));
    WhenItGoesThrough(fs, history, d, iterations, epsilon, converged);
  }

  lemma StartsThrough(fs: seq<Matrix>, initial: Matrix, d: nat)
    requires Fragments(fs, d) && Centres(initial, d)
    ensures WentThrough(fs, [initial], d, |initial|)
  {
  }

  /** With one centre the first iteration yields the mean of all the points, as a bare vector. */
  lemma OneCentre(fs: seq<Matrix>, initial: Matrix, next: Matrix, d: nat)
    requires Fragments(fs, d) && Centres(initial, d) && |initial| == 1 && Stack(fs) != []
    ensures Points(Stack(fs), d) && BareAfter(fs, initial, d)
    ensures Recentred(PartialSum(Stack(fs), initial, d), next, d) ==> next == [Mean(Stack(fs), d)]
  {
    hide PartialSum, Members, CloseCentres, Divide, ColSums;
    StackedPoints(fs, d);
    var points := Stack(fs);
    PartialSumRow(points, initial, d, 0);
    AllAreMembers(points, CloseCentres(points, initial, d), d) by { OneCentreIsClosest(points, initial, d); }
  }

  lemma {:induction false} OneCentreIsClosest(points: Matrix, centres: Matrix, d: nat)
    requires Points(points, d) && Centres(centres, d) && |centres| == 1
    ensures forall i | 0 <= i < |points| :: CloseCentres(points, centres, d)[i] == 0
  {
    if points != [] { OneCentreIsClosest(points[1..], centres, d); }
  }

  lemma {:induction false} AllAreMembers(points: Matrix, close: seq<nat>, d: nat)
    requires |close| == |points| && Points(points, d) && forall i | 0 <= i < |close| :: close[i] == 0
    ensures Members(points, close, 0, d) == points
  {
    if points != [] { AllAreMembers(points[1..], close[1..], d); }
  }

  /** Two columns keep every sum going, and with two centres as well no shape is lost. */
  lemma NoStop(fs: seq<Matrix>, centres: Matrix, d: nat)
    requires Fragments(fs, d) && Centres(centres, d) && d >= 2
    ensures !IterationStops(fs, centres, false, d)
    ensures |centres| >= 2 ==> !BareAfter(fs, centres, d)
  {
    StackedPoints(fs, d);
  }

  /** With one centre and two columns or more, what `BareGoesThrough` asks comes down to one test. */
  lemma OneCentreIsBare(fs: seq<Matrix>, initial: Matrix, d: nat, iterations: nat, epsilon: real)
    requires Fragments(fs, d) && Centres(initial, d) && |initial| == 1 && Stack(fs) != [] && d >= 2
    ensures BareAfter(fs, initial, d)
    ensures BareGoesThrough(initial, fs, d, iterations, epsilon) <==>
            OneCentreGoesThrough(initial, fs, d, iterations, epsilon)
  {
    hide PartialSum, Divide, ColSums, Mean, Near, IterationStops;
    StackedPoints(fs, d);
    var p := PartialSum(Stack(fs), initial, d);
    OneCentre(fs, initial, [], d);
    OneCentre(fs, initial, Means(p, d), d);
    NoStop(fs, initial, d);
  }

  lemma RecentredIsMeans(partials: Matrix, next: Matrix, d: nat)
    requires Shaped(partials, |partials|, d + 1) && NoneEmpty(partials, d) && Recentred(partials, next, d)
    ensures next == Means(partials, d)
  {
  }

  lemma WhenItStops(fs: seq<Matrix>, h: seq<Matrix>, d: nat, iterations: nat, epsilon: real)
    requires h != [] && Centres(h[0], d) && Fragments(fs, d) && WentThrough(fs, h, d, |h[0]|)
    requires |h| <= iterations && StopsOnConvergence(h, d, |h[0]|, epsilon, false)
    requires Trajectory(Stack(fs), h, d, |h[0]|)
    requires IterationStops(fs, h[|h| - 1], BareAt(fs, h, |h| - 1, d, |h[0]|), d)
    ensures d >= 2 ==> |h[0]| == 1
    ensures BareAfter(fs, h[0], d) ==> !BareGoesThrough(h[0], fs, d, iterations, epsilon)
    ensures d >= 2 && |h[0]| == 1 && Stack(fs) != [] ==> !OneCentreGoesThrough(h[0], fs, d, iterations, epsilon)
  {
    hide Recentred, Converged, Near, Stack, Wcss, PartialSum, IterationStops, Means, OneCentreGoesThrough;
    if d >= 2 {
      NoStop(fs, h[|h| - 1], d);
      assert BareAt(fs, h, |h| - 1, d, |h[0]|);
      NoStop(fs, h[|h| - 2], d);
    }
    if d >= 2 && |h[0]| == 1 && Stack(fs) != [] { OneCentreIsBare(fs, h[0], d, iterations, epsilon); }
    if BareAfter(fs, h[0], d) && |h| >= 2 {
      RecentredIsMeans(PartialSum(Stack(fs), h[0], d), h[1], d);
      assert !Settled(h, 1, d, |h[0]|, epsilon);
    }
  }

  lemma WhenItGoesThrough(fs: seq<Matrix>, h: seq<Matrix>, d: nat, iterations: nat, epsilon: real, converged: bool)
    requires h != [] && Centres(h[0], d) && Fragments(fs, d) && WentThrough(fs, h, d, |h[0]|)
    requires Trajectory(Stack(fs), h, d, |h[0]|)
    requires |h| - 1 <= iterations && (converged || |h| - 1 == iterations)
    requires StopsOnConvergence(h, d, |h[0]|, epsilon, converged)
    ensures BareAfter(fs, h[0], d) ==> BareGoesThrough(h[0], fs, d, iterations, epsilon)
    ensures d >= 2 && |h[0]| == 1 && Stack(fs) != [] ==> OneCentreGoesThrough(h[0], fs, d, iterations, epsilon)
    ensures iterations > 0 ==> forall i | 0 <= i < |fs| :: !SumStops(fs[i], h[0], d)
  {
    hide Recentred, Converged, Near, Stack, Wcss, PartialSum, SumStops, Means, OneCentreGoesThrough;
    if iterations > 0 {
      assert |h| >= 2;
      assert !IterationStops(fs, h[0], BareAt(fs, h, 0, d, |h[0]|), d);
    }
    if d >= 2 && |h[0]| == 1 && Stack(fs) != [] { OneCentreIsBare(fs, h[0], d, iterations, epsilon); }
    if BareAfter(fs, h[0], d) && iterations > 1 {
      RecentredIsMeans(PartialSum(Stack(fs), h[0], d), h[1], d);
      assert |h| > 2 ==> !IterationStops(fs, h[1], BareAt(fs, h, 1, d, |h[0]|), d);
      assert Settled(h, 1, d, |h[0]|, epsilon);
    }
  }

  /** One centre at the origin and one point beside it: the second iteration is needed. */
  lemma OneCentreNeedsASecondIteration()
    ensures var initial, fs := [[0.0, 0.0]], [[[2.0, 2.0]]];
            && Centres(initial, 2) && Fragments(fs, 2) && Stack(fs) != []
            && !OneCentreGoesThrough(initial, fs, 2, 2, 1.0)
  {
    var initial, fs := [[0.0, 0.0]], [[[2.0, 2.0]]];
    var points := [[2.0, 2.0]];
    assert fs[1..] == [] && Stack([]) == [];
    assert Stack(fs) == points + [] == points;
    assert points[1..] == [] && ColSums([], 2) == [0.0] + ([0.0] + []);
    assert ColSums(points, 2) == [2.0, 2.0];
    assert Divide([], 1.0) == [] && Divide([2.0], 1.0) == [2.0] && Divide([2.0, 2.0], 1.0) == [2.0, 2.0];
    assert Mean(points, 2) == [2.0, 2.0];
    var next := [[2.0, 2.0]];
    assert next[1..] == [] && initial[1..] == [];
    assert SqDist(next[0], initial[0]) == 8.0;
    assert TotalSqDist(next, initial, 2) == 8.0;
    ConvergedIff(initial, next, 2, 1.0);
  }

  /** Two points in one column, nearest to one centre: `colSums` stops the partial sum. */
  lemma OneColumnStops()
    ensures var fragment, centres := [[0.0], [0.0]], [[0.0], [1.0]];
            Points(fragment, 1) && Centres(centres, 1) && SumStops(fragment, centres, 1)
  {
    var fragment, centres := [[0.0], [0.0]], [[0.0], [1.0]];
    var close := CloseCentres(fragment, centres, 1);
    assert close[0] == close[1] by { assert fragment[1..][0] == fragment[0]; }
    AllAreMembers(fragment, close, 1);
  }
}
