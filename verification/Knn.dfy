/** Fragmented k-nearest-neighbour classification. A training row holds `dims` coordinates and a
    label; a result matrix has one row per test point, k distances and then k labels. */
module Knn {
  import opened LinearAlgebra
  import opened Nearest
  import opened TreeReduction

  // ---------- Foreign code ----------

  /** The metric of the search and the search itself (`RANN::nn2`, with zero-based positions). */
  type Metric = (Vec, Vec) -> real
  type Search = (Matrix, Vec, nat) -> seq<nat>

  function Distances(data: Matrix, x: Vec, dist: Metric): (ds: seq<real>)
    ensures |ds| == |data| && forall i | 0 <= i < |data| :: ds[i] == dist(x, data[i])
  {
    seq(|data|, i requires 0 <= i < |data| => dist(x, data[i]))
  }

  ghost predicate Distinct(ix: seq<nat>) {
    forall i, j | 0 <= i < j < |ix| :: ix[i] != ix[j]
  }

  ghost predicate FindsNearest(ix: seq<nat>, ds: seq<real>, k: nat) {
    && |ix| == k && InBounds(ix, |ds|) && Distinct(ix) && Ascending(ds, ix)
    && forall j, i | 0 <= j < |ds| && j !in ix && 0 <= i < k :: ds[ix[i]] <= ds[j]
  }

  /** All that is asked of the search: on at least k points it returns k different ones in order
      of distance, and no point left out is nearer than one returned. */
  ghost predicate Exact(nn: Search, dist: Metric) {
    forall data: Matrix, x: Vec, k: nat | k <= |data| :: FindsNearest(nn(data, x, k), Distances(data, x, dist), k)
  }

  /** A search that meets this for any metric: sort all the points and keep the first k. */
  function FullSort(dist: Metric): Search {
    (data, x, k) => LeastPositions(Distances(data, x, dist), k)
  }

  function LeastPositions(ds: seq<real>, k: nat): seq<nat> {
    var order := Order(ds, |ds|);
    if k <= |ds| then order[..k] else order
  }

  lemma FullSortIsExact(dist: Metric)
    ensures Exact(FullSort(dist), dist)
  {
    hide LeastPositions, FindsNearest;
    forall data: Matrix, x: Vec, k: nat | k <= |data|
      ensures FindsNearest(FullSort(dist)(data, x, k), Distances(data, x, dist), k)
    {
      LeastPositionsFound(Distances(data, x, dist), k);
    }
  }

  lemma LeastPositionsFound(ds: seq<real>, k: nat)
    requires k <= |ds|
    ensures FindsNearest(LeastPositions(ds, k), ds, k)
  {
    hide Order;
    var order := Order(ds, |ds|);
    OrderAscends(ds, |ds|);
    OrderPermutes(ds, |ds|);
    assert order == order[..k] + order[k..];
    forall j: nat, i | j < |ds| && j !in order[..k] && 0 <= i < k
      ensures ds[order[i]] <= ds[j]
    {
      assert j in order;
      var m :| 0 <= m < |order[k..]| && order[k..][m] == j;
    }
  }

  /** The order holds every position below n once. */
  lemma {:induction false} OrderPermutes(ds: seq<real>, n: nat)
    requires n <= |ds|
    ensures Distinct(Order(ds, n)) && forall j: nat :: j in Order(ds, n) <==> j < n
  {
    if n > 0 {
      OrderPermutes(ds, n - 1);
      InsertKeepsDistinct(ds, Order(ds, n - 1), n - 1);
    }
  }

  lemma {:induction false} InsertKeepsDistinct(ds: seq<real>, ix: seq<nat>, j: nat)
    requires j < |ds| && InBounds(ix, |ds|) && Distinct(ix) && j !in ix
    ensures Distinct(Insert(ds, ix, j)) && forall x: nat :: x in Insert(ds, ix, j) <==> x == j || x in ix
  {
    if ix != [] && ds[j] >= ds[ix[0]] {
      InsertKeepsDistinct(ds, ix[1..], j);
      assert ix == [ix[0]] + ix[1..] && ix[0] !in ix[1..];
      assert Insert(ds, ix, j)[1..] == Insert(ds, ix[1..], j);
    }
  }

  // ---------- One training fragment ----------

  ghost predicate Training(train: Matrix, dims: nat) {
    Shaped(train, |train|, dims + 1)
  }

  function Coordinates(m: Matrix, dims: nat): (r: Matrix)
    requires forall i | 0 <= i < |m| :: dims <= |m[i]|
    ensures |r| == |m| && forall i | 0 <= i < |m| :: r[i] == m[i][..dims]
  {
    seq(|m|, i requires 0 <= i < |m| => m[i][..dims])
  }

  function Labels(train: Matrix, dims: nat): (r: seq<real>)
    requires forall i | 0 <= i < |train| :: dims < |train[i]|
    ensures |r| == |train| && forall i | 0 <= i < |train| :: r[i] == train[i][dims]
  {
    seq(|train|, i requires 0 <= i < |train| => train[i][dims])
  }

  /** All (distance, label) pairs that a training set offers to the test point `x`. */
  ghost function Offers(train: Matrix, x: Vec, dims: nat, dist: Metric): (ps: seq<Pair>)
    requires Training(train, dims)
    ensures |ps| == |train|
    ensures forall i | 0 <= i < |train| :: ps[i] == Pair(dist(x, train[i][..dims]), train[i][dims])
  {
    seq(|train|, i requires 0 <= i < |train| => Pair(dist(x, train[i][..dims]), train[i][dims]))
  }

  function FragRow(train: Matrix, x: Vec, k: nat, dims: nat, nn: Search, dist: Metric): (row: seq<real>)
    requires Training(train, dims) && k <= |train| && Exact(nn, dist)
    ensures |row| == 2 * k
  {
    var data := Coordinates(train, dims);
    var ix := nn(data, x, k);
    assert FindsNearest(ix, Distances(data, x, dist), k);
    Gather(Distances(data, x, dist), ix) + Gather(Labels(train, dims), ix)
  }

  // Choosing distinct positions splits the multiset of pairs.

  ghost function Picked(ps: seq<Pair>, at: set<nat>, n: nat): multiset<Pair>
    requires n <= |ps|
  {
    if n == 0 then multiset{} else
    Picked(ps, at, n - 1) + (if n - 1 in at then multiset{ps[n - 1]} else multiset{})
  }

  ghost function Skipped(ps: seq<Pair>, at: set<nat>, n: nat): multiset<Pair>
    requires n <= |ps|
  {
    if n == 0 then multiset{} else
    Skipped(ps, at, n - 1) + (if n - 1 in at then multiset{} else multiset{ps[n - 1]})
  }

  lemma {:induction false} PickedAndSkipped(ps: seq<Pair>, at: set<nat>, n: nat)
    requires n <= |ps|
    ensures Picked(ps, at, n) + Skipped(ps, at, n) == multiset(ps[..n])
  {
    if n > 0 {
      PickedAndSkipped(ps, at, n - 1);
      PickStep(ps, at, n);
      hide Picked, Skipped;
      OneMoreOnEitherSide(Picked(ps, at, n - 1), Skipped(ps, at, n - 1), multiset(ps[..n - 1]), ps[n - 1]);
    }
  }

  lemma PickStep(ps: seq<Pair>, at: set<nat>, n: nat)
    requires 0 < n <= |ps|
    ensures multiset(ps[..n]) == multiset(ps[..n - 1]) + multiset{ps[n - 1]}
    ensures n - 1 in at ==> Picked(ps, at, n) == Picked(ps, at, n - 1) + multiset{ps[n - 1]}
    ensures n - 1 in at ==> Skipped(ps, at, n) == Skipped(ps, at, n - 1)
    ensures n - 1 !in at ==> Skipped(ps, at, n) == Skipped(ps, at, n - 1) + multiset{ps[n - 1]}
    ensures n - 1 !in at ==> Picked(ps, at, n) == Picked(ps, at, n - 1)
  {
    assert ps[..n] == ps[..n - 1] + [ps[n - 1]];
  }

  lemma OneMoreOnEitherSide(a: multiset<Pair>, b: multiset<Pair>, all: multiset<Pair>, p: Pair)
    requires a + b == all
    ensures (a + multiset{p}) + b == all + multiset{p} == a + (b + multiset{p})
  {
  }

  lemma {:induction false} PickOneMore(ps: seq<Pair>, at: set<nat>, j: nat, n: nat)
    requires n <= |ps| && j !in at && j < |ps|
    ensures Picked(ps, at + {j}, n) == Picked(ps, at, n) + (if j < n then multiset{ps[j]} else multiset{})
  {
    if n > 0 {
      PickOneMore(ps, at, j, n - 1);
      assert n - 1 in at + {j} <==> n - 1 in at || n - 1 == j;
    }
  }

  lemma {:induction false} PickNone(ps: seq<Pair>, n: nat)
    requires n <= |ps|
    ensures Picked(ps, {}, n) == multiset{}
  {
    if n > 0 { PickNone(ps, n - 1); }
  }

  ghost function SetOf(ix: seq<nat>): set<nat> {
    set i | i in ix
  }

  lemma SetOfSnoc(ix: seq<nat>, j: nat)
    requires j !in ix
    ensures SetOf(ix + [j]) == SetOf(ix) + {j} && j !in SetOf(ix)
  {
  }

  lemma {:induction false} GatherPicks(ps: seq<Pair>, ix: seq<nat>)
    requires InBounds(ix, |ps|) && Distinct(ix)
    ensures multiset(Gather(ps, ix)) == Picked(ps, SetOf(ix), |ps|)
    decreases |ix|
  {
    hide Picked, SetOf;
    if ix == [] {
      PickNone(ps, |ps|);
      assert SetOf(ix) == {} by { SetOfNone(); }
    } else {
      var front, j := ix[..|ix| - 1], ix[|ix| - 1];
      assert ix == front + [j];
      GatherPicks(ps, front);
      SetOfSnoc(front, j);
      PickOneMore(ps, SetOf(front), j, |ps|);
      GatherSnoc(ps, front, j);
    }
  }

  lemma SetOfNone()
    ensures SetOf([]) == {}
  {
  }

  lemma GatherSnoc(ps: seq<Pair>, ix: seq<nat>, j: nat)
    requires InBounds(ix, |ps|) && j < |ps|
    ensures InBounds(ix + [j], |ps|)
    ensures multiset(Gather(ps, ix + [j])) == multiset(Gather(ps, ix)) + multiset{ps[j]}
  {
    assert Gather(ps, ix + [j]) == Gather(ps, ix) + [ps[j]];
  }

  lemma {:induction false} SkippedElsewhere(ps: seq<Pair>, at: set<nat>, n: nat, p: Pair) returns (j: nat)
    requires n <= |ps| && p in Skipped(ps, at, n)
    ensures j < n && j !in at && ps[j] == p
  {
    if n - 1 !in at && ps[n - 1] == p {
      j := n - 1;
    } else {
      j := SkippedElsewhere(ps, at, n - 1, p);
    }
  }

  lemma ChosenAreNearest(ps: seq<Pair>, ix: seq<nat>, ds: seq<real>, k: nat)
    requires |ps| == |ds| && FindsNearest(ix, ds, k) && forall i | 0 <= i < |ps| :: ps[i].dist == ds[i]
    ensures KNearest(Gather(ps, ix), multiset(ps), k)
  {
    hide Picked, Skipped;
    var at := SetOf(ix);
    GatherPicks(ps, ix);
    PickedAndSkipped(ps, at, |ps|);
    assert ps[..|ps|] == ps;
    forall p, i | p in multiset(ps) - multiset(Gather(ps, ix)) && 0 <= i < k
      ensures Gather(ps, ix)[i].dist <= p.dist
    {
      assert p in Skipped(ps, at, |ps|);
      var j := SkippedElsewhere(ps, at, |ps|, p);
      assert j !in ix;
    }
  }

  /** The `KNN_frag` row of a test point is a k-nearest row of what the fragment offers. */
  lemma FragRowIsNearest(train: Matrix, x: Vec, k: nat, dims: nat, nn: Search, dist: Metric)
    requires Training(train, dims) && k <= |train| && Exact(nn, dist)
    ensures KNearest(Pairs(FragRow(train, x, k, dims, nn, dist), k), multiset(Offers(train, x, dims, dist)), k)
  {
    var data := Coordinates(train, dims);
    var ix, ds, ps := nn(data, x, k), Distances(data, x, dist), Offers(train, x, dims, dist);
    assert FindsNearest(ix, ds, k);
    ChosenAreNearest(ps, ix, ds, k);
    assert Pairs(FragRow(train, x, k, dims, nn, dist), k) == Gather(ps, ix);
  }

  // ---------- All training fragments ----------

  ghost predicate Trainings(ts: seq<Matrix>, dims: nat, k: nat) {
    forall i | 0 <= i < |ts| :: Training(ts[i], dims) && k <= |ts[i]|
  }

  ghost function OfferSets(ts: seq<Matrix>, x: Vec, dims: nat, k: nat, dist: Metric): (ms: seq<multiset<Pair>>)
    requires Trainings(ts, dims, k)
    ensures |ms| == |ts|
  {
    if ts == [] then [] else [multiset(Offers(ts[0], x, dims, dist))] + OfferSets(ts[1..], x, dims, k, dist)
  }

  lemma {:induction false} OffersOfStack(ts: seq<Matrix>, x: Vec, dims: nat, k: nat, dist: Metric)
    requires Trainings(ts, dims, k)
    ensures Training(Stack(ts), dims)
    ensures SumSets(OfferSets(ts, x, dims, k, dist)) == multiset(Offers(Stack(ts), x, dims, dist))
  {
    if ts == [] {
      assert Offers(Stack(ts), x, dims, dist) == [];
    } else {
      OffersOfStack(ts[1..], x, dims, k, dist);
      assert Offers(Stack(ts), x, dims, dist) == Offers(ts[0], x, dims, dist) + Offers(Stack(ts[1..]), x, dims, dist);
      assert OfferSets(ts, x, dims, k, dist)[1..] == OfferSets(ts[1..], x, dims, k, dist);
    }
  }

  ghost function FragRows(ts: seq<Matrix>, x: Vec, k: nat, dims: nat, nn: Search, dist: Metric): (q: seq<seq<real>>)
    requires Trainings(ts, dims, k) && Exact(nn, dist)
    ensures |q| == |ts|
  {
    if ts == [] then [] else [FragRow(ts[0], x, k, dims, nn, dist)] + FragRows(ts[1..], x, k, dims, nn, dist)
  }

  lemma {:induction false} FragRowsAreNearest(ts: seq<Matrix>, x: Vec, k: nat, dims: nat, nn: Search, dist: Metric)
    requires Trainings(ts, dims, k) && Exact(nn, dist)
    ensures AllNearest(FragRows(ts, x, k, dims, nn, dist), OfferSets(ts, x, dims, k, dist), k)
  {
    hide KNearest, FragRow, Offers;
    if ts != [] {
      FragRowIsNearest(ts[0], x, k, dims, nn, dist);
      FragRowsAreNearest(ts[1..], x, k, dims, nn, dist);
    }
  }

  /** The reduced row of a test point lists k nearest of everything the whole training data offers. */
  lemma ReducedRowIsNearest(ts: seq<Matrix>, x: Vec, k: nat, dims: nat, arity: nat, nn: Search, dist: Metric)
    requires Trainings(ts, dims, k) && Exact(nn, dist) && ts != [] && arity >= 2
    ensures Training(Stack(ts), dims)
    ensures var r := Total(FragRows(ts, x, k, dims, nn, dist), arity, Merger(k));
            |r| == 2 * k && KNearest(Pairs(r, k), multiset(Offers(Stack(ts), x, dims, dist)), k)
  {
    hide KNearest, Total, Offers, FragRows;
    FragRowsAreNearest(ts, x, k, dims, nn, dist);
    TotalIsNearest(FragRows(ts, x, k, dims, nn, dist), OfferSets(ts, x, dims, k, dist), arity, k);
    OffersOfStack(ts, x, dims, k, dist);
  }

  // ---------- Matrices: the same, test point by test point ----------

  ghost predicate Results(q: seq<Matrix>, n: nat, k: nat) {
    forall i | 0 <= i < |q| :: Shaped(q[i], n, 2 * k)
  }

  function RowsAt(q: seq<Matrix>, t: nat): (rows: seq<seq<real>>)
    requires forall i | 0 <= i < |q| :: t < |q[i]|
    ensures |rows| == |q| && forall i | 0 <= i < |q| :: rows[i] == q[i][t]
  {
    seq(|q|, i requires 0 <= i < |q| => q[i][t])
  }

  /** `KNN_merge` as a total function of the queue, for matrices of `n` rows. */
  ghost function MatrixMerger(n: nat, k: nat): seq<Matrix> -> Matrix {
    q => if q != [] && Results(q, n, k)
         then seq(n, t requires 0 <= t < n && Results(q, n, k) => Merger(k)(RowsAt(q, t))) else []
  }

  lemma MatrixMergerRow(q: seq<Matrix>, n: nat, k: nat, t: nat)
    requires q != [] && Results(q, n, k) && t < n
    ensures Shaped(MatrixMerger(n, k)(q), n, 2 * k) && MatrixMerger(n, k)(q)[t] == Merger(k)(RowsAt(q, t))
  {
    var m := MatrixMerger(n, k)(q);
    forall s | 0 <= s < n
      ensures m[s] == Merger(k)(RowsAt(q, s)) && |m[s]| == 2 * k
    {
      assert Rows(RowsAt(q, s), k);
    }
  }

  /** Row `t` of the matrix reduction is the reduction of the rows `t`. */
  lemma {:induction false} TotalRow(q: seq<Matrix>, n: nat, k: nat, arity: nat, t: nat)
    requires q != [] && Results(q, n, k) && t < n && arity >= 2
    ensures Shaped(Total(q, arity, MatrixMerger(n, k)), n, 2 * k)
    ensures Total(q, arity, MatrixMerger(n, k))[t] == Total(RowsAt(q, t), arity, Merger(k))
    decreases |q|
  {
    hide MatrixMerger, Merger;
    if |q| <= arity {
      MatrixMergerRow(q, n, k, t);
    } else {
      MatrixMergerRow(q[..arity], n, k, t);
      var q' := Turn(q, arity, MatrixMerger(n, k));
      assert Results(q', n, k);
      assert RowsAt(q, t)[..arity] == RowsAt(q[..arity], t);
      assert RowsAt(q', t) == Turn(RowsAt(q, t), arity, Merger(k));
      TotalRow(q', n, k, arity, t);
    }
  }

  lemma RowsAtShape(q: seq<Matrix>, n: nat, k: nat, t: nat)
    requires Results(q, n, k) && t < n
    ensures Rows(RowsAt(q, t), k)
  {
  }

  lemma MergeOfOne(m: Matrix, q: seq<Matrix>, n: nat, k: nat, t: nat)
    requires q == [m] && Results(q, n, k) && t < n
    ensures |m| == n && Merger(k)(RowsAt(q, t)) == m[t]
  {
    RowsAtShape(q, n, k, t);
    var rows := RowsAt(q, t);
    assert q[0] == m && rows == [m[t]];
    assert MergeRow(rows, k) == m[t];
  }

  /** No label occurs more often than this one among some k nearest of all training pairs, and none
      that occurs as often belongs to a nearer one. */
  ghost predicate Classified(prediction: real, all: multiset<Pair>, k: nat) {
    exists near: seq<Pair> :: KNearest(near, all, k) && MostFrequent(prediction, LabelsOf(near))
  }

  function LabelsOf(ps: seq<Pair>): (ls: seq<real>)
    ensures |ls| == |ps| && forall i | 0 <= i < |ps| :: ls[i] == ps[i].cls
  {
    seq(|ps|, i requires 0 <= i < |ps| => ps[i].cls)
  }

  lemma PredictionIsClassified(train: seq<Matrix>, all: seq<Matrix>, x: Vec, n: nat, k: nat, dims: nat, arity: nat,
                               t: nat, nn: Search, dist: Metric, prediction: real)
    requires Trainings(train, dims, k) && train != [] && Exact(nn, dist) && k >= 2 && arity >= 2 && t < n
    requires |all| == |train| && Results(all, n, k)
    requires forall i | 0 <= i < |all| :: all[i][t] == FragRow(train[i], x, k, dims, nn, dist)
    requires var m := Total(all, arity, MatrixMerger(n, k));
             t < |m| && |m[t]| == 2 * k && prediction == Mode(m[t][k..])
    ensures Training(Stack(train), dims)
    ensures Classified(prediction, multiset(Offers(Stack(train), x, dims, dist)), k)
  {
    hide Total, MatrixMerger, KNearest, Offers, FragRow, Mode, FragRows, Exact, MostFrequent;
    TotalRow(all, n, k, arity, t);
    RowsAreFragRows(train, RowsAt(all, t), x, k, dims, nn, dist);
    ReducedRowIsNearest(train, x, k, dims, arity, nn, dist);
    var row := Total(all, arity, MatrixMerger(n, k))[t];
    assert LabelsOf(Pairs(row, k)) == row[k..];
    ModeIff(row[k..], prediction);
  }

  lemma {:induction false} RowsAreFragRows(train: seq<Matrix>, rows: seq<seq<real>>, x: Vec, k: nat, dims: nat,
                                           nn: Search, dist: Metric)
    requires Trainings(train, dims, k) && Exact(nn, dist) && |rows| == |train|
    requires forall i | 0 <= i < |rows| :: rows[i] == FragRow(train[i], x, k, dims, nn, dist)
    ensures rows == FragRows(train, x, k, dims, nn, dist)
  {
    hide FragRow;
    if train != [] {
      RowsAreFragRows(train[1..], rows[1..], x, k, dims, nn, dist);
      assert rows == [rows[0]] + rows[1..];
    }
  }
}
