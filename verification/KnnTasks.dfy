/** The KNN tasks as R computes them. `x[, a:b]` is a bare vector when it selects one column or has
    one row to select from; `cbind` takes such a vector for a column; NA fills what is missing. */
module KnnTasks {
  import opened Knn
  import opened LinearAlgebra
  import opened Nearest
  import opened Options
  import opened TreeReduction

  /** A number, or None for NA. A sheet is the rows of an R matrix of such cells. */
  type Cell = Option<real>
  type Sheet = seq<seq<Cell>>

  function LiftRow(r: seq<real>): (c: seq<Cell>)
    ensures |c| == |r| && forall i | 0 <= i < |r| :: c[i] == Some(r[i])
  {
    seq(|r|, i requires 0 <= i < |r| => Some(r[i]))
  }

  function Lift(m: Matrix): (x: Sheet)
    ensures |x| == |m| && forall i | 0 <= i < |m| :: x[i] == LiftRow(m[i])
  {
    seq(|m|, i requires 0 <= i < |m| => LiftRow(m[i]))
  }

  function LiftAll(ms: seq<Matrix>): (xs: seq<Sheet>)
    ensures |xs| == |ms| && forall i | 0 <= i < |ms| :: xs[i] == Lift(ms[i])
  {
    seq(|ms|, i requires 0 <= i < |ms| => Lift(ms[i]))
  }

  predicate Wide(x: Sheet, k: nat) {
    x != [] && forall i | 0 <= i < |x| :: |x[i]| == 2 * k
  }

  predicate AllWide(xs: seq<Sheet>, k: nat) {
    forall i | 0 <= i < |xs| :: Wide(xs[i], k)
  }

  // ---------- Selecting columns and binding them ----------

  datatype Selection = Flat(cells: seq<Cell>) | Grid(rows: Sheet)

  /** `x[, (from + 1):to]`. */
  function Columns(x: Sheet, from: nat, to: nat): Selection
    requires x != [] && from < to && forall i | 0 <= i < |x| :: to <= |x[i]|
  {
    if to - from == 1 then Flat(seq(|x|, i requires 0 <= i < |x| => x[i][from]))
    else if |x| == 1 then Flat(x[0][from..to])
    else Grid(seq(|x|, i requires 0 <= i < |x| => x[i][from..to]))
  }

  function Height(s: Selection): nat {
    match s case Flat(cells) => |cells| case Grid(rows) => |rows|
  }

  /** The number of rows of the bound matrix: that of the first matrix, else of the longest vector. */
  function BoundRows(sels: seq<Selection>): nat {
    if sels == [] then 0
    else if sels[0].Grid? || (!HasGrid(sels[1..]) && BoundRows(sels[1..]) < Height(sels[0])) then Height(sels[0])
    else BoundRows(sels[1..])
  }

  predicate HasGrid(sels: seq<Selection>) {
    exists i | 0 <= i < |sels| :: sels[i].Grid?
  }

  /** Row r of one selection; a vector is one cell wide and is recycled. */
  function RowOf(s: Selection, r: nat): seq<Cell> {
    match s
    case Flat(cells) => if cells == [] then [] else [cells[r % |cells|]]
    case Grid(rows) => if r < |rows| then rows[r] else []
  }

  function RowAcross(sels: seq<Selection>, r: nat): seq<Cell> {
    if sels == [] then [] else RowOf(sels[0], r) + RowAcross(sels[1..], r)
  }

  /** `do.call(cbind, sels)`; None is the stop on matrices of different heights. */
  function Cbind(sels: seq<Selection>): Option<Sheet> {
    var h := BoundRows(sels);
    if exists i | 0 <= i < |sels| :: sels[i].Grid? && |sels[i].rows| != h then None
    else Some(seq(h, (r: nat) => RowAcross(sels, r)))
  }

  function ColumnsOfAll(xs: seq<Sheet>, from: nat, to: nat): (sels: seq<Selection>)
    requires from < to && forall i | 0 <= i < |xs| :: xs[i] != [] && forall j | 0 <= j < |xs[i]| :: to <= |xs[i][j]|
    ensures |sels| == |xs| && forall i | 0 <= i < |xs| :: sels[i] == Columns(xs[i], from, to)
  {
    seq(|xs|, i requires 0 <= i < |xs| => Columns(xs[i], from, to))
  }

  // ---------- KNN_merge ----------

  function Values(d: seq<Cell>): (r: seq<real>)
    ensures |r| == |d| && forall i | 0 <= i < |d| :: d[i].Some? ==> r[i] == d[i].value
  {
    seq(|d|, i requires 0 <= i < |d| => if d[i].Some? then d[i].value else 0.0)
  }

  /** `sort(d, index.return = TRUE)$ix` on the first n cells: stable, ascending, without the NAs. */
  function CellOrder(d: seq<Cell>, n: nat): (ix: seq<nat>)
    requires n <= |d|
    ensures |ix| <= n && InBounds(ix, |d|)
  {
    if n == 0 then []
    else if d[n - 1].None? then CellOrder(d, n - 1)
    else Insert(Values(d), CellOrder(d, n - 1), n - 1)
  }

  /** The first k of them, NA where there are fewer. */
  function FirstK(d: seq<Cell>, k: nat): (ix: seq<Option<nat>>)
    ensures |ix| == k && forall j | 0 <= j < k && ix[j].Some? :: ix[j].value < |d|
  {
    var o := CellOrder(d, |d|);
    seq(k, j requires 0 <= j < k => if j < |o| then Some(o[j]) else None)
  }

  /** Indexing by pairs of a row and a position, NA where the position is NA. */
  function Pick(row: seq<Cell>, ix: seq<Option<nat>>): (r: seq<Cell>)
    ensures |r| == |ix|
  {
    seq(|ix|, j requires 0 <= j < |ix| => if ix[j].Some? && ix[j].value < |row| then row[ix[j].value] else None)
  }

  function MergedRow(dist: seq<Cell>, labels: seq<Cell>, k: nat): (r: seq<Cell>)
    ensures |r| == 2 * k
  {
    Pick(dist, FirstK(dist, k)) + Pick(labels, FirstK(dist, k))
  }

  /** `KNN_merge`; None is a stop. */
  function MergeSheets(input: seq<Sheet>, k: nat): Option<Sheet>
    requires input != [] && k >= 1 && AllWide(input, k)
  {
    if |input| == 1 then Some(input[0]) else
    match (Cbind(ColumnsOfAll(input, 0, k)), Cbind(ColumnsOfAll(input, k, 2 * k)))
    case (Some(dist), Some(labels)) =>
      Some(seq(|dist|, r requires 0 <= r < |dist| => MergedRow(dist[r], if r < |labels| then labels[r] else [], k)))
    case _ => None
  }

  // ---------- KNN_classify ----------

  /** `KNN_classify`: a last merge, then `apply` over the rows of the label columns, which stops on
      a bare vector. */
  function ClassifySheets(input: seq<Sheet>, k: nat): Option<seq<Cell>>
    requires input != [] && k >= 1 && AllWide(input, k)
  {
    match MergeSheets(input, k)
    case None => None
    case Some(m) =>
      if m == [] || exists i | 0 <= i < |m| :: |m[i]| != 2 * k then None else
      match Columns(m, k, 2 * k)
      case Flat(_) => None
      case Grid(rows) =>
        Some(seq(|rows|, r requires 0 <= r < |rows| => if rows[r] == [] then None else Mode(rows[r])))
  }

  /** The rows of a fragment's result: `KNN_frag`. */
  function FragSheet(train: Matrix, test: Matrix, k: nat, dims: nat, nn: Search, dist: Metric): (x: Matrix)
    requires Training(train, dims) && k <= |train| && Exact(nn, dist)
    requires forall t | 0 <= t < |test| :: dims <= |test[t]|
    ensures Shaped(x, |test|, 2 * k)
    ensures forall t | 0 <= t < |test| :: x[t] == FragRow(train, test[t][..dims], k, dims, nn, dist)
  {
    seq(|test|, t requires 0 <= t < |test| => FragRow(train, test[t][..dims], k, dims, nn, dist))
  }

  // ---------- Two or more test rows: every row on its own ----------

  /** Where a selection keeps its shape, or is one column, its rows are those of the sheet. */
  lemma RowOfColumns(x: Sheet, from: nat, to: nat, r: nat)
    requires x != [] && from < to && (forall i | 0 <= i < |x| :: to <= |x[i]|) && r < |x|
    requires |x| >= 2 || to - from == 1
    ensures RowOf(Columns(x, from, to), r) == x[r][from..to] && Height(Columns(x, from, to)) == |x|
  {
  }

  lemma {:induction false} BoundRowsOfEqual(sels: seq<Selection>, n: nat)
    requires sels != [] && forall i | 0 <= i < |sels| :: Height(sels[i]) == n
    ensures BoundRows(sels) == n
  {
    if |sels| > 1 {
      assert forall i | 0 <= i < |sels[1..]| :: Height(sels[1..][i]) == Height(sels[i + 1]);
      BoundRowsOfEqual(sels[1..], n);
    }
  }

  lemma CbindOfEqual(sels: seq<Selection>, n: nat)
    requires sels != [] && forall i | 0 <= i < |sels| :: Height(sels[i]) == n
    ensures Cbind(sels).Some? && |Cbind(sels).value| == n
    ensures forall r | 0 <= r < n :: Cbind(sels).value[r] == RowAcross(sels, r)
  {
    BoundRowsOfEqual(sels, n);
  }

  lemma {:induction false} DistancesAcross(ms: seq<Matrix>, sels: seq<Selection>, n: nat, k: nat, r: nat)
    requires Results(ms, n, k) && r < n && |sels| == |ms|
    requires forall i | 0 <= i < |ms| :: RowOf(sels[i], r) == LiftRow(ms[i][r])[..k]
    ensures Rows(RowsAt(ms, r), k) && RowAcross(sels, r) == LiftRow(AllDists(RowsAt(ms, r), k))
  {
    RowsAtShape(ms, n, k, r);
    if ms != [] {
      assert RowsAt(ms, r)[1..] == RowsAt(ms[1..], r);
      DistancesAcross(ms[1..], sels[1..], n, k, r);
    }
  }

  lemma {:induction false} LabelsAcross(ms: seq<Matrix>, sels: seq<Selection>, n: nat, k: nat, r: nat)
    requires Results(ms, n, k) && r < n && |sels| == |ms|
    requires forall i | 0 <= i < |ms| :: RowOf(sels[i], r) == LiftRow(ms[i][r])[k..]
    ensures Rows(RowsAt(ms, r), k) && RowAcross(sels, r) == LiftRow(AllLabels(RowsAt(ms, r), k))
  {
    RowsAtShape(ms, n, k, r);
    if ms != [] {
      assert RowsAt(ms, r)[1..] == RowsAt(ms[1..], r);
      LabelsAcross(ms[1..], sels[1..], n, k, r);
    }
  }

  lemma {:induction false} OrderOfNumbers(ds: seq<real>, n: nat)
    requires n <= |ds|
    ensures CellOrder(LiftRow(ds), n) == Order(ds, n)
  {
    assert Values(LiftRow(ds)) == ds;
    if n > 0 { OrderOfNumbers(ds, n - 1); }
  }

  lemma PickNumbers(xs: seq<real>, ix: seq<nat>, picks: seq<Option<nat>>)
    requires InBounds(ix, |xs|) && |picks| == |ix| && forall j | 0 <= j < |ix| :: picks[j] == Some(ix[j])
    ensures Pick(LiftRow(xs), picks) == LiftRow(Gather(xs, ix))
  {
  }

  lemma LiftConcat(a: seq<real>, b: seq<real>)
    ensures LiftRow(a) + LiftRow(b) == LiftRow(a + b)
  {
  }

  lemma MergedNumbers(ds: seq<real>, ls: seq<real>, k: nat)
    requires k <= |ds| == |ls|
    ensures MergedRow(LiftRow(ds), LiftRow(ls), k) ==
            LiftRow(Gather(ds, Order(ds, |ds|)[..k]) + Gather(ls, Order(ds, |ds|)[..k]))
  {
    hide Pick, Gather, LiftRow, Order, CellOrder;
    OrderOfNumbers(ds, |ds|);
    var ix := Order(ds, |ds|)[..k];
    var picks := FirstK(LiftRow(ds), k);
    assert forall j | 0 <= j < k :: picks[j] == Some(ix[j]);
    hide FirstK;
    PickNumbers(ds, ix, picks);
    PickNumbers(ls, ix, picks);
    LiftConcat(Gather(ds, ix), Gather(ls, ix));
  }

  lemma MergedSheetRow(ms: seq<Matrix>, n: nat, k: nat, r: nat)
    requires |ms| >= 2 && Results(ms, n, k) && r < n && k >= 1
    ensures Rows(RowsAt(ms, r), k)
    ensures var rows := RowsAt(ms, r);
            MergedRow(LiftRow(AllDists(rows, k)), LiftRow(AllLabels(rows, k)), k) == LiftRow(MergeRow(rows, k))
  {
    RowsAtShape(ms, n, k, r);
    var rows := RowsAt(ms, r);
    assert |rows| * k >= k;
    MergedNumbers(AllDists(rows, k), AllLabels(rows, k), k);
  }

  lemma LiftedIsWide(ms: seq<Matrix>, n: nat, k: nat)
    requires Results(ms, n, k) && n >= 1
    ensures AllWide(LiftAll(ms), k)
  {
  }

  /** With two or more test rows, or with one neighbour, merging is merging row by row. */
  lemma RegularMerge(ms: seq<Matrix>, n: nat, k: nat)
    requires ms != [] && Results(ms, n, k) && n >= 1 && k >= 1 && (n >= 2 || k == 1 || |ms| == 1)
    ensures AllWide(LiftAll(ms), k) && MergeSheets(LiftAll(ms), k) == Some(Lift(MatrixMerger(n, k)(ms)))
  {
    hide MatrixMerger, MergeRow, MergedRow, Cbind, RowOf, Columns, RowAcross;
    LiftedIsWide(ms, n, k);
    var input := LiftAll(ms);
    MatrixMergerRow(ms, n, k, 0);
    if |ms| == 1 {
      forall t | 0 <= t < n ensures MatrixMerger(n, k)(ms)[t] == ms[0][t] {
        MatrixMergerRow(ms, n, k, t);
        MergeOfOne(ms[0], ms, n, k, t);
      }
      assert MatrixMerger(n, k)(ms) == ms[0];
    } else {
      var ds, ls := ColumnsOfAll(input, 0, k), ColumnsOfAll(input, k, 2 * k);
      forall i, r | 0 <= i < |ms| && 0 <= r < n
        ensures RowOf(ds[i], r) == LiftRow(ms[i][r])[..k] && RowOf(ls[i], r) == LiftRow(ms[i][r])[k..]
        ensures Height(ds[i]) == n && Height(ls[i]) == n
      {
        RowOfColumns(input[i], 0, k, r);
        RowOfColumns(input[i], k, 2 * k, r);
      }
      assert RowOf(ds[0], 0) == LiftRow(ms[0][0])[..k];
      forall i | 0 <= i < |ms| ensures Height(ds[i]) == n && Height(ls[i]) == n {
        assert RowOf(ds[i], 0) == LiftRow(ms[i][0])[..k];
      }
      CbindOfEqual(ds, n);
      CbindOfEqual(ls, n);
      var merged := MergeSheets(input, k).value;
      forall r | 0 <= r < n ensures merged[r] == LiftRow(MatrixMerger(n, k)(ms)[r]) {
        DistancesAcross(ms, ds, n, k, r);
        LabelsAcross(ms, ls, n, k, r);
        MergedSheetRow(ms, n, k, r);
        MatrixMergerRow(ms, n, k, r);
      }
      assert merged == Lift(MatrixMerger(n, k)(ms));
    }
  }

  // ---------- A lone test row: the fragments are mixed rank by rank ----------

  /** One row as the search returns it, or k rows as a merge of such sheets leaves them. */
  predicate Lone(x: Sheet, k: nat) {
    Wide(x, k) && (|x| == 1 || |x| == k)
  }

  predicate AllLone(xs: seq<Sheet>, k: nat) {
    forall i | 0 <= i < |xs| :: Lone(xs[i], k)
  }

  lemma LoneColumns(x: Sheet, from: nat, k: nat)
    requires Lone(x, k) && k >= 2 && (from == 0 || from == k)
    ensures Height(Columns(x, from, from + k)) == k
  {
  }

  /** With two or more neighbours, merging the results of a lone test row gives k rows for it. */
  lemma LoneMerge(input: seq<Sheet>, k: nat)
    requires |input| >= 2 && k >= 2 && AllLone(input, k)
    ensures AllWide(input, k) && MergeSheets(input, k).Some?
    ensures var m := MergeSheets(input, k).value; |m| == k && Lone(m, k)
  {
    hide Cbind, Columns, MergedRow;
    var ds, ls := ColumnsOfAll(input, 0, k), ColumnsOfAll(input, k, 2 * k);
    forall i | 0 <= i < |input| ensures Height(ds[i]) == k && Height(ls[i]) == k {
      assert Lone(input[i], k);
      LoneColumns(input[i], 0, k);
      LoneColumns(input[i], k, k);
    }
    CbindOfEqual(ds, k);
    CbindOfEqual(ls, k);
  }

  /** The cells of rank r in the half that starts at `from`: one of a row from the search, a whole
      row of a sheet that was merged before. */
  function OfRank(x: Sheet, from: nat, r: nat, k: nat): seq<Cell>
    requires Lone(x, k) && r < k && from + k <= 2 * k
  {
    if |x| == 1 then [x[0][from + r]] else x[r][from..from + k]
  }

  function OfRankAcross(xs: seq<Sheet>, from: nat, r: nat, k: nat): seq<Cell>
    requires AllLone(xs, k) && r < k && from + k <= 2 * k
  {
    if xs == [] then [] else OfRank(xs[0], from, r, k) + OfRankAcross(xs[1..], from, r, k)
  }

  lemma RowOfRank(x: Sheet, from: nat, r: nat, k: nat)
    requires Lone(x, k) && r < k && k >= 2 && (from == 0 || from == k)
    ensures RowOf(Columns(x, from, from + k), r) == OfRank(x, from, r, k)
  {
    if |x| == 1 {
      var half := x[0][from..from + k];
      assert Columns(x, from, from + k) == Flat(half);
      assert RowOf(Flat(half), r) == [half[r]] by { Small(r, k); }
    }
  }

  lemma Small(r: nat, k: nat)
    requires r < k
    ensures r % k == r
  {
  }

  lemma {:induction false} LoneRowAcross(xs: seq<Sheet>, sels: seq<Selection>, from: nat, r: nat, k: nat)
    requires AllLone(xs, k) && r < k && from + k <= 2 * k && |sels| == |xs|
    requires forall i | 0 <= i < |xs| :: RowOf(sels[i], r) == OfRank(xs[i], from, r, k)
    ensures RowAcross(sels, r) == OfRankAcross(xs, from, r, k)
  {
    hide RowOf, OfRank;
    if xs != [] { LoneRowAcross(xs[1..], sels[1..], from, r, k); }
  }

  /** Row r of the merged sheet is not about a test row: it sorts the cells of rank r of all inputs,
      labels moving with their distances, and is filled up with NA. */
  lemma LoneMergeRow(input: seq<Sheet>, k: nat, r: nat)
    requires |input| >= 2 && k >= 2 && AllLone(input, k) && r < k
    ensures AllWide(input, k) && MergeSheets(input, k).Some? && |MergeSheets(input, k).value| == k
    ensures MergeSheets(input, k).value[r] == MergedRow(OfRankAcross(input, 0, r, k), OfRankAcross(input, k, r, k), k)
  {
    hide Cbind, Columns, MergedRow, RowAcross, RowOf, OfRank, OfRankAcross;
    var ds, ls := ColumnsOfAll(input, 0, k), ColumnsOfAll(input, k, 2 * k);
    forall i | 0 <= i < |input|
      ensures Height(ds[i]) == k && RowOf(ds[i], r) == OfRank(input[i], 0, r, k)
      ensures Height(ls[i]) == k && RowOf(ls[i], r) == OfRank(input[i], k, r, k)
    {
      LoneColumns(input[i], 0, k);
      LoneColumns(input[i], k, k);
      RowOfRank(input[i], 0, r, k);
      RowOfRank(input[i], k, r, k);
    }
    hide Height, Lone;
    CbindOfEqual(ds, k);
    CbindOfEqual(ls, k);
    LoneRowAcross(input, ds, 0, r, k);
    LoneRowAcross(input, ls, k, r, k);
  }

  /** With NAs among the distances the sort keeps the numbers only: each of their positions once,
      ascending, and ties in their order. */
  lemma {:induction false} CellOrderSorts(d: seq<Cell>, n: nat)
    requires n <= |d|
    ensures var o := CellOrder(d, n);
            && Distinct(o) && (forall x: nat :: x in o <==> x < n && d[x].Some?)
            && Ascending(Values(d), o) && Stable(Values(d), o)
  {
    hide Insert, Values;
    if n > 0 {
      CellOrderSorts(d, n - 1);
      if d[n - 1].Some? {
        var o := CellOrder(d, n - 1);
        InsertKeepsDistinct(Values(d), o, n - 1);
        InsertAscends(Values(d), o, n - 1);
        InsertIsStable(Values(d), o, n - 1);
      }
    }
  }

  /** Merging is merging row by row exactly with two or more test rows, one neighbour, or nothing
      to merge. */
  lemma MergeIsRegularIff(ms: seq<Matrix>, n: nat, k: nat)
    requires ms != [] && Results(ms, n, k) && n >= 1 && k >= 1
    ensures AllWide(LiftAll(ms), k)
    ensures MergeSheets(LiftAll(ms), k) == Some(Lift(MatrixMerger(n, k)(ms))) <==> n >= 2 || k == 1 || |ms| == 1
  {
    hide MatrixMerger, MergeSheets;
    LiftedIsWide(ms, n, k);
    if n >= 2 || k == 1 || |ms| == 1 {
      RegularMerge(ms, n, k);
    } else {
      LoneMerge(LiftAll(ms), k);
      MatrixMergerRow(ms, n, k, 0);
    }
  }

  // ---------- Classification ----------

  lemma {:induction false} CountOfNumbers(xs: seq<real>, x: real)
    ensures Count(LiftRow(xs), Some(x)) == Count(xs, x)
  {
    if xs != [] {
      assert LiftRow(xs)[1..] == LiftRow(xs[1..]);
      CountOfNumbers(xs[1..], x);
    }
  }

  lemma {:induction false} UniqueOfNumbers(xs: seq<real>)
    ensures Unique(LiftRow(xs)) == LiftRow(Unique(xs))
  {
    if xs != [] {
      var front, last := xs[..|xs| - 1], xs[|xs| - 1];
      UniqueOfNumbers(front);
      assert LiftRow(xs)[..|xs| - 1] == LiftRow(front) && LiftRow(xs)[|xs| - 1] == Some(last);
      var u := Unique(front);
      assert last in u <==> Some(last) in LiftRow(u) by {
        if last in u { var i :| 0 <= i < |u| && u[i] == last; assert LiftRow(u)[i] == Some(last); }
      }
      assert LiftRow(u) + [Some(last)] == LiftRow(u + [last]);
    }
  }

  lemma ModeOfNumbers(xs: seq<real>)
    requires xs != []
    ensures Mode(LiftRow(xs)) == Some(Mode(xs))
  {
    hide Count, Unique;
    UniqueOfNumbers(xs);
    var u := Unique(xs);
    forall i | 0 <= i < |u| ensures Tabulate(LiftRow(xs), LiftRow(u))[i] == Tabulate(xs, u)[i] {
      CountOfNumbers(xs, u[i]);
    }
    assert Tabulate(LiftRow(xs), LiftRow(u)) == Tabulate(xs, u);
    assert xs[0] in u;
    assert LiftRow(xs)[0] in Unique(LiftRow(xs));
  }

  lemma LabelColumns(m: Matrix, n: nat, k: nat)
    requires Shaped(m, n, 2 * k) && n >= 2 && k >= 2
    ensures Columns(Lift(m), k, 2 * k) == Grid(seq(n, t requires 0 <= t < n => LiftRow(m[t][k..])))
  {
    forall t | 0 <= t < n ensures Lift(m)[t][k..2 * k] == LiftRow(m[t][k..]) {
    }
  }

  /** With two or more test rows and neighbours, each row gets the mode of its labels. */
  lemma RegularClassification(ms: seq<Matrix>, n: nat, k: nat)
    requires ms != [] && Results(ms, n, k) && n >= 2 && k >= 2
    ensures AllWide(LiftAll(ms), k)
    ensures var (r, m) := (ClassifySheets(LiftAll(ms), k), MatrixMerger(n, k)(ms));
            && Shaped(m, n, 2 * k) && r.Some? && |r.value| == n
            && forall t | 0 <= t < n :: r.value[t] == Some(Mode(m[t][k..]))
  {
    hide MatrixMerger, MergeSheets, Mode, Columns, Results;
    RegularMerge(ms, n, k);
    MatrixMergerRow(ms, n, k, 0);
    var m := MatrixMerger(n, k)(ms);
    LabelColumns(m, n, k);
    var r := ClassifySheets(LiftAll(ms), k);
    hide LiftAll, Lift, LiftRow;
    forall t | 0 <= t < n ensures r.value[t] == Some(Mode(m[t][k..])) {
      ModeOfNumbers(m[t][k..]);
    }
  }

  /** A single neighbour leaves one column of labels, and so does a lone row that nothing was merged
      into: `apply` stops. */
  lemma ClassificationStops(input: seq<Sheet>, k: nat)
    requires input != [] && k >= 1 && AllWide(input, k) && (k == 1 || (|input| == 1 && |input[0]| == 1))
    ensures ClassifySheets(input, k) == None
  {
    hide MergeSheets;
    if |input| == 1 { assert MergeSheets(input, k) == Some(input[0]) by { MergeOfLoneSheet(input, k); } }
  }

  lemma MergeOfLoneSheet(input: seq<Sheet>, k: nat)
    requires |input| == 1 && k >= 1 && AllWide(input, k)
    ensures MergeSheets(input, k) == Some(input[0])
  {
  }

  /** A lone test row that was merged gets k predictions, one for each rank. */
  lemma LoneClassification(input: seq<Sheet>, k: nat)
    requires |input| >= 2 && k >= 2 && AllLone(input, k)
    ensures AllWide(input, k) && ClassifySheets(input, k).Some? && |ClassifySheets(input, k).value| == k
  {
    hide MergeSheets, Mode;
    LoneMerge(input, k);
  }

  const FIRST: Matrix := [[1.0, 4.0, 1.0, 2.0]]
  const SECOND: Matrix := [[2.0, 3.0, 3.0, 4.0]]

  lemma TwoFragmentsBound()
    ensures AllWide([Lift(FIRST), Lift(SECOND)], 2)
    ensures Cbind(ColumnsOfAll([Lift(FIRST), Lift(SECOND)], 0, 2)) == Some([LiftRow([1.0, 2.0]), LiftRow([4.0, 3.0])])
    ensures Cbind(ColumnsOfAll([Lift(FIRST), Lift(SECOND)], 2, 4)) == Some([LiftRow([1.0, 3.0]), LiftRow([2.0, 4.0])])
  {
    hide Cbind, RowAcross, Columns;
    var input := [Lift(FIRST), Lift(SECOND)];
    assert AllWide(input, 2);
    var ds, ls := ColumnsOfAll(input, 0, 2), ColumnsOfAll(input, 2, 4);
    ColumnsOfFour(1.0, 4.0, 1.0, 2.0);
    ColumnsOfFour(2.0, 3.0, 3.0, 4.0);
    assert ds == [Flat(LiftRow([1.0, 4.0])), Flat(LiftRow([2.0, 3.0]))];
    assert ls == [Flat(LiftRow([1.0, 2.0])), Flat(LiftRow([3.0, 4.0]))];
    CbindOfEqual(ds, 2);
    CbindOfEqual(ls, 2);
    TwoAcross(ds[0], ds[1]);
    TwoAcross(ls[0], ls[1]);
    LiftTwo(1.0, 2.0);
    LiftTwo(4.0, 3.0);
    LiftTwo(1.0, 3.0);
    LiftTwo(2.0, 4.0);
    assert Cbind(ds).value == [LiftRow([1.0, 2.0]), LiftRow([4.0, 3.0])];
    assert Cbind(ls).value == [LiftRow([1.0, 3.0]), LiftRow([2.0, 4.0])];
  }

  lemma ColumnsOfFour(a: real, b: real, c: real, d: real)
    ensures var x := Lift([[a, b, c, d]]);
            Columns(x, 0, 2) == Flat(LiftRow([a, b])) && Columns(x, 2, 4) == Flat(LiftRow([c, d]))
  {
    var x := Lift([[a, b, c, d]]);
    assert x[0] == LiftRow([a, b, c, d]);
    assert x[0][0..2] == LiftRow([a, b]) && x[0][2..4] == LiftRow([c, d]);
  }

  lemma LiftTwo(x: real, y: real)
    ensures LiftRow([x, y]) == [Some(x), Some(y)]
  {
  }

  lemma TwoFragmentsMerged()
    ensures AllWide([Lift(FIRST), Lift(SECOND)], 2)
    ensures MergeSheets([Lift(FIRST), Lift(SECOND)], 2) ==
            Some([LiftRow([1.0, 2.0, 1.0, 3.0]), LiftRow([3.0, 4.0, 4.0, 2.0])])
  {
    hide Cbind, MergedRow, ColumnsOfAll, LiftRow, Lift, Order, Gather;
    TwoFragmentsBound();
    MergedNumbers([1.0, 2.0], [1.0, 3.0], 2);
    MergedNumbers([4.0, 3.0], [2.0, 4.0], 2);
    OrderOfTwo(1.0, 2.0);
    OrderOfTwo(4.0, 3.0);
    GatherTwo(1.0, 2.0);
    GatherTwo(1.0, 3.0);
    GatherTwo(4.0, 3.0);
    GatherTwo(2.0, 4.0);
    assert [1.0, 2.0] + [1.0, 3.0] == [1.0, 2.0, 1.0, 3.0] && [3.0, 4.0] + [4.0, 2.0] == [3.0, 4.0, 4.0, 2.0];
    var m := MergeSheets([Lift(FIRST), Lift(SECOND)], 2).value;
    assert m[0] == LiftRow([1.0, 2.0, 1.0, 3.0]);
    assert m[1] == LiftRow([3.0, 4.0, 4.0, 2.0]);
    assert m == [LiftRow([1.0, 2.0, 1.0, 3.0]), LiftRow([3.0, 4.0, 4.0, 2.0])];
  }

  lemma GatherTwo(x: real, y: real)
    ensures Gather([x, y], [0, 1][..2]) == [x, y] && Gather([x, y], [1, 0][..2]) == [y, x]
  {
  }

  /** One test row, two training fragments and two neighbours: labels 1 and 2 at distances 1 and 4
      in the first fragment, 3 and 4 at distances 2 and 3 in the second. The two nearest carry the
      labels 1 and 3; the program answers with two predictions, 1 and 4. */
  lemma LoneTestRowGetsTwoPredictions()
    ensures AllWide([Lift(FIRST), Lift(SECOND)], 2)
    ensures ClassifySheets([Lift(FIRST), Lift(SECOND)], 2) == Some([Some(1.0), Some(4.0)])
  {
    TwoFragmentsMerged();
    hide MergeSheets, Lift, Mode, Columns;
    var m := [[1.0, 2.0, 1.0, 3.0], [3.0, 4.0, 4.0, 2.0]];
    LiftOfTwo(m);
    LabelColumns(m, 2, 2);
    assert m[0][2..] == [1.0, 3.0] && m[1][2..] == [4.0, 2.0];
    ModeOfNumbers([1.0, 3.0]);
    ModeOfNumbers([4.0, 2.0]);
    ModeOfTwo(1.0, 3.0);
    ModeOfTwo(4.0, 2.0);
    var r := ClassifySheets([Lift(FIRST), Lift(SECOND)], 2).value;
    assert r[0] == Some(1.0) && r[1] == Some(4.0);
    assert r == [Some(1.0), Some(4.0)];
  }

  lemma LiftOfTwo(m: Matrix)
    requires |m| == 2
    ensures Lift(m) == [LiftRow(m[0]), LiftRow(m[1])]
  {
  }

  lemma TwoAcross(s: Selection, t: Selection)
    requires s.Flat? && t.Flat? && |s.cells| == |t.cells| == 2
    ensures RowAcross([s, t], 0) == [s.cells[0], t.cells[0]] && RowAcross([s, t], 1) == [s.cells[1], t.cells[1]]
  {
    forall r: nat | r < 2 ensures RowAcross([s, t], r) == [s.cells[r], t.cells[r]] {
      assert [s, t][1..] == [t] && [t][1..] == [];
      assert RowAcross([], r) == [] && RowAcross([t], r) == RowOf(t, r) + RowAcross([], r) == [t.cells[r]];
    }
  }

  lemma OrderOfTwo(x: real, y: real)
    ensures Order([x, y], 2) == if y < x then [1, 0] else [0, 1]
  {
    var ds := [x, y];
    assert Order(ds, 0) == [] && Insert(ds, [], 0) == [0] && Order(ds, 1) == [0];
    assert [0][1..] == [] && Insert(ds, [], 1) == [1];
  }

  lemma ModeOfTwo(x: real, y: real)
    requires x != y
    ensures Mode([x, y]) == x
  {
    assert [x, y][..1] == [x] && [x][..0] == [] && [x, y][1..] == [y];
    assert Unique([x]) == [x] && Unique([x, y]) == [x, y];
    assert multiset([x, y])[x] == 1 && multiset([x, y])[y] == 1;
    assert Tabulate([x, y], [x, y]) == [1, 1];
  }

  // ---------- KNN ----------

  ghost predicate Tests(test: Matrix, dims: nat) {
    test != [] && forall t | 0 <= t < |test| :: dims <= |test[t]|
  }

  /** One prediction for each test row, each a most frequent label among some k nearest of all
      training pairs. */
  ghost predicate AllClassified(predictions: seq<Cell>, train: Matrix, test: Matrix, k: nat, dims: nat, dist: Metric)
    requires Training(train, dims) && Tests(test, dims)
  {
    |predictions| == |test| &&
    forall t | 0 <= t < |test| ::
      predictions[t].Some? && Classified(predictions[t].value, multiset(Offers(train, test[t][..dims], dims, dist)), k)
  }

  /** The queue of results while it is reduced, by the number of test rows and neighbours. */
  ghost predicate Queue(res: seq<Sheet>, ms: seq<Matrix>, all: seq<Matrix>, n: nat, k: nat, arity: nat)
    requires arity >= 2
  {
    && res != [] && AllWide(res, k)
    && (n >= 2 || k == 1 ==>
          res == LiftAll(ms) && Results(ms, n, k) && ms != []
          && Reduce(ms, arity, MatrixMerger(n, k)) == Reduce(all, arity, MatrixMerger(n, k)))
    && (n == 1 && k >= 2 ==> AllLone(res, k) && (|all| >= 2 ==> |res| >= 2) && (|all| == 1 ==> res == LiftAll(all)))
  }

  lemma QueueStarts(all: seq<Matrix>, n: nat, k: nat, arity: nat)
    requires all != [] && Results(all, n, k) && n >= 1 && k >= 1 && arity >= 2
    ensures Queue(LiftAll(all), all, all, n, k, arity)
  {
    LiftedIsWide(all, n, k);
  }

  /** A turn of the loop never stops. */
  lemma QueueTurns(res: seq<Sheet>, ms: seq<Matrix>, all: seq<Matrix>, n: nat, k: nat, arity: nat)
    returns (ms': seq<Matrix>)
    requires n >= 1 && k >= 1 && arity >= 2 && Queue(res, ms, all, n, k, arity) && |res| > arity
    ensures var m := MergeSheets(res[..arity], k);
            m.Some? && Queue(res[arity..] + [m.value], ms', all, n, k, arity)
  {
    hide MatrixMerger, MergeSheets, Merger;
    if n >= 2 || k == 1 {
      assert LiftAll(ms)[..arity] == LiftAll(ms[..arity]) && LiftAll(ms)[arity..] == LiftAll(ms[arity..]);
      RegularMerge(ms[..arity], n, k);
      MatrixMergerRow(ms[..arity], n, k, 0);
      ms' := Turn(ms, arity, MatrixMerger(n, k));
      assert res[arity..] + [MergeSheets(res[..arity], k).value] == LiftAll(ms');
      LiftedIsWide(ms', n, k);
    } else {
      LoneMerge(res[..arity], k);
      ms' := ms;
    }
  }

  /** The loop over the queue and the final classification; None is a stop. */
  method ReduceAndClassify(all: seq<Matrix>, n: nat, k: nat, arity: nat)
    returns (r: Option<seq<Cell>>, ghost turns: nat)
    requires all != [] && Results(all, n, k) && n >= 1 && k >= 1 && arity >= 2
    ensures turns == Turns(|all|, arity)
    ensures r.None? <==> k == 1 || (n == 1 && |all| == 1)
    ensures n == 1 && r.Some? ==> |r.value| == k
    ensures n >= 2 && k >= 2 ==>
              var m := Total(all, arity, MatrixMerger(n, k));
              && r.Some? && |r.value| == n
              && forall t | 0 <= t < n :: t < |m| && |m[t]| == 2 * k && r.value[t] == Some(Mode(m[t][k..]))
  {
    hide MatrixMerger, MergeSheets, ClassifySheets, Mode;
    var res := LiftAll(all);
    ghost var ms := all;
    QueueStarts(all, n, k, arity);
    turns := 0;
    while |res| > arity
      invariant Queue(res, ms, all, n, k, arity)
      invariant turns + Turns(|res|, arity) == Turns(|all|, arity)
      decreases |res|
    {
      ghost var next := QueueTurns(res, ms, all, n, k, arity);
      var subset := res[..arity];
      var rest := res[arity..];
      assert AllWide(subset, k);
      var m := MergeSheets(subset, k);
      res := rest + [m.value];
      ms := next;
      turns := turns + 1;
    }
    r := ClassifySheets(res, k);
    if k == 1 {
      ClassificationStops(res, k);
    } else if n >= 2 {
      RegularClassification(ms, n, k);
    } else if |all| == 1 {
      ClassificationStops(res, k);
    } else {
      LoneClassification(res, k);
    }
  }

  method FragMatrices(train: seq<Matrix>, test: Matrix, k: nat, dims: nat, nn: Search, dist: Metric)
    returns (res: seq<Matrix>)
    requires Trainings(train, dims, k) && Tests(test, dims) && Exact(nn, dist)
    ensures |res| == |train| && Results(res, |test|, k)
    ensures forall i, t | 0 <= i < |train| && 0 <= t < |test| ::
              res[i][t] == FragRow(train[i], test[t][..dims], k, dims, nn, dist)
  {
    hide FragRow, Exact;
    res := [];
    for j := 0 to |train|
      invariant |res| == j && Results(res, |test|, k)
      invariant forall i, t | 0 <= i < j && 0 <= t < |test| ::
                  res[i][t] == FragRow(train[i], test[t][..dims], k, dims, nn, dist)
    {
      res := res + [FragSheet(train[j], test, k, dims, nn, dist)];
    }
  }

  /** One test fragment. */
  method ClassifyFragment(train: seq<Matrix>, test: Matrix, k: nat, dims: nat, arity: nat, nn: Search, dist: Metric)
    returns (r: Option<seq<Cell>>)
    requires Trainings(train, dims, k) && train != [] && Tests(test, dims) && Exact(nn, dist) && k >= 1 && arity >= 2
    ensures Training(Stack(train), dims)
    ensures r.None? <==> k == 1 || (|test| == 1 && |train| == 1)
    ensures |test| == 1 && r.Some? ==> |r.value| == k
    ensures r.Some? && AllClassified(r.value, Stack(train), test, k, dims, dist) <==> k >= 2 && |test| >= 2
  {
    hide Classified, MatrixMerger, FragRow, Offers, Mode, Exact, Training;
    var n := |test|;
    var all := FragMatrices(train, test, k, dims, nn, dist);
    ghost var turns;
    r, turns := ReduceAndClassify(all, n, k, arity);
    OffersOfStack(train, [], dims, k, dist);
    if n >= 2 && k >= 2 {
      forall t | 0 <= t < n
        ensures Classified(r.value[t].value, multiset(Offers(Stack(train), test[t][..dims], dims, dist)), k)
      {
        PredictionIsClassified(train, all, test[t][..dims], n, k, dims, arity, t, nn, dist, r.value[t].value);
      }
    }
  }

  /** `KNN`: whatever the fragmentation and the arity, every test point of every test fragment gets
      one prediction, a most frequent label among k nearest points of the whole training data, if
      and only if there are two or more neighbours and two or more rows in every test fragment.
      None is a stop; a lone test row that does not stop gets k predictions. */
  method ClassifyAll(train: seq<Matrix>, tests: seq<Matrix>, k: nat, dims: nat, arity: nat, nn: Search, dist: Metric)
    returns (r: Option<seq<seq<Cell>>>)
    requires Trainings(train, dims, k) && train != [] && dims >= 1
    requires tests != [] && forall i | 0 <= i < |tests| :: Tests(tests[i], dims)
    requires Exact(nn, dist) && k >= 1 && arity >= 2
    ensures Training(Stack(train), dims)
    ensures (r.Some? && |r.value| == |tests| &&
             forall i | 0 <= i < |tests| :: AllClassified(r.value[i], Stack(train), tests[i], k, dims, dist)) <==>
            k >= 2 && forall i | 0 <= i < |tests| :: |tests[i]| >= 2
    ensures r.None? <==> k == 1 || (|train| == 1 && exists i | 0 <= i < |tests| :: |tests[i]| == 1)
    ensures r.Some? ==> |r.value| == |tests| && forall i | 0 <= i < |tests| && |tests[i]| == 1 :: |r.value[i]| == k
  {
    hide AllClassified, Exact, Training;
    OffersOfStack(train, [], dims, k, dist);
    var res := [];
    for i := 0 to |tests|
      invariant |res| == i && (i > 0 ==> k >= 2)
      invariant forall h | 0 <= h < i ::
                  AllClassified(res[h], Stack(train), tests[h], k, dims, dist) <==> |tests[h]| >= 2
      invariant forall h | 0 <= h < i && |tests[h]| == 1 :: |res[h]| == k && |train| >= 2
    {
      var predictions := ClassifyFragment(train, tests[i], k, dims, arity, nn, dist);
      if predictions.None? {
        if k >= 2 { assert |tests[i]| == 1; }
        return None;
      }
      res := res + [predictions.value];
    }
    r := Some(res);
    assert forall i | 0 <= i < |tests| :: Tests(tests[i], dims);
  }
}
